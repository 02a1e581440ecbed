/** Directories settle: no request but MOVE relocates one, except into the trash.
    `Settled` says of two stores that rows outside `files` stay where they are, that a
    directory keeps its path or goes from `files` to the trash, and that directories
    which were not there before carry etags drawn since.  It composes, single
    statements that only stamp or touch rows keep it, and so do inserting a file or a
    stamped directory, rewriting a file, removing a subtree below `files`, and moving
    a file or a trashed subtree.  The lemmas follow each request through these, with
    the same intermediate stores as the other proofs about it. */
module Settling {
  import opened Paths
  import opened Tree
  import opened Propagation
  import opened Stores
  import opened Statements
  import opened RowEdits
  import opened Operations
  import opened OperationProofs
  import opened RequestProofs
  import opened MoveProofs
  import opened TrashProofs
  import opened FileCacheProofs
  import opened Runs

  predicate InTop(p: Path, top: string) {
    p != [] && p[0] == top
  }

  /** Directories stay where they are, or go from `files` to the trash; rows outside
      `files` stay; new directories carry new etags. */
  ghost predicate Settled(s: Store, u: Store) {
    && s.nextId <= u.nextId && s.nextEtag <= u.nextEtag
    && (forall id :: id in u.rows && id !in s.rows ==> id >= s.nextId && (u.rows[id].isDir ==> u.rows[id].etag >= s.nextEtag))
    && (forall id :: id in s.rows && id in u.rows ==> SettledRow(s, s.rows[id], u.rows[id]))
    && (forall id :: id in s.rows && !InTop(s.rows[id].path, "files") ==>
          id in u.rows && u.rows[id].path == s.rows[id].path)
  }

  ghost predicate SettledRow(s: Store, before: Row, after: Row) {
    && after.isDir == before.isDir
    && (before.isDir ==>
          && (after.etag == before.etag || after.etag >= s.nextEtag)
          && (after.path == before.path || (InTop(before.path, "files") && InTop(after.path, "files_trashbin"))))
  }

  lemma SettledReflexive(s: Store)
    ensures Settled(s, s)
  {
  }

  lemma SettledTransitive(s: Store, u: Store, w: Store)
    requires Valid(s) && Settled(s, u) && Settled(u, w)
    ensures Settled(s, w)
  {
    forall id | id in s.rows && id in w.rows
      ensures SettledRow(s, s.rows[id], w.rows[id])
    {
      assert id in u.rows;
      assert SettledRow(s, s.rows[id], u.rows[id]) && SettledRow(u, u.rows[id], w.rows[id]);
    }
    forall id | id in w.rows && id !in s.rows
      ensures id >= s.nextId && (w.rows[id].isDir ==> w.rows[id].etag >= s.nextEtag)
    {
      if id in u.rows {
        assert SettledRow(u, u.rows[id], w.rows[id]);
      }
    }
  }

  // ── Requests that settle ───────────────────────────────────────────────────

  lemma QuietSettled(u: Store, w: Store, from: Path, to: Path)
    requires Quiet(u, w, from, to)
    ensures Settled(u, w)
  {
    forall id | id in u.rows && id in w.rows
      ensures SettledRow(u, u.rows[id], w.rows[id])
    {
      assert QuietRow(u, u.rows[id], w.rows[id], from, to);
    }
  }

  /** Rows settle, and quiet statements follow. */
  lemma ThenQuiet(s: Store, u: Store, w: Store, from: Path, to: Path)
    requires Valid(s) && Settled(s, u) && Quiet(u, w, from, to)
    ensures Settled(s, w)
  {
    QuietSettled(u, w, from, to);
    SettledTransitive(s, u, w);
  }

  lemma AddSettles(s: Store, u: Store, r: Row)
    requires Valid(s) && Adds(s, u, r) && (r.isDir ==> r.etag >= s.nextEtag)
    ensures Settled(s, u)
  {
  }

  lemma RewriteSettles(s: Store, u: Store, id: int)
    requires Valid(s) && Rewrites(s, u, id)
    ensures Settled(s, u)
  {
  }

  lemma RemoveSettles(s: Store, u: Store, p: Path)
    requires Removes(s, u, p) && InFiles(p)
    ensures Settled(s, u)
  {
    forall id | id in s.rows && AtOrBelow(s.rows[id].path, p)
      ensures InTop(s.rows[id].path, "files")
    {
      assert s.rows[id].path[0] == s.rows[id].path[..|p|][0] == p[0];
    }
  }

  /** The statements after the rows of a new or rewritten file. */
  lemma TouchAndProp(u: Store, p: Path, time: int, delta: int, env: Env)
    requires Valid(u) && p != []
    ensures Quiet(u, Prop(Touch(u, Parent(p), env), p, time, delta, env), p, p)
  {
    AboveParent(p);
    TouchQuiet(u, Parent(p), env, p, p);
    PropQuiet(Touch(u, Parent(p), env), p, time, delta, env, p, p);
    QuietTransitive(u, Touch(u, Parent(p), env), Prop(Touch(u, Parent(p), env), p, time, delta, env), p, p);
  }

  lemma MkdirSettles(s: Store, p: Path, env: Env)
    requires Valid(s) && p != [] && !HasPath(s.rows, p) && IsDirAt(s.rows, Parent(p))
    ensures Settled(s, MkdirAt(s, p, env))
    ensures var u := InsertFresh(s, NewRow(s, p, true, 0, env.now, env.now, 0));
      Valid(u) && Settled(s, u)
  {
    hide Settled, Quiet, Valid, Evolves, Exact;
    var u := InsertFresh(s, NewRow(s, p, true, 0, env.now, env.now, 0));
    var r := NewRow(s, p, true, 0, env.now, env.now, s.nextEtag);
    InsertFreshAdds(s, p, true, 0, env.now, env.now);
    AddKeepsShape(s, u, r);
    AddSettles(s, u, r);
    TouchAndProp(u, p, env.now, 0, env);
    ThenQuiet(s, u, MkdirAt(s, p, env), p, p);
  }

  lemma {:induction false} EnsureSettles(s: Store, p: Path, env: Env)
    requires Valid(s) && (HasPath(s.rows, p) || NoFileAbove(s.rows, p))
    ensures Settled(s, EnsureDirs(s, p, env))
    decreases |p|
  {
    hide Settled, Evolves, Exact;
    SettledReflexive(s);
    if p != [] && !HasPath(s.rows, p) {
      EnsureStep(s, p, env);
      NoFileAboveParent(s.rows, p);
      EnsureSettles(s, Parent(p), env);
      var s1 := EnsureDirs(s, Parent(p), env);
      AboveParent(p);
      EnsureKeeps(s, Parent(p), env);
      ExtendsPaths(s, s1, Parent(p), Parent(p));
      MkdirSettles(s1, p, env);
      SettledTransitive(s, s1, MkdirAt(s1, p, env));
    }
  }

  lemma VersionSettles(s: Store, p: Path, r: Row, env: Env)
    requires Valid(s) && InFiles(p) && r.size >= -1 && r.etag < s.nextEtag
    ensures Settled(s, StoreVersion(s, p, r, env))
  {
    hide Settled, Evolves, Exact, Quiet;
    SettledReflexive(s);
    var v := VersionPath(p, r.mtime);
    if StoreVersion(s, p, r, env) != s {
      AboveParent(v);
      EnsureSettles(s, Parent(v), env);
      VersionParent(s, v, env);
      var s1 := EnsureDirs(s, Parent(v), env);
      EnsureKeeps(s, Parent(v), env);
      var n := NewRow(s1, v, false, r.size, r.mtime, env.now, r.etag);
      var s2 := if HasPath(s1.rows, v) then s1 else Insert(s1, n);
      if HasPath(s1.rows, v) {
        SettledReflexive(s1);
      } else {
        assert v[0] != TRASH[0];
        AddKeepsShape(s1, s2, n);
        AddSettles(s1, s2, n);
      }
      VersionQuiet(s2, v, env);
      ThenQuiet(s1, s2, ChainOn(Prop(Touch(s2, Parent(v), env), v, env.now, 0, env), v), v, v);
      SettledTransitive(s, s1, StoreVersion(s, p, r, env));
    }
  }

  lemma NewFileSettles(s: Store, p: Path, up: Upload, env: Env)
    requires Valid(s) && InFiles(p) && !HasPath(s.rows, p) && IsDirAt(s.rows, Parent(p))
    ensures Settled(s, CommitNew(s, p, up, env)) && Settled(s, BulkNew(s, p, up, env))
  {
    hide Settled, Evolves, Exact, Quiet;
    var u := InsertFresh(s, NewRow(s, p, false, up.size, up.mtime, up.mtime, 0));
    InsertFreshAdds(s, p, false, up.size, up.mtime, up.mtime);
    NewFileValid(s, u, p, up);
    AddSettles(s, u, NewRow(s, p, false, up.size, up.mtime, up.mtime, s.nextEtag));
    PropQuiet(u, p, up.mtime, up.size, env, p, p);
    ThenQuiet(s, u, BulkNew(s, p, up, env), p, p);
    ChainQuiet(u, p, p, p);
    TouchAndProp(ChainOn(u, p), p, up.mtime, 0, env);
    QuietTransitive(u, ChainOn(u, p), CommitNew(s, p, up, env), p, p);
    ThenQuiet(s, u, CommitNew(s, p, up, env), p, p);
  }

  lemma OverwriteSettles(s: Store, p: Path, r: Row, up: Upload, env: Env)
    requires Valid(s) && p != [] && HasPath(s.rows, p) && !IsDirAt(s.rows, p)
    ensures Settled(s, CommitOverwrite(s, p, r, up, env)) && Settled(s, BulkOverwrite(s, p, r, up, env))
  {
    hide Settled, Evolves, Exact, Quiet, Shaped, SizesOk, TrashIsFolder, Rewrites, EditBody, SameShape, Prop, Touch, Overwrite;
    var id, keep := IdAt(s.rows, p), ReusesEtag(r, p, env);
    var u := Overwrite(s, p, up.size, up.mtime, keep);
    OverwriteRewrites(s, p, up.size, up.mtime, keep);
    RewriteKeepsShape(s, u, id);
    RewriteSettles(s, u, id);
    TouchAndProp(u, p, up.mtime, up.size - r.size, env);
    ThenQuiet(s, u, CommitOverwrite(s, p, r, up, env), p, p);
    var u' := Overwrite(s, p, up.size, up.mtime, false);
    OverwriteRewrites(s, p, up.size, up.mtime, false);
    RewriteKeepsShape(s, u', id);
    RewriteSettles(s, u', id);
    PropQuiet(u', p, up.mtime, up.size - r.size, env, p, p);
    ThenQuiet(s, u', BulkOverwrite(s, p, r, up, env), p, p);
  }

  lemma OverSettles(s: Store, p: Path, up: Upload, env: Env)
    requires Valid(s) && InFiles(p) && HasPath(s.rows, p) && !IsDirAt(s.rows, p)
    ensures var r := s.rows[IdAt(s.rows, p)];
      var s2 := StoreVersion(s, p, r, env);
      && HasPath(s2.rows, p) && Settled(s, s2)
      && Settled(s, CommitOverwrite(s2, p, r, up, env)) && Settled(s, BulkOverwrite(s2, p, r, up, env))
  {
    hide Settled, Evolves, Exact, StoreVersion, CommitOverwrite, BulkOverwrite;
    var r := s.rows[IdAt(s.rows, p)];
    var s2 := StoreVersion(s, p, r, env);
    PutVersioned(s, p, env);
    VersionSettles(s, p, r, env);
    OverwriteSettles(s2, p, r, up, env);
    SettledTransitive(s, s2, CommitOverwrite(s2, p, r, up, env));
    SettledTransitive(s, s2, BulkOverwrite(s2, p, r, up, env));
  }

  lemma PutSettles(s: Store, p: Path, up: Upload, env: Env)
    requires Valid(s) && InFiles(p)
    ensures Settled(s, Put(s, p, up, env).store)
  {
    hide Settled, Evolves, Exact, StoreVersion, CommitOverwrite, CommitNew, OverQuota;
    SettledReflexive(s);
    if !IsDirAt(s.rows, p) && CanEnsure(s.rows, Parent(p)) {
      PutOpened(s, p, env);
      EnsureSettles(s, Parent(p), env);
      var s1 := EnsureDirs(s, Parent(p), env);
      if IsDirAt(s1.rows, Parent(p)) && up.checksumOk {
        if HasPath(s.rows, p) {
          OverSettles(s, p, up, env);
        } else {
          NewFileSettles(s1, p, up, env);
          SettledTransitive(s, s1, CommitNew(s1, p, up, env));
        }
      }
    }
  }

  lemma BulkSettles(s: Store, p: Path, up: Upload, env: Env)
    requires Valid(s) && InFiles(p)
    ensures Settled(s, BulkWrite(s, p, up, env).store)
  {
    hide Settled, Evolves, Exact, StoreVersion, BulkOverwrite, BulkNew;
    SettledReflexive(s);
    if BulkAdmitted(s.rows, p) {
      if HasPath(s.rows, p) {
        OverSettles(s, p, up, env);
      } else {
        NewFileSettles(s, p, up, env);
      }
    }
  }

  lemma MkcolSettles(s: Store, p: Path, env: Env)
    requires Valid(s) && p != []
    ensures Settled(s, Mkcol(s, p, env).store)
  {
    hide Settled, Evolves, Exact, Quiet;
    SettledReflexive(s);
    if !HasPath(s.rows, p) && CanEnsure(s.rows, Parent(p)) {
      PutOpened(s, p, env);
      EnsureSettles(s, Parent(p), env);
      var s1 := EnsureDirs(s, Parent(p), env);
      if IsDirAt(s1.rows, Parent(p)) {
        MkdirSettles(s1, p, env);
        var s2 := InsertFresh(s1, NewRow(s1, p, true, 0, env.now, env.now, 0));
        PropQuiet(s2, p, env.now, 0, env, p, p);
        ThenQuiet(s1, s2, Mkcol(s, p, env).store, p, p);
        SettledTransitive(s, s1, Mkcol(s, p, env).store);
      }
    }
  }

  lemma CopySettles(s: Store, from: Path, to: Path, diskOk: bool, env: Env)
    requires Valid(s) && InFiles(from) && InFiles(to)
    ensures Settled(s, Copy(s, from, to, diskOk, env).store)
  {
    hide Settled, Evolves, Exact, Quiet, Valid, ShadowChain, CopyRow, EnsureDirs, Chain, Propagate;
    SettledReflexive(s);
    if CopyAllowed(s.rows, from, to, diskOk) {
      var s1 := RemoveAt(s, to);
      RemoveFileRemoves(s, to);
      RemoveSettles(s, s1, to);
      CopyRemoved(s, to);
      if HasPath(s1.rows, from) ==> CanEnsure(s1.rows, Parent(to)) {
        var s2 := if HasPath(s1.rows, from) then CopyRow(EnsureDirs(s1, Parent(to), env), from, to, env) else s1;
        if HasPath(s1.rows, from) {
          CopyRowSettles(s, from, to, env);
        }
        CopyValid(s, from, to, env);
        CopyTailSettles(s, s2, from, to, env);
      }
    }
  }

  lemma CopyRowSettles(s: Store, from: Path, to: Path, env: Env)
    requires Valid(s) && InFiles(from) && InFiles(to) && CopyAllowed(s.rows, from, to, true)
    requires HasPath(RemoveAt(s, to).rows, from) && CanEnsure(RemoveAt(s, to).rows, Parent(to))
    requires Valid(RemoveAt(s, to)) && Settled(s, RemoveAt(s, to))
    ensures var u := CopyRow(EnsureDirs(RemoveAt(s, to), Parent(to), env), from, to, env);
      Valid(u) && Settled(s, u)
  {
    hide Settled, Evolves, Exact;
    var s1 := RemoveAt(s, to);
    PutOpened(s1, to, env);
    EnsureSettles(s1, Parent(to), env);
    var e := EnsureDirs(s1, Parent(to), env);
    AboveParent(to);
    EnsureKeeps(s1, Parent(to), env);
    CopySourceStays(s1, from, to, env);
    ExtendsPaths(s1, e, Parent(to), Parent(to));
    CopiedValid(s, from, to, env);
    var r := e.rows[IdAt(e.rows, from)];
    var n := NewRow(e, to, false, r.size, r.mtime, env.now, r.etag);
    assert !HasPath(s1.rows, to) && to != TRASH;
    AddSettles(e, Insert(e, n), n);
    SettledTransitive(s1, e, Insert(e, n));
    SettledTransitive(s, s1, Insert(e, n));
  }

  lemma CopyTailSettles(s: Store, u: Store, from: Path, to: Path, env: Env)
    requires Valid(s) && Settled(s, u) && to != []
    requires Valid(u)
    ensures Settled(s, ShadowChain(ChainOn(Prop(u, to, env.now, 0, env), to), to, env))
  {
    hide Settled, Evolves, Exact, Quiet, Chain, ShadowChain;
    var u1 := Prop(u, to, env.now, 0, env);
    PropQuiet(u, to, env.now, 0, env, to, to);
    ChainQuiet(u1, to, to, to);
    var u2 := ChainOn(u1, to);
    ShadowKeeps(u2, to, env);
    var v := ShadowPath("files_versions", to);
    ThenQuiet(s, u, u1, to, to);
    ThenQuiet(s, u1, u2, to, to);
    ThenQuiet(s, u2, ShadowChain(u2, to, env), v, v);
  }

  lemma DeleteSettles(s: Store, p: Path, env: Env)
    requires Valid(s) && InFiles(p)
    ensures Settled(s, HardDelete(s, p, env).store)
  {
    hide Settled, Evolves, Exact, Quiet;
    SettledReflexive(s);
    if HasPath(s.rows, p) {
      var u := RemoveTree(s, p);
      RemoveTreeRemoves(s, p);
      RemoveKeepsShape(s, u, p);
      RemoveSettles(s, u, p);
      PropQuiet(u, p, env.now, Shrink(s.rows[IdAt(s.rows, p)].size), env, p, p);
      ThenQuiet(s, u, HardDelete(s, p, env).store, p, p);
    }
  }

  lemma SetMtimeSettles(s: Store, p: Path, mtime: int, env: Env)
    requires Valid(s) && p != []
    ensures Settled(s, SetMtime(s, p, mtime, env).store)
  {
    hide Quiet, Settled, Prop, WithMtime;
    MtimeEdit(s, p, mtime);
    MtimeSettles(s, p, mtime);
    PropQuiet(WithMtime(s, p, mtime), p, mtime, 0, env, p, p);
    ThenQuiet(s, WithMtime(s, p, mtime), SetMtime(s, p, mtime, env).store, p, p);
  }

  lemma MtimeSettles(s: Store, p: Path, mtime: int)
    ensures Settled(s, WithMtime(s, p, mtime))
  {
  }

  // ── MOVE and trashing ──────────────────────────────────────────────────────

  /** A moved file takes no directory along. */
  lemma FileMoveSettles(s: Store, u: Store, from: Path, to: Path)
    requires Valid(s) && Moves(s, u, from, to) && !IsDirAt(s.rows, from) && InFiles(from)
    ensures Settled(s, u)
  {
    var m := IdAt(s.rows, from);
    forall id | id in s.rows
      ensures AtOrBelow(s.rows[id].path, from) ==> id == m
      ensures InTop(s.rows[id].path, "files") || !AtOrBelow(s.rows[id].path, from)
    {
      if AtOrBelow(s.rows[id].path, from) {
        if Above(from, s.rows[id].path) {
          NothingUnderFile(s.rows, m, id);
        }
        assert s.rows[id].path == from;
        assert At(s.rows, id, from);
      }
    }
    MovedPaths(s, u, from, to);
  }

  lemma MovedPaths(s: Store, u: Store, from: Path, to: Path)
    requires Valid(s) && Moves(s, u, from, to)
    ensures forall id :: id in s.rows ==>
              && u.rows[id].path == Rebase(s.rows[id].path, from, to)
              && u.rows[id].isDir == s.rows[id].isDir && u.rows[id].etag == s.rows[id].etag
  {
    forall id | id in s.rows
      ensures u.rows[id].path == Rebase(s.rows[id].path, from, to)
      ensures u.rows[id].isDir == s.rows[id].isDir && u.rows[id].etag == s.rows[id].etag
    {
      MovedPath(s, u, from, to, id);
      assert MovedRow(s, u.rows[id], s.rows[id], from, to);
    }
  }

  /** A subtree on its way from `files` to the trash. */
  lemma TrashMoveSettles(s: Store, u: Store, p: Path, to: Path)
    requires Valid(s) && Moves(s, u, p, to) && InFiles(p) && TrashEntry(to)
    ensures Settled(s, u)
  {
    MovedPaths(s, u, p, to);
    forall id | id in s.rows && AtOrBelow(s.rows[id].path, p)
      ensures InTop(s.rows[id].path, "files") && InTop(u.rows[id].path, "files_trashbin")
    {
      assert s.rows[id].path[0] == s.rows[id].path[..|p|][0] == p[0];
    }
  }

  lemma MoveSettles(s: Store, from: Path, to: Path, env: Env)
    requires Valid(s) && InFiles(from) && InFiles(to)
    requires IsDirAt(s.rows, from) ==> from == to || !MoveAllowed(s.rows, from, to)
    ensures Settled(s, Move(s, from, to, env).store)
  {
    hide Settled, Evolves, Exact, Quiet, Rekey, MoveTouched, MoveChains, ShadowChain;
    SettledReflexive(s);
    if MoveAllowed(s.rows, from, to) {
      var u := Rekey(s, from, to);
      MoveRows(s, from, to);
      if from == to {
        RekeyInPlace(s, from);
      } else {
        RekeyMoves(s, from, to);
        FileMoveSettles(s, u, from, to);
      }
      var u1 := MoveTouched(u, from, to, env);
      MoveTouchedQuiet(u, from, to, env);
      var u2 := MoveChains(u1, from, to);
      MoveChainsQuiet(u1, from, to);
      var v := ShadowPath("files_versions", to);
      ShadowKeeps(u2, to, env);
      ThenQuiet(s, u, u1, from, to);
      ThenQuiet(s, u1, u2, from, to);
      ThenQuiet(s, u2, ShadowChain(u2, to, env), v, v);
    }
  }

  lemma SkeletonSettles(s: Store, stamp: int, env: Env)
    requires Valid(s) && CanEnsure(s.rows, TRASH)
    ensures Settled(s, CacheRow(TrashSkeleton(s, env), stamp))
  {
    hide Settled, Evolves, Exact, EnsureDirs, CanEnsure, CacheRow, TrashOnly, Valid;
    var s1 := EnsureDirs(s, TRASH, env);
    EnsurableSettles(s, TRASH, env);
    SkeletonStep(s, TRASH, env);
    var s2 := EnsureIfPossible(s1, ["files_trashbin", "versions"], env);
    EnsurableSettles(s1, ["files_trashbin", "versions"], env);
    SkeletonIfPossible(s1, ["files_trashbin", "versions"], env);
    var s3 := EnsureIfPossible(s2, ["files_trashbin", "keys"], env);
    EnsurableSettles(s2, ["files_trashbin", "keys"], env);
    SkeletonIfPossible(s2, ["files_trashbin", "keys"], env);
    CacheSettles(s3, stamp);
    SettledTransitive(s, s1, s2);
    SettledTransitive(s, s2, s3);
    SettledTransitive(s, s3, CacheRow(s3, stamp));
  }

  lemma EnsurableSettles(s: Store, p: Path, env: Env)
    requires Valid(s)
    ensures Settled(s, EnsureIfPossible(s, p, env))
    ensures CanEnsure(s.rows, p) ==> Settled(s, EnsureDirs(s, p, env))
  {
    hide Settled, Evolves, Exact;
    SettledReflexive(s);
    if CanEnsure(s.rows, p) {
      EnsureSettles(s, p, env);
    }
  }

  lemma CacheSettles(s: Store, now: int)
    requires Valid(s)
    ensures Settled(s, CacheRow(s, now))
  {
    if !HasPath(s.rows, ["cache"]) {
      assert Parent(["cache"]) == [];
      var root := IdAt(s.rows, []);
      assert Linked(s.rows, root);
      InsertFreshAdds(s, ["cache"], true, 0, now, now);
      AddSettles(s, CacheRow(s, now), NewRow(s, ["cache"], true, 0, now, now, s.nextEtag));
    }
  }

  lemma TrashSettles(s: Store, p: Path, stamp: nat, env: Env)
    requires Valid(s) && InFiles(p)
    ensures Settled(s, Trash(s, p, stamp, env).store)
  {
    hide Settled, Evolves, Exact, Quiet, Valid, Moves, CanEnsure, TrashSkeleton, CacheRow, RekeyToTrash, Chain, TrashTouched;
    SettledReflexive(s);
    var to := TrashPath(Last(p), stamp);
    if TrashAllowed(s.rows, p, to) {
      TrashPrepared(s, p, stamp, env);
      SkeletonSettles(s, stamp, env);
      var t := CacheRow(TrashSkeleton(s, env), stamp);
      TrashTailSettles(s, t, p, to, s.rows[IdAt(s.rows, p)].size, env);
    }
  }

  lemma TrashTailSettles(s: Store, t: Store, p: Path, to: Path, size: int, env: Env)
    requires Valid(s) && Valid(t) && Settled(s, t) && InFiles(p) && TrashEntry(to)
    requires HasPath(t.rows, p) && !HasPath(t.rows, to) && IsDirAt(t.rows, TRASH)
    ensures Settled(s, TrashMove(t, p, to, size, env))
  {
    hide Settled, Evolves, Exact, Quiet, Moves, RekeyToTrash, Chain, TrashTouched;
    var u := RekeyToTrash(t, p, to, env);
    TrashRows(t, p, to, env);
    TrashMoveSettles(t, u, p, to);
    SettledTransitive(s, t, u);
    var x := ChainOn(u, to);
    ChainQuiet(u, to, p, to);
    var x1 := TrashTouched(x, p, to, env);
    TrashTouchedQuiet(x, p, to, env);
    PropQuiet(x1, p, env.now, Shrink(size), env, p, to);
    ThenQuiet(s, u, x, p, to);
    ThenQuiet(s, x, x1, p, to);
    ThenQuiet(s, x1, TrashMove(t, p, to, size, env), p, to);
  }

  // ── Runs ───────────────────────────────────────────────────────────────────

  /** The request does not move a directory to another place. */
  ghost predicate KeepsDirectories(s: Store, op: Op)
    requires Mapped(op)
  {
    match op
    case MoveOp(from, to) =>
      assert from in Ends(op) && to in Ends(op);
      IsDirAt(s.rows, from) ==> from == to || !MoveAllowed(s.rows, from, to)
    case _ => true
  }

  lemma StepSettles(s: Store, op: Op, env: Env)
    requires Valid(s) && Mapped(op) && KeepsDirectories(s, op)
    ensures Settled(s, Step(s, op, env).store)
  {
    hide Valid, Settled, Put, BulkWrite, Mkcol, Copy, Move, HardDelete, Trash, SetMtime, InFiles;
    match op
    case PutOp(p, up) => assert p in Ends(op); PutSettles(s, p, up, env);
    case BulkOp(p, up) => assert p in Ends(op); BulkSettles(s, p, up, env);
    case MkcolOp(p) => assert p in Ends(op); FilesNotRoot(p); MkcolSettles(s, p, env);
    case CopyOp(from, to, diskOk) =>
      assert from in Ends(op) && to in Ends(op);
      CopySettles(s, from, to, diskOk, env);
    case MoveOp(from, to) =>
      assert from in Ends(op) && to in Ends(op);
      MoveSettles(s, from, to, env);
    case DeleteOp(p) => assert p in Ends(op); DeleteSettles(s, p, env);
    case TrashOp(p, stamp) => assert p in Ends(op); TrashSettles(s, p, stamp, env);
    case SetMtimeOp(p, mtime) => assert p in Ends(op); FilesNotRoot(p); SetMtimeSettles(s, p, mtime, env);
  }

  lemma FilesNotRoot(p: Path)
    requires InFiles(p)
    ensures p != []
  {
  }

  ghost predicate RunKeepsDirectories(s: Store, requests: seq<Request>)
    requires forall r :: r in requests ==> Mapped(r.op)
    decreases |requests|
  {
    requests == [] ||
    (&& KeepsDirectories(s, requests[0].op)
     && RunKeepsDirectories(Step(s, requests[0].op, requests[0].env).store, requests[1..]))
  }

  lemma {:induction false} RunSettles(s: Store, requests: seq<Request>)
    requires Valid(s) && (forall r :: r in requests ==> Mapped(r.op)) && RunKeepsDirectories(s, requests)
    ensures Settled(s, Run(s, requests))
    decreases |requests|
  {
    hide Valid, Settled, Evolves, Step, KeepsDirectories;
    if requests == [] {
      SettledReflexive(s);
    } else {
      var op, env := requests[0].op, requests[0].env;
      var u := Step(s, op, env).store;
      StepSettles(s, op, env);
      StepKeeps(s, op, env);
      RunSettles(u, requests[1..]);
      SettledTransitive(s, u, Run(u, requests[1..]));
    }
  }
}
