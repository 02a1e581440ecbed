/** No request makes a scanned file unscanned.
    A recorded size of -1 stands for "not scanned" and is contagious: one such file
    marks every folder above it.  The totals and the quota are about trees without
    it, so a run must not bring it in.  Two kinds of statement could: a delta whose
    floor at -1 is reached, which only touches directories, and an insert or update
    that takes its size from another row, which is a scanned file itself.  The
    lemmas go through the statements of each request. */
module ScannedProofs {
  import opened Paths
  import opened Tree
  import opened Propagation
  import opened Stores
  import opened Statements
  import opened RowEdits
  import opened Operations
  import opened OperationProofs
  import opened RequestProofs
  import opened MoveProofs
  import opened TrashProofs
  import opened Totals
  import opened Runs

  lemma PropFiles(s: Store, p: Path, time: int, delta: int, env: Env)
    requires FilesScanned(s.rows) && (delta >= 0 || NoFileAbove(s.rows, p))
    ensures FilesScanned(Prop(s, p, time, delta, env).rows)
  {
  }

  lemma {:induction false} ChainFiles(t: Table, p: Path)
    requires Shaped(t) && FilesScanned(t)
    ensures FilesScanned(Chain(t, p))
    decreases |p|
  {
    if p != [] {
      var q := Parent(p);
      var u := RecomputeAt(t, q);
      if HasPath(t, q) {
        var id := IdAt(t, q);
        assert u.Keys == t.Keys;
        SameShapeKeeps(t, u);
        if !t[id].isDir {
          forall c | c in t
            ensures c !in Children(t, id)
          {
            assert Linked(t, c) && Linked(t, id);
          }
          assert Children(t, id) == {};
        }
      }
      ChainFiles(u, q);
    }
  }

  lemma ExistingNoFileAbove(t: Table, p: Path)
    requires Shaped(t) && (HasPath(t, p) || (p != [] && IsDirAt(t, Parent(p))))
    ensures NoFileAbove(t, p)
  {
    forall id | id in t && Above(t[id].path, p)
      ensures t[id].isDir
    {
      assert At(t, id, t[id].path);
      if HasPath(t, p) {
        AncestorsExist(t, IdAt(t, p), t[id].path);
      } else {
        AboveSplit(t[id].path, p);
        if t[id].path != Parent(p) {
          AncestorsExist(t, IdAt(t, Parent(p)), t[id].path);
        }
      }
    }
  }

  lemma ExtendsFiles(s: Store, u: Store, p: Path)
    requires FilesScanned(s.rows) && Extends(s, u, p)
    ensures FilesScanned(u.rows)
  {
  }

  lemma StoreVersionFiles(s: Store, p: Path, r: Row, env: Env)
    requires Valid(s) && FilesScanned(s.rows) && InFiles(p) && r.size >= 0 && r.etag < s.nextEtag
    ensures FilesScanned(StoreVersion(s, p, r, env).rows)
  {
    var v := VersionPath(p, r.mtime);
    if StoreVersion(s, p, r, env) != s {
      AboveParent(v);
      EnsureKeeps(s, Parent(v), env);
      var s1 := EnsureDirs(s, Parent(v), env);
      ExtendsFiles(s, s1, Parent(v));
      ExtendsPaths(s, s1, Parent(v), Parent(v));
      VersionRowFiles(s1, v, r, env);
    }
  }

  lemma VersionRowFiles(s: Store, v: Path, r: Row, env: Env)
    requires Valid(s) && FilesScanned(s.rows) && v != [] && v[0] == "files_versions" && r.size >= 0 && r.etag < s.nextEtag
    requires IsDirAt(s.rows, Parent(v))
    ensures var u := if HasPath(s.rows, v) then s
                     else Insert(s, NewRow(s, v, false, r.size, r.mtime, env.now, r.etag));
      FilesScanned(ChainOn(Prop(Touch(u, Parent(v), env), v, env.now, 0, env), v).rows)
  {
    var n := NewRow(s, v, false, r.size, r.mtime, env.now, r.etag);
    var u := if HasPath(s.rows, v) then s else Insert(s, n);
    if !HasPath(s.rows, v) {
      AddKeepsShape(s, u, n);
    }
    var u1 := Touch(u, Parent(v), env);
    AboveParent(v);
    TouchQuiet(u, Parent(v), env, v, v);
    PropFiles(u1, v, env.now, 0, env);
    PropQuiet(u1, v, env.now, 0, env, v, v);
    ChainFiles(Prop(u1, v, env.now, 0, env).rows, v);
  }

  // ── The requests ───────────────────────────────────────────────────────────

  lemma CommitNewFiles(s: Store, p: Path, up: Upload, env: Env)
    requires Valid(s) && FilesScanned(s.rows) && InFiles(p) && !HasPath(s.rows, p) && IsDirAt(s.rows, Parent(p))
    ensures FilesScanned(CommitNew(s, p, up, env).rows)
  {
    var s1 := InsertFresh(s, NewRow(s, p, false, up.size, up.mtime, up.mtime, 0));
    InsertFreshAdds(s, p, false, up.size, up.mtime, up.mtime);
    AddKeepsShape(s, s1, NewRow(s, p, false, up.size, up.mtime, up.mtime, s.nextEtag));
    ChainFiles(s1.rows, p);
    PropFiles(Touch(ChainOn(s1, p), Parent(p), env), p, up.mtime, 0, env);
  }

  lemma OverwriteFiles(s: Store, p: Path, size: nat, mtime: int, keepEtag: bool, time: int, delta: int, env: Env)
    requires Valid(s) && FilesScanned(s.rows) && p != [] && HasPath(s.rows, p) && !IsDirAt(s.rows, p)
    ensures var u := Overwrite(s, p, size, mtime, keepEtag);
      && FilesScanned(Prop(u, p, time, delta, env).rows)
      && FilesScanned(Prop(Touch(u, Parent(p), env), p, time, delta, env).rows)
  {
    var u := Overwrite(s, p, size, mtime, keepEtag);
    OverwriteRewrites(s, p, size, mtime, keepEtag);
    RewriteKeepsShape(s, u, IdAt(s.rows, p));
    assert At(u.rows, IdAt(s.rows, p), p);
    AboveParent(p);
    ExistingNoFileAbove(u.rows, p);
    PropFiles(u, p, time, delta, env);
    var x := Touch(u, Parent(p), env);
    TouchQuiet(u, Parent(p), env, p, p);
    SameShapePath(u.rows, x.rows, p);
    ExistingNoFileAbove(x.rows, p);
    PropFiles(x, p, time, delta, env);
  }

  lemma EnsureExisting(s: Store, p: Path, env: Env)
    requires HasPath(s.rows, p)
    ensures EnsureDirs(s, p, env) == s
  {
  }

  lemma PutFiles(s: Store, p: Path, up: Upload, env: Env)
    requires Valid(s) && FilesScanned(s.rows) && InFiles(p)
    ensures FilesScanned(Put(s, p, up, env).store.rows)
  {
    hide Shaped, SizesOk, TrashIsFolder, FilesScanned, CommitNew, CommitOverwrite, StoreVersion, EnsureDirs, Evolves, Exact;
    if IsDirAt(s.rows, p) || !CanEnsure(s.rows, Parent(p)) {
      return;
    }
    AboveParent(p);
    EnsureKeeps(s, Parent(p), env);
    var s1 := EnsureDirs(s, Parent(p), env);
    ExtendsPaths(s, s1, Parent(p), p);
    ExtendsFiles(s, s1, Parent(p));
    if !IsDirAt(s1.rows, Parent(p)) || !up.checksumOk {
      return;
    }
    if HasPath(s.rows, p) {
      ParentExists(s, p);
      EnsureExisting(s, Parent(p), env);
      PutOverFiles(s, p, up, env);
    } else if Put(s, p, up, env).outcome == Done {
      CommitNewFiles(s1, p, up, env);
    }
  }

  lemma PutOverFiles(s: Store, p: Path, up: Upload, env: Env)
    requires Valid(s) && FilesScanned(s.rows) && InFiles(p) && HasPath(s.rows, p) && !IsDirAt(s.rows, p)
    ensures var r := s.rows[IdAt(s.rows, p)];
      var s2 := StoreVersion(s, p, r, env);
      && FilesScanned(s2.rows) && HasPath(s2.rows, p)
      && FilesScanned(CommitOverwrite(s2, p, r, up, env).rows)
      && FilesScanned(BulkOverwrite(s2, p, r, up, env).rows)
  {
    hide StoreVersion, Evolves, Exact, Touch, Prop, Overwrite, NotLastUnscanned;
    var id := IdAt(s.rows, p);
    var r := s.rows[id];
    var s2 := StoreVersion(s, p, r, env);
    StoreVersionFiles(s, p, r, env);
    StoreVersionKeeps(s, p, r, env);
    VersionSiblings(s, s2, p, VersionPath(p, r.mtime), id);
    OverwriteFiles(s2, p, up.size, up.mtime, ReusesEtag(r, p, env), up.mtime, up.size - r.size, env);
    OverwriteFiles(s2, p, up.size, up.mtime, false, up.mtime, up.size - r.size, env);
  }

  lemma BulkFiles(s: Store, p: Path, up: Upload, env: Env)
    requires Valid(s) && FilesScanned(s.rows) && InFiles(p)
    ensures FilesScanned(BulkWrite(s, p, up, env).store.rows)
  {
    if IsDirAt(s.rows, Parent(p)) && !IsDirAt(s.rows, p) {
      if HasPath(s.rows, p) {
        PutOverFiles(s, p, up, env);
      } else {
        PropFiles(InsertFresh(s, NewRow(s, p, false, up.size, up.mtime, up.mtime, 0)), p, up.mtime, up.size, env);
      }
    }
  }

  lemma MkcolFiles(s: Store, p: Path, env: Env)
    requires Valid(s) && FilesScanned(s.rows) && p != []
    ensures FilesScanned(Mkcol(s, p, env).store.rows)
  {
    if !HasPath(s.rows, p) && CanEnsure(s.rows, Parent(p)) {
      AboveParent(p);
      EnsureKeeps(s, Parent(p), env);
      var s1 := EnsureDirs(s, Parent(p), env);
      ExtendsFiles(s, s1, Parent(p));
      PropFiles(InsertFresh(s1, NewRow(s1, p, true, 0, env.now, env.now, 0)), p, env.now, 0, env);
    }
  }

  lemma ShadowFiles(s: Store, p: Path, env: Env)
    requires Valid(s) && FilesScanned(s.rows)
    ensures FilesScanned(ShadowChain(s, p, env).rows)
  {
    var v := ShadowPath("files_versions", p);
    PropFiles(s, v, env.now, 0, env);
    PropQuiet(s, v, env.now, 0, env, v, v);
    ChainFiles(Prop(s, v, env.now, 0, env).rows, v);
  }

  lemma CopyFiles(s: Store, from: Path, to: Path, diskOk: bool, env: Env)
    requires Valid(s) && FilesScanned(s.rows) && InFiles(from) && InFiles(to)
    ensures FilesScanned(Copy(s, from, to, diskOk, env).store.rows)
  {
    hide SizesOk, TrashIsFolder, FilesScanned, ShadowChain, EnsureDirs, CopyRow, RemoveAt, Evolves, Exact, Prop, Chain, CanEnsure;
    if CopyAllowed(s.rows, from, to, diskOk) {
      RemoveFileRemoves(s, to);
      var s1 := RemoveAt(s, to);
      RemoveKeepsShape(s, s1, to);
      RemovedFiles(s, s1, to, from);
      if HasPath(s1.rows, from) ==> CanEnsure(s1.rows, Parent(to)) {
        CopyRows(s, from, to, env);
        CopyRowsFiles(s1, from, to, env);
        var s2 := if HasPath(s1.rows, from) then CopyRow(EnsureDirs(s1, Parent(to), env), from, to, env) else s1;
        ShadowFiles(ChainOn(Prop(s2, to, env.now, 0, env), to), to, env);
      }
    }
  }

  lemma RemovedFiles(s: Store, u: Store, p: Path, q: Path)
    requires Valid(s) && FilesScanned(s.rows) && Removes(s, u, p)
    ensures FilesScanned(u.rows)
    ensures IsDirAt(u.rows, q) ==> IsDirAt(s.rows, q)
  {
    if IsDirAt(u.rows, q) {
      assert At(s.rows, IdAt(u.rows, q), q);
    }
  }

  lemma CopyRowsFiles(s: Store, from: Path, to: Path, env: Env)
    requires Valid(s) && FilesScanned(s.rows) && InFiles(from) && InFiles(to) && from != to
    requires !HasPath(s.rows, to) && !IsDirAt(s.rows, from) && NoFileAbove(s.rows, to)
    requires HasPath(s.rows, from) ==> CanEnsure(s.rows, Parent(to))
    ensures var s2 := if HasPath(s.rows, from) then CopyRow(EnsureDirs(s, Parent(to), env), from, to, env) else s;
      FilesScanned(ChainOn(Prop(s2, to, env.now, 0, env), to).rows)
  {
    var s2 := s;
    if HasPath(s.rows, from) {
      AboveParent(to);
      FileNotAbove(s, from, to);
      AboveSplit(from, to);
      EnsureKeeps(s, Parent(to), env);
      var e := EnsureDirs(s, Parent(to), env);
      ExtendsFiles(s, e, Parent(to));
      ExtendsPaths(s, e, Parent(to), to);
      ExtendsPaths(s, e, Parent(to), from);
      ExtendsPaths(s, e, Parent(to), Parent(to));
      s2 := CopyRow(e, from, to, env);
      CopyRowFiles(e, from, to, env);
    }
    PropFiles(s2, to, env.now, 0, env);
    PropQuiet(s2, to, env.now, 0, env, to, to);
    ChainFiles(Prop(s2, to, env.now, 0, env).rows, to);
  }

  lemma CopyRowFiles(s: Store, from: Path, to: Path, env: Env)
    requires Valid(s) && FilesScanned(s.rows) && InFiles(to) && from != to
    requires !HasPath(s.rows, to) && HasPath(s.rows, from) && !IsDirAt(s.rows, from) && IsDirAt(s.rows, Parent(to))
    ensures Valid(CopyRow(s, from, to, env)) && FilesScanned(CopyRow(s, from, to, env).rows)
  {
    var r := s.rows[IdAt(s.rows, from)];
    var n := NewRow(s, to, false, r.size, r.mtime, env.now, r.etag);
    AddKeepsShape(s, Insert(s, n), n);
  }

  lemma MoveFiles(s: Store, from: Path, to: Path, env: Env)
    requires Valid(s) && FilesScanned(s.rows) && InFiles(from) && InFiles(to)
    ensures FilesScanned(Move(s, from, to, env).store.rows)
  {
    hide Shaped, SizesOk, TrashIsFolder, FilesScanned, ShadowChain, Evolves, Exact, EditBody, MoveTouched, MoveChains, Rekey;
    if MoveAllowed(s.rows, from, to) {
      MoveRows(s, from, to);
      var u := Rekey(s, from, to);
      RekeyFiles(s, from, to);
      var u1 := MoveTouched(u, from, to, env);
      MoveTouchedQuiet(u, from, to, env);
      SameSizesFiles(u.rows, u1.rows);
      var u2 := MoveChains(u1, from, to);
      MoveChainsQuiet(u1, from, to);
      MoveChainsFiles(u1, from, to);
      ShadowFiles(u2, to, env);
    }
  }

  lemma RekeyFiles(s: Store, from: Path, to: Path)
    requires FilesScanned(s.rows) && to != []
    ensures FilesScanned(Rekey(s, from, to).rows)
  {
  }

  lemma SameSizesFiles(t: Table, u: Table)
    requires FilesScanned(t) && SameSizes(t, u)
    ensures FilesScanned(u)
  {
  }

  lemma MoveChainsFiles(s: Store, from: Path, to: Path)
    requires Valid(s) && FilesScanned(s.rows) && from != [] && to != []
    ensures FilesScanned(MoveChains(s, from, to).rows)
  {
    var p, q := Parent(from), Parent(to);
    ChainFiles(s.rows, p);
    ChainFrame(s.rows, p);
    ChainFiles(Chain(s.rows, p), q);
  }

  lemma HardDeleteFiles(s: Store, p: Path, env: Env)
    requires Valid(s) && FilesScanned(s.rows) && p != []
    ensures FilesScanned(HardDelete(s, p, env).store.rows)
  {
    if HasPath(s.rows, p) {
      ExistingNoFileAbove(s.rows, p);
      PropFiles(RemoveTree(s, p), p, env.now, Shrink(s.rows[IdAt(s.rows, p)].size), env);
    }
  }

  lemma TrashFiles(s: Store, p: Path, stamp: nat, env: Env)
    requires Valid(s) && FilesScanned(s.rows) && InFiles(p)
    ensures FilesScanned(Trash(s, p, stamp, env).store.rows)
  {
    hide Shaped, SizesOk, TrashIsFolder, FilesScanned, Evolves, Exact, TrashSkeleton, CacheRow, TrashMove, CanEnsure, NotLastUnscanned;
    var to := TrashPath(Last(p), stamp);
    if TrashAllowed(s.rows, p, to) {
      TrashPrepared(s, p, stamp, env);
      var s3 := TrashSkeleton(s, env);
      var t := CacheRow(s3, stamp);
      SkeletonFiles(s, s3, t, stamp);
      TrashMoveFiles(t, p, to, s.rows[IdAt(s.rows, p)].size, env);
    }
  }

  lemma SkeletonFiles(s: Store, s3: Store, t: Store, now: int)
    requires FilesScanned(s.rows) && TrashOnly(s, s3) && t == CacheRow(s3, now)
    ensures FilesScanned(t.rows)
  {
    forall id | id in s3.rows && !s3.rows[id].isDir
      ensures s3.rows[id].size >= 0
    {
      assert id in s.rows || IsSkeleton(s3.rows[id]);
    }
  }

  lemma TrashMoveFiles(t: Store, p: Path, to: Path, size: int, env: Env)
    requires Valid(t) && FilesScanned(t.rows) && InFiles(p) && TrashEntry(to)
    requires HasPath(t.rows, p) && !HasPath(t.rows, to) && IsDirAt(t.rows, TRASH)
    ensures FilesScanned(TrashMove(t, p, to, size, env).rows)
  {
    var u := RekeyToTrash(t, p, to, env);
    TrashRows(t, p, to, env);
    MoveKeepsShape(t, u, p, to);
    ParentExists(t, p);
    assert Parent(p)[0] != to[0];
    AboveParent(p);
    TrashRekeyFiles(t, u, p, to);
    ChainFiles(u.rows, to);
    var x := ChainOn(u, to);
    ChainFrame(u.rows, to);
    var x3 := TrashTouched(x, p, to, env);
    TrashTouchedQuiet(x, p, to, env);
    SameSizesFiles(x.rows, x3.rows);
    SameShapePath(u.rows, x.rows, Parent(p));
    SameShapePath(x.rows, x3.rows, Parent(p));
    ExistingNoFileAbove(x3.rows, p);
    PropFiles(x3, p, env.now, Shrink(size), env);
  }

  lemma TrashRekeyFiles(t: Store, u: Store, p: Path, to: Path)
    requires Valid(t) && FilesScanned(t.rows) && Moves(t, u, p, to)
    requires HasPath(t.rows, Parent(p)) && IsDirAt(t.rows, Parent(p)) && Parent(p) != Parent(to)
    ensures FilesScanned(u.rows)
    ensures IsDirAt(u.rows, Parent(p))
  {
    MoveKeepsShape(t, u, p, to);
    forall id | id in t.rows
      ensures u.rows[id].size == t.rows[id].size && u.rows[id].isDir == t.rows[id].isDir
    {
      MoveSizes(t, u, p, to, id);
    }
  }

  /** No request unscans a file. */
  lemma StepFiles(s: Store, op: Op, env: Env)
    requires Valid(s) && FilesScanned(s.rows) && Mapped(op)
    ensures FilesScanned(Step(s, op, env).store.rows)
  {
    hide Valid, FilesScanned, Put, BulkWrite, Mkcol, Copy, Move, HardDelete, Trash;
    match op
    case PutOp(p, up) => assert p in Ends(op); PutFiles(s, p, up, env);
    case BulkOp(p, up) => assert p in Ends(op); BulkFiles(s, p, up, env);
    case MkcolOp(p) => assert p in Ends(op); MkcolFiles(s, p, env);
    case CopyOp(from, to, diskOk) =>
      assert from in Ends(op) && to in Ends(op);
      CopyFiles(s, from, to, diskOk, env);
    case MoveOp(from, to) =>
      assert from in Ends(op) && to in Ends(op);
      MoveFiles(s, from, to, env);
    case DeleteOp(p) => assert p in Ends(op); HardDeleteFiles(s, p, env);
    case TrashOp(p, stamp) => assert p in Ends(op); TrashFiles(s, p, stamp, env);
    case SetMtimeOp(p, mtime) => SetMtimeFiles(s, p, mtime, env);
  }

  lemma SetMtimeFiles(s: Store, p: Path, mtime: int, env: Env)
    requires FilesScanned(s.rows)
    ensures FilesScanned(SetMtime(s, p, mtime, env).store.rows)
  {
  }
}
