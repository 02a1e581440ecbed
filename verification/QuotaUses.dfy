/** The `files` folder through one request.
    On a healthy store each request changes the recorded size of `files` by what it
    says: an upload by the difference between the new and the old body, a copy by the
    difference between source and old target, a delete or a trashing by the size of
    the node, and MKCOL, PROPPATCH, a version kept aside and a rename in place not at
    all.  The lemmas follow the two ways sizes reach `files`: a signed delta that is
    due on the chain above the target, and a recomputed chain, which shifts it by the
    same amount.  Ancestors made on the way are empty, and the version and trash
    folders lie beside `files`, so nothing there counts. */
module QuotaUses {
  import opened Paths
  import opened Tree
  import opened Propagation
  import opened Stores
  import opened Statements
  import opened RowEdits
  import opened Operations
  import opened OperationProofs
  import opened RequestProofs
  import opened MoveProofs
  import opened TrashProofs
  import opened Totals
  import opened ScannedProofs
  import opened HealthyRuns

  const FILES: Path := ["files"]

  ghost predicate FilesAre(s: Store, f: int, size: int) {
    At(s.rows, f, FILES) && s.rows[f].isDir && s.rows[f].size == size
  }

  lemma UniqueFiles(s: Store, f: int)
    requires Valid(s) && At(s.rows, f, FILES)
    ensures HasPath(s.rows, FILES) && IdAt(s.rows, FILES) == f
  {
    assert At(s.rows, IdAt(s.rows, FILES), FILES);
  }

  lemma SameSizesFilesAre(s: Store, u: Store, f: int, size: int)
    requires SameSizes(s.rows, u.rows) && FilesAre(s, f, size)
    ensures FilesAre(u, f, size)
  {
  }

  lemma ExtendsFilesAre(s: Store, u: Store, p: Path, f: int, size: int)
    requires Extends(s, u, p) && FilesAre(s, f, size)
    ensures FilesAre(u, f, size)
  {
  }

  lemma VersionFilesAre(s: Store, p: Path, r: Row, env: Env, f: int, size: int)
    requires Valid(s) && InFiles(p) && r.size >= -1 && r.etag < s.nextEtag && FilesAre(s, f, size)
    ensures FilesAre(StoreVersion(s, p, r, env), f, size)
  {
    StoreVersionKeeps(s, p, r, env);
    var v := VersionPath(p, r.mtime);
    assert v[0] != FILES[0];
  }

  lemma FilesAbove(p: Path)
    requires InFiles(p)
    ensures Above(FILES, p)
  {
  }

  lemma CommitNewUses(s: Store, p: Path, up: Upload, env: Env, f: int, size: nat)
    requires Valid(s) && Exact(s.rows) && InFiles(p) && !HasPath(s.rows, p) && IsDirAt(s.rows, Parent(p))
    requires FilesAre(s, f, size)
    ensures FilesAre(CommitNew(s, p, up, env), f, size + up.size)
    ensures FilesAre(BulkNew(s, p, up, env), f, size + up.size)
  {
    var r := NewRow(s, p, false, up.size, up.mtime, up.mtime, s.nextEtag);
    var s1 := InsertFresh(s, NewRow(s, p, false, up.size, up.mtime, up.mtime, 0));
    InsertFreshAdds(s, p, false, up.size, up.mtime, up.mtime);
    AddKeepsShape(s, s1, r);
    AddReady(s, s1, r);
    assert FilesAre(s1, f, size);
    FilesAbove(p);
    ChainDelta(s1.rows, p, up.size, f);
    PropSizeAny(s1, p, up.mtime, up.size, env, f);
    var s2 := ChainOn(s1, p);
    ChainQuiet(s1, p, p, p);
    AboveParent(p);
    var s3 := Touch(s2, Parent(p), env);
    TouchQuiet(s2, Parent(p), env, p, p);
    PropZeroSizes(s3, p, up.mtime, env);
  }

  lemma PropSizeAny(s: Store, p: Path, time: int, delta: int, env: Env, f: int)
    requires DeltaReady(s.rows, p, delta) && f in s.rows && Above(s.rows[f].path, p) && s.rows[f].size != -1
    ensures var w := Prop(s, p, time, delta, env);
      f in w.rows && w.rows[f].size == s.rows[f].size + delta && w.rows[f].path == s.rows[f].path && w.rows[f].isDir == s.rows[f].isDir
  {
    NoClamp(s.rows, p, delta, f);
  }

  lemma OverwriteUses(s: Store, p: Path, keepEtag: bool, up: Upload, env: Env, f: int, size: nat)
    requires Valid(s) && Exact(s.rows) && InFiles(p) && HasPath(s.rows, p) && !IsDirAt(s.rows, p)
    requires s.rows[IdAt(s.rows, p)].size >= 0 && FilesAre(s, f, size)
    ensures var u, delta := Overwrite(s, p, up.size, up.mtime, keepEtag), up.size - s.rows[IdAt(s.rows, p)].size;
      && FilesAre(Prop(u, p, up.mtime, delta, env), f, size + delta)
      && FilesAre(Prop(Touch(u, Parent(p), env), p, up.mtime, delta, env), f, size + delta)
  {
    hide Exact, DeltaReady, Evolves, EditBody;
    var id := IdAt(s.rows, p);
    var u, delta := Overwrite(s, p, up.size, up.mtime, keepEtag), up.size - s.rows[id].size;
    OverwriteRewrites(s, p, up.size, up.mtime, keepEtag);
    RewriteKeepsShape(s, u, id);
    RewriteReady(s, u, id);
    FilesAbove(p);
    assert FilesAre(u, f, size);
    PropSizeAny(u, p, up.mtime, delta, env, f);
    AboveParent(p);
    var x := Touch(u, Parent(p), env);
    TouchQuiet(u, Parent(p), env, p, p);
    SameSizesReady(u.rows, x.rows, p, delta);
    PropSizeAny(x, p, up.mtime, delta, env, f);
  }

  /** A completed upload adds at most its own size; a refused one adds nothing. */
  lemma OverUses(s: Store, p: Path, up: Upload, env: Env, f: int, size: nat)
    requires Healthy(s) && InFiles(p) && HasPath(s.rows, p) && !IsDirAt(s.rows, p) && FilesAre(s, f, size)
    ensures var r := s.rows[IdAt(s.rows, p)];
      var s2 := StoreVersion(s, p, r, env);
      && HasPath(s2.rows, p) && FilesAre(s2, f, size)
      && FilesAre(CommitOverwrite(s2, p, r, up, env), f, size + up.size - r.size)
      && FilesAre(BulkOverwrite(s2, p, r, up, env), f, size + up.size - r.size)
      && r.size >= 0
  {
    hide StoreVersion, Exact, NotLastUnscanned, Evolves, Shaped, TrashIsFolder, Overwrite, Touch, Prop;
    var id := IdAt(s.rows, p);
    var r := s.rows[id];
    var s2 := StoreVersion(s, p, r, env);
    StoreVersionKeeps(s, p, r, env);
    VersionFilesAre(s, p, r, env, f, size);
    VersionSiblings(s, s2, p, VersionPath(p, r.mtime), id);
    OverwriteUses(s2, p, ReusesEtag(r, p, env), up, env, f, size);
    OverwriteUses(s2, p, false, up, env, f, size);
  }

  lemma PutUses(s: Store, p: Path, up: Upload, env: Env, f: int, size: nat) returns (after: int)
    requires Healthy(s) && InFiles(p) && FilesAre(s, f, size)
    ensures var w := Put(s, p, up, env);
      && FilesAre(w.store, f, after) && after <= size + up.size && (w.outcome == Refused ==> after == size)
  {
    hide Shaped, SizesOk, TrashIsFolder, CommitNew, CommitOverwrite, StoreVersion, EnsureDirs, Evolves, Exact;
    after := size;
    if IsDirAt(s.rows, p) || !CanEnsure(s.rows, Parent(p)) {
      return;
    }
    AboveParent(p);
    EnsureKeeps(s, Parent(p), env);
    var s1 := EnsureDirs(s, Parent(p), env);
    ExtendsPaths(s, s1, Parent(p), p);
    ExtendsFilesAre(s, s1, Parent(p), f, size);
    if !IsDirAt(s1.rows, Parent(p)) || !up.checksumOk {
      return;
    }
    if HasPath(s.rows, p) {
      ParentExists(s, p);
      EnsureExisting(s, Parent(p), env);
      OverUses(s, p, up, env, f, size);
      after := if Put(s, p, up, env).outcome == Done then size + up.size - s.rows[IdAt(s.rows, p)].size else size;
    } else if Put(s, p, up, env).outcome == Done {
      CommitNewUses(s1, p, up, env, f, size);
      after := size + up.size;
    }
  }

  lemma BulkUses(s: Store, p: Path, up: Upload, env: Env, f: int, size: nat) returns (after: int)
    requires Healthy(s) && InFiles(p) && FilesAre(s, f, size)
    ensures FilesAre(BulkWrite(s, p, up, env).store, f, after) && after <= size + up.size
  {
    hide Exact, StoreVersion, BulkNew, BulkOverwrite, Evolves;
    after := size;
    if IsDirAt(s.rows, Parent(p)) && !IsDirAt(s.rows, p) {
      if HasPath(s.rows, p) {
        OverUses(s, p, up, env, f, size);
        after := size + up.size - s.rows[IdAt(s.rows, p)].size;
      } else {
        CommitNewUses(s, p, up, env, f, size);
        after := size + up.size;
      }
    }
  }

  lemma MkcolUses(s: Store, p: Path, env: Env, f: int, size: nat)
    requires Valid(s) && p != [] && FilesAre(s, f, size)
    ensures FilesAre(Mkcol(s, p, env).store, f, size)
  {
    hide Exact, Evolves, Shaped, SizesOk, TrashIsFolder, EnsureDirs;
    if !HasPath(s.rows, p) && CanEnsure(s.rows, Parent(p)) {
      AboveParent(p);
      EnsureKeeps(s, Parent(p), env);
      var s1 := EnsureDirs(s, Parent(p), env);
      ExtendsFilesAre(s, s1, Parent(p), f, size);
      assert s1.rows[f].size == size;
    }
  }

  lemma DeleteUses(s: Store, p: Path, env: Env, f: int, size: nat) returns (after: int)
    requires Healthy(s) && InFiles(p) && FilesAre(s, f, size)
    ensures FilesAre(HardDelete(s, p, env).store, f, after) && after <= size
  {
    after := size;
    if HasPath(s.rows, p) {
      var z := s.rows[IdAt(s.rows, p)].size;
      ScannedThroughout(s.rows);
      var u := RemoveTree(s, p);
      RemoveTreeRemoves(s, p);
      RemoveReady(s, u, p);
      FilesAbove(p);
      PropSizeAny(u, p, env.now, -z, env, f);
      after := size - z;
    }
  }

  lemma TrashUses(s: Store, p: Path, stamp: nat, env: Env, f: int, size: nat) returns (after: int)
    requires Healthy(s) && InFiles(p) && FilesAre(s, f, size)
    ensures FilesAre(Trash(s, p, stamp, env).store, f, after) && after <= size
  {
    hide Shaped, SizesOk, TrashIsFolder, Evolves, Exact, CanEnsure, TrashSkeleton, CacheRow, TrashMove, NotLastUnscanned, Above, AtOrBelow;
    var to := TrashPath(Last(p), stamp);
    after := size;
    if TrashAllowed(s.rows, p, to) {
      FilesAbove(p);
      TrashPrepared(s, p, stamp, env);
      ScannedThroughout(s.rows);
      var t := CacheRow(TrashSkeleton(s, env), stamp);
      var z := s.rows[IdAt(s.rows, p)].size;
      assert FilesAre(t, f, size);
      FilesNotInside(p);
      TrashMoveConserves(t, p, to, env, f);
      TrashMoveKeeps(TrashSkeleton(s, env), t, p, to, z, env);
      TrashKeepsDir(s, p, stamp, env, f);
      after := size - z;
    }
  }

  lemma FilesNotInside(p: Path)
    requires InFiles(p)
    ensures !AtOrBelow(FILES, p)
    ensures forall to :: Rebase(FILES, p, to) == FILES
  {
  }

  lemma TrashKeepsDir(s: Store, p: Path, stamp: nat, env: Env, f: int)
    requires Valid(s) && InFiles(p) && f in s.rows
    ensures f in Trash(s, p, stamp, env).store.rows ==>
              Trash(s, p, stamp, env).store.rows[f].isDir == s.rows[f].isDir
  {
    TrashKeeps(s, p, stamp, env);
  }

  /** A copy adds at most the size of its source. */
  ghost function SourceSize(t: Table, from: Path): int {
    if HasPath(t, from) then t[IdAt(t, from)].size else 0
  }

  lemma CopyTailUses(u: Store, to: Path, delta: int, env: Env, f: int, size: nat)
    requires Valid(u) && InFiles(to) && DeltaReady(u.rows, to, delta) && FilesAre(u, f, size)
    ensures FilesAre(ChainOn(Prop(u, to, env.now, 0, env), to), f, size + delta)
  {
    var u1 := Prop(u, to, env.now, 0, env);
    PropQuiet(u, to, env.now, 0, env, to, to);
    PropZeroSizes(u, to, env.now, env);
    SameSizesReady(u.rows, u1.rows, to, delta);
    FilesAbove(to);
    ChainDelta(u1.rows, to, delta, f);
    ChainFrame(u1.rows, to);
  }

  /** The copy replaces a file of `z` bytes by a clone of the source. */
  lemma CopyOverReady(s: Store, from: Path, to: Path, env: Env)
    requires Healthy(s) && InFiles(to) && from != to && !IsDirAt(s.rows, from) && !IsDirAt(s.rows, to) && HasPath(s.rows, to)
    ensures var s1 := RemoveAt(s, to);
      var u := if HasPath(s1.rows, from) then CopyRow(s1, from, to, env) else s1;
      && Valid(u) && s.rows[IdAt(s.rows, to)].size >= 0
      && DeltaReady(u.rows, to, SourceSize(s1.rows, from) - s.rows[IdAt(s.rows, to)].size)
  {
    var s1 := RemoveAt(s, to);
    RemoveFileRemoves(s, to);
    RemoveKeepsShape(s, s1, to);
    RemoveReady(s, s1, to);
    if HasPath(s1.rows, from) {
      var r := s1.rows[IdAt(s1.rows, from)];
      assert At(s.rows, IdAt(s1.rows, from), from);
      var n := NewRow(s1, to, false, r.size, r.mtime, env.now, r.etag);
      ParentExists(s, to);
      AddKeepsShape(s1, Insert(s1, n), n);
      AddToReady(s1, Insert(s1, n), n, -s.rows[IdAt(s.rows, to)].size);
    }
  }

  lemma CopyFreshReady(s: Store, from: Path, to: Path, env: Env)
    requires Healthy(s) && InFiles(to) && from != to && !IsDirAt(s.rows, from) && !HasPath(s.rows, to)
    requires HasPath(s.rows, from) && IsDirAt(s.rows, Parent(to))
    ensures Valid(CopyRow(s, from, to, env))
    ensures DeltaReady(CopyRow(s, from, to, env).rows, to, SourceSize(s.rows, from))
  {
    var r := s.rows[IdAt(s.rows, from)];
    var n := NewRow(s, to, false, r.size, r.mtime, env.now, r.etag);
    AddKeepsShape(s, Insert(s, n), n);
    AddReady(s, Insert(s, n), n);
  }

  lemma ShadowUses(s: Store, p: Path, env: Env, f: int, size: int)
    requires Valid(s) && FilesAre(s, f, size)
    ensures FilesAre(ShadowChain(s, p, env), f, size)
  {
    ShadowKeeps(s, p, env);
    var v := ShadowPath("files_versions", p);
    assert v[0] != FILES[0];
    assert QuietRow(s, s.rows[f], ShadowChain(s, p, env).rows[f], v, v);
  }

  lemma CopyOverUses(s: Store, from: Path, to: Path, env: Env, f: int, size: nat) returns (after: int)
    requires Healthy(s) && InFiles(from) && InFiles(to) && CopyAllowed(s.rows, from, to, true)
    requires HasPath(s.rows, to) && FilesAre(s, f, size)
    ensures var s1 := RemoveAt(s, to);
      && HasPath(s1.rows, Parent(to))
      && var s2 := if HasPath(s1.rows, from) then CopyRow(s1, from, to, env) else s1;
         FilesAre(ChainOn(Prop(s2, to, env.now, 0, env), to), f, after)
    ensures after <= size + SourceSize(s.rows, from)
  {
    var s1 := RemoveAt(s, to);
    RemoveFileRemoves(s, to);
    RemoveKeepsShape(s, s1, to);
    NothingBelowIfFile(s, from, to);
    ParentExists(s, to);
    AboveParent(to);
    hide Exact, FilesScanned, Shaped, SizesOk, TrashIsFolder, Chain, Prop, EditBody;
    CopyOverReady(s, from, to, env);
    FilesNotInside(to);
    var u := if HasPath(s1.rows, from) then CopyRow(s1, from, to, env) else s1;
    var delta := SourceSize(s1.rows, from) - s.rows[IdAt(s.rows, to)].size;
    CopyTailUses(u, to, delta, env, f, size);
    RemovedSource(s, s1, from, to);
    after := size + delta;
  }

  lemma RemovedSource(s: Store, s1: Store, from: Path, to: Path)
    requires Valid(s) && Removes(s, s1, to) && (HasPath(s.rows, from) ==> !AtOrBelow(from, to))
    ensures SourceSize(s1.rows, from) == SourceSize(s.rows, from)
  {
    if HasPath(s.rows, from) {
      assert At(s1.rows, IdAt(s.rows, from), from);
    }
    if HasPath(s1.rows, from) {
      assert At(s.rows, IdAt(s1.rows, from), from);
    }
  }

  lemma CopyRowsUses(s: Store, from: Path, to: Path, env: Env, f: int, size: nat) returns (after: int)
    requires Healthy(s) && InFiles(from) && InFiles(to) && CopyAllowed(s.rows, from, to, true)
    requires HasPath(RemoveAt(s, to).rows, from) ==> CanEnsure(RemoveAt(s, to).rows, Parent(to))
    requires FilesAre(s, f, size)
    ensures var s1 := RemoveAt(s, to);
      var s2 := if HasPath(s1.rows, from) then CopyRow(EnsureDirs(s1, Parent(to), env), from, to, env) else s1;
      FilesAre(ChainOn(Prop(s2, to, env.now, 0, env), to), f, after)
    ensures after <= size + SourceSize(s.rows, from)
  {
    hide Shaped, SizesOk, TrashIsFolder, Exact, FilesScanned, EnsureDirs, CopyRow, Prop, Chain, CanEnsure, NoFileAbove;
    if HasPath(s.rows, to) {
      after := CopyOverUses(s, from, to, env, f, size);
      EnsureExisting(RemoveAt(s, to), Parent(to), env);
    } else {
      RemoveNothing(s, to);
      if HasPath(s.rows, from) {
        after := CopyFreshUses(s, from, to, env, f, size);
      } else {
        CopyNothingUses(s, to, env, f, size);
        after := size;
      }
    }
  }

  lemma NothingBelowIfFile(s: Store, from: Path, to: Path)
    requires Valid(s) && !IsDirAt(s.rows, to) && from != to
    ensures HasPath(s.rows, from) ==> !AtOrBelow(from, to)
  {
    if HasPath(s.rows, from) {
      NothingBelowFile(s, from, to);
    }
  }

  lemma CopyFreshUses(s: Store, from: Path, to: Path, env: Env, f: int, size: nat) returns (after: int)
    requires Healthy(s) && InFiles(from) && InFiles(to) && CopyAllowed(s.rows, from, to, true)
    requires !HasPath(s.rows, to) && HasPath(s.rows, from) && CanEnsure(s.rows, Parent(to)) && FilesAre(s, f, size)
    ensures FilesAre(ChainOn(Prop(CopyRow(EnsureDirs(s, Parent(to), env), from, to, env), to, env.now, 0, env), to), f, after)
    ensures after == size + SourceSize(s.rows, from)
  {
    hide Shaped, SizesOk, TrashIsFolder, Exact, FilesScanned, EnsureDirs, Prop, Chain, Evolves;
    var e := EnsureDirs(s, Parent(to), env);
    AboveParent(to);
    FileNotAbove(s, from, to);
    AboveSplit(from, to);
    EnsureKeeps(s, Parent(to), env);
    ExtendsFiles(s, e, Parent(to));
    ExtendsFilesAre(s, e, Parent(to), f, size);
    ExtendsPaths(s, e, Parent(to), to);
    ExtendsPaths(s, e, Parent(to), from);
    ExtendsPaths(s, e, Parent(to), Parent(to));
    CopyFreshReady(e, from, to, env);
    after := size + SourceSize(e.rows, from);
    CopyTailUses(CopyRow(e, from, to, env), to, SourceSize(e.rows, from), env, f, size);
  }

  /** Without a source row the target chain is only recomputed. */
  lemma CopyNothingUses(s: Store, to: Path, env: Env, f: int, size: int)
    requires Valid(s) && Exact(s.rows) && to != [] && NoFileAbove(s.rows, to) && FilesAre(s, f, size)
    ensures FilesAre(ChainOn(Prop(s, to, env.now, 0, env), to), f, size)
  {
    var u := Prop(s, to, env.now, 0, env);
    PropQuiet(s, to, env.now, 0, env, to, to);
    PropZeroSizes(s, to, env.now, env);
    SameSizesExact(s.rows, u.rows);
    ChainNoop(u.rows, to);
  }

  lemma CopyUses(s: Store, from: Path, to: Path, diskOk: bool, env: Env, f: int, size: nat) returns (after: int)
    requires Healthy(s) && InFiles(from) && InFiles(to) && FilesAre(s, f, size)
    ensures var w := Copy(s, from, to, diskOk, env);
      FilesAre(w.store, f, after) && after <= size + SourceSize(s.rows, from)
  {
    hide Shaped, SizesOk, TrashIsFolder, Exact, EnsureDirs, CopyRow, Prop, Chain, ShadowChain, CanEnsure, Evolves;
    after := size;
    ScannedThroughout(s.rows);
    if CopyAllowed(s.rows, from, to, diskOk) {
      var s1 := RemoveAt(s, to);
      if HasPath(s1.rows, from) ==> CanEnsure(s1.rows, Parent(to)) {
        after := CopyRowsUses(s, from, to, env, f, size);
        CopyRows(s, from, to, env);
        var s2 := if HasPath(s1.rows, from) then CopyRow(EnsureDirs(s1, Parent(to), env), from, to, env) else s1;
        ShadowUses(ChainOn(Prop(s2, to, env.now, 0, env), to), to, env, f, after);
      } else {
        CopyRefused(s, from, to, f, size);
      }
    }
  }

  lemma CopyRefused(s: Store, from: Path, to: Path, f: int, size: int)
    requires FilesAre(s, f, size) && InFiles(to)
    ensures FilesAre(RemoveAt(s, to), f, size)
  {
  }

  lemma HomeMoveUses(s: Store, from: Path, to: Path, env: Env, f: int, size: int)
    requires Healthy(s) && InFiles(from) && InFiles(to) && Parent(from) == Parent(to) && FilesAre(s, f, size)
    ensures FilesAre(Move(s, from, to, env).store, f, size)
  {
    if MoveAllowed(s.rows, from, to) {
      var u := Rekey(s, from, to);
      MoveRows(s, from, to);
      HomeRekeyUses(s, from, to, f, size);
      var u1 := MoveTouched(u, from, to, env);
      MoveTouchedQuiet(u, from, to, env);
      SameSizesExact(u.rows, u1.rows);
      SameSizesFilesAre(u, u1, f, size);
      SameShapePath(u.rows, u1.rows, Parent(to));
      forall id | id in u1.rows && Above(u1.rows[id].path, Parent(to))
        ensures ExactAt(u1.rows, id)
      {
        AncestorsExist(u1.rows, IdAt(u1.rows, Parent(to)), u1.rows[id].path);
        assert At(u1.rows, id, u1.rows[id].path);
      }
      ChainNoop(u1.rows, Parent(to));
      ShadowUses(u1, to, env, f, size);
    }
  }

  lemma HomeRekeyUses(s: Store, from: Path, to: Path, f: int, size: int)
    requires Valid(s) && Exact(s.rows) && InFiles(from) && InFiles(to) && Parent(from) == Parent(to)
    requires MoveAllowed(s.rows, from, to) && FilesAre(s, f, size)
    ensures var u := Rekey(s, from, to);
      Exact(u.rows) && FilesAre(u, f, size) && HasPath(u.rows, Parent(to))
  {
    var u := Rekey(s, from, to);
    if from == to {
      RekeyInPlace(s, from);
    } else {
      ParentExists(s, from);
      RekeyMoves(s, from, to);
      MoveIsClear(s, u, from, to);
      MoveKeepsShape(s, u, from, to);
      FilesNotInside(from);
      MovedPath(s, u, from, to, f);
      MoveSizes(s, u, from, to, f);
      forall id | id in u.rows && u.rows[id].isDir
        ensures ExactAt(u.rows, id)
      {
        MoveSizes(s, u, from, to, id);
        assert ExactAt(s.rows, id);
        MoveExactElsewhere(s, u, from, to, id);
      }
    }
  }
}
