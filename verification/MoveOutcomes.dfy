/** The row-by-row result of COPY and MOVE. */
module MoveOutcomes {
  import opened Paths
  import opened Tree
  import opened Propagation
  import opened Stores
  import opened Statements
  import opened RowEdits
  import opened Operations
  import opened OperationProofs
  import opened RequestProofs
  import opened MoveProofs
  import opened Outcomes
  import opened WriteOutcomes

  /** The place of `p` in the folder of kept versions. */
  function VersionsOf(p: Path): (v: Path)
    requires InFiles(p)
    ensures |v| == |p|
  {
    ["files_versions"] + p[1..]
  }

  /** The last repair of COPY and MOVE. */
  lemma ShadowTells(u: Store, p: Path, env: Env, id: int)
    requires Valid(u) && InFiles(p) && id in ShadowChain(u, p, env).rows
    ensures var w := ShadowChain(u, p, env);
      && id in u.rows && w.nextEtag == u.nextEtag + 1
      && w.rows[id] == if Above(u.rows[id].path, VersionsOf(p))
                       then Folder(u.rows[id], w.rows[id], false, env.now, u.nextEtag, env)
                       else u.rows[id]
  {
    hide TrashIsFolder, Chain;
    var v := VersionsOf(p);
    assert v == ShadowPath("files_versions", p);
    var u1 := Prop(u, v, env.now, 0, env);
    PropQuiet(u, v, env.now, 0, env, v, v);
    ChainFrame(u1.rows, v);
    PropTells(u, v, env.now, 0, env, id);
    ChainTells(u1, v, id);
  }

  // ── COPY ───────────────────────────────────────────────────────────────────

  /** A row after a copy: the clone, the folders above it told at the present time, the
      folders that had to be made for it, and those above its place among the versions. */
  ghost predicate FileCopied(s: Store, w: Store, from: Path, to: Path, env: Env, id: int)
    requires InFiles(to) && id in w.rows
  {
    var q, x := w.rows[id].path, w.rows[id];
    w.nextEtag >= s.nextEtag + 2 &&
    if q == to then
      && id !in s.rows && HasPath(s.rows, from)
      && var r := s.rows[IdAt(s.rows, from)];
         !x.isDir && x.size == r.size && x.mtime == r.mtime && x.etag == r.etag && x.storageMtime == env.now
    else if q == Parent(to) && id !in s.rows then
      x.isDir && x.mtime == env.now && x.storageMtime == env.now && x.etag == w.nextEtag - 2
    else if Above(q, to) then
      ToldAbove(s, x, id, q != Parent(to) && HasPath(s.rows, from) && NextMissing(s.rows, q, to), env.now,
                if q == [] then w.nextEtag - 1 else w.nextEtag - 2, env)
    else if Above(q, VersionsOf(to)) then
      ToldAbove(s, x, id, false, env.now, w.nextEtag - 1, env)
    else id in s.rows && x == s.rows[id]
  }

  /** COPY is done exactly when the disk copy succeeds, no folder is at either end, the
      ends differ and only folders are above the target; otherwise nothing changes. */
  lemma CopyDone(s: Store, from: Path, to: Path, diskOk: bool, env: Env)
    requires Valid(s) && InFiles(from) && InFiles(to)
    ensures Copy(s, from, to, diskOk, env).outcome == Done <==>
              && diskOk && from != to
              && (forall id :: id in s.rows && (s.rows[id].path == from || s.rows[id].path == to) ==> !s.rows[id].isDir)
              && (forall id :: id in s.rows && Above(s.rows[id].path, to) ==> s.rows[id].isDir)
    ensures Copy(s, from, to, diskOk, env).outcome == Refused ==> Copy(s, from, to, diskOk, env).store == s
  {
    hide Valid, EnsureDirs, ShadowChain, Chain, Prop, CopyRow;
    DirAtIff(s, from);
    DirAtIff(s, to);
    if CopyAllowed(s.rows, from, to, diskOk) {
      CopyCanEnsure(s, from, to);
    }
  }

  lemma CopyCanEnsure(s: Store, from: Path, to: Path)
    requires Valid(s) && InFiles(from) && InFiles(to) && CopyAllowed(s.rows, from, to, true)
    ensures var s1 := RemoveAt(s, to);
      && Valid(s1) && (HasPath(s1.rows, from) <==> HasPath(s.rows, from))
      && (HasPath(s.rows, from) ==> IdAt(s1.rows, from) == IdAt(s.rows, from))
      && (HasPath(s.rows, from) ==> CanEnsure(s1.rows, Parent(to)))
      && NoFileAbove(s1.rows, to)
  {
    var s1 := RemoveAt(s, to);
    if HasPath(s.rows, to) {
      RemoveFileRemoves(s, to);
      RemoveKeepsShape(s, s1, to);
    } else {
      RemoveNothing(s, to);
    }
    if HasPath(s.rows, from) {
      var m := IdAt(s.rows, from);
      assert At(s1.rows, m, from) && At(s1.rows, IdAt(s1.rows, from), from);
      FilesIsThere(s1, from);
      NoFileAboveParent(s1, to);
    }
    if HasPath(s1.rows, from) {
      assert At(s.rows, IdAt(s1.rows, from), from);
    }
  }

  /** The rows of a copy before the ancestors are told. */
  ghost function CopyBase(s: Store, from: Path, to: Path, env: Env): Store
    requires InFiles(to)
  {
    var s1 := RemoveAt(s, to);
    if HasPath(s1.rows, from) then CopyRow(EnsureDirs(s1, Parent(to), env), from, to, env) else s1
  }

  lemma CopyBaseRow(s: Store, from: Path, to: Path, env: Env, id: int)
    requires Valid(s) && InFiles(from) && InFiles(to) && CopyAllowed(s.rows, from, to, true)
    requires id in CopyBase(s, from, to, env).rows
    ensures var s1, u := RemoveAt(s, to), CopyBase(s, from, to, env);
      && Valid(s1) && Valid(u) && s.nextEtag <= u.nextEtag
      && (HasPath(s1.rows, from) <==> HasPath(s.rows, from))
      && (id !in s1.rows ==> id !in s.rows)
      && if id !in s1.rows && u.rows[id].path == to then ClonedRow(s, u.rows[id], from, id, env)
         else
           && u.rows[id].path != to
           && if HasPath(s.rows, from) && !HasPath(s1.rows, Parent(to)) then Ensured(s1, u, Parent(to), env, id)
              else id in s1.rows && u.rows[id] == s1.rows[id]
  {
    hide Valid, CopyAllowed, EnsureDirs, NoFileAbove, CanEnsure, Ensured;
    CopyCanEnsure(s, from, to);
    var s1, u := RemoveAt(s, to), CopyBase(s, from, to, env);
    if HasPath(s1.rows, from) {
      var e := EnsureDirs(s1, Parent(to), env);
      CloneInserted(s, from, to, env);
      if id in e.rows {
        OpenedRow(s1, to, env, id);
        assert At(e.rows, id, e.rows[id].path);
        EnsuredSame(s1, e, u, Parent(to), env, id);
      }
    }
  }

  /** A row that is a clone of the one at `from`. */
  ghost predicate ClonedRow(s: Store, x: Row, from: Path, id: int, env: Env) {
    && id !in s.rows && HasPath(s.rows, from)
    && var r := s.rows[IdAt(s.rows, from)];
       !x.isDir && x.size == r.size && x.mtime == r.mtime && x.etag == r.etag && x.storageMtime == env.now
  }

  lemma EnsuredSame(s: Store, e: Store, u: Store, p: Path, env: Env, id: int)
    requires id in e.rows && id in u.rows && u.rows[id] == e.rows[id] && u.nextEtag == e.nextEtag
    ensures Ensured(s, e, p, env, id) ==> Ensured(s, u, p, env, id)
  {
  }

  lemma CloneInserted(s: Store, from: Path, to: Path, env: Env)
    requires Valid(s) && InFiles(from) && InFiles(to) && CopyAllowed(s.rows, from, to, true) && HasPath(s.rows, from)
    ensures var s1 := RemoveAt(s, to);
      var e, u := EnsureDirs(s1, Parent(to), env), CopyBase(s, from, to, env);
      && Valid(s1) && HasPath(s1.rows, from) && NoFileAbove(s1.rows, Parent(to))
      && Valid(u) && s.nextEtag <= e.nextEtag == u.nextEtag && !HasPath(e.rows, to)
      && u.rows.Keys == e.rows.Keys + {e.nextId} && e.nextId !in e.rows && e.nextId !in s.rows
      && (forall id :: id in e.rows ==> u.rows[id] == e.rows[id] && (id !in s1.rows ==> id !in s.rows))
      && u.rows[e.nextId].path == to && ClonedRow(s, u.rows[e.nextId], from, e.nextId, env)
  {
    hide EnsureDirs, Shaped, SizesOk, TrashIsFolder, NoFileAbove, CopyAllowed;
    CopyCanEnsure(s, from, to);
    CloneReady(s, RemoveAt(s, to), from, to, env);
    var e := EnsureDirs(RemoveAt(s, to), Parent(to), env);
    RowAtIsOk(e, from);
    FreshIdIsNew(e);
    var r := e.rows[IdAt(e.rows, from)];
    var n := NewRow(e, to, false, r.size, r.mtime, env.now, r.etag);
    AddKeepsShape(e, Insert(e, n), n);
  }

  lemma CloneReady(s: Store, s1: Store, from: Path, to: Path, env: Env)
    requires Valid(s) && Valid(s1) && InFiles(to) && s1 == RemoveAt(s, to) && CopyAllowed(s.rows, from, to, true)
    requires HasPath(s.rows, from) && HasPath(s1.rows, from) && IdAt(s1.rows, from) == IdAt(s.rows, from)
    requires NoFileAbove(s1.rows, to)
    ensures var e := EnsureDirs(s1, Parent(to), env);
      && NoFileAbove(s1.rows, Parent(to)) && Valid(e) && s.nextEtag <= e.nextEtag && s.nextId <= e.nextId
      && IsDirAt(e.rows, Parent(to)) && !HasPath(e.rows, to)
      && (forall id :: id in e.rows && id !in s1.rows ==> id !in s.rows)
      && HasPath(e.rows, from) && e.rows[IdAt(e.rows, from)] == s.rows[IdAt(s.rows, from)]
  {
    hide EnsureDirs, Shaped, SizesOk, TrashIsFolder, SubtreeSame, Exact;
    RemovedIsGone(s, to);
    var e := EnsureDirs(s1, Parent(to), env);
    NoFileAboveParent(s1, to);
    FolderIsDir(s1, to, env);
    AboveParent(to);
    EnsureKeeps(s1, Parent(to), env);
    ExtendsPaths(s1, e, Parent(to), to);
    ExtendsPaths(s1, e, Parent(to), from);
    assert !IsDirAt(s1.rows, from);
    FileNotAbove(s1, from, to);
    AboveSplit(from, to);
  }

  lemma RemovedIsGone(s: Store, p: Path)
    ensures !HasPath(RemoveAt(s, p).rows, p)
  {
  }

  lemma CopyTailTells(u: Store, to: Path, env: Env, id: int)
    requires Valid(u) && InFiles(to)
    requires id in ShadowChain(ChainOn(Prop(u, to, env.now, 0, env), to), to, env).rows
    ensures var w := ShadowChain(ChainOn(Prop(u, to, env.now, 0, env), to), to, env);
      && id in u.rows && w.nextEtag == u.nextEtag + 2
      && w.rows[id] ==
           if Above(u.rows[id].path, VersionsOf(to))
           then Folder(u.rows[id], w.rows[id], false, env.now, u.nextEtag + 1, env)
           else if Above(u.rows[id].path, to) then Folder(u.rows[id], w.rows[id], false, env.now, u.nextEtag, env)
           else u.rows[id]
  {
    hide Shaped, TrashIsFolder, Chain, ShadowChain;
    var u1 := Prop(u, to, env.now, 0, env);
    PropQuiet(u, to, env.now, 0, env, to, to);
    var u2 := ChainOn(u1, to);
    ChainQuiet(u1, to, to, to);
    ShadowTells(u2, to, env, id);
    ChainFrame(u1.rows, to);
    PropTells(u, to, env.now, 0, env, id);
    ChainTells(u1, to, id);
  }

  lemma CopiedOverBase(s: Store, s1: Store, u: Store, w: Store, from: Path, to: Path, env: Env, id: int)
    requires Valid(s) && Valid(s1) && Valid(u) && InFiles(to) && s1 == RemoveAt(s, to) && id in u.rows && id in w.rows
    requires s.nextEtag <= u.nextEtag && w.nextEtag == u.nextEtag + 2 && (id !in s1.rows ==> id !in s.rows)
    requires if id !in s1.rows && u.rows[id].path == to then ClonedRow(s, u.rows[id], from, id, env)
             else
               && u.rows[id].path != to
               && if HasPath(s.rows, from) && !HasPath(s1.rows, Parent(to)) then Ensured(s1, u, Parent(to), env, id)
                  else id in s1.rows && u.rows[id] == s1.rows[id]
    requires w.rows[id] ==
               if Above(u.rows[id].path, VersionsOf(to))
           then Folder(u.rows[id], w.rows[id], false, env.now, u.nextEtag + 1, env)
               else if Above(u.rows[id].path, to) then Folder(u.rows[id], w.rows[id], false, env.now, u.nextEtag, env)
               else u.rows[id]
    ensures FileCopied(s, w, from, to, env, id)
  {
    hide Valid, Ensured, ClonedRow, HasPath, IsDirAt;
    var q := w.rows[id].path;
    ChainsMeetAtRoot(to, VersionsOf(to), q);
    StepDown(q, to);
    if Above(q, Parent(to)) {
      SamePrefix(s, to, |q| + 1);
      if HasPath(s1.rows, Parent(to)) {
        PrefixIsThere(s1, Parent(to), |q| + 1);
      }
    }
    if q == to {
      assert id !in s1.rows;
      ClonedStays(s, u.rows[id], from, id, env);
    } else if HasPath(s.rows, from) && !HasPath(s1.rows, Parent(to)) {
      CopiedOverEnsured(s, s1, u, w, from, to, env, id);
    }
  }

  lemma ClonedStays(s: Store, x: Row, from: Path, id: int, env: Env)
    requires ClonedRow(s, x, from, id, env)
    ensures id !in s.rows && HasPath(s.rows, from)
    ensures var r := s.rows[IdAt(s.rows, from)];
      !x.isDir && x.size == r.size && x.mtime == r.mtime && x.etag == r.etag && x.storageMtime == env.now
  {
  }

  lemma CopiedOverEnsured(s: Store, s1: Store, u: Store, w: Store, from: Path, to: Path, env: Env, id: int)
    requires InFiles(to) && s1 == RemoveAt(s, to) && id in u.rows && id in w.rows && w.rows[id].path != to
    requires s.nextEtag <= u.nextEtag && w.nextEtag == u.nextEtag + 2 && (id !in s1.rows ==> id !in s.rows)
    requires HasPath(s.rows, from) && !HasPath(s1.rows, Parent(to)) && Ensured(s1, u, Parent(to), env, id)
    requires w.rows[id] ==
               if Above(u.rows[id].path, VersionsOf(to))
           then Folder(u.rows[id], w.rows[id], false, env.now, u.nextEtag + 1, env)
               else if Above(u.rows[id].path, to) then Folder(u.rows[id], w.rows[id], false, env.now, u.nextEtag, env)
               else u.rows[id]
    ensures FileCopied(s, w, from, to, env, id)
  {
    var q := w.rows[id].path;
    ChainsMeetAtRoot(to, VersionsOf(to), q);
    StepDown(q, to);
    if Above(q, Parent(to)) {
      SamePrefix(s, to, |q| + 1);
    }
    assert id in s1.rows ==> At(s1.rows, id, q);
  }

  lemma SamePrefix(s: Store, to: Path, n: nat)
    requires n < |to|
    ensures HasPath(RemoveAt(s, to).rows, to[..n]) <==> HasPath(s.rows, to[..n])
  {
    var s1 := RemoveAt(s, to);
    forall id
      ensures At(s1.rows, id, to[..n]) <==> At(s.rows, id, to[..n])
    {
    }
  }

  lemma CopyRowTells(s: Store, from: Path, to: Path, env: Env, id: int)
    requires Valid(s) && InFiles(from) && InFiles(to) && Copy(s, from, to, true, env).outcome == Done
    requires id in Copy(s, from, to, true, env).store.rows
    ensures FileCopied(s, Copy(s, from, to, true, env).store, from, to, env, id)
  {
    hide Valid, CopyAllowed, EnsureDirs, NoFileAbove, CanEnsure, Ensured, CopyBase, FileCopied, ShadowChain, Chain, Prop;
    var w, u := Copy(s, from, to, true, env).store, CopyBase(s, from, to, env);
    CopyInSteps(s, from, to, env);
    CopyTailTells(u, to, env, id);
    CopyBaseRow(s, from, to, env, id);
    CopiedOverBase(s, RemoveAt(s, to), u, w, from, to, env, id);
  }

  lemma CopyInSteps(s: Store, from: Path, to: Path, env: Env)
    requires Valid(s) && InFiles(from) && InFiles(to) && Copy(s, from, to, true, env).outcome == Done
    ensures CopyAllowed(s.rows, from, to, true)
    ensures var u := CopyBase(s, from, to, env);
      && Valid(u) && Valid(RemoveAt(s, to)) && s.nextEtag <= u.nextEtag
      && Copy(s, from, to, true, env).store == ShadowChain(ChainOn(Prop(u, to, env.now, 0, env), to), to, env)
  {
    hide Valid, CopyAllowed, EnsureDirs, NoFileAbove, CanEnsure, ShadowChain, Chain, Prop;
    CopyCanEnsure(s, from, to);
    if HasPath(s.rows, from) {
      CloneInserted(s, from, to, env);
    }
  }

  /** A copy takes away the row it replaces and no other. */
  lemma CopyRemoves(s: Store, from: Path, to: Path, env: Env, id: int)
    requires Valid(s) && InFiles(from) && InFiles(to) && Copy(s, from, to, true, env).outcome == Done && id in s.rows
    ensures id in Copy(s, from, to, true, env).store.rows <==> s.rows[id].path != to
  {
    hide Valid, CopyAllowed, EnsureDirs, NoFileAbove, CanEnsure, Ensured, CopyBase, FileCopied, ShadowChain, Chain, Prop;
    var w, u := Copy(s, from, to, true, env).store, CopyBase(s, from, to, env);
    CopyInSteps(s, from, to, env);
    CopyTailKeys(u, to, env);
    CopyBaseKeys(s, from, to, env);
    if s.rows[id].path == to && id in w.rows {
      CopyBaseRow(s, from, to, env, id);
    }
  }

  lemma CopyTailKeys(u: Store, to: Path, env: Env)
    requires Valid(u) && InFiles(to)
    ensures ShadowChain(ChainOn(Prop(u, to, env.now, 0, env), to), to, env).rows.Keys == u.rows.Keys
  {
    hide Shaped, SizesOk, TrashIsFolder, Chain;
    var u1 := Prop(u, to, env.now, 0, env);
    PropQuiet(u, to, env.now, 0, env, to, to);
    ChainFrame(u1.rows, to);
    ChainQuiet(u1, to, to, to);
    ShadowKeeps(ChainOn(u1, to), to, env);
  }

  lemma CopyBaseKeys(s: Store, from: Path, to: Path, env: Env)
    requires Valid(s) && InFiles(from) && InFiles(to) && CopyAllowed(s.rows, from, to, true)
    ensures RemoveAt(s, to).rows.Keys <= CopyBase(s, from, to, env).rows.Keys
  {
    hide Valid, CopyAllowed, EnsureDirs, NoFileAbove;
    CopyCanEnsure(s, from, to);
    if HasPath(s.rows, from) {
      CloneInserted(s, from, to, env);
      EnsureFrame(RemoveAt(s, to), Parent(to), env);
    }
  }

  // ── MOVE ───────────────────────────────────────────────────────────────────

  /** A row after a move.  The moved rows keep everything but their place.  Both old and
      new folder are read back from disk, everything above either end is told at the
      present time, and so is everything above the target's place among the versions;
      the last of these to reach a row gives it its etag. */
  ghost predicate RowMoved(s: Store, w: Store, from: Path, to: Path, env: Env, id: int)
    requires InFiles(from) && InFiles(to) && HasPath(s.rows, Parent(to)) && id in s.rows && id in w.rows
  {
    var r, x := s.rows[id], w.rows[id];
    var q, v := r.path, VersionsOf(to);
    w.nextEtag == s.nextEtag + 3 &&
    if q == from then x == r.(path := to, name := to[|to| - 1], parent := IdAt(s.rows, Parent(to)))
    else if Above(from, q) then x == r.(path := to + q[|from|..])
    else if Above(q, from) || Above(q, to) || Above(q, v) then
      x == Folder(r, x, q == Parent(from) || q == Parent(to), env.now,
                  if Above(q, v) then s.nextEtag + 2 else if Above(q, to) then s.nextEtag + 1 else s.nextEtag, env)
    else x == r
  }

  /** MOVE is done exactly when the source and the target's folder are there, the target
      is not below the source and nothing else is at it; otherwise nothing changes. */
  lemma MoveDone(s: Store, from: Path, to: Path, env: Env)
    requires Valid(s) && InFiles(from) && InFiles(to)
    ensures Move(s, from, to, env).outcome == Done <==>
              && (exists id :: id in s.rows && s.rows[id].path == from)
              && (exists id :: id in s.rows && s.rows[id].path == Parent(to) && s.rows[id].isDir)
              && !Above(from, to)
              && (forall id :: id in s.rows && s.rows[id].path == to ==> from == to)
    ensures Move(s, from, to, env).outcome == Refused ==> Move(s, from, to, env).store == s
  {
    hide Valid, MoveTouched, MoveChains, ShadowChain, Rekey;
    DirAtIff(s, Parent(to));
    RowAtIff(s, from);
    RowAtIff(s, to);
  }

  lemma RowAtIff(s: Store, p: Path)
    ensures HasPath(s.rows, p) <==> exists id :: id in s.rows && s.rows[id].path == p
  {
    forall id | id in s.rows && s.rows[id].path == p
      ensures At(s.rows, id, p)
    {
    }
  }

  /** The rows that moved. */
  lemma RekeyTells(s: Store, from: Path, to: Path, id: int)
    requires Valid(s) && InFiles(from) && InFiles(to) && MoveAllowed(s.rows, from, to) && id in s.rows
    ensures var u := Rekey(s, from, to);
      var r := s.rows[id];
      && Valid(u) && id in u.rows && u.nextEtag == s.nextEtag
      && u.rows[id] == if r.path == from then r.(path := to, name := Last(to), parent := IdAt(s.rows, Parent(to)))
                       else if Above(from, r.path) then r.(path := to + r.path[|from|..])
                       else r
  {
    MoveRows(s, from, to);
    assert Above(from, s.rows[id].path) || s.rows[id].path == from <==> AtOrBelow(s.rows[id].path, from);
  }

  lemma MoveTouchedTells(u: Store, from: Path, to: Path, env: Env, id: int)
    requires Valid(u) && InFiles(from) && InFiles(to) && id in u.rows
    ensures var w := MoveTouched(u, from, to, env);
      var r := u.rows[id];
      var q := r.path;
      && id in w.rows && w.nextEtag == u.nextEtag + 2
      && w.rows[id] == if Above(q, from) || Above(q, to)
                       then Folder(r, w.rows[id], q == Parent(from) || q == Parent(to), env.now,
                                   if Above(q, to) then u.nextEtag + 1 else u.nextEtag, env)
                       else r
  {
    hide Shaped, SizesOk, TrashIsFolder;
    AboveParent(from);
    AboveParent(to);
    var u1 := Touch(u, Parent(from), env);
    var u2 := Touch(u1, Parent(to), env);
    var u3 := Prop(u2, from, env.now, 0, env);
    TouchTells(u, Parent(from), env, id);
    TouchTells(u1, Parent(to), env, id);
    PropTells(u2, from, env.now, 0, env, id);
    PropTells(u3, to, env.now, 0, env, id);
  }

  lemma MoveChainsTells(u: Store, from: Path, to: Path, id: int)
    requires Valid(u) && InFiles(from) && InFiles(to) && id in u.rows
    ensures var w := MoveChains(u, from, to);
      && id in w.rows && w.nextEtag == u.nextEtag && w.rows[id] == u.rows[id].(size := w.rows[id].size)
      && (!Above(u.rows[id].path, Parent(from)) && !Above(u.rows[id].path, Parent(to)) ==> w.rows[id] == u.rows[id])
  {
    hide Chain, SizesOk, TrashIsFolder;
    var p, q := Parent(from), Parent(to);
    if p != q {
      ChainFrame(u.rows, p);
      ChainTells(u, p, id);
      ChainTells(ChainOn(u, p), q, id);
    } else {
      ChainTells(u, q, id);
    }
  }

  lemma MoveRowTells(s: Store, from: Path, to: Path, env: Env, id: int)
    requires Valid(s) && InFiles(from) && InFiles(to) && Move(s, from, to, env).outcome == Done && id in s.rows
    ensures HasPath(s.rows, Parent(to)) && id in Move(s, from, to, env).store.rows
    ensures RowMoved(s, Move(s, from, to, env).store, from, to, env, id)
  {
    hide Valid, Rekey, MoveTouched, MoveChains, ShadowChain, Shaped, Quiet, SameSizes, Stamped, Folder, RowMoved;
    RekeyTells(s, from, to, id);
    var u := Rekey(s, from, to);
    MoveTouchedTells(u, from, to, env, id);
    MoveTouchedQuiet(u, from, to, env);
    var u1 := MoveTouched(u, from, to, env);
    MoveChainsTells(u1, from, to, id);
    MoveChainsQuiet(u1, from, to);
    var u2 := MoveChains(u1, from, to);
    ShadowKeeps(u2, to, env);
    assert id in ShadowChain(u2, to, env).rows by { KeepsRows(u2, ShadowChain(u2, to, env), to, id); }
    ShadowTells(u2, to, env, id);
    MovedIsOffChains(s, from, to, u.rows[id].path);
    MovedInSteps(s, u, u1, u2, Move(s, from, to, env).store, from, to, env, id);
  }

  lemma KeepsRows(u: Store, w: Store, p: Path, id: int)
    requires Quiet(u, w, ShadowPath("files_versions", p), ShadowPath("files_versions", p)) && id in u.rows
    ensures id in w.rows
  {
  }

  /** Nothing at or below the target is above what is told. */
  lemma MovedIsOffChains(s: Store, from: Path, to: Path, q: Path)
    requires Valid(s) && InFiles(from) && InFiles(to) && MoveAllowed(s.rows, from, to)
    ensures AtOrBelow(q, to) ==> !Above(q, from) && !Above(q, to) && !Above(q, VersionsOf(to))
  {
    if AtOrBelow(q, to) {
      ChainsMeetAtRoot(to, VersionsOf(to), q);
      if Above(q, from) {
        AtOrBelowTransitive(from, q, to);
        if from != to {
          PrefixIsThere(s, from, |to|);
        }
      }
    }
  }

  lemma MovedInSteps(s: Store, u: Store, u1: Store, u2: Store, w: Store, from: Path, to: Path, env: Env, id: int)
    requires InFiles(from) && InFiles(to) && HasPath(s.rows, Parent(to))
    requires id in s.rows && id in u.rows && id in u1.rows && id in u2.rows && id in w.rows
    requires u.nextEtag == s.nextEtag && u1.nextEtag == u.nextEtag + 2
    requires u2.nextEtag == u1.nextEtag && w.nextEtag == u2.nextEtag + 1
    requires var r := s.rows[id];
      u.rows[id] == if r.path == from then r.(path := to, name := Last(to), parent := IdAt(s.rows, Parent(to)))
                    else if Above(from, r.path) then r.(path := to + r.path[|from|..])
                    else r
    requires var q := u.rows[id].path;
      && (AtOrBelow(q, to) ==> !Above(q, from) && !Above(q, to) && !Above(q, VersionsOf(to)))
      && u1.rows[id] == (if Above(q, from) || Above(q, to)
                         then Folder(u.rows[id], u1.rows[id], q == Parent(from) || q == Parent(to), env.now,
                                     if Above(q, to) then u.nextEtag + 1 else u.nextEtag, env)
                         else u.rows[id])
    requires u2.rows[id] == u1.rows[id].(size := u2.rows[id].size)
    requires !Above(u1.rows[id].path, Parent(from)) && !Above(u1.rows[id].path, Parent(to)) ==> u2.rows[id] == u1.rows[id]
    requires w.rows[id] == if Above(u2.rows[id].path, VersionsOf(to))
                           then Folder(u2.rows[id], w.rows[id], false, env.now, u2.nextEtag, env)
                           else u2.rows[id]
    ensures RowMoved(s, w, from, to, env, id)
  {
    var q := u.rows[id].path;
    AboveParentOf(q, from);
    AboveParentOf(q, to);
    assert VersionsOf(to)[..1] == ["files_versions"];
  }

  lemma AboveParentOf(q: Path, p: Path)
    requires p != []
    ensures Above(q, p) <==> q == Parent(p) || Above(q, Parent(p))
  {
    AboveSplit(q, p);
  }
}
