/** What the requests of `FileCaches` need between their statements.
    Each method of the class runs one request step by step and claims the effect of
    its specification.  The lemmas here carry the state from one statement to the
    next: the store is valid before each statement that needs it, rows found before
    ancestor creation or versioning are still the same rows after it, walking the
    segments of a path makes the same directories as recursion over it, and updating
    the moved row before its subtree equals moving all rows at once. */
module FileCacheProofs {
  import opened Paths
  import opened Tree
  import opened Stores
  import opened Statements
  import opened RowEdits
  import opened Operations
  import opened OperationProofs
  import opened RequestProofs
  import opened MoveProofs
  import opened TrashProofs
  import Decimal

  /** Ancestor creation one segment at a time. */
  lemma EnsureStep(s: Store, p: Path, env: Env)
    requires Valid(s) && p != [] && (HasPath(s.rows, p) || NoFileAbove(s.rows, p))
    ensures var s1 := EnsureDirs(s, Parent(p), env);
      && Valid(s1) && HasPath(s1.rows, Parent(p))
      && (HasPath(s1.rows, p) <==> HasPath(s.rows, p))
      && EnsureDirs(s, p, env) == if HasPath(s1.rows, p) then s1 else MkdirAt(s1, p, env)
  {
    var q := Parent(p);
    AboveParent(p);
    if HasPath(s.rows, p) {
      ParentExists(s, p);
    } else {
      NoFileAboveParent(s.rows, p);
    }
    EnsureKeeps(s, q, env);
    ExtendsPaths(s, EnsureDirs(s, q, env), q, p);
  }

  lemma NoFileAboveParent(t: Table, p: Path)
    requires p != [] && NoFileAbove(t, p)
    ensures NoFileAbove(t, Parent(p))
  {
    forall id | id in t && Above(t[id].path, Parent(p))
      ensures t[id].isDir
    {
      AboveSplit(t[id].path, p);
    }
  }

  lemma FilesInRoot(s: Store, files: int)
    requires Valid(s) && At(s.rows, files, ["files"])
    ensures At(s.rows, s.rows[files].parent, [])
  {
    assert Linked(s.rows, files);
  }

  lemma FoundSegment(s: Store, s1: Store, above: Path, built: Path, env: Env)
    requires Valid(s) && Valid(s1) && built != [] && above == Parent(built)
    requires NoFileAbove(s.rows, above) && s1 == EnsureDirs(s, above, env) && HasPath(s1.rows, built)
    ensures NoFileAbove(s.rows, built) && s1 == EnsureDirs(s, built, env)
    ensures HasPath(s.rows, built)
    ensures |built| > 1 || HasPath(s.rows, built[..1])
  {
    AboveParent(built);
    EnsureKeeps(s, above, env);
    ExtendsPaths(s, s1, above, built);
    forall id | id in s.rows && Above(s.rows[id].path, built)
      ensures s.rows[id].isDir
    {
      AncestorsExist(s.rows, IdAt(s.rows, built), s.rows[id].path);
      assert At(s.rows, id, s.rows[id].path);
    }
    EnsureStep(s, built, env);
    assert |built| == 1 ==> built[..1] == built;
  }

  lemma FileInTheWay(s: Store, s1: Store, above: Path, p: Path, last: int, env: Env)
    requires Valid(s) && Valid(s1) && Above(above, p) && !HasPath(s.rows, p)
    requires NoFileAbove(s.rows, above) && s1 == EnsureDirs(s, above, env)
    requires At(s1.rows, last, above) && !s1.rows[last].isDir
    ensures s1 == s && !CanEnsure(s.rows, p)
  {
    EnsureKeeps(s, above, env);
    assert At(s1.rows, IdAt(s1.rows, above), above);
    assert HasPath(s.rows, above);
    assert At(s.rows, IdAt(s.rows, above), above);
  }

  lemma MissingSegment(s: Store, s1: Store, above: Path, built: Path, last: int, env: Env)
    requires Valid(s) && Valid(s1) && built != [] && above == Parent(built) && !HasPath(s1.rows, built)
    requires NoFileAbove(s.rows, above) && s1 == EnsureDirs(s, above, env)
    requires At(s1.rows, last, above) && s1.rows[last].isDir
    ensures NoFileAbove(s.rows, built)
    ensures var s2 := MkdirAt(s1, built, env);
      s2 == EnsureDirs(s, built, env) && Valid(s2) && At(s2.rows, s1.nextId, built) && s2.nextId == s1.nextId + 1
  {
    hide Evolves, Exact, MkdirAt;
    EnsureKeeps(s, above, env);
    forall id | id in s.rows && Above(s.rows[id].path, built)
      ensures s.rows[id].isDir
    {
      AboveSplit(s.rows[id].path, built);
      if s.rows[id].path == above {
        assert At(s1.rows, id, above);
      }
    }
    EnsureStep(s, built, env);
    assert At(s1.rows, IdAt(s1.rows, above), above);
    MkdirPlaces(s1, built, env);
  }

  lemma MkdirPlaces(s: Store, p: Path, env: Env)
    requires Valid(s) && p != [] && !HasPath(s.rows, p) && IsDirAt(s.rows, Parent(p))
    ensures var u := MkdirAt(s, p, env);
      Valid(u) && At(u.rows, s.nextId, p) && u.nextId == s.nextId + 1
  {
    hide Evolves, Exact, Extends;
    MkdirKeeps(s, p, env);
  }

  ghost predicate FileAt(t: Table, p: Path) {
    HasPath(t, p) && !IsDirAt(t, p)
  }

  lemma FilesAmongParents(s: Store, v: Path, parents: seq<Path>)
    requires Valid(s) && |parents| == |v| && forall i :: 0 <= i < |v| ==> parents[i] == v[..i]
    ensures (exists j :: 0 <= j < |parents| && FileAt(s.rows, parents[j])) <==> !NoFileAbove(s.rows, v)
  {
    if !NoFileAbove(s.rows, v) {
      var id :| id in s.rows && Above(s.rows[id].path, v) && !s.rows[id].isDir;
      var q := s.rows[id].path;
      assert At(s.rows, id, q) && parents[|q|] == q;
      assert FileAt(s.rows, parents[|q|]);
    }
    if exists j :: 0 <= j < |parents| && FileAt(s.rows, parents[j]) {
      var j :| 0 <= j < |parents| && FileAt(s.rows, parents[j]);
      var id := IdAt(s.rows, parents[j]);
      assert Above(s.rows[id].path, v) && !s.rows[id].isDir;
    }
  }

  lemma VersionParent(s: Store, v: Path, env: Env)
    requires Valid(s) && v != [] && CanEnsure(s.rows, Parent(v)) && NoFileAbove(s.rows, v)
    ensures var s1 := EnsureDirs(s, Parent(v), env);
      Valid(s1) && IsDirAt(s1.rows, Parent(v))
  {
    AboveParent(v);
    EnsureKeeps(s, Parent(v), env);
    ExtendsPaths(s, EnsureDirs(s, Parent(v), env), Parent(v), Parent(v));
  }

  /** Before the last chain the store is valid, so the chain may run. */
  lemma VersionValid(s: Store, p: Path, r: Row, env: Env)
    requires Valid(s) && InFiles(p) && r.size >= -1 && r.etag < s.nextEtag
    ensures var v := VersionPath(p, r.mtime);
      CanEnsure(s.rows, Parent(v)) && NoFileAbove(s.rows, v) ==>
        var s1 := EnsureDirs(s, Parent(v), env);
        var s2 := if HasPath(s1.rows, v) then s1
                  else Insert(s1, NewRow(s1, v, false, r.size, r.mtime, env.now, r.etag));
        Valid(Prop(Touch(s2, Parent(v), env), v, env.now, 0, env))
  {
    var v := VersionPath(p, r.mtime);
    if CanEnsure(s.rows, Parent(v)) && NoFileAbove(s.rows, v) {
      VersionParent(s, v, env);
      AboveParent(v);
      EnsureKeeps(s, Parent(v), env);
      var s1 := EnsureDirs(s, Parent(v), env);
      var n := NewRow(s1, v, false, r.size, r.mtime, env.now, r.etag);
      var s2 := if HasPath(s1.rows, v) then s1 else Insert(s1, n);
      assert v[0] == "files_versions" != TRASH[0];
      if !HasPath(s1.rows, v) {
        AddKeepsShape(s1, s2, n);
      }
      TouchQuiet(s2, Parent(v), env, v, v);
      PropQuiet(Touch(s2, Parent(v), env), v, env.now, 0, env, v, v);
    }
  }

  lemma UniqueId(s: Store, id: int, p: Path)
    requires Valid(s) && At(s.rows, id, p)
    ensures HasPath(s.rows, p) && IdAt(s.rows, p) == id
  {
    assert At(s.rows, IdAt(s.rows, p), p);
  }

  /** After ancestor creation the store is valid and the target row is as before. */
  lemma PutOpened(s: Store, p: Path, env: Env)
    requires Valid(s) && p != [] && CanEnsure(s.rows, Parent(p))
    ensures var s1 := EnsureDirs(s, Parent(p), env);
      && Valid(s1) && HasPath(s1.rows, Parent(p))
      && (HasPath(s1.rows, p) <==> HasPath(s.rows, p))
      && (HasPath(s.rows, p) ==> s1 == s)
  {
    AboveParent(p);
    EnsureKeeps(s, Parent(p), env);
    ExtendsPaths(s, EnsureDirs(s, Parent(p), env), Parent(p), p);
    if HasPath(s.rows, p) {
      ParentExists(s, p);
    }
  }

  lemma PutVersioned(s: Store, p: Path, env: Env)
    requires Valid(s) && InFiles(p) && HasPath(s.rows, p)
    ensures var id := IdAt(s.rows, p);
      var s2 := Operations.StoreVersion(s, p, s.rows[id], env);
      && Valid(s2) && At(s2.rows, id, p) && HasPath(s2.rows, p) && IdAt(s2.rows, p) == id && s2.rows[id] == s.rows[id]
  {
    var id := IdAt(s.rows, p);
    StoreVersionKeeps(s, p, s.rows[id], env);
    VersionSiblings(s, Operations.StoreVersion(s, p, s.rows[id], env), p, VersionPath(p, s.rows[id].mtime), id);
  }

  lemma NewFileValid(s: Store, u: Store, p: Path, up: Upload)
    requires Valid(s) && InFiles(p) && !HasPath(s.rows, p) && IsDirAt(s.rows, Parent(p))
    requires u == InsertFresh(s, NewRow(s, p, false, up.size, up.mtime, up.mtime, 0))
    ensures Valid(u)
  {
    InsertFreshAdds(s, p, false, up.size, up.mtime, up.mtime);
    AddKeepsShape(s, u, NewRow(s, p, false, up.size, up.mtime, up.mtime, s.nextEtag));
  }

  lemma CopyRemoved(s: Store, to: Path)
    requires Valid(s) && to != [] && !IsDirAt(s.rows, to)
    ensures Valid(RemoveAt(s, to))
  {
    RemoveFileRemoves(s, to);
    RemoveKeepsShape(s, RemoveAt(s, to), to);
  }

  lemma CopySourceStays(s: Store, from: Path, to: Path, env: Env)
    requires Valid(s) && to != [] && HasPath(s.rows, from) && CanEnsure(s.rows, Parent(to))
    ensures HasPath(EnsureDirs(s, Parent(to), env).rows, from)
    ensures IdAt(EnsureDirs(s, Parent(to), env).rows, from) == IdAt(s.rows, from)
  {
    EnsureKeeps(s, Parent(to), env);
    ExtendsPaths(s, EnsureDirs(s, Parent(to), env), Parent(to), from);
  }

  /** Before the target chain is recomputed the store is valid. */
  lemma CopyValid(s: Store, from: Path, to: Path, env: Env)
    requires Valid(s) && InFiles(from) && InFiles(to) && CopyAllowed(s.rows, from, to, true)
    ensures var s1 := RemoveAt(s, to);
      (HasPath(s1.rows, from) ==> CanEnsure(s1.rows, Parent(to))) ==>
        var s2 := if HasPath(s1.rows, from) then CopyRow(EnsureDirs(s1, Parent(to), env), from, to, env) else s1;
        && Valid(Prop(s2, to, env.now, 0, env))
        && Valid(ChainOn(Prop(s2, to, env.now, 0, env), to))
  {
    var s1 := RemoveAt(s, to);
    CopyRemoved(s, to);
    if HasPath(s1.rows, from) ==> CanEnsure(s1.rows, Parent(to)) {
      CopyRows(s, from, to, env);
      var s2 := s1;
      if HasPath(s1.rows, from) {
        CopiedValid(s, from, to, env);
        s2 := CopyRow(EnsureDirs(s1, Parent(to), env), from, to, env);
      }
      PropQuiet(s2, to, env.now, 0, env, to, to);
    }
  }

  lemma CopiedValid(s: Store, from: Path, to: Path, env: Env)
    requires Valid(s) && InFiles(from) && InFiles(to) && CopyAllowed(s.rows, from, to, true)
    requires HasPath(RemoveAt(s, to).rows, from) && CanEnsure(RemoveAt(s, to).rows, Parent(to))
    ensures Valid(CopyRow(EnsureDirs(RemoveAt(s, to), Parent(to), env), from, to, env))
  {
    var s1 := RemoveAt(s, to);
    RemoveFileRemoves(s, to);
    RemoveKeepsShape(s, s1, to);
    AboveParent(to);
    EnsureKeeps(s1, Parent(to), env);
    var e := EnsureDirs(s1, Parent(to), env);
    ExtendsPaths(s1, e, Parent(to), to);
    ExtendsPaths(s1, e, Parent(to), from);
    ExtendsPaths(s1, e, Parent(to), Parent(to));
    var r := e.rows[IdAt(e.rows, from)];
    var n := NewRow(e, to, false, r.size, r.mtime, env.now, r.etag);
    AddKeepsShape(e, Insert(e, n), n);
  }

  lemma RekeyInSteps(s: Store, t: Table, id: int, from: Path, to: Path)
    requires Valid(s) && from != [] && to != [] && !Above(from, to) && At(s.rows, id, from)
    requires var u := s.rows[id := s.rows[id].(path := to, name := Last(to), parent := ParentId(s, to))];
      t == if s.rows[id].isDir
           then map j | j in u :: u[j].(path := if Above(from, u[j].path) then Rebase(u[j].path, from, to) else u[j].path)
           else u
    ensures t == Rekey(s, from, to).rows
  {
    var w := Rekey(s, from, to).rows;
    forall j | j in s.rows
      ensures t[j] == w[j]
    {
      var q := s.rows[j].path;
      assert j == id <==> q == from by {
        if q == from {
          assert At(s.rows, j, from);
        }
      }
      if Above(from, q) {
        NothingUnderFile(s.rows, id, j);
      }
    }
  }

  lemma MoveValid(s: Store, from: Path, to: Path, env: Env)
    requires Valid(s) && InFiles(from) && InFiles(to) && MoveAllowed(s.rows, from, to)
    ensures var u := Rekey(s, from, to);
      var u1 := MoveTouched(u, from, to, env);
      && Valid(u1) && Valid(ChainOn(u1, Parent(from))) && Valid(MoveChains(u1, from, to))
  {
    MoveRows(s, from, to);
    var u := Rekey(s, from, to);
    MoveTouchedQuiet(u, from, to, env);
    var u1 := MoveTouched(u, from, to, env);
    AboveParent(from);
    ChainQuiet(u1, Parent(from), from, to);
    MoveChainsQuiet(u1, from, to);
  }

  lemma DeletedRows(s: Store, t: Table, id: int, p: Path)
    requires Valid(s) && At(s.rows, id, p)
    requires t == if s.rows[id].isDir
                  then map j | j in s.rows && s.rows[j].path != p && !Above(p, s.rows[j].path) :: s.rows[j]
                  else s.rows - {id}
    ensures t == RemoveTree(s, p).rows
  {
    forall j | j in s.rows
      ensures AtOrBelow(s.rows[j].path, p) <==> s.rows[j].path == p || Above(p, s.rows[j].path)
      ensures s.rows[j].path == p <==> j == id
      ensures Above(p, s.rows[j].path) ==> s.rows[id].isDir
    {
      if s.rows[j].path == p {
        assert At(s.rows, j, p);
      }
      if Above(p, s.rows[j].path) {
        NothingUnderFile(s.rows, id, j);
      }
    }
    assert t == RemoveTree(s, p).rows;
  }

  ghost predicate Taken(t: Table, onDisk: set<Path>, base: string, stamp: nat) {
    HasPath(t, TrashPath(base, stamp)) || TrashPath(base, stamp) in onDisk
  }

  lemma TakenIs(t: Table, onDisk: set<Path>, base: string, stamp: nat)
    ensures var q := ["files_trashbin", "files", base + ".d" + Decimal.Text(stamp)];
      Taken(t, onDisk, base, stamp) <==> q in onDisk || exists id :: id in t && t[id].path == q
  {
    var q := ["files_trashbin", "files", base + ".d" + Decimal.Text(stamp)];
    assert TrashPath(base, stamp) == q;
    forall id | id in t && t[id].path == q
      ensures At(t, id, q)
    {
    }
  }

  lemma TrashPathInjective(base: string, m: nat, n: nat)
    requires m != n
    ensures TrashPath(base, m) != TrashPath(base, n)
  {
    if TrashPath(base, m) == TrashPath(base, n) {
      assert Last(TrashPath(base, m)) == TrashNames.TrashName(base, m);
      assert Last(TrashPath(base, n)) == TrashNames.TrashName(base, n);
      TrashNames.TrashNameInjective(base, m, n);
    }
  }

  lemma TrashReadyToMove(s: Store, p: Path, stamp: nat, env: Env)
    requires Valid(s) && InFiles(p) && TrashAllowed(s.rows, p, TrashPath(Last(p), stamp))
    ensures var t := CacheRow(TrashSkeleton(s, env), stamp);
      var to := TrashPath(Last(p), stamp);
      && Valid(t) && HasPath(t.rows, p) && IdAt(t.rows, p) == IdAt(s.rows, p)
      && !HasPath(t.rows, to) && IsDirAt(t.rows, TRASH)
      && Parent(to) == TRASH && !Above(p, to)
  {
    TrashPrepared(s, p, stamp, env);
    assert p[0] != TRASH[0];
  }

  /** After the row update only the moved row has the trash path. */
  lemma TrashedRow(t: Store, rows: Table, id: int, p: Path, to: Path, env: Env)
    requires Valid(t) && InFiles(p) && TrashEntry(to) && At(t.rows, id, p)
    requires !HasPath(t.rows, to) && IsDirAt(t.rows, TRASH)
    requires var u := Rekey(t, p, to).rows;
      rows == map j | j in u :: if j == id then u[j].(storageMtime := env.diskMtime(to)) else u[j]
    ensures rows == RekeyToTrash(t, p, to, env).rows
  {
    var u := Rekey(t, p, to);
    assert At(t.rows, IdAt(t.rows, p), p);
    assert !Above(p, to) by { assert p[0] != to[0]; }
    assert Moves(t, u, p, to);
    MoveKeepsShape(t, u, p, to);
    forall j | j in t.rows
      ensures u.rows[j].path == to <==> j == id
    {
      if u.rows[j].path == to {
        assert At(u.rows, j, to) && At(u.rows, id, to);
      }
    }
    assert rows == RekeyToTrash(t, p, to, env).rows;
  }

  lemma InParents(q: Path, p: Path, parents: seq<Path>)
    requires |parents| == |p| && forall i :: 0 <= i < |p| ==> parents[i] == p[..i]
    ensures q in parents <==> Above(q, p)
  {
    if Above(q, p) {
      assert parents[|q|] == q;
    }
  }
}
