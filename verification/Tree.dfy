/** The rows of `oc_filecache` for one storage, and what makes them a tree. */
module Tree {
  import opened Paths

  datatype Row = Row(
    path: Path,
    parent: int,
    name: string,
    isDir: bool,
    size: int,
    mtime: int,
    storageMtime: int,
    etag: nat)

  /** Rows by fileid. */
  type Table = map<int, Row>

  ghost predicate At(t: Table, id: int, p: Path) {
    id in t && t[id].path == p
  }

  ghost predicate HasPath(t: Table, p: Path) {
    exists id :: At(t, id, p)
  }

  ghost function IdAt(t: Table, p: Path): (id: int)
    requires HasPath(t, p)
    ensures At(t, id, p)
  {
    var id :| At(t, id, p);
    id
  }

  ghost predicate IsDirAt(t: Table, p: Path) {
    HasPath(t, p) && t[IdAt(t, p)].isDir
  }

  // ── Shape ──────────────────────────────────────────────────────────────────

  ghost predicate UniquePaths(t: Table) {
    forall i, j, p :: At(t, i, p) && At(t, j, p) ==> i == j
  }

  ghost predicate Linked(t: Table, id: int)
    requires id in t
  {
    var r := t[id];
    && id > 0
    && if r.path == [] then r.parent == -1 && r.isDir
       else
         && r.parent in t
         && t[r.parent].isDir
         && t[r.parent].path == Parent(r.path)
         && r.name == Last(r.path)
  }

  /** No two rows share a path, the root exists, and each row's parent id names
      the directory at the parent path. */
  ghost predicate Shaped(t: Table) {
    && UniquePaths(t)
    && HasPath(t, [])
    && forall id {:trigger Linked(t, id)} :: id in t ==> Linked(t, id)
  }

  /** Same rows at the same places; sizes, times and etags may differ. */
  ghost predicate SameShape(t: Table, u: Table) {
    && t.Keys == u.Keys
    && forall id :: id in t ==>
         && u[id].path == t[id].path && u[id].parent == t[id].parent
         && u[id].name == t[id].name && u[id].isDir == t[id].isDir
  }

  lemma SameShapeKeeps(t: Table, u: Table)
    requires Shaped(t) && SameShape(t, u)
    ensures Shaped(u)
  {
    forall id | id in u
      ensures Linked(u, id)
    {
      assert Linked(t, id);
    }
    assert At(u, IdAt(t, []), []);
    forall i, j, p | At(u, i, p) && At(u, j, p)
      ensures i == j
    {
      assert At(t, i, p) && At(t, j, p);
    }
  }

  lemma SameShapePath(t: Table, u: Table, p: Path)
    requires Shaped(t) && SameShape(t, u)
    ensures HasPath(t, p) <==> HasPath(u, p)
    ensures HasPath(t, p) ==> IdAt(u, p) == IdAt(t, p)
    ensures IsDirAt(t, p) <==> IsDirAt(u, p)
  {
    if HasPath(t, p) {
      assert At(u, IdAt(t, p), p);
    }
    if HasPath(u, p) {
      assert At(t, IdAt(u, p), p);
    }
  }

  lemma SameShapeChildren(t: Table, u: Table, pid: int)
    requires SameShape(t, u)
    ensures Children(t, pid) == Children(u, pid)
  {
    forall c
      ensures c in Children(t, pid) <==> c in Children(u, pid)
    {
    }
  }

  /** Every ancestor of a row is there and is a directory. */
  lemma {:induction false} AncestorsExist(t: Table, id: int, q: Path)
    requires Shaped(t) && id in t && Above(q, t[id].path)
    ensures IsDirAt(t, q)
    decreases |t[id].path|
  {
    var pid := t[id].parent;
    assert Linked(t, id);
    AboveSplit(q, t[id].path);
    if t[pid].path == q {
      assert At(t, pid, q);
    } else {
      AncestorsExist(t, pid, q);
    }
  }

  /** A row that is not a directory has nothing under it. */
  lemma NothingUnderFile(t: Table, id: int, j: int)
    requires Shaped(t) && id in t && j in t && Above(t[id].path, t[j].path)
    ensures t[id].isDir
  {
    AncestorsExist(t, j, t[id].path);
    assert At(t, id, t[id].path);
  }

  // ── Children and sums ──────────────────────────────────────────────────────

  ghost function Children(t: Table, pid: int): set<int> {
    set c | c in t && t[c].parent == pid
  }

  /** Following parent ids is the same as following parent paths. */
  lemma ChildByPath(t: Table, pid: int, c: int)
    requires Shaped(t) && pid in t && c in t
    ensures c in Children(t, pid) <==> t[c].path != [] && Parent(t[c].path) == t[pid].path
  {
    assert Linked(t, c) && Linked(t, pid);
    assert At(t, pid, t[pid].path);
    if t[c].path != [] {
      assert At(t, t[c].parent, Parent(t[c].path));
    }
  }

  ghost function Pick<T>(s: set<T>): (x: T)
    requires s != {}
    ensures x in s
  {
    var x :| x in s;
    x
  }

  ghost function SumSizes(t: Table, s: set<int>): int
    requires s <= t.Keys
  {
    if s == {} then 0
    else
      var x := Pick(s);
      t[x].size + SumSizes(t, s - {x})
  }

  lemma {:induction false} SumRemove(t: Table, s: set<int>, x: int)
    requires s <= t.Keys && x in s
    ensures SumSizes(t, s) == t[x].size + SumSizes(t, s - {x})
    decreases s
  {
    var y := Pick(s);
    if y != x {
      SumRemove(t, s - {y}, x);
      SumRemove(t, s - {x}, y);
      assert s - {y} - {x} == s - {x} - {y};
    }
  }

  lemma {:induction false} SumSame(t: Table, u: Table, s: set<int>)
    requires s <= t.Keys && s <= u.Keys
    requires forall x :: x in s ==> t[x].size == u[x].size
    ensures SumSizes(t, s) == SumSizes(u, s)
    decreases s
  {
    if s != {} {
      var x := Pick(s);
      SumRemove(t, s, x);
      SumRemove(u, s, x);
      SumSame(t, u, s - {x});
    }
  }

  /** Exactly one summand changes. */
  lemma SumChangesBy(t: Table, u: Table, s: set<int>, x: int)
    requires s <= t.Keys && s <= u.Keys && x in s
    requires forall y :: y in s && y != x ==> t[y].size == u[y].size
    ensures SumSizes(u, s) == SumSizes(t, s) + (u[x].size - t[x].size)
  {
    SumRemove(t, s, x);
    SumRemove(u, s, x);
    SumSame(t, u, s - {x});
  }

  lemma {:induction false} SumAtLeast(t: Table, s: set<int>, x: int)
    requires s <= t.Keys && x in s
    requires forall y :: y in s ==> t[y].size >= 0
    ensures SumSizes(t, s) >= t[x].size
    ensures SumSizes(t, s) >= 0
  {
    SumRemove(t, s, x);
    SumNonNegative(t, s - {x});
  }

  lemma {:induction false} SumNonNegative(t: Table, s: set<int>)
    requires s <= t.Keys
    requires forall y :: y in s ==> t[y].size >= 0
    ensures SumSizes(t, s) >= 0
    decreases s
  {
    if s != {} {
      var x := Pick(s);
      SumRemove(t, s, x);
      SumNonNegative(t, s - {x});
    }
  }

  // ── Exact sizes ────────────────────────────────────────────────────────────

  /** Sizes are byte counts, or -1 for "not scanned". */
  ghost predicate SizesOk(t: Table) {
    forall id :: id in t ==> t[id].size >= -1
  }

  ghost function ChildSum(t: Table, pid: int): int {
    SumSizes(t, Children(t, pid))
  }

  ghost predicate HasUnscanned(t: Table, pid: int) {
    exists c :: c in Children(t, pid) && t[c].size == -1
  }

  /** The size a folder should record: -1 when any child is unscanned, else the
      sum of its children. */
  ghost function Expected(t: Table, pid: int): int {
    if HasUnscanned(t, pid) then -1 else ChildSum(t, pid)
  }

  ghost predicate ExactAt(t: Table, id: int)
    requires id in t
  {
    t[id].size == Expected(t, id)
  }

  ghost predicate Exact(t: Table) {
    forall id :: id in t && t[id].isDir ==> ExactAt(t, id)
  }

  lemma ExpectedAtLeast(t: Table, pid: int)
    requires SizesOk(t)
    ensures Expected(t, pid) >= -1
  {
    if !HasUnscanned(t, pid) {
      SumNonNegative(t, Children(t, pid));
    }
  }

  /** An exact folder is unscanned exactly when some child is. */
  lemma ExactUnscanned(t: Table, id: int)
    requires SizesOk(t) && id in t && ExactAt(t, id)
    ensures t[id].size == -1 <==> HasUnscanned(t, id)
  {
    if !HasUnscanned(t, id) {
      SumNonNegative(t, Children(t, id));
    }
  }

  /** A folder's expectation depends only on which children it has and on their sizes. */
  lemma ExpectedSame(t: Table, u: Table, pid: int)
    requires Children(t, pid) == Children(u, pid)
    requires forall c :: c in Children(t, pid) ==> t[c].size == u[c].size
    ensures Expected(t, pid) == Expected(u, pid)
    ensures HasUnscanned(t, pid) == HasUnscanned(u, pid)
    ensures ChildSum(t, pid) == ChildSum(u, pid)
  {
    SumSame(t, u, Children(t, pid));
    if HasUnscanned(t, pid) {
      var c :| c in Children(t, pid) && t[c].size == -1;
      assert c in Children(u, pid) && u[c].size == -1;
    }
  }
}
