/** Adding, rewriting, removing and moving rows.
    Each kind of edit is a predicate between the stores before and after it.  For
    each the lemmas say that the tree keeps its shape, that every folder but the
    direct parent stays exact, and that the parent is off by exactly the bytes that
    came or went, so that a signed delta is due on the chain above.  The one
    exception is the last unscanned entry of a folder: taking it away or giving it a
    size makes the folder scanned, which no delta can say. */
module RowEdits {
  import opened Paths
  import opened Tree
  import opened Propagation
  import opened Stores
  import opened Statements

  // ── Adding a row ───────────────────────────────────────────────────────────

  ghost predicate Adds(s: Store, u: Store, r: Row) {
    && u.rows == s.rows[s.nextId := r] && u.nextId == s.nextId + 1 && u.nextEtag >= s.nextEtag
    && r.path != [] && !HasPath(s.rows, r.path)
    && IsDirAt(s.rows, Parent(r.path)) && r.parent == IdAt(s.rows, Parent(r.path)) && r.name == Last(r.path)
    && r.size >= -1 && r.etag < u.nextEtag
    && (if r.isDir then r.size == 0 else r.path != TRASH)
  }

  lemma AddKeepsShape(s: Store, u: Store, r: Row)
    requires Valid(s) && Adds(s, u, r)
    ensures Valid(u)
    ensures At(u.rows, s.nextId, r.path)
    ensures forall q :: HasPath(s.rows, q) ==> HasPath(u.rows, q) && IdAt(u.rows, q) == IdAt(s.rows, q)
  {
    forall id | id in u.rows
      ensures Linked(u.rows, id)
    {
      if id != s.nextId {
        assert Linked(s.rows, id);
      }
    }
    forall q | HasPath(s.rows, q)
      ensures At(u.rows, IdAt(s.rows, q), q)
    {
    }
    forall i, j, q | At(u.rows, i, q) && At(u.rows, j, q)
      ensures i == j
    {
      if i != s.nextId {
        assert At(s.rows, i, q);
      }
      if j != s.nextId {
        assert At(s.rows, j, q);
      }
    }
  }

  lemma AddIsEdit(s: Store, u: Store, r: Row)
    requires Valid(s) && Adds(s, u, r)
    ensures EditBody(s, u, r.path, r.path)
  {
  }

  lemma AddChildren(s: Store, u: Store, r: Row, pid: int)
    requires Valid(s) && Adds(s, u, r)
    ensures Children(u.rows, pid) == Children(s.rows, pid) + if pid == r.parent then {s.nextId} else {}
  {
  }

  lemma AddExactOff(s: Store, u: Store, r: Row)
    requires Valid(s) && Adds(s, u, r) && Exact(s.rows)
    ensures ExactOff(u.rows, r.path)
  {
    forall id | id in u.rows && u.rows[id].isDir && !Above(u.rows[id].path, r.path)
      ensures ExactAt(u.rows, id)
    {
      AddChildren(s, u, r, id);
      if id == s.nextId {
        forall c | c in s.rows
          ensures c !in Children(s.rows, id)
        {
          assert Linked(s.rows, c);
        }
        assert Children(u.rows, id) == {};
      } else {
        AboveParent(r.path);
        assert ExactAt(s.rows, id);
        ExpectedSame(s.rows, u.rows, id);
      }
    }
  }

  /** A row added where a delta was already due adds its size to what is due. */
  lemma AddToReady(s: Store, u: Store, r: Row, delta: int)
    requires Valid(s) && Adds(s, u, r) && r.size >= 0
    requires DeltaReady(s.rows, r.path, delta)
    ensures DeltaReady(u.rows, r.path, delta + r.size)
  {
    AddKeepsShape(s, u, r);
    var t, a, n := s.rows, r.parent, s.nextId;
    AddChildren(s, u, r, a);
    GainChild(t, u.rows, a, n);
    forall id | id in u.rows && Above(u.rows[id].path, Parent(r.path))
      ensures ExactAt(u.rows, id)
    {
      assert id != n;
      AncestorsExist(t, a, t[id].path);
      assert At(t, id, t[id].path);
      assert ExactAt(t, id);
      AddChildren(s, u, r, id);
      ExpectedSame(t, u.rows, id);
    }
  }

  lemma ExactIsReady(s: Store, p: Path)
    requires Valid(s) && Exact(s.rows) && p != [] && IsDirAt(s.rows, Parent(p))
    ensures DeltaReady(s.rows, p, 0)
  {
    var a := IdAt(s.rows, Parent(p));
    assert ExactAt(s.rows, a);
    ExactUnscanned(s.rows, a);
    forall id | id in s.rows && Above(s.rows[id].path, Parent(p))
      ensures ExactAt(s.rows, id)
    {
      AncestorsExist(s.rows, a, s.rows[id].path);
      assert At(s.rows, id, s.rows[id].path);
    }
  }

  lemma AddReady(s: Store, u: Store, r: Row)
    requires Valid(s) && Adds(s, u, r) && Exact(s.rows) && r.size >= 0
    ensures DeltaReady(u.rows, r.path, r.size)
  {
    ExactIsReady(s, r.path);
    AddToReady(s, u, r, 0);
  }

  /** A new empty directory does not disturb any size. */
  lemma ReadyZeroExact(t: Table, p: Path)
    requires DeltaReady(t, p, 0) && ExactOff(t, p)
    ensures Exact(t)
  {
    forall id | id in t && t[id].isDir
      ensures ExactAt(t, id)
    {
      AboveSplit(t[id].path, p);
      if t[id].path == Parent(p) {
        assert At(t, id, Parent(p));
      }
    }
  }

  // ── Rewriting a file row ───────────────────────────────────────────────────

  ghost predicate Rewrites(s: Store, u: Store, id: int) {
    && id in s.rows && !s.rows[id].isDir
    && u.rows.Keys == s.rows.Keys && u.nextId == s.nextId && u.nextEtag >= s.nextEtag
    && (forall j :: j in s.rows && j != id ==> u.rows[j] == s.rows[j])
    && (var r := u.rows[id];
        && r.path == s.rows[id].path && r.parent == s.rows[id].parent && r.name == s.rows[id].name
        && !r.isDir && r.size >= -1 && r.etag < u.nextEtag)
  }

  lemma RewriteKeepsShape(s: Store, u: Store, id: int)
    requires Valid(s) && Rewrites(s, u, id)
    ensures Valid(u) && SameShape(s.rows, u.rows)
    ensures s.rows[id].path != []
    ensures EditBody(s, u, s.rows[id].path, s.rows[id].path)
  {
    assert Linked(s.rows, id);
    SameShapeKeeps(s.rows, u.rows);
  }

  lemma RewriteExactOff(s: Store, u: Store, id: int)
    requires Valid(s) && Rewrites(s, u, id) && Exact(s.rows)
    ensures ExactOff(u.rows, s.rows[id].path)
  {
    var p := s.rows[id].path;
    forall j | j in u.rows && u.rows[j].isDir && !Above(u.rows[j].path, p)
      ensures ExactAt(u.rows, j)
    {
      assert ExactAt(s.rows, j);
      SameShapeChildren(s.rows, u.rows, j);
      ChildByPath(s.rows, j, id);
      if p != [] {
        AboveParent(p);
      }
      ExpectedSame(s.rows, u.rows, j);
    }
  }

  lemma RewriteReady(s: Store, u: Store, id: int)
    requires Valid(s) && Rewrites(s, u, id) && Exact(s.rows)
    requires s.rows[id].size >= 0 && u.rows[id].size >= 0
    ensures DeltaReady(u.rows, s.rows[id].path, u.rows[id].size - s.rows[id].size)
  {
    RewriteKeepsShape(s, u, id);
    var t, p, a := s.rows, s.rows[id].path, s.rows[id].parent;
    assert Linked(t, id);
    assert At(t, a, Parent(p)) && At(u.rows, a, Parent(p));
    assert ExactAt(t, a);
    SameShapeChildren(t, u.rows, a);
    SumChangesBy(t, u.rows, Children(t, a), id);
    ExactUnscanned(t, a);
    if HasUnscanned(t, a) {
      var c :| c in Children(t, a) && t[c].size == -1;
      assert c in Children(u.rows, a) && u.rows[c].size == -1;
    } else {
      assert !HasUnscanned(u.rows, a);
    }
    forall j | j in u.rows && Above(u.rows[j].path, Parent(p))
      ensures ExactAt(u.rows, j)
    {
      AncestorsExist(t, a, t[j].path);
      assert At(t, j, t[j].path);
      assert ExactAt(t, j);
      SameShapeChildren(t, u.rows, j);
      ChildByPath(t, j, id);
      ExpectedSame(t, u.rows, j);
    }
  }

  // ── Removing a subtree ─────────────────────────────────────────────────────

  ghost predicate Removes(s: Store, u: Store, p: Path) {
    && p != []
    && u.nextId == s.nextId && u.nextEtag == s.nextEtag
    && (forall id :: id in u.rows ==> id in s.rows && u.rows[id] == s.rows[id])
    && (forall id :: id in s.rows ==> (id in u.rows <==> !AtOrBelow(s.rows[id].path, p)))
  }

  lemma RemoveKeepsShape(s: Store, u: Store, p: Path)
    requires Valid(s) && Removes(s, u, p)
    ensures Valid(u) && EditBody(s, u, p, p)
    ensures !HasPath(u.rows, p)
    ensures forall q :: HasPath(s.rows, q) && !AtOrBelow(q, p) ==> HasPath(u.rows, q) && IdAt(u.rows, q) == IdAt(s.rows, q)
  {
    assert !AtOrBelow([], p);
    RemoveKeepsPaths(s, u, p);
    forall id | id in u.rows
      ensures Linked(u.rows, id)
    {
      assert Linked(s.rows, id);
    }
  }

  lemma RemoveKeepsPaths(s: Store, u: Store, p: Path)
    requires Valid(s) && Removes(s, u, p)
    ensures UniquePaths(u.rows) && !HasPath(u.rows, p)
    ensures forall q :: HasPath(s.rows, q) && !AtOrBelow(q, p) ==> HasPath(u.rows, q) && IdAt(u.rows, q) == IdAt(s.rows, q)
  {
    hide Linked;
    forall i, j, q | At(u.rows, i, q) && At(u.rows, j, q)
      ensures i == j
    {
      assert At(s.rows, i, q) && At(s.rows, j, q);
    }
    forall q | HasPath(s.rows, q) && !AtOrBelow(q, p)
      ensures At(u.rows, IdAt(s.rows, q), q)
    {
    }
  }

  lemma RemoveChildren(s: Store, u: Store, p: Path, pid: int)
    requires Valid(s) && Removes(s, u, p) && pid in u.rows
    ensures forall c :: c in Children(s.rows, pid) ==> (c in Children(u.rows, pid) <==> s.rows[c].path != p)
    ensures Children(u.rows, pid) <= Children(s.rows, pid)
  {
    forall c | c in Children(s.rows, pid)
      ensures c in u.rows <==> s.rows[c].path != p
    {
      ChildByPath(s.rows, pid, c);
    }
    forall c | c in Children(u.rows, pid)
      ensures c in Children(s.rows, pid)
    {
      assert u.rows[c] == s.rows[c];
    }
  }

  lemma RemoveExactOff(s: Store, u: Store, p: Path)
    requires Valid(s) && Removes(s, u, p) && Exact(s.rows)
    ensures ExactOff(u.rows, p)
    ensures forall id :: id in u.rows && u.rows[id].isDir && u.rows[id].path != Parent(p) ==> ExactAt(u.rows, id)
  {
    forall id | id in u.rows && u.rows[id].isDir && u.rows[id].path != Parent(p)
      ensures ExactAt(u.rows, id)
    {
      assert ExactAt(s.rows, id);
      RemoveChildren(s, u, p, id);
      forall c | c in Children(s.rows, id)
        ensures c in Children(u.rows, id)
      {
        ChildByPath(s.rows, id, c);
      }
      assert Children(s.rows, id) == Children(u.rows, id);
      ExpectedSame(s.rows, u.rows, id);
    }
    AboveParent(p);
  }

  lemma RemoveReady(s: Store, u: Store, p: Path)
    requires Valid(s) && Removes(s, u, p) && Exact(s.rows) && HasPath(s.rows, p)
    requires s.rows[IdAt(s.rows, p)].size >= 0
    ensures DeltaReady(u.rows, p, -s.rows[IdAt(s.rows, p)].size)
  {
    RemoveKeepsShape(s, u, p);
    RemoveExactOff(s, u, p);
    var t, id := s.rows, IdAt(s.rows, p);
    var a := t[id].parent;
    assert Linked(t, id);
    assert At(t, a, Parent(p)) && At(u.rows, a, Parent(p));
    assert ExactAt(t, a);
    RemoveChildren(s, u, p, a);
    forall c | c in Children(t, a)
      ensures c in Children(u.rows, a) <==> c != id
    {
      assert At(t, c, t[c].path);
    }
    assert Children(u.rows, a) == Children(t, a) - {id};
    SumRemove(t, Children(t, a), id);
    SumSame(t, u.rows, Children(u.rows, a));
    ExactUnscanned(t, a);
    if HasUnscanned(t, a) {
      var c :| c in Children(t, a) && t[c].size == -1;
      assert c in Children(u.rows, a) && u.rows[c].size == -1;
    } else {
      assert !HasUnscanned(u.rows, a);
    }
    forall j | j in u.rows && Above(u.rows[j].path, Parent(p))
      ensures ExactAt(u.rows, j)
    {
      AncestorsExist(t, a, t[j].path);
      assert At(t, j, t[j].path);
    }
  }

  // ── Moving a subtree ───────────────────────────────────────────────────────

  /** The row at `from` gets a new path, name and parent (and perhaps a new
      storage mtime); every row below it gets a new path prefix. */
  ghost predicate Moves(s: Store, u: Store, from: Path, to: Path) {
    && from != [] && to != []
    && HasPath(s.rows, from) && !HasPath(s.rows, to) && IsDirAt(s.rows, Parent(to))
    && !Above(from, to) && !AtOrBelow(TRASH, to)
    && u.rows.Keys == s.rows.Keys && u.nextId == s.nextId && u.nextEtag == s.nextEtag
    && forall id :: id in s.rows ==> MovedRow(s, u.rows[id], s.rows[id], from, to)
  }

  ghost predicate MovedRow(s: Store, moved: Row, r: Row, from: Path, to: Path)
    requires to != [] && HasPath(s.rows, Parent(to))
  {
    if r.path == from
    then moved == r.(path := to, name := Last(to), parent := IdAt(s.rows, Parent(to)), storageMtime := moved.storageMtime)
    else moved == r.(path := Rebase(r.path, from, to))
  }

  lemma MoveIsClear(s: Store, u: Store, from: Path, to: Path)
    requires Valid(s) && Moves(s, u, from, to)
    ensures !AtOrBelow(from, to) && !AtOrBelow(to, from) && !AtOrBelow(Parent(to), from)
    ensures forall id :: id in s.rows ==> !AtOrBelow(s.rows[id].path, to)
  {
    forall id | id in s.rows
      ensures !AtOrBelow(s.rows[id].path, to)
    {
      if Above(to, s.rows[id].path) {
        AncestorsExist(s.rows, id, to);
      }
      assert !At(s.rows, id, to);
    }
    assert At(s.rows, IdAt(s.rows, from), from);
    AboveParent(to);
    if AtOrBelow(Parent(to), from) {
      AboveSplit(from, to);
    }
  }

  /** The path of a row that is not in the moved subtree stays; the others keep
      their place relative to the moved row. */
  lemma MovedPath(s: Store, u: Store, from: Path, to: Path, id: int)
    requires Valid(s) && Moves(s, u, from, to) && id in s.rows
    ensures u.rows[id].path == Rebase(s.rows[id].path, from, to)
    ensures AtOrBelow(s.rows[id].path, from) <==> AtOrBelow(u.rows[id].path, to)
    ensures AtOrBelow(s.rows[id].path, from) ==> Rebase(u.rows[id].path, to, from) == s.rows[id].path
  {
    MoveIsClear(s, u, from, to);
    assert MovedRow(s, u.rows[id], s.rows[id], from, to);
    if AtOrBelow(s.rows[id].path, from) {
      RebaseShape(s.rows[id].path, from, to);
    }
  }

  lemma MoveKeepsShape(s: Store, u: Store, from: Path, to: Path)
    requires Valid(s) && Moves(s, u, from, to)
    ensures Valid(u) && EditBody(s, u, from, to)
    ensures forall q :: HasPath(s.rows, q) && !AtOrBelow(q, from) ==> HasPath(u.rows, q) && IdAt(u.rows, q) == IdAt(s.rows, q)
    ensures At(u.rows, IdAt(s.rows, from), to)
  {
    MoveIsClear(s, u, from, to);
    assert At(u.rows, IdAt(s.rows, from), to) by {
      assert MovedRow(s, u.rows[IdAt(s.rows, from)], s.rows[IdAt(s.rows, from)], from, to);
    }
    forall i, j, q | At(u.rows, i, q) && At(u.rows, j, q)
      ensures i == j
    {
      MovedPath(s, u, from, to, i);
      MovedPath(s, u, from, to, j);
      assert At(s.rows, i, s.rows[i].path) && At(s.rows, j, s.rows[j].path);
    }
    forall q | HasPath(s.rows, q) && !AtOrBelow(q, from)
      ensures At(u.rows, IdAt(s.rows, q), q)
    {
      assert MovedRow(s, u.rows[IdAt(s.rows, q)], s.rows[IdAt(s.rows, q)], from, to);
    }
    assert !AtOrBelow([], from);
    assert HasPath(u.rows, []);
    forall id | id in u.rows
      ensures Linked(u.rows, id)
    {
      MoveLinked(s, u, from, to, id);
    }
    forall id | id in s.rows && id in u.rows
      ensures EditedRow(s, u.rows[id], s.rows[id], from, to)
      ensures u.rows[id].etag < u.nextEtag && u.rows[id].size >= -1
    {
      MovedPath(s, u, from, to, id);
      assert MovedRow(s, u.rows[id], s.rows[id], from, to);
    }
  }

  lemma MoveLinked(s: Store, u: Store, from: Path, to: Path, id: int)
    requires Valid(s) && Moves(s, u, from, to) && id in u.rows
    ensures Linked(u.rows, id)
  {
    MoveIsClear(s, u, from, to);
    assert Linked(s.rows, id);
    assert MovedRow(s, u.rows[id], s.rows[id], from, to);
    var b := IdAt(s.rows, Parent(to));
    assert MovedRow(s, u.rows[b], s.rows[b], from, to);
    var q := s.rows[id].path;
    if q != [] {
      var a := s.rows[id].parent;
      assert MovedRow(s, u.rows[a], s.rows[a], from, to);
      AboveSplit(from, q);
      if Above(from, q) {
        RebaseParent(q, from, to);
      }
    }
  }

  lemma MoveChildren(s: Store, u: Store, from: Path, to: Path, pid: int)
    requires Valid(s) && Moves(s, u, from, to)
    ensures var m := IdAt(s.rows, from);
      Children(u.rows, pid) == Children(s.rows, pid) - {m} + if pid == IdAt(s.rows, Parent(to)) then {m} else {}
  {
    var m := IdAt(s.rows, from);
    forall c | c in s.rows
      ensures c == m <==> s.rows[c].path == from
      ensures c != m ==> u.rows[c].parent == s.rows[c].parent
      ensures c == m ==> u.rows[c].parent == IdAt(s.rows, Parent(to))
    {
      assert At(s.rows, c, s.rows[c].path);
      assert MovedRow(s, u.rows[c], s.rows[c], from, to);
    }
  }

  lemma MoveSizes(s: Store, u: Store, from: Path, to: Path, id: int)
    requires Valid(s) && Moves(s, u, from, to) && id in s.rows
    ensures u.rows[id].size == s.rows[id].size && u.rows[id].isDir == s.rows[id].isDir
  {
    assert MovedRow(s, u.rows[id], s.rows[id], from, to);
  }

  /** Every folder but the two direct parents stays exact. */
  lemma MoveExactElsewhere(s: Store, u: Store, from: Path, to: Path, id: int)
    requires Valid(s) && Moves(s, u, from, to)
    requires id in s.rows && ExactAt(s.rows, id)
    requires id == IdAt(s.rows, Parent(to)) <==> id == s.rows[IdAt(s.rows, from)].parent
    ensures ExactAt(u.rows, id)
  {
    var m := IdAt(s.rows, from);
    MoveChildren(s, u, from, to, id);
    assert Children(u.rows, id) == Children(s.rows, id);
    forall c | c in s.rows
      ensures u.rows[c].size == s.rows[c].size
    {
      MoveSizes(s, u, from, to, c);
    }
    ExpectedSame(s.rows, u.rows, id);
  }

  /** Another child of `pid` than `m` is unscanned. */
  ghost predicate OtherUnscanned(t: Table, pid: int, m: int) {
    exists c :: c in Children(t, pid) && c != m && t[c].size == -1
  }

  /** What the old parent of a moved or removed row should record now. */
  lemma LoseChild(t: Table, u: Table, pid: int, m: int)
    requires m in Children(t, pid) && Children(u, pid) == Children(t, pid) - {m}
    requires forall c :: c in Children(u, pid) ==> u[c].size == t[c].size
    ensures HasUnscanned(u, pid) <==> OtherUnscanned(t, pid, m)
    ensures ChildSum(u, pid) == ChildSum(t, pid) - t[m].size
  {
    SumRemove(t, Children(t, pid), m);
    SumSame(t, u, Children(u, pid));
    if OtherUnscanned(t, pid, m) {
      var c :| c in Children(t, pid) && c != m && t[c].size == -1;
      assert c in Children(u, pid) && u[c].size == -1;
    }
    if HasUnscanned(u, pid) {
      var c :| c in Children(u, pid) && u[c].size == -1;
      assert c in Children(t, pid) && c != m && t[c].size == -1;
    }
  }

  /** What the new parent of an added row should record now. */
  lemma GainChild(t: Table, u: Table, pid: int, m: int)
    requires m in u && m !in Children(t, pid) && Children(u, pid) == Children(t, pid) + {m}
    requires forall c :: c in Children(t, pid) ==> u[c].size == t[c].size
    ensures HasUnscanned(u, pid) <==> HasUnscanned(t, pid) || u[m].size == -1
    ensures ChildSum(u, pid) == ChildSum(t, pid) + u[m].size
  {
    assert Children(u, pid) - {m} == Children(t, pid);
    SumRemove(u, Children(u, pid), m);
    SumSame(t, u, Children(t, pid));
    if HasUnscanned(t, pid) {
      var c :| c in Children(t, pid) && t[c].size == -1;
      assert c in Children(u, pid) && u[c].size == -1;
    }
    if u[m].size == -1 {
      assert m in Children(u, pid);
    }
    if HasUnscanned(u, pid) && u[m].size != -1 {
      var c :| c in Children(u, pid) && u[c].size == -1;
      assert c in Children(t, pid) && t[c].size == -1;
    }
  }

  /** The two direct parents of a move to another directory, before any repair. */
  lemma MoveAtParents(s: Store, u: Store, from: Path, to: Path)
    requires Valid(s) && Moves(s, u, from, to) && Exact(s.rows)
    requires Parent(from) != Parent(to)
    ensures HasPath(s.rows, Parent(from)) && s.rows[IdAt(s.rows, from)].parent == IdAt(s.rows, Parent(from))
    ensures var m, a, b := IdAt(s.rows, from), IdAt(s.rows, Parent(from)), IdAt(s.rows, Parent(to));
      var size := s.rows[m].size;
      && a != b
      && (ExactAt(u.rows, a) <==> size == 0 || (s.rows[a].size == -1 && OtherUnscanned(s.rows, a, m)))
      && (ExactAt(u.rows, b) <==> size == 0 || s.rows[b].size == -1)
      && (size >= 0 ==>
            if s.rows[a].size == -1 then HasUnscanned(u.rows, a)
            else !HasUnscanned(u.rows, a) && s.rows[a].size - size == ChildSum(u.rows, a))
  {
    var t := s.rows;
    var m, a, b := IdAt(t, from), t[IdAt(t, from)].parent, IdAt(t, Parent(to));
    assert Linked(t, m);
    assert At(t, a, Parent(from));
    assert ExactAt(t, a) && ExactAt(t, b);
    MoveChildren(s, u, from, to, a);
    MoveChildren(s, u, from, to, b);
    forall c | c in t
      ensures u.rows[c].size == t[c].size
    {
      MoveSizes(s, u, from, to, c);
    }
    assert m in Children(t, a) && m !in Children(t, b);
    LoseChild(t, u.rows, a, m);
    GainChild(t, u.rows, b, m);
    ExactUnscanned(t, a);
    ExactUnscanned(t, b);
    if t[m].size >= 0 && HasUnscanned(t, a) {
      var c :| c in Children(t, a) && t[c].size == -1;
      assert c != m;
    }
    SumNonNegativeUnless(t, a);
    SumNonNegativeUnless(u.rows, a);
    SumNonNegativeUnless(t, b);
    SumNonNegativeUnless(u.rows, b);
  }

  lemma SumNonNegativeUnless(t: Table, pid: int)
    requires forall id :: id in t ==> t[id].size >= -1
    ensures HasUnscanned(t, pid) || ChildSum(t, pid) >= 0
  {
    if !HasUnscanned(t, pid) {
      SumNonNegative(t, Children(t, pid));
    }
  }
}
