/** What an exact tree records: each folder's size is the number of file bytes
    below it. */
module Totals {
  import opened Paths
  import opened Tree

  ghost predicate FilesScanned(t: Table) {
    forall id :: id in t && !t[id].isDir ==> t[id].size >= 0
  }

  ghost predicate AllScanned(t: Table) {
    forall id :: id in t ==> t[id].size >= 0
  }

  /** The file rows at or below `p`. */
  ghost function FilesUnder(t: Table, p: Path): set<int> {
    set id | id in t && !t[id].isDir && AtOrBelow(t[id].path, p)
  }

  ghost function Below(t: Table, p: Path): set<int> {
    set id | id in t && Above(p, t[id].path)
  }

  lemma ChildIsBelow(t: Table, id: int, c: int)
    requires Shaped(t) && id in t && c in Children(t, id)
    ensures Above(t[id].path, t[c].path) && |t[c].path| == |t[id].path| + 1
    ensures Below(t, t[c].path) < Below(t, t[id].path)
  {
    ChildByPath(t, id, c);
    var p, q := t[id].path, t[c].path;
    AboveParent(q);
    forall j | j in Below(t, q)
      ensures j in Below(t, p)
    {
      AboveTransitive(p, q, t[j].path);
    }
    assert c in Below(t, p) && c !in Below(t, q);
  }

  /** Where every file is scanned and every folder exact, every folder is scanned. */
  lemma {:induction false} ExactScanned(t: Table, id: int)
    requires Shaped(t) && SizesOk(t) && Exact(t) && FilesScanned(t) && id in t
    ensures t[id].size >= 0
    decreases Below(t, t[id].path)
  {
    if t[id].isDir {
      assert ExactAt(t, id);
      forall c | c in Children(t, id)
        ensures t[c].size >= 0
      {
        ChildIsBelow(t, id, c);
        ExactScanned(t, c);
      }
      ExactUnscanned(t, id);
    }
  }

  lemma ScannedThroughout(t: Table)
    requires Shaped(t) && SizesOk(t) && Exact(t) && FilesScanned(t)
    ensures AllScanned(t)
  {
    forall id | id in t
      ensures t[id].size >= 0
    {
      ExactScanned(t, id);
    }
  }

  lemma {:induction false} SumDisjoint(t: Table, a: set<int>, b: set<int>)
    requires a <= t.Keys && b <= t.Keys && a !! b
    ensures SumSizes(t, a + b) == SumSizes(t, a) + SumSizes(t, b)
    decreases a
  {
    if a == {} {
      assert a + b == b;
    } else {
      var x := Pick(a);
      SumRemove(t, a, x);
      SumRemove(t, a + b, x);
      assert a + b - {x} == (a - {x}) + b;
      SumDisjoint(t, a - {x}, b);
    }
  }

  /** The file rows at or below the rows in `s`. */
  ghost function FilesUnderAll(t: Table, s: set<int>): set<int>
    requires s <= t.Keys
  {
    set id | id in t && !t[id].isDir && exists c :: c in s && AtOrBelow(t[id].path, t[c].path)
  }

  lemma FilesUnderChildren(t: Table, id: int)
    requires Shaped(t) && id in t && t[id].isDir
    ensures FilesUnder(t, t[id].path) == FilesUnderAll(t, Children(t, id))
  {
    var p := t[id].path;
    forall j | j in FilesUnder(t, p)
      ensures j in FilesUnderAll(t, Children(t, id))
    {
      var q := t[j].path;
      assert At(t, id, p) && At(t, j, q);
      assert q != p;
      var n := q[..|p| + 1];
      assert n[..|p|] == p;
      if n != q {
        AncestorsExist(t, j, n);
      }
      assert HasPath(t, n);
      var c := IdAt(t, n);
      assert Parent(n) == p;
      ChildByPath(t, id, c);
    }
    forall j | j in FilesUnderAll(t, Children(t, id))
      ensures j in FilesUnder(t, p)
    {
      var c :| c in Children(t, id) && AtOrBelow(t[j].path, t[c].path);
      ChildIsBelow(t, id, c);
      AboveTransitive(p, t[c].path, t[j].path);
    }
  }

  lemma FilesUnderFile(t: Table, id: int)
    requires Shaped(t) && id in t && !t[id].isDir
    ensures FilesUnder(t, t[id].path) == {id}
  {
    forall j | j in FilesUnder(t, t[id].path)
      ensures j == id
    {
      var p, q := t[id].path, t[j].path;
      assert !Above(p, q) by {
        if Above(p, q) {
          NothingUnderFile(t, id, j);
        }
      }
      assert q[..|p|] == q;
      assert At(t, id, p) && At(t, j, p);
    }
  }

  /** Rows of one length with different paths have no files in common. */
  lemma SiblingsDisjoint(t: Table, x: int, s: set<int>)
    requires Shaped(t) && x in t && s <= t.Keys && x !in s
    requires forall c :: c in s ==> |t[c].path| == |t[x].path|
    ensures FilesUnder(t, t[x].path) !! FilesUnderAll(t, s)
    ensures FilesUnderAll(t, s + {x}) == FilesUnderAll(t, s) + FilesUnder(t, t[x].path)
  {
    forall j | j in FilesUnder(t, t[x].path)
      ensures j !in FilesUnderAll(t, s)
    {
      forall c | c in s
        ensures !AtOrBelow(t[j].path, t[c].path)
      {
        assert At(t, x, t[x].path) && At(t, c, t[c].path);
      }
    }
  }

  /** In an exact, scanned tree a folder's size is the sum of the sizes of the
      files below it, at any depth. */
  lemma {:induction false} ExactMeansTotal(t: Table, id: int)
    requires Shaped(t) && SizesOk(t) && Exact(t) && FilesScanned(t) && id in t
    ensures t[id].size == SumSizes(t, FilesUnder(t, t[id].path))
    decreases Below(t, t[id].path), 1
  {
    if t[id].isDir {
      FilesUnderChildren(t, id);
      ScannedThroughout(t);
      assert ExactAt(t, id);
      TotalOfChildren(t, id, Children(t, id));
    } else {
      FilesUnderFile(t, id);
      SumRemove(t, {id}, id);
      assert {id} - {id} == {};
    }
  }

  lemma {:induction false} TotalOfChildren(t: Table, id: int, s: set<int>)
    requires Shaped(t) && SizesOk(t) && Exact(t) && FilesScanned(t) && id in t && s <= Children(t, id)
    ensures SumSizes(t, s) == SumSizes(t, FilesUnderAll(t, s))
    decreases Below(t, t[id].path), 0, s
  {
    if s == {} {
      assert FilesUnderAll(t, s) == {};
    } else {
      var x := Pick(s);
      var rest := s - {x};
      SumRemove(t, s, x);
      forall c | c in s
        ensures |t[c].path| == |t[id].path| + 1
      {
        ChildIsBelow(t, id, c);
      }
      SiblingsDisjoint(t, x, rest);
      assert rest + {x} == s;
      SumDisjoint(t, FilesUnderAll(t, rest), FilesUnder(t, t[x].path));
      TotalOfChildren(t, id, rest);
      ChildIsBelow(t, id, x);
      ExactMeansTotal(t, x);
    }
  }
}
