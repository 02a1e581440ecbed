/** The two ways the server repairs the ancestor chain after a write. */
module Propagation {
  import opened Paths
  import opened Tree

  // A signed delta applied to every ancestor at once, or a recomputation of every
  // ancestor from its children, deepest first.

  /** One ancestor row of `propagate_change`: unscanned sizes stay, others are
      shifted with a floor at -1. */
  function Bump(r: Row, time: int, delta: int, etag: nat): Row {
    r.(mtime := if r.mtime < time then time else r.mtime,
       etag := etag,
       size := if r.size > -1
               then if r.size + delta < -1 then -1 else r.size + delta
               else r.size)
  }

  function Propagate(t: Table, p: Path, time: int, delta: int, etag: nat): Table {
    map id | id in t :: if Above(t[id].path, p) then Bump(t[id], time, delta, etag) else t[id]
  }

  ghost function RecomputeAt(t: Table, q: Path): Table {
    if HasPath(t, q)
    then var id := IdAt(t, q); t[id := t[id].(size := Expected(t, id))]
    else t
  }

  /** Every strict ancestor of `p`, deepest first. */
  ghost function Chain(t: Table, p: Path): Table
    decreases |p|
  {
    if p == [] then t else Chain(RecomputeAt(t, Parent(p)), Parent(p))
  }

  // ── What each repair leaves alone ──────────────────────────────────────────

  lemma PropagateFrame(t: Table, p: Path, time: int, delta: int, etag: nat)
    ensures SameShape(t, Propagate(t, p, time, delta, etag))
    ensures SizesOk(t) ==> SizesOk(Propagate(t, p, time, delta, etag))
    ensures Shaped(t) ==> Shaped(Propagate(t, p, time, delta, etag))
  {
    var u := Propagate(t, p, time, delta, etag);
    assert t.Keys == u.Keys;
    if Shaped(t) {
      SameShapeKeeps(t, u);
    }
  }

  /** Only recorded sizes, and only those of strict ancestors, change. */
  ghost predicate OnlySizesAbove(t: Table, u: Table, p: Path) {
    && t.Keys == u.Keys
    && forall id :: id in t ==>
         && u[id] == t[id].(size := u[id].size)
         && (!Above(t[id].path, p) ==> u[id] == t[id])
  }

  lemma {:induction false} ChainFrame(t: Table, p: Path)
    requires Shaped(t)
    ensures OnlySizesAbove(t, Chain(t, p), p)
    ensures SameShape(t, Chain(t, p)) && Shaped(Chain(t, p))
    ensures SizesOk(t) ==> SizesOk(Chain(t, p))
    decreases |p|
  {
    if p != [] {
      var q := Parent(p);
      var t1 := RecomputeAt(t, q);
      if HasPath(t, q) {
        assert t1.Keys == t.Keys;
        if SizesOk(t) {
          ExpectedAtLeast(t, IdAt(t, q));
        }
      }
      SameShapeKeeps(t, t1);
      ChainFrame(t1, q);
      var u := Chain(t1, q);
      forall id | id in t
        ensures u[id] == t[id].(size := u[id].size)
        ensures !Above(t[id].path, p) ==> u[id] == t[id]
      {
        AboveSplit(t[id].path, p);
      }
      SameShapeKeeps(t, u);
    }
  }

  // ── Recomputation makes the chain exact ────────────────────────────────────

  lemma RecomputeExact(t: Table, q: Path, id: int)
    requires Shaped(t) && id in t
    requires t[id].path == q || (ExactAt(t, id) && !Above(t[id].path, q))
    ensures SameShape(t, RecomputeAt(t, q))
    ensures ExactAt(RecomputeAt(t, q), id)
  {
    var u := RecomputeAt(t, q);
    assert t.Keys == u.Keys;
    SameShapeChildren(t, u, id);
    assert At(t, id, t[id].path);
    forall c | c in Children(t, id)
      ensures t[c].size == u[c].size
    {
      ChildByPath(t, id, c);
      AboveParent(t[c].path);
      assert Above(t[id].path, t[c].path);
      assert t[c].path != q;
    }
    ExpectedSame(t, u, id);
  }

  /** One recomputation of the chain makes every folder on it exact, whatever it
      recorded before, and keeps every other exact folder exact. */
  lemma {:induction false} ChainExact(t: Table, p: Path, id: int)
    requires Shaped(t) && id in t
    requires Above(t[id].path, p) || ExactAt(t, id)
    ensures Chain(t, p).Keys == t.Keys
    ensures ExactAt(Chain(t, p), id)
    decreases |p|
  {
    if p != [] {
      var q := Parent(p);
      AboveSplit(t[id].path, p);
      var t1 := RecomputeAt(t, q);
      assert t1.Keys == t.Keys;
      SameShapeKeeps(t, t1);
      if !Above(t[id].path, q) {
        RecomputeExact(t, q, id);
      }
      ChainExact(t1, q, id);
    }
    ChainFrame(t, p);
  }

  /** Exactly the strict ancestors of `p` are repaired; every other folder is as
      right or as wrong as it was. */
  lemma ChainExactIff(t: Table, p: Path, id: int)
    requires Shaped(t) && id in t
    ensures Chain(t, p).Keys == t.Keys
    ensures ExactAt(Chain(t, p), id) <==> Above(t[id].path, p) || ExactAt(t, id)
  {
    var u := Chain(t, p);
    ChainFrame(t, p);
    if Above(t[id].path, p) {
      ChainExact(t, p, id);
    } else {
      SameShapeChildren(t, u, id);
      forall c | c in Children(t, id)
        ensures u[c].size == t[c].size
      {
        ChildByPath(t, id, c);
        if Above(t[c].path, p) {
          AboveParent(t[c].path);
          AboveTransitive(t[id].path, t[c].path, p);
        }
      }
      ExpectedSame(t, u, id);
    }
  }

  /** A chain whose rows are all exact is left exactly as it is. */
  lemma {:induction false} ChainNoop(t: Table, p: Path)
    requires Shaped(t)
    requires forall id :: id in t && Above(t[id].path, p) ==> ExactAt(t, id)
    ensures Chain(t, p) == t
    decreases |p|
  {
    if p != [] {
      var q := Parent(p);
      AboveParent(p);
      var t1 := RecomputeAt(t, q);
      assert t1 == t;
      forall id | id in t && Above(t[id].path, q)
        ensures ExactAt(t, id)
      {
        AboveSplit(t[id].path, p);
      }
      ChainNoop(t, q);
    }
  }

  /** From arbitrary sizes on the chain of `p`, with every other folder exact,
      one recomputation makes the whole tree exact and a second changes nothing. */
  lemma ChainRepairs(t: Table, p: Path)
    requires Shaped(t)
    requires IsDirAt(t, []) && (p != [] ==> IsDirAt(t, Parent(p)))
    requires forall id :: id in t && t[id].isDir && !Above(t[id].path, p) ==> ExactAt(t, id)
    ensures Shaped(Chain(t, p)) && Exact(Chain(t, p))
    ensures Chain(Chain(t, p), p) == Chain(t, p)
  {
    var u := Chain(t, p);
    ChainFrame(t, p);
    forall id | id in u && u[id].isDir
      ensures ExactAt(u, id)
    {
      ChainExact(t, p, id);
    }
    forall id | id in u && Above(u[id].path, p)
      ensures ExactAt(u, id)
    {
      ChainExact(t, p, id);
    }
    ChainNoop(u, p);
  }

  // ── The signed delta ───────────────────────────────────────────────────────

  /** The children of `Parent(p)` have just changed by `delta` bytes, nothing
      above has been told yet, and no unscanned child came or went alone. */
  ghost predicate DeltaReady(t: Table, p: Path, delta: int) {
    && p != []
    && Shaped(t) && SizesOk(t)
    && IsDirAt(t, Parent(p))
    && (var a := IdAt(t, Parent(p));
        if t[a].size == -1 then HasUnscanned(t, a)
        else !HasUnscanned(t, a) && t[a].size + delta == ChildSum(t, a))
    && forall id :: id in t && Above(t[id].path, Parent(p)) ==> ExactAt(t, id)
  }

  /** The row of the next ancestor on the way down to `p`. */
  ghost function NextDown(t: Table, p: Path, id: int): (c: int)
    requires Shaped(t) && p != [] && IsDirAt(t, Parent(p))
    requires id in t && Above(t[id].path, Parent(p))
    ensures c in Children(t, id) && Above(t[c].path, p) && |t[c].path| == |t[id].path| + 1
    ensures t[c].isDir
    ensures forall d :: d in Children(t, id) && Above(t[d].path, p) ==> d == c
  {
    var n := |t[id].path| + 1;
    var q := p[..n];
    assert Parent(p)[..|t[id].path|] == p[..|t[id].path|];
    assert Parent(q) == t[id].path;
    var a := IdAt(t, Parent(p));
    assert IsDirAt(t, q) by {
      if q != Parent(p) {
        assert Parent(p)[..n] == q;
        AncestorsExist(t, a, q);
      }
    }
    var c := IdAt(t, q);
    assert c in Children(t, id) by { ChildByPath(t, id, c); }
    assert forall d :: d in Children(t, id) && Above(t[d].path, p) ==> d == c by {
      forall d | d in Children(t, id) && Above(t[d].path, p)
        ensures d == c
      {
        ChildByPath(t, id, d);
        assert At(t, d, q) && At(t, c, q);
      }
    }
    c
  }

  /** No floor at -1 is reached: every scanned ancestor can absorb the delta. */
  lemma {:induction false} NoClamp(t: Table, p: Path, delta: int, id: int)
    requires DeltaReady(t, p, delta)
    requires id in t && Above(t[id].path, p) && t[id].size > -1
    ensures t[id].size + delta >= 0
    decreases |p| - |t[id].path|
  {
    AboveSplit(t[id].path, p);
    var a := IdAt(t, Parent(p));
    var kids := Children(t, id);
    if t[id].path == Parent(p) {
      assert At(t, id, Parent(p));
      SumNonNegative(t, Children(t, a));
    } else {
      assert ExactAt(t, id);
      var c := NextDown(t, p, id);
      assert forall d :: d in kids ==> t[d].size >= 0;
      SumAtLeast(t, kids, c);
      NoClamp(t, p, delta, c);
    }
  }

  lemma DeltaExactOff(t: Table, p: Path, time: int, delta: int, etag: nat, id: int)
    requires Shaped(t) && id in t && ExactAt(t, id) && !Above(t[id].path, p)
    ensures Propagate(t, p, time, delta, etag).Keys == t.Keys
    ensures ExactAt(Propagate(t, p, time, delta, etag), id)
  {
    var u := Propagate(t, p, time, delta, etag);
    assert u.Keys == t.Keys;
    SameShapeChildren(t, u, id);
    forall c | c in Children(t, id)
      ensures u[c].size == t[c].size
    {
      ChildByPath(t, id, c);
      if Above(t[c].path, p) {
        AboveParent(t[c].path);
        AboveTransitive(t[id].path, t[c].path, p);
      }
    }
    ExpectedSame(t, u, id);
  }

  /** The signed delta makes every ancestor exact. */
  lemma DeltaExactOn(t: Table, p: Path, time: int, delta: int, etag: nat, id: int)
    requires DeltaReady(t, p, delta) && id in t && Above(t[id].path, p)
    ensures Propagate(t, p, time, delta, etag).Keys == t.Keys
    ensures ExactAt(Propagate(t, p, time, delta, etag), id)
  {
    var u := Propagate(t, p, time, delta, etag);
    assert u.Keys == t.Keys;
    SameShapeChildren(t, u, id);
    AboveSplit(t[id].path, p);
    var kids := Children(t, id);
    if t[id].size > -1 {
      NoClamp(t, p, delta, id);
    }
    if t[id].path == Parent(p) {
      assert At(t, id, Parent(p));
      forall c | c in kids
        ensures u[c].size == t[c].size
      {
        ChildByPath(t, id, c);
      }
      ExpectedSame(t, u, id);
    } else {
      assert ExactAt(t, id);
      var c := NextDown(t, p, id);
      assert forall d :: d in kids && d != c ==> u[d] == t[d];
      if t[id].size == -1 {
        ExactUnscanned(t, id);
        var d :| d in kids && t[d].size == -1;
        assert d in Children(u, id) && u[d].size == -1;
      } else {
        assert c in kids && t[c].size != -1;
        NoClamp(t, p, delta, c);
        SumChangesBy(t, u, kids, c);
        assert !HasUnscanned(u, id);
      }
    }
  }

  /** Two exact tables that agree off the chain of `p` agree on it. */
  lemma {:induction false} ExactSizesUnique(t: Table, u: Table, p: Path, id: int)
    requires Shaped(t) && SameShape(t, u) && id in t
    requires forall j :: j in t && !Above(t[j].path, p) ==> t[j].size == u[j].size
    requires forall j :: j in t && Above(t[j].path, p) ==> ExactAt(t, j) && ExactAt(u, j)
    ensures t[id].size == u[id].size
    decreases |p| - |t[id].path|
  {
    if Above(t[id].path, p) {
      SameShapeChildren(t, u, id);
      forall c | c in Children(t, id)
        ensures t[c].size == u[c].size
      {
        ChildByPath(t, id, c);
        ExactSizesUnique(t, u, p, c);
      }
      ExpectedSame(t, u, id);
    }
  }

  /** The fast form refines the slow form: where a delta is due, applying it to
      every ancestor records the same sizes as recomputing the chain. */
  lemma FastRefinesSlow(t: Table, p: Path, time: int, delta: int, etag: nat)
    requires DeltaReady(t, p, delta)
    ensures Chain(t, p).Keys == t.Keys == Propagate(t, p, time, delta, etag).Keys
    ensures forall id :: id in t ==>
              Chain(t, p)[id].size == Propagate(t, p, time, delta, etag)[id].size
  {
    var u, w := Propagate(t, p, time, delta, etag), Chain(t, p);
    PropagateFrame(t, p, time, delta, etag);
    ChainFrame(t, p);
    forall id | id in t
      ensures w[id].size == u[id].size
    {
      forall j | j in u && Above(u[j].path, p)
        ensures ExactAt(u, j) && ExactAt(w, j)
      {
        DeltaExactOn(t, p, time, delta, etag, j);
        ChainExact(t, p, j);
      }
      ExactSizesUnique(u, w, p, id);
    }
  }
}
