/** What the single statements of a write keep, and what they leave to be repaired. */
module Statements {
  import opened Paths
  import opened Tree
  import opened Propagation
  import opened Stores

  // ── Statements that keep every row where it is ─────────────────────────────

  /** A step that changes rows only strictly above `from` or `to`, and only their
      size, times and etag; a changed etag is a new one. */
  ghost predicate Quiet(u: Store, w: Store, from: Path, to: Path) {
    && SameShape(u.rows, w.rows)
    && w.nextId == u.nextId && w.nextEtag >= u.nextEtag
    && forall id :: id in u.rows ==> QuietRow(u, u.rows[id], w.rows[id], from, to)
  }

  ghost predicate QuietRow(u: Store, before: Row, after: Row, from: Path, to: Path) {
    && (after == before || Above(before.path, from) || Above(before.path, to))
    && (after.etag == before.etag || after.etag >= u.nextEtag)
  }

  lemma QuietTransitive(u: Store, w: Store, x: Store, from: Path, to: Path)
    requires Quiet(u, w, from, to) && Quiet(w, x, from, to)
    ensures Quiet(u, x, from, to)
  {
    forall id | id in u.rows
      ensures QuietRow(u, u.rows[id], x.rows[id], from, to)
    {
      assert QuietRow(u, u.rows[id], w.rows[id], from, to);
      assert QuietRow(w, w.rows[id], x.rows[id], from, to);
    }
  }

  lemma PropQuiet(u: Store, p: Path, time: int, delta: int, env: Env, from: Path, to: Path)
    requires Valid(u) && (p == from || p == to)
    ensures Valid(Prop(u, p, time, delta, env))
    ensures Quiet(u, Prop(u, p, time, delta, env), from, to)
    ensures Stamped(u.nextEtag, Prop(u, p, time, delta, env).rows, p)
  {
    var w := Prop(u, p, time, delta, env);
    assert w.rows.Keys == u.rows.Keys;
    SameShapeKeeps(u.rows, w.rows);
  }

  lemma ChainQuiet(u: Store, p: Path, from: Path, to: Path)
    requires Valid(u)
    requires p == from || p == to || Above(p, from) || Above(p, to)
    ensures Valid(ChainOn(u, p))
    ensures Quiet(u, ChainOn(u, p), from, to)
  {
    var w := ChainOn(u, p);
    ChainFrame(u.rows, p);
    forall id | id in u.rows
      ensures QuietRow(u, u.rows[id], w.rows[id], from, to)
    {
      if Above(u.rows[id].path, p) {
        if Above(p, from) {
          AboveTransitive(u.rows[id].path, p, from);
        } else if Above(p, to) {
          AboveTransitive(u.rows[id].path, p, to);
        }
      }
    }
  }

  lemma TouchQuiet(u: Store, q: Path, env: Env, from: Path, to: Path)
    requires Valid(u)
    requires Above(q, from) || Above(q, to)
    ensures Valid(Touch(u, q, env))
    ensures Quiet(u, Touch(u, q, env), from, to)
    ensures SameSizes(u.rows, Touch(u, q, env).rows)
  {
    var w := Touch(u, q, env);
    assert w.rows.Keys == u.rows.Keys;
    SameShapeKeeps(u.rows, w.rows);
  }

  // ── Sizes ──────────────────────────────────────────────────────────────────

  ghost predicate SameSizes(t: Table, u: Table) {
    SameShape(t, u) && forall id :: id in t ==> u[id].size == t[id].size
  }

  lemma SameSizesExactAt(t: Table, u: Table, id: int)
    requires SameSizes(t, u) && id in t
    ensures ExactAt(t, id) <==> ExactAt(u, id)
    ensures HasUnscanned(t, id) <==> HasUnscanned(u, id)
    ensures ChildSum(t, id) == ChildSum(u, id)
  {
    SameShapeChildren(t, u, id);
    ExpectedSame(t, u, id);
  }

  lemma SameSizesExact(t: Table, u: Table)
    requires SameSizes(t, u)
    ensures Exact(t) <==> Exact(u)
  {
    forall id | id in t
      ensures ExactAt(t, id) <==> ExactAt(u, id)
    {
      SameSizesExactAt(t, u, id);
    }
  }

  lemma SameSizesReady(t: Table, u: Table, p: Path, delta: int)
    requires SameSizes(t, u) && DeltaReady(t, p, delta)
    ensures DeltaReady(u, p, delta)
  {
    SameShapeKeeps(t, u);
    SameShapePath(t, u, Parent(p));
    SameSizesExactAt(t, u, IdAt(t, Parent(p)));
    forall id | id in u && Above(u[id].path, Parent(p))
      ensures ExactAt(u, id)
    {
      SameSizesExactAt(t, u, id);
    }
  }

  lemma PropZeroSizes(u: Store, p: Path, time: int, env: Env)
    requires SizesOk(u.rows)
    ensures SameSizes(u.rows, Prop(u, p, time, 0, env).rows)
  {
    assert Prop(u, p, time, 0, env).rows.Keys == u.rows.Keys;
  }

  /** Every folder except possibly the strict ancestors of `p` is exact. */
  ghost predicate ExactOff(t: Table, p: Path) {
    forall id :: id in t && t[id].isDir && !Above(t[id].path, p) ==> ExactAt(t, id)
  }

  lemma SameSizesExactOff(t: Table, u: Table, p: Path)
    requires SameSizes(t, u) && ExactOff(t, p)
    ensures ExactOff(u, p)
  {
    forall id | id in u && u[id].isDir && !Above(u[id].path, p)
      ensures ExactAt(u, id)
    {
      SameSizesExactAt(t, u, id);
    }
  }

  lemma ChainFinish(u: Store, p: Path)
    requires Valid(u) && ExactOff(u.rows, p)
    ensures Exact(ChainOn(u, p).rows)
  {
    ChainFrame(u.rows, p);
    forall id | id in u.rows && u.rows[id].isDir
      ensures ExactAt(Chain(u.rows, p), id)
    {
      ChainExact(u.rows, p, id);
    }
  }

  lemma DeltaFinish(u: Store, p: Path, time: int, delta: int, env: Env)
    requires DeltaReady(u.rows, p, delta) && ExactOff(u.rows, p)
    ensures Exact(Prop(u, p, time, delta, env).rows)
  {
    var w := Prop(u, p, time, delta, env);
    var clamped := if time < env.now then time else env.now;
    forall id | id in w.rows && w.rows[id].isDir
      ensures ExactAt(w.rows, id)
    {
      if Above(u.rows[id].path, p) {
        DeltaExactOn(u.rows, p, clamped, delta, u.nextEtag, id);
      } else {
        DeltaExactOff(u.rows, p, clamped, delta, u.nextEtag, id);
      }
    }
  }

  /** Where a delta is due, applying it shifts every scanned ancestor by it ... */
  lemma PropSize(x: Store, p: Path, delta: int, env: Env, id: int)
    requires DeltaReady(x.rows, p, delta) && id in x.rows
    ensures id in Prop(x, p, env.now, delta, env).rows
    ensures Prop(x, p, env.now, delta, env).rows[id].size ==
              if Above(x.rows[id].path, p) && x.rows[id].size != -1 then x.rows[id].size + delta else x.rows[id].size
  {
    if Above(x.rows[id].path, p) && x.rows[id].size > -1 {
      NoClamp(x.rows, p, delta, id);
    }
  }

  /** ... and so does recomputing the chain. */
  lemma ChainDelta(t: Table, p: Path, delta: int, id: int)
    requires DeltaReady(t, p, delta) && id in t
    ensures var u := Chain(t, p);
      && id in u && u[id].path == t[id].path
      && u[id].size == if Above(t[id].path, p) && t[id].size != -1 then t[id].size + delta else t[id].size
  {
    FastRefinesSlow(t, p, 0, delta, 0);
    ChainFrame(t, p);
    if Above(t[id].path, p) && t[id].size > -1 {
      NoClamp(t, p, delta, id);
    }
  }

  // ── Stamps and edits ───────────────────────────────────────────────────────

  /** Every row strictly above `p` carries an etag drawn at or after `since`. */
  ghost predicate Stamped(since: nat, t: Table, p: Path) {
    forall id :: id in t && Above(t[id].path, p) ==> t[id].etag >= since
  }

  lemma QuietStamped(since: nat, u: Store, w: Store, from: Path, to: Path, p: Path)
    requires Quiet(u, w, from, to) && Stamped(since, u.rows, p) && since <= u.nextEtag
    ensures Stamped(since, w.rows, p)
  {
    forall id | id in w.rows && Above(w.rows[id].path, p)
      ensures w.rows[id].etag >= since
    {
      assert QuietRow(u, u.rows[id], w.rows[id], from, to);
    }
  }

  /** The stamps come last: an edit is its rows, then quiet steps, then both ends
      stamped. */
  lemma EditQuiet(s: Store, u: Store, w: Store, from: Path, to: Path)
    requires EditBody(s, u, from, to) && Quiet(u, w, from, to)
    ensures EditBody(s, w, from, to)
  {
    forall id | id in s.rows && id in w.rows
      ensures EditedRow(s, w.rows[id], s.rows[id], from, to)
    {
      assert EditedRow(s, u.rows[id], s.rows[id], from, to);
      assert QuietRow(u, u.rows[id], w.rows[id], from, to);
    }
  }
}
