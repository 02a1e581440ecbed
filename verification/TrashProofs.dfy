/** Delete-to-trash: shape, history, exact sizes, and what happens to the totals. */
module TrashProofs {
  import opened Paths
  import opened Tree
  import opened Propagation
  import opened Stores
  import opened Statements
  import opened RowEdits
  import opened Operations
  import opened OperationProofs
  import opened RequestProofs

  /** Rows that are not above the trash folder are untouched, no row moves or changes
      size, and new rows are empty directories of the trash skeleton. */
  ghost predicate TrashOnly(s: Store, u: Store) {
    && s.nextId <= u.nextId && s.nextEtag <= u.nextEtag
    && (forall id :: id in s.rows ==>
          && id in u.rows
          && u.rows[id].path == s.rows[id].path && u.rows[id].parent == s.rows[id].parent
          && u.rows[id].isDir == s.rows[id].isDir && u.rows[id].size == s.rows[id].size
          && (!Above(s.rows[id].path, TRASH) ==> u.rows[id].etag == s.rows[id].etag))
    && (forall id :: id in u.rows && id !in s.rows ==> IsSkeleton(u.rows[id]))
  }

  /** A path directly inside the trash folder. */
  predicate TrashEntry(to: Path) {
    |to| == 3 && to[0] == "files_trashbin" && Parent(to) == TRASH
  }

  predicate IsSkeleton(r: Row) {
    r.isDir && r.size == 0 && 1 <= |r.path| <= 2 && r.path[0] == "files_trashbin"
  }

  lemma SkeletonStep(s: Store, q: Path, env: Env)
    requires Valid(s) && CanEnsure(s.rows, q)
    requires 1 <= |q| <= 2 && q[0] == "files_trashbin"
    ensures Keeps(s, EnsureDirs(s, q, env)) && TrashOnly(s, EnsureDirs(s, q, env))
  {
    EnsureKeeps(s, q, env);
    var u := EnsureDirs(s, q, env);
    forall id | id in s.rows && !Above(s.rows[id].path, TRASH)
      ensures u.rows[id].etag == s.rows[id].etag
    {
      AboveTrash(s.rows[id].path, q);
    }
    forall id | id in u.rows && id !in s.rows
      ensures IsSkeleton(u.rows[id])
    {
      assert At(u.rows, IdAt(s.rows, []), []);
      assert !At(u.rows, id, []);
    }
  }

  lemma AboveTrash(p: Path, q: Path)
    requires 1 <= |q| <= 2 && q[0] == "files_trashbin"
    ensures Above(p, q) ==> Above(p, TRASH)
  {
    if Above(p, q) {
      assert p == q[..|p|] == TRASH[..|p|];
    }
  }

  lemma SkeletonIfPossible(s: Store, q: Path, env: Env)
    requires Valid(s) && 1 <= |q| <= 2 && q[0] == "files_trashbin"
    ensures Keeps(s, EnsureIfPossible(s, q, env)) && TrashOnly(s, EnsureIfPossible(s, q, env))
  {
    if CanEnsure(s.rows, q) {
      SkeletonStep(s, q, env);
    } else {
      KeepsReflexive(s);
    }
  }

  lemma TrashOnlyTransitive(s: Store, u: Store, w: Store)
    requires TrashOnly(s, u) && TrashOnly(u, w)
    ensures TrashOnly(s, w)
  {
    forall id | id in w.rows && id !in s.rows
      ensures IsSkeleton(w.rows[id])
    {
      if id in u.rows {
        assert IsSkeleton(u.rows[id]);
      }
    }
  }

  lemma SkeletonKeeps(s: Store, env: Env)
    requires Valid(s) && CanEnsure(s.rows, TRASH)
    ensures Keeps(s, TrashSkeleton(s, env)) && TrashOnly(s, TrashSkeleton(s, env))
  {
    var s1 := EnsureDirs(s, TRASH, env);
    SkeletonStep(s, TRASH, env);
    var s2 := EnsureIfPossible(s1, ["files_trashbin", "versions"], env);
    SkeletonIfPossible(s1, ["files_trashbin", "versions"], env);
    KeepsTransitive(s, s1, s2);
    TrashOnlyTransitive(s, s1, s2);
    var s3 := EnsureIfPossible(s2, ["files_trashbin", "keys"], env);
    SkeletonIfPossible(s2, ["files_trashbin", "keys"], env);
    KeepsTransitive(s, s2, s3);
    TrashOnlyTransitive(s, s2, s3);
  }

  lemma SkeletonMakesTrash(s: Store, env: Env)
    requires Valid(s) && CanEnsure(s.rows, TRASH)
    ensures HasPath(TrashSkeleton(s, env).rows, TRASH)
  {
    var s1 := EnsureDirs(s, TRASH, env);
    EnsureKeeps(s, TRASH, env);
    var s2 := EnsureIfPossible(s1, ["files_trashbin", "versions"], env);
    SkeletonIfPossible(s1, ["files_trashbin", "versions"], env);
    assert At(s2.rows, IdAt(s1.rows, TRASH), TRASH);
    var s3 := EnsureIfPossible(s2, ["files_trashbin", "keys"], env);
    SkeletonIfPossible(s2, ["files_trashbin", "keys"], env);
    assert At(s3.rows, IdAt(s1.rows, TRASH), TRASH);
  }

  /** `u` is `s`, perhaps with the cache folder added. */
  ghost predicate CacheAdded(s: Store, u: Store) {
    && s.nextId <= u.nextId && s.nextEtag <= u.nextEtag
    && (forall id :: id in s.rows ==> id in u.rows && u.rows[id] == s.rows[id])
    && (forall id :: id in u.rows && id !in s.rows ==> id >= s.nextId && u.rows[id].path == ["cache"])
  }

  lemma CacheRowAdds(s: Store, now: int)
    requires Valid(s)
    ensures var u := CacheRow(s, now);
      CacheAdded(s, u) && Valid(u) && (Exact(s.rows) ==> Exact(u.rows))
  {
    var u := CacheRow(s, now);
    if !HasPath(s.rows, ["cache"]) {
      var p := ["cache"];
      assert Parent(p) == [];
      assert Linked(s.rows, IdAt(s.rows, []));
      InsertFreshAdds(s, p, true, 0, now, now);
      var r := NewRow(s, p, true, 0, now, now, s.nextEtag);
      AddKeepsShape(s, u, r);
      AddDirSizes(s, u, u, r);
    }
  }

  lemma EditAfterCache(s: Store, t: Store, u: Store, from: Path, to: Path)
    requires CacheAdded(s, t) && EditBody(t, u, from, to) && u.rows.Keys == t.rows.Keys
    requires from[0] == "files"
    ensures EditBody(s, u, from, to)
  {
    forall id | id in s.rows.Keys
      ensures id in u.rows.Keys
    {
      assert id in s.rows && id in t.rows.Keys;
    }
    forall id | id in u.rows && id !in s.rows
      ensures id >= s.nextId && Near(u.rows[id].path, from, to)
    {
      assert EditedRow(t, u.rows[id], t.rows[id], from, to);
      var cache := ["cache"];
      assert from[0] != cache[0];
    }
    forall id | id in s.rows && id in u.rows
      ensures EditedRow(s, u.rows[id], s.rows[id], from, to)
    {
      assert EditedRow(t, u.rows[id], t.rows[id], from, to);
    }
  }

  lemma RekeyToTrashMoves(s: Store, from: Path, to: Path, env: Env)
    requires Valid(s) && InFiles(from) && TrashEntry(to)
    requires HasPath(s.rows, from) && !HasPath(s.rows, to) && IsDirAt(s.rows, TRASH)
    ensures Moves(s, RekeyToTrash(s, from, to, env), from, to)
  {
    var u := Rekey(s, from, to);
    var w := RekeyToTrash(s, from, to, env);
    assert Moves(s, u, from, to);
    MoveIsClear(s, u, from, to);
    assert w.rows.Keys == s.rows.Keys;
    assert Rebase(to, to, from) == from;
    forall id | id in s.rows
      ensures MovedRow(s, w.rows[id], s.rows[id], from, to)
    {
      MovedPath(s, u, from, to, id);
      assert MovedRow(s, u.rows[id], s.rows[id], from, to);
    }
  }

  // ── The statements after the rows have moved ───────────────────────────────

  lemma TrashTouchedQuiet(u: Store, p: Path, to: Path, env: Env)
    requires Valid(u) && p != [] && to != []
    ensures var w := TrashTouched(u, p, to, env);
      && Valid(w) && Quiet(u, w, p, to) && SameSizes(u.rows, w.rows) && Stamped(u.nextEtag, w.rows, to)
  {
    AboveParent(p);
    AboveParent(to);
    var u1 := Touch(u, Parent(p), env);
    TouchQuiet(u, Parent(p), env, p, to);
    var u2 := Touch(u1, Parent(to), env);
    TouchQuiet(u1, Parent(to), env, p, to);
    QuietTransitive(u, u1, u2, p, to);
    var w := Prop(u2, to, env.now, 0, env);
    PropQuiet(u2, to, env.now, 0, env, p, to);
    QuietTransitive(u, u2, w, p, to);
    PropZeroSizes(u2, to, env.now, env);
    SameSizesTransitive(u.rows, u1.rows, u2.rows);
    SameSizesTransitive(u.rows, u2.rows, w.rows);
  }

  lemma TrashMoveKeeps(s: Store, t: Store, p: Path, to: Path, size: int, env: Env)
    requires Valid(s) && Valid(t) && CacheAdded(s, t)
    requires InFiles(p) && TrashEntry(to)
    requires HasPath(t.rows, p) && !HasPath(t.rows, to) && IsDirAt(t.rows, TRASH)
    ensures var w := TrashMove(t, p, to, size, env);
      && Valid(w) && Evolves(s, w) && w.rows.Keys == t.rows.Keys
      && Stamped(s.nextEtag, w.rows, p) && Stamped(s.nextEtag, w.rows, to)
      && forall id :: id in t.rows ==> w.rows[id].path == Rebase(t.rows[id].path, p, to)
  {
    var u := RekeyToTrash(t, p, to, env);
    assert !Above(p, to) by { assert p[0] != to[0]; }
    RekeyToTrashMoves(t, p, to, env);
    MoveKeepsShape(t, u, p, to);
    EditAfterCache(s, t, u, p, to);
    var s1 := ChainOn(u, to);
    ChainQuiet(u, to, p, to);
    var s3 := TrashTouched(s1, p, to, env);
    TrashTouchedQuiet(s1, p, to, env);
    QuietTransitive(u, s1, s3, p, to);
    var w := Prop(s3, p, env.now, Shrink(size), env);
    PropQuiet(s3, p, env.now, Shrink(size), env, p, to);
    QuietTransitive(u, s3, w, p, to);
    QuietStamped(s.nextEtag, s3, w, p, to, to);
    EditThenQuiet(s, u, w, p, to);
    forall id | id in t.rows
      ensures w.rows[id].path == Rebase(t.rows[id].path, p, to)
    {
      MovedPath(t, u, p, to, id);
    }
  }

  // ── Sizes ──────────────────────────────────────────────────────────────────

  /** The state of the sizes between the recomputed chain of the trash entry and
      the delta sent to the old ancestors: only the old parent is off, by what left. */
  lemma TrashChainSizes(t: Store, u: Store, p: Path, to: Path)
    requires Valid(t) && Exact(t.rows) && Moves(t, u, p, to)
    requires InFiles(p) && TrashEntry(to)
    requires Valid(u)
    ensures HasPath(t.rows, Parent(p)) && HasPath(u.rows, Parent(p)) && IdAt(u.rows, Parent(p)) == IdAt(t.rows, Parent(p))
    ensures var a := IdAt(t.rows, Parent(p));
      var x := Chain(u.rows, to);
      && x.Keys == u.rows.Keys
      && (forall id :: id in x && x[id].isDir && id != a ==> ExactAt(x, id))
      && ExactOff(x, p)
      && x[a] == u.rows[a]
      && ChildSum(x, a) == ChildSum(u.rows, a)
      && (HasUnscanned(x, a) <==> HasUnscanned(u.rows, a))
  {
    ParentExists(t, p);
    MoveIsClear(t, u, p, to);
    MoveKeepsShape(t, u, p, to);
    AboveParent(p);
    var a, b := IdAt(t.rows, Parent(p)), IdAt(t.rows, Parent(to));
    var x := Chain(u.rows, to);
    ChainFrame(u.rows, to);
    assert Parent(p)[0] != to[0];
    forall id | id in x && x[id].isDir && id != a
      ensures ExactAt(x, id)
    {
      ChainExactIff(u.rows, to, id);
      MoveSizes(t, u, p, to, id);
      assert ExactAt(t.rows, id);
      if id == b {
        AboveParent(to);
      } else {
        MoveExactElsewhere(t, u, p, to, id);
      }
    }
    SameShapeChildren(u.rows, x, a);
    forall c | c in Children(u.rows, a)
      ensures x[c].size == u.rows[c].size
    {
      ChildByPath(u.rows, a, c);
      assert u.rows[c].path[0] == "files";
    }
    ExpectedSame(u.rows, x, a);
    assert Above(x[a].path, p);
  }

  /** At the trash end the moved bytes are due on every ancestor. */
  lemma TrashReady(t: Store, u: Store, p: Path, to: Path)
    requires Valid(t) && Exact(t.rows) && Moves(t, u, p, to) && Valid(u)
    requires InFiles(p) && TrashEntry(to)
    requires t.rows[IdAt(t.rows, p)].size >= 0
    ensures DeltaReady(u.rows, to, t.rows[IdAt(t.rows, p)].size)
  {
    var m, b := IdAt(t.rows, p), IdAt(t.rows, Parent(to));
    ParentExists(t, p);
    MoveIsClear(t, u, p, to);
    MoveKeepsShape(t, u, p, to);
    assert Parent(p)[0] != to[0];
    MoveChildren(t, u, p, to, b);
    MoveSizes(t, u, p, to, b);
    MoveSizes(t, u, p, to, m);
    forall c | c in Children(t.rows, b)
      ensures u.rows[c].size == t.rows[c].size
    {
      MoveSizes(t, u, p, to, c);
    }
    assert ExactAt(t.rows, b);
    GainChild(t.rows, u.rows, b, m);
    ExactUnscanned(t.rows, b);
    forall id | id in u.rows && Above(u.rows[id].path, Parent(to))
      ensures ExactAt(u.rows, id)
    {
      AncestorsExist(u.rows, b, u.rows[id].path);
      assert At(u.rows, id, u.rows[id].path);
      MoveSizes(t, u, p, to, id);
      assert ExactAt(t.rows, id);
      assert id != IdAt(t.rows, Parent(p)) && id != b;
      MoveExactElsewhere(t, u, p, to, id);
    }
  }

  /** At the old end the moved bytes are due, negated, once the trash chain is done. */
  lemma TrashReadyBelow(t: Store, u: Store, p: Path, to: Path)
    requires Valid(t) && Exact(t.rows) && Moves(t, u, p, to) && Valid(u)
    requires InFiles(p) && TrashEntry(to)
    requires t.rows[IdAt(t.rows, p)].size >= 0
    ensures DeltaReady(Chain(u.rows, to), p, -t.rows[IdAt(t.rows, p)].size)
  {
    var x := Chain(u.rows, to);
    ParentExists(t, p);
    assert Parent(p)[0] != to[0];
    MoveAtParents(t, u, p, to);
    TrashChainSizes(t, u, p, to);
    var a := IdAt(t.rows, Parent(p));
    MoveSizes(t, u, p, to, a);
    ChainFrame(u.rows, to);
    assert At(x, a, Parent(p));
    forall id | id in x && Above(x[id].path, Parent(p))
      ensures ExactAt(x, id)
    {
      AncestorsExist(x, a, x[id].path);
      assert At(x, id, x[id].path);
    }
  }

  /** After the trash chain, the delta for the old ancestors is the only thing
      that still changes sizes. */
  lemma TrashTail(x: Store, p: Path, to: Path, size: int, env: Env)
    requires Valid(x) && p != [] && to != [] && size >= 0
    requires DeltaReady(x.rows, p, -size)
    ensures var w := Prop(TrashTouched(x, p, to, env), p, env.now, -size, env).rows;
      && w.Keys == x.rows.Keys
      && (ExactOff(x.rows, p) ==> Exact(w))
      && forall id :: id in x.rows ==>
           w[id].size == if Above(x.rows[id].path, p) && x.rows[id].size != -1 then x.rows[id].size - size
                         else x.rows[id].size
  {
    hide DeltaReady, TrashTouched, ExactOff, Exact, Valid;
    var x3 := TrashTouched(x, p, to, env);
    TrashTouchedQuiet(x, p, to, env);
    var w := Prop(x3, p, env.now, -size, env);
    SameSizesReady(x.rows, x3.rows, p, -size);
    if ExactOff(x.rows, p) {
      SameSizesExactOff(x.rows, x3.rows, p);
      DeltaFinish(x3, p, env.now, -size, env);
    }
    forall id | id in x.rows
      ensures id in w.rows
      ensures w.rows[id].size == if Above(x.rows[id].path, p) && x.rows[id].size != -1 then x.rows[id].size - size
                                 else x.rows[id].size
    {
      PropSize(x3, p, -size, env, id);
    }
  }

  lemma TrashTailUnscanned(x: Store, p: Path, to: Path, env: Env)
    requires Valid(x) && p != [] && to != []
    ensures Exact(Prop(TrashTouched(x, p, to, env), p, env.now, 0, env).rows) <==> Exact(x.rows)
  {
    var x3 := TrashTouched(x, p, to, env);
    TrashTouchedQuiet(x, p, to, env);
    var w := Prop(x3, p, env.now, 0, env);
    PropZeroSizes(x3, p, env.now, env);
    SameSizesTransitive(x.rows, x3.rows, w.rows);
    SameSizesExact(x.rows, w.rows);
  }

  lemma TrashUnscanned(t: Store, u: Store, x: Store, p: Path, to: Path)
    requires Valid(t) && Exact(t.rows) && Moves(t, u, p, to) && Valid(u) && x == ChainOn(u, to)
    requires InFiles(p) && TrashEntry(to)
    requires t.rows[IdAt(t.rows, p)].size == -1
    ensures Exact(x.rows) <==> NotLastUnscanned(t.rows, IdAt(t.rows, p))
  {
    ParentExists(t, p);
    var m, a := IdAt(t.rows, p), IdAt(t.rows, Parent(p));
    assert Parent(p)[0] != to[0];
    MoveAtParents(t, u, p, to);
    TrashChainSizes(t, u, p, to);
    assert ExactAt(t.rows, a);
    assert m in Children(t.rows, a);
    ChainFrame(u.rows, to);
    MoveSizes(t, u, p, to, a);
    assert ExactAt(x.rows, a) <==> ExactAt(u.rows, a);
  }

  /** The rows of a trashed node, moved. */
  lemma TrashRows(t: Store, p: Path, to: Path, env: Env)
    requires Valid(t) && InFiles(p) && TrashEntry(to)
    requires HasPath(t.rows, p) && !HasPath(t.rows, to) && IsDirAt(t.rows, TRASH)
    ensures var u := RekeyToTrash(t, p, to, env);
      Moves(t, u, p, to) && Valid(u) && Valid(ChainOn(u, to))
  {
    var u := RekeyToTrash(t, p, to, env);
    assert !Above(p, to) by { assert p[0] != to[0]; }
    RekeyToTrashMoves(t, p, to, env);
    MoveKeepsShape(t, u, p, to);
    ChainQuiet(u, to, p, to);
  }

  lemma TrashScannedExact(t: Store, p: Path, to: Path, env: Env)
    requires Valid(t) && Exact(t.rows) && InFiles(p) && TrashEntry(to)
    requires HasPath(t.rows, p) && !HasPath(t.rows, to) && IsDirAt(t.rows, TRASH)
    requires t.rows[IdAt(t.rows, p)].size >= 0
    ensures Exact(TrashMove(t, p, to, t.rows[IdAt(t.rows, p)].size, env).rows)
  {
    hide Exact, ExactOff, Moves, DeltaReady, TrashTouched, Prop, Valid, RekeyToTrash, Chain;
    var size := t.rows[IdAt(t.rows, p)].size;
    var u := RekeyToTrash(t, p, to, env);
    TrashRows(t, p, to, env);
    TrashReadyBelow(t, u, p, to);
    TrashChainSizes(t, u, p, to);
    TrashTail(ChainOn(u, to), p, to, size, env);
    assert Shrink(size) == -size;
  }

  /** Trashing keeps sizes exact unless it takes the last unscanned entry of a folder. */
  lemma TrashMoveExact(t: Store, p: Path, to: Path, env: Env)
    requires Valid(t) && Exact(t.rows) && InFiles(p) && TrashEntry(to)
    requires HasPath(t.rows, p) && !HasPath(t.rows, to) && IsDirAt(t.rows, TRASH)
    ensures var m := IdAt(t.rows, p);
      Exact(TrashMove(t, p, to, t.rows[m].size, env).rows) <==> NotLastUnscanned(t.rows, m)
  {
    var size := t.rows[IdAt(t.rows, p)].size;
    assert size >= -1;
    if size >= 0 {
      TrashScannedExact(t, p, to, env);
    } else {
      var u := RekeyToTrash(t, p, to, env);
      TrashRows(t, p, to, env);
      var x := ChainOn(u, to);
      TrashUnscanned(t, u, x, p, to);
      TrashTailUnscanned(x, p, to, env);
    }
  }

  /** What moves between the folders of the tree once the trash bin is prepared. */
  lemma TrashMoveConserves(t: Store, p: Path, to: Path, env: Env, id: int)
    requires Valid(t) && Exact(t.rows) && InFiles(p) && TrashEntry(to)
    requires HasPath(t.rows, p) && !HasPath(t.rows, to) && IsDirAt(t.rows, TRASH)
    requires t.rows[IdAt(t.rows, p)].size >= 0
    requires id in t.rows && !AtOrBelow(t.rows[id].path, p)
    ensures var size := t.rows[IdAt(t.rows, p)].size;
      var mid := ChainOn(RekeyToTrash(t, p, to, env), to).rows;
      var end := TrashMove(t, p, to, size, env).rows;
      var q := t.rows[id].path;
      var before := t.rows[id].size;
      && id in mid && id in end
      && (q == [] && before != -1 ==> mid[id].size == before + size && end[id].size == before)
      && (q != [] && Above(q, p) && before != -1 ==> end[id].size == before - size)
      && (q != [] && Above(q, to) && before != -1 ==> end[id].size == before + size)
      && (before == -1 || (!Above(q, p) && !Above(q, to)) ==> end[id].size == before)
  {
    hide Exact, ExactOff, Moves, DeltaReady, TrashTouched, Prop, RekeyToTrash, Chain, Above, AtOrBelow;
    hide Shaped, HasPath, IsDirAt, TrashIsFolder;
    assert t.rows[id].size >= -1;
    OnlyRootAboveBoth(t.rows[id].path, p, to);
    var size := t.rows[IdAt(t.rows, p)].size;
    var u := RekeyToTrash(t, p, to, env);
    TrashRows(t, p, to, env);
    MovedPath(t, u, p, to, id);
    MoveSizes(t, u, p, to, id);
    TrashReady(t, u, p, to);
    ChainDelta(u.rows, to, size, id);
    TrashReadyBelow(t, u, p, to);
    TrashTail(ChainOn(u, to), p, to, size, env);
  }

  lemma OnlyRootAboveBoth(q: Path, p: Path, to: Path)
    requires InFiles(p) && TrashEntry(to)
    ensures Above(q, p) && Above(q, to) <==> q == []
  {
    assert p[0] != to[0];
  }

  /** The last two stamps once the trash bin is prepared. */
  lemma TrashMoveStamps(t: Store, p: Path, to: Path, size: int, env: Env, id: int)
    requires Valid(t) && InFiles(p) && TrashEntry(to)
    requires HasPath(t.rows, p) && !HasPath(t.rows, to) && IsDirAt(t.rows, TRASH)
    requires id in t.rows && !AtOrBelow(t.rows[id].path, p)
    ensures var w := TrashMove(t, p, to, size, env);
      && id in w.rows
      && w.nextEtag == t.nextEtag + 2
      && (Above(t.rows[id].path, p) ==> w.rows[id].etag == t.nextEtag + 1)
      && (Above(t.rows[id].path, to) && t.rows[id].path != [] ==> w.rows[id].etag == t.nextEtag)
      && (!Above(t.rows[id].path, p) && !Above(t.rows[id].path, to) ==> w.rows[id].etag == t.rows[id].etag)
  {
    hide Moves, Valid, Shaped, TrashTouched, Prop, Chain;
    var u := RekeyToTrash(t, p, to, env);
    TrashRows(t, p, to, env);
    MovedPath(t, u, p, to, id);
    MovedEtag(t, u, p, to, id);
    ChainKeepsEtag(u, to, id);
    var x := ChainOn(u, to);
    var x3 := TrashTouched(x, p, to, env);
    TrashTouchedStamp(x, p, to, env, id);
    PropStamp(x3, p, env.now, Shrink(size), env, id);
    assert p[0] != to[0];
  }

  lemma MovedEtag(t: Store, u: Store, p: Path, to: Path, id: int)
    requires Valid(t) && Moves(t, u, p, to) && id in t.rows
    ensures u.nextEtag == t.nextEtag && u.rows[id].etag == t.rows[id].etag
  {
    assert MovedRow(t, u.rows[id], t.rows[id], p, to);
  }

  lemma ChainKeepsEtag(u: Store, to: Path, id: int)
    requires Valid(u) && id in u.rows
    ensures var x := ChainOn(u, to);
      id in x.rows && x.nextEtag == u.nextEtag && x.rows[id].etag == u.rows[id].etag && x.rows[id].path == u.rows[id].path
  {
    ChainFrame(u.rows, to);
  }

  lemma PropStamp(x: Store, p: Path, time: int, delta: int, env: Env, id: int)
    requires id in x.rows
    ensures var w := Prop(x, p, time, delta, env);
      && id in w.rows && w.nextEtag == x.nextEtag + 1 && w.rows[id].path == x.rows[id].path
      && w.rows[id].etag == if Above(x.rows[id].path, p) then x.nextEtag else x.rows[id].etag
  {
  }

  lemma TrashTouchedStamp(x: Store, p: Path, to: Path, env: Env, id: int)
    requires id in x.rows && p != [] && to != []
    ensures var w := TrashTouched(x, p, to, env);
      && id in w.rows && w.nextEtag == x.nextEtag + 1 && w.rows[id].path == x.rows[id].path
      && w.rows[id].etag == if Above(x.rows[id].path, to) then x.nextEtag else x.rows[id].etag
  {
  }

  // ── The whole request ──────────────────────────────────────────────────────

  /** The prepared trash bin leaves the trashed row and its folder alone. */
  lemma SkeletonSiblings(s: Store, t: Store, p: Path)
    requires Valid(s) && Valid(t) && InFiles(p) && HasPath(s.rows, p)
    requires forall id :: id in s.rows ==>
               && id in t.rows && t.rows[id].path == s.rows[id].path
               && t.rows[id].parent == s.rows[id].parent && t.rows[id].size == s.rows[id].size
    requires forall id :: id in t.rows && id !in s.rows ==> |t.rows[id].path| >= 1 && t.rows[id].path[0] != "files"
    ensures HasPath(t.rows, p) && IdAt(t.rows, p) == IdAt(s.rows, p)
    ensures NotLastUnscanned(s.rows, IdAt(s.rows, p)) <==> NotLastUnscanned(t.rows, IdAt(s.rows, p))
  {
    var id := IdAt(s.rows, p);
    var a := s.rows[id].parent;
    assert At(t.rows, id, p) && At(t.rows, IdAt(t.rows, p), p);
    assert Linked(s.rows, id);
    forall c | c in t.rows && t.rows[c].parent == a
      ensures c in s.rows
    {
      ChildByPath(t.rows, a, c);
      assert t.rows[c].path[0] == "files";
    }
    if OtherUnscanned(s.rows, a, id) {
      var c :| c in Children(s.rows, a) && c != id && s.rows[c].size == -1;
      assert c in Children(t.rows, a) && t.rows[c].size == -1;
    }
    if OtherUnscanned(t.rows, a, id) {
      var c :| c in Children(t.rows, a) && c != id && t.rows[c].size == -1;
      assert c in Children(s.rows, a) && s.rows[c].size == -1;
    }
  }

  lemma TrashPrepared(s: Store, p: Path, stamp: nat, env: Env)
    requires Valid(s) && InFiles(p) && HasPath(s.rows, p) && CanEnsure(s.rows, TRASH)
    requires !HasPath(s.rows, TrashPath(Last(p), stamp))
    ensures var s3 := TrashSkeleton(s, env);
      var t := CacheRow(s3, stamp);
      && Keeps(s, s3) && TrashOnly(s, s3) && CacheAdded(s3, t) && Valid(t)
      && (Exact(s.rows) ==> Exact(t.rows))
      && HasPath(t.rows, p) && IdAt(t.rows, p) == IdAt(s.rows, p)
      && t.rows[IdAt(s.rows, p)].size == s.rows[IdAt(s.rows, p)].size
      && !HasPath(t.rows, TrashPath(Last(p), stamp)) && IsDirAt(t.rows, TRASH)
      && (NotLastUnscanned(s.rows, IdAt(s.rows, p)) <==> NotLastUnscanned(t.rows, IdAt(s.rows, p)))
  {
    var s3 := TrashSkeleton(s, env);
    SkeletonKeeps(s, env);
    var t := CacheRow(s3, stamp);
    CacheRowAdds(s3, stamp);
    forall id | id in t.rows && id !in s.rows
      ensures 1 <= |t.rows[id].path| <= 2 && t.rows[id].path[0] != "files"
    {
      if id in s3.rows {
        assert IsSkeleton(s3.rows[id]);
      }
    }
    SkeletonSiblings(s, t, p);
    var to := TrashPath(Last(p), stamp);
    if HasPath(t.rows, to) {
      assert At(s.rows, IdAt(t.rows, to), to);
    }
    SkeletonMakesTrash(s, env);
    assert At(t.rows, IdAt(s3.rows, TRASH), TRASH);
  }

  lemma TrashDone(s: Store, p: Path, stamp: nat, env: Env)
    requires Valid(s) && InFiles(p) && TrashAllowed(s.rows, p, TrashPath(Last(p), stamp))
    ensures var to := TrashPath(Last(p), stamp);
      var w := Trash(s, p, stamp, env).store;
      && Valid(w) && Evolves(s, w)
      && Stamped(s.nextEtag, w.rows, p) && Stamped(s.nextEtag, w.rows, to)
      && forall id :: id in s.rows ==> id in w.rows && w.rows[id].path == Rebase(s.rows[id].path, p, to)
  {
    hide Evolves, Exact, Valid, TrashMove, TrashSkeleton, CacheRow, NotLastUnscanned, Rebase, AtOrBelow, Above;
    hide CanEnsure, HasPath, IsDirAt;
    var to := TrashPath(Last(p), stamp);
    TrashPrepared(s, p, stamp, env);
    var s3 := TrashSkeleton(s, env);
    var t := CacheRow(s3, stamp);
    var size := s.rows[IdAt(s.rows, p)].size;
    TrashMoveKeeps(s3, t, p, to, size, env);
    EvolvesTransitive(s, s3, TrashMove(t, p, to, size, env));
  }

  /** Delete-to-trash keeps shape and history, loses no row, and moves the subtree
      with its fileids. */
  lemma TrashKeeps(s: Store, p: Path, stamp: nat, env: Env)
    requires Valid(s) && InFiles(p)
    ensures var to := TrashPath(Last(p), stamp);
      var w := Trash(s, p, stamp, env);
      && Valid(w.store) && Evolves(s, w.store)
      && (w.outcome == Done <==> TrashAllowed(s.rows, p, to))
      && (w.outcome == Refused ==> w.store == s)
      && (w.outcome == Done ==> Stamped(s.nextEtag, w.store.rows, p) && Stamped(s.nextEtag, w.store.rows, to))
      && (w.outcome == Done ==>
            forall id :: id in s.rows ==>
              id in w.store.rows && w.store.rows[id].path == Rebase(s.rows[id].path, p, to))
  {
    KeepsReflexive(s);
    hide Evolves, Exact, Valid, TrashMove, TrashSkeleton, CacheRow, Rebase, TrashAllowed;
    if TrashAllowed(s.rows, p, TrashPath(Last(p), stamp)) {
      TrashDone(s, p, stamp, env);
    }
  }

  /** Trashing keeps sizes exact unless it takes the last unscanned entry of a folder. */
  lemma TrashExact(s: Store, p: Path, stamp: nat, env: Env)
    requires Valid(s) && InFiles(p) && Exact(s.rows)
    ensures var w := Trash(s, p, stamp, env);
      Exact(w.store.rows) <==> !TrashAllowed(s.rows, p, TrashPath(Last(p), stamp)) || SafeTarget(s.rows, p)
  {
    var to := TrashPath(Last(p), stamp);
    if TrashAllowed(s.rows, p, to) {
      TrashPrepared(s, p, stamp, env);
      TrashMoveExact(CacheRow(TrashSkeleton(s, env), stamp), p, to, env);
    }
  }

  /** The table between the two repairs of a trashing. */
  ghost function TrashHalfway(s: Store, p: Path, stamp: nat, env: Env): Table
    requires p != []
  {
    var to := TrashPath(Last(p), stamp);
    ChainOn(RekeyToTrash(CacheRow(TrashSkeleton(s, env), stamp), p, to, env), to).rows
  }

  /** Trash conservation.  On an exact tree, trashing a scanned node of `size` bytes
      lowers every scanned ancestor below the root by `size`, raises every scanned
      trash ancestor by `size`, and leaves the root's total as it was, although
      between the two repairs the root is too large by `size`. */
  lemma TrashConserves(s: Store, p: Path, stamp: nat, env: Env, id: int)
    requires Valid(s) && Exact(s.rows) && InFiles(p)
    requires TrashAllowed(s.rows, p, TrashPath(Last(p), stamp)) && s.rows[IdAt(s.rows, p)].size >= 0
    requires id in s.rows && !AtOrBelow(s.rows[id].path, p)
    ensures var to := TrashPath(Last(p), stamp);
      var size := s.rows[IdAt(s.rows, p)].size;
      var mid, end := TrashHalfway(s, p, stamp, env), Trash(s, p, stamp, env).store.rows;
      var q, before := s.rows[id].path, s.rows[id].size;
      && id in mid && id in end
      && (q == [] && before != -1 ==> mid[id].size == before + size && end[id].size == before)
      && (q != [] && Above(q, p) && before != -1 ==> end[id].size == before - size)
      && (q != [] && Above(q, to) && before != -1 ==> end[id].size == before + size)
      && (before == -1 || (!Above(q, p) && !Above(q, to)) ==> end[id].size == before)
  {
    hide Valid, Exact, TrashMove, TrashSkeleton, CacheRow, NotLastUnscanned, Rebase, AtOrBelow, Above;
    hide CanEnsure, HasPath, IsDirAt, Evolves, RekeyToTrash, Chain;
    TrashPrepared(s, p, stamp, env);
    TrashMoveConserves(CacheRow(TrashSkeleton(s, env), stamp), p, TrashPath(Last(p), stamp), env, id);
  }

  /** The last writers: the root and all source ancestors end with one shared etag,
      `files_trashbin` and `files_trashbin/files` with another, both new, and no
      other row that was there before and did not move has its etag changed. */
  lemma TrashStamps(s: Store, p: Path, stamp: nat, env: Env, id: int)
    requires Valid(s) && InFiles(p) && TrashAllowed(s.rows, p, TrashPath(Last(p), stamp))
    requires var w := Trash(s, p, stamp, env).store.rows;
      id in w && !AtOrBelow(w[id].path, TrashPath(Last(p), stamp))
    ensures var w := Trash(s, p, stamp, env).store;
      var q := w.rows[id].path;
      && w.nextEtag >= s.nextEtag + 2
      && (Above(q, p) ==> w.rows[id].etag == w.nextEtag - 1)
      && (q in {["files_trashbin"], TRASH} ==> w.rows[id].etag == w.nextEtag - 2)
      && (id in s.rows && !Above(q, p) && q !in {["files_trashbin"], TRASH} ==> w.rows[id].etag == s.rows[id].etag)
  {
    hide Valid, Exact, TrashMove, TrashSkeleton, CacheRow, NotLastUnscanned;
    hide CanEnsure, HasPath, IsDirAt, RekeyToTrash, Chain;
    var to := TrashPath(Last(p), stamp);
    TrashPrepared(s, p, stamp, env);
    var s3 := TrashSkeleton(s, env);
    var t := CacheRow(s3, stamp);
    var size := s.rows[IdAt(s.rows, p)].size;
    TrashMoveKeeps(s3, t, p, to, size, env);
    if AtOrBelow(t.rows[id].path, p) {
      RebaseShape(t.rows[id].path, p, to);
    }
    TrashMoveStamps(t, p, to, size, env, id);
    TrashAncestors(t.rows[id].path, p, to);
  }

  /** The trash entry's ancestors below the root are the two trash folders. */
  lemma TrashAncestors(q: Path, p: Path, to: Path)
    requires InFiles(p) && TrashEntry(to)
    ensures q in {["files_trashbin"], TRASH} <==> q != [] && Above(q, to)
    ensures q == [] ==> Above(q, p)
    ensures Above(q, TRASH) ==> q == [] || q == ["files_trashbin"]
  {
    assert to[..2] == TRASH;
    assert to[..1] == TRASH[..1] == ["files_trashbin"];
    if Above(q, to) {
      assert q == to[..|q|];
    }
    if Above(q, TRASH) {
      assert q == TRASH[..|q|];
    }
  }
}
