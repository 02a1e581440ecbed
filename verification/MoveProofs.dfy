/** MOVE and delete-to-trash: whole subtrees change place. */
module MoveProofs {
  import opened Paths
  import opened Tree
  import opened Propagation
  import opened Stores
  import opened Statements
  import opened RowEdits
  import opened Operations
  import opened OperationProofs
  import opened RequestProofs

  // ── MOVE ───────────────────────────────────────────────────────────────────

  lemma RekeyInPlace(s: Store, p: Path)
    requires Valid(s) && p != [] && HasPath(s.rows, p)
    ensures Rekey(s, p, p) == s
  {
    ParentExists(s, p);
    forall id | id in s.rows
      ensures Rekey(s, p, p).rows[id] == s.rows[id]
    {
      assert At(s.rows, id, s.rows[id].path);
      assert Linked(s.rows, id);
      assert Rebase(s.rows[id].path, p, p) == s.rows[id].path;
    }
    assert Rekey(s, p, p).rows == s.rows;
  }

  lemma RekeyMoves(s: Store, from: Path, to: Path)
    requires Valid(s) && InFiles(from) && InFiles(to) && from != to && MoveAllowed(s.rows, from, to)
    ensures Moves(s, Rekey(s, from, to), from, to)
  {
  }

  /** The rows of an allowed move, before any repair. */
  lemma MoveRows(s: Store, from: Path, to: Path)
    requires Valid(s) && InFiles(from) && InFiles(to) && MoveAllowed(s.rows, from, to)
    ensures var u := Rekey(s, from, to);
      && Valid(u) && EditBody(s, u, from, to)
      && u.nextEtag == s.nextEtag && u.rows.Keys == s.rows.Keys
      && forall id :: id in s.rows ==> u.rows[id].path == Rebase(s.rows[id].path, from, to)
  {
    if from == to {
      RekeyInPlace(s, from);
      NothingIsEdit(s, from);
      forall q: Path
        ensures Rebase(q, from, from) == q
      {
      }
    } else {
      RekeyMoves(s, from, to);
      MoveKeepsShape(s, Rekey(s, from, to), from, to);
      forall id | id in s.rows
        ensures Rekey(s, from, to).rows[id].path == Rebase(s.rows[id].path, from, to)
      {
        MovedPath(s, Rekey(s, from, to), from, to, id);
      }
    }
  }

  lemma MoveTouchedQuiet(u: Store, from: Path, to: Path, env: Env)
    requires Valid(u) && InFiles(from) && InFiles(to)
    ensures var w := MoveTouched(u, from, to, env);
      && Valid(w) && Quiet(u, w, from, to) && SameSizes(u.rows, w.rows)
      && Stamped(u.nextEtag, w.rows, from) && Stamped(u.nextEtag, w.rows, to)
  {
    AboveParent(from);
    AboveParent(to);
    var u1 := Touch(u, Parent(from), env);
    TouchQuiet(u, Parent(from), env, from, to);
    var u2 := Touch(u1, Parent(to), env);
    TouchQuiet(u1, Parent(to), env, from, to);
    QuietTransitive(u, u1, u2, from, to);
    var u3 := Prop(u2, from, env.now, 0, env);
    PropQuiet(u2, from, env.now, 0, env, from, to);
    QuietTransitive(u, u2, u3, from, to);
    PropZeroSizes(u2, from, env.now, env);
    var u4 := Prop(u3, to, env.now, 0, env);
    PropQuiet(u3, to, env.now, 0, env, from, to);
    QuietTransitive(u, u3, u4, from, to);
    QuietStamped(u.nextEtag, u3, u4, from, to, from);
    PropZeroSizes(u3, to, env.now, env);
    SameSizesTransitive(u.rows, u1.rows, u2.rows);
    SameSizesTransitive(u.rows, u2.rows, u3.rows);
    SameSizesTransitive(u.rows, u3.rows, u4.rows);
  }

  lemma MoveChainsQuiet(u: Store, from: Path, to: Path)
    requires Valid(u) && InFiles(from) && InFiles(to)
    ensures var w := MoveChains(u, from, to);
      && Valid(w) && Quiet(u, w, from, to)
      && forall id :: id in u.rows ==>
           (ExactAt(w.rows, id) <==>
              Above(u.rows[id].path, Parent(from)) || Above(u.rows[id].path, Parent(to)) || ExactAt(u.rows, id))
  {
    var p, q := Parent(from), Parent(to);
    AboveParent(from);
    AboveParent(to);
    var u1 := if p != q then ChainOn(u, p) else u;
    if p != q {
      ChainQuiet(u, p, from, to);
    } else {
      QuietReflexive(u, from, to);
    }
    var w := ChainOn(u1, q);
    ChainQuiet(u1, q, from, to);
    QuietTransitive(u, u1, w, from, to);
    forall id | id in u.rows
      ensures ExactAt(w.rows, id) <==>
                Above(u.rows[id].path, p) || Above(u.rows[id].path, q) || ExactAt(u.rows, id)
    {
      ChainExactIff(u.rows, p, id);
      ChainExactIff(u1.rows, q, id);
    }
  }

  lemma ShadowExactIff(s: Store, p: Path, env: Env, id: int)
    requires Valid(s) && id in s.rows
    ensures ShadowChain(s, p, env).rows.Keys == s.rows.Keys
    ensures ExactAt(ShadowChain(s, p, env).rows, id) <==>
              Above(s.rows[id].path, ShadowPath("files_versions", p)) || ExactAt(s.rows, id)
  {
    var v := ShadowPath("files_versions", p);
    var u := Prop(s, v, env.now, 0, env);
    PropQuiet(s, v, env.now, 0, env, v, v);
    PropZeroSizes(s, v, env.now, env);
    SameSizesExactAt(s.rows, u.rows, id);
    ChainExactIff(u.rows, v, id);
  }

  /** An allowed move keeps shape and history, keeps every fileid of the subtree,
      and puts each row where its path says. */
  lemma MoveKeeps(s: Store, from: Path, to: Path, env: Env)
    requires Valid(s) && InFiles(from) && InFiles(to)
    ensures var w := Move(s, from, to, env);
      && Valid(w.store) && Evolves(s, w.store)
      && (w.outcome == Done <==> MoveAllowed(s.rows, from, to))
      && (w.outcome == Done ==> Stamped(s.nextEtag, w.store.rows, from) && Stamped(s.nextEtag, w.store.rows, to))
      && w.store.rows.Keys == s.rows.Keys
      && (w.outcome == Done ==>
            forall id :: id in s.rows ==> w.store.rows[id].path == Rebase(s.rows[id].path, from, to))
  {
    KeepsReflexive(s);
    if MoveAllowed(s.rows, from, to) {
      var u := Rekey(s, from, to);
      MoveRows(s, from, to);
      var u1 := MoveTouched(u, from, to, env);
      MoveTouchedQuiet(u, from, to, env);
      var u2 := MoveChains(u1, from, to);
      MoveChainsQuiet(u1, from, to);
      QuietTransitive(u, u1, u2, from, to);
      QuietStamped(s.nextEtag, u1, u2, from, to, from);
      QuietStamped(s.nextEtag, u1, u2, from, to, to);
      EditThenQuiet(s, u, u2, from, to);
      ShadowKeeps(u2, to, env);
      EvolvesTransitive(s, u2, ShadowChain(u2, to, env));
      var v := ShadowPath("files_versions", to);
      QuietStamped(s.nextEtag, u2, ShadowChain(u2, to, env), v, v, from);
      QuietStamped(s.nextEtag, u2, ShadowChain(u2, to, env), v, v, to);
    }
  }

  /** After an allowed move, a folder is exact when it was before the repair or
      one of the three chains passes through it. */
  lemma MoveExactIff(s: Store, from: Path, to: Path, env: Env, id: int)
    requires Valid(s) && InFiles(from) && InFiles(to) && MoveAllowed(s.rows, from, to) && id in s.rows
    ensures var u, w := Rekey(s, from, to), Move(s, from, to, env).store;
      && id in u.rows && id in w.rows
      && w.rows[id].isDir == u.rows[id].isDir == s.rows[id].isDir
      && w.rows[id].path == u.rows[id].path
      && (ExactAt(w.rows, id) <==>
            || Above(u.rows[id].path, Parent(from)) || Above(u.rows[id].path, Parent(to))
            || Above(u.rows[id].path, ShadowPath("files_versions", to)) || ExactAt(u.rows, id))
  {
    var u := Rekey(s, from, to);
    MoveRows(s, from, to);
    var u1 := MoveTouched(u, from, to, env);
    MoveTouchedQuiet(u, from, to, env);
    SameSizesExactAt(u.rows, u1.rows, id);
    var u2 := MoveChains(u1, from, to);
    MoveChainsQuiet(u1, from, to);
    ShadowExactIff(u2, to, env, id);
    ShadowKeeps(u2, to, env);
  }

  /** The guard a caller could check: a move to another folder leaves sizes right
      when each direct parent is either passed by one of the chains or insensitive
      to what came or went. */
  ghost predicate SafeMove(t: Table, from: Path, to: Path)
    requires InFiles(from) && InFiles(to) && MoveAllowed(t, from, to)
    requires HasPath(t, Parent(from))
  {
    var p, q := Parent(from), Parent(to);
    var m, a, b := IdAt(t, from), IdAt(t, p), IdAt(t, q);
    p == q ||
    (&& (Above(p, q) || t[m].size == 0 || (t[a].size == -1 && OtherUnscanned(t, a, m)))
     && (Above(q, p) || t[m].size == 0 || t[b].size == -1))
  }

  lemma MoveElsewhere(s: Store, from: Path, to: Path, env: Env, id: int)
    requires Valid(s) && Exact(s.rows) && InFiles(from) && InFiles(to) && MoveAllowed(s.rows, from, to)
    requires id in s.rows && s.rows[id].isDir
    requires HasPath(s.rows, Parent(from))
    requires Parent(from) == Parent(to) || (id != IdAt(s.rows, Parent(from)) && id != IdAt(s.rows, Parent(to)))
    ensures id in Move(s, from, to, env).store.rows && ExactAt(Move(s, from, to, env).store.rows, id)
  {
    MoveExactIff(s, from, to, env, id);
    assert ExactAt(s.rows, id);
    if from == to {
      RekeyInPlace(s, from);
    } else {
      ParentExists(s, from);
      RekeyMoves(s, from, to);
      MoveExactElsewhere(s, Rekey(s, from, to), from, to, id);
    }
  }

  /** The two direct parents of a move to another folder. */
  lemma MoveEnds(s: Store, from: Path, to: Path, env: Env)
    requires Valid(s) && Exact(s.rows) && InFiles(from) && InFiles(to) && MoveAllowed(s.rows, from, to)
    requires Parent(from) != Parent(to)
    ensures HasPath(s.rows, Parent(from))
    ensures var w := Move(s, from, to, env).store;
      var a, b := IdAt(s.rows, Parent(from)), IdAt(s.rows, Parent(to));
      && a in w.rows && w.rows[a].path == Parent(from) && w.rows[a].isDir
      && b in w.rows && w.rows[b].path == Parent(to) && w.rows[b].isDir
      && (ExactAt(w.rows, a) && ExactAt(w.rows, b) <==> SafeMove(s.rows, from, to))
  {
    var u := Rekey(s, from, to);
    ParentExists(s, from);
    RekeyMoves(s, from, to);
    MoveIsClear(s, u, from, to);
    MoveAtParents(s, u, from, to);
    AboveParent(from);
    var a, b := IdAt(s.rows, Parent(from)), IdAt(s.rows, Parent(to));
    MovedPath(s, u, from, to, a);
    MovedPath(s, u, from, to, b);
    MoveExactIff(s, from, to, env, a);
    MoveExactIff(s, from, to, env, b);
    var v := ShadowPath("files_versions", to);
    assert Parent(from)[0] != v[0] && Parent(to)[0] != v[0];
  }

  /** MOVE and sizes: every folder but the two direct parents stays exact, and the
      whole tree does exactly when the move was safe. */
  lemma MoveSizesExact(s: Store, from: Path, to: Path, env: Env)
    requires Valid(s) && Exact(s.rows) && InFiles(from) && InFiles(to) && MoveAllowed(s.rows, from, to)
    ensures HasPath(s.rows, Parent(from))
    ensures var w := Move(s, from, to, env).store.rows;
      && (forall id :: id in w && w[id].isDir && w[id].path !in {Parent(from), Parent(to)} ==> ExactAt(w, id))
      && (Exact(w) <==> SafeMove(s.rows, from, to))
  {
    var w := Move(s, from, to, env).store;
    MoveKeeps(s, from, to, env);
    ParentExists(s, from);
    if Parent(from) != Parent(to) {
      MoveEnds(s, from, to, env);
    }
    var a, b := IdAt(s.rows, Parent(from)), IdAt(s.rows, Parent(to));
    forall id | id in w.rows && w.rows[id].isDir && (a == b || (id != a && id != b))
      ensures ExactAt(w.rows, id)
    {
      MoveExactIff(s, from, to, env, id);
      MoveElsewhere(s, from, to, env, id);
    }
  }

  /** Recomputing the chains of the old and the new full path repairs any move. */
  lemma MoveRepaired(s: Store, from: Path, to: Path, env: Env)
    requires Valid(s) && Exact(s.rows) && InFiles(from) && InFiles(to) && MoveAllowed(s.rows, from, to)
    ensures Exact(Chain(Chain(Move(s, from, to, env).store.rows, from), to))
  {
    var w := Move(s, from, to, env).store;
    MoveKeeps(s, from, to, env);
    MoveSizesExact(s, from, to, env);
    AboveParent(from);
    AboveParent(to);
    var t := Chain(w.rows, from);
    ChainFrame(w.rows, from);
    ChainFrame(t, to);
    forall id | id in w.rows && w.rows[id].isDir
      ensures ExactAt(Chain(t, to), id)
    {
      ChainExactIff(w.rows, from, id);
      ChainExactIff(t, to, id);
    }
  }

  // ── A move that leaves two folders wrong ───────────────────────────────────

  /** `files/a/x` holds one byte and `files/b` is empty. */
  function OneFile(): Store {
    Store(map[
      1 := Row([], -1, "", true, 1, 0, 0, 1),
      2 := Row(["files"], 1, "files", true, 1, 0, 0, 2),
      3 := Row(["files", "a"], 2, "a", true, 1, 0, 0, 3),
      4 := Row(["files", "b"], 2, "b", true, 0, 0, 0, 4),
      5 := Row(["files", "a", "x"], 3, "x", false, 1, 0, 0, 5)], 6, 6)
  }

  lemma OneFileValid()
    ensures Valid(OneFile())
  {
    var t := OneFile().rows;
    assert At(t, 1, []);
    forall i, j, p | At(t, i, p) && At(t, j, p)
      ensures i == j
    {
      assert |t[1].path| == 0 && |t[2].path| == 1 && |t[5].path| == 3;
      assert t[3].path[1] != t[4].path[1];
    }
    assert Parent(t[2].path) == [] && Parent(t[3].path) == ["files"] == Parent(t[4].path);
    assert Parent(t[5].path) == ["files", "a"];
    forall id | At(t, id, TRASH)
      ensures t[id].isDir
    {
      assert id != 5;
    }
  }

  lemma SumOfOne(t: Table, x: int)
    requires x in t
    ensures SumSizes(t, {x}) == t[x].size
  {
    SumRemove(t, {x}, x);
    assert {x} - {x} == {};
  }

  lemma OneFileExact()
    ensures Exact(OneFile().rows)
  {
    var t := OneFile().rows;
    assert Children(t, 1) == {2} && Children(t, 2) == {3, 4} && Children(t, 3) == {5} && Children(t, 4) == {};
    SumOfOne(t, 2);
    SumOfOne(t, 5);
    SumRemove(t, {3, 4}, 4);
    assert {3, 4} - {4} == {3};
    SumOfOne(t, 3);
  }

  /** MOVE recomputes the chains of the two parent folders, not of the moved paths,
      so moving one byte from `files/a` to `files/b` leaves both folders wrong. */
  lemma MoveLeavesParentsWrong(env: Env)
    ensures var s, from, to := OneFile(), ["files", "a", "x"], ["files", "b", "x"];
      && Valid(s) && Exact(s.rows) && MoveAllowed(s.rows, from, to)
      && !Exact(Move(s, from, to, env).store.rows)
  {
    var s, from, to := OneFile(), ["files", "a", "x"], ["files", "b", "x"];
    OneFileValid();
    OneFileExact();
    var p, q := ["files", "a"], ["files", "b"];
    assert Parent(from) == p && Parent(to) == q;
    assert At(s.rows, 5, from) && At(s.rows, 3, p) && At(s.rows, 4, q);
    assert At(s.rows, IdAt(s.rows, from), from) && At(s.rows, IdAt(s.rows, p), p) && At(s.rows, IdAt(s.rows, q), q);
    assert from[1] != to[1] && p[1] != q[1];
    assert !HasPath(s.rows, to) by {
      forall id
        ensures !At(s.rows, id, to)
      {
        assert s.rows[5].path[1] != to[1];
      }
    }
    MoveSizesExact(s, from, to, env);
  }
}
