/** When comparing path and etag is enough to notice every change. */
module PathSync {
  import opened Paths
  import opened Tree
  import opened Stores
  import opened Statements
  import opened Operations
  import opened RequestProofs
  import opened MoveProofs
  import opened Runs
  import opened Sync
  import opened Settling

  /** A directory at the same path under the same etag is the same directory. */
  lemma SamePlaceIsSame(s: Store, w: Store, i: int, j: int)
    requires Valid(s) && Valid(w) && Settled(s, w)
    requires i in s.rows && j in w.rows && s.rows[i].isDir && w.rows[j].isDir
    requires s.rows[i].path == w.rows[j].path && s.rows[i].etag == w.rows[j].etag
    ensures i == j
  {
    var p := s.rows[i].path;
    assert At(s.rows, i, p) && At(w.rows, j, p);
    if j in s.rows && s.rows[j].path == p {
      assert At(s.rows, j, p);
    } else if j in s.rows {
      assert SettledRow(s, s.rows[j], w.rows[j]);
      assert At(w.rows, i, p);
    }
  }

  /** The directory the client remembers at that path under that etag. */
  ghost predicate Remembered(t: Table, u: Table, d: int, i: int) {
    && d in u && u[d].isDir
    && i in t && t[i].isDir && t[i].path == u[d].path && t[i].etag == u[d].etag
  }

  ghost predicate ChangedByPath(t: Table, u: Table, d: int) {
    forall i :: !Remembered(t, u, d, i)
  }

  ghost predicate ListedByPath(t: Table, u: Table, id: int) {
    id in u && forall d :: d in u && Above(u[d].path, u[id].path) ==> ChangedByPath(t, u, d)
  }

  ghost predicate CopiedByPath(t: Table, u: Table, j: int) {
    exists d, i :: ListedByPath(t, u, d) && Remembered(t, u, d, i) && j in t && Above(t[i].path, t[j].path)
  }

  /** What a client holds that knows directories by path and etag: the rows it was
      shown, and its old rows below every directory it skipped. */
  ghost function PathMirror(t: Table, u: Table): Table {
    map id | id in t.Keys + u.Keys && (ListedByPath(t, u, id) || CopiedByPath(t, u, id)) ::
      if ListedByPath(t, u, id) then u[id] else t[id]
  }

  lemma {:induction false} SkippedByPath(t: Table, u: Table, id: int) returns (d: int, i: int)
    requires Shaped(u) && id in u && !ListedByPath(t, u, id)
    ensures ListedByPath(t, u, d) && Remembered(t, u, d, i) && Above(u[d].path, u[id].path)
    decreases |u[id].path|
  {
    d :| d in u && Above(u[d].path, u[id].path) && !ChangedByPath(t, u, d);
    i :| Remembered(t, u, d, i);
    if !ListedByPath(t, u, d) {
      var e, k := SkippedByPath(t, u, d);
      AboveTransitive(u[e].path, u[d].path, u[id].path);
      d, i := e, k;
    }
  }

  /** Below a skipped directory the client remembers the rows as they are. */
  lemma RememberedSame(s: Store, w: Store, d: int, i: int)
    requires Valid(s) && Valid(w) && Evolves(s, w) && Settled(s, w) && Remembered(s.rows, w.rows, d, i)
    ensures i == d && SubtreeSame(s.rows, w.rows, d)
    ensures forall j :: j in s.rows && Above(s.rows[d].path, s.rows[j].path) ==> j in w.rows && w.rows[j] == s.rows[j]
    ensures forall j :: j in w.rows && Above(w.rows[d].path, w.rows[j].path) ==> j in s.rows && Above(s.rows[d].path, s.rows[j].path)
  {
    SamePlaceIsSame(s, w, i, d);
    forall j | j in s.rows && Above(s.rows[d].path, s.rows[j].path)
      ensures j in w.rows && w.rows[j] == s.rows[j]
    {
      var p, q := s.rows[d].path, s.rows[j].path;
      assert q == p + q[|p|..];
    }
  }

  lemma PathMirrorIsComplete(s: Store, w: Store)
    requires Valid(s) && Valid(w) && Evolves(s, w) && Settled(s, w)
    ensures PathMirror(s.rows, w.rows) == w.rows
  {
    hide Evolves, Settled, Valid;
    var t, u := s.rows, w.rows;
    forall id | id in u
      ensures id in PathMirror(t, u)
    {
      if !ListedByPath(t, u, id) {
        assert Shaped(u) by {
          ValidIsShaped(w);
        }
        var d, i := SkippedByPath(t, u, id);
        RememberedSame(s, w, d, i);
        assert CopiedByPath(t, u, id);
      }
    }
    forall id | id in PathMirror(t, u)
      ensures id in u && PathMirror(t, u)[id] == u[id]
    {
      if !ListedByPath(t, u, id) {
        var d, i :| ListedByPath(t, u, d) && Remembered(t, u, d, i) && id in t && Above(t[i].path, t[id].path);
        RememberedSame(s, w, d, i);
      }
    }
  }

  lemma ValidIsShaped(s: Store)
    requires Valid(s)
    ensures Shaped(s.rows)
  {
  }

  // ── Runs ───────────────────────────────────────────────────────────────────

  /** Over every run that moves no directory, trashing and everything else included, a
      directory at the same path under the same etag is the same one with the same
      rows below it, and a client that compares path and etag misses nothing. */
  lemma RunIsNoticedByPath(s: Store, requests: seq<Request>)
    requires Valid(s) && (forall r :: r in requests ==> Mapped(r.op)) && RunKeepsDirectories(s, requests)
    ensures var t, u := s.rows, Run(s, requests).rows;
      && (forall d, i :: Remembered(t, u, d, i) ==> i == d && SubtreeSame(t, u, d))
      && PathMirror(t, u) == u
  {
    hide Valid, Settled, Evolves, RunKeepsDirectories, SubtreeSame;
    var w := Run(s, requests);
    RunKeeps(s, requests);
    RunSettles(s, requests);
    forall d, i | Remembered(s.rows, w.rows, d, i)
      ensures i == d && SubtreeSame(s.rows, w.rows, d)
    {
      RememberedSame(s, w, d, i);
    }
    PathMirrorIsComplete(s, w);
  }

  /** Moving directories is what the condition has to exclude: the three requests of
      `PathAndEtagMislead` leave such a client with a wrong table whenever there is
      anything below the child. */
  lemma PathMirrorMisled(s: Store, a: string, b: string, c: string, env: Env, j: int)
    requires Valid(s) && a != c
    requires IsDirAt(s.rows, ["files", a]) && IsDirAt(s.rows, ["files", a, b]) && !HasPath(s.rows, ["files", c])
    requires s.rows[IdAt(s.rows, ["files", a])].etag == s.rows[IdAt(s.rows, ["files", a, b])].etag
    requires j in s.rows && Above(["files", a, b], s.rows[j].path)
    ensures var x, y, z := ["files", a], ["files", a, b], ["files", c];
      var s3 := Move(HardDelete(Move(s, y, z, env).store, x, env).store, z, x, env).store;
      PathMirror(s.rows, s3.rows) != s3.rows
  {
    hide Shaped, SizesOk, TrashIsFolder, Evolves, Exact, Move, HardDelete, Stamped;
    var x, y, z := ["files", a], ["files", a, b], ["files", c];
    var q := s.rows[j].path;
    PathAndEtagMislead(s, a, b, c, env);
    var s1 := Move(s, y, z, env).store;
    MoveKeeps(s, y, z, env);
    RebaseShape(q, y, z);
    assert s1.rows[j].path == z + q[3..];
    var s2 := HardDelete(s1, x, env).store;
    HardDeleteKeeps(s1, x, env);
    assert (z + q[3..])[..2] == z != x;
    assert HasPath(s1.rows, x);
    DeleteSparesOthers(s1, x, env, j);
    var s3 := Move(s2, z, x, env).store;
    MoveKeeps(s2, z, x, env);
    RebaseShape(z + q[3..], z, x);
    var m := IdAt(s3.rows, x);
    assert Remembered(s.rows, s3.rows, m, IdAt(s.rows, x));
    assert s3.rows[j].path == x + q[3..] && Above(x, s3.rows[j].path);
    assert !ListedByPath(s.rows, s3.rows, j);
    assert |q| != |x + q[3..]|;
  }
}
