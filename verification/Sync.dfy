/** Change detection: what a client learns from etags. */
module Sync {
  import opened Paths
  import opened Tree
  import opened Stores
  import opened Statements
  import opened Operations
  import opened OperationProofs
  import opened RequestProofs
  import opened MoveProofs
  import opened TrashProofs
  import opened Runs

  // ── A client that lists only changed directories ───────────────────────────

  /** The client last saw table `t` and now talks to a server holding `u`. */
  ghost predicate Changed(t: Table, u: Table, d: int)
    requires d in u
  {
    d !in t || t[d].etag != u[d].etag
  }

  /** Every directory above the row is changed, so the client reaches it from the
      root by listing changed directories only. */
  ghost predicate Listed(t: Table, u: Table, id: int) {
    id in u && forall d :: d in u && Above(u[d].path, u[id].path) ==> Changed(t, u, d)
  }

  /** A directory the client reaches but does not list, keeping what it had below. */
  ghost predicate Kept(t: Table, u: Table, d: int) {
    Listed(t, u, d) && u[d].isDir && !Changed(t, u, d)
  }

  ghost predicate CopiedUnder(t: Table, u: Table, d: int, j: int) {
    Kept(t, u, d) && j in t && Above(t[d].path, t[j].path)
  }

  ghost predicate Copied(t: Table, u: Table, j: int) {
    exists d :: CopiedUnder(t, u, d, j)
  }

  ghost function OldCopy(t: Table, u: Table, j: int): Row
    requires Copied(t, u, j)
  {
    var d :| CopiedUnder(t, u, d, j);
    t[j].(path := u[d].path + t[j].path[|t[d].path|..])
  }

  /** What the client holds afterwards: the rows it was shown, and its old rows
      below every directory it skipped. */
  ghost function Mirror(t: Table, u: Table): Table {
    map id | id in t.Keys + u.Keys && (Listed(t, u, id) || Copied(t, u, id)) ::
      if Listed(t, u, id) then u[id] else OldCopy(t, u, id)
  }

  /** A row that was not listed lies below a skipped directory. */
  lemma {:induction false} SkippedAbove(t: Table, u: Table, id: int) returns (d: int)
    requires Shaped(u) && id in u && !Listed(t, u, id)
    ensures Kept(t, u, d) && Above(u[d].path, u[id].path)
    decreases |u[id].path|
  {
    d :| d in u && Above(u[d].path, u[id].path) && !Changed(t, u, d);
    if Listed(t, u, d) {
      NothingUnderFile(u, d, id);
    } else {
      var e := SkippedAbove(t, u, d);
      AboveTransitive(u[e].path, u[d].path, u[id].path);
      d := e;
    }
  }

  /** A skipped directory holds what the client remembers. */
  lemma SkippedSame(s: Store, w: Store, d: int)
    requires Valid(s) && Evolves(s, w) && Kept(s.rows, w.rows, d)
    ensures SubtreeSame(s.rows, w.rows, d)
  {
  }

  lemma CopiedRight(s: Store, w: Store, j: int)
    requires Valid(s) && Evolves(s, w) && Copied(s.rows, w.rows, j)
    ensures j in w.rows && OldCopy(s.rows, w.rows, j) == w.rows[j]
  {
    forall d | CopiedUnder(s.rows, w.rows, d, j)
      ensures j in w.rows
      ensures w.rows[j] == s.rows[j].(path := w.rows[d].path + s.rows[j].path[|s.rows[d].path|..])
    {
      SkippedSame(s, w, d);
    }
  }

  /** After any history, the client that descends from the root only into
      directories whose etag changed holds exactly the server's table: no change,
      addition, removal or move is missed. */
  lemma MirrorIsComplete(s: Store, w: Store)
    requires Valid(s) && Valid(w) && Evolves(s, w)
    ensures Mirror(s.rows, w.rows) == w.rows
  {
    var t, u := s.rows, w.rows;
    forall id | id in u
      ensures id in Mirror(t, u)
    {
      if !Listed(t, u, id) {
        var d := SkippedAbove(t, u, id);
        SkippedSame(s, w, d);
        assert CopiedUnder(t, u, d, id);
      }
    }
    forall id | id in Mirror(t, u)
      ensures id in u && Mirror(t, u)[id] == u[id]
    {
      if !Listed(t, u, id) {
        CopiedRight(s, w, id);
      }
    }
  }

  /** Any run of requests is noticed completely. */
  lemma RunIsNoticed(s: Store, requests: seq<Request>)
    requires Valid(s) && forall r :: r in requests ==> Mapped(r.op)
    ensures Mirror(s.rows, Run(s, requests).rows) == Run(s, requests).rows
  {
    RunKeeps(s, requests);
    MirrorIsComplete(s, Run(s, requests));
  }

  // ── Every write stamps what lies above it ──────────────────────────────────

  lemma PropStamps(since: nat, x: Store, p: Path, time: int, delta: int, env: Env)
    requires since <= x.nextEtag
    ensures Stamped(since, Prop(x, p, time, delta, env).rows, p)
  {
  }

  lemma PutStamps(s: Store, p: Path, up: Upload, env: Env)
    requires Valid(s) && InFiles(p) && Put(s, p, up, env).outcome == Done
    ensures Stamped(s.nextEtag, Put(s, p, up, env).store.rows, p)
  {
    hide Prop, Touch, ChainOn, EnsureDirs, StoreVersion, OverQuota, Shaped, Exact;
    AboveParent(p);
    EnsureKeeps(s, Parent(p), env);
    var s1 := EnsureDirs(s, Parent(p), env);
    if HasPath(s.rows, p) {
      var r := s.rows[IdAt(s.rows, p)];
      StoreVersionKeeps(s1, p, r, env);
      var s2 := StoreVersion(s1, p, r, env);
      OverwriteStamps(s.nextEtag, s2, p, r, up, env);
    } else {
      NewStamps(s.nextEtag, s1, p, up, env);
    }
  }

  lemma NewStamps(since: nat, s: Store, p: Path, up: Upload, env: Env)
    requires since <= s.nextEtag && p != []
    ensures Stamped(since, CommitNew(s, p, up, env).rows, p)
    ensures Stamped(since, BulkNew(s, p, up, env).rows, p)
  {
    var s1 := InsertFresh(s, NewRow(s, p, false, up.size, up.mtime, up.mtime, 0));
    PropStamps(since, Touch(ChainOn(s1, p), Parent(p), env), p, up.mtime, 0, env);
    PropStamps(since, s1, p, up.mtime, up.size, env);
  }

  lemma OverwriteStamps(since: nat, s: Store, p: Path, r: Row, up: Upload, env: Env)
    requires since <= s.nextEtag && p != [] && HasPath(s.rows, p)
    ensures Stamped(since, CommitOverwrite(s, p, r, up, env).rows, p)
    ensures Stamped(since, BulkOverwrite(s, p, r, up, env).rows, p)
  {
    var s1 := Overwrite(s, p, up.size, up.mtime, ReusesEtag(r, p, env));
    PropStamps(since, Touch(s1, Parent(p), env), p, up.mtime, up.size - r.size, env);
    PropStamps(since, Overwrite(s, p, up.size, up.mtime, false), p, up.mtime, up.size - r.size, env);
  }

  lemma BulkStamps(s: Store, p: Path, up: Upload, env: Env)
    requires Valid(s) && InFiles(p) && BulkWrite(s, p, up, env).outcome == Done
    ensures Stamped(s.nextEtag, BulkWrite(s, p, up, env).store.rows, p)
  {
    if HasPath(s.rows, p) {
      var r := s.rows[IdAt(s.rows, p)];
      StoreVersionKeeps(s, p, r, env);
      OverwriteStamps(s.nextEtag, StoreVersion(s, p, r, env), p, r, up, env);
    } else {
      NewStamps(s.nextEtag, s, p, up, env);
    }
  }

  lemma MkcolStamps(s: Store, p: Path, env: Env)
    requires Valid(s) && p != [] && Mkcol(s, p, env).outcome == Done
    ensures Stamped(s.nextEtag, Mkcol(s, p, env).store.rows, p)
  {
    AboveParent(p);
    EnsureKeeps(s, Parent(p), env);
    var s1 := EnsureDirs(s, Parent(p), env);
    PropStamps(s.nextEtag, InsertFresh(s1, NewRow(s1, p, true, 0, env.now, env.now, 0)), p, env.now, 0, env);
  }

  /** The paths whose entry a completed request changed. */
  function Touched(op: Op): seq<Path>
    requires Mapped(op)
  {
    match op
    case PutOp(p, _) => [p]
    case BulkOp(p, _) => [p]
    case MkcolOp(p) => [p]
    case CopyOp(_, to, _) => [to]
    case MoveOp(from, to) => [from, to]
    case DeleteOp(p) => [p]
    case TrashOp(p, stamp) => assert p in Ends(op); [p, TrashPath(Last(p), stamp)]
    case SetMtimeOp(p, _) => [p]
  }

  /** After a completed request every directory above a touched path, up to the
      storage root, carries an etag that occurred nowhere before. */
  lemma StepStamps(s: Store, op: Op, env: Env, p: Path)
    requires Valid(s) && Mapped(op) && Step(s, op, env).outcome == Done && p in Touched(op)
    ensures Stamped(s.nextEtag, Step(s, op, env).store.rows, p)
    ensures forall id :: id in s.rows ==> s.rows[id].etag < s.nextEtag
  {
    hide Put, BulkWrite, Mkcol, Copy, Move, HardDelete, Trash, Stamped, Evolves, Exact;
    match op
    case PutOp(q, up) => assert q in Ends(op); PutStamps(s, q, up, env);
    case BulkOp(q, up) => assert q in Ends(op); BulkStamps(s, q, up, env);
    case MkcolOp(q) => assert q in Ends(op); MkcolStamps(s, q, env);
    case CopyOp(from, to, diskOk) =>
      assert from in Ends(op) && to in Ends(op);
      CopyKeeps(s, from, to, diskOk, env);
    case MoveOp(from, to) =>
      assert from in Ends(op) && to in Ends(op);
      MoveKeeps(s, from, to, env);
    case DeleteOp(q) => assert q in Ends(op); HardDeleteKeeps(s, q, env);
    case TrashOp(q, stamp) => assert q in Ends(op); TrashKeeps(s, q, stamp, env);
    case SetMtimeOp(q, mtime) => SetMtimeStamps(s, q, mtime, env);
  }

  lemma SetMtimeStamps(s: Store, p: Path, mtime: int, env: Env)
    ensures Stamped(s.nextEtag, SetMtime(s, p, mtime, env).store.rows, p)
  {
  }

  // ── Why the fileid is part of the comparison ───────────────────────────────

  /** MOVE leaves the etag of the moved row alone. */
  lemma MovedRowKeepsEtag(s: Store, from: Path, to: Path, env: Env)
    requires Valid(s) && InFiles(from) && InFiles(to) && from != to && MoveAllowed(s.rows, from, to)
    ensures var m, w := IdAt(s.rows, from), Move(s, from, to, env).store.rows;
      m in w && w[m].path == to && w[m].etag == s.rows[m].etag && w[m].isDir == s.rows[m].isDir
  {
    var m, v := IdAt(s.rows, from), ShadowPath("files_versions", to);
    var u := Rekey(s, from, to);
    MoveRows(s, from, to);
    var u1 := MoveTouched(u, from, to, env);
    MoveTouchedQuiet(u, from, to, env);
    var u2 := MoveChains(u1, from, to);
    MoveChainsQuiet(u1, from, to);
    QuietTransitive(u, u1, u2, from, to);
    ShadowKeeps(u2, to, env);
    assert QuietRow(u, u.rows[m], u2.rows[m], from, to) && !Above(to, from) by {
      if Above(to, from) {
        AncestorsExist(s.rows, m, to);
      }
    }
    assert QuietRow(u2, u2.rows[m], ShadowChain(u2, to, env).rows[m], v, v) && v[0] != to[0];
  }

  lemma DeleteSparesOthers(s: Store, p: Path, env: Env, id: int)
    requires Valid(s) && p != [] && HasPath(s.rows, p)
    requires id in s.rows && !AtOrBelow(s.rows[id].path, p) && !Above(s.rows[id].path, p)
    ensures id in HardDelete(s, p, env).store.rows && HardDelete(s, p, env).store.rows[id] == s.rows[id]
  {
  }

  /** A client that compared path and etag only would be misled.  Whenever a
      directory `files/a` and its child `files/a/b` share an etag (as they do after
      any write below the child, which stamps both), moving the child out, deleting
      the parent and moving the child into its place leaves another directory at
      the same path under the same etag. */
  lemma PathAndEtagMislead(s: Store, a: string, b: string, c: string, env: Env)
    requires Valid(s) && a != c
    requires IsDirAt(s.rows, ["files", a]) && IsDirAt(s.rows, ["files", a, b]) && !HasPath(s.rows, ["files", c])
    requires s.rows[IdAt(s.rows, ["files", a])].etag == s.rows[IdAt(s.rows, ["files", a, b])].etag
    ensures var x, y, z := ["files", a], ["files", a, b], ["files", c];
      var s1 := Move(s, y, z, env);
      var s2 := HardDelete(s1.store, x, env);
      var s3 := Move(s2.store, z, x, env);
      && s1.outcome == s2.outcome == s3.outcome == Done
      && IsDirAt(s3.store.rows, x)
      && s3.store.rows[IdAt(s3.store.rows, x)].etag == s.rows[IdAt(s.rows, x)].etag
      && IdAt(s3.store.rows, x) != IdAt(s.rows, x)
  {
    hide Shaped, SizesOk, TrashIsFolder, Evolves, Exact, Move, HardDelete, Stamped;
    var x, y, z := ["files", a], ["files", a, b], ["files", c];
    var i, m := IdAt(s.rows, x), IdAt(s.rows, y);
    ParentExists(s, x);
    assert Parent(x) == ["files"] == Parent(z);
    var s1 := Move(s, y, z, env).store;
    MoveKeeps(s, y, z, env);
    MovedRowKeepsEtag(s, y, z, env);
    assert Rebase(x, y, z) == x && Rebase(["files"], y, z) == ["files"];
    assert At(s1.rows, i, x) && At(s1.rows, m, z);
    var s2 := HardDelete(s1, x, env).store;
    HardDeleteKeeps(s1, x, env);
    assert !AtOrBelow(z, x) && !Above(z, x);
    DeleteSparesOthers(s1, x, env, m);
    assert At(s2.rows, m, z);
    UniqueAt(s2, m, z);
    ParentExists(s2, z);
    var s3 := Move(s2, z, x, env).store;
    MoveKeeps(s2, z, x, env);
    MovedRowKeepsEtag(s2, z, x, env);
    assert At(s3.rows, m, x);
    UniqueAt(s3, m, x);
    assert i != m;
  }

  lemma UniqueAt(s: Store, id: int, p: Path)
    requires Valid(s) && At(s.rows, id, p)
    ensures HasPath(s.rows, p) && IdAt(s.rows, p) == id
  {
    assert At(s.rows, IdAt(s.rows, p), p);
  }
}
