/** What each write leaves in every row of the table, written out. */
module Outcomes {
  import opened Paths
  import opened Tree
  import opened Propagation
  import opened Stores
  import opened Operations
  import opened OperationProofs

  function Max(a: int, b: int): (m: int)
    ensures m >= a && m >= b && (m == a || m == b)
  {
    if a < b then b else a
  }

  function Min(a: int, b: int): (m: int)
    ensures m <= a && m <= b && (m == a || m == b)
  {
    if a < b then a else b
  }

  /** An unscanned size stays, and others stop at -1. */
  function Resized(size: int, delta: int): (n: int)
    ensures size < 0 ==> n == size
    ensures size >= 0 ==> n >= -1 && n >= size + delta && (n == -1 || n == size + delta)
  {
    if size < 0 then size else Max(-1, size + delta)
  }

  // ── Single statements ──────────────────────────────────────────────────────

  /** A row before and after the ancestors of `p` are told of a change at `time` by
      `delta` bytes: their mtimes never go back nor past the clock, unscanned sizes
      stay, and the others stop at -1. */
  ghost predicate Told(before: Row, after: Row, p: Path, time: int, delta: int, now: int, etag: nat) {
    if Above(before.path, p) then
      && after == before.(mtime := after.mtime, etag := etag, size := after.size)
      && after.mtime >= before.mtime
      && (after.mtime == before.mtime || after.mtime <= now)
      && (time <= now ==> after.mtime == Max(before.mtime, time))
      && after.mtime == Max(before.mtime, Min(time, now))
      && after.size == Resized(before.size, delta)
    else after == before
  }

  lemma PropTells(u: Store, p: Path, time: int, delta: int, env: Env, id: int)
    requires id in u.rows
    ensures var w := Prop(u, p, time, delta, env);
      && w.rows.Keys == u.rows.Keys && w.nextId == u.nextId && w.nextEtag == u.nextEtag + 1
      && Told(u.rows[id], w.rows[id], p, time, delta, env.now, u.nextEtag)
  {
  }

  /** Every row is told of the change or left alone. */
  ghost predicate AllTold(s: Store, w: Store, p: Path, time: int, delta: int, env: Env) {
    && w.rows.Keys == s.rows.Keys && w.nextId == s.nextId && w.nextEtag == s.nextEtag + 1
    && forall id :: id in s.rows ==> Told(s.rows[id], w.rows[id], p, time, delta, env.now, s.nextEtag)
  }

  lemma PropTellsAll(u: Store, p: Path, time: int, delta: int, env: Env)
    ensures AllTold(u, Prop(u, p, time, delta, env), p, time, delta, env)
  {
  }

  lemma TouchTells(u: Store, q: Path, env: Env, id: int)
    requires id in u.rows
    ensures var w := Touch(u, q, env);
      && w.rows.Keys == u.rows.Keys && w.nextId == u.nextId && w.nextEtag == u.nextEtag
      && w.rows[id] == if u.rows[id].path != q then u.rows[id]
                       else u.rows[id].(mtime := env.diskMtime(q), storageMtime := env.diskMtime(q))
  {
  }

  lemma ChainTells(u: Store, p: Path, id: int)
    requires Shaped(u.rows) && id in u.rows
    ensures var w := ChainOn(u, p);
      && w.rows.Keys == u.rows.Keys && w.nextId == u.nextId && w.nextEtag == u.nextEtag
      && w.rows[id] == u.rows[id].(size := w.rows[id].size)
      && (!Above(u.rows[id].path, p) ==> w.rows[id] == u.rows[id])
  {
    ChainFrame(u.rows, p);
  }

  /** A folder after a write below it: `touched` when its own mtime was read back from
      disk, `time` when it was told last. */
  function Folder(before: Row, after: Row, touched: bool, time: int, etag: nat, env: Env): Row {
    before.(storageMtime := if touched then env.diskMtime(before.path) else before.storageMtime,
            mtime := Max(if touched then env.diskMtime(before.path) else before.mtime, time),
            etag := etag,
            size := after.size)
  }

  /** A directory made on the way to something below it. */
  ghost predicate MadeFolder(r: Row, time: int, etag: nat, env: Env) {
    && r.isDir && r.storageMtime == env.diskMtime(r.path) && r.mtime == Max(env.diskMtime(r.path), time) && r.etag == etag
  }

  /** The segment below `q` on the way to `p` is not there. */
  ghost predicate NextMissing(t: Table, q: Path, p: Path)
    requires Above(q, p)
  {
    !HasPath(t, p[..|q| + 1])
  }

  // ── Ancestor creation ──────────────────────────────────────────────────────

  /** One row after the missing directories down to `p` were made: those above `p` are
      told, and where the next directory was missing also read back from disk. */
  ghost predicate Ensured(s: Store, w: Store, p: Path, env: Env, id: int)
    requires id in w.rows
  {
    var q := w.rows[id].path;
    w.nextEtag >= s.nextEtag + 2 &&
    if id in s.rows then
      w.rows[id] ==
        if Above(q, p) then Folder(s.rows[id], s.rows[id], NextMissing(s.rows, q, p), env.now, w.nextEtag - 1, env)
        else s.rows[id]
    else if q == p then
      && w.rows[id].isDir && w.rows[id].size == 0
      && w.rows[id].mtime == env.now && w.rows[id].storageMtime == env.now && w.rows[id].etag == w.nextEtag - 2
    else
      && Above(q, p) && NextMissing(s.rows, q, p)
      && w.rows[id].size == 0 && MadeFolder(w.rows[id], env.now, w.nextEtag - 1, env)
  }

  /** One directory made where its parent is there. */
  lemma MadeRow(s: Store, p: Path, env: Env, id: int)
    requires Valid(s) && p != [] && !HasPath(s.rows, p) && IsDirAt(s.rows, Parent(p))
    requires id in MkdirAt(s, p, env).rows
    ensures var w := MkdirAt(s, p, env);
      && w.nextEtag == s.nextEtag + 2
      && (id in s.rows ==>
            w.rows[id] ==
              if Above(s.rows[id].path, p)
              then Folder(s.rows[id], s.rows[id], s.rows[id].path == Parent(p), env.now, w.nextEtag - 1, env)
              else s.rows[id])
      && (id !in s.rows ==>
            && w.rows[id].path == p && w.rows[id].isDir && w.rows[id].size == 0
            && w.rows[id].mtime == env.now && w.rows[id].storageMtime == env.now && w.rows[id].etag == w.nextEtag - 2)
  {
    hide Shaped, TrashIsFolder, HasPath, IsDirAt, ParentId;
    var s1 := InsertFresh(s, NewRow(s, p, true, 0, env.now, env.now, 0));
    var s2 := Touch(s1, Parent(p), env);
    AboveParent(p);
    assert id in s1.rows;
    TouchTells(s1, Parent(p), env, id);
    PropTells(s2, p, env.now, 0, env, id);
  }

  lemma {:induction false} EnsureRow(s: Store, p: Path, env: Env, id: int)
    requires Valid(s) && !HasPath(s.rows, p) && NoFileAbove(s.rows, p)
    requires id in EnsureDirs(s, p, env).rows
    ensures Ensured(s, EnsureDirs(s, p, env), p, env, id)
    decreases |p|
  {
    hide Valid, NoFileAbove, MkdirAt, Ensured;
    RootIsThere(s);
    var q := Parent(p);
    var u := EnsureDirs(s, q, env);
    ParentReady(s, p, env);
    if HasPath(s.rows, q) {
      EnsureOne(s, p, env, id);
    } else {
      if id in u.rows {
        EnsureRow(s, q, env, id);
      }
      EnsureMore(s, u, p, env, id);
    }
  }

  lemma EnsureOne(s: Store, p: Path, env: Env, id: int)
    requires Valid(s) && p != [] && !HasPath(s.rows, p) && IsDirAt(s.rows, Parent(p)) && id in MkdirAt(s, p, env).rows
    ensures Ensured(s, MkdirAt(s, p, env), p, env, id)
  {
    hide Valid, MkdirAt;
    var q := MkdirAt(s, p, env).rows[id].path;
    MadeRow(s, p, env, id);
    StepDown(q, p);
    assert p[..|Parent(p)| + 1] == p;
    if Above(q, Parent(p)) {
      PrefixIsThere(s, Parent(p), |q| + 1);
    }
  }

  lemma EnsureMore(s: Store, u: Store, p: Path, env: Env, id: int)
    requires Valid(u) && p != [] && !HasPath(u.rows, p) && IsDirAt(u.rows, Parent(p)) && id in MkdirAt(u, p, env).rows
    requires !HasPath(s.rows, p) && !HasPath(s.rows, Parent(p)) && s.rows.Keys <= u.rows.Keys && s.nextEtag <= u.nextEtag
    requires id in u.rows ==> Ensured(s, u, Parent(p), env, id)
    ensures Ensured(s, MkdirAt(u, p, env), p, env, id)
  {
    hide Valid, MkdirAt;
    var q := MkdirAt(u, p, env).rows[id].path;
    MadeRow(u, p, env, id);
    StepDown(q, p);
    assert p[..|Parent(p)| + 1] == p;
    assert id in s.rows ==> At(s.rows, id, s.rows[id].path);
  }

  lemma PrefixIsThere(s: Store, p: Path, n: nat)
    requires Valid(s) && HasPath(s.rows, p) && n <= |p|
    ensures HasPath(s.rows, p[..n])
  {
    if n == |p| {
      assert p[..n] == p;
    } else {
      AncestorsExist(s.rows, IdAt(s.rows, p), p[..n]);
    }
  }

  lemma StepDown(q: Path, p: Path)
    requires p != []
    ensures Above(q, p) <==> q == Parent(p) || Above(q, Parent(p))
    ensures Above(q, Parent(p)) ==> Parent(p)[..|q| + 1] == p[..|q| + 1]
  {
    AboveSplit(q, p);
  }

  lemma RootIsThere(s: Store)
    requires Valid(s)
    ensures HasPath(s.rows, [])
  {
  }

  lemma ParentReady(s: Store, p: Path, env: Env)
    requires Valid(s) && p != [] && !HasPath(s.rows, p) && NoFileAbove(s.rows, p)
    ensures var u := EnsureDirs(s, Parent(p), env);
      && Valid(u) && !HasPath(u.rows, p) && IsDirAt(u.rows, Parent(p)) && NoFileAbove(s.rows, Parent(p))
      && EnsureDirs(s, p, env) == MkdirAt(u, p, env)
      && s.rows.Keys <= u.rows.Keys && s.nextEtag <= u.nextEtag
  {
    var q := Parent(p);
    AboveParent(p);
    forall id | id in s.rows && Above(s.rows[id].path, q)
      ensures s.rows[id].isDir
    {
      AboveSplit(s.rows[id].path, p);
    }
    EnsureKeeps(s, q, env);
    ExtendsPaths(s, EnsureDirs(s, q, env), q, p);
  }

  /** A row above a written path: an old one or one made on the way. */
  ghost predicate ToldAbove(s: Store, after: Row, id: int, touched: bool, time: int, etag: int, env: Env) {
    etag >= s.nextEtag &&
    if id in s.rows then after == Folder(s.rows[id], after, touched, time, etag, env)
    else touched && MadeFolder(after, time, etag, env)
  }

  lemma EnsureFrame(s: Store, p: Path, env: Env)
    requires Valid(s) && (HasPath(s.rows, p) || NoFileAbove(s.rows, p))
    ensures var u := EnsureDirs(s, p, env);
      Valid(u) && s.nextEtag <= u.nextEtag && s.rows.Keys <= u.rows.Keys
  {
    EnsureKeeps(s, p, env);
    var u := EnsureDirs(s, p, env);
    forall id | id in s.rows
      ensures id in u.rows
    {
      assert u.rows[id].path == s.rows[id].path;
    }
  }

  /** A row when the parent of `p` has been ensured. */
  lemma OpenedRow(s: Store, p: Path, env: Env, id: int)
    requires Valid(s) && p != [] && (HasPath(s.rows, Parent(p)) || NoFileAbove(s.rows, Parent(p)))
    requires id in EnsureDirs(s, Parent(p), env).rows
    ensures var u := EnsureDirs(s, Parent(p), env);
      && Valid(u) && s.nextEtag <= u.nextEtag && s.rows.Keys <= u.rows.Keys
      && (if HasPath(s.rows, Parent(p)) then u == s else Ensured(s, u, Parent(p), env, id))
  {
    hide Ensured, Valid, NoFileAbove, EnsureDirs;
    EnsureFrame(s, Parent(p), env);
    if !HasPath(s.rows, Parent(p)) {
      EnsureRow(s, Parent(p), env, id);
    } else {
      EnsureThere(s, Parent(p), env);
    }
  }

  lemma EnsureThere(s: Store, p: Path, env: Env)
    requires HasPath(s.rows, p)
    ensures EnsureDirs(s, p, env) == s
  {
  }
}
