/** What every write request keeps: the shape of the tree, exact sizes, and the
    link between a directory's etag and its subtree. */
module OperationProofs {
  import opened Paths
  import opened Tree
  import opened Propagation
  import opened Stores
  import opened Statements
  import opened RowEdits
  import opened Operations

  ghost predicate Keeps(s: Store, u: Store) {
    && Valid(u)
    && Evolves(s, u)
    && (Exact(s.rows) ==> Exact(u.rows))
  }

  lemma KeepsReflexive(s: Store)
    requires Valid(s)
    ensures Keeps(s, s)
  {
    EvolvesReflexive(s);
  }

  lemma KeepsTransitive(s: Store, u: Store, w: Store)
    requires Valid(s) && Keeps(s, u) && Keeps(u, w)
    ensures Keeps(s, w)
  {
    EvolvesTransitive(s, u, w);
  }

  /** Rows changed, then quiet statements, with both ends stamped by the end. */
  lemma EditThenQuiet(s: Store, u: Store, w: Store, from: Path, to: Path)
    requires Valid(s) && EditBody(s, u, from, to) && Quiet(u, w, from, to)
    requires Stamped(s.nextEtag, w.rows, from) && Stamped(s.nextEtag, w.rows, to)
    ensures Evolves(s, w)
  {
    EditQuiet(s, u, w, from, to);
    EditEvolves(s, w, from, to);
  }

  /** A write may also leave all rows in place. */
  lemma NothingIsEdit(s: Store, p: Path)
    requires p != []
    ensures EditBody(s, s, p, p)
  {
    forall id | id in s.rows
      ensures EditedRow(s, s.rows[id], s.rows[id], p, p)
    {
    }
  }

  lemma QuietReflexive(s: Store, from: Path, to: Path)
    ensures Quiet(s, s, from, to)
  {
  }

  // ── Ancestor creation ──────────────────────────────────────────────────────

  /** Rows off the chain of `p` are untouched, rows on it keep their place and
      size, and new rows are empty directories at or above `p`. */
  ghost predicate Extends(s: Store, u: Store, p: Path) {
    && s.nextEtag <= u.nextEtag
    && (forall id :: id in s.rows ==>
          && id in u.rows
          && (!Above(s.rows[id].path, p) ==> u.rows[id] == s.rows[id])
          && u.rows[id].path == s.rows[id].path && u.rows[id].parent == s.rows[id].parent
          && u.rows[id].isDir == s.rows[id].isDir && u.rows[id].size == s.rows[id].size)
    && (forall id :: id in u.rows && id !in s.rows ==>
          AtOrBelow(p, u.rows[id].path) && u.rows[id].isDir && u.rows[id].size == 0)
  }

  lemma ExtendsPaths(s: Store, u: Store, p: Path, q: Path)
    requires Valid(u) && Extends(s, u, p)
    ensures HasPath(s.rows, q) ==> HasPath(u.rows, q) && IdAt(u.rows, q) == IdAt(s.rows, q)
    ensures IsDirAt(s.rows, q) ==> IsDirAt(u.rows, q)
    ensures HasPath(u.rows, q) && !AtOrBelow(p, q) ==> HasPath(s.rows, q)
    ensures IsDirAt(u.rows, q) && HasPath(s.rows, q) ==> IsDirAt(s.rows, q)
  {
    if HasPath(s.rows, q) {
      assert At(u.rows, IdAt(s.rows, q), q);
    }
    if HasPath(u.rows, q) && !AtOrBelow(p, q) {
      assert At(s.rows, IdAt(u.rows, q), q);
    }
  }

  lemma InsertFreshAdds(s: Store, p: Path, isDir: bool, size: int, mtime: int, storageMtime: int)
    requires Valid(s) && p != [] && !HasPath(s.rows, p) && IsDirAt(s.rows, Parent(p))
    requires if isDir then size == 0 else size >= 0 && p != TRASH
    ensures Adds(s, InsertFresh(s, NewRow(s, p, isDir, size, mtime, storageMtime, 0)),
                 NewRow(s, p, isDir, size, mtime, storageMtime, s.nextEtag))
  {
  }

  /** A row is added, then quiet statements follow, the last of which stamps. */
  lemma AddThenQuiet(s: Store, u: Store, w: Store, r: Row)
    requires Valid(s) && Adds(s, u, r) && Quiet(u, w, r.path, r.path)
    requires Stamped(s.nextEtag, w.rows, r.path)
    ensures Evolves(s, w)
    ensures At(w.rows, s.nextId, r.path) && w.rows[s.nextId].isDir == r.isDir
    ensures forall id :: id in s.rows && !Above(s.rows[id].path, r.path) ==> id in w.rows && w.rows[id] == s.rows[id]
  {
    AddIsEdit(s, u, r);
    EditThenQuiet(s, u, w, r.path, r.path);
    forall id | id in s.rows && !Above(s.rows[id].path, r.path)
      ensures id in w.rows && w.rows[id] == s.rows[id]
    {
      assert QuietRow(u, u.rows[id], w.rows[id], r.path, r.path);
    }
  }

  /** A new empty directory leaves every recorded size right. */
  lemma AddDirSizes(s: Store, u: Store, w: Store, r: Row)
    requires Valid(s) && Adds(s, u, r) && r.isDir && SameSizes(u.rows, w.rows)
    ensures Exact(s.rows) ==> Exact(w.rows)
  {
    if Exact(s.rows) {
      AddExactOff(s, u, r);
      AddReady(s, u, r);
      ReadyZeroExact(u.rows, r.path);
      SameSizesExact(u.rows, w.rows);
    }
  }

  lemma SameSizesTransitive(t: Table, u: Table, w: Table)
    requires SameSizes(t, u) && SameSizes(u, w)
    ensures SameSizes(t, w)
  {
  }

  lemma MkdirKeeps(s: Store, p: Path, env: Env)
    requires Valid(s) && p != [] && !HasPath(s.rows, p) && IsDirAt(s.rows, Parent(p))
    ensures Keeps(s, MkdirAt(s, p, env))
    ensures Extends(s, MkdirAt(s, p, env), p)
    ensures IsDirAt(MkdirAt(s, p, env).rows, p)
  {
    var s1 := InsertFresh(s, NewRow(s, p, true, 0, env.now, env.now, 0));
    var r := NewRow(s, p, true, 0, env.now, env.now, s.nextEtag);
    var s2 := Touch(s1, Parent(p), env);
    var w := Prop(s2, p, env.now, 0, env);
    InsertFreshAdds(s, p, true, 0, env.now, env.now);
    AddKeepsShape(s, s1, r);
    AboveParent(p);
    TouchQuiet(s1, Parent(p), env, p, p);
    PropQuiet(s2, p, env.now, 0, env, p, p);
    QuietTransitive(s1, s2, w, p, p);
    AddThenQuiet(s, s1, w, r);
    PropZeroSizes(s2, p, env.now, env);
    SameSizesTransitive(s1.rows, s2.rows, w.rows);
    AddDirSizes(s, s1, w, r);
    AddExtends(s, s1, w, r);
  }

  lemma AddExtends(s: Store, u: Store, w: Store, r: Row)
    requires Valid(s) && Adds(s, u, r) && r.isDir && Quiet(u, w, r.path, r.path) && SameSizes(u.rows, w.rows)
    requires forall id :: id in s.rows && !Above(s.rows[id].path, r.path) ==> id in w.rows && w.rows[id] == s.rows[id]
    ensures Extends(s, w, r.path)
  {
    forall id | id in s.rows
      ensures id in w.rows
      ensures w.rows[id].path == s.rows[id].path && w.rows[id].parent == s.rows[id].parent
      ensures w.rows[id].isDir == s.rows[id].isDir && w.rows[id].size == s.rows[id].size
    {
      assert u.rows[id] == s.rows[id];
    }
  }

  lemma ExtendsTransitive(s: Store, u: Store, w: Store, p: Path)
    requires p != [] && Extends(s, u, Parent(p)) && Extends(u, w, p)
    ensures Extends(s, w, p)
  {
    AboveParent(p);
    forall id | id in s.rows && !Above(s.rows[id].path, p)
      ensures w.rows[id] == s.rows[id]
    {
      AboveSplit(s.rows[id].path, p);
    }
    forall id | id in w.rows && id !in s.rows
      ensures AtOrBelow(p, w.rows[id].path) && w.rows[id].isDir && w.rows[id].size == 0
    {
      if id in u.rows {
        AtOrBelowTransitive(p, Parent(p), u.rows[id].path);
      }
    }
  }

  lemma {:induction false} EnsureKeeps(s: Store, p: Path, env: Env)
    requires Valid(s)
    requires HasPath(s.rows, p) || NoFileAbove(s.rows, p)
    ensures Keeps(s, EnsureDirs(s, p, env))
    ensures Extends(s, EnsureDirs(s, p, env), p)
    ensures HasPath(EnsureDirs(s, p, env).rows, p)
    ensures !HasPath(s.rows, p) ==> IsDirAt(EnsureDirs(s, p, env).rows, p)
    decreases |p|
  {
    if p == [] || HasPath(s.rows, p) {
      KeepsReflexive(s);
    } else {
      var q := Parent(p);
      assert NoFileAbove(s.rows, q) by {
        forall id | id in s.rows && Above(s.rows[id].path, q)
          ensures s.rows[id].isDir
        {
          AboveSplit(s.rows[id].path, p);
        }
      }
      EnsureKeeps(s, q, env);
      var s1 := EnsureDirs(s, q, env);
      ExtendsPaths(s, s1, q, p);
      AboveParent(p);
      assert IsDirAt(s1.rows, q);
      MkdirKeeps(s1, p, env);
      KeepsTransitive(s, s1, MkdirAt(s1, p, env));
      ExtendsTransitive(s, s1, MkdirAt(s1, p, env), p);
    }
  }

  // ── New files and directories ──────────────────────────────────────────────

  lemma CommitNewKeeps(s: Store, p: Path, up: Upload, env: Env)
    requires Valid(s) && InFiles(p) && !HasPath(s.rows, p) && IsDirAt(s.rows, Parent(p))
    ensures Keeps(s, CommitNew(s, p, up, env))
    ensures var w := CommitNew(s, p, up, env);
      Written(w.rows, p, up)
  {
    var s1 := InsertFresh(s, NewRow(s, p, false, up.size, up.mtime, up.mtime, 0));
    var r := NewRow(s, p, false, up.size, up.mtime, up.mtime, s.nextEtag);
    InsertFreshAdds(s, p, false, up.size, up.mtime, up.mtime);
    AddKeepsShape(s, s1, r);
    AboveParent(p);
    var s2 := ChainOn(s1, p);
    ChainQuiet(s1, p, p, p);
    var s3 := Touch(s2, Parent(p), env);
    TouchQuiet(s2, Parent(p), env, p, p);
    QuietTransitive(s1, s2, s3, p, p);
    var w := Prop(s3, p, up.mtime, 0, env);
    PropQuiet(s3, p, up.mtime, 0, env, p, p);
    QuietTransitive(s1, s3, w, p, p);
    AddThenQuiet(s, s1, w, r);
    assert QuietRow(s1, r, w.rows[s.nextId], p, p);
    WrittenAt(w, s.nextId, p, up);
    if Exact(s.rows) {
      AddExactOff(s, s1, r);
      ChainFinish(s1, p);
      SameSizesExact(s2.rows, s3.rows);
      PropZeroSizes(s3, p, up.mtime, env);
      SameSizesExact(s3.rows, w.rows);
    }
  }

  lemma MkcolKeeps(s: Store, p: Path, env: Env)
    requires Valid(s) && p != []
    ensures Keeps(s, Mkcol(s, p, env).store)
    ensures Mkcol(s, p, env).outcome == Done <==>
              !HasPath(s.rows, p) && CanEnsure(s.rows, Parent(p)) && (HasPath(s.rows, Parent(p)) ==> IsDirAt(s.rows, Parent(p)))
    ensures Mkcol(s, p, env).outcome == Done ==> IsDirAt(Mkcol(s, p, env).store.rows, p)
  {
    KeepsReflexive(s);
    if !HasPath(s.rows, p) && CanEnsure(s.rows, Parent(p)) {
      var q := Parent(p);
      AboveParent(p);
      EnsureKeeps(s, q, env);
      var s1 := EnsureDirs(s, q, env);
      ExtendsPaths(s, s1, q, p);
      ExtendsPaths(s, s1, q, q);
      if IsDirAt(s1.rows, q) {
        MkdirRowKeeps(s1, p, env);
        KeepsTransitive(s, s1, Mkcol(s, p, env).store);
      }
    }
  }

  lemma MkdirRowKeeps(s: Store, p: Path, env: Env)
    requires Valid(s) && p != [] && !HasPath(s.rows, p) && IsDirAt(s.rows, Parent(p))
    ensures var w := Prop(InsertFresh(s, NewRow(s, p, true, 0, env.now, env.now, 0)), p, env.now, 0, env);
      Keeps(s, w) && IsDirAt(w.rows, p)
  {
    var s1 := InsertFresh(s, NewRow(s, p, true, 0, env.now, env.now, 0));
    var r := NewRow(s, p, true, 0, env.now, env.now, s.nextEtag);
    InsertFreshAdds(s, p, true, 0, env.now, env.now);
    AddKeepsShape(s, s1, r);
    var w := Prop(s1, p, env.now, 0, env);
    PropQuiet(s1, p, env.now, 0, env, p, p);
    AddThenQuiet(s, s1, w, r);
    PropZeroSizes(s1, p, env.now, env);
    AddDirSizes(s, s1, w, r);
  }

  // ── Versions ───────────────────────────────────────────────────────────────

  /** Rows that are not above `p` are untouched; none is removed. */
  ghost predicate Frame(s: Store, u: Store, p: Path) {
    && s.nextId <= u.nextId && s.nextEtag <= u.nextEtag
    && (forall id :: id in s.rows ==>
          && id in u.rows
          && (!Above(s.rows[id].path, p) ==> u.rows[id] == s.rows[id])
          && u.rows[id].path == s.rows[id].path && u.rows[id].parent == s.rows[id].parent
          && u.rows[id].isDir == s.rows[id].isDir)
    && (forall id :: id in u.rows && id !in s.rows ==> AtOrBelow(p, u.rows[id].path))
  }

  lemma StoreVersionKeeps(s: Store, p: Path, r: Row, env: Env)
    requires Valid(s) && InFiles(p) && r.size >= -1 && r.etag < s.nextEtag
    ensures Keeps(s, StoreVersion(s, p, r, env))
    ensures Frame(s, StoreVersion(s, p, r, env), VersionPath(p, r.mtime))
  {
    var v := VersionPath(p, r.mtime);
    var u := StoreVersion(s, p, r, env);
    KeepsReflexive(s);
    if u != s {
      AboveParent(v);
      EnsureKeeps(s, Parent(v), env);
      var s1 := EnsureDirs(s, Parent(v), env);
      ExtendsPaths(s, s1, Parent(v), v);
      ExtendsPaths(s, s1, Parent(v), Parent(v));
      assert IsDirAt(s1.rows, Parent(v));
      VersionRowKeeps(s1, v, r, env);
      KeepsTransitive(s, s1, u);
      forall id | id in s.rows && !Above(s.rows[id].path, v)
        ensures u.rows[id] == s.rows[id]
      {
        AboveSplit(s.rows[id].path, v);
      }
      forall id | id in u.rows && id !in s.rows
        ensures AtOrBelow(v, u.rows[id].path)
      {
        if id in s1.rows {
          AtOrBelowTransitive(v, Parent(v), s1.rows[id].path);
        }
      }
    }
  }

  /** The three statements that close the storing of a version. */
  lemma VersionQuiet(u: Store, v: Path, env: Env)
    requires Valid(u) && v != []
    ensures var w := ChainOn(Prop(Touch(u, Parent(v), env), v, env.now, 0, env), v);
      && Valid(w) && Quiet(u, w, v, v) && Stamped(u.nextEtag, w.rows, v)
      && (ExactOff(u.rows, v) ==> Exact(w.rows))
  {
    AboveParent(v);
    var u1 := Touch(u, Parent(v), env);
    TouchQuiet(u, Parent(v), env, v, v);
    var u2 := Prop(u1, v, env.now, 0, env);
    PropQuiet(u1, v, env.now, 0, env, v, v);
    QuietTransitive(u, u1, u2, v, v);
    var w := ChainOn(u2, v);
    ChainQuiet(u2, v, v, v);
    QuietTransitive(u, u2, w, v, v);
    QuietStamped(u.nextEtag, u2, w, v, v, v);
    if ExactOff(u.rows, v) {
      SameSizesExactOff(u.rows, u1.rows, v);
      PropZeroSizes(u1, v, env.now, env);
      SameSizesExactOff(u1.rows, u2.rows, v);
      ChainFinish(u2, v);
    }
  }

  lemma VersionRowKeeps(s: Store, v: Path, r: Row, env: Env)
    requires Valid(s) && v != [] && v[0] == "files_versions" && IsDirAt(s.rows, Parent(v)) && r.size >= -1 && r.etag < s.nextEtag
    ensures var u := if HasPath(s.rows, v) then s
                     else Insert(s, NewRow(s, v, false, r.size, r.mtime, env.now, r.etag));
      var w := ChainOn(Prop(Touch(u, Parent(v), env), v, env.now, 0, env), v);
      Keeps(s, w) && Frame(s, w, v)
  {
    var n := NewRow(s, v, false, r.size, r.mtime, env.now, r.etag);
    var u := if HasPath(s.rows, v) then s else Insert(s, n);
    if HasPath(s.rows, v) {
      NothingIsEdit(s, v);
    } else {
      AddKeepsShape(s, u, n);
      AddIsEdit(s, u, n);
      if Exact(s.rows) {
        AddExactOff(s, u, n);
      }
    }
    VersionQuiet(u, v, env);
    var w := ChainOn(Prop(Touch(u, Parent(v), env), v, env.now, 0, env), v);
    EditThenQuiet(s, u, w, v, v);
    QuietFrame(s, u, w, v);
  }

  lemma QuietFrame(s: Store, u: Store, w: Store, v: Path)
    requires Quiet(u, w, v, v) && s.nextId <= u.nextId && s.nextEtag <= u.nextEtag
    requires forall id :: id in s.rows ==> id in u.rows && u.rows[id] == s.rows[id]
    requires forall id :: id in u.rows && id !in s.rows ==> u.rows[id].path == v
    ensures Frame(s, w, v)
  {
    forall id | id in s.rows && !Above(s.rows[id].path, v)
      ensures w.rows[id] == s.rows[id]
    {
      assert QuietRow(u, u.rows[id], w.rows[id], v, v);
    }
  }

  // ── Overwrites ─────────────────────────────────────────────────────────────

  /** The row is scanned, or not the only unscanned entry of its folder. */
  ghost predicate NotLastUnscanned(t: Table, id: int)
    requires id in t
  {
    t[id].size != -1 || OtherUnscanned(t, t[id].parent, id)
  }

  /** In an exact tree an unscanned row makes all its ancestors unscanned. */
  lemma {:induction false} AncestorsUnscanned(t: Table, id: int, j: int)
    requires Shaped(t) && SizesOk(t) && Exact(t)
    requires id in t && t[id].size == -1 && j in t && Above(t[j].path, t[id].path)
    ensures t[j].size == -1
    decreases |t[id].path|
  {
    assert Linked(t, id);
    var a := t[id].parent;
    assert ExactAt(t, a);
    assert id in Children(t, a);
    AboveSplit(t[j].path, t[id].path);
    if t[j].path == t[a].path {
      assert At(t, j, t[j].path) && At(t, a, t[j].path);
    } else {
      AncestorsUnscanned(t, a, j);
    }
  }

  lemma UnscannedDelta(t: Table, u: Table, p: Path, id: int, time: int, delta: int, etag: nat)
    requires Shaped(t) && SizesOk(t) && Exact(t) && id in t && t[id].path == p && t[id].size == -1
    requires forall j :: j in u && Above(u[j].path, p) ==> j in t && t[j].path == u[j].path && t[j].size == u[j].size
    ensures SameSizes(u, Propagate(u, p, time, delta, etag))
  {
    var w := Propagate(u, p, time, delta, etag);
    assert w.Keys == u.Keys;
    forall j | j in u
      ensures w[j].size == u[j].size
    {
      if Above(u[j].path, p) {
        AncestorsUnscanned(t, id, j);
      }
    }
  }

  lemma RewriteElsewhere(s: Store, u: Store, id: int, j: int)
    requires Valid(s) && Rewrites(s, u, id) && j in s.rows && s.rows[j].isDir && ExactAt(s.rows, j) && j != s.rows[id].parent
    ensures ExactAt(u.rows, j)
  {
    SameShapeChildren(s.rows, u.rows, j);
    ExpectedSame(s.rows, u.rows, j);
  }

  /** Replacing an unscanned file leaves its folder unscanned, which is right
      only while another entry of the folder is. */
  lemma RewriteUnscanned(s: Store, u: Store, id: int)
    requires Valid(s) && Exact(s.rows) && Rewrites(s, u, id)
    requires s.rows[id].size == -1 && u.rows[id].size >= 0
    ensures Exact(u.rows) <==> OtherUnscanned(s.rows, s.rows[id].parent, id)
  {
    var t, a := s.rows, s.rows[id].parent;
    assert Linked(t, id);
    assert ExactAt(t, a);
    RewriteKeepsShape(s, u, id);
    SameShapeChildren(t, u.rows, a);
    assert id in Children(t, a);
    assert t[a].size == -1 && u.rows[a].size == -1;
    SumNonNegativeUnless(u.rows, a);
    if OtherUnscanned(t, a, id) {
      var c :| c in Children(t, a) && c != id && t[c].size == -1;
      assert c in Children(u.rows, a) && u.rows[c].size == -1;
      forall j | j in u.rows && u.rows[j].isDir && j != a
        ensures ExactAt(u.rows, j)
      {
        assert ExactAt(t, j);
        RewriteElsewhere(s, u, id, j);
      }
    }
    if Exact(u.rows) {
      assert ExactAt(u.rows, a);
      var c :| c in Children(u.rows, a) && u.rows[c].size == -1;
      assert c in Children(t, a) && c != id && t[c].size == -1;
    }
  }

  lemma RewriteDeltaUnscanned(s: Store, u: Store, x: Store, id: int, time: int, delta: int, env: Env)
    requires Valid(s) && Exact(s.rows) && Rewrites(s, u, id) && u.rows[id].size >= 0 && s.rows[id].size == -1
    requires SameSizes(u.rows, x.rows)
    ensures Exact(Prop(x, s.rows[id].path, time, delta, env).rows) <==> NotLastUnscanned(s.rows, id)
  {
    var p := s.rows[id].path;
    var w := Prop(x, p, time, delta, env);
    forall j | j in x.rows && Above(x.rows[j].path, p)
      ensures j in s.rows && s.rows[j].path == x.rows[j].path && s.rows[j].size == x.rows[j].size
    {
      assert u.rows[j].path == x.rows[j].path;
    }
    UnscannedDelta(s.rows, x.rows, p, id, if time < env.now then time else env.now, delta, x.nextEtag);
    RewriteUnscanned(s, u, id);
    SameSizesTransitive(u.rows, x.rows, w.rows);
    SameSizesExact(u.rows, w.rows);
  }

  /** A file is replaced, quiet statements follow that change no size, and the
      difference goes to the ancestors. */
  lemma RewriteDelta(s: Store, u: Store, x: Store, id: int, time: int, env: Env)
    requires Valid(s) && Exact(s.rows) && Rewrites(s, u, id) && u.rows[id].size >= 0
    requires SameSizes(u.rows, x.rows)
    ensures var p, delta := s.rows[id].path, u.rows[id].size - s.rows[id].size;
      Exact(Prop(x, p, time, delta, env).rows) <==> NotLastUnscanned(s.rows, id)
  {
    hide Exact, ExactOff, SameSizes, DeltaReady, Shaped, TrashIsFolder, Prop;
    var p, delta := s.rows[id].path, u.rows[id].size - s.rows[id].size;
    if s.rows[id].size == -1 {
      RewriteDeltaUnscanned(s, u, x, id, time, delta, env);
    } else {
      RewriteReady(s, u, id);
      SameSizesReady(u.rows, x.rows, p, delta);
      RewriteExactOff(s, u, id);
      SameSizesExactOff(u.rows, x.rows, p);
      DeltaFinish(x, p, time, delta, env);
    }
  }

  lemma OverwriteRewrites(s: Store, p: Path, size: nat, mtime: int, keepEtag: bool)
    requires Valid(s) && HasPath(s.rows, p) && !IsDirAt(s.rows, p)
    ensures Rewrites(s, Overwrite(s, p, size, mtime, keepEtag), IdAt(s.rows, p))
  {
  }

  /** What an accepted write leaves at `p`. */
  ghost predicate Written(t: Table, p: Path, up: Upload) {
    && HasPath(t, p)
    && var r := t[IdAt(t, p)];
       !r.isDir && r.size == up.size && r.mtime == up.mtime
  }

  lemma RewriteThenDelta(s: Store, u: Store, x: Store, id: int, time: int, env: Env)
    requires Valid(s) && Rewrites(s, u, id) && u.rows[id].size >= 0
    requires Valid(x) && SameSizes(u.rows, x.rows)
    requires Quiet(u, x, s.rows[id].path, s.rows[id].path)
    ensures var p := s.rows[id].path;
      var w := Prop(x, p, time, u.rows[id].size - s.rows[id].size, env);
      && Valid(w) && Evolves(s, w) && At(w.rows, id, p) && w.rows[id] == u.rows[id]
      && (Exact(s.rows) ==> (Exact(w.rows) <==> NotLastUnscanned(s.rows, id)))
  {
    hide Evolves, EditBody, Exact, DeltaReady, SameSizes, NotLastUnscanned, Shaped, SizesOk, TrashIsFolder;
    var p, delta := s.rows[id].path, u.rows[id].size - s.rows[id].size;
    RewriteKeepsShape(s, u, id);
    var w := Prop(x, p, time, delta, env);
    PropQuiet(x, p, time, delta, env, p, p);
    QuietTransitive(u, x, w, p, p);
    assert QuietRow(u, u.rows[id], w.rows[id], p, p);
    EditThenQuiet(s, u, w, p, p);
    if Exact(s.rows) {
      RewriteDelta(s, u, x, id, time, env);
    }
  }

  lemma WrittenAt(w: Store, id: int, p: Path, up: Upload)
    requires Valid(w) && At(w.rows, id, p)
    requires !w.rows[id].isDir && w.rows[id].size == up.size && w.rows[id].mtime == up.mtime
    ensures Written(w.rows, p, up)
  {
    assert At(w.rows, IdAt(w.rows, p), p);
  }

  lemma CommitOverwriteKeeps(s: Store, p: Path, up: Upload, env: Env)
    requires Valid(s) && p != [] && HasPath(s.rows, p) && !IsDirAt(s.rows, p)
    ensures var id := IdAt(s.rows, p);
      var w := CommitOverwrite(s, p, s.rows[id], up, env);
      && Valid(w) && Evolves(s, w) && Written(w.rows, p, up)
      && (Exact(s.rows) ==> (Exact(w.rows) <==> NotLastUnscanned(s.rows, id)))
  {
    hide Evolves, Exact, EditBody, Quiet, Shaped, SizesOk, TrashIsFolder;
    var id := IdAt(s.rows, p);
    var keep := ReusesEtag(s.rows[id], p, env);
    var s1 := Overwrite(s, p, up.size, up.mtime, keep);
    OverwriteRewrites(s, p, up.size, up.mtime, keep);
    RewriteKeepsShape(s, s1, id);
    AboveParent(p);
    TouchQuiet(s1, Parent(p), env, p, p);
    RewriteThenDelta(s, s1, Touch(s1, Parent(p), env), id, up.mtime, env);
    WrittenAt(CommitOverwrite(s, p, s.rows[id], up, env), id, p, up);
  }

  /** One part of a bulk upload onto an existing file, after its version is kept. */
  lemma BulkOverwriteKeeps(s: Store, p: Path, up: Upload, env: Env)
    requires Valid(s) && p != [] && HasPath(s.rows, p) && !IsDirAt(s.rows, p)
    ensures var id := IdAt(s.rows, p);
      var w := BulkOverwrite(s, p, s.rows[id], up, env);
      && Valid(w) && Evolves(s, w) && Written(w.rows, p, up)
      && (Exact(s.rows) ==> (Exact(w.rows) <==> NotLastUnscanned(s.rows, id)))
  {
    hide Evolves, Exact, EditBody, Quiet;
    var id := IdAt(s.rows, p);
    var s1 := Overwrite(s, p, up.size, up.mtime, false);
    OverwriteRewrites(s, p, up.size, up.mtime, false);
    RewriteKeepsShape(s, s1, id);
    QuietReflexive(s1, p, p);
    RewriteThenDelta(s, s1, s1, id, up.mtime, env);
    WrittenAt(BulkOverwrite(s, p, s.rows[id], up, env), id, p, up);
  }

  lemma BulkNewKeeps(s: Store, p: Path, up: Upload, env: Env)
    requires Valid(s) && InFiles(p) && !HasPath(s.rows, p) && IsDirAt(s.rows, Parent(p))
    ensures var w := BulkNew(s, p, up, env);
      Keeps(s, w) && Written(w.rows, p, up)
  {
    var s1 := InsertFresh(s, NewRow(s, p, false, up.size, up.mtime, up.mtime, 0));
    var r := NewRow(s, p, false, up.size, up.mtime, up.mtime, s.nextEtag);
    InsertFreshAdds(s, p, false, up.size, up.mtime, up.mtime);
    AddKeepsShape(s, s1, r);
    var w := Prop(s1, p, up.mtime, up.size, env);
    PropQuiet(s1, p, up.mtime, up.size, env, p, p);
    AddThenQuiet(s, s1, w, r);
    WrittenAt(w, s.nextId, p, up);
    if Exact(s.rows) {
      AddReady(s, s1, r);
      AddExactOff(s, s1, r);
      DeltaFinish(s1, p, up.mtime, up.size, env);
    }
  }

  /** Keeping a version does not disturb the folder of the file. */
  lemma VersionSiblings(s: Store, u: Store, p: Path, v: Path, id: int)
    requires Valid(s) && Valid(u) && Frame(s, u, v) && InFiles(p) && v != [] && v[0] != "files"
    requires At(s.rows, id, p)
    ensures At(u.rows, id, p) && u.rows[id] == s.rows[id] && IdAt(u.rows, p) == id
    ensures NotLastUnscanned(s.rows, id) <==> NotLastUnscanned(u.rows, id)
  {
    var a := s.rows[id].parent;
    assert Linked(s.rows, id);
    assert At(u.rows, id, p);
    assert At(u.rows, IdAt(u.rows, p), p);
    forall c | c in u.rows && u.rows[c].parent == a
      ensures c in s.rows && u.rows[c] == s.rows[c]
    {
      ChildByPath(u.rows, a, c);
      assert u.rows[c].path[0] == "files";
    }
    forall c | c in s.rows && s.rows[c].parent == a
      ensures c in u.rows && u.rows[c] == s.rows[c]
    {
      ChildByPath(s.rows, a, c);
      assert s.rows[c].path[0] == "files";
    }
    if OtherUnscanned(s.rows, a, id) {
      var c :| c in Children(s.rows, a) && c != id && s.rows[c].size == -1;
      assert c in Children(u.rows, a) && u.rows[c].size == -1;
    }
    if OtherUnscanned(u.rows, a, id) {
      var c :| c in Children(u.rows, a) && c != id && u.rows[c].size == -1;
      assert c in Children(s.rows, a) && s.rows[c].size == -1;
    }
  }
}
