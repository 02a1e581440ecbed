/** One theorem per write request: what it keeps, and exactly when it leaves every
    recorded folder size right. */
module RequestProofs {
  import opened Paths
  import opened Tree
  import opened Stores
  import opened Statements
  import opened RowEdits
  import opened Operations
  import opened OperationProofs
  import opened PutGuards

  /** The row at `p`, when there is one, is scanned or not the only unscanned
      entry of its folder. */
  ghost predicate SafeTarget(t: Table, p: Path) {
    HasPath(t, p) ==> NotLastUnscanned(t, IdAt(t, p))
  }

  /** PUT keeps the tree's shape and history; on an exact tree it is done exactly
      when it is admitted, and then keeps sizes exact unless it replaces the last
      unscanned entry of a folder. */
  lemma PutKeeps(s: Store, p: Path, up: Upload, env: Env)
    requires Valid(s) && InFiles(p)
    ensures var w := Put(s, p, up, env);
      && Valid(w.store) && Evolves(s, w.store)
      && (w.outcome == Done ==> Written(w.store.rows, p, up))
      && (Exact(s.rows) ==> (w.outcome == Done <==> PutAdmitted(s.rows, p, up)))
      && (Exact(s.rows) ==> (Exact(w.store.rows) <==> !PutAdmitted(s.rows, p, up) || SafeTarget(s.rows, p)))
  {
    hide PutAdmitted;
    PutKeepsUnless(s, p, up, env);
    if Exact(s.rows) {
      PutDecided(s, p, up, env);
    }
  }

  lemma PutKeepsUnless(s: Store, p: Path, up: Upload, env: Env)
    requires Valid(s) && InFiles(p)
    ensures var w := Put(s, p, up, env);
      && Valid(w.store) && Evolves(s, w.store)
      && (w.outcome == Done ==> Written(w.store.rows, p, up))
      && (Exact(s.rows) ==> (Exact(w.store.rows) <==> w.outcome == Refused || SafeTarget(s.rows, p)))
  {
    var w := Put(s, p, up, env);
    KeepsReflexive(s);
    if IsDirAt(s.rows, p) || !CanEnsure(s.rows, Parent(p)) {
      return;
    }
    AboveParent(p);
    EnsureKeeps(s, Parent(p), env);
    var s1 := EnsureDirs(s, Parent(p), env);
    ExtendsPaths(s, s1, Parent(p), p);
    if !IsDirAt(s1.rows, Parent(p)) || !up.checksumOk {
      return;
    }
    if HasPath(s.rows, p) {
      ParentExists(s, p);
      assert s1 == s;
      PutOverKeeps(s, p, up, env);
    } else if w.outcome == Done {
      CommitNewKeeps(s1, p, up, env);
      KeepsTransitive(s, s1, w.store);
    }
  }

  lemma ParentExists(s: Store, p: Path)
    requires Valid(s) && p != [] && HasPath(s.rows, p)
    ensures IsDirAt(s.rows, Parent(p))
    ensures s.rows[IdAt(s.rows, p)].parent == IdAt(s.rows, Parent(p))
  {
    var id := IdAt(s.rows, p);
    assert Linked(s.rows, id);
    assert At(s.rows, s.rows[id].parent, Parent(p));
  }

  lemma PutOverKeeps(s: Store, p: Path, up: Upload, env: Env)
    requires Valid(s) && InFiles(p) && HasPath(s.rows, p) && !IsDirAt(s.rows, p)
    ensures var id := IdAt(s.rows, p);
      var before := s.rows[id];
      var s2 := StoreVersion(s, p, before, env);
      && Keeps(s, s2) && HasPath(s2.rows, p)
      && (var w := CommitOverwrite(s2, p, before, up, env);
          && Valid(w) && Evolves(s, w) && Written(w.rows, p, up)
          && (Exact(s.rows) ==> (Exact(w.rows) <==> NotLastUnscanned(s.rows, id))))
  {
    var id := IdAt(s.rows, p);
    var before := s.rows[id];
    var s2 := StoreVersion(s, p, before, env);
    StoreVersionKeeps(s, p, before, env);
    VersionSiblings(s, s2, p, VersionPath(p, before.mtime), id);
    CommitOverwriteKeeps(s2, p, up, env);
    EvolvesTransitive(s, s2, CommitOverwrite(s2, p, before, up, env));
  }

  ghost predicate BulkAdmitted(t: Table, p: Path)
    requires p != []
  {
    IsDirAt(t, Parent(p)) && !IsDirAt(t, p)
  }

  /** A bulk upload part behaves like PUT, except that it needs its folder. */
  lemma BulkKeeps(s: Store, p: Path, up: Upload, env: Env)
    requires Valid(s) && InFiles(p)
    ensures var w := BulkWrite(s, p, up, env);
      && Valid(w.store) && Evolves(s, w.store)
      && (w.outcome == Done <==> BulkAdmitted(s.rows, p))
      && (w.outcome == Done ==> Written(w.store.rows, p, up))
      && (Exact(s.rows) ==> (Exact(w.store.rows) <==> !BulkAdmitted(s.rows, p) || SafeTarget(s.rows, p)))
  {
    KeepsReflexive(s);
    if BulkAdmitted(s.rows, p) {
      if HasPath(s.rows, p) {
        BulkOverKeeps(s, p, up, env);
      } else {
        BulkNewKeeps(s, p, up, env);
      }
    }
  }

  lemma BulkOverKeeps(s: Store, p: Path, up: Upload, env: Env)
    requires Valid(s) && InFiles(p) && HasPath(s.rows, p) && !IsDirAt(s.rows, p)
    ensures var id := IdAt(s.rows, p);
      var before := s.rows[id];
      var s2 := StoreVersion(s, p, before, env);
      && HasPath(s2.rows, p)
      && (var w := BulkOverwrite(s2, p, before, up, env);
          && Valid(w) && Evolves(s, w) && Written(w.rows, p, up)
          && (Exact(s.rows) ==> (Exact(w.rows) <==> NotLastUnscanned(s.rows, id))))
  {
    var id := IdAt(s.rows, p);
    var before := s.rows[id];
    var s2 := StoreVersion(s, p, before, env);
    StoreVersionKeeps(s, p, before, env);
    VersionSiblings(s, s2, p, VersionPath(p, before.mtime), id);
    BulkOverwriteKeeps(s2, p, up, env);
    EvolvesTransitive(s, s2, BulkOverwrite(s2, p, before, up, env));
  }

  // ── DELETE ─────────────────────────────────────────────────────────────────

  lemma RemoveTreeRemoves(s: Store, p: Path)
    requires p != []
    ensures Removes(s, RemoveTree(s, p), p)
  {
  }

  /** Deleting an unscanned row leaves its folder unscanned. */
  lemma RemoveUnscanned(s: Store, u: Store, p: Path)
    requires Valid(s) && Exact(s.rows) && Removes(s, u, p) && HasPath(s.rows, p)
    requires s.rows[IdAt(s.rows, p)].size == -1
    ensures Exact(u.rows) <==> NotLastUnscanned(s.rows, IdAt(s.rows, p))
  {
    var t, id := s.rows, IdAt(s.rows, p);
    ParentExists(s, p);
    var a := t[id].parent;
    AboveParent(p);
    assert ExactAt(t, a);
    RemoveChildren(s, u, p, a);
    forall c | c in Children(t, a)
      ensures c in Children(u.rows, a) <==> c != id
    {
      assert At(t, c, t[c].path);
    }
    assert Children(u.rows, a) == Children(t, a) - {id};
    LoseChild(t, u.rows, a, id);
    SumNonNegativeUnless(u.rows, a);
    RemoveExactOff(s, u, p);
    RemoveKeepsShape(s, u, p);
    forall j | j in u.rows && u.rows[j].isDir && j != a
      ensures ExactAt(u.rows, j)
    {
      assert !At(s.rows, j, Parent(p));
    }
    assert ExactAt(u.rows, a) <==> HasUnscanned(u.rows, a);
  }

  lemma HardDeleteKeeps(s: Store, p: Path, env: Env)
    requires Valid(s) && p != []
    ensures var w := HardDelete(s, p, env);
      && Valid(w.store) && Evolves(s, w.store)
      && (w.outcome == Done <==> HasPath(s.rows, p))
      && (w.outcome == Done ==> Stamped(s.nextEtag, w.store.rows, p))
      && !HasPath(w.store.rows, p)
      && (forall id :: id in w.store.rows <==> id in s.rows && !AtOrBelow(s.rows[id].path, p))
      && (Exact(s.rows) ==> (Exact(w.store.rows) <==> SafeTarget(s.rows, p)))
  {
    if !HasPath(s.rows, p) {
      KeepsReflexive(s);
      forall id | id in s.rows
        ensures !AtOrBelow(s.rows[id].path, p)
      {
        assert !At(s.rows, id, p);
        if Above(p, s.rows[id].path) {
          AncestorsExist(s.rows, id, p);
        }
      }
      return;
    }
    var size := s.rows[IdAt(s.rows, p)].size;
    var u := RemoveTree(s, p);
    var w := Prop(u, p, env.now, Shrink(size), env);
    RemoveTreeRemoves(s, p);
    RemoveKeepsShape(s, u, p);
    PropQuiet(u, p, env.now, Shrink(size), env, p, p);
    EditThenQuiet(s, u, w, p, p);
    SameShapePath(u.rows, w.rows, p);
    if Exact(s.rows) {
      if size == -1 {
        PropZeroSizes(u, p, env.now, env);
        SameSizesExact(u.rows, w.rows);
        RemoveUnscanned(s, u, p);
      } else {
        RemoveReady(s, u, p);
        RemoveExactOff(s, u, p);
        DeltaFinish(u, p, env.now, Shrink(size), env);
      }
    }
  }

  // ── COPY ───────────────────────────────────────────────────────────────────

  lemma ShadowKeeps(s: Store, p: Path, env: Env)
    requires Valid(s)
    ensures Keeps(s, ShadowChain(s, p, env))
    ensures Quiet(s, ShadowChain(s, p, env), ShadowPath("files_versions", p), ShadowPath("files_versions", p))
  {
    var v := ShadowPath("files_versions", p);
    var u := Prop(s, v, env.now, 0, env);
    PropQuiet(s, v, env.now, 0, env, v, v);
    var w := ChainOn(u, v);
    ChainQuiet(u, v, v, v);
    QuietTransitive(s, u, w, v, v);
    QuietStamped(s.nextEtag, u, w, v, v, v);
    NothingIsEdit(s, v);
    EditThenQuiet(s, s, w, v, v);
    if Exact(s.rows) {
      PropZeroSizes(s, v, env.now, env);
      SameSizesExact(s.rows, u.rows);
      ChainFinish(u, v);
    }
  }

  lemma RemoveFileRemoves(s: Store, p: Path)
    requires Valid(s) && p != [] && !IsDirAt(s.rows, p)
    ensures Removes(s, RemoveAt(s, p), p)
  {
    forall id | id in s.rows
      ensures s.rows[id].path == p <==> AtOrBelow(s.rows[id].path, p)
    {
      if Above(p, s.rows[id].path) {
        AncestorsExist(s.rows, id, p);
      }
    }
  }

  lemma NothingBelowFile(s: Store, q: Path, p: Path)
    requires Valid(s) && HasPath(s.rows, q) && !IsDirAt(s.rows, p)
    ensures !Above(p, q)
  {
    if Above(p, q) {
      AncestorsExist(s.rows, IdAt(s.rows, q), p);
    }
  }

  /** `to` holds a file with the size, mtime and etag of `r`. */
  ghost predicate Cloned(t: Table, r: Row, to: Path) {
    && HasPath(t, to)
    && var c := t[IdAt(t, to)];
       !c.isDir && c.size == r.size && c.mtime == r.mtime && c.etag == r.etag
  }

  lemma ClonedQuiet(u: Store, w: Store, r: Row, to: Path, v: Path)
    requires Valid(u) && Valid(w) && Quiet(u, w, v, v) && Cloned(u.rows, r, to) && !Above(to, v)
    ensures Cloned(w.rows, r, to)
  {
    SameShapePath(u.rows, w.rows, to);
    assert QuietRow(u, u.rows[IdAt(u.rows, to)], w.rows[IdAt(u.rows, to)], v, v);
  }

  /** The rows of a copy: the target is replaced by a clone of the source. */
  lemma CopyRowEdit(s: Store, from: Path, to: Path, env: Env)
    requires Valid(s) && InFiles(to) && from != to && !IsDirAt(s.rows, to) && !IsDirAt(s.rows, from)
    requires IsDirAt(s.rows, Parent(to))
    ensures var u := CopyRow(RemoveAt(s, to), from, to, env);
      && Valid(u) && EditBody(s, u, to, to)
      && (Exact(s.rows) ==> ExactOff(u.rows, to))
      && (HasPath(s.rows, from) ==> Cloned(u.rows, s.rows[IdAt(s.rows, from)], to))
  {
    var s1 := RemoveAt(s, to);
    RemoveFileRemoves(s, to);
    RemoveKeepsShape(s, s1, to);
    AboveParent(to);
    if Exact(s.rows) {
      RemoveExactOff(s, s1, to);
    }
    if HasPath(s.rows, from) {
      NothingBelowFile(s, from, to);
    }
    if HasPath(s1.rows, from) {
      assert At(s.rows, IdAt(s1.rows, from), from);
      var r := s1.rows[IdAt(s1.rows, from)];
      var n := NewRow(s1, to, false, r.size, r.mtime, env.now, r.etag);
      var u := Insert(s1, n);
      AddKeepsShape(s1, u, n);
      assert At(u.rows, IdAt(u.rows, to), to);
      if Exact(s.rows) {
        AddAfterRemove(s, s1, u, n);
      }
      forall id | id in s.rows && id in u.rows
        ensures EditedRow(s, u.rows[id], s.rows[id], to, to)
      {
        assert u.rows[id] == s.rows[id];
      }
    }
  }

  lemma AddAfterRemove(s: Store, s1: Store, u: Store, n: Row)
    requires Valid(s1) && Adds(s1, u, n) && !n.isDir
    requires ExactOff(s1.rows, n.path)
    ensures ExactOff(u.rows, n.path)
  {
    forall id | id in u.rows && u.rows[id].isDir && !Above(u.rows[id].path, n.path)
      ensures ExactAt(u.rows, id)
    {
      AddChildren(s1, u, n, id);
      AboveParent(n.path);
      ExpectedSame(s1.rows, u.rows, id);
    }
  }

  /** The tail of a copy makes every folder size right. */
  lemma CopyTail(s: Store, u: Store, to: Path, env: Env)
    requires Valid(s) && Valid(u) && to != [] && EditBody(s, u, to, to)
    requires Exact(s.rows) ==> ExactOff(u.rows, to)
    ensures var w := ChainOn(Prop(u, to, env.now, 0, env), to);
      && Keeps(s, w) && Stamped(s.nextEtag, w.rows, to)
      && forall r :: Cloned(u.rows, r, to) ==> Cloned(w.rows, r, to)
  {
    var u1 := Prop(u, to, env.now, 0, env);
    PropQuiet(u, to, env.now, 0, env, to, to);
    var w := ChainOn(u1, to);
    ChainQuiet(u1, to, to, to);
    QuietTransitive(u, u1, w, to, to);
    QuietStamped(s.nextEtag, u1, w, to, to, to);
    EditThenQuiet(s, u, w, to, to);
    forall r | Cloned(u.rows, r, to)
      ensures Cloned(w.rows, r, to)
    {
      ClonedQuiet(u, w, r, to, to);
    }
    if Exact(s.rows) {
      PropZeroSizes(u, to, env.now, env);
      SameSizesExactOff(u.rows, u1.rows, to);
      ChainFinish(u1, to);
    }
  }

  lemma RemoveNothing(s: Store, p: Path)
    requires !HasPath(s.rows, p)
    ensures RemoveAt(s, p) == s
  {
    forall id | id in s.rows
      ensures s.rows[id].path != p
    {
      assert !At(s.rows, id, p);
    }
    assert RemoveAt(s, p).rows == s.rows;
  }

  lemma FileNotAbove(s: Store, from: Path, to: Path)
    requires HasPath(s.rows, from) && !IsDirAt(s.rows, from) && NoFileAbove(s.rows, to)
    ensures !Above(from, to)
  {
  }

  lemma CopyRows(s: Store, from: Path, to: Path, env: Env)
    requires Valid(s) && InFiles(from) && InFiles(to) && CopyAllowed(s.rows, from, to, true)
    requires HasPath(RemoveAt(s, to).rows, from) ==> CanEnsure(RemoveAt(s, to).rows, Parent(to))
    ensures var s1 := RemoveAt(s, to);
      var s2 := if HasPath(s1.rows, from) then CopyRow(EnsureDirs(s1, Parent(to), env), from, to, env) else s1;
      var w := ChainOn(Prop(s2, to, env.now, 0, env), to);
      && Keeps(s, w) && Stamped(s.nextEtag, w.rows, to)
      && (HasPath(s.rows, from) ==> Cloned(w.rows, s.rows[IdAt(s.rows, from)], to))
  {
    var s1 := RemoveAt(s, to);
    if HasPath(s.rows, to) {
      ParentExists(s, to);
      RemoveFileRemoves(s, to);
      RemoveKeepsShape(s, s1, to);
      AboveParent(to);
      assert EnsureDirs(s1, Parent(to), env) == s1;
      CopyRowEdit(s, from, to, env);
      CopyTail(s, CopyRow(s1, from, to, env), to, env);
    } else {
      RemoveNothing(s, to);
      if HasPath(s.rows, from) {
        AboveParent(to);
        FileNotAbove(s, from, to);
        AboveSplit(from, to);
        EnsureKeeps(s, Parent(to), env);
        var e := EnsureDirs(s, Parent(to), env);
        ExtendsPaths(s, e, Parent(to), to);
        ExtendsPaths(s, e, Parent(to), from);
        ExtendsPaths(s, e, Parent(to), Parent(to));
        assert IsDirAt(e.rows, Parent(to));
        CopyRowEdit(e, from, to, env);
        RemoveNothing(e, to);
        CopyTail(e, CopyRow(e, from, to, env), to, env);
        KeepsTransitive(s, e, ChainOn(Prop(CopyRow(e, from, to, env), to, env.now, 0, env), to));
      } else {
        NothingIsEdit(s, to);
        CopyTail(s, s, to, env);
      }
    }
  }

  /** COPY keeps everything, always: the chain is recomputed on the full target path. */
  lemma CopyKeeps(s: Store, from: Path, to: Path, diskOk: bool, env: Env)
    requires Valid(s) && InFiles(from) && InFiles(to)
    ensures var w := Copy(s, from, to, diskOk, env);
      && Keeps(s, w.store)
      && (w.outcome == Done ==> Stamped(s.nextEtag, w.store.rows, to))
      && (w.outcome == Done && HasPath(s.rows, from) ==>
            Cloned(w.store.rows, s.rows[IdAt(s.rows, from)], to))
  {
    KeepsReflexive(s);
    if CopyAllowed(s.rows, from, to, diskOk) {
      var s1 := RemoveAt(s, to);
      if HasPath(s.rows, to) {
        ParentExists(s, to);
        AboveParent(to);
        assert At(s1.rows, IdAt(s.rows, Parent(to)), Parent(to));
      }
      if HasPath(s1.rows, from) && !CanEnsure(s1.rows, Parent(to)) {
        RemoveNothing(s, to);
      } else {
        CopyRows(s, from, to, env);
        var s2 := if HasPath(s1.rows, from) then CopyRow(EnsureDirs(s1, Parent(to), env), from, to, env) else s1;
        var s3 := ChainOn(Prop(s2, to, env.now, 0, env), to);
        ShadowKeeps(s3, to, env);
        KeepsTransitive(s, s3, ShadowChain(s3, to, env));
        QuietStamped(s.nextEtag, s3, ShadowChain(s3, to, env),
                     ShadowPath("files_versions", to), ShadowPath("files_versions", to), to);
        if HasPath(s.rows, from) {
          var v := ShadowPath("files_versions", to);
          assert v[0] != to[0];
          ClonedQuiet(s3, ShadowChain(s3, to, env), s.rows[IdAt(s.rows, from)], to, v);
        }
      }
    }
  }

  // ── PROPPATCH ──────────────────────────────────────────────────────────────

  lemma MtimeEdit(s: Store, p: Path, mtime: int)
    requires Valid(s) && p != []
    ensures var u := WithMtime(s, p, mtime);
      Valid(u) && SameSizes(s.rows, u.rows) && EditBody(s, u, p, p)
  {
    var u := WithMtime(s, p, mtime);
    assert u.rows.Keys == s.rows.Keys;
    SameShapeKeeps(s.rows, u.rows);
    forall id | id in s.rows && id in u.rows
      ensures EditedRow(s, u.rows[id], s.rows[id], p, p)
    {
    }
  }

  lemma SetMtimeKeeps(s: Store, p: Path, mtime: int, env: Env)
    requires Valid(s) && p != []
    ensures Keeps(s, SetMtime(s, p, mtime, env).store)
  {
    hide WithMtime, EditBody, SameSizes, Quiet, Exact, Evolves, Prop, Shaped, SizesOk, TrashIsFolder;
    var u, w := WithMtime(s, p, mtime), SetMtime(s, p, mtime, env).store;
    MtimeEdit(s, p, mtime);
    PropQuiet(u, p, mtime, 0, env, p, p);
    EditThenQuiet(s, u, w, p, p);
    PropZeroSizes(u, p, mtime, env);
    SameSizesTransitive(s.rows, u.rows, w.rows);
    SameSizesExact(s.rows, w.rows);
  }
}
