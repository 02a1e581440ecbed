/** Which uploads are accepted, decided from the table before them. */
module PutGuards {
  import opened Paths
  import opened Tree
  import opened Propagation
  import opened Stores
  import opened Statements
  import opened RowEdits
  import opened Operations
  import opened OperationProofs

  /** Overwriting `p` keeps its content as a version that was not kept before. */
  ghost predicate AddsVersion(t: Table, p: Path)
    requires InFiles(p) && HasPath(t, p)
  {
    var r := t[IdAt(t, p)];
    var v := VersionPath(p, r.mtime);
    && !IsPartFile(p) && r.size != 0 && !r.isDir
    && CanEnsure(t, Parent(v)) && NoFileAbove(t, v) && !HasPath(t, v)
  }

  /** The size of the storage root that the check at commit will see: a version
      kept on the way has been added to it by then. */
  ghost function UsedAtCommit(t: Table, p: Path): int
    requires InFiles(p)
  {
    var used := if HasPath(t, []) then t[IdAt(t, [])].size else 0;
    if used >= 0 && HasPath(t, p) && AddsVersion(t, p) then used + t[IdAt(t, p)].size else used
  }

  predicate Fits(quota: Quota, used: int, size: nat) {
    quota.Limit? ==> size < quota.bytes - used
  }

  ghost predicate PutAdmitted(t: Table, p: Path, up: Upload)
    requires InFiles(p)
  {
    && !IsDirAt(t, p)
    && CanEnsure(t, Parent(p)) && (HasPath(t, Parent(p)) ==> IsDirAt(t, Parent(p)))
    && up.checksumOk
    && Fits(up.quota, UsedAtCommit(t, p), up.size)
  }

  /** On an exact tree, or for a new file on any tree, an upload is accepted exactly
      when it is admitted. */
  lemma PutDecided(s: Store, p: Path, up: Upload, env: Env)
    requires Valid(s) && InFiles(p)
    requires Exact(s.rows) || !HasPath(s.rows, p)
    ensures Put(s, p, up, env).outcome == Done <==> PutAdmitted(s.rows, p, up)
  {
    hide Evolves, Exact, StoreVersion, AddsVersion, CommitNew, CommitOverwrite;
    if !IsDirAt(s.rows, p) && CanEnsure(s.rows, Parent(p)) {
      AboveParent(p);
      EnsureKeeps(s, Parent(p), env);
      var s1 := EnsureDirs(s, Parent(p), env);
      ExtendsPaths(s, s1, Parent(p), p);
      ExtendsPaths(s, s1, Parent(p), Parent(p));
      ExtendsPaths(s, s1, Parent(p), []);
      if HasPath(s.rows, p) {
        VersionRoot(s, p, env);
        EnsureNothing(s, p, env);
      }
    }
  }

  lemma EnsureNothing(s: Store, p: Path, env: Env)
    requires Valid(s) && p != [] && HasPath(s.rows, p)
    ensures EnsureDirs(s, Parent(p), env) == s
  {
    var id := IdAt(s.rows, p);
    assert Linked(s.rows, id);
    assert At(s.rows, s.rows[id].parent, Parent(p));
  }

  /** Keeping a version adds its size to a scanned root. */
  lemma VersionRoot(s: Store, p: Path, env: Env)
    requires Valid(s) && Exact(s.rows) && InFiles(p) && HasPath(s.rows, p) && !IsDirAt(s.rows, p)
    ensures var u := StoreVersion(s, p, s.rows[IdAt(s.rows, p)], env);
      && HasPath(u.rows, p) && HasPath(u.rows, []) && u.rows[IdAt(u.rows, [])].size == UsedAtCommit(s.rows, p)
  {
    hide Evolves, Exact, StoreVersion, EditBody;
    var id, r0 := IdAt(s.rows, p), IdAt(s.rows, []);
    var r := s.rows[id];
    var v := VersionPath(p, r.mtime);
    var u := StoreVersion(s, p, r, env);
    StoreVersionKeeps(s, p, r, env);
    VersionSiblings(s, u, p, v, id);
    assert At(u.rows, r0, []);
    assert IdAt(u.rows, []) == r0;
    if r.size == -1 {
      AncestorsUnscanned(s.rows, id, r0);
      AncestorsUnscanned(u.rows, id, r0);
    } else {
      VersionSizes(s, p, env, r0);
    }
  }

  lemma VersionSizes(s: Store, p: Path, env: Env, r0: int)
    requires Valid(s) && Exact(s.rows) && InFiles(p) && HasPath(s.rows, p) && !IsDirAt(s.rows, p)
    requires At(s.rows, r0, []) && s.rows[IdAt(s.rows, p)].size >= 0
    ensures var r := s.rows[IdAt(s.rows, p)];
      var u := StoreVersion(s, p, r, env);
      && r0 in u.rows
      && u.rows[r0].size == if AddsVersion(s.rows, p) && s.rows[r0].size != -1 then s.rows[r0].size + r.size
                            else s.rows[r0].size
  {
    hide Evolves, Exact, EditBody, EnsureDirs, DeltaReady, Quiet;
    var r := s.rows[IdAt(s.rows, p)];
    var v := VersionPath(p, r.mtime);
    var u := StoreVersion(s, p, r, env);
    if u != s {
      AboveParent(v);
      EnsureKeeps(s, Parent(v), env);
      var s1 := EnsureDirs(s, Parent(v), env);
      ExtendsPaths(s, s1, Parent(v), v);
      ExtendsPaths(s, s1, Parent(v), Parent(v));
      VersionRowSizes(s1, v, r, env, r0);
    } else if AddsVersion(s.rows, p) {
      StoreVersionAdds(s, p, r, env);
    }
  }

  /** A version that is not there yet does change the store. */
  lemma StoreVersionAdds(s: Store, p: Path, r: Row, env: Env)
    requires Valid(s) && InFiles(p) && HasPath(s.rows, p) && r == s.rows[IdAt(s.rows, p)] && AddsVersion(s.rows, p)
    ensures StoreVersion(s, p, r, env).nextId > s.nextId
  {
    hide Exact, EditBody, EnsureDirs, Chain;
    var v := VersionPath(p, r.mtime);
    AboveParent(v);
    EnsureKeeps(s, Parent(v), env);
    ExtendsPaths(s, EnsureDirs(s, Parent(v), env), Parent(v), v);
  }

  lemma VersionRowSizes(s: Store, v: Path, r: Row, env: Env, r0: int)
    requires Valid(s) && Exact(s.rows) && v != [] && v[0] == "files_versions" && IsDirAt(s.rows, Parent(v))
    requires r.size >= 0 && r.etag < s.nextEtag && At(s.rows, r0, [])
    ensures var u := if HasPath(s.rows, v) then s
                     else Insert(s, NewRow(s, v, false, r.size, r.mtime, env.now, r.etag));
      var w := ChainOn(Prop(Touch(u, Parent(v), env), v, env.now, 0, env), v);
      && r0 in w.rows
      && w.rows[r0].size == if !HasPath(s.rows, v) && s.rows[r0].size != -1 then s.rows[r0].size + r.size
                            else s.rows[r0].size
  {
    hide Evolves, EditBody, DeltaReady, Quiet, Exact;
    var n := NewRow(s, v, false, r.size, r.mtime, env.now, r.etag);
    var u := if HasPath(s.rows, v) then s else Insert(s, n);
    var due := if HasPath(s.rows, v) then 0 else r.size;
    if HasPath(s.rows, v) {
      ExactIsReady(s, v);
    } else {
      AddKeepsShape(s, u, n);
      AddReady(s, u, n);
    }
    AboveParent(v);
    var u1 := Touch(u, Parent(v), env);
    TouchQuiet(u, Parent(v), env, v, v);
    SameSizesReady(u.rows, u1.rows, v, due);
    var u2 := Prop(u1, v, env.now, 0, env);
    PropQuiet(u1, v, env.now, 0, env, v, v);
    PropZeroSizes(u1, v, env.now, env);
    SameSizesReady(u1.rows, u2.rows, v, due);
    ChainDelta(u2.rows, v, due, r0);
  }
}
