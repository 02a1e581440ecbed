/** The row-by-row result of uploads, new folders, deletion and PROPPATCH. */
module WriteOutcomes {
  import opened Paths
  import opened Tree
  import opened Propagation
  import opened Stores
  import opened Statements
  import opened RowEdits
  import opened Operations
  import opened OperationProofs
  import opened PutGuards
  import opened RequestProofs
  import opened Outcomes
  import Decimal

  // ── PUT ────────────────────────────────────────────────────────────────────

  /** A row after a new file `p` was written: the file itself, the folders above it
      with the clamped mtime of the upload, except that folders above one that had to
      be made were told of that at the present time. */
  ghost predicate FileAdded(s: Store, w: Store, p: Path, up: Upload, env: Env, id: int)
    requires p != [] && id in w.rows
  {
    var q, r := w.rows[id].path, w.rows[id];
    var told := Min(up.mtime, env.now);
    if q == p then
      && id !in s.rows && !r.isDir && r.size == up.size && r.mtime == up.mtime && r.storageMtime == up.mtime
      && r.etag >= s.nextEtag
    else if Above(q, p) then
      ToldAbove(s, r, id, NextMissing(s.rows, q, p),
                if q != Parent(p) && !HasPath(s.rows, Parent(p)) then env.now else told, w.nextEtag - 1, env)
    else id in s.rows && r == s.rows[id]
  }

  /** A row after a new file was written into an existing folder. */
  lemma CommitNewRow(s: Store, p: Path, up: Upload, env: Env, id: int)
    requires Valid(s) && InFiles(p) && !HasPath(s.rows, p) && IsDirAt(s.rows, Parent(p))
    requires id in CommitNew(s, p, up, env).rows
    ensures var w := CommitNew(s, p, up, env);
      && w.nextEtag == s.nextEtag + 2
      && if id == s.nextId then
           && id !in s.rows
           && w.rows[id] == Row(p, w.rows[id].parent, Last(p), false, up.size, up.mtime, up.mtime, s.nextEtag)
         else
           && id in s.rows
           && w.rows[id] == if Above(s.rows[id].path, p)
                            then Folder(s.rows[id], w.rows[id], s.rows[id].path == Parent(p), Min(up.mtime, env.now),
                                        s.nextEtag + 1, env)
                            else s.rows[id]
  {
    hide TrashIsFolder, Chain;
    var s1 := InsertFresh(s, NewRow(s, p, false, up.size, up.mtime, up.mtime, 0));
    InsertFreshAdds(s, p, false, up.size, up.mtime, up.mtime);
    AddKeepsShape(s, s1, NewRow(s, p, false, up.size, up.mtime, up.mtime, s.nextEtag));
    AboveParent(p);
    ChainFrame(s1.rows, p);
    var s2 := ChainOn(s1, p);
    var s3 := Touch(s2, Parent(p), env);
    assert id in s1.rows;
    ChainTells(s1, p, id);
    TouchTells(s2, Parent(p), env, id);
    PropTells(s3, p, up.mtime, 0, env, id);
  }

  lemma PutNewRow(s: Store, p: Path, up: Upload, env: Env, id: int)
    requires Valid(s) && InFiles(p) && !HasPath(s.rows, p) && Put(s, p, up, env).outcome == Done
    requires id in Put(s, p, up, env).store.rows
    ensures FileAdded(s, Put(s, p, up, env).store, p, up, env, id)
  {
    hide CommitNew, EnsureDirs, Shaped, SizesOk, TrashIsFolder;
    var w := Put(s, p, up, env).store;
    var u := EnsureDirs(s, Parent(p), env);
    EnsureKeeps(s, Parent(p), env);
    ExtendsPaths(s, u, Parent(p), p);
    AboveParent(p);
    CommitNewRow(u, p, up, env, id);
    if id in u.rows {
      OpenedRow(s, p, env, id);
      AddedOverEnsured(s, u, w, p, up, env, id);
    } else {
    }
  }

  lemma AddedOverEnsured(s: Store, u: Store, w: Store, p: Path, up: Upload, env: Env, id: int)
    requires Valid(s) && p != [] && !HasPath(s.rows, p) && !HasPath(u.rows, p) && id in u.rows && id in w.rows
    requires s.nextEtag <= u.nextEtag && w.nextEtag == u.nextEtag + 2
    requires if HasPath(s.rows, Parent(p)) then u == s else Ensured(s, u, Parent(p), env, id)
    requires w.rows[id] == if Above(u.rows[id].path, p)
                           then Folder(u.rows[id], w.rows[id], u.rows[id].path == Parent(p), Min(up.mtime, env.now),
                                       u.nextEtag + 1, env)
                           else u.rows[id]
    ensures FileAdded(s, w, p, up, env, id)
  {
    hide Valid;
    var q := w.rows[id].path;
    StepDown(q, p);
    assert p[..|Parent(p)| + 1] == p;
    if HasPath(s.rows, Parent(p)) && Above(q, Parent(p)) {
      PrefixIsThere(s, Parent(p), |q| + 1);
    }
    assert At(u.rows, id, u.rows[id].path);
    assert id in s.rows ==> At(s.rows, id, s.rows[id].path);
  }

  // ── Versions ───────────────────────────────────────────────────────────────

  /** Where the content of `p` from before is kept: named after its mtime. */
  function VersionOf(p: Path, mtime: int): Path
    requires InFiles(p)
  {
    ["files_versions"] + p[1..|p| - 1] + [p[|p| - 1] + ".v" + Decimal.Text(mtime)]
  }

  /** A non-empty file is kept unless its name ends in `.part`, or something other than
      a file is in the way of the version. */
  ghost predicate IsKept(t: Table, p: Path, r: Row)
    requires InFiles(p)
  {
    && !r.isDir && r.size != 0
    && !(|p[|p| - 1]| >= 5 && p[|p| - 1][|p[|p| - 1]| - 5..] == ".part")
    && forall id :: id in t ==>
         && (t[id].path == VersionOf(p, r.mtime) ==> !t[id].isDir)
         && (Above(t[id].path, VersionOf(p, r.mtime)) ==> t[id].isDir)
  }

  /** A row after the content of `p` was kept or not. */
  ghost predicate VersionKept(s: Store, w: Store, p: Path, r: Row, env: Env, id: int)
    requires InFiles(p) && id in w.rows
  {
    var v, q, x := VersionOf(p, r.mtime), w.rows[id].path, w.rows[id];
    w.nextEtag >= s.nextEtag &&
    if !IsKept(s.rows, p, r) then id in s.rows && x == s.rows[id]
    else if q == v && id !in s.rows then
      !x.isDir && x.size == r.size && x.mtime == r.mtime && x.storageMtime == env.now && x.etag == r.etag
    else if Above(q, v) then
      ToldAbove(s, x, id, q == Parent(v) || NextMissing(s.rows, q, v), env.now, w.nextEtag - 1, env)
    else id in s.rows && x == s.rows[id]
  }

  /** The condition under which the server stores a version. */
  lemma KeptIff(s: Store, p: Path, r: Row)
    requires Valid(s) && InFiles(p) && HasPath(s.rows, p)
    ensures var v := VersionPath(p, r.mtime);
      && v == VersionOf(p, r.mtime)
      && (IsKept(s.rows, p, r) <==>
            !IsPartFile(p) && r.size != 0 && !r.isDir &&
            CanEnsure(s.rows, Parent(v)) && !IsDirAt(s.rows, v) && NoFileAbove(s.rows, v))
  {
    var v := VersionPath(p, r.mtime);
    FilesIsThere(s, p);
    AboveParent(v);
    forall id | id in s.rows
      ensures At(s.rows, id, s.rows[id].path)
      ensures Above(s.rows[id].path, Parent(v)) ==> Above(s.rows[id].path, v)
    {
      AboveSplit(s.rows[id].path, v);
    }
  }

  lemma FilesIsThere(s: Store, p: Path)
    requires Valid(s) && InFiles(p) && HasPath(s.rows, p)
    ensures HasPath(s.rows, ["files"])
  {
    PrefixIsThere(s, p, 1);
    assert p[..1] == ["files"];
  }

  /** The three statements after the version's row. */
  lemma VersionTail(u: Store, v: Path, env: Env, id: int)
    requires Valid(u) && v != []
    requires id in ChainOn(Prop(Touch(u, Parent(v), env), v, env.now, 0, env), v).rows
    ensures var w := ChainOn(Prop(Touch(u, Parent(v), env), v, env.now, 0, env), v);
      && id in u.rows && w.nextEtag == u.nextEtag + 1
      && w.rows[id] == if Above(u.rows[id].path, v)
                       then Folder(u.rows[id], w.rows[id], u.rows[id].path == Parent(v), env.now, u.nextEtag, env)
                       else u.rows[id]
  {
    hide TrashIsFolder, Chain;
    AboveParent(v);
    var u1 := Touch(u, Parent(v), env);
    TouchQuiet(u, Parent(v), env, v, v);
    var u2 := Prop(u1, v, env.now, 0, env);
    PropQuiet(u1, v, env.now, 0, env, v, v);
    ChainFrame(u2.rows, v);
    TouchTells(u, Parent(v), env, id);
    PropTells(u1, v, env.now, 0, env, id);
    ChainTells(u2, v, id);
  }

  lemma VersionRow(s: Store, p: Path, r: Row, env: Env, id: int)
    requires Valid(s) && InFiles(p) && HasPath(s.rows, p) && r.size >= -1 && r.etag < s.nextEtag
    requires id in StoreVersion(s, p, r, env).rows
    ensures VersionKept(s, StoreVersion(s, p, r, env), p, r, env, id)
  {
    hide Valid, EnsureDirs, Chain, IsKept, CanEnsure, IsPartFile, VersionPath, VersionOf, NoFileAbove, Ensured;
    KeptIff(s, p, r);
    var v := VersionPath(p, r.mtime);
    VersionPathBelow(p, r.mtime);
    if IsKept(s.rows, p, r) {
      var s1 := EnsureDirs(s, Parent(v), env);
      var u := if HasPath(s1.rows, v) then s1
               else Insert(s1, NewRow(s1, v, false, r.size, r.mtime, env.now, r.etag));
      VersionInserted(s, v, r, env);
      VersionTail(u, v, env, id);
      if id in s1.rows {
        OpenedRow(s, v, env, id);
      }
      KeptOverEnsured(s, s1, u, StoreVersion(s, p, r, env), v, r, env, id);
    }
  }

  lemma VersionInserted(s: Store, v: Path, r: Row, env: Env)
    requires Valid(s) && |v| >= 2 && v[0] == "files_versions" && r.size >= -1 && r.etag < s.nextEtag
    requires NoFileAbove(s.rows, v)
    ensures var s1 := EnsureDirs(s, Parent(v), env);
      var u := if HasPath(s1.rows, v) then s1
               else Insert(s1, NewRow(s1, v, false, r.size, r.mtime, env.now, r.etag));
      && NoFileAbove(s.rows, Parent(v)) && Valid(s1) && Valid(u)
      && s.nextEtag <= s1.nextEtag == u.nextEtag && s.rows.Keys <= s1.rows.Keys && s1.nextId !in s1.rows
      && (HasPath(s1.rows, v) <==> HasPath(s.rows, v))
  {
    hide EnsureDirs;
    NoFileAboveParent(s, v);
    EnsureFrame(s, Parent(v), env);
    EnsureKeeps(s, Parent(v), env);
    var s1 := EnsureDirs(s, Parent(v), env);
    ExtendsPaths(s, s1, Parent(v), v);
    if !HasPath(s1.rows, v) {
      AboveParent(v);
      assert IsDirAt(s1.rows, Parent(v)) by { FolderIsDir(s, v, env); }
      var n := NewRow(s1, v, false, r.size, r.mtime, env.now, r.etag);
      AddKeepsShape(s1, Insert(s1, n), n);
    }
  }

  lemma FolderIsDir(s: Store, v: Path, env: Env)
    requires Valid(s) && v != [] && NoFileAbove(s.rows, v) && NoFileAbove(s.rows, Parent(v))
    ensures IsDirAt(EnsureDirs(s, Parent(v), env).rows, Parent(v))
  {
    EnsureKeeps(s, Parent(v), env);
    AboveParent(v);
    ExtendsPaths(s, EnsureDirs(s, Parent(v), env), Parent(v), Parent(v));
  }

  lemma KeptOverEnsured(s: Store, s1: Store, u: Store, w: Store, v: Path, r: Row, env: Env, id: int)
    requires Valid(s) && v != [] && NoFileAbove(s.rows, v)
    requires s.nextEtag <= s1.nextEtag && s.rows.Keys <= s1.rows.Keys && s1.nextId !in s1.rows
    requires HasPath(s1.rows, v) <==> HasPath(s.rows, v)
    requires u == if HasPath(s1.rows, v) then s1
                  else Insert(s1, NewRow(s1, v, false, r.size, r.mtime, env.now, r.etag))
    requires id in u.rows && id in w.rows && w.nextEtag == s1.nextEtag + 1
    requires id in s1.rows ==> if HasPath(s.rows, Parent(v)) then s1 == s else Ensured(s, s1, Parent(v), env, id)
    requires w.rows[id] == if Above(u.rows[id].path, v)
                           then Folder(u.rows[id], w.rows[id], u.rows[id].path == Parent(v), env.now, s1.nextEtag, env)
                           else u.rows[id]
    ensures var q, x := w.rows[id].path, w.rows[id];
      if q == v && id !in s.rows then
        !x.isDir && x.size == r.size && x.mtime == r.mtime && x.storageMtime == env.now && x.etag == r.etag
      else if Above(q, v) then
        ToldAbove(s, x, id, q == Parent(v) || NextMissing(s.rows, q, v), env.now, w.nextEtag - 1, env)
      else id in s.rows && x == s.rows[id]
  {
    hide Valid, NoFileAbove;
    var q := w.rows[id].path;
    StepDown(q, v);
    assert v[..|Parent(v)| + 1] == v;
    if HasPath(s.rows, Parent(v)) && Above(q, Parent(v)) {
      PrefixIsThere(s, Parent(v), |q| + 1);
    }
    assert At(u.rows, id, u.rows[id].path);
    assert id in s1.rows ==> At(s1.rows, id, s1.rows[id].path);
    assert id in s.rows ==> At(s.rows, id, s.rows[id].path);
  }

  lemma NoFileAboveParent(s: Store, p: Path)
    requires p != [] && NoFileAbove(s.rows, p)
    ensures NoFileAbove(s.rows, Parent(p))
  {
    forall id | id in s.rows && Above(s.rows[id].path, Parent(p))
      ensures s.rows[id].isDir
    {
      AboveSplit(s.rows[id].path, p);
    }
  }

  lemma VersionPathBelow(p: Path, mtime: int)
    requires InFiles(p)
    ensures var v := VersionPath(p, mtime);
      v == VersionOf(p, mtime) && |v| >= 2 && v[0] == "files_versions"
  {
  }

  // ── Overwrites ─────────────────────────────────────────────────────────────

  /** A row after the file `p` with the row `r` was overwritten.  The file keeps its
      etag only when `reuse`; its folder is read back from disk when `touched`.  The
      root is also told when a version was kept, and then at the present time. */
  ghost predicate FileOverwritten(
      s: Store, w: Store, p: Path, r: Row, up: Upload, env: Env, touched: bool, reuse: bool, id: int)
    requires InFiles(p) && id in w.rows
  {
    var v, q, x := VersionOf(p, r.mtime), w.rows[id].path, w.rows[id];
    var kept, told := IsKept(s.rows, p, r), Min(up.mtime, env.now);
    w.nextEtag >= s.nextEtag + 2 &&
    if q == p then
      && At(s.rows, id, p)
      && x == r.(size := up.size, mtime := up.mtime, storageMtime := up.mtime, etag := x.etag)
      && if reuse then x.etag == r.etag else x.etag >= s.nextEtag
    else if q == [] && kept then
      ToldAbove(s, x, id, NextMissing(s.rows, q, v), env.now, w.nextEtag - 1, env)
    else if Above(q, p) then
      && ToldAbove(s, x, id, touched && q == Parent(p), told, w.nextEtag - 1, env)
      && id in s.rows && x.size == Resized(s.rows[id].size, up.size - r.size)
    else if kept && Above(q, v) then
      ToldAbove(s, x, id, q == Parent(v) || NextMissing(s.rows, q, v), env.now, w.nextEtag - 3, env)
    else if kept && q == v && id !in s.rows then
      !x.isDir && x.size == r.size && x.mtime == r.mtime && x.storageMtime == env.now && x.etag == r.etag
    else id in s.rows && x == s.rows[id]
  }

  lemma CommitOverwriteTells(u: Store, p: Path, before: Row, up: Upload, env: Env, id: int)
    requires Valid(u) && InFiles(p) && HasPath(u.rows, p) && id in CommitOverwrite(u, p, before, up, env).rows
    ensures var w := CommitOverwrite(u, p, before, up, env);
      && id in u.rows && w.nextEtag == u.nextEtag + 2
      && w.rows[id] ==
          (if u.rows[id].path == p then
             u.rows[id].(size := up.size, mtime := up.mtime, storageMtime := up.mtime,
                         etag := if before.storageMtime != 0 && before.storageMtime == env.diskMtime(p) then u.rows[id].etag
                                 else u.nextEtag)
           else if Above(u.rows[id].path, p) then
             Folder(u.rows[id], w.rows[id], u.rows[id].path == Parent(p), Min(up.mtime, env.now), u.nextEtag + 1, env)
           else u.rows[id])
      && (Above(u.rows[id].path, p) ==> w.rows[id].size == Resized(u.rows[id].size, up.size - before.size))
  {
    hide Shaped, SizesOk, TrashIsFolder;
    var s1 := Overwrite(u, p, up.size, up.mtime, ReusesEtag(before, p, env));
    var s2 := Touch(s1, Parent(p), env);
    AboveParent(p);
    OnlyRowAt(u, p, id);
    TouchTells(s1, Parent(p), env, id);
    PropTells(s2, p, up.mtime, up.size - before.size, env, id);
  }

  lemma BulkOverwriteTells(u: Store, p: Path, before: Row, up: Upload, env: Env, id: int)
    requires Valid(u) && InFiles(p) && HasPath(u.rows, p) && id in BulkOverwrite(u, p, before, up, env).rows
    ensures var w := BulkOverwrite(u, p, before, up, env);
      && id in u.rows && w.nextEtag == u.nextEtag + 2
      && w.rows[id] ==
          (if u.rows[id].path == p then
             u.rows[id].(size := up.size, mtime := up.mtime, storageMtime := up.mtime, etag := u.nextEtag)
           else if Above(u.rows[id].path, p) then
             Folder(u.rows[id], w.rows[id], false, Min(up.mtime, env.now), u.nextEtag + 1, env)
           else u.rows[id])
      && (Above(u.rows[id].path, p) ==> w.rows[id].size == Resized(u.rows[id].size, up.size - before.size))
  {
    hide Shaped, SizesOk, TrashIsFolder;
    var s1 := Overwrite(u, p, up.size, up.mtime, false);
    OnlyRowAt(u, p, id);
    PropTells(s1, p, up.mtime, up.size - before.size, env, id);
  }

  lemma RowAtIsOk(s: Store, p: Path)
    requires Valid(s) && HasPath(s.rows, p)
    ensures s.rows[IdAt(s.rows, p)].size >= -1 && s.rows[IdAt(s.rows, p)].etag < s.nextEtag
  {
  }

  lemma OnlyRowAt(u: Store, p: Path, id: int)
    requires Valid(u) && HasPath(u.rows, p) && id in u.rows
    ensures u.rows[id].path == p <==> id == IdAt(u.rows, p)
  {
    assert At(u.rows, id, u.rows[id].path);
  }

  /** Once the version is kept, the overwrite itself. */
  lemma OverwriteOverKept(
      s: Store, u: Store, w: Store, p: Path, r: Row, up: Upload, env: Env, touched: bool, reuse: bool, id: int)
    requires Valid(s) && InFiles(p) && HasPath(s.rows, p) && r == s.rows[IdAt(s.rows, p)]
    requires id in u.rows && id in w.rows && VersionKept(s, u, p, r, env, id) && w.nextEtag == u.nextEtag + 2
    requires w.rows[id] ==
               if u.rows[id].path == p then
                 u.rows[id].(size := up.size, mtime := up.mtime, storageMtime := up.mtime,
                             etag := if reuse then u.rows[id].etag else u.nextEtag)
               else if Above(u.rows[id].path, p) then
                 Folder(u.rows[id], w.rows[id], touched && u.rows[id].path == Parent(p), Min(up.mtime, env.now),
                        u.nextEtag + 1, env)
               else u.rows[id]
    requires Above(u.rows[id].path, p) ==> w.rows[id].size == Resized(u.rows[id].size, up.size - r.size)
    ensures FileOverwritten(s, w, p, r, up, env, touched, reuse, id)
  {
    hide Valid, IsKept;
    var q, v := w.rows[id].path, VersionOf(p, r.mtime);
    ChainsMeetAtRoot(p, v, q);
    if id in s.rows {
      OnlyRowAt(s, p, id);
    }
  }

  /** A path under `files` and one under another top-level folder share the root only. */
  lemma ChainsMeetAtRoot(p: Path, v: Path, q: Path)
    requires InFiles(p) && |v| >= 2 && v[0] != "files"
    ensures q == p ==> !Above(q, v) && q != v
    ensures Above(q, p) && (Above(q, v) || q == v) ==> q == []
    ensures Above([], p) && Above([], v) && [] != Parent(p) && [] != Parent(v)
  {
    if q != [] {
      assert AtOrBelow(p, q) ==> q[0] == p[0];
      assert AtOrBelow(v, q) ==> q[0] == v[0];
    }
  }

  /** PUT onto an existing file: its etag stays exactly when the mtime recorded for it is
      set and is the one on disk, and otherwise is a new one. */
  lemma PutOverRow(s: Store, p: Path, up: Upload, env: Env, id: int)
    requires Valid(s) && InFiles(p) && HasPath(s.rows, p) && Put(s, p, up, env).outcome == Done
    requires id in Put(s, p, up, env).store.rows
    ensures var r := s.rows[IdAt(s.rows, p)];
      FileOverwritten(s, Put(s, p, up, env).store, p, r, up, env, true,
                      r.storageMtime != 0 && r.storageMtime == env.diskMtime(p), id)
  {
    hide CommitOverwrite, StoreVersion, EnsureDirs, FileOverwritten, VersionKept, OverQuota, CanEnsure, Shaped,
         SizesOk, TrashIsFolder;
    var r := s.rows[IdAt(s.rows, p)];
    RowAtIsOk(s, p);
    EnsureNothing(s, p, env);
    PutOverKeeps(s, p, up, env);
    var u := StoreVersion(s, p, r, env);
    CommitOverwriteTells(u, p, r, up, env, id);
    VersionRow(s, p, r, env, id);
    OverwriteOverKept(s, u, Put(s, p, up, env).store, p, r, up, env, true,
                      r.storageMtime != 0 && r.storageMtime == env.diskMtime(p), id);
  }

  /** A bulk part onto an existing file always draws a new etag. */
  lemma BulkOverRow(s: Store, p: Path, up: Upload, env: Env, id: int)
    requires Valid(s) && InFiles(p) && HasPath(s.rows, p) && BulkWrite(s, p, up, env).outcome == Done
    requires id in BulkWrite(s, p, up, env).store.rows
    ensures FileOverwritten(s, BulkWrite(s, p, up, env).store, p, s.rows[IdAt(s.rows, p)], up, env, false, false, id)
  {
    hide BulkOverwrite, StoreVersion, FileOverwritten, VersionKept, Shaped, SizesOk, TrashIsFolder;
    var r := s.rows[IdAt(s.rows, p)];
    RowAtIsOk(s, p);
    BulkOverKeeps(s, p, up, env);
    var u := StoreVersion(s, p, r, env);
    StoreVersionKeeps(s, p, r, env);
    BulkOverwriteTells(u, p, r, up, env, id);
    VersionRow(s, p, r, env, id);
    OverwriteOverKept(s, u, BulkWrite(s, p, up, env).store, p, r, up, env, false, false, id);
  }

  /** What an accepted upload leaves at `p`: the file as sent.  A file that was there
      before keeps its etag exactly when the storage mtime recorded for it is set and is
      the one on disk; every other upload gets a new etag. */
  ghost predicate Uploaded(s: Store, w: Store, p: Path, up: Upload, env: Env) {
    && HasPath(w.rows, p)
    && forall id :: At(w.rows, id, p) ==>
         && (HasPath(s.rows, p) ==> id in s.rows && s.rows[id].path == p)
         && !w.rows[id].isDir && w.rows[id].size == up.size
         && w.rows[id].mtime == up.mtime && w.rows[id].storageMtime == up.mtime
         && if id in s.rows && s.rows[id].storageMtime != 0 && s.rows[id].storageMtime == env.diskMtime(p)
            then w.rows[id].etag == s.rows[id].etag
            else w.rows[id].etag >= s.nextEtag
  }

  lemma PutUploads(s: Store, p: Path, up: Upload, env: Env)
    requires Valid(s) && InFiles(p)
    ensures Put(s, p, up, env).outcome == Done ==> Uploaded(s, Put(s, p, up, env).store, p, up, env)
  {
    hide Put, Valid;
    PutKeeps(s, p, up, env);
    var w := Put(s, p, up, env);
    if w.outcome == Done {
      forall id | At(w.store.rows, id, p)
        ensures if HasPath(s.rows, p)
                then var r := s.rows[IdAt(s.rows, p)];
                  FileOverwritten(s, w.store, p, r, up, env, true,
                                  r.storageMtime != 0 && r.storageMtime == env.diskMtime(p), id)
                else FileAdded(s, w.store, p, up, env, id)
      {
        if HasPath(s.rows, p) {
          PutOverRow(s, p, up, env, id);
        } else {
          PutNewRow(s, p, up, env, id);
        }
      }
      forall id | At(w.store.rows, id, p)
        ensures id == IdAt(w.store.rows, p)
      {
        OnlyRowAt(w.store, p, id);
      }
      forall id | id in s.rows
        ensures At(s.rows, id, s.rows[id].path)
      {
      }
      if HasPath(s.rows, p) {
        forall id | id in s.rows
          ensures s.rows[id].path == p <==> id == IdAt(s.rows, p)
        {
          OnlyRowAt(s, p, id);
        }
      }
    }
  }

  /** The storage root after an upload: told at the time of the upload or, when folders
      or a version were made on the way, at the present time; read back from disk only
      when the folder of versions was made. */
  lemma RootMtime(s: Store, p: Path, up: Upload, env: Env, id: int)
    requires Valid(s) && InFiles(p) && At(s.rows, id, []) && Put(s, p, up, env).outcome == Done
    ensures var w := Put(s, p, up, env).store;
      && id in w.rows
      && var before, after := s.rows[id].mtime, w.rows[id].mtime;
         if !HasPath(s.rows, p) then
           after == Max(before, if HasPath(s.rows, Parent(p)) then Min(up.mtime, env.now) else env.now)
         else if !IsKept(s.rows, p, s.rows[IdAt(s.rows, p)]) then after == Max(before, Min(up.mtime, env.now))
         else after == Max(if HasPath(s.rows, ["files_versions"]) then before else env.diskMtime([]), env.now)
  {
    hide Put, Valid, IsKept;
    var w := Put(s, p, up, env).store;
    NoRowLost(s, p, up, env);
    ChainsMeetAtRoot(p, ["files_versions", ""], []);
    if HasPath(s.rows, p) {
      PutOverRow(s, p, up, env, id);
      assert VersionOf(p, s.rows[IdAt(s.rows, p)].mtime)[..1] == ["files_versions"];
    } else {
      PutNewRow(s, p, up, env, id);
      PutDoneWay(s, p, up, env);
      assert p[..1] == ["files"];
    }
  }

  lemma PutDoneWay(s: Store, p: Path, up: Upload, env: Env)
    requires Valid(s) && InFiles(p) && Put(s, p, up, env).outcome == Done
    ensures HasPath(s.rows, ["files"])
  {
    assert Parent(p)[..1] == ["files"];
    if HasPath(s.rows, Parent(p)) {
      PrefixIsThere(s, Parent(p), 1);
    }
  }

  // ── New entries of an existing folder ──────────────────────────────────────

  lemma BulkNewRow(s: Store, p: Path, up: Upload, env: Env, id: int)
    requires Valid(s) && InFiles(p) && !HasPath(s.rows, p) && BulkWrite(s, p, up, env).outcome == Done
    requires id in BulkWrite(s, p, up, env).store.rows
    ensures var w := BulkWrite(s, p, up, env).store;
      var r := w.rows[id];
      w.nextEtag == s.nextEtag + 2 &&
      if id !in s.rows then
        && r.path == p && !r.isDir && r.size == up.size && r.mtime == up.mtime && r.storageMtime == up.mtime
        && r.etag == s.nextEtag
      else Told(s.rows[id], r, p, up.mtime, up.size, env.now, s.nextEtag + 1)
  {
    hide Shaped, SizesOk, TrashIsFolder;
    var s1 := InsertFresh(s, NewRow(s, p, false, up.size, up.mtime, up.mtime, 0));
    FreshIdIsNew(s);
    PropTells(s1, p, up.mtime, up.size, env, id);
  }

  lemma FreshIdIsNew(s: Store)
    requires Valid(s)
    ensures s.nextId !in s.rows
  {
  }

  /** A row after MKCOL: the new folder, those above it told at the present time, and
      those that had to be made on the way. */
  ghost predicate FolderAdded(s: Store, w: Store, p: Path, env: Env, id: int)
    requires p != [] && id in w.rows
  {
    var q, r := w.rows[id].path, w.rows[id];
    w.nextEtag >= s.nextEtag + 2 &&
    if q == p then
      && id !in s.rows && r.isDir && r.size == 0 && r.mtime == env.now && r.storageMtime == env.now
      && r.etag >= s.nextEtag
    else if q == Parent(p) && id !in s.rows then
      r.isDir && r.mtime == env.now && r.storageMtime == env.now && r.etag == w.nextEtag - 1
    else if Above(q, p) then
      ToldAbove(s, r, id, q != Parent(p) && NextMissing(s.rows, q, p), env.now, w.nextEtag - 1, env)
    else id in s.rows && r == s.rows[id]
  }

  lemma MkcolRow(s: Store, p: Path, env: Env, id: int)
    requires Valid(s) && InFiles(p) && Mkcol(s, p, env).outcome == Done && id in Mkcol(s, p, env).store.rows
    ensures FolderAdded(s, Mkcol(s, p, env).store, p, env, id)
  {
    hide EnsureDirs, Valid;
    var w := Mkcol(s, p, env).store;
    var u := EnsureDirs(s, Parent(p), env);
    MkcolOpened(s, p, env);
    FreshIdIsNew(u);
    PropTells(InsertFresh(u, NewRow(u, p, true, 0, env.now, env.now, 0)), p, env.now, 0, env, id);
    if id in u.rows {
      OpenedRow(s, p, env, id);
      FolderOverEnsured(s, u, w, p, env, id);
    }
  }

  lemma MkcolOpened(s: Store, p: Path, env: Env)
    requires Valid(s) && p != [] && !HasPath(s.rows, p) && CanEnsure(s.rows, Parent(p))
    ensures var u := EnsureDirs(s, Parent(p), env);
      && Valid(u) && s.nextEtag <= u.nextEtag && s.rows.Keys <= u.rows.Keys && u.nextId !in s.rows && !HasPath(u.rows, p)
  {
    hide EnsureDirs;
    var u := EnsureDirs(s, Parent(p), env);
    EnsureFrame(s, Parent(p), env);
    EnsureKeeps(s, Parent(p), env);
    ExtendsPaths(s, u, Parent(p), p);
  }

  lemma FolderOverEnsured(s: Store, u: Store, w: Store, p: Path, env: Env, id: int)
    requires Valid(s) && p != [] && !HasPath(s.rows, p) && !HasPath(u.rows, p) && id in u.rows && id in w.rows
    requires s.nextEtag <= u.nextEtag && w.nextEtag == u.nextEtag + 2
    requires if HasPath(s.rows, Parent(p)) then u == s else Ensured(s, u, Parent(p), env, id)
    requires Told(u.rows[id], w.rows[id], p, env.now, 0, env.now, u.nextEtag + 1)
    ensures FolderAdded(s, w, p, env, id)
  {
    hide Valid;
    var q := w.rows[id].path;
    StepDown(q, p);
    if HasPath(s.rows, Parent(p)) && Above(q, Parent(p)) {
      PrefixIsThere(s, Parent(p), |q| + 1);
    }
    assert At(u.rows, id, u.rows[id].path);
    assert id in s.rows ==> At(s.rows, id, s.rows[id].path);
  }

  // ── PROPPATCH and DELETE ───────────────────────────────────────────────────

  /** The row at `p`, when there is one, gets both mtimes and keeps everything else;
      the folders above are told, clamped. */
  lemma SetMtimeRow(s: Store, p: Path, mtime: int, env: Env, id: int)
    requires p != [] && id in s.rows
    ensures var w := SetMtime(s, p, mtime, env).store;
      && SetMtime(s, p, mtime, env).outcome == Done
      && w.rows.Keys == s.rows.Keys && w.nextId == s.nextId && w.nextEtag == s.nextEtag + 1
      && if s.rows[id].path == p then w.rows[id] == s.rows[id].(mtime := mtime, storageMtime := mtime)
         else Told(s.rows[id], w.rows[id], p, mtime, 0, env.now, s.nextEtag)
  {
  }

  /** Everything above a deleted node is told of its scanned bytes; nothing else stays
      or changes otherwise. */
  lemma HardDeleteRow(s: Store, p: Path, env: Env, id: int)
    requires Valid(s) && p != [] && HasPath(s.rows, p) && id in s.rows
    ensures var w := HardDelete(s, p, env).store;
      && HardDelete(s, p, env).outcome == Done && w.nextEtag == s.nextEtag + 1
      && (id in w.rows <==> !AtOrBelow(s.rows[id].path, p))
      && (id in w.rows ==>
            Told(s.rows[id], w.rows[id], p, env.now, -Max(s.rows[IdAt(s.rows, p)].size, 0), env.now, s.nextEtag))
  {
  }

  // ── What is accepted ───────────────────────────────────────────────────────

  /** Nothing but folders above `p`, and the top-level folder is there. */
  ghost predicate WayIsClear(t: Table, p: Path) {
    && (exists id :: id in t && t[id].path == ["files"])
    && forall id :: id in t && Above(t[id].path, p) ==> t[id].isDir
  }

  lemma WayIsClearIff(s: Store, p: Path)
    requires Valid(s) && InFiles(p)
    ensures WayIsClear(s.rows, p) <==>
              CanEnsure(s.rows, Parent(p)) && (HasPath(s.rows, Parent(p)) ==> IsDirAt(s.rows, Parent(p)))
  {
    var q := Parent(p);
    assert q[..1] == ["files"];
    AboveParent(p);
    if WayIsClear(s.rows, p) {
      var files :| files in s.rows && s.rows[files].path == ["files"];
      assert At(s.rows, files, ["files"]);
      NoFileAboveParent(s, p);
    }
    if CanEnsure(s.rows, q) && (HasPath(s.rows, q) ==> IsDirAt(s.rows, q)) {
      if HasPath(s.rows, q) {
        PrefixIsThere(s, q, 1);
      }
      assert At(s.rows, IdAt(s.rows, ["files"]), ["files"]);
      forall id | id in s.rows && Above(s.rows[id].path, p)
        ensures s.rows[id].isDir
      {
        AboveSplit(s.rows[id].path, p);
        assert At(s.rows, id, s.rows[id].path);
        if HasPath(s.rows, q) && Above(s.rows[id].path, q) {
          NothingUnderFile(s.rows, id, IdAt(s.rows, q));
        }
      }
    }
  }

  /** The bytes the storage root holds when the quota is checked at commit. */
  ghost predicate UsedIs(t: Table, p: Path, used: int)
    requires InFiles(p)
  {
    && HasPath(t, [])
    && used == t[IdAt(t, [])].size +
         if t[IdAt(t, [])].size >= 0 && HasPath(t, p) && IsKept(t, p, t[IdAt(t, p)]) &&
            !HasPath(t, VersionOf(p, t[IdAt(t, p)].mtime))
         then t[IdAt(t, p)].size else 0
  }

  /** An upload is accepted exactly when its checksum matches, no folder is at `p`, the
      way there is clear, and its size is below what the quota leaves. */
  lemma PutDone(s: Store, p: Path, up: Upload, env: Env, used: int)
    requires Valid(s) && InFiles(p) && (Exact(s.rows) || !HasPath(s.rows, p)) && UsedIs(s.rows, p, used)
    ensures Put(s, p, up, env).outcome == Done <==>
              && up.checksumOk && WayIsClear(s.rows, p)
              && (forall id :: id in s.rows && s.rows[id].path == p ==> !s.rows[id].isDir)
              && (up.quota.Limit? ==> up.size < up.quota.bytes - used)
  {
    hide Put, CanEnsure, WayIsClear, IsKept, VersionPath, VersionOf, IsPartFile;
    PutDecided(s, p, up, env);
    WayIsClearIff(s, p);
    if HasPath(s.rows, p) {
      KeptIff(s, p, s.rows[IdAt(s.rows, p)]);
    }
    assert (exists id :: id in s.rows && s.rows[id].path == p && s.rows[id].isDir) <==> IsDirAt(s.rows, p) by {
      if IsDirAt(s.rows, p) {
        assert At(s.rows, IdAt(s.rows, p), p);
      }
      forall id | id in s.rows && s.rows[id].path == p
        ensures At(s.rows, id, p) && id == IdAt(s.rows, p)
      {
        OnlyRowAt(s, p, id);
      }
    }
  }

  /** What a refused upload leaves behind: nothing, the folders made for it, or the
      version of what it would have replaced. */
  lemma PutRefusedRow(s: Store, p: Path, up: Upload, env: Env, id: int)
    requires Valid(s) && InFiles(p) && Put(s, p, up, env).outcome == Refused
    requires id in Put(s, p, up, env).store.rows
    ensures var w := Put(s, p, up, env).store;
      if IsDirAt(s.rows, p) || !WayIsClear(s.rows, p) || (HasPath(s.rows, Parent(p)) && !(HasPath(s.rows, p) && up.checksumOk))
      then w == s
      else if HasPath(s.rows, p) then VersionKept(s, w, p, s.rows[IdAt(s.rows, p)], env, id)
      else Ensured(s, w, Parent(p), env, id)
  {
    hide Valid, CanEnsure, EnsureDirs, StoreVersion, WayIsClear, VersionKept, Ensured, OverQuota;
    WayIsClearIff(s, p);
    if CanEnsure(s.rows, Parent(p)) {
      PutOpenedRow(s, p, env);
      if HasPath(s.rows, p) && !IsDirAt(s.rows, p) {
        RowAtIsOk(s, p);
        EnsureNothing(s, p, env);
        PutOverKeeps(s, p, up, env);
        if up.checksumOk {
          VersionRow(s, p, s.rows[IdAt(s.rows, p)], env, id);
        }
      } else if id in EnsureDirs(s, Parent(p), env).rows {
        CanEnsureMeans(s, Parent(p));
        OpenedRow(s, p, env, id);
      }
    }
  }

  lemma CanEnsureMeans(s: Store, p: Path)
    requires CanEnsure(s.rows, p)
    ensures HasPath(s.rows, p) || NoFileAbove(s.rows, p)
  {
  }

  lemma PutOpenedRow(s: Store, p: Path, env: Env)
    requires Valid(s) && p != [] && CanEnsure(s.rows, Parent(p))
    ensures HasPath(s.rows, Parent(p)) ==> EnsureDirs(s, Parent(p), env) == s
    ensures HasPath(s.rows, p) ==> IsDirAt(s.rows, Parent(p))
    ensures !HasPath(s.rows, Parent(p)) ==> IsDirAt(EnsureDirs(s, Parent(p), env).rows, Parent(p))
  {
    if HasPath(s.rows, p) {
      ParentExists(s, p);
    }
    EnsureKeeps(s, Parent(p), env);
  }

  /** MKCOL makes a folder exactly where nothing is and the way there is clear, and
      changes nothing when it does not. */
  lemma MkcolDone(s: Store, p: Path, env: Env)
    requires Valid(s) && InFiles(p)
    ensures Mkcol(s, p, env).outcome == Done <==>
              WayIsClear(s.rows, p) && forall id :: id in s.rows ==> s.rows[id].path != p
    ensures Mkcol(s, p, env).outcome == Refused ==> Mkcol(s, p, env).store == s
  {
    hide CanEnsure, WayIsClear, EnsureDirs;
    WayIsClearIff(s, p);
    MkcolKeeps(s, p, env);
    if CanEnsure(s.rows, Parent(p)) {
      PutOpenedRow(s, p, env);
    }
    assert (exists id :: id in s.rows && s.rows[id].path == p) <==> HasPath(s.rows, p) by {
      if HasPath(s.rows, p) {
        assert At(s.rows, IdAt(s.rows, p), p);
      }
      forall id | id in s.rows && s.rows[id].path == p
        ensures At(s.rows, id, p)
      {
      }
    }
  }

  /** A part of a bulk upload needs its folder and no folder in its place. */
  lemma BulkDone(s: Store, p: Path, up: Upload, env: Env)
    requires Valid(s) && InFiles(p)
    ensures BulkWrite(s, p, up, env).outcome == Done <==>
              && (exists id :: id in s.rows && s.rows[id].path == Parent(p) && s.rows[id].isDir)
              && (forall id :: id in s.rows && s.rows[id].path == p ==> !s.rows[id].isDir)
    ensures BulkWrite(s, p, up, env).outcome == Refused ==> BulkWrite(s, p, up, env).store == s
  {
    hide Valid, StoreVersion, BulkOverwrite, BulkNew;
    BulkKeeps(s, p, up, env);
    DirAtIff(s, p);
    DirAtIff(s, Parent(p));
    if HasPath(s.rows, p) && !IsDirAt(s.rows, p) {
      BulkOverKeeps(s, p, up, env);
    }
  }

  lemma DirAtIff(s: Store, p: Path)
    requires Valid(s)
    ensures IsDirAt(s.rows, p) <==> exists id :: id in s.rows && s.rows[id].path == p && s.rows[id].isDir
  {
    if IsDirAt(s.rows, p) {
      assert At(s.rows, IdAt(s.rows, p), p);
    }
    forall id | id in s.rows && s.rows[id].path == p
      ensures At(s.rows, id, p) && id == IdAt(s.rows, p)
    {
      assert At(s.rows, id, p);
    }
  }

  // ── Nothing is lost ────────────────────────────────────────────────────────

  lemma PropKeys(u: Store, p: Path, time: int, delta: int, env: Env)
    ensures Prop(u, p, time, delta, env).rows.Keys == u.rows.Keys
  {
  }

  lemma CommitNewKeys(s: Store, p: Path, up: Upload, env: Env)
    requires Valid(s) && InFiles(p) && !HasPath(s.rows, p) && IsDirAt(s.rows, Parent(p))
    ensures s.rows.Keys <= CommitNew(s, p, up, env).rows.Keys
  {
    hide Shaped, SizesOk, TrashIsFolder, Chain;
    var s1 := InsertFresh(s, NewRow(s, p, false, up.size, up.mtime, up.mtime, 0));
    InsertFreshAdds(s, p, false, up.size, up.mtime, up.mtime);
    AddKeepsShape(s, s1, NewRow(s, p, false, up.size, up.mtime, up.mtime, s.nextEtag));
    ChainFrame(s1.rows, p);
    PropKeys(Touch(ChainOn(s1, p), Parent(p), env), p, up.mtime, 0, env);
  }

  lemma OverwriteKeys(u: Store, p: Path, before: Row, up: Upload, env: Env)
    requires p != [] && HasPath(u.rows, p)
    ensures CommitOverwrite(u, p, before, up, env).rows.Keys == u.rows.Keys
    ensures BulkOverwrite(u, p, before, up, env).rows.Keys == u.rows.Keys
  {
  }

  lemma VersionKeys(s: Store, p: Path, r: Row, env: Env)
    requires Valid(s) && InFiles(p) && r.size >= -1 && r.etag < s.nextEtag
    ensures s.rows.Keys <= StoreVersion(s, p, r, env).rows.Keys
  {
    hide StoreVersion;
    StoreVersionKeeps(s, p, r, env);
    var u := StoreVersion(s, p, r, env);
    forall id | id in s.rows
      ensures id in u.rows
    {
      assert u.rows[id].path == s.rows[id].path;
    }
  }

  /** Uploads and MKCOL lose no row. */
  lemma NoRowLost(s: Store, p: Path, up: Upload, env: Env)
    requires Valid(s) && InFiles(p)
    ensures s.rows.Keys <= Put(s, p, up, env).store.rows.Keys
    ensures s.rows.Keys <= BulkWrite(s, p, up, env).store.rows.Keys
    ensures s.rows.Keys <= Mkcol(s, p, env).store.rows.Keys
  {
    hide Valid, EnsureDirs, StoreVersion, Prop, CanEnsure, CommitNew, CommitOverwrite, BulkOverwrite, NoFileAbove;
    if CanEnsure(s.rows, Parent(p)) {
      CanEnsureMeans(s, Parent(p));
      EnsureFrame(s, Parent(p), env);
      PutOpenedRow(s, p, env);
      if !HasPath(s.rows, p) {
        var u := EnsureDirs(s, Parent(p), env);
        MkcolOpened(s, p, env);
        PropKeys(InsertFresh(u, NewRow(u, p, true, 0, env.now, env.now, 0)), p, env.now, 0, env);
        if IsDirAt(u.rows, Parent(p)) {
          CommitNewKeys(u, p, up, env);
        }
      }
    }
    if HasPath(s.rows, p) {
      RowAtIsOk(s, p);
      EnsureNothing(s, p, env);
      var r := s.rows[IdAt(s.rows, p)];
      VersionKeys(s, p, r, env);
      var u := StoreVersion(s, p, r, env);
      if HasPath(u.rows, p) {
        OverwriteKeys(u, p, r, up, env);
      }
    } else {
      PropKeys(InsertFresh(s, NewRow(s, p, false, up.size, up.mtime, up.mtime, 0)), p, up.mtime, up.size, env);
    }
  }
}
