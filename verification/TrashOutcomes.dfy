/** The row-by-row result of delete-to-trash. */
module TrashOutcomes {
  import opened Paths
  import opened Tree
  import opened Propagation
  import opened Stores
  import opened Operations
  import opened OperationProofs
  import opened TrashProofs
  import opened Outcomes
  import opened WriteOutcomes
  import opened MoveOutcomes
  import Decimal

  const BIN: Path := ["files_trashbin"]
  const BIN_FILES: Path := ["files_trashbin", "files"]
  const BIN_VERSIONS: Path := ["files_trashbin", "versions"]
  const BIN_KEYS: Path := ["files_trashbin", "keys"]

  /** Where `p` goes when it is trashed at `stamp`. */
  function BinPath(p: Path, stamp: nat): Path
    requires p != []
  {
    ["files_trashbin", "files", p[|p| - 1] + ".d" + Decimal.Text(stamp)]
  }

  lemma BinPathIs(p: Path, stamp: nat)
    requires p != []
    ensures TrashPath(Last(p), stamp) == BinPath(p, stamp) && TRASH == BIN_FILES
  {
  }

  /** Delete-to-trash is done exactly when the node is there, its trash name is free and
      the trash bin is not a file; otherwise nothing changes. */
  lemma TrashDecided(s: Store, p: Path, stamp: nat, env: Env)
    requires Valid(s) && InFiles(p)
    ensures Trash(s, p, stamp, env).outcome == Done <==>
              && (exists id :: id in s.rows && s.rows[id].path == p)
              && (forall id :: id in s.rows ==> s.rows[id].path != BinPath(p, stamp))
              && (forall id :: id in s.rows && s.rows[id].path == BIN ==> s.rows[id].isDir)
    ensures Trash(s, p, stamp, env).outcome == Refused ==> Trash(s, p, stamp, env).store == s
  {
    hide Valid, TrashMove, TrashSkeleton, CacheRow, CanEnsure, TrashPath;
    BinPathIs(p, stamp);
    RowAtIff(s, p);
    RowAtIff(s, BinPath(p, stamp));
    if HasPath(s.rows, p) {
      TrashCanBeMade(s, p);
    }
  }

  lemma TrashCanBeMade(s: Store, p: Path)
    requires Valid(s) && InFiles(p) && HasPath(s.rows, p)
    ensures CanEnsure(s.rows, TRASH) <==> forall id :: id in s.rows && s.rows[id].path == BIN ==> s.rows[id].isDir
    ensures HasPath(s.rows, ["files"])
  {
    FilesIsThere(s, p);
    assert TRASH[..1] == BIN;
    if HasPath(s.rows, TRASH) {
      var t := IdAt(s.rows, TRASH);
      forall id | id in s.rows && s.rows[id].path == BIN
        ensures s.rows[id].isDir
      {
        NothingUnderFile(s.rows, id, t);
      }
    }
    forall id | id in s.rows && Above(s.rows[id].path, TRASH)
      ensures s.rows[id].path == [] || s.rows[id].path == BIN
      ensures s.rows[id].path == [] ==> s.rows[id].isDir
    {
      assert s.rows[id].path == TRASH[..|s.rows[id].path|];
      assert Linked(s.rows, id);
    }
  }

  // ── The skeleton of the trash bin ──────────────────────────────────────────

  /** A row after some folders of the trash bin were made: the root and the bin are read
      back from disk where an entry was missing; a new folder carries the present time. */
  ghost predicate BinMade(s: Store, u: Store, made: set<Path>, env: Env, id: int)
    requires id in u.rows
  {
    var q, x := u.rows[id].path, u.rows[id];
    s.nextEtag <= u.nextEtag &&
    if id in s.rows then
      var touched := (q == [] && BIN in made) || (q == BIN && made * {BIN_FILES, BIN_VERSIONS, BIN_KEYS} != {});
      && x == s.rows[id].(etag := x.etag, mtime := x.mtime, storageMtime := x.storageMtime)
      && x.storageMtime == (if touched then env.diskMtime(q) else s.rows[id].storageMtime)
      && Max(x.mtime, env.now) == Max(if touched then env.diskMtime(q) else s.rows[id].mtime, env.now)
      && (q != [] && q != BIN ==> x == s.rows[id])
    else
      && q in made && x.isDir && x.size == 0
      && if q == BIN then MadeFolder(x, env.now, x.etag, env)
         else x.mtime == env.now && x.storageMtime == env.now && x.etag >= s.nextEtag
  }

  lemma EnsureOrNot(u: Store, q: Path, env: Env, id: int)
    requires Valid(u) && CanEnsure(u.rows, q) && id in EnsureDirs(u, q, env).rows
    ensures var w := EnsureDirs(u, q, env);
      && Valid(w) && u.nextEtag <= w.nextEtag && u.rows.Keys <= w.rows.Keys
      && (if HasPath(u.rows, q) then w == u else Ensured(u, w, q, env, id))
      && (id !in u.rows ==> !HasPath(u.rows, w.rows[id].path))
      && forall a :: HasPath(w.rows, a) <==> HasPath(u.rows, a) || (AtOrBelow(q, a) && HasPath(w.rows, a))
  {
    hide Shaped, SizesOk, TrashIsFolder, NoFileAbove, EnsureDirs, Ensured;
    CanEnsureMeans(u, q);
    EnsureFrame(u, q, env);
    EnsureKeeps(u, q, env);
    var w := EnsureDirs(u, q, env);
    forall a: Path
      ensures HasPath(u.rows, a) ==> HasPath(w.rows, a) && IdAt(w.rows, a) == IdAt(u.rows, a)
      ensures HasPath(w.rows, a) && !AtOrBelow(q, a) ==> HasPath(u.rows, a)
    {
      ExtendsPaths(u, w, q, a);
    }
    if id !in u.rows {
      OnlyRow(w, id);
    }
    if HasPath(u.rows, q) {
      EnsureThere(u, q, env);
    } else {
      EnsureRow(u, q, env, id);
    }
  }

  lemma OnlyRow(w: Store, id: int)
    requires Valid(w) && id in w.rows
    ensures HasPath(w.rows, w.rows[id].path) && IdAt(w.rows, w.rows[id].path) == id
  {
    assert At(w.rows, id, w.rows[id].path);
  }

  /** What making the folder `q0` of the bin has to make. */
  ghost function ToMake(t: Table, q0: Path): set<Path> {
    if HasPath(t, q0) then {} else if HasPath(t, BIN) then {q0} else {BIN, q0}
  }

  /** One more folder of the bin. */
  lemma BinStep(s: Store, u: Store, w: Store, q0: Path, made: set<Path>, env: Env, id: int)
    requires q0 in {BIN_FILES, BIN_VERSIONS, BIN_KEYS} && made <= {BIN, BIN_FILES, BIN_VERSIONS, BIN_KEYS}
    requires HasPath(u.rows, []) && u.nextEtag <= w.nextEtag && id in w.rows
    requires id in u.rows ==> BinMade(s, u, made, env, id)
    requires id !in u.rows ==> id !in s.rows && s.nextEtag <= u.nextEtag && !HasPath(u.rows, w.rows[id].path)
    requires if HasPath(u.rows, q0) then w == u else Ensured(u, w, q0, env, id)
    ensures BinMade(s, w, made + ToMake(u.rows, q0), env, id)
  {
    var q, made2 := w.rows[id].path, made + ToMake(u.rows, q0);
    assert q0[..1] == BIN;
    assert id in u.rows ==> At(u.rows, id, u.rows[id].path);
    if HasPath(u.rows, q0) {
      assert made2 == made;
    } else {
      assert q0 in made2 * {BIN_FILES, BIN_VERSIONS, BIN_KEYS};
      assert BIN in made2 <==> BIN in made || !HasPath(u.rows, BIN);
      if Above(q, q0) {
        assert q == q0[..|q|];
        assert q == [] || q == BIN;
        assert q == BIN ==> q0[..|q| + 1] == q0;
        assert q == [] ==> q0[..|q| + 1] == BIN;
      }
      if id !in u.rows {
        assert q == q0 || q == BIN;
        assert q in made2;
      } else {
        assert q == [] || q == BIN || w.rows[id] == u.rows[id];
      }
    }
  }

  /** The folders of the bin that are not there. */
  ghost function Lacking(t: Table): set<Path> {
    set q | q in {BIN, BIN_FILES, BIN_VERSIONS, BIN_KEYS} && !HasPath(t, q)
  }

  lemma BinIsOpen(u: Store, q: Path)
    requires Valid(u) && HasPath(u.rows, TRASH) && q in {BIN_VERSIONS, BIN_KEYS}
    ensures CanEnsure(u.rows, q) && HasPath(u.rows, BIN)
  {
    var t := IdAt(u.rows, TRASH);
    PrefixIsThere(u, TRASH, 1);
    assert TRASH[..1] == BIN && q[..1] == BIN;
    forall id | id in u.rows && Above(u.rows[id].path, q)
      ensures u.rows[id].isDir
    {
      var p := u.rows[id].path;
      assert p == q[..|p|];
      assert p == TRASH[..|p|];
      NothingUnderFile(u.rows, id, t);
    }
  }

  ghost predicate AllMade(s: Store, u: Store, made: set<Path>, env: Env) {
    && Valid(u) && s.nextId <= u.nextId && s.rows.Keys <= u.rows.Keys
    && made <= {BIN, BIN_FILES, BIN_VERSIONS, BIN_KEYS}
    && (forall id :: id in s.rows ==> id < s.nextId)
    && s.nextEtag <= u.nextEtag
    && forall id :: id in u.rows ==> BinMade(s, u, made, env, id)
  }

  lemma EnsureThen(s: Store, u: Store, q0: Path, made: set<Path>, env: Env)
    requires AllMade(s, u, made, env) && CanEnsure(u.rows, q0) && q0 in {BIN_FILES, BIN_VERSIONS, BIN_KEYS}
    ensures var w := EnsureDirs(u, q0, env);
      && AllMade(s, w, made + ToMake(u.rows, q0), env)
      && forall q :: q in {BIN_FILES, BIN_VERSIONS, BIN_KEYS} ==> (HasPath(w.rows, q) <==> HasPath(u.rows, q) || q == q0)
  {
    hide Valid, CanEnsure, EnsureDirs, BinMade, Ensured;
    RootIsThere(u);
    EnsuredBin(u, q0, env);
    var w := EnsureDirs(u, q0, env);
    forall id | id in w.rows
      ensures BinMade(s, w, made + ToMake(u.rows, q0), env, id)
    {
      EnsureOrNot(u, q0, env, id);
      BinStep(s, u, w, q0, made, env, id);
    }
  }

  lemma EnsuredBin(u: Store, q0: Path, env: Env)
    requires Valid(u) && CanEnsure(u.rows, q0) && q0 in {BIN_FILES, BIN_VERSIONS, BIN_KEYS}
    ensures var w := EnsureDirs(u, q0, env);
      && Valid(w) && u.nextId <= w.nextId && u.rows.Keys <= w.rows.Keys && u.nextEtag <= w.nextEtag
      && (forall q :: q in {BIN_FILES, BIN_VERSIONS, BIN_KEYS} ==> (HasPath(w.rows, q) <==> HasPath(u.rows, q) || q == q0))
  {
    hide EnsureDirs;
    CanEnsureMeans(u, q0);
    EnsureFrame(u, q0, env);
    EnsureKeeps(u, q0, env);
    var w := EnsureDirs(u, q0, env);
    forall q | q in {BIN_FILES, BIN_VERSIONS, BIN_KEYS}
      ensures HasPath(w.rows, q) <==> HasPath(u.rows, q) || q == q0
    {
      ExtendsPaths(u, w, q0, q);
      assert AtOrBelow(q0, q) ==> q0[..2] == q && q0 == q0[..2];
    }
  }

  /** The rows when the bin is prepared. */
  lemma SkeletonRows(s: Store, env: Env)
    requires Valid(s) && CanEnsure(s.rows, TRASH)
    ensures AllMade(s, TrashSkeleton(s, env), Lacking(s.rows), env)
  {
    hide Valid, CanEnsure, EnsureDirs, BinMade, Ensured, AllMade, HasPath;
    NothingMade(s, env);
    EnsureThen(s, s, TRASH, {}, env);
    var s1 := EnsureDirs(s, TRASH, env);
    MadeIsValid(s, s1, {} + ToMake(s.rows, TRASH), env);
    BinIsOpen(s1, BIN_VERSIONS);
    EnsureThen(s, s1, BIN_VERSIONS, {} + ToMake(s.rows, TRASH), env);
    var s2 := EnsureDirs(s1, BIN_VERSIONS, env);
    MadeIsValid(s, s2, {} + ToMake(s.rows, TRASH) + ToMake(s1.rows, BIN_VERSIONS), env);
    BinIsOpen(s2, BIN_KEYS);
    EnsureThen(s, s2, BIN_KEYS, {} + ToMake(s.rows, TRASH) + ToMake(s1.rows, BIN_VERSIONS), env);
    if HasPath(s.rows, TRASH) {
      PrefixIsThere(s, TRASH, 1);
      assert TRASH[..1] == BIN;
    }
    assert Lacking(s.rows) == {} + ToMake(s.rows, TRASH) + ToMake(s1.rows, BIN_VERSIONS) + ToMake(s2.rows, BIN_KEYS);
  }

  lemma MadeIsValid(s: Store, u: Store, made: set<Path>, env: Env)
    requires AllMade(s, u, made, env)
    ensures Valid(u)
  {
  }

  lemma NothingMade(s: Store, env: Env)
    requires Valid(s)
    ensures AllMade(s, s, {}, env)
  {
  }

  // ── The move itself ────────────────────────────────────────────────────────

  lemma RekeyToTrashTells(t: Store, p: Path, to: Path, env: Env, id: int)
    requires Valid(t) && InFiles(p) && TrashEntry(to) && id in t.rows
    requires HasPath(t.rows, p) && !HasPath(t.rows, to) && IsDirAt(t.rows, TRASH)
    ensures var u := RekeyToTrash(t, p, to, env);
      var r := t.rows[id];
      && Valid(u) && Valid(ChainOn(u, to)) && id in u.rows && u.nextEtag == t.nextEtag
      && u.rows[id] ==
           if r.path == p then
             r.(path := to, name := Last(to), parent := IdAt(t.rows, TRASH), storageMtime := env.diskMtime(to))
           else if Above(p, r.path) then r.(path := to + r.path[|p|..])
           else r
  {
    hide Chain, SizesOk, TrashIsFolder;
    TrashRows(t, p, to, env);
    var q := t.rows[id].path;
    assert At(t.rows, id, q);
    assert Above(p, q) || q == p <==> AtOrBelow(q, p);
    if Above(p, q) {
      assert |to + q[|p|..]| > |to|;
    }
  }

  lemma TrashTailTells(u: Store, p: Path, to: Path, size: int, env: Env, id: int)
    requires Valid(u) && Valid(ChainOn(u, to)) && InFiles(p) && TrashEntry(to) && id in u.rows
    ensures var w := Prop(TrashTouched(ChainOn(u, to), p, to, env), p, env.now, Shrink(size), env);
      var r := u.rows[id];
      var q := r.path;
      && id in w.rows && w.nextEtag == u.nextEtag + 2
      && w.rows[id] ==
           if Above(q, p) then Folder(r, w.rows[id], q == Parent(p), env.now, u.nextEtag + 1, env)
           else if Above(q, to) then Folder(r, w.rows[id], q == TRASH, env.now, u.nextEtag, env)
           else r
  {
    hide Shaped, SizesOk, TrashIsFolder, Chain;
    AboveParent(p);
    AboveParent(to);
    OnlyRootAboveBoth(u.rows[id].path, p, to);
    var x := ChainOn(u, to);
    var x1 := Touch(x, Parent(p), env);
    var x2 := Touch(x1, Parent(to), env);
    var x3 := Prop(x2, to, env.now, 0, env);
    ChainFrame(u.rows, to);
    ChainTells(u, to, id);
    TouchTells(x, Parent(p), env, id);
    TouchTells(x1, Parent(to), env, id);
    PropTells(x2, to, env.now, 0, env, id);
    PropTells(x3, p, env.now, Shrink(size), env, id);
  }

  // ── The whole request ──────────────────────────────────────────────────────

  const CACHE: Path := ["cache"]

  /** A row after delete-to-trash.  Moved rows keep everything but their place, and the
      node itself takes its mtime on disk as the recorded one.  Everything above either
      end is told at the present time; the old folder, the trash folder, and wherever an
      entry of the bin was missing are read back from disk. */
  ghost predicate NodeTrashed(s: Store, w: Store, p: Path, stamp: nat, env: Env, id: int)
    requires InFiles(p) && id in w.rows
  {
    var x, to := w.rows[id], BinPath(p, stamp);
    w.nextEtag >= s.nextEtag + 2 &&
    if id in s.rows then
      var r := s.rows[id];
      var q := r.path;
      if q == p then
        && x == r.(path := to, name := to[2], parent := x.parent, storageMtime := env.diskMtime(to))
        && At(w.rows, x.parent, BIN_FILES)
      else if Above(p, q) then x == r.(path := to + q[|p|..])
      else if Above(q, p) then
        x == Folder(r, x, q == Parent(p) || (q == [] && !HasPath(s.rows, BIN)), env.now, w.nextEtag - 1, env)
      else if q == BIN || q == BIN_FILES then
        x == Folder(r, x, q == BIN_FILES || Lacking(s.rows) != {}, env.now, w.nextEtag - 2, env)
      else x == r
    else
      && !HasPath(s.rows, x.path) && x.isDir
      && if x.path == BIN || x.path == BIN_FILES then MadeFolder(x, env.now, w.nextEtag - 2, env)
         else
           && x.size == 0 && x.etag >= s.nextEtag && x.mtime == x.storageMtime
           && if x.path == CACHE then x.mtime == stamp
              else (x.path == BIN_VERSIONS || x.path == BIN_KEYS) && x.mtime == env.now
  }

  /** The prepared bin with the cache folder. */
  ghost predicate Prepared(s: Store, t: Store, stamp: nat, env: Env, id: int)
    requires id in t.rows
  {
    && s.nextEtag <= t.nextEtag
    && if id !in s.rows && t.rows[id].path == CACHE then
         && t.rows[id].isDir && t.rows[id].size == 0 && t.rows[id].mtime == stamp && t.rows[id].storageMtime == stamp
         && t.rows[id].etag >= s.nextEtag && !HasPath(s.rows, CACHE)
       else BinMade(s, t, Lacking(s.rows), env, id)
  }

  lemma PreparedRow(s: Store, stamp: nat, env: Env, id: int)
    requires Valid(s) && CanEnsure(s.rows, TRASH) && id in CacheRow(TrashSkeleton(s, env), stamp).rows
    ensures Prepared(s, CacheRow(TrashSkeleton(s, env), stamp), stamp, env, id)
  {
    hide TrashSkeleton, CanEnsure, Shaped, SizesOk, TrashIsFolder, Lacking;
    SkeletonRows(s, env);
    var u, t := TrashSkeleton(s, env), CacheRow(TrashSkeleton(s, env), stamp);
    if id in u.rows {
      assert At(u.rows, id, u.rows[id].path);
      assert BinMade(s, u, Lacking(s.rows), env, id);
      LackingIs(s.rows, u.rows[id].path);
    } else if HasPath(s.rows, CACHE) {
      CacheStays(s, u, env);
    }
  }

  lemma LackingIs(t: Table, q: Path)
    ensures q in Lacking(t) <==> (q == BIN || q == BIN_FILES || q == BIN_VERSIONS || q == BIN_KEYS) && !HasPath(t, q)
    ensures CACHE !in Lacking(t)
  {
  }

  lemma LackingBelow(t: Table)
    ensures HasPath(t, BIN) ==> Lacking(t) * {BIN_FILES, BIN_VERSIONS, BIN_KEYS} == Lacking(t)
  {
  }

  lemma CacheStays(s: Store, u: Store, env: Env)
    requires AllMade(s, u, Lacking(s.rows), env) && HasPath(s.rows, CACHE)
    ensures HasPath(u.rows, CACHE)
  {
    var c := IdAt(s.rows, CACHE);
    assert BinMade(s, u, Lacking(s.rows), env, c);
    assert At(u.rows, c, CACHE);
  }

  lemma TrashedInSteps(s: Store, t: Store, u: Store, w: Store, p: Path, stamp: nat, env: Env, id: int)
    requires Valid(s) && InFiles(p) && id in t.rows && id in u.rows && id in w.rows
    requires Prepared(s, t, stamp, env, id) && IsDirAt(t.rows, TRASH)
    requires u.nextEtag == t.nextEtag && w.nextEtag == u.nextEtag + 2
    requires At(w.rows, IdAt(t.rows, TRASH), TRASH)
    requires var r, to := t.rows[id], BinPath(p, stamp);
      u.rows[id] ==
        if r.path == p then
          r.(path := to, name := Last(to), parent := IdAt(t.rows, TRASH), storageMtime := env.diskMtime(to))
        else if Above(p, r.path) then r.(path := to + r.path[|p|..])
        else r
    requires var r := u.rows[id];
      w.rows[id] ==
        if Above(r.path, p) then Folder(r, w.rows[id], r.path == Parent(p), env.now, u.nextEtag + 1, env)
        else if Above(r.path, BinPath(p, stamp)) then Folder(r, w.rows[id], r.path == TRASH, env.now, u.nextEtag, env)
        else r
    ensures NodeTrashed(s, w, p, stamp, env, id)
  {
    var q, to := t.rows[id].path, BinPath(p, stamp);
    RootIsThere(s);
    LackingIs(s.rows, q);
    LackingBelow(s.rows);
    BinChain(q, p, stamp);
    assert id in s.rows ==> At(s.rows, id, q);
    if q == p || Above(p, q) {
      BelowBin(u.rows[id].path, p, stamp);
    }
  }

  lemma BinChain(q: Path, p: Path, stamp: nat)
    requires InFiles(p)
    ensures Above(q, BinPath(p, stamp)) <==> q == [] || q == BIN || q == BIN_FILES
    ensures Above([], p) && !Above(BIN, p) && !Above(BIN_FILES, p) && TRASH == BIN_FILES && Parent(p) != []
    ensures q == p || Above(p, q) ==> q != [] && q[0] == "files" && q != BIN && q != BIN_FILES
  {
    var to := BinPath(p, stamp);
    assert to[..0] == [] && to[..1] == BIN && to[..2] == BIN_FILES;
    if Above(q, to) {
      assert q == to[..|q|];
    }
  }

  lemma BelowBin(q: Path, p: Path, stamp: nat)
    requires InFiles(p) && AtOrBelow(q, BinPath(p, stamp))
    ensures !Above(q, p) && !Above(q, BinPath(p, stamp))
  {
    assert q[0] == q[..3][0] == "files_trashbin";
  }

  lemma NotBelow(q: Path, p: Path, to: Path)
    requires InFiles(p) && q != [] && q[0] != "files"
    ensures Rebase(q, p, to) == q
  {
  }

  /** Delete-to-trash, row by row. */
  lemma TrashRowTells(s: Store, p: Path, stamp: nat, env: Env, id: int)
    requires Valid(s) && InFiles(p) && Trash(s, p, stamp, env).outcome == Done
    requires id in Trash(s, p, stamp, env).store.rows
    ensures NodeTrashed(s, Trash(s, p, stamp, env).store, p, stamp, env, id)
  {
    hide Valid, TrashSkeleton, CanEnsure, CacheRow, RekeyToTrash, TrashTouched, Prop, NodeTrashed, Prepared, Chain,
         Rebase, TrashPath;
    var to := BinPath(p, stamp);
    BinPathIs(p, stamp);
    var t := CacheRow(TrashSkeleton(s, env), stamp);
    TrashPrepared(s, p, stamp, env);
    TrashMoveKeeps(TrashSkeleton(s, env), t, p, to, s.rows[IdAt(s.rows, p)].size, env);
    PreparedRow(s, stamp, env, id);
    RekeyToTrashTells(t, p, to, env, id);
    var u := RekeyToTrash(t, p, to, env);
    TrashTailTells(u, p, to, s.rows[IdAt(s.rows, p)].size, env, id);
    var w := Trash(s, p, stamp, env).store;
    assert At(w.rows, IdAt(t.rows, TRASH), TRASH) by {
      NotBelow(TRASH, p, to);
      assert At(t.rows, IdAt(t.rows, TRASH), TRASH);
    }
    TrashedInSteps(s, t, u, w, p, stamp, env, id);
  }
}
