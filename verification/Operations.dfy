/** What each write request does to the filecache, as one function per request
    over the store.  `FileCache` runs the same requests statement by statement. */
module Operations {
  import opened Paths
  import opened Tree
  import opened Stores
  import TrashNames
  import Decimal

  datatype Outcome = Done | Refused

  datatype Result = Result(store: Store, outcome: Outcome)

  /** A request path below the user's files. */
  predicate InFiles(p: Path) {
    |p| >= 2 && p[0] == "files"
  }

  function ShadowPath(top: string, p: Path): Path {
    [top] + if p != [] && p[0] == "files" then p[1..] else p
  }

  // ── Ancestor creation ──────────────────────────────────────────────────────

  ghost predicate NoFileAbove(t: Table, p: Path) {
    forall id :: id in t && Above(t[id].path, p) ==> t[id].isDir
  }

  /** `ensure_parent_dir` answers with a row: it is there already, or every
      existing ancestor is a directory on disk and a missing top-level entry can
      be made a sibling of `files`. */
  ghost predicate CanEnsure(t: Table, p: Path) {
    HasPath(t, p) ||
    (p != [] && NoFileAbove(t, p) && (HasPath(t, p[..1]) || HasPath(t, ["files"])))
  }

  ghost function MkdirAt(s: Store, p: Path, env: Env): Store
    requires p != []
  {
    var made := InsertFresh(s, NewRow(s, p, true, 0, env.now, env.now, 0));
    Prop(Touch(made, Parent(p), env), p, env.now, 0, env)
  }

  ghost function EnsureDirs(s: Store, p: Path, env: Env): Store
    decreases |p|
  {
    if p == [] || HasPath(s.rows, p) then s
    else MkdirAt(EnsureDirs(s, Parent(p), env), p, env)
  }

  // ── PUT ────────────────────────────────────────────────────────────────────

  datatype Upload = Upload(size: nat, mtime: int, checksumOk: bool, quota: Quota)

  datatype Quota = Unlimited | Limit(bytes: int)

  /** The commit-time check: a body of at least the free space is refused. */
  ghost predicate OverQuota(t: Table, quota: Quota, size: nat) {
    match quota
    case Unlimited => false
    case Limit(bytes) =>
      var used := if HasPath(t, []) then t[IdAt(t, [])].size else 0;
      var free := if bytes - used > 0 then bytes - used else 0;
      size >= free
  }

  function VersionPath(p: Path, mtime: int): Path
    requires InFiles(p)
  {
    ["files_versions"] + p[1..|p| - 1] + [Last(p) + ".v" + Decimal.Text(mtime)]
  }

  predicate IsPartFile(p: Path)
    requires p != []
  {
    var n := Last(p);
    |n| >= 5 && n[|n| - 5..] == ".part"
  }

  /** The content about to be overwritten is kept as a version file. */
  ghost function StoreVersion(s: Store, p: Path, before: Row, env: Env): Store
    requires InFiles(p)
  {
    var v := VersionPath(p, before.mtime);
    if IsPartFile(p) || before.size == 0 || before.isDir then s
    else if !CanEnsure(s.rows, Parent(v)) || IsDirAt(s.rows, v) || !NoFileAbove(s.rows, v) then s
    else
      var s1 := EnsureDirs(s, Parent(v), env);
      var s2 := if HasPath(s1.rows, v) then s1
                else Insert(s1, NewRow(s1, v, false, before.size, before.mtime, env.now, before.etag));
      ChainOn(Prop(Touch(s2, Parent(v), env), v, env.now, 0, env), v)
  }

  /** An overwrite within the second of the previous write keeps the file's etag. */
  predicate ReusesEtag(before: Row, p: Path, env: Env) {
    before.storageMtime != 0 && env.diskMtime(p) == before.storageMtime
  }

  ghost function Overwrite(s: Store, p: Path, size: nat, mtime: int, keepEtag: bool): Store
    requires HasPath(s.rows, p)
  {
    var id := IdAt(s.rows, p);
    var etag := if keepEtag then s.rows[id].etag else s.nextEtag;
    s.(rows := s.rows[id := s.rows[id].(size := size, mtime := mtime, storageMtime := mtime, etag := etag)],
       nextEtag := s.nextEtag + 1)
  }

  ghost function CommitNew(s: Store, p: Path, up: Upload, env: Env): Store
    requires p != []
  {
    var s1 := InsertFresh(s, NewRow(s, p, false, up.size, up.mtime, up.mtime, 0));
    Prop(Touch(ChainOn(s1, p), Parent(p), env), p, up.mtime, 0, env)
  }

  ghost function CommitOverwrite(s: Store, p: Path, before: Row, up: Upload, env: Env): Store
    requires p != [] && HasPath(s.rows, p)
  {
    var s1 := Overwrite(s, p, up.size, up.mtime, ReusesEtag(before, p, env));
    Prop(Touch(s1, Parent(p), env), p, up.mtime, up.size - before.size, env)
  }

  ghost function Put(s: Store, p: Path, up: Upload, env: Env): Result
    requires InFiles(p)
  {
    if IsDirAt(s.rows, p) || !CanEnsure(s.rows, Parent(p)) then Result(s, Refused)
    else
      var s1 := EnsureDirs(s, Parent(p), env);
      if !IsDirAt(s1.rows, Parent(p)) || !up.checksumOk then Result(s1, Refused)
      else if !HasPath(s.rows, p) then
        if OverQuota(s1.rows, up.quota, up.size) then Result(s1, Refused)
        else Result(CommitNew(s1, p, up, env), Done)
      else
        var before := s.rows[IdAt(s.rows, p)];
        var s2 := StoreVersion(s1, p, before, env);
        if OverQuota(s2.rows, up.quota, up.size) || !HasPath(s2.rows, p) then Result(s2, Refused)
        else Result(CommitOverwrite(s2, p, before, up, env), Done)
  }

  // ── Bulk upload ────────────────────────────────────────────────────────────

  ghost function BulkNew(s: Store, p: Path, up: Upload, env: Env): Store
    requires p != []
  {
    Prop(InsertFresh(s, NewRow(s, p, false, up.size, up.mtime, up.mtime, 0)), p, up.mtime, up.size, env)
  }

  ghost function BulkOverwrite(s: Store, p: Path, before: Row, up: Upload, env: Env): Store
    requires p != [] && HasPath(s.rows, p)
  {
    Prop(Overwrite(s, p, up.size, up.mtime, false), p, up.mtime, up.size - before.size, env)
  }

  /** One part of a bulk upload: the parent must exist, and new and overwritten
      files alike are reported to the ancestors as a signed delta. */
  ghost function BulkWrite(s: Store, p: Path, up: Upload, env: Env): Result
    requires InFiles(p)
  {
    if !IsDirAt(s.rows, Parent(p)) || IsDirAt(s.rows, p) then Result(s, Refused)
    else if HasPath(s.rows, p) then
      var before := s.rows[IdAt(s.rows, p)];
      var s1 := StoreVersion(s, p, before, env);
      if !HasPath(s1.rows, p) then Result(s1, Refused)
      else Result(BulkOverwrite(s1, p, before, up, env), Done)
    else Result(BulkNew(s, p, up, env), Done)
  }

  // ── MKCOL ──────────────────────────────────────────────────────────────────

  ghost function Mkcol(s: Store, p: Path, env: Env): Result
    requires p != []
  {
    if HasPath(s.rows, p) || !CanEnsure(s.rows, Parent(p)) then Result(s, Refused)
    else
      var s1 := EnsureDirs(s, Parent(p), env);
      if !IsDirAt(s1.rows, Parent(p)) then Result(s1, Refused)
      else
        var s2 := InsertFresh(s1, NewRow(s1, p, true, 0, env.now, env.now, 0));
        Result(Prop(s2, p, env.now, 0, env), Done)
  }

  // ── COPY ───────────────────────────────────────────────────────────────────

  function RemoveAt(s: Store, p: Path): Store {
    s.(rows := map id | id in s.rows && s.rows[id].path != p :: s.rows[id])
  }

  /** The last two calls of MOVE and COPY, on the shadow path under `files_versions`. */
  ghost function ShadowChain(s: Store, p: Path, env: Env): Store {
    var v := ShadowPath("files_versions", p);
    ChainOn(Prop(s, v, env.now, 0, env), v)
  }

  /** `diskOk`: copying the bytes on disk succeeded, which it never does onto or
      through something that is not a file, or from a directory.  A copy of a file
      onto itself is refused (section 9.8.5 of RFC 4918). */
  ghost predicate CopyAllowed(t: Table, from: Path, to: Path, diskOk: bool) {
    diskOk && from != to && !IsDirAt(t, to) && !IsDirAt(t, from) && NoFileAbove(t, to)
  }

  ghost function Copy(s: Store, from: Path, to: Path, diskOk: bool, env: Env): Result
    requires InFiles(from) && InFiles(to)
  {
    if !CopyAllowed(s.rows, from, to, diskOk) then Result(s, Refused)
    else
      var s1 := RemoveAt(s, to);
      if HasPath(s1.rows, from) && !CanEnsure(s1.rows, Parent(to)) then Result(s1, Refused)
      else
        var s2 := if HasPath(s1.rows, from)
                  then CopyRow(EnsureDirs(s1, Parent(to), env), from, to, env)
                  else s1;
        Result(ShadowChain(ChainOn(Prop(s2, to, env.now, 0, env), to), to, env), Done)
  }

  /** The clone keeps the source's size, mtime and etag. */
  ghost function CopyRow(s: Store, from: Path, to: Path, env: Env): Store
    requires to != []
  {
    if HasPath(s.rows, from) then
      var r := s.rows[IdAt(s.rows, from)];
      Insert(s, NewRow(s, to, false, r.size, r.mtime, env.now, r.etag))
    else s
  }

  // ── MOVE ───────────────────────────────────────────────────────────────────

  /** The moved row gets path, name and parent; the rows below it a new prefix. */
  ghost function Rekey(s: Store, from: Path, to: Path): Store
    requires to != []
  {
    s.(rows := map id | id in s.rows ::
         var r := s.rows[id];
         if r.path == from then r.(path := to, name := Last(to), parent := ParentId(s, to))
         else r.(path := Rebase(r.path, from, to)))
  }

  ghost predicate MoveAllowed(t: Table, from: Path, to: Path)
    requires to != []
  {
    && HasPath(t, from) && IsDirAt(t, Parent(to))
    && !Above(from, to)
    && (HasPath(t, to) ==> from == to)
  }

  ghost function Move(s: Store, from: Path, to: Path, env: Env): Result
    requires InFiles(from) && InFiles(to)
  {
    if !MoveAllowed(s.rows, from, to) then Result(s, Refused)
    else
      var s1 := MoveTouched(Rekey(s, from, to), from, to, env);
      Result(ShadowChain(MoveChains(s1, from, to), to, env), Done)
  }

  ghost function MoveTouched(s: Store, from: Path, to: Path, env: Env): Store
    requires from != [] && to != []
  {
    var s1 := Touch(Touch(s, Parent(from), env), Parent(to), env);
    Prop(Prop(s1, from, env.now, 0, env), to, env.now, 0, env)
  }

  /** The parent paths, not the moved paths, are handed to the recomputation. */
  ghost function MoveChains(s: Store, from: Path, to: Path): Store
    requires from != [] && to != []
  {
    var p, q := Parent(from), Parent(to);
    if p != q then ChainOn(ChainOn(s, p), q) else ChainOn(s, q)
  }

  // ── PROPPATCH of the modification time ─────────────────────────────────────

  /** The row at `p` with both mtimes set. */
  function WithMtime(s: Store, p: Path, mtime: int): Store {
    s.(rows := map id | id in s.rows ::
         if s.rows[id].path == p then s.rows[id].(mtime := mtime, storageMtime := mtime) else s.rows[id])
  }

  ghost function SetMtime(s: Store, p: Path, mtime: int, env: Env): Result {
    Result(Prop(WithMtime(s, p, mtime), p, mtime, 0, env), Done)
  }

  // ── DELETE ─────────────────────────────────────────────────────────────────

  function RemoveTree(s: Store, p: Path): Store {
    s.(rows := map id | id in s.rows && !AtOrBelow(s.rows[id].path, p) :: s.rows[id])
  }

  function Shrink(size: int): int {
    if size > 0 then -size else 0
  }

  ghost function HardDelete(s: Store, p: Path, env: Env): Result
    requires p != []
  {
    if !HasPath(s.rows, p) then Result(s, Refused)
    else
      var size := s.rows[IdAt(s.rows, p)].size;
      Result(Prop(RemoveTree(s, p), p, env.now, Shrink(size), env), Done)
  }

  function TrashPath(base: string, stamp: nat): Path {
    TRASH + [TrashNames.TrashName(base, stamp)]
  }

  /** The skeleton directories of the trash bin. */
  ghost function TrashSkeleton(s: Store, env: Env): Store {
    var s1 := EnsureDirs(s, TRASH, env);
    var s2 := EnsureIfPossible(s1, ["files_trashbin", "versions"], env);
    EnsureIfPossible(s2, ["files_trashbin", "keys"], env)
  }

  /** The row of the top-level cache folder, made on first use. */
  ghost function CacheRow(s: Store, now: int): Store {
    if HasPath(s.rows, ["cache"]) then s
    else InsertFresh(s, NewRow(s, ["cache"], true, 0, now, now, 0))
  }

  ghost function EnsureIfPossible(s: Store, p: Path, env: Env): Store {
    if CanEnsure(s.rows, p) then EnsureDirs(s, p, env) else s
  }

  /** The moved row also takes its own disk mtime. */
  ghost function RekeyToTrash(s: Store, from: Path, to: Path, env: Env): Store
    requires to != []
  {
    var s1 := Rekey(s, from, to);
    s1.(rows := map id | id in s1.rows ::
          if s1.rows[id].path == to then s1.rows[id].(storageMtime := env.diskMtime(to)) else s1.rows[id])
  }

  ghost predicate TrashAllowed(t: Table, p: Path, to: Path) {
    HasPath(t, p) && !HasPath(t, to) && CanEnsure(t, TRASH)
  }

  /** `stamp` is the time the collision loop settled on. */
  ghost function Trash(s: Store, p: Path, stamp: nat, env: Env): Result
    requires InFiles(p)
  {
    var to := TrashPath(Last(p), stamp);
    if !TrashAllowed(s.rows, p, to) then Result(s, Refused)
    else
      var size := s.rows[IdAt(s.rows, p)].size;
      Result(TrashMove(CacheRow(TrashSkeleton(s, env), stamp), p, to, size, env), Done)
  }

  ghost function TrashMove(s: Store, p: Path, to: Path, size: int, env: Env): Store
    requires p != [] && to != []
  {
    var s1 := TrashTouched(ChainOn(RekeyToTrash(s, p, to, env), to), p, to, env);
    Prop(s1, p, env.now, Shrink(size), env)
  }

  ghost function TrashTouched(s: Store, p: Path, to: Path, env: Env): Store
    requires p != [] && to != []
  {
    Prop(Touch(Touch(s, Parent(p), env), Parent(to), env), to, env.now, 0, env)
  }
}
