/** The quota gate, and what it guarantees over whole runs. */
module QuotaProofs {
  import opened Paths
  import opened Tree
  import opened Stores
  import opened Operations
  import opened OperationProofs
  import opened PutGuards
  import opened RequestProofs
  import opened Totals
  import opened ScannedProofs
  import opened Runs
  import opened HealthyRuns
  import opened QuotaUses

  /** `lookup_used_bytes`: the recorded size of the `files` folder. */
  ghost function Used(t: Table): nat {
    if HasPath(t, FILES) && t[IdAt(t, FILES)].size >= 0 then t[IdAt(t, FILES)].size else 0
  }

  /** `check_quota`: a negative free space reads as "unlimited". */
  ghost predicate GateAdmits(t: Table, quota: Quota, bytes: int) {
    bytes <= 0 ||
    match quota
    case Unlimited => true
    case Limit(q) => var free := q - Used(t); free < 0 || bytes <= free
  }

  /** The gate enforces the quota exactly while the user is within it; a user who
      is over it may write anything. */
  lemma GateEnforcesUntilExceeded(t: Table, q: int, bytes: int)
    requires bytes > 0
    ensures (GateAdmits(t, Limit(q), bytes) <==> Used(t) + bytes <= q) <==> Used(t) <= q
  {
  }

  lemma UsedIs(s: Store, f: int, size: int)
    requires Valid(s) && FilesAre(s, f, size) && size >= 0
    ensures Used(s.rows) == size
  {
    UniqueFiles(s, f);
  }

  // ── Quota over runs ────────────────────────────────────────────────────────

  /** The storage root is at least as large as its `files` folder. */
  lemma RootHoldsFiles(s: Store, f: int, size: int)
    requires Healthy(s) && FilesAre(s, f, size)
    ensures HasPath(s.rows, []) && s.rows[IdAt(s.rows, [])].size >= size
  {
    ScannedThroughout(s.rows);
    var r := IdAt(s.rows, []);
    assert Linked(s.rows, f) && Linked(s.rows, r);
    assert At(s.rows, s.rows[f].parent, []);
    assert f in Children(s.rows, r);
    assert ExactAt(s.rows, r);
    SumAtLeast(s.rows, Children(s.rows, r), f);
  }

  lemma CommitCheck(s: Store, f: int, size: int, q: int, bytes: nat)
    requires Healthy(s) && FilesAre(s, f, size) && !OverQuota(s.rows, Limit(q), bytes)
    ensures size + bytes < q
  {
    RootHoldsFiles(s, f, size);
  }

  /** The check at commit is enough by itself: it compares with the whole storage. */
  lemma PutCommitted(s: Store, p: Path, up: Upload, env: Env, f: int, size: nat, q: int)
    requires Healthy(s) && InFiles(p) && FilesAre(s, f, size)
    requires up.quota == Limit(q) && Put(s, p, up, env).outcome == Done
    ensures size + up.size < q
  {
    hide Shaped, SizesOk, TrashIsFolder, Exact, FilesScanned, CommitNew, CommitOverwrite, StoreVersion, EnsureDirs, Evolves, OverQuota;
    AboveParent(p);
    EnsureKeeps(s, Parent(p), env);
    var s1 := EnsureDirs(s, Parent(p), env);
    ExtendsFiles(s, s1, Parent(p));
    ExtendsFilesAre(s, s1, Parent(p), f, size);
    if HasPath(s.rows, p) {
      ParentExists(s, p);
      EnsureExisting(s, Parent(p), env);
      OverVersion(s, p, env, f, size);
      CommitCheck(StoreVersion(s, p, s.rows[IdAt(s.rows, p)], env), f, size, q, up.size);
    } else {
      CommitCheck(s1, f, size, q, up.size);
    }
  }

  lemma OverVersion(s: Store, p: Path, env: Env, f: int, size: int)
    requires Healthy(s) && InFiles(p) && HasPath(s.rows, p) && !IsDirAt(s.rows, p) && FilesAre(s, f, size)
    ensures var s2 := StoreVersion(s, p, s.rows[IdAt(s.rows, p)], env);
      Healthy(s2) && FilesAre(s2, f, size)
  {
    var r := s.rows[IdAt(s.rows, p)];
    StoreVersionKeeps(s, p, r, env);
    StoreVersionFiles(s, p, r, env);
    VersionFilesAre(s, p, r, env, f, size);
  }

  /** A request with the upload size its headers announce, 0 when they do not. */
  datatype Announced = Announced(op: Op, env: Env, declared: nat)

  /** The gate in front of PUT, bulk parts, MKCOL and COPY. */
  ghost predicate Admitted(s: Store, r: Announced, q: int) {
    match r.op
    case PutOp(_, _) => GateAdmits(s.rows, Limit(q), r.declared)
    case BulkOp(_, up) => GateAdmits(s.rows, Limit(q), up.size)
    case MkcolOp(_) => GateAdmits(s.rows, Limit(q), 4096)
    case CopyOp(from, _, _) => SourceSize(s.rows, from) > 0 ==> GateAdmits(s.rows, Limit(q), SourceSize(s.rows, from))
    case _ => true
  }

  /** The recorded size of the `files` folder; nothing when it is unscanned or not there. */
  ghost predicate UsedFor(t: Table, used: nat) {
    if exists f :: f in t && t[f].path == ["files"] && t[f].size >= 0
    then exists f :: f in t && t[f].path == ["files"] && t[f].size == used
    else used == 0
  }

  /** Which requests pass the gate: a user over the quota may do anything, and otherwise
      an upload must fit as announced, a part as sent, a new folder counts for 4096
      bytes and a copy for its source.  Nothing else is asked. */
  lemma AdmittedIff(s: Store, r: Announced, q: int, used: nat)
    requires Valid(s) && UsedFor(s.rows, used)
    ensures Admitted(s, r, q) <==>
              match r.op
              case PutOp(_, _) => r.declared == 0 || used > q || used + r.declared <= q
              case BulkOp(_, up) => up.size == 0 || used > q || used + up.size <= q
              case MkcolOp(_) => used > q || used + 4096 <= q
              case CopyOp(from, _, _) =>
                forall id :: id in s.rows && s.rows[id].path == from && s.rows[id].size > 0 ==>
                  used > q || used + s.rows[id].size <= q
              case _ => true
  {
    forall id | id in s.rows
      ensures At(s.rows, id, s.rows[id].path)
      ensures HasPath(s.rows, s.rows[id].path) && IdAt(s.rows, s.rows[id].path) == id
    {
      assert At(s.rows, id, s.rows[id].path);
    }
    assert FILES == ["files"];
    assert Used(s.rows) == used;
  }

  /** An upload sends no more than it announced, or the check at commit reads the
      quota, or a smaller one.  `AnnouncementDecides` shows what goes wrong without. */
  predicate Accountable(r: Announced, q: int) {
    && Mapped(r.op) && StaysHome(r.op)
    && (r.op.PutOp? ==>
          || r.declared >= r.op.up.size
          || (r.op.up.quota.Limit? && r.op.up.quota.bytes <= q))
  }

  ghost function GatedStep(s: Store, r: Announced, q: int): Store
    requires Mapped(r.op)
  {
    if Admitted(s, r, q) then Step(s, r.op, r.env).store else s
  }

  ghost function GatedRun(s: Store, rs: seq<Announced>, q: int): Store
    requires forall r :: r in rs ==> Mapped(r.op)
    decreases |rs|
  {
    if rs == [] then s else GatedRun(GatedStep(s, rs[0], q), rs[1..], q)
  }

  lemma GatedStepUses(s: Store, r: Announced, q: int, f: int, size: nat) returns (after: nat)
    requires Healthy(s) && Accountable(r, q) && FilesAre(s, f, size) && size <= q
    ensures Healthy(GatedStep(s, r, q)) && FilesAre(GatedStep(s, r, q), f, after) && after <= q
  {
    hide Shaped, SizesOk, TrashIsFolder, Exact, FilesScanned, Put, BulkWrite, Mkcol, Copy, Move, HardDelete, Trash, Evolves;
    after := size;
    if Admitted(s, r, q) {
      UsedIs(s, f, size);
      StepHealthy(s, r.op, r.env);
      var a := StepUses(s, r, q, f, size);
      FilesNotNegative(Step(s, r.op, r.env).store, f, a);
      after := a;
    }
  }

  lemma FilesNotNegative(s: Store, f: int, size: int)
    requires Healthy(s) && FilesAre(s, f, size)
    ensures size >= 0
  {
    ScannedThroughout(s.rows);
  }

  lemma StepUses(s: Store, r: Announced, q: int, f: int, size: nat) returns (after: int)
    requires Healthy(s) && Accountable(r, q) && FilesAre(s, f, size) && size <= q
    requires Admitted(s, r, q) && Used(s.rows) == size
    ensures FilesAre(Step(s, r.op, r.env).store, f, after) && after <= q
  {
    hide Healthy, FilesAre, Put, BulkWrite, Mkcol, Copy, Move, HardDelete, Trash, SourceSize;
    after := size;
    match r.op
    case PutOp(p, up) =>
      assert p in Ends(r.op);
      after := PutUses(s, p, up, r.env, f, size);
      if up.quota.Limit? && Put(s, p, up, r.env).outcome == Done {
        PutCommitted(s, p, up, r.env, f, size, up.quota.bytes);
      }
    case BulkOp(p, up) =>
      assert p in Ends(r.op);
      after := BulkUses(s, p, up, r.env, f, size);
    case MkcolOp(p) =>
      assert p in Ends(r.op);
      MkcolKeepsUses(s, p, r.env, f, size);
    case CopyOp(from, to, diskOk) =>
      assert from in Ends(r.op) && to in Ends(r.op);
      after := CopyUses(s, from, to, diskOk, r.env, f, size);
    case MoveOp(from, to) =>
      assert from in Ends(r.op) && to in Ends(r.op);
      HomeMoveUses(s, from, to, r.env, f, size);
    case DeleteOp(p) =>
      assert p in Ends(r.op);
      after := DeleteUses(s, p, r.env, f, size);
    case TrashOp(p, stamp) =>
      assert p in Ends(r.op);
      after := TrashUses(s, p, stamp, r.env, f, size);
    case SetMtimeOp(p, mtime) =>
      SetMtimeUses(s, p, mtime, r.env, f, size);
  }

  lemma MkcolKeepsUses(s: Store, p: Path, env: Env, f: int, size: nat)
    requires Healthy(s) && InFiles(p) && FilesAre(s, f, size)
    ensures FilesAre(Mkcol(s, p, env).store, f, size)
  {
    MkcolUses(s, p, env, f, size);
  }

  lemma SetMtimeUses(s: Store, p: Path, mtime: int, env: Env, f: int, size: int)
    requires FilesAre(s, f, size) && size >= 0
    ensures FilesAre(SetMtime(s, p, mtime, env).store, f, size)
  {
  }

  /** With a finite quota that is not yet exceeded, no sequential run of requests
      (moves between folders aside) takes the bytes stored under `files` above it. */
  lemma {:induction false} QuotaHolds(s: Store, rs: seq<Announced>, q: int, f: int)
    requires Healthy(s) && At(s.rows, f, FILES) && s.rows[f].isDir && s.rows[f].size <= q
    requires forall r :: r in rs ==> Mapped(r.op) && Accountable(r, q)
    ensures var t := GatedRun(s, rs, q).rows;
      At(t, f, FILES) && SumSizes(t, FilesUnder(t, FILES)) == t[f].size <= q
    decreases |rs|
  {
    if rs == [] {
      ExactMeansTotal(s.rows, f);
    } else {
      hide Shaped, SizesOk, TrashIsFolder, Exact, FilesScanned, GatedStep, Accountable;
      FilesNotNegative(s, f, s.rows[f].size);
      var after := GatedStepUses(s, rs[0], q, f, s.rows[f].size);
      QuotaHolds(GatedStep(s, rs[0], q), rs[1..], q, f);
    }
  }

  // ── Uploads that send more than they announce ──────────────────────────────

  /** From every healthy state within every quota, the upload ends within it. */
  ghost predicate AlwaysWithin(p: Path, up: Upload, declared: nat)
    requires InFiles(p)
  {
    forall s: Store, env: Env, q: int, f: int ::
      Healthy(s) && At(s.rows, f, FILES) && s.rows[f].isDir && s.rows[f].size <= q ==>
        EndsWithin(s, p, up, declared, env, q, f)
  }

  ghost predicate EndsWithin(s: Store, p: Path, up: Upload, declared: nat, env: Env, q: int, f: int)
    requires InFiles(p)
  {
    GateAdmits(s.rows, Limit(q), declared) ==>
      var t := Put(s, p, up, env).store.rows;
      At(t, f, FILES) && t[f].size <= q
  }

  /** The commit would accept the upload into an empty storage. */
  predicate Commits(up: Upload) {
    up.checksumOk && (up.quota.Limit? ==> up.size < up.quota.bytes)
  }

  /** The quota seen by the check at commit is off for users under the server's
      default.  An upload that the commit accepts is then bounded by the gate alone,
      which holds exactly when it announces at least what it sends. */
  lemma AnnouncementDecides(p: Path, up: Upload, declared: nat)
    requires InFiles(p)
    ensures AlwaysWithin(p, up, declared) <==> (Commits(up) ==> declared >= up.size)
  {
    hide Healthy, GateAdmits, InFiles, FILES, Put;
    if Commits(up) && declared < up.size {
      var env := Env(0, (q: Path) => 0);
      UndeclaredPutExceeds(p, up, declared, env);
      assert At(EmptyStorage().rows, 2, FILES);
      assert !EndsWithin(EmptyStorage(), p, up, declared, env, declared, 2);
    } else {
      forall s: Store, env: Env, q: int, f: int |
        Healthy(s) && At(s.rows, f, FILES) && s.rows[f].isDir && s.rows[f].size <= q
        ensures EndsWithin(s, p, up, declared, env, q, f)
      {
        AnnouncedEndsWithin(s, p, up, declared, env, q, f);
      }
    }
  }

  lemma AnnouncedEndsWithin(s: Store, p: Path, up: Upload, declared: nat, env: Env, q: int, f: int)
    requires InFiles(p) && (Commits(up) ==> declared >= up.size)
    requires Healthy(s) && At(s.rows, f, FILES) && s.rows[f].isDir && s.rows[f].size <= q
    ensures EndsWithin(s, p, up, declared, env, q, f)
  {
    hide Shaped, SizesOk, TrashIsFolder, Exact, FilesScanned, Put;
    FilesNotNegative(s, f, s.rows[f].size);
    var size: nat := s.rows[f].size;
    UsedIs(s, f, size);
    var after := PutUses(s, p, up, env, f, size);
    if Put(s, p, up, env).outcome == Done && !Commits(up) {
      DoneCommits(s, p, up, env, f, size);
    }
  }

  lemma DoneCommits(s: Store, p: Path, up: Upload, env: Env, f: int, size: nat)
    requires Healthy(s) && InFiles(p) && FilesAre(s, f, size) && Put(s, p, up, env).outcome == Done
    ensures Commits(up)
  {
    hide Healthy, FilesAre, StoreVersion, CommitNew, CommitOverwrite, EnsureDirs;
    if up.quota.Limit? {
      PutCommitted(s, p, up, env, f, size, up.quota.bytes);
    }
  }

  /** A storage with nothing in it but the `files` folder. */
  function EmptyStorage(): Store {
    Store(map[
      1 := Row([], -1, "", true, 0, 0, 0, 1),
      2 := Row(FILES, 1, "files", true, 0, 0, 0, 2)], 3, 3)
  }

  lemma EmptyStorageHealthy()
    ensures Healthy(EmptyStorage())
  {
    var s := EmptyStorage();
    assert At(s.rows, 1, []);
    forall id | id in s.rows
      ensures Linked(s.rows, id)
    {
    }
    forall i, j, p | At(s.rows, i, p) && At(s.rows, j, p)
      ensures i == j
    {
    }
    assert Children(s.rows, 1) == {2} && Children(s.rows, 2) == {};
    SumRemove(s.rows, {2}, 2);
    assert {2} - {2} == {};
    assert ExactAt(s.rows, 1) && ExactAt(s.rows, 2);
  }

  /** The failing input: into an empty storage, under the quota that was announced,
      the gate admits the upload and the bytes under `files` end above the quota.
      Announcing nothing is the case `declared == 0`. */
  lemma UndeclaredPutExceeds(p: Path, up: Upload, declared: nat, env: Env)
    requires InFiles(p) && Commits(up) && declared < up.size
    ensures var s, q := EmptyStorage(), declared;
      && Healthy(s) && At(s.rows, 2, FILES) && s.rows[2].isDir && s.rows[2].size <= q
      && GateAdmits(s.rows, Limit(q), declared)
      && Put(s, p, up, env).outcome == Done
      && FilesAre(Put(s, p, up, env).store, 2, up.size) && up.size > q
  {
    var s := EmptyStorage();
    EmptyStorageHealthy();
    UsedIs(s, 2, 0);
    EmptyAdmits(s, p, up);
    PutDecided(s, p, up, env);
    NewPutUses(s, p, up, env, 2, 0);
  }

  lemma EmptyAdmits(s: Store, p: Path, up: Upload)
    requires s == EmptyStorage() && Valid(s) && InFiles(p) && Commits(up)
    ensures !HasPath(s.rows, p) && PutAdmitted(s.rows, p, up)
  {
    assert At(s.rows, 1, []) && At(s.rows, 2, FILES);
    assert IdAt(s.rows, []) == 1;
  }

  /** An accepted new file adds exactly its size. */
  lemma NewPutUses(s: Store, p: Path, up: Upload, env: Env, f: int, size: nat)
    requires Healthy(s) && InFiles(p) && !HasPath(s.rows, p) && FilesAre(s, f, size)
    requires Put(s, p, up, env).outcome == Done
    ensures FilesAre(Put(s, p, up, env).store, f, size + up.size)
  {
    hide Evolves, CommitNew, EnsureDirs, OverQuota, Fits, UsedAtCommit;
    AboveParent(p);
    EnsureKeeps(s, Parent(p), env);
    var s1 := EnsureDirs(s, Parent(p), env);
    ExtendsPaths(s, s1, Parent(p), p);
    ExtendsFilesAre(s, s1, Parent(p), f, size);
    CommitNewUses(s1, p, up, env, f, size);
  }
}
