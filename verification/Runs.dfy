/** Whole runs of write requests. */
module Runs {
  import opened Paths
  import opened Tree
  import opened Stores
  import opened Operations
  import opened OperationProofs
  import opened PutGuards
  import opened RequestProofs
  import opened MoveProofs
  import opened TrashProofs

  datatype Op =
    | PutOp(path: Path, up: Upload)
    | BulkOp(path: Path, up: Upload)
    | MkcolOp(path: Path)
    | CopyOp(from: Path, to: Path, diskOk: bool)
    | MoveOp(from: Path, to: Path)
    | DeleteOp(path: Path)
    | TrashOp(path: Path, stamp: nat)
    | SetMtimeOp(path: Path, mtime: int)

  /** The paths of a request; the server maps every request below `files`. */
  function Ends(op: Op): seq<Path> {
    match op
    case PutOp(p, _) => [p]
    case BulkOp(p, _) => [p]
    case MkcolOp(p) => [p]
    case CopyOp(from, to, _) => [from, to]
    case MoveOp(from, to) => [from, to]
    case DeleteOp(p) => [p]
    case TrashOp(p, _) => [p]
    case SetMtimeOp(p, _) => [p]
  }

  predicate Mapped(op: Op) {
    forall p :: p in Ends(op) ==> InFiles(p)
  }

  ghost function Step(s: Store, op: Op, env: Env): Result
    requires Mapped(op)
  {
    match op
    case PutOp(p, up) => assert p in Ends(op); Put(s, p, up, env)
    case BulkOp(p, up) => assert p in Ends(op); BulkWrite(s, p, up, env)
    case MkcolOp(p) => assert p in Ends(op); Mkcol(s, p, env)
    case CopyOp(from, to, diskOk) => assert from in Ends(op) && to in Ends(op); Copy(s, from, to, diskOk, env)
    case MoveOp(from, to) => assert from in Ends(op) && to in Ends(op); Move(s, from, to, env)
    case DeleteOp(p) => assert p in Ends(op); HardDelete(s, p, env)
    case TrashOp(p, stamp) => assert p in Ends(op); Trash(s, p, stamp, env)
    case SetMtimeOp(p, mtime) => SetMtime(s, p, mtime, env)
  }

  datatype Request = Request(op: Op, env: Env)

  ghost function Run(s: Store, requests: seq<Request>): Store
    requires forall r :: r in requests ==> Mapped(r.op)
    decreases |requests|
  {
    if requests == [] then s
    else Run(Step(s, requests[0].op, requests[0].env).store, requests[1..])
  }

  // ── Every step ─────────────────────────────────────────────────────────────

  lemma StepKeeps(s: Store, op: Op, env: Env)
    requires Valid(s) && Mapped(op)
    ensures Valid(Step(s, op, env).store) && Evolves(s, Step(s, op, env).store)
  {
    hide Valid, Evolves, Exact, Put, BulkWrite, Mkcol, Copy, Move, HardDelete, Trash, SetMtime;
    match op
    case PutOp(p, up) => assert p in Ends(op); PutKeeps(s, p, up, env);
    case BulkOp(p, up) => assert p in Ends(op); BulkKeeps(s, p, up, env);
    case MkcolOp(p) => assert p in Ends(op); MkcolKeeps(s, p, env);
    case CopyOp(from, to, diskOk) =>
      assert from in Ends(op) && to in Ends(op);
      CopyKeeps(s, from, to, diskOk, env);
    case MoveOp(from, to) =>
      assert from in Ends(op) && to in Ends(op);
      MoveKeeps(s, from, to, env);
    case DeleteOp(p) => assert p in Ends(op); HardDeleteKeeps(s, p, env);
    case TrashOp(p, stamp) => assert p in Ends(op); TrashKeeps(s, p, stamp, env);
    case SetMtimeOp(p, mtime) => assert p in Ends(op); SetMtimeKeeps(s, p, mtime, env);
  }

  /** The condition on the table before the request under which it leaves every
      recorded folder size right. */
  ghost predicate SafeStep(s: Store, op: Op)
    requires Valid(s) && Mapped(op)
  {
    match op
    case PutOp(p, up) => assert p in Ends(op); PutAdmitted(s.rows, p, up) ==> SafeTarget(s.rows, p)
    case BulkOp(p, _) => assert p in Ends(op); BulkAdmitted(s.rows, p) ==> SafeTarget(s.rows, p)
    case DeleteOp(p) => SafeTarget(s.rows, p)
    case TrashOp(p, stamp) =>
      assert p in Ends(op);
      TrashAllowed(s.rows, p, TrashPath(Last(p), stamp)) ==> SafeTarget(s.rows, p)
    case MoveOp(from, to) =>
      assert from in Ends(op) && to in Ends(op);
      MoveAllowed(s.rows, from, to) ==> (ParentExists(s, from); SafeMove(s.rows, from, to))
    case _ => true
  }

  lemma StepExact(s: Store, op: Op, env: Env)
    requires Valid(s) && Mapped(op) && Exact(s.rows)
    ensures Exact(Step(s, op, env).store.rows) <==> SafeStep(s, op)
  {
    hide Valid, Evolves, Exact, Put, BulkWrite, Mkcol, Copy, HardDelete, Trash, SetMtime, SafeMove, MoveAllowed, PutAdmitted, BulkAdmitted, TrashAllowed, SafeTarget;
    match op
    case PutOp(p, up) => assert p in Ends(op); PutKeeps(s, p, up, env);
    case BulkOp(p, up) => assert p in Ends(op); BulkKeeps(s, p, up, env);
    case MkcolOp(p) => assert p in Ends(op); MkcolKeeps(s, p, env);
    case CopyOp(from, to, diskOk) =>
      assert from in Ends(op) && to in Ends(op);
      CopyKeeps(s, from, to, diskOk, env);
    case MoveOp(from, to) =>
      assert from in Ends(op) && to in Ends(op);
      if MoveAllowed(s.rows, from, to) {
        MoveSizesExact(s, from, to, env);
      }
    case DeleteOp(p) => assert p in Ends(op); HardDeleteKeeps(s, p, env);
    case TrashOp(p, stamp) => assert p in Ends(op); TrashExact(s, p, stamp, env);
    case SetMtimeOp(p, mtime) => assert p in Ends(op); SetMtimeKeeps(s, p, mtime, env);
  }

  // ── Every run ──────────────────────────────────────────────────────────────

  /** Any run of requests keeps the tree and its history. */
  lemma {:induction false} RunKeeps(s: Store, requests: seq<Request>)
    requires Valid(s) && forall r :: r in requests ==> Mapped(r.op)
    ensures Valid(Run(s, requests)) && Evolves(s, Run(s, requests))
    decreases |requests|
  {
    hide Valid, Evolves, Step;
    if requests == [] {
      EvolvesReflexive(s);
    } else {
      var u := Step(s, requests[0].op, requests[0].env).store;
      StepKeeps(s, requests[0].op, requests[0].env);
      RunKeeps(u, requests[1..]);
      EvolvesTransitive(s, u, Run(u, requests[1..]));
    }
  }

  ghost predicate SafeRun(s: Store, requests: seq<Request>)
    requires Valid(s) && forall r :: r in requests ==> Mapped(r.op)
    decreases |requests|
  {
    requests == [] ||
    (StepKeeps(s, requests[0].op, requests[0].env);
     && SafeStep(s, requests[0].op)
     && SafeRun(Step(s, requests[0].op, requests[0].env).store, requests[1..]))
  }

  /** Any run of safe requests keeps every recorded folder size right, and the
      first unsafe request of a run is the first to leave one wrong. */
  lemma {:induction false} RunExact(s: Store, requests: seq<Request>)
    requires Valid(s) && Exact(s.rows) && forall r :: r in requests ==> Mapped(r.op)
    ensures SafeRun(s, requests) <==>
              forall n :: 0 <= n <= |requests| ==> Exact(Run(s, requests[..n]).rows)
    decreases |requests|
  {
    hide Valid, Exact, Step, SafeStep;
    if requests != [] {
      var op, env, rest := requests[0].op, requests[0].env, requests[1..];
      var u := Step(s, op, env).store;
      StepKeeps(s, op, env);
      StepExact(s, op, env);
      forall n | 1 <= n <= |requests|
        ensures Run(s, requests[..n]) == Run(u, rest[..n - 1])
      {
        assert requests[..n][1..] == rest[..n - 1];
      }
      assert Run(u, rest[..0]) == u;
      if Exact(u.rows) {
        RunExact(u, rest);
        assert forall n :: 0 <= n <= |rest| ==> Run(u, rest[..n]) == Run(s, requests[..n + 1]);
      } else {
        assert Run(s, requests[..1]) == u;
      }
    }
  }
}
