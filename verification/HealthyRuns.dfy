/** Runs on trees whose files are all scanned. */
module HealthyRuns {
  import opened Paths
  import opened Tree
  import opened Stores
  import opened Operations
  import opened RequestProofs
  import opened MoveProofs
  import opened Totals
  import opened ScannedProofs
  import opened Runs

  /** Exact, with every file scanned. */
  ghost predicate Healthy(s: Store) {
    Valid(s) && Exact(s.rows) && FilesScanned(s.rows)
  }

  /** Every request but a move to another folder. */
  predicate StaysHome(op: Op) {
    op.MoveOp? && op.from != [] && op.to != [] ==> Parent(op.from) == Parent(op.to)
  }

  lemma ScannedIsSafe(s: Store, op: Op)
    requires Healthy(s) && Mapped(op) && StaysHome(op)
    ensures SafeStep(s, op)
  {
    ScannedThroughout(s.rows);
    if op.MoveOp? {
      assert op.from in Ends(op) && op.to in Ends(op);
      if MoveAllowed(s.rows, op.from, op.to) {
        ParentExists(s, op.from);
      }
    }
  }

  lemma StepHealthy(s: Store, op: Op, env: Env)
    requires Healthy(s) && Mapped(op) && StaysHome(op)
    ensures Healthy(Step(s, op, env).store)
  {
    hide Valid, Exact, FilesScanned, Step, SafeStep;
    StepKeeps(s, op, env);
    ScannedIsSafe(s, op);
    StepExact(s, op, env);
    StepFiles(s, op, env);
  }

  /** Every run without a move to another folder keeps every folder's size equal
      to the number of file bytes below it. */
  lemma {:induction false} RunHealthy(s: Store, requests: seq<Request>)
    requires Healthy(s) && forall r :: r in requests ==> Mapped(r.op) && StaysHome(r.op)
    ensures Healthy(Run(s, requests))
    ensures var t := Run(s, requests).rows;
      forall id :: id in t ==> t[id].size == SumSizes(t, FilesUnder(t, t[id].path))
    decreases |requests|
  {
    if requests == [] {
      forall id | id in s.rows
        ensures s.rows[id].size == SumSizes(s.rows, FilesUnder(s.rows, s.rows[id].path))
      {
        ExactMeansTotal(s.rows, id);
      }
    } else {
      hide Healthy, Step;
      StepHealthy(s, requests[0].op, requests[0].env);
      RunHealthy(Step(s, requests[0].op, requests[0].env).store, requests[1..]);
    }
  }

  /** On a scanned tree a move keeps sizes exact exactly when it stays in its
      folder or moves no bytes. */
  lemma MoveScanned(s: Store, from: Path, to: Path, env: Env)
    requires Healthy(s) && InFiles(from) && InFiles(to) && MoveAllowed(s.rows, from, to)
    ensures Exact(Move(s, from, to, env).store.rows) <==>
              Parent(from) == Parent(to) || s.rows[IdAt(s.rows, from)].size == 0
  {
    MoveSizesExact(s, from, to, env);
    ScannedThroughout(s.rows);
  }
}
