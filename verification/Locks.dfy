/** Concurrent propagations and the row locks that order them. */
module Locks {
  // Each transaction locks its ancestor rows one at a time in ascending key order,
  // updates them all, and releases its locks when the statement ends.

  /** `keys` are the path hashes of the rows to lock, `pos` how many are locked. */
  datatype Txn = Txn(keys: seq<int>, delta: int, time: int, pos: nat, done: bool)

  datatype Cell = Cell(size: int, mtime: int)

  /** `log` lists the finished transactions in the order they committed. */
  datatype State = State(txns: seq<Txn>, cells: map<int, Cell>, log: seq<nat>)

  predicate Ascending(keys: seq<int>) {
    forall i, j :: 0 <= i < j < |keys| ==> keys[i] < keys[j]
  }

  function Apply(c: Cell, delta: int, time: int): Cell {
    Cell(if c.size > -1 then (if c.size + delta < -1 then -1 else c.size + delta) else c.size,
         if c.mtime < time then time else c.mtime)
  }

  // ── Steps ──────────────────────────────────────────────────────────────────

  predicate Holds(t: Txn, k: int)
    requires t.pos <= |t.keys|
  {
    !t.done && k in t.keys[..t.pos]
  }

  predicate WellFormed(s: State) {
    forall i :: 0 <= i < |s.txns| ==> s.txns[i].pos <= |s.txns[i].keys|
  }

  predicate Free(s: State, k: int)
    requires WellFormed(s)
  {
    forall j :: 0 <= j < |s.txns| ==> !Holds(s.txns[j], k)
  }

  predicate CanStep(s: State, i: nat)
    requires WellFormed(s)
  {
    && i < |s.txns|
    && !s.txns[i].done
    && (s.txns[i].pos < |s.txns[i].keys| ==> Free(s, s.txns[i].keys[s.txns[i].pos]))
  }

  /** Take the next lock, or with all locks held update every row and finish. */
  function Step(s: State, i: nat): State
    requires WellFormed(s) && CanStep(s, i)
  {
    var t := s.txns[i];
    if t.pos < |t.keys| then s.(txns := s.txns[i := t.(pos := t.pos + 1)])
    else
      State(s.txns[i := t.(done := true)],
            map k | k in s.cells :: if k in t.keys then Apply(s.cells[k], t.delta, t.time) else s.cells[k],
            s.log + [i])
  }

  predicate Initial(s: State) {
    && s.log == []
    && forall i :: 0 <= i < |s.txns| ==>
         Ascending(s.txns[i].keys) && s.txns[i].pos == 0 && !s.txns[i].done
  }

  /** What every interleaving keeps. */
  ghost predicate Inv(s: State) {
    && WellFormed(s)
    && (forall i :: 0 <= i < |s.txns| ==> Ascending(s.txns[i].keys))
    && (forall i, j, k :: 0 <= i < j < |s.txns| && Holds(s.txns[i], k) ==> !Holds(s.txns[j], k))
    && (forall a, b :: 0 <= a < b < |s.log| ==> s.log[a] != s.log[b])
    && (forall i :: i in s.log <==> 0 <= i < |s.txns| && s.txns[i].done)
  }

  lemma InitialInv(s: State)
    requires Initial(s)
    ensures Inv(s)
  {
  }

  lemma StepInv(s: State, i: nat)
    requires Inv(s) && CanStep(s, i)
    ensures Inv(Step(s, i))
  {
    var t, u := s.txns[i], Step(s, i);
    if t.pos < |t.keys| {
      var k0 := t.keys[t.pos];
      assert t.keys[..t.pos + 1] == t.keys[..t.pos] + [k0];
      forall a, b, k | 0 <= a < b < |u.txns| && Holds(u.txns[a], k)
        ensures !Holds(u.txns[b], k)
      {
        assert Free(s, k0);
        assert a == i || b == i || (Holds(s.txns[a], k) && u.txns[b] == s.txns[b]);
      }
    } else {
      forall j
        ensures j in u.log <==> 0 <= j < |u.txns| && u.txns[j].done
      {
        assert j in u.log <==> j in s.log || j == i;
      }
      forall a, b, k | 0 <= a < b < |u.txns| && Holds(u.txns[a], k)
        ensures !Holds(u.txns[b], k)
      {
        assert Holds(s.txns[a], k);
      }
    }
  }

  /** A row is written only by a transaction that holds all its rows, while no other
      holds any of them. */
  lemma WritesAreLocked(s: State, i: nat, k: int)
    requires Inv(s) && CanStep(s, i)
    ensures Step(s, i).log != s.log ==> k in s.txns[i].keys ==>
              Holds(s.txns[i], k) && forall j :: 0 <= j < |s.txns| && j != i ==> !Holds(s.txns[j], k)
    ensures Step(s, i).log == s.log ==> Step(s, i).cells == s.cells
    ensures k in s.cells ==> k in Step(s, i).cells && (k !in s.txns[i].keys ==> Step(s, i).cells[k] == s.cells[k])
  {
    var t := s.txns[i];
    if t.pos == |t.keys| {
      assert t.keys[..t.pos] == t.keys;
      assert k in t.keys ==> Holds(t, k);
    } else {
      assert Step(s, i).log == s.log;
    }
  }

  // ── No deadlock ────────────────────────────────────────────────────────────

  predicate Waiting(t: Txn) {
    !t.done && t.pos < |t.keys|
  }

  predicate WaitsFor(s: State, i: nat, j: nat)
    requires WellFormed(s)
  {
    i < |s.txns| && j < |s.txns| && Waiting(s.txns[i]) && Holds(s.txns[j], s.txns[i].keys[s.txns[i].pos])
  }

  /** Who waits for a waiting transaction waits for a smaller key than it does. */
  lemma WaitsAscend(s: State, i: nat, j: nat)
    requires Inv(s) && WaitsFor(s, i, j) && Waiting(s.txns[j])
    ensures s.txns[i].keys[s.txns[i].pos] < s.txns[j].keys[s.txns[j].pos]
  {
    var u := s.txns[j];
    var k := s.txns[i].keys[s.txns[i].pos];
    var a :| 0 <= a < u.pos && u.keys[a] == k;
  }

  /** Each member of the list waits for the next one. */
  predicate Chain(s: State, c: seq<nat>)
    requires WellFormed(s)
  {
    forall i :: 0 <= i < |c| - 1 ==> WaitsFor(s, c[i], c[i + 1])
  }

  lemma {:induction false} ChainAscends(s: State, c: seq<nat>)
    requires Inv(s) && |c| > 1 && Chain(s, c)
    requires c[|c| - 1] < |s.txns| && Waiting(s.txns[c[|c| - 1]])
    ensures c[0] < |s.txns| && Waiting(s.txns[c[0]])
    ensures s.txns[c[0]].keys[s.txns[c[0]].pos] < s.txns[c[|c| - 1]].keys[s.txns[c[|c| - 1]].pos]
    decreases |c|
  {
    assert WaitsFor(s, c[0], c[1]);
    if |c| > 2 {
      var d := c[1..];
      forall i | 0 <= i < |d| - 1
        ensures WaitsFor(s, d[i], d[i + 1])
      {
        assert WaitsFor(s, c[i + 1], c[i + 2]);
      }
      ChainAscends(s, d);
      WaitsAscend(s, c[0], c[1]);
    } else {
      WaitsAscend(s, c[0], c[1]);
    }
  }

  /** No reachable state has a cycle of waiting transactions. */
  lemma NoCycle(s: State, c: seq<nat>)
    requires Inv(s) && |c| > 1
    ensures !(Chain(s, c) && c[0] == c[|c| - 1])
  {
    if Chain(s, c) && c[0] == c[|c| - 1] {
      assert WaitsFor(s, c[0], c[1]);
      ChainAscends(s, c);
    }
  }

  ghost function BlockedHigher(s: State, i: nat): set<nat>
    requires WellFormed(s) && i < |s.txns| && Waiting(s.txns[i])
  {
    set j: nat | j < |s.txns| && Waiting(s.txns[j]) &&
                 s.txns[i].keys[s.txns[i].pos] < s.txns[j].keys[s.txns[j].pos]
  }

  /** From any unfinished transaction, following who it waits for leads to one
      that can step. */
  lemma {:induction false} Progress(s: State, i: nat) returns (j: nat)
    requires Inv(s) && i < |s.txns| && !s.txns[i].done
    ensures CanStep(s, j)
    decreases if Waiting(s.txns[i]) then 1 else 0, if Waiting(s.txns[i]) then BlockedHigher(s, i) else {}
  {
    if CanStep(s, i) {
      j := i;
    } else {
      var k := s.txns[i].keys[s.txns[i].pos];
      var h: nat :| h < |s.txns| && Holds(s.txns[h], k);
      if Waiting(s.txns[h]) {
        WaitsAscend(s, i, h);
        assert h in BlockedHigher(s, i) && h !in BlockedHigher(s, h);
        j := Progress(s, h);
      } else {
        j := h;
      }
    }
  }

  // ── Runs ───────────────────────────────────────────────────────────────────

  predicate Runnable(s: State, steps: seq<nat>)
    decreases |steps|
  {
    steps == [] || (WellFormed(s) && CanStep(s, steps[0]) && Runnable(Step(s, steps[0]), steps[1..]))
  }

  function Run(s: State, steps: seq<nat>): State
    requires Runnable(s, steps)
    decreases |steps|
  {
    if steps == [] then s else Run(Step(s, steps[0]), steps[1..])
  }

  predicate Finished(s: State) {
    forall i :: 0 <= i < |s.txns| ==> s.txns[i].done
  }

  /** How many steps are left: the locks not yet taken, and one commit each. */
  function Left(ts: seq<Txn>): nat
    requires forall i :: 0 <= i < |ts| ==> ts[i].pos <= |ts[i].keys|
  {
    if ts == [] then 0
    else
      var t := ts[|ts| - 1];
      Left(ts[..|ts| - 1]) + if t.done then 0 else |t.keys| - t.pos + 1
  }

  lemma {:induction false} LeftDrops(ts: seq<Txn>, us: seq<Txn>, i: nat)
    requires |ts| == |us| && i < |ts|
    requires forall j :: 0 <= j < |ts| ==> ts[j].pos <= |ts[j].keys| && us[j].pos <= |us[j].keys|
    requires forall j :: 0 <= j < |ts| && j != i ==> us[j] == ts[j]
    requires !ts[i].done
    requires if ts[i].pos == |ts[i].keys| then us[i] == ts[i].(done := true) else us[i] == ts[i].(pos := ts[i].pos + 1)
    ensures Left(us) == Left(ts) - 1
  {
    var n := |ts| - 1;
    if i == n {
      assert ts[..n] == us[..n];
    } else {
      LeftDrops(ts[..n], us[..n], i);
    }
  }

  /** Every run keeps the invariant, and takes exactly the steps that were left:
      no schedule runs forever. */
  lemma {:induction false} RunInv(s: State, steps: seq<nat>)
    requires Inv(s) && Runnable(s, steps)
    ensures Inv(Run(s, steps))
    ensures Left(Run(s, steps).txns) == Left(s.txns) - |steps|
    decreases |steps|
  {
    if steps != [] {
      StepInv(s, steps[0]);
      LeftDrops(s.txns, Step(s, steps[0]).txns, steps[0]);
      RunInv(Step(s, steps[0]), steps[1..]);
    }
  }

  /** Deadlock freedom: after any schedule there is no cycle of waiting
      transactions, and unless all are finished one of them can step. */
  lemma NeverStuck(s: State, steps: seq<nat>, c: seq<nat>)
    requires Initial(s) && Runnable(s, steps)
    ensures WellFormed(Run(s, steps))
    ensures |c| > 1 ==> !(Chain(Run(s, steps), c) && c[0] == c[|c| - 1])
    ensures Finished(Run(s, steps)) || exists j :: CanStep(Run(s, steps), j)
  {
    InitialInv(s);
    RunInv(s, steps);
    var u := Run(s, steps);
    if |c| > 1 {
      NoCycle(u, c);
    }
    if !Finished(u) {
      var i: nat :| i < |u.txns| && !u.txns[i].done;
      var j := Progress(u, i);
    }
  }

  // ── What a run computes ────────────────────────────────────────────────────

  predicate Ids(ts: seq<Txn>, log: seq<nat>) {
    forall a :: 0 <= a < |log| ==> log[a] < |ts|
  }

  /** The cell of row `k` after the transactions in `log` ran one after another. */
  function Replay(c: Cell, ts: seq<Txn>, log: seq<nat>, k: int): Cell
    requires Ids(ts, log)
  {
    if log == [] then c
    else
      var t := ts[log[|log| - 1]];
      var before := Replay(c, ts, log[..|log| - 1], k);
      if k in t.keys then Apply(before, t.delta, t.time) else before
  }

  predicate SameJobs(ts: seq<Txn>, us: seq<Txn>) {
    && |ts| == |us|
    && forall i :: 0 <= i < |ts| ==> us[i].keys == ts[i].keys && us[i].delta == ts[i].delta && us[i].time == ts[i].time
  }

  /** The cell is what a serial run in commit order gives so far. */
  ghost predicate Serial(s0: State, s: State, k: int) {
    && SameJobs(s0.txns, s.txns) && Ids(s0.txns, s.log)
    && k in s0.cells && k in s.cells && s.cells[k] == Replay(s0.cells[k], s0.txns, s.log, k)
  }

  lemma StepIsSerial(s0: State, s: State, i: nat, k: int)
    requires WellFormed(s) && CanStep(s, i) && Serial(s0, s, k)
    ensures Serial(s0, Step(s, i), k)
  {
    hide Free, Holds, Apply;
    var v := Step(s, i);
    if s.txns[i].pos == |s.txns[i].keys| {
      assert v.log[..|v.log| - 1] == s.log;
    }
  }

  /** Locking makes every interleaving a serial run in commit order. */
  lemma {:induction false} RunIsSerial(s0: State, s: State, steps: seq<nat>, k: int)
    requires Inv(s) && Runnable(s, steps) && Serial(s0, s, k)
    ensures Serial(s0, Run(s, steps), k)
    decreases |steps|
  {
    hide Serial, Ascending, Holds;
    if steps != [] {
      StepInv(s, steps[0]);
      StepIsSerial(s0, s, steps[0], k);
      RunIsSerial(s0, Step(s, steps[0]), steps[1..], k);
    }
  }

  // ── Order does not matter unless a floor is reached ────────────────────────

  /** What transaction `i` adds to row `k`. */
  function Share(ts: seq<Txn>, k: int, i: nat): int
    requires i < |ts|
  {
    if k in ts[i].keys then ts[i].delta else 0
  }

  function Shares(ts: seq<Txn>, k: int, log: seq<nat>): int
    requires Ids(ts, log)
  {
    if log == [] then 0 else Shares(ts, k, log[..|log| - 1]) + Share(ts, k, log[|log| - 1])
  }

  /** The same, counting reductions only. */
  function Losses(ts: seq<Txn>, k: int, log: seq<nat>): int
    requires Ids(ts, log)
  {
    if log == [] then 0
    else
      var d := Share(ts, k, log[|log| - 1]);
      Losses(ts, k, log[..|log| - 1]) + if d < 0 then d else 0
  }

  /** From a scanned size the floor swallows everything, or nothing was lost. */
  lemma {:induction false} ReplayEither(c: Cell, ts: seq<Txn>, log: seq<nat>, k: int)
    requires Ids(ts, log) && c.size >= 0
    ensures var r := Replay(c, ts, log, k).size;
      r >= -1 && (r == -1 || r == c.size + Shares(ts, k, log))
  {
    if log != [] {
      ReplayEither(c, ts, log[..|log| - 1], k);
    }
  }

  /** As long as the reductions alone fit, the floor is never reached. */
  lemma {:induction false} ReplayFits(c: Cell, ts: seq<Txn>, log: seq<nat>, k: int)
    requires Ids(ts, log) && c.size >= 0 && c.size + Losses(ts, k, log) >= 0
    ensures Replay(c, ts, log, k).size == c.size + Shares(ts, k, log) >= c.size + Losses(ts, k, log)
  {
    if log != [] {
      ReplayFits(c, ts, log[..|log| - 1], k);
    }
  }

  lemma {:induction false} ReplayStuck(c: Cell, ts: seq<Txn>, a: seq<nat>, b: seq<nat>, k: int)
    requires Ids(ts, a) && Ids(ts, b) && Replay(c, ts, a, k).size == -1
    ensures Ids(ts, a + b) && Replay(c, ts, a + b, k).size == -1
    decreases b
  {
    if b == [] {
      assert a + b == a;
    } else {
      ReplayStuck(c, ts, a, b[..|b| - 1], k);
      assert (a + b)[..|a + b| - 1] == a + b[..|b| - 1];
    }
  }

  /** `log` lists every number below `n` once. */
  ghost predicate Permutation(log: seq<nat>, n: nat) {
    && (forall i :: i in log <==> 0 <= i < n)
    && (forall a, b :: 0 <= a < b < |log| ==> log[a] != log[b])
  }

  function UpTo(n: nat): (ids: seq<nat>)
    ensures |ids| == n && forall i :: 0 <= i < n ==> ids[i] == i
  {
    if n == 0 then [] else UpTo(n - 1) + [n - 1]
  }

  lemma {:induction false} SharesRemove(ts: seq<Txn>, k: int, log: seq<nat>, a: nat)
    requires Ids(ts, log) && a < |log|
    ensures var rest := log[..a] + log[a + 1..];
      && Ids(ts, rest)
      && Shares(ts, k, log) == Shares(ts, k, rest) + Share(ts, k, log[a])
      && Losses(ts, k, log) == Losses(ts, k, rest) + if Share(ts, k, log[a]) < 0 then Share(ts, k, log[a]) else 0
    decreases |log|
  {
    var n := |log| - 1;
    var rest := log[..a] + log[a + 1..];
    if a == n {
      assert rest == log[..n];
    } else {
      SharesRemove(ts, k, log[..n], a);
      assert log[..n][..a] + log[..n][a + 1..] == rest[..|rest| - 1];
      assert rest[|rest| - 1] == log[n];
    }
  }

  lemma PermutationRemove(log: seq<nat>, n: nat, a: nat)
    requires Permutation(log, n) && a < |log| && log[a] == n - 1
    ensures Permutation(log[..a] + log[a + 1..], n - 1)
  {
    var rest := log[..a] + log[a + 1..];
    forall i | i in rest
      ensures 0 <= i < n - 1
    {
      var b :| 0 <= b < |rest| && rest[b] == i;
      var c := if b < a then b else b + 1;
      assert rest[b] == log[c] && log[c] in log;
      assert log[c] != log[a];
    }
    forall i | 0 <= i < n - 1
      ensures i in rest
    {
      assert i in log;
      var b :| 0 <= b < |log| && log[b] == i;
      assert rest[if b < a then b else b - 1] == i;
    }
  }

  /** The totals depend on which transactions ran, not on their order. */
  lemma {:induction false} SharesPermuted(ts: seq<Txn>, k: int, log: seq<nat>, n: nat)
    requires n <= |ts| && Permutation(log, n)
    ensures Ids(ts, log) && Ids(ts, UpTo(n))
    ensures Shares(ts, k, log) == Shares(ts, k, UpTo(n))
    ensures Losses(ts, k, log) == Losses(ts, k, UpTo(n))
    decreases n
  {
    forall a | 0 <= a < |log|
      ensures log[a] < n
    {
      assert log[a] in log;
    }
    if n == 0 {
      assert log == [];
    } else {
      assert n - 1 in log;
      var a :| 0 <= a < |log| && log[a] == n - 1;
      SharesRemove(ts, k, log, a);
      PermutationRemove(log, n, a);
      SharesPermuted(ts, k, log[..a] + log[a + 1..], n - 1);
      assert UpTo(n)[..n - 1] == UpTo(n - 1);
    }
  }

  /** A finished run has committed every transaction once. */
  lemma FinishedLog(s: State, steps: seq<nat>)
    requires Inv(s) && Runnable(s, steps) && Finished(Run(s, steps))
    ensures Permutation(Run(s, steps).log, |Run(s, steps).txns|)
  {
    RunInv(s, steps);
  }

  /** Whatever the interleaving, if the reductions of a row fit, its final size is
      the start plus all deltas. */
  lemma FinalSize(s: State, steps: seq<nat>, k: int)
    requires Initial(s) && Runnable(s, steps) && Finished(Run(s, steps))
    requires k in s.cells && s.cells[k].size >= 0
    requires Ids(s.txns, UpTo(|s.txns|))
    requires s.cells[k].size + Losses(s.txns, k, UpTo(|s.txns|)) >= 0
             || s.cells[k].size + Shares(s.txns, k, UpTo(|s.txns|)) == -1
    ensures k in Run(s, steps).cells
    ensures Run(s, steps).cells[k].size == s.cells[k].size + Shares(s.txns, k, UpTo(|s.txns|))
  {
    InitialInv(s);
    RunIsSerial(s, s, steps, k);
    FinishedLog(s, steps);
    var log := Run(s, steps).log;
    SharesPermuted(s.txns, k, log, |s.txns|);
    ReplayEither(s.cells[k], s.txns, log, k);
    if s.cells[k].size + Losses(s.txns, k, log) >= 0 {
      ReplayFits(s.cells[k], s.txns, log, k);
    }
  }

  /** The final mtime is the latest of the start and all times reported. */
  lemma {:induction false} ReplayMtime(c: Cell, ts: seq<Txn>, log: seq<nat>, k: int)
    requires Ids(ts, log)
    ensures var m := Replay(c, ts, log, k).mtime;
      && m >= c.mtime
      && (forall i :: i in log && k in ts[i].keys ==> m >= ts[i].time)
      && (m == c.mtime || exists i :: i in log && k in ts[i].keys && m == ts[i].time)
  {
    if log != [] {
      var n := |log| - 1;
      ReplayMtime(c, ts, log[..n], k);
      assert log == log[..n] + [log[n]];
      assert log[n] in log;
    }
  }

  lemma FinalMtime(s: State, steps: seq<nat>, k: int)
    requires Initial(s) && Runnable(s, steps) && Finished(Run(s, steps)) && k in s.cells
    ensures k in Run(s, steps).cells
    ensures var m := Run(s, steps).cells[k].mtime;
      && m >= s.cells[k].mtime
      && (forall i :: 0 <= i < |s.txns| && k in s.txns[i].keys ==> m >= s.txns[i].time)
      && (m == s.cells[k].mtime || exists i :: 0 <= i < |s.txns| && k in s.txns[i].keys && m == s.txns[i].time)
  {
    InitialInv(s);
    RunIsSerial(s, s, steps, k);
    FinishedLog(s, steps);
    ReplayMtime(s.cells[k], s.txns, Run(s, steps).log, k);
  }

  // ── Every order can happen ─────────────────────────────────────────────────

  /** Nobody is in the middle of a statement. */
  predicate Idle(s: State) {
    && WellFormed(s)
    && forall i :: 0 <= i < |s.txns| ==> s.txns[i].done || s.txns[i].pos == 0
  }

  lemma RunnableAppend(s: State, a: seq<nat>, b: seq<nat>)
    requires Runnable(s, a) && Runnable(Run(s, a), b)
    ensures Runnable(s, a + b) && Run(s, a + b) == Run(Run(s, a), b)
    decreases |a|
  {
    if a == [] {
      assert a + b == b;
    } else {
      RunnableAppend(Step(s, a[0]), a[1..], b);
      assert (a + b)[1..] == a[1..] + b;
    }
  }

  /** With everybody else idle, a transaction runs to its end. */
  lemma {:induction false} RunAlone(s: State, i: nat) returns (steps: seq<nat>)
    requires Inv(s) && i < |s.txns| && !s.txns[i].done
    requires forall j :: 0 <= j < |s.txns| && j != i ==> s.txns[j].done || s.txns[j].pos == 0
    ensures Runnable(s, steps)
    ensures var u := Run(s, steps);
      && Inv(u) && u.log == s.log + [i] && |u.txns| == |s.txns| && u.txns[i].done
      && forall j :: 0 <= j < |s.txns| && j != i ==> u.txns[j] == s.txns[j]
    decreases |s.txns[i].keys| - s.txns[i].pos
  {
    var t := s.txns[i];
    if t.pos < |t.keys| {
      assert Free(s, t.keys[t.pos]) by {
        assert forall a :: 0 <= a < t.pos ==> t.keys[a] < t.keys[t.pos];
      }
      StepInv(s, i);
      var rest := RunAlone(Step(s, i), i);
      steps := [i] + rest;
      assert steps[1..] == rest;
    } else {
      StepInv(s, i);
      steps := [i];
      assert steps[1..] == [];
    }
  }

  lemma RunNothing(s: State)
    ensures Runnable(s, []) && Run(s, []) == s
  {
  }

  /** For every order of the unfinished transactions some schedule commits in it. */
  lemma {:induction false} RunInOrder(s: State, order: seq<nat>) returns (steps: seq<nat>)
    requires Inv(s) && Idle(s)
    requires forall a :: 0 <= a < |order| ==> order[a] < |s.txns| && !s.txns[order[a]].done
    requires forall a, b :: 0 <= a < b < |order| ==> order[a] != order[b]
    ensures Runnable(s, steps)
    ensures Run(s, steps).log == s.log + order
    ensures |Run(s, steps).txns| == |s.txns|
    ensures forall j :: 0 <= j < |s.txns| ==> Run(s, steps).txns[j].done == (s.txns[j].done || j in order)
    decreases |order|
  {
    hide Inv, Runnable, Ascending;
    if order == [] {
      steps := [];
      RunNothing(s);
      assert s.log + order == s.log;
    } else {
      var first := RunAlone(s, order[0]);
      var u := Run(s, first);
      var rest := RunInOrder(u, order[1..]);
      steps := first + rest;
      RunnableAppend(s, first, rest);
      assert s.log + order == s.log + [order[0]] + order[1..];
    }
  }

  /** The transactions below `n` that reduce row `k`, then the others. */
  function Reducing(ts: seq<Txn>, k: int, n: nat): (ids: seq<nat>)
    requires n <= |ts|
    ensures Ids(ts, ids) && forall a :: 0 <= a < |ids| ==> ids[a] < n
  {
    if n == 0 then []
    else Reducing(ts, k, n - 1) + if Share(ts, k, n - 1) < 0 then [n - 1] else []
  }

  function Others(ts: seq<Txn>, k: int, n: nat): (ids: seq<nat>)
    requires n <= |ts|
    ensures Ids(ts, ids) && forall a :: 0 <= a < |ids| ==> ids[a] < n
  {
    if n == 0 then []
    else Others(ts, k, n - 1) + if Share(ts, k, n - 1) < 0 then [] else [n - 1]
  }

  lemma SharesAppend(ts: seq<Txn>, k: int, log: seq<nat>, i: nat)
    requires Ids(ts, log) && i < |ts|
    ensures Ids(ts, log + [i]) && Shares(ts, k, log + [i]) == Shares(ts, k, log) + Share(ts, k, i)
  {
    assert (log + [i])[..|log|] == log;
  }

  lemma {:induction false} ReducingIsLosses(ts: seq<Txn>, k: int, n: nat)
    requires n <= |ts|
    ensures Ids(ts, UpTo(n)) && Shares(ts, k, Reducing(ts, k, n)) == Losses(ts, k, UpTo(n))
    decreases n
  {
    if n > 0 {
      ReducingIsLosses(ts, k, n - 1);
      assert UpTo(n)[..n - 1] == UpTo(n - 1);
      hide Shares;
      var a := Reducing(ts, k, n - 1);
      SharesAppend(ts, k, a, n - 1);
      assert a + [] == a;
    }
  }

  lemma {:induction false} ReducingFirst(ts: seq<Txn>, k: int, n: nat)
    requires n <= |ts|
    ensures Permutation(Reducing(ts, k, n) + Others(ts, k, n), n)
    decreases n
  {
    if n > 0 {
      ReducingFirst(ts, k, n - 1);
      var a, b := Reducing(ts, k, n - 1), Others(ts, k, n - 1);
      if Share(ts, k, n - 1) < 0 {
        PermutationInsert(a, b, n);
        assert Reducing(ts, k, n) == a + [n - 1] && Others(ts, k, n) == b + [] == b;
      } else {
        assert a + b + [] == a + b;
        PermutationInsert(a + b, [], n);
        assert Reducing(ts, k, n) == a + [] == a && Others(ts, k, n) == b + [n - 1];
        assert (a + b) + [n - 1] + [] == a + (b + [n - 1]);
      }
    }
  }

  lemma PermutationInsert(a: seq<nat>, b: seq<nat>, n: nat)
    requires n > 0 && Permutation(a + b, n - 1)
    ensures Permutation(a + [n - 1] + b, n)
  {
    var log, was := a + [n - 1] + b, a + b;
    forall c | 0 <= c < |log|
      ensures c == |a| ==> log[c] == n - 1
      ensures c < |a| ==> log[c] == was[c]
      ensures c > |a| ==> log[c] == was[c - 1]
    {
    }
    forall i
      ensures i in log <==> 0 <= i < n
    {
      assert i in log <==> i in was || i == n - 1;
      assert i in was <==> 0 <= i < n - 1;
    }
    forall c, d | 0 <= c < d < |log|
      ensures log[c] != log[d]
    {
      var c', d' := if c < |a| then c else c - 1, if d < |a| then d else d - 1;
      if c == |a| {
        assert was[d'] in was;
      } else if d == |a| {
        assert was[c'] in was;
      } else {
        assert was[c'] != was[d'];
      }
    }
  }

  ghost predicate AlwaysTotals(s: State, k: int)
    requires k in s.cells && Ids(s.txns, UpTo(|s.txns|))
  {
    forall steps :: Runnable(s, steps) && Finished(Run(s, steps)) ==>
      && k in Run(s, steps).cells
      && Run(s, steps).cells[k].size == s.cells[k].size + Shares(s.txns, k, UpTo(|s.txns|))
  }

  /** Independence from interleaving: a scanned row ends with the start plus all
      deltas under every schedule exactly when its reductions alone fit, or the
      total is the floor itself. */
  lemma InterleavingsAgree(s: State, k: int)
    requires Initial(s) && k in s.cells && s.cells[k].size >= 0
    ensures Ids(s.txns, UpTo(|s.txns|))
    ensures AlwaysTotals(s, k) <==>
              || s.cells[k].size + Losses(s.txns, k, UpTo(|s.txns|)) >= 0
              || s.cells[k].size + Shares(s.txns, k, UpTo(|s.txns|)) == -1
  {
    var ts, n := s.txns, |s.txns|;
    var size := s.cells[k].size;
    if size + Losses(ts, k, UpTo(n)) >= 0 || size + Shares(ts, k, UpTo(n)) == -1 {
      forall steps | Runnable(s, steps) && Finished(Run(s, steps))
        ensures k in Run(s, steps).cells
        ensures Run(s, steps).cells[k].size == size + Shares(ts, k, UpTo(n))
      {
        FinalSize(s, steps, k);
      }
    } else {
      var steps := ReductionsFirst(s, k);
      assert Runnable(s, steps) && Finished(Run(s, steps));
    }
  }

  /** A schedule that commits all reductions of row `k` first. */
  lemma ReductionsFirst(s: State, k: int) returns (steps: seq<nat>)
    requires Initial(s) && k in s.cells && s.cells[k].size >= 0
    requires Ids(s.txns, UpTo(|s.txns|)) && s.cells[k].size + Losses(s.txns, k, UpTo(|s.txns|)) < 0
    ensures Runnable(s, steps) && Finished(Run(s, steps))
    ensures k in Run(s, steps).cells && Run(s, steps).cells[k].size == -1
  {
    hide Reducing, Others, Losses, Inv;
    var ts, n := s.txns, |s.txns|;
    InitialInv(s);
    ReducingFirst(ts, k, n);
    ReducingIsLosses(ts, k, n);
    var a, b := Reducing(ts, k, n), Others(ts, k, n);
    var order := a + b;
    forall c | 0 <= c < |order|
      ensures order[c] < n
    {
      assert order[c] in order;
    }
    steps := RunInOrder(s, order);
    forall j | 0 <= j < n
      ensures Run(s, steps).txns[j].done
    {
      assert j in order;
    }
    RunIsSerial(s, s, steps, k);
    assert Run(s, steps).log == order;
    ReplayEither(s.cells[k], ts, a, k);
    ReplayStuck(s.cells[k], ts, a, b, k);
  }

  // ── Why the keys are sorted ────────────────────────────────────────────────

  /** Two transactions that lock the same two rows in opposite orders can reach a
      state in which neither can step. */
  lemma UnsortedDeadlocks()
    ensures var s := State([Txn([1, 2], 0, 0, 0, false), Txn([2, 1], 0, 0, 0, false)], map[], []);
      && Runnable(s, [0, 1])
      && WellFormed(Run(s, [0, 1]))
      && !Finished(Run(s, [0, 1]))
      && Chain(Run(s, [0, 1]), [0, 1, 0])
      && forall j :: !CanStep(Run(s, [0, 1]), j)
  {
    var s := State([Txn([1, 2], 0, 0, 0, false), Txn([2, 1], 0, 0, 0, false)], map[], []);
    var s1 := Step(s, 0);
    assert s1.txns[0].keys[..1] == [1];
    assert CanStep(s1, 1);
    var s2 := Step(s1, 1);
    assert [0, 1][1..] == [1] && [1][1..] == [];
    assert Run(s1, [1]) == s2;
    assert Run(s, [0, 1]) == s2;
    assert s2.txns[0] == Txn([1, 2], 0, 0, 1, false) && s2.txns[1] == Txn([2, 1], 0, 0, 1, false);
    assert Holds(s2.txns[0], 1) && Holds(s2.txns[1], 2);
  }
}
