/** Concurrent propagations over the filecache end as if run in turn. */
module Concurrency {
  import opened Paths
  import opened Tree
  import opened Stores
  import Locks

  /** One call of `propagate_change`, and what the clock shows then. */
  datatype Job = Job(path: Path, time: int, delta: int, env: Env)

  /** The time a job reports: its own, or the present one if that is earlier. */
  function Reported(j: Job): (time: int)
    ensures time <= j.time && time <= j.env.now && (time == j.time || time == j.env.now)
  {
    if j.time < j.env.now then j.time else j.env.now
  }

  /** The statements of the jobs: each locks the rows above its path, by the
      hashes of their paths, in ascending order. */
  ghost predicate Statements(t: Table, jobs: seq<Job>, hash: Path -> int, s: Locks.State) {
    && Locks.Initial(s) && |s.txns| == |jobs|
    && (forall i :: 0 <= i < |jobs| ==>
          && s.txns[i].delta == jobs[i].delta && s.txns[i].time == Reported(jobs[i])
          && forall id :: id in t ==> (hash(t[id].path) in s.txns[i].keys <==> Above(t[id].path, jobs[i].path)))
    && Recorded(t, hash, s.cells)
  }

  /** The locked rows hold the sizes and mtimes of the table. */
  ghost predicate Recorded(t: Table, hash: Path -> int, cells: map<int, Locks.Cell>) {
    forall id :: id in t ==>
      && hash(t[id].path) in cells
      && cells[hash(t[id].path)] == Locks.Cell(t[id].size, t[id].mtime)
  }

  /** The jobs in `log`, one propagation after the other. */
  function InTurn(s: Store, jobs: seq<Job>, log: seq<nat>): Store
    requires forall a :: 0 <= a < |log| ==> log[a] < |jobs|
  {
    if log == [] then s
    else
      var n := |log| - 1;
      var j := jobs[log[n]];
      Prop(InTurn(s, jobs, log[..n]), j.path, j.time, j.delta, j.env)
  }

  lemma {:induction false} InTurnIsReplay(
      t: Store, jobs: seq<Job>, hash: Path -> int, s: Locks.State, log: seq<nat>, id: int)
    requires Statements(t.rows, jobs, hash, s) && id in t.rows
    requires Locks.Ids(s.txns, log)
    ensures forall a :: 0 <= a < |log| ==> log[a] < |jobs|
    ensures var u := InTurn(t, jobs, log).rows;
      && id in u && u[id].path == t.rows[id].path
      && Locks.Cell(u[id].size, u[id].mtime) ==
           Locks.Replay(s.cells[hash(t.rows[id].path)], s.txns, log, hash(t.rows[id].path))
    decreases |log|
  {
    if log != [] {
      var n := |log| - 1;
      InTurnIsReplay(t, jobs, hash, s, log[..n], id);
      assert s.txns[log[n]].delta == jobs[log[n]].delta;
    }
  }

  /** Any schedule of the locking statements leaves the sizes and mtimes of the
      propagations run in commit order; once all have committed, that is all of
      them, each once. */
  lemma ConcurrentIsInTurn(
      t: Store, jobs: seq<Job>, hash: Path -> int, s: Locks.State, steps: seq<nat>)
    requires Statements(t.rows, jobs, hash, s) && Locks.Runnable(s, steps)
    ensures var log := Locks.Run(s, steps).log;
      && (forall a :: 0 <= a < |log| ==> log[a] < |jobs|)
      && Recorded(InTurn(t, jobs, log).rows, hash, Locks.Run(s, steps).cells)
      && (Locks.Finished(Locks.Run(s, steps)) ==> Locks.Permutation(log, |jobs|))
  {
    var u := Locks.Run(s, steps);
    Locks.InitialInv(s);
    LogOfRun(s, steps);
    var w := InTurn(t, jobs, u.log).rows;
    InTurnRows(t, jobs, u.log);
    forall id | id in w
      ensures hash(w[id].path) in u.cells
      ensures u.cells[hash(w[id].path)] == Locks.Cell(w[id].size, w[id].mtime)
    {
      InTurnIsReplay(t, jobs, hash, s, u.log, id);
      Locks.RunIsSerial(s, s, steps, hash(t.rows[id].path));
    }
    if Locks.Finished(u) {
      Locks.FinishedLog(s, steps);
    }
  }

  lemma {:induction false} InTurnRows(t: Store, jobs: seq<Job>, log: seq<nat>)
    requires forall a :: 0 <= a < |log| ==> log[a] < |jobs|
    ensures InTurn(t, jobs, log).rows.Keys == t.rows.Keys
    decreases |log|
  {
    if log != [] {
      InTurnRows(t, jobs, log[..|log| - 1]);
    }
  }

  lemma {:induction false} SameCount(s: Locks.State, steps: seq<nat>)
    requires Locks.Runnable(s, steps)
    ensures |Locks.Run(s, steps).txns| == |s.txns|
    decreases |steps|
  {
    if steps != [] {
      SameCount(Locks.Step(s, steps[0]), steps[1..]);
    }
  }

  lemma LogOfRun(s: Locks.State, steps: seq<nat>)
    requires Locks.Inv(s) && Locks.Runnable(s, steps)
    ensures |Locks.Run(s, steps).txns| == |s.txns| && Locks.Ids(s.txns, Locks.Run(s, steps).log)
  {
    SameCount(s, steps);
    Locks.RunInv(s, steps);
    var u := Locks.Run(s, steps);
    forall a | 0 <= a < |u.log|
      ensures u.log[a] < |s.txns|
    {
      assert u.log[a] in u.log;
    }
  }

  /** Where the reductions of a row fit, every finished schedule records the same
      size for it: what the table held plus every delta from below it. */
  lemma ConcurrentTotals(
      t: Table, jobs: seq<Job>, hash: Path -> int, s: Locks.State, steps: seq<nat>, id: int)
    requires Statements(t, jobs, hash, s) && Locks.Runnable(s, steps) && Locks.Finished(Locks.Run(s, steps))
    requires id in t && t[id].size >= 0 && t[id].size + Falls(jobs, t[id].path, |jobs|) >= 0
    ensures hash(t[id].path) in Locks.Run(s, steps).cells
    ensures Locks.Run(s, steps).cells[hash(t[id].path)].size == t[id].size + Deltas(jobs, t[id].path, |jobs|)
  {
    var k := hash(t[id].path);
    SharesAreDeltas(t, jobs, hash, s, id, |jobs|);
    Locks.FinalSize(s, steps, k);
  }

  function Deltas(jobs: seq<Job>, q: Path, n: nat): int
    requires n <= |jobs|
  {
    if n == 0 then 0 else Deltas(jobs, q, n - 1) + if Above(q, jobs[n - 1].path) then jobs[n - 1].delta else 0
  }

  /** The same, counting reductions only. */
  function Falls(jobs: seq<Job>, q: Path, n: nat): int
    requires n <= |jobs|
  {
    if n == 0 then 0
    else Falls(jobs, q, n - 1) + if Above(q, jobs[n - 1].path) && jobs[n - 1].delta < 0 then jobs[n - 1].delta else 0
  }

  lemma {:induction false} SharesAreDeltas(
      t: Table, jobs: seq<Job>, hash: Path -> int, s: Locks.State, id: int, n: nat)
    requires Statements(t, jobs, hash, s) && id in t && n <= |jobs|
    ensures Locks.Ids(s.txns, Locks.UpTo(n))
    ensures Locks.Shares(s.txns, hash(t[id].path), Locks.UpTo(n)) == Deltas(jobs, t[id].path, n)
    ensures Locks.Losses(s.txns, hash(t[id].path), Locks.UpTo(n)) == Falls(jobs, t[id].path, n)
    decreases n
  {
    if n > 0 {
      SharesAreDeltas(t, jobs, hash, s, id, n - 1);
      assert Locks.UpTo(n)[..n - 1] == Locks.UpTo(n - 1);
      assert s.txns[n - 1].delta == jobs[n - 1].delta;
    }
  }

  /** Under every finished schedule a folder's mtime is the latest of what the table held
      and what the jobs below it report, each not ahead of its own clock. */
  lemma ConcurrentMtime(
      t: Table, jobs: seq<Job>, hash: Path -> int, s: Locks.State, steps: seq<nat>, id: int)
    requires Statements(t, jobs, hash, s) && Locks.Runnable(s, steps) && Locks.Finished(Locks.Run(s, steps)) && id in t
    ensures hash(t[id].path) in Locks.Run(s, steps).cells
    ensures var m := Locks.Run(s, steps).cells[hash(t[id].path)].mtime;
      && m >= t[id].mtime
      && (forall i :: 0 <= i < |jobs| && Above(t[id].path, jobs[i].path) ==> m >= jobs[i].time || m >= jobs[i].env.now)
      && (m == t[id].mtime || exists i ::
            && 0 <= i < |jobs| && Above(t[id].path, jobs[i].path)
            && m <= jobs[i].env.now && m <= jobs[i].time && (m == jobs[i].time || m == jobs[i].env.now))
  {
    var k := hash(t[id].path);
    Locks.FinalMtime(s, steps, k);
    var m := Locks.Run(s, steps).cells[k].mtime;
    forall i | 0 <= i < |jobs| && Above(t[id].path, jobs[i].path)
      ensures m >= jobs[i].time || m >= jobs[i].env.now
    {
      assert m >= s.txns[i].time;
    }
  }
}
