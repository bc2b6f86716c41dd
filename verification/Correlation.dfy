/** The client's two-cursor pass over its own hashes and the server's plan. */
module Correlation {
  import opened Basics
  import opened ChunkTable
  import L = Lifecycle

  /** A chunk still to be uploaded: its index in the file and where it goes. */
  datatype Task = Task(index: nat, plan: Plan)

  datatype Cursor = Cursor(tasks: seq<Task>, used: nat)

  /** The pass after the first n hashes: a hash equal to the next plan entry consumes it. */
  function Greedy(hashes: seq<Hash>, plans: seq<Plan>, completed: seq<bool>, n: nat): (c: Cursor)
    requires n <= |hashes| == |completed|
    ensures c.used <= |plans|
  {
    if n == 0 then Cursor([], 0) else
    var c := Greedy(hashes, plans, completed, n - 1);
    if c.used < |plans| && hashes[n - 1] == plans[c.used].hash then
      Cursor(if completed[n - 1] then c.tasks else c.tasks + [Task(n - 1, plans[c.used])], c.used + 1)
    else c
  }

  lemma {:induction false} GreedyStops(hashes: seq<Hash>, plans: seq<Plan>, completed: seq<bool>, m: nat, n: nat)
    requires m <= n <= |hashes| == |completed| && Greedy(hashes, plans, completed, m).used == |plans|
    ensures Greedy(hashes, plans, completed, n) == Greedy(hashes, plans, completed, m)
  {
    if m < n {
      GreedyStops(hashes, plans, completed, m, n - 1);
    }
  }

  method Correlate(hashes: seq<Hash>, plans: seq<Plan>, completed: seq<bool>) returns (tasks: seq<Task>)
    requires |hashes| == |completed|
    ensures tasks == Greedy(hashes, plans, completed, |hashes|).tasks
  {
    tasks := [];
    var i, planIndex := 0, 0;
    while i < |hashes| && planIndex < |plans|
      invariant i <= |hashes|
      invariant Greedy(hashes, plans, completed, i) == Cursor(tasks, planIndex)
    {
      if hashes[i] == plans[planIndex].hash {
        if !completed[i] {
          tasks := tasks + [Task(i, plans[planIndex])];
        }
        planIndex := planIndex + 1;
      }
      i := i + 1;
    }
    if planIndex == |plans| {
      GreedyStops(hashes, plans, completed, i, |hashes|);
    }
  }

  // ---------------------------------------------------------------- exactness

  ghost predicate Increasing(tasks: seq<Task>) {
    forall j, k :: 0 <= j < k < |tasks| ==> tasks[j].index < tasks[k].index
  }

  ghost predicate Wanted(t: Table, hashes: seq<Hash>, completed: seq<bool>, i: nat) {
    i < |hashes| && i < |completed| && Missing(t, hashes[i]) && !completed[i]
  }

  /** What the first n hashes give: exactly the wanted indices, in order, each with its own plan entry. */
  ghost predicate ExactTasks(t: Table, workers: set<WorkerId>, route: map<Hash, set<WorkerId>>, hashes: seq<Hash>, completed: seq<bool>, tasks: seq<Task>, n: nat) {
    && Increasing(tasks)
    && (forall k :: 0 <= k < |tasks| ==>
          && tasks[k].index < n && Wanted(t, hashes, completed, tasks[k].index)
          && tasks[k].plan == Plan(hashes[tasks[k].index], NodesFor(t, route, hashes[tasks[k].index]) * workers))
    && (forall i :: 0 <= i < n && Wanted(t, hashes, completed, i) ==> exists k :: 0 <= k < |tasks| && tasks[k].index == i)
  }

  lemma {:induction false} MissingPlansPrefix(t: Table, workers: set<WorkerId>, route: map<Hash, set<WorkerId>>, hashes: seq<Hash>, n: nat)
    requires n <= |hashes|
    ensures MissingPlans(t, workers, route, hashes[..n]) <= MissingPlans(t, workers, route, hashes)
    ensures forall k :: 0 <= k < |MissingPlans(t, workers, route, hashes)| ==> Missing(t, MissingPlans(t, workers, route, hashes)[k].hash)
  {
    if hashes != [] {
      var m := |hashes| - 1;
      if n < |hashes| {
        assert hashes[..m][..n] == hashes[..n];
        MissingPlansPrefix(t, workers, route, hashes[..m], n);
      } else {
        MissingPlansPrefix(t, workers, route, hashes[..m], m);
        assert hashes[..n] == hashes;
      }
    }
  }

  ghost function TaskFor(t: Table, workers: set<WorkerId>, route: map<Hash, set<WorkerId>>, hashes: seq<Hash>, i: nat): Task
    requires i < |hashes|
  {
    Task(i, Plan(hashes[i], NodesFor(t, route, hashes[i]) * workers))
  }

  lemma {:induction false} ExactStep(t: Table, workers: set<WorkerId>, route: map<Hash, set<WorkerId>>, hashes: seq<Hash>, completed: seq<bool>, tasks: seq<Task>, n: nat)
    requires n < |hashes| == |completed| && ExactTasks(t, workers, route, hashes, completed, tasks, n)
    ensures ExactTasks(t, workers, route, hashes, completed,
              if Wanted(t, hashes, completed, n) then tasks + [TaskFor(t, workers, route, hashes, n)] else tasks, n + 1)
  {
    var more := tasks + [TaskFor(t, workers, route, hashes, n)];
    assert more[|tasks|].index == n;
    forall i | 0 <= i < n && Wanted(t, hashes, completed, i)
      ensures exists k :: 0 <= k < |more| && more[k].index == i
    {
      var k :| 0 <= k < |tasks| && tasks[k].index == i;
      assert more[k].index == i;
    }
  }

  /** A missing hash meets its own plan entry, any other hash meets none. */
  lemma {:induction false} GreedyStep(t: Table, workers: set<WorkerId>, route: map<Hash, set<WorkerId>>, hashes: seq<Hash>, completed: seq<bool>, n: nat)
    requires n < |hashes| == |completed|
    requires Greedy(hashes, MissingPlans(t, workers, route, hashes), completed, n).used == |MissingPlans(t, workers, route, hashes[..n])|
    ensures var plans := MissingPlans(t, workers, route, hashes);
            var c, c' := Greedy(hashes, plans, completed, n), Greedy(hashes, plans, completed, n + 1);
            && c'.used == |MissingPlans(t, workers, route, hashes[..n + 1])|
            && c'.tasks == if Wanted(t, hashes, completed, n) then c.tasks + [TaskFor(t, workers, route, hashes, n)] else c.tasks
  {
    var plans := MissingPlans(t, workers, route, hashes);
    var c := Greedy(hashes, plans, completed, n);
    MissingPlansPrefix(t, workers, route, hashes, n + 1);
    var upTo := MissingPlans(t, workers, route, hashes[..n + 1]);
    assert hashes[..n + 1][..n] == hashes[..n];
    if Missing(t, hashes[n]) {
      assert plans[c.used] == upTo[c.used] == TaskFor(t, workers, route, hashes, n).plan;
    }
  }

  lemma {:induction false} GreedyFollowsPlan(t: Table, workers: set<WorkerId>, route: map<Hash, set<WorkerId>>, hashes: seq<Hash>, completed: seq<bool>, n: nat)
    requires n <= |hashes| == |completed|
    ensures var c := Greedy(hashes, MissingPlans(t, workers, route, hashes), completed, n);
            && c.used == |MissingPlans(t, workers, route, hashes[..n])|
            && ExactTasks(t, workers, route, hashes, completed, c.tasks, n)
  {
    if n > 0 {
      GreedyFollowsPlan(t, workers, route, hashes, completed, n - 1);
      GreedyStep(t, workers, route, hashes, completed, n - 1);
      ExactStep(t, workers, route, hashes, completed, Greedy(hashes, MissingPlans(t, workers, route, hashes), completed, n - 1).tasks, n - 1);
    }
  }

  /** Composed with the server's filter the pass uses up the plan and keeps exactly the missing, unfinished indices. */
  lemma {:induction false} CorrelationIsExact(t: Table, workers: set<WorkerId>, route: map<Hash, set<WorkerId>>, hashes: seq<Hash>, completed: seq<bool>)
    requires |hashes| == |completed|
    ensures var plans := MissingPlans(t, workers, route, hashes);
            var c := Greedy(hashes, plans, completed, |hashes|);
            c.used == |plans| && ExactTasks(t, workers, route, hashes, completed, c.tasks, |hashes|)
  {
    GreedyFollowsPlan(t, workers, route, hashes, completed, |hashes|);
    assert hashes[..|hashes|] == hashes;
  }

  /** The pending map of a lifecycle run is what the client's loop computes. */
  lemma {:induction false} TasksArePending(t: Table, workers: set<WorkerId>, route: map<Hash, set<WorkerId>>, hashes: seq<Hash>, completed: seq<bool>, log: set<nat>)
    requires |hashes| == |completed| && forall i :: 0 <= i < |completed| ==> (completed[i] <==> i in log)
    ensures var tasks := Greedy(hashes, MissingPlans(t, workers, route, hashes), completed, |hashes|).tasks;
            var pending := L.PendingOf(t, workers, route, hashes, log);
            && (forall k :: 0 <= k < |tasks| ==> tasks[k].index in pending && pending[tasks[k].index] == tasks[k].plan.nodes)
            && (forall i :: i in pending ==> exists k :: 0 <= k < |tasks| && tasks[k].index == i)
  {
    CorrelationIsExact(t, workers, route, hashes, completed);
    var tasks := Greedy(hashes, MissingPlans(t, workers, route, hashes), completed, |hashes|).tasks;
    forall i | i in L.PendingOf(t, workers, route, hashes, log)
      ensures exists k :: 0 <= k < |tasks| && tasks[k].index == i
    {
      assert Wanted(t, hashes, completed, i);
    }
  }
}
