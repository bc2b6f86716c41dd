/** Parallel upload of the pending chunks with a batched completion log. */
module Upload {
  import opened Basics
  import opened Correlation
  import opened Slicer
  import opened StateManager
  import opened Sync

  const UPLOAD_PERMITS := 16
  const FLUSH_AT := 64

  /** One replica of one task on its way to a worker. */
  datatype Job = Job(task: nat, node: WorkerId)

  /**
    The transfer between two steps.  Futures are popped from the front in
    submission order, so the queue is jobs[popped..].  `live` jobs hold a share
    of their task's permit; `settling` ones have let go but not yet set their
    promise; `outcome` holds the promises set.
   */
  datatype Transfer = Transfer(
    next: nat,
    armed: bool,
    stopped: bool,
    running: bool,
    allSucceeded: bool,
    jobs: seq<Job>,
    live: set<nat>,
    settling: map<nat, bool>,
    outcome: map<nat, bool>,
    popped: nat,
    pendingWrites: seq<int>,
    acked: set<(nat, WorkerId)>)

  ghost function Holding(jobs: seq<Job>, live: set<nat>): set<nat> {
    set j | j in live && j < |jobs| :: jobs[j].task
  }

  ghost predicate Sent(jobs: seq<Job>, task: nat, node: WorkerId) {
    exists j :: 0 <= j < |jobs| && jobs[j] == Job(task, node)
  }

  /** Jobs exist exactly for the replicas of what was dispatched so far. */
  ghost predicate JobsOk(x: Transfer, tasks: seq<Task>) {
    && x.next <= |tasks| && (x.armed ==> x.next < |tasks|)
    && (forall j :: 0 <= j < |x.jobs| ==> x.jobs[j].task < x.next && x.jobs[j].node in tasks[x.jobs[j].task].plan.nodes)
    && (forall k, w :: 0 <= k < x.next && w in tasks[k].plan.nodes ==> Sent(x.jobs, k, w))
  }

  ghost predicate StagesOk(x: Transfer) {
    && (forall j: nat :: j < |x.jobs| <==> j in x.live || j in x.settling || j in x.outcome)
    && x.live !! x.settling.Keys && x.live !! x.outcome.Keys && x.settling.Keys !! x.outcome.Keys
  }

  ghost predicate Acknowledged(x: Transfer, j: nat) {
    (j in x.settling && x.settling[j]) || (j in x.outcome && x.outcome[j])
  }

  ghost predicate Failed(settling: map<nat, bool>, outcome: map<nat, bool>, j: nat) {
    (j in settling && !settling[j]) || (j in outcome && !outcome[j])
  }

  ghost predicate SomeFalse(outcome: map<nat, bool>) {
    exists j: nat :: j in outcome && !outcome[j]
  }

  /** `acked` is what the finished jobs that succeeded amount to. */
  ghost predicate AcksOk(x: Transfer, tasks: seq<Task>)
    requires JobsOk(x, tasks)
  {
    && (forall j :: 0 <= j < |x.jobs| && Acknowledged(x, j) ==> (tasks[x.jobs[j].task].index, x.jobs[j].node) in x.acked)
    && (forall a :: a in x.acked ==> exists j :: 0 <= j < |x.jobs| && tasks[x.jobs[j].task].index == a.0 && x.jobs[j].node == a.1)
  }

  ghost predicate QueueOk(x: Transfer) {
    && x.popped <= |x.jobs|
    && (forall j :: 0 <= j < x.popped ==> j in x.outcome && (x.allSucceeded ==> x.outcome[j]))
    && (!x.allSucceeded ==> SomeFalse(x.outcome))
    && (x.stopped ==> !x.running || !x.allSucceeded)
  }

  ghost predicate IndexAcked(acked: set<(nat, WorkerId)>, i: int) {
    exists a :: a in acked && a.0 == i
  }

  /** The log has gained, together with the unflushed entries, exactly the acknowledged indices. */
  ghost predicate LogOk(before: seq<int>, log: seq<int>, pendingWrites: seq<int>, acked: set<(nat, WorkerId)>) {
    && before <= log
    && |pendingWrites| < FLUSH_AT
    && (forall i :: i in log[|before|..] || i in pendingWrites <==> IndexAcked(acked, i))
  }

  ghost predicate TransferOk(x: Transfer, tasks: seq<Task>) {
    JobsOk(x, tasks) && StagesOk(x) && AcksOk(x, tasks) && QueueOk(x)
  }

  // ---------------------------------------------------------------- the main thread

  /** Pops ready futures from the front of the queue, remembering a failure. */
  method PollFront(x: Transfer, ghost tasks: seq<Task>) returns (x': Transfer)
    requires TransferOk(x, tasks)
    ensures TransferOk(x', tasks)
    ensures x' == x.(popped := x'.popped, allSucceeded := x'.allSucceeded)
  {
    x' := x;
    while x'.popped < |x'.jobs| && x'.popped in x'.outcome
      invariant TransferOk(x', tasks)
      invariant x' == x.(popped := x'.popped, allSucceeded := x'.allSucceeded)
      decreases |x'.jobs| - x'.popped
    {
      x' := x'.(popped := x'.popped + 1, allSucceeded := x'.allSucceeded && x'.outcome[x'.popped]);
    }
  }

  /** The checks before a task: the transfer may have been paused, or an earlier job may have failed. */
  method CheckBeforeTask(x: Transfer, tasks: seq<Task>, interrupted: bool) returns (x': Transfer)
    requires TransferOk(x, tasks) && !x.armed && !x.stopped && x.next < |tasks|
    ensures TransferOk(x', tasks) && (x.running ==> x'.running || interrupted)
    ensures x' == x.(running := x'.running, popped := x'.popped, allSucceeded := x'.allSucceeded, stopped := x'.stopped, armed := !x'.stopped)
  {
    var paused: bool := *;
    if (paused && interrupted) || !x.running {
      return x.(running := false, stopped := true);
    }
    x' := PollFront(x, tasks);
    x' := if x'.allSucceeded then x'.(armed := true) else x'.(stopped := true);
  }

  /** One job for each replica, in whatever order the plan lists them. */
  method JobsFor(k: nat, nodes: set<WorkerId>) returns (jobs: seq<Job>)
    ensures forall j :: 0 <= j < |jobs| ==> jobs[j].task == k && jobs[j].node in nodes
    ensures forall w :: w in nodes ==> Sent(jobs, k, w)
    ensures |jobs| == |nodes|
  {
    jobs := [];
    var rest := nodes;
    while rest != {}
      invariant rest <= nodes
      invariant forall j :: 0 <= j < |jobs| ==> jobs[j].task == k && jobs[j].node in nodes
      invariant forall w :: w in nodes - rest ==> Sent(jobs, k, w)
      invariant |jobs| + |rest| == |nodes|
      decreases rest
    {
      var w :| w in rest;
      SentStays(jobs, [Job(k, w)]);
      assert (jobs + [Job(k, w)])[|jobs|] == Job(k, w);
      jobs := jobs + [Job(k, w)];
      rest := rest - {w};
    }
  }

  lemma SentStays(jobs: seq<Job>, more: seq<Job>)
    ensures forall k, w :: Sent(jobs, k, w) ==> Sent(jobs + more, k, w)
    ensures forall k, w :: Sent(more, k, w) ==> Sent(jobs + more, k, w)
  {
    forall k, w | Sent(jobs, k, w)
      ensures Sent(jobs + more, k, w)
    {
      var j :| 0 <= j < |jobs| && jobs[j] == Job(k, w);
      assert (jobs + more)[j] == Job(k, w);
    }
    forall k, w | Sent(more, k, w)
      ensures Sent(jobs + more, k, w)
    {
      var j :| 0 <= j < |more| && more[j] == Job(k, w);
      assert (jobs + more)[|jobs| + j] == Job(k, w);
    }
  }

  function Range(a: nat, b: nat): (r: set<nat>)
    ensures forall i: nat :: i in r <==> a <= i < b
  {
    if a >= b then {} else Range(a, b - 1) + {b - 1}
  }

  /** The state after the jobs of the next task were enqueued. */
  function Enqueued(x: Transfer, jobs: seq<Job>): Transfer {
    x.(jobs := x.jobs + jobs, live := x.live + Range(|x.jobs|, |x.jobs| + |jobs|), next := x.next + 1, armed := false)
  }

  lemma {:induction false} EnqueueKeeps(x: Transfer, tasks: seq<Task>, jobs: seq<Job>)
    requires TransferOk(x, tasks) && x.armed
    requires forall j :: 0 <= j < |jobs| ==> jobs[j].task == x.next && jobs[j].node in tasks[x.next].plan.nodes
    requires forall w :: w in tasks[x.next].plan.nodes ==> Sent(jobs, x.next, w)
    ensures TransferOk(Enqueued(x, jobs), tasks)
  {
    SentStays(x.jobs, jobs);
    var x' := Enqueued(x, jobs);
    forall a | a in x'.acked
      ensures exists j :: 0 <= j < |x'.jobs| && tasks[x'.jobs[j].task].index == a.0 && x'.jobs[j].node == a.1
    {
      var j :| 0 <= j < |x.jobs| && tasks[x.jobs[j].task].index == a.0 && x.jobs[j].node == a.1;
      assert x'.jobs[j] == x.jobs[j];
    }
  }

  /** A task takes one permit for all its replicas. */
  lemma {:induction false} EnqueueHolds(x: Transfer, jobs: seq<Job>)
    requires forall j :: 0 <= j < |x.jobs| ==> x.jobs[j].task < x.next
    requires forall j :: j in x.live ==> j < |x.jobs|
    requires forall j :: 0 <= j < |jobs| ==> jobs[j].task == x.next
    ensures |Holding(Enqueued(x, jobs).jobs, Enqueued(x, jobs).live)| == |Holding(x.jobs, x.live)| + (if jobs == [] then 0 else 1)
  {
    var before := Holding(x.jobs, x.live);
    assert x.next !in before;
    EnqueueHolders(x, jobs);
    assert jobs == [] ==> Holding(Enqueued(x, jobs).jobs, Enqueued(x, jobs).live) == before;
  }

  lemma {:induction false} EnqueueHolders(x: Transfer, jobs: seq<Job>)
    requires forall j :: j in x.live ==> j < |x.jobs|
    requires forall j :: 0 <= j < |jobs| ==> jobs[j].task == x.next
    ensures Holding(Enqueued(x, jobs).jobs, Enqueued(x, jobs).live) == Holding(x.jobs, x.live) + (if jobs == [] then {} else {x.next})
  {
    var x' := Enqueued(x, jobs);
    forall k | k in Holding(x.jobs, x.live)
      ensures k in Holding(x'.jobs, x'.live)
    {
      var j :| j in x.live && j < |x.jobs| && x.jobs[j].task == k;
      assert j in x'.live && x'.jobs[j].task == k;
    }
    if jobs != [] {
      assert |x.jobs| in x'.live && x'.jobs[|x.jobs|].task == x.next;
    }
  }

  /** Acquires a permit, reads the chunk and enqueues its replicas; without replicas the permit goes straight back. */
  method Dispatch(x: Transfer, tasks: seq<Task>, slicer: LocalFileSlicer, limiter: Semaphore, data: Bytes, c: nat, payloads: seq<Bytes>,
                  ghost digest: Digest, ghost accepting: set<WorkerId>)
      returns (x': Transfer, payloads': seq<Bytes>)
    requires TransferOk(x, tasks) && x.armed && limiter.count > 0 && |payloads| == x.next
    requires slicer.stream.Some? && ReadSoFar(slicer.stream.value, data, c, tasks, payloads)
    requires Accepted(x.acked, tasks, payloads, digest) && FailuresOk(x, tasks, payloads, digest, accepting)
    modifies slicer, limiter
    ensures TransferOk(x', tasks) && |payloads'| == x'.next && x'.running == x.running
    ensures x'.next == x.next + 1 && !x'.armed && x'.stopped == x.stopped && x'.acked == x.acked && x'.pendingWrites == x.pendingWrites
    ensures limiter.count + |Holding(x'.jobs, x'.live)| == old(limiter.count) + |Holding(x.jobs, x.live)|
    ensures slicer.stream.Some? && ReadSoFar(slicer.stream.value, data, c, tasks, payloads')
    ensures Accepted(x'.acked, tasks, payloads', digest) && FailuresOk(x', tasks, payloads', digest, accepting)
  {
    limiter.Acquire();
    ReadOneMore(slicer.stream.value, data, c, tasks, payloads);
    var payload := slicer.ReadChunk(tasks[x.next].index, c);
    payloads' := payloads + [payload];
    AcceptedStays(x.acked, tasks, payloads, payload, digest);
    var jobs := JobsFor(x.next, tasks[x.next].plan.nodes);
    x' := Enqueued(x, jobs);
    EnqueueKeeps(x, tasks, jobs);
    EnqueueHolds(x, jobs);
    EnqueueKeepsFailures(x, tasks, payloads, digest, accepting, jobs, payload);
    if jobs == [] {
      limiter.Release();
    }
  }

  // ---------------------------------------------------------------- pool threads

  /**
    Up to three attempts.  A worker acknowledges only bytes whose digest is the
    declared hash; an `accepting` one always does, any other where `answers` says
    so of the attempt.
   */
  method UploadChunkToWorker(node: WorkerId, hash: Hash, payload: Bytes, digest: Digest, accepting: set<WorkerId>, answers: nat -> bool) returns (ok: bool)
    ensures ok <==> digest(payload) == hash && (node in accepting || answers(0) || answers(1) || answers(2))
    ensures !ok ==> Refusable(node, hash, payload, digest, accepting)
  {
    for attempt := 0 to 3
      invariant attempt > 0 ==> digest(payload) != hash || !(node in accepting || answers(0))
      invariant attempt > 1 ==> digest(payload) != hash || !answers(1)
      invariant attempt > 2 ==> digest(payload) != hash || !answers(2)
    {
      if (node in accepting || answers(attempt)) && digest(payload) == hash {
        return true;
      }
    }
    ok := false;
  }

  /** The worker may be unable to store, or the bytes are not what they are declared to be. */
  ghost predicate Refusable(node: WorkerId, hash: Hash, payload: Bytes, digest: Digest, accepting: set<WorkerId>) {
    node !in accepting || digest(payload) != hash
  }

  /** Every failure so far has its reason. */
  ghost predicate FailuresOk(x: Transfer, tasks: seq<Task>, payloads: seq<Bytes>, digest: Digest, accepting: set<WorkerId>) {
    forall j: nat :: Failed(x.settling, x.outcome, j) ==> HasReason(x.jobs, tasks, payloads, digest, accepting, j)
  }

  ghost predicate HasReason(jobs: seq<Job>, tasks: seq<Task>, payloads: seq<Bytes>, digest: Digest, accepting: set<WorkerId>, j: nat) {
    && j < |jobs| && jobs[j].task < |tasks| && jobs[j].task < |payloads|
    && Refusable(jobs[j].node, tasks[jobs[j].task].plan.hash, payloads[jobs[j].task], digest, accepting)
  }

  lemma {:induction false} EnqueueKeepsFailures(x: Transfer, tasks: seq<Task>, payloads: seq<Bytes>, digest: Digest, accepting: set<WorkerId>, jobs: seq<Job>, payload: Bytes)
    requires FailuresOk(x, tasks, payloads, digest, accepting)
    ensures FailuresOk(Enqueued(x, jobs), tasks, payloads + [payload], digest, accepting)
  {
    forall j: nat | HasReason(x.jobs, tasks, payloads, digest, accepting, j)
      ensures HasReason(x.jobs + jobs, tasks, payloads + [payload], digest, accepting, j)
    {
    }
  }

  /** The state after job j's request ended, before its promise is set. */
  function Finished(x: Transfer, tasks: seq<Task>, j: nat, ok: bool): Transfer
    requires j < |x.jobs| && x.jobs[j].task < |tasks|
  {
    var index, node := tasks[x.jobs[j].task].index, x.jobs[j].node;
    x.(live := x.live - {j}, settling := x.settling[j := ok], acked := if ok then x.acked + {(index, node)} else x.acked)
  }

  lemma {:induction false} FinishKeepsFailures(x: Transfer, tasks: seq<Task>, payloads: seq<Bytes>, digest: Digest, accepting: set<WorkerId>, j: nat, ok: bool)
    requires FailuresOk(x, tasks, payloads, digest, accepting)
    requires j < |x.jobs| && x.jobs[j].task < |tasks|
    requires !ok ==> HasReason(x.jobs, tasks, payloads, digest, accepting, j)
    ensures FailuresOk(Finished(x, tasks, j, ok), tasks, payloads, digest, accepting)
  {
    forall i: nat | i != j && Failed(x.settling[j := ok], x.outcome, i)
      ensures Failed(x.settling, x.outcome, i)
    {
    }
  }

  lemma {:induction false} FinishKeeps(x: Transfer, tasks: seq<Task>, j: nat, ok: bool)
    requires TransferOk(x, tasks) && j in x.live
    ensures j < |x.jobs| && x.jobs[j].task < |tasks|
    ensures TransferOk(Finished(x, tasks, j, ok), tasks)
  {
    var x' := Finished(x, tasks, j, ok);
    forall a | a in x'.acked
      ensures exists i :: 0 <= i < |x'.jobs| && tasks[x'.jobs[i].task].index == a.0 && x'.jobs[i].node == a.1
    {
      if a in x.acked {
        var i :| 0 <= i < |x.jobs| && tasks[x.jobs[i].task].index == a.0 && x.jobs[i].node == a.1;
        assert x'.jobs[i] == x.jobs[i];
      } else {
        assert tasks[x'.jobs[j].task].index == a.0 && x'.jobs[j].node == a.1;
      }
    }
  }

  /** The last share of a task's permit gives it back. */
  lemma {:induction false} FinishHolds(jobs: seq<Job>, live: set<nat>, j: nat)
    requires j in live && j < |jobs|
    ensures |Holding(jobs, live - {j})| == |Holding(jobs, live)| -
              (if exists i :: i in live - {j} && i < |jobs| && jobs[i].task == jobs[j].task then 0 else 1)
  {
    var k := jobs[j].task;
    var before, after := Holding(jobs, live), Holding(jobs, live - {j});
    assert k in before;
    forall m | m in before && m != k
      ensures m in after
    {
      var i :| i in live && i < |jobs| && jobs[i].task == m;
      assert i in live - {j};
    }
    if i :| i in live - {j} && i < |jobs| && jobs[i].task == k {
      assert k in after;
      assert after == before;
    } else {
      assert after == before - {k};
    }
  }

  /** Logs the index under the lock, flushing a full buffer. */
  method LogIndex(state: LocalStateManager, pendingWrites: seq<int>, index: nat, node: WorkerId, ghost before: seq<int>, ghost acked: set<(nat, WorkerId)>)
      returns (pendingWrites': seq<int>)
    requires LogOk(before, state.log, pendingWrites, acked)
    modifies state`log
    ensures LogOk(before, state.log, pendingWrites', acked + {(index, node)})
    ensures if |pendingWrites| < 63 then state.log == old(state.log) && pendingWrites' == pendingWrites + [index]
            else state.log == old(state.log) + pendingWrites + [index] && pendingWrites' == []
  {
    pendingWrites' := pendingWrites + [index];
    ghost var log := state.log;
    assert (index, node) in acked + {(index, node)} && (index, node).0 == index;
    assert forall i :: i in pendingWrites' <==> i in pendingWrites || i == index;
    if |pendingWrites'| >= FLUSH_AT {
      state.AppendCompletedIndices(pendingWrites');
      assert state.log[|before|..] == log[|before|..] + pendingWrites';
      pendingWrites' := [];
    }
    AckedIndices(acked, index, node);
  }

  lemma {:induction false} AckedIndices(acked: set<(nat, WorkerId)>, index: nat, node: WorkerId)
    ensures forall i :: IndexAcked(acked + {(index, node)}, i) <==> i == index || IndexAcked(acked, i)
  {
    var more := acked + {(index, node)};
    assert (index, node) in more && (index, node).0 == index;
    forall i | IndexAcked(acked, i)
      ensures IndexAcked(more, i)
    {
      var a :| a in acked && a.0 == i;
      assert a in more;
    }
  }

  /** A job lets go of its task's permit; the last one gives it back. */
  method ReleaseShare(limiter: Semaphore, jobs: seq<Job>, live: set<nat>, j: nat) returns (live': set<nat>)
    requires j in live && j < |jobs|
    modifies limiter
    ensures live' == live - {j} && |live'| < |live|
    ensures limiter.count + |Holding(jobs, live')| == old(limiter.count) + |Holding(jobs, live)|
  {
    live' := live - {j};
    FinishHolds(jobs, live, j);
    if !exists i :: i in live' && i < |jobs| && jobs[i].task == jobs[j].task {
      limiter.Release();
    }
    assert live == live' + {j};
  }

  /** Every acknowledged replica took bytes with the hash it was sent them for. */
  ghost predicate Accepted(acked: set<(nat, WorkerId)>, tasks: seq<Task>, payloads: seq<Bytes>, digest: Digest) {
    forall a :: a in acked ==> AcceptedBy(a, tasks, payloads, digest)
  }

  ghost predicate AcceptedBy(a: (nat, WorkerId), tasks: seq<Task>, payloads: seq<Bytes>, digest: Digest) {
    exists k :: (0 <= k < |tasks| && k < |payloads| && tasks[k].index == a.0 && a.1 in tasks[k].plan.nodes
                 && digest(payloads[k]) == tasks[k].plan.hash)
  }

  /** The request of job j, and its log entry if the worker acknowledged. */
  method Transmit(x: Transfer, tasks: seq<Task>, payloads: seq<Bytes>, digest: Digest, accepting: set<WorkerId>, state: LocalStateManager, j: nat, ghost before: seq<int>)
      returns (ok: bool, pendingWrites: seq<int>)
    requires j < |x.jobs| && x.jobs[j].task < |tasks| && x.jobs[j].task < |payloads|
    requires x.jobs[j].node in tasks[x.jobs[j].task].plan.nodes
    requires LogOk(before, state.log, x.pendingWrites, x.acked) && Accepted(x.acked, tasks, payloads, digest)
    modifies state`log
    ensures LogOk(before, state.log, pendingWrites, Finished(x, tasks, j, ok).acked)
    ensures Accepted(Finished(x, tasks, j, ok).acked, tasks, payloads, digest)
    ensures !ok ==> HasReason(x.jobs, tasks, payloads, digest, accepting, j)
  {
    var k, node := x.jobs[j].task, x.jobs[j].node;
    var answers: nat -> bool := *;
    ok := UploadChunkToWorker(node, tasks[k].plan.hash, payloads[k], digest, accepting, answers);
    pendingWrites := x.pendingWrites;
    if ok {
      pendingWrites := LogIndex(state, pendingWrites, tasks[k].index, node, before, x.acked);
      assert AcceptedBy((tasks[k].index, node), tasks, payloads, digest);
    }
  }

  /** One request ends: log, then let go of the chunk and the permit. */
  method FinishJob(x: Transfer, tasks: seq<Task>, payloads: seq<Bytes>, digest: Digest, accepting: set<WorkerId>,
                   limiter: Semaphore, state: LocalStateManager, ghost before: seq<int>)
      returns (x': Transfer)
    requires TransferOk(x, tasks) && x.live != {} && |payloads| == x.next
    requires LogOk(before, state.log, x.pendingWrites, x.acked) && Accepted(x.acked, tasks, payloads, digest)
    requires FailuresOk(x, tasks, payloads, digest, accepting)
    modifies limiter, state`log
    ensures TransferOk(x', tasks) && LogOk(before, state.log, x'.pendingWrites, x'.acked) && |x'.pendingWrites| < 64
    ensures FailuresOk(x', tasks, payloads, digest, accepting) && x'.running == x.running
    ensures x'.next == x.next && x'.armed == x.armed && x'.stopped == x.stopped && |x'.live| < |x.live|
    ensures limiter.count + |Holding(x'.jobs, x'.live)| == old(limiter.count) + |Holding(x.jobs, x.live)|
    ensures Accepted(x'.acked, tasks, payloads, digest)
  {
    var j :| j in x.live;
    assert j < |x.jobs|;
    var ok, pendingWrites := Transmit(x, tasks, payloads, digest, accepting, state, j, before);
    var live := ReleaseShare(limiter, x.jobs, x.live, j);
    x' := Finished(x, tasks, j, ok).(pendingWrites := pendingWrites);
    FinishKeeps(x, tasks, j, ok);
    PendingWritesFree(Finished(x, tasks, j, ok), tasks, pendingWrites);
    FinishKeepsFailures(x, tasks, payloads, digest, accepting, j, ok);
  }

  lemma {:induction false} PendingWritesFree(x: Transfer, tasks: seq<Task>, pendingWrites: seq<int>)
    requires TransferOk(x, tasks)
    ensures TransferOk(x.(pendingWrites := pendingWrites), tasks)
  {
  }

  /** The promise is set. */
  function Settled(x: Transfer, j: nat): Transfer
    requires j in x.settling
  {
    x.(settling := x.settling - {j}, outcome := x.outcome[j := x.settling[j]])
  }

  lemma {:induction false} SettleKeeps(x: Transfer, tasks: seq<Task>, j: nat)
    requires TransferOk(x, tasks) && j in x.settling
    ensures TransferOk(Settled(x, j), tasks)
  {
    var x' := Settled(x, j);
    assert forall i :: Acknowledged(x', i) <==> Acknowledged(x, i);
    assert x'.settling.Keys == x.settling.Keys - {j};
    assert x'.outcome.Keys == x.outcome.Keys + {j};
  }

  lemma {:induction false} SettleKeepsFailures(x: Transfer, tasks: seq<Task>, payloads: seq<Bytes>, digest: Digest, accepting: set<WorkerId>, j: nat)
    requires FailuresOk(x, tasks, payloads, digest, accepting) && j in x.settling
    ensures FailuresOk(Settled(x, j), tasks, payloads, digest, accepting)
  {
    forall i: nat | Failed(x.settling - {j}, x.outcome[j := x.settling[j]], i)
      ensures Failed(x.settling, x.outcome, i)
    {
    }
  }

  method SettleJob(x: Transfer, ghost tasks: seq<Task>, ghost payloads: seq<Bytes>, ghost digest: Digest, ghost accepting: set<WorkerId>) returns (x': Transfer)
    requires TransferOk(x, tasks) && x.settling != map[] && FailuresOk(x, tasks, payloads, digest, accepting)
    ensures FailuresOk(x', tasks, payloads, digest, accepting)
    ensures TransferOk(x', tasks) && |x'.settling.Keys| < |x.settling.Keys|
    ensures x' == x.(settling := x'.settling, outcome := x'.outcome)
  {
    ghost var some := Element(x.settling.Keys);
    var j :| j in x.settling;
    SettleKeeps(x, tasks, j);
    SettleKeepsFailures(x, tasks, payloads, digest, accepting, j);
    x' := Settled(x, j);
    assert x.settling.Keys == x'.settling.Keys + {j};
  }

  // ---------------------------------------------------------------- the whole transfer

  ghost function TaskIndices(tasks: seq<Task>): seq<nat> {
    seq(|tasks|, k requires 0 <= k < |tasks| => tasks[k].index)
  }

  /** Awaiting the futures still queued. */
  method AwaitAll(x: Transfer, ghost tasks: seq<Task>) returns (allSucceeded: bool)
    requires TransferOk(x, tasks) && x.live == {} && x.settling == map[]
    ensures allSucceeded ==> x.allSucceeded && forall j :: 0 <= j < |x.jobs| ==> Acknowledged(x, j)
    ensures !allSucceeded ==> SomeFalse(x.outcome)
  {
    allSucceeded := x.allSucceeded;
    for j := x.popped to |x.jobs|
      invariant allSucceeded ==> x.allSucceeded && forall i :: 0 <= i < j ==> Acknowledged(x, i)
      invariant !allSucceeded ==> SomeFalse(x.outcome)
    {
      if !x.outcome[j] {
        allSucceeded := false;
      }
    }
  }

  /** What holds between any two steps, apart from the permits, the log and the stream. */
  ghost predicate Going(x: Transfer, tasks: seq<Task>, payloads: seq<Bytes>, digest: Digest, accepting: set<WorkerId>, interrupted: bool) {
    && TransferOk(x, tasks) && |payloads| == x.next && (x.running || interrupted)
    && Accepted(x.acked, tasks, payloads, digest) && FailuresOk(x, tasks, payloads, digest, accepting)
  }

  /** The main thread can go on: it looks at its next task, or has a permit for the one it has decided to send. */
  predicate MainReady(x: Transfer, tasks: seq<Task>, count: int) {
    (!x.armed && !x.stopped && x.next < |tasks|) || (x.armed && count > 0)
  }

  /** The main thread's progress: tasks sent, then the decision about the next one. */
  function Todo(x: Transfer): int {
    if x.stopped then 0 else if x.armed then 1 else 2
  }

  method MainStep(x: Transfer, tasks: seq<Task>, slicer: LocalFileSlicer, limiter: Semaphore, data: Bytes, c: nat, payloads: seq<Bytes>,
                  ghost digest: Digest, ghost accepting: set<WorkerId>, interrupted: bool)
      returns (x': Transfer, payloads': seq<Bytes>)
    requires Going(x, tasks, payloads, digest, accepting, interrupted) && MainReady(x, tasks, limiter.count)
    requires slicer.stream.Some? && ReadSoFar(slicer.stream.value, data, c, tasks, payloads)
    modifies slicer, limiter
    ensures Going(x', tasks, payloads', digest, accepting, interrupted)
    ensures x'.acked == x.acked && x'.pendingWrites == x.pendingWrites
    ensures x'.next > x.next || (x'.next == x.next && Todo(x') < Todo(x))
    ensures limiter.count + |Holding(x'.jobs, x'.live)| == old(limiter.count) + |Holding(x.jobs, x.live)|
    ensures slicer.stream.Some? && ReadSoFar(slicer.stream.value, data, c, tasks, payloads')
  {
    payloads' := payloads;
    if x.armed {
      x', payloads' := Dispatch(x, tasks, slicer, limiter, data, c, payloads, digest, accepting);
    } else {
      x' := CheckBeforeTask(x, tasks, interrupted);
    }
  }

  method PoolStep(x: Transfer, tasks: seq<Task>, payloads: seq<Bytes>, digest: Digest, accepting: set<WorkerId>, ghost interrupted: bool,
                  limiter: Semaphore, state: LocalStateManager, ghost before: seq<int>)
      returns (x': Transfer)
    requires Going(x, tasks, payloads, digest, accepting, interrupted) && (x.live != {} || x.settling != map[])
    requires LogOk(before, state.log, x.pendingWrites, x.acked)
    modifies limiter, state`log
    ensures Going(x', tasks, payloads, digest, accepting, interrupted)
    ensures LogOk(before, state.log, x'.pendingWrites, x'.acked)
    ensures x'.next == x.next && Todo(x') == Todo(x)
    ensures |x'.live| < |x.live| || (x'.live == x.live && |x'.settling.Keys| < |x.settling.Keys|)
    ensures limiter.count + |Holding(x'.jobs, x'.live)| == old(limiter.count) + |Holding(x.jobs, x.live)|
  {
    var finish: bool := *;
    if x.settling == map[] || (finish && x.live != {}) {
      x' := FinishJob(x, tasks, payloads, digest, accepting, limiter, state, before);
    } else {
      x' := SettleJob(x, tasks, payloads, digest, accepting);
    }
  }

  /**
    Main thread and pool threads take turns in any order; the loop ends only
    when the main thread is through and every request is settled, so the
    semaphore never deadlocks it.
   */
  method RunTransfer(slicer: LocalFileSlicer, state: LocalStateManager, limiter: Semaphore, data: Bytes, c: nat, tasks: seq<Task>, digest: Digest,
                     accepting: set<WorkerId>, interrupted: bool)
      returns (x: Transfer, payloads: seq<Bytes>)
    requires slicer.stream == Some(Opened(data)) && limiter.count == 16
    modifies slicer, state`log, limiter
    ensures limiter.count == 16 && |x.pendingWrites| < 64
    ensures Going(x, tasks, payloads, digest, accepting, interrupted)
    ensures x.live == {} && x.settling == map[] && (x.stopped || x.next == |tasks|)
    ensures LogOk(old(state.log), state.log, x.pendingWrites, x.acked)
    ensures slicer.stream.Some? && ReadSoFar(slicer.stream.value, data, c, tasks, payloads)
  {
    ghost var before := state.log;
    payloads := [];
    x := Transfer(0, false, false, true, true, [], {}, map[], map[], 0, [], {});
    assert Holding([], {}) == {};
    while
      invariant limiter.count + |Holding(x.jobs, x.live)| == UPLOAD_PERMITS
      invariant Going(x, tasks, payloads, digest, accepting, interrupted)
      invariant LogOk(before, state.log, x.pendingWrites, x.acked)
      invariant slicer.stream.Some? && ReadSoFar(slicer.stream.value, data, c, tasks, payloads)
      decreases |tasks| - x.next, Todo(x), |x.live|, |x.settling.Keys|
    {
      case MainReady(x, tasks, limiter.count) =>
        x, payloads := MainStep(x, tasks, slicer, limiter, data, c, payloads, digest, accepting, interrupted);
      case x.live != {} || x.settling != map[] =>
        x := PoolStep(x, tasks, payloads, digest, accepting, interrupted, limiter, state, before);
    }
    assert Holding(x.jobs, {}) == {};
  }

  /** The entries still buffered at the end. */
  method FlushRest(state: LocalStateManager, pendingWrites: seq<int>, ghost before: seq<int>, ghost acked: set<(nat, WorkerId)>)
    requires LogOk(before, state.log, pendingWrites, acked)
    modifies state`log
    ensures before <= state.log && forall i :: i in state.log[|before|..] <==> IndexAcked(acked, i)
  {
    if pendingWrites != [] {
      ghost var log := state.log;
      state.AppendCompletedIndices(pendingWrites);
      assert state.log[|before|..] == log[|before|..] + pendingWrites;
    }
  }

  /** The upload of the pending tasks. */
  method Upload(slicer: LocalFileSlicer, state: LocalStateManager, data: Bytes, c: nat, tasks: seq<Task>, digest: Digest,
                accepting: set<WorkerId>, interrupted: bool)
      returns (ok: bool, acked: set<(nat, WorkerId)>, payloads: seq<Bytes>)
    modifies slicer, state`log
    ensures ok ==> forall k, w :: 0 <= k < |tasks| && w in tasks[k].plan.nodes ==> (tasks[k].index, w) in acked
    ensures !ok ==> interrupted || exists k, w :: SendFails(tasks, payloads, digest, accepting, k, w)
    ensures old(state.log) <= state.log
    ensures forall i :: i in state.log[|old(state.log)|..] <==> IndexAcked(acked, i)
    ensures Accepted(acked, tasks, payloads, digest)
    ensures |payloads| <= |tasks| && payloads == ReadAll(Opened(data), c, TaskIndices(tasks[..|payloads|])).1
    ensures slicer.stream == None
  {
    var x;
    slicer.OpenStream(data);
    var limiter := new Semaphore(UPLOAD_PERMITS);
    x, payloads := RunTransfer(slicer, state, limiter, data, c, tasks, digest, accepting, interrupted);
    var allSucceeded := AwaitAll(x, tasks);
    FlushRest(state, x.pendingWrites, old(state.log), x.acked);
    slicer.CloseStream();
    // The user may also have paused after the last request.
    var paused: bool := *;
    ok, acked := allSucceeded && x.running && !(paused && interrupted), x.acked;
    if ok {
      EveryReplicaAcked(x, tasks);
    } else if !allSucceeded {
      FailureHasReason(x, tasks, payloads, digest, accepting);
    }
  }

  /** The worker w need not have taken what it was sent for task k. */
  ghost predicate SendFails(tasks: seq<Task>, payloads: seq<Bytes>, digest: Digest, accepting: set<WorkerId>, k: nat, w: WorkerId) {
    k < |tasks| && k < |payloads| && w in tasks[k].plan.nodes && Refusable(w, tasks[k].plan.hash, payloads[k], digest, accepting)
  }

  lemma {:induction false} FailureHasReason(x: Transfer, tasks: seq<Task>, payloads: seq<Bytes>, digest: Digest, accepting: set<WorkerId>)
    requires TransferOk(x, tasks) && FailuresOk(x, tasks, payloads, digest, accepting)
    requires SomeFalse(x.outcome)
    ensures exists k, w :: SendFails(tasks, payloads, digest, accepting, k, w)
  {
    var j: nat :| j in x.outcome && !x.outcome[j];
    assert Failed(x.settling, x.outcome, j);
    assert HasReason(x.jobs, tasks, payloads, digest, accepting, j);
    assert SendFails(tasks, payloads, digest, accepting, x.jobs[j].task, x.jobs[j].node);
  }

  /** The payloads read so far, and where the stream stands after them. */
  ghost predicate ReadSoFar(s: Stream, data: Bytes, c: nat, tasks: seq<Task>, payloads: seq<Bytes>) {
    |payloads| <= |tasks| && ReadAll(Opened(data), c, TaskIndices(tasks[..|payloads|])) == (s, payloads)
  }

  lemma {:induction false} ReadOneMore(s: Stream, data: Bytes, c: nat, tasks: seq<Task>, payloads: seq<Bytes>)
    requires ReadSoFar(s, data, c, tasks, payloads) && |payloads| < |tasks|
    ensures var r := ReadAt(s, c, tasks[|payloads|].index);
            ReadSoFar(r.0, data, c, tasks, payloads + [r.1])
  {
    var n := |payloads|;
    var all := TaskIndices(tasks[..n + 1]);
    assert all[..n] == TaskIndices(tasks[..n]);
    assert all[n] == tasks[n].index;
  }

  lemma {:induction false} AcceptedStays(acked: set<(nat, WorkerId)>, tasks: seq<Task>, payloads: seq<Bytes>, payload: Bytes, digest: Digest)
    requires Accepted(acked, tasks, payloads, digest)
    ensures Accepted(acked, tasks, payloads + [payload], digest)
  {
    forall a | a in acked
      ensures AcceptedBy(a, tasks, payloads + [payload], digest)
    {
      assert AcceptedBy(a, tasks, payloads, digest);
      var k :| 0 <= k < |tasks| && k < |payloads| && tasks[k].index == a.0 && a.1 in tasks[k].plan.nodes
        && digest(payloads[k]) == tasks[k].plan.hash;
      assert (payloads + [payload])[k] == payloads[k];
    }
  }

  /** When nothing stopped the transfer and every future succeeded, every replica of every task acknowledged. */
  lemma {:induction false} EveryReplicaAcked(x: Transfer, tasks: seq<Task>)
    requires TransferOk(x, tasks) && x.next == |tasks|
    requires forall j :: 0 <= j < |x.jobs| ==> Acknowledged(x, j)
    ensures forall k, w :: 0 <= k < |tasks| && w in tasks[k].plan.nodes ==> (tasks[k].index, w) in x.acked
  {
    forall k, w | 0 <= k < |tasks| && w in tasks[k].plan.nodes
      ensures (tasks[k].index, w) in x.acked
    {
      assert Sent(x.jobs, k, w);
      var j :| 0 <= j < |x.jobs| && x.jobs[j] == Job(k, w);
      assert Acknowledged(x, j);
    }
  }

  /** Transmitted for increasing indices, every acknowledged replica holds exactly its slice of the file. */
  lemma {:induction false} PayloadsAreSlices(data: Bytes, c: nat, tasks: seq<Task>, payloads: seq<Bytes>)
    requires c > 0 && |payloads| <= |tasks| && payloads == ReadAll(Opened(data), c, TaskIndices(tasks[..|payloads|])).1
    requires Increasing(tasks) && forall k :: 0 <= k < |tasks| ==> tasks[k].index < NumChunks(|data|, c)
    ensures forall k :: 0 <= k < |payloads| ==> payloads[k] == Slice(data, c, tasks[k].index)
  {
    var indices := TaskIndices(tasks[..|payloads|]);
    SecondPassReadsFirst(data, c, indices);
    forall k | 0 <= k < |payloads|
      ensures payloads[k] == Slice(data, c, tasks[k].index)
    {
      assert indices[k] == tasks[k].index;
    }
  }
}
