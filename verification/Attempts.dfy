/** A client's series of attempts as one session of the lifecycle: what it does is a path of the machine, and both keep the same log. */
module Attempts {
  import opened Basics
  import opened ChunkTable
  import opened Client
  import opened StateManager
  import L = Lifecycle
  import LI = LifecycleInvariant
  import LT = LifecycleTheorems
  import LB = LifecycleBounds
  import U = Upload

  // ---------------------------------------------------------------- the log after an attempt

  ghost function AckedIndices(acks: set<(nat, WorkerId)>): set<nat> {
    set a | a in acks :: a.0
  }

  ghost function Gained(r: Report): set<nat> {
    if r.run.Some? then AckedIndices(r.run.value.acks) else {}
  }

  /** What a resumed attempt finds in the log is what the one before found and got acknowledged. */
  lemma {:induction false} ResumedFindsLog(r: Report, r': Report, log: seq<int>, now: int, manifest: Option<Blueprint>)
    requires LogGained(r, log) && Resumption(r', now, manifest, log) && r'.resumed
    ensures r'.prior == r.prior + Gained(r)
  {
    forall i: nat
      ensures i in r'.prior <==> i in r.prior + Gained(r)
    {
      if r.run.Some? {
        AckedIff(r.run.value.acks, i);
      }
    }
  }

  lemma {:induction false} AckedIff(acks: set<(nat, WorkerId)>, i: nat)
    ensures i in AckedIndices(acks) <==> U.IndexAcked(acks, i)
  {
  }

  // ---------------------------------------------------------------- an attempt is a path

  /** The step puts x into the log of session sid. */
  ghost predicate Logs(step: L.Step, sid: L.SessionId, x: nat) {
    (step.Flush? || step.Stop?) && step.sid == sid && x in step.logged
  }

  ghost predicate LogsBetween(steps: seq<L.Step>, sid: L.SessionId, i: nat, j: nat, x: nat) {
    exists k :: i <= k < j && k < |steps| && Logs(steps[k], sid, x)
  }

  /** The transfer of an attempt has run: its acknowledgements are the run's, its log entries are flushed. */
  ghost predicate Transferred(ses: L.Session, r: Report) {
    ses.hashes == r.hashes && ses.lease.Some? && ses.run == r.run && ses.log == r.prior + Gained(r)
  }

  /** What an attempt reports is a path of the machine: an init on the server's state, the saves, the log. */
  lemma {:induction false} AttemptIsLifecycle(s: L.State, sid: L.SessionId, elapsed: int, v: View, r: Report) returns (tr: seq<L.State>, steps: seq<L.Step>)
    requires sid in s.sessions && s.sessions[sid].hashes == r.hashes && s.sessions[sid].log == r.prior
    requires L.MayInit(s.sessions[sid], elapsed, s.now) && L.RouteValid(s, v.route)
    requires v.chunks == s.chunks && v.workers == s.workers
    requires FollowsPlan(r, v) && r.run.Some?
    ensures L.IsPath(tr, steps) && tr[0] == s
    ensures var e := LB.Last(tr);
            && e.now == s.now && e.files == s.files && sid in e.sessions && Transferred(e.sessions[sid], r)
            && (r.commit.Some? ==> L.MayCommit(e, sid))
  {
    var started := L.AfterInit(s, sid, v.route);
    var run := r.run.value;
    tr, steps := LB.Extend([s], [], L.Init(sid, elapsed, v.route), started);
    assert started.sessions[sid].run == Some(L.Run(run.pending, {}));
    forall a | a in run.acks
      ensures a.0 in run.pending && a.1 in run.pending[a.0] && a.0 < |r.hashes|
    {
      assert (a.0, a.1) in run.acks;
    }
    var more, moreSteps := LB.SavesReach(started, sid, run.acks);
    tr, steps := LB.Join(tr, steps, more, moreSteps);
    var e := LB.Last(tr);
    AcksAreLoggable(run);
    var logged := e.(sessions := e.sessions[sid := e.sessions[sid].(log := e.sessions[sid].log + Gained(r))]);
    tr, steps := LB.Extend(tr, steps, L.Flush(sid, Gained(r)), logged);
  }

  lemma {:induction false} AcksAreLoggable(run: L.Run)
    ensures L.Loggable(run, AckedIndices(run.acks))
  {
    forall i | i in AckedIndices(run.acks)
      ensures exists w :: (i, w) in run.acks
    {
      var a :| a in run.acks && a.0 == i;
      assert (i, a.1) in run.acks;
    }
  }

  /** How the attempt ends, by a pause or failure, or by its commit, is a step too; unless the commit was answered the session waits, with the same log, for the next attempt. */
  lemma {:induction false} AttemptEnds(e: L.State, sid: L.SessionId, r: Report, answered: bool) returns (step: L.Step, e': L.State)
    requires sid in e.sessions && Transferred(e.sessions[sid], r) && r.run.Some?
    requires r.commit.Some? ==> L.MayCommit(e, sid) && r.commit.value.chunks == r.hashes
    ensures L.Next(e, step, e')
    ensures r.commit.Some? ==> e'.files == e.files + [r.commit.value]
    ensures if r.commit.Some? && answered then sid !in e'.sessions
            else sid in e'.sessions && e'.sessions[sid] == e.sessions[sid].(run := None)
  {
    if r.commit.Some? {
      var f := r.commit.value;
      step, e' := L.Commit(sid, f.user, f.name, f.size, answered), L.AfterCommit(e, sid, f.user, f.name, f.size, answered);
    } else {
      step := L.Stop(sid, {});
      e' := e.(sessions := e.sessions[sid := e.sessions[sid].(log := e.sessions[sid].log + {}, run := None)]);
    }
  }

  // ---------------------------------------------------------------- the log along any run

  lemma {:induction false} LogInStep(s: L.State, step: L.Step, s': L.State, sid: L.SessionId)
    requires L.Next(s, step, s') && sid in s.sessions && sid in s'.sessions
    ensures s'.sessions[sid].hashes == s.sessions[sid].hashes
    ensures forall x :: x in s'.sessions[sid].log <==> x in s.sessions[sid].log || Logs(step, sid, x)
  {
  }

  ghost predicate Present(tr: seq<L.State>, sid: L.SessionId, i: nat, j: nat) {
    forall k :: i <= k <= j && k < |tr| ==> sid in tr[k].sessions
  }

  lemma {:induction false} LogsOneMore(steps: seq<L.Step>, sid: L.SessionId, i: nat, j: nat, x: nat)
    requires i < j <= |steps|
    ensures LogsBetween(steps, sid, i, j, x) <==> LogsBetween(steps, sid, i, j - 1, x) || Logs(steps[j - 1], sid, x)
  {
    if k :| i <= k < j && k < |steps| && Logs(steps[k], sid, x) {
      assert k == j - 1 || k < j - 1;
    }
  }

  /** Whatever everybody does, a session's log grows by exactly what its own steps log. */
  lemma {:induction false} LogBetween(tr: seq<L.State>, steps: seq<L.Step>, sid: L.SessionId, i: nat, j: nat)
    requires L.IsRun(tr, steps) && i <= j < |tr| && Present(tr, sid, i, j)
    ensures tr[j].sessions[sid].hashes == tr[i].sessions[sid].hashes
    ensures forall x :: x in tr[j].sessions[sid].log <==> x in tr[i].sessions[sid].log || LogsBetween(steps, sid, i, j, x)
  {
    if i < j {
      LogBetween(tr, steps, sid, i, j - 1);
      assert L.Takes(tr, steps, j - 1);
      LogInStep(tr[j - 1], steps[j - 1], tr[j], sid);
      forall x: nat
        ensures LogsBetween(steps, sid, i, j, x) <==> LogsBetween(steps, sid, i, j - 1, x) || Logs(steps[j - 1], sid, x)
      {
        LogsOneMore(steps, sid, i, j, x);
      }
    }
  }

  // ---------------------------------------------------------------- series of attempts

  /** One attempt between two states of a run, with what it reported. */
  datatype Attempt = Attempt(first: nat, last: nat, r: Report)

  /** The log entries of the run in that span are the ones the attempt wrote; everybody else may do anything. */
  ghost predicate Carried(tr: seq<L.State>, steps: seq<L.Step>, sid: L.SessionId, a: Attempt) {
    && a.first <= a.last < |tr| && Present(tr, sid, a.first, a.last)
    && tr[a.first].sessions[sid].hashes == a.r.hashes
    && forall x: nat :: LogsBetween(steps, sid, a.first, a.last, x) <==> x in Gained(a.r)
  }

  /** From one attempt to the next the client is idle, and the next finds the log the one before left. */
  ghost predicate Follows(tr: seq<L.State>, steps: seq<L.Step>, sid: L.SessionId, a: Attempt, b: Attempt) {
    && a.last <= b.first < |tr| && Present(tr, sid, a.last, b.first)
    && (forall x: nat :: !LogsBetween(steps, sid, a.last, b.first, x))
    && b.r.prior == a.r.prior + Gained(a.r)
  }

  ghost predicate Series(tr: seq<L.State>, steps: seq<L.Step>, sid: L.SessionId, attempts: seq<Attempt>) {
    && (forall k :: 0 <= k < |attempts| ==> Carried(tr, steps, sid, attempts[k]))
    && (forall k :: 0 < k < |attempts| ==> Follows(tr, steps, sid, attempts[k - 1], attempts[k]))
    && (attempts != [] ==> attempts[0].r.prior == tr[attempts[0].first].sessions[sid].log)
  }

  lemma {:induction false} CarriedGains(tr: seq<L.State>, steps: seq<L.Step>, sid: L.SessionId, a: Attempt)
    requires L.IsRun(tr, steps) && Carried(tr, steps, sid, a) && tr[a.first].sessions[sid].log == a.r.prior
    ensures tr[a.last].sessions[sid].log == a.r.prior + Gained(a.r)
  {
    LogBetween(tr, steps, sid, a.first, a.last);
  }

  lemma {:induction false} IdleKeeps(tr: seq<L.State>, steps: seq<L.Step>, sid: L.SessionId, a: Attempt, b: Attempt)
    requires L.IsRun(tr, steps) && Follows(tr, steps, sid, a, b)
    ensures tr[b.first].sessions[sid].log == tr[a.last].sessions[sid].log
  {
    LogBetween(tr, steps, sid, a.last, b.first);
  }

  /** In any run of everybody, however many attempts there were and however their commits ended: each attempt finds in its file what the machine's session has logged. */
  lemma {:induction false} SeriesKeepsLog(tr: seq<L.State>, steps: seq<L.Step>, sid: L.SessionId, attempts: seq<Attempt>, k: nat)
    requires L.IsRun(tr, steps) && Series(tr, steps, sid, attempts) && k < |attempts|
    ensures Carried(tr, steps, sid, attempts[k])
    ensures tr[attempts[k].first].sessions[sid].log == attempts[k].r.prior
    ensures tr[attempts[k].last].sessions[sid].log == attempts[k].r.prior + Gained(attempts[k].r)
  {
    if k > 0 {
      SeriesKeepsLog(tr, steps, sid, attempts, k - 1);
      assert Follows(tr, steps, sid, attempts[k - 1], attempts[k]);
      IdleKeeps(tr, steps, sid, attempts[k - 1], attempts[k]);
    }
    CarriedGains(tr, steps, sid, attempts[k]);
  }

  /** The client's log can be trusted: when a later attempt is an accepted resume, the server does not refuse it, and every index in the log is a chunk of the file that some replica stores. */
  lemma ClientLogIsStored(tr: seq<L.State>, steps: seq<L.Step>, sid: L.SessionId, attempts: seq<Attempt>, k: nat, elapsed: int, route: map<Hash, set<WorkerId>>)
    requires L.IsRun(tr, steps) && Series(tr, steps, sid, attempts) && k < |attempts|
    requires attempts[k].first < |tr| && sid in tr[attempts[k].first].sessions
    requires tr[attempts[k].first].sessions[sid].lease.Some? && L.MayInit(tr[attempts[k].first].sessions[sid], elapsed, tr[attempts[k].first].now)
    ensures var s, r := tr[attempts[k].first], attempts[k].r;
            && FirstError(s.chunks, s.workers, route, r.hashes).None?
            && forall i :: i in r.prior ==> i < |r.hashes| && r.hashes[i] in s.chunks
                                            && exists w :: w in s.chunks[r.hashes[i]].nodes && (w, r.hashes[i]) in s.stored
  {
    SeriesKeepsLog(tr, steps, sid, attempts, k);
    LT.ResumeIsNeverRefused(tr, steps, attempts[k].first, sid, elapsed, route);
  }
}
