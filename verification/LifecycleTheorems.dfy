/** What the lifecycle guarantees on every run, for every interleaving of clients and collectors. */
module LifecycleTheorems {
  import opened Basics
  import opened ChunkTable
  import opened Lifecycle
  import opened LifecycleInvariant

  // ---------------------------------------------------------------- live chunks

  ghost predicate IsLive(s: State, h: Hash) {
    exists k :: 0 <= k < |s.files| && h in s.files[k].chunks
  }

  /** A chunk of a live file has a referenced row and is in no collector's hands. */
  lemma NoLiveChunkCollected(tr: seq<State>, steps: seq<Step>, n: nat, h: Hash)
    requires IsRun(tr, steps) && n < |tr| && IsLive(tr[n], h)
    ensures h in tr[n].chunks && tr[n].chunks[h].refCount >= 1
    ensures forall d :: d in tr[n].daemons ==> h !in Held(tr[n].daemons[d])
  {
    RunInv(false, tr, steps, n);
    var s := tr[n];
    var k :| 0 <= k < |s.files| && h in s.files[k].chunks;
    DeletedRows(s.files, s.chunks, k);
    forall d | d in s.daemons
      ensures h !in Held(s.daemons[d])
    {
      assert DaemonOk(s.chunks, s.daemons[d]);
    }
  }

  /** No worker is ever asked to delete a chunk of a live file. */
  lemma NoDeleteSentForLiveChunk(tr: seq<State>, steps: seq<Step>, n: nat)
    requires IsRun(tr, steps) && n < |steps| && steps[n].WorkerDelete?
    ensures !IsLive(tr[n], steps[n].hash)
  {
    var s, step := tr[n], steps[n];
    assert Takes(tr, steps, n);
    assert step.hash in Held(s.daemons[step.d]);
    if IsLive(s, step.hash) {
      NoLiveChunkCollected(tr, steps, n, step.hash);
      assert false;
    }
  }

  // ---------------------------------------------------------------- deduplication

  /** A referenced chunk is on some replica; on all of them if no upload of the run was resumed. */
  lemma DeduplicationIsSound(tr: seq<State>, steps: seq<Step>, n: nat, h: Hash)
    requires IsRun(tr, steps) && n < |tr| && h in tr[n].chunks && tr[n].chunks[h].refCount > 0
    ensures exists w :: w in tr[n].chunks[h].nodes && (w, h) in tr[n].stored
    ensures (forall i :: 0 <= i < |steps| ==> !Resumes(tr[i], steps[i])) ==>
              forall w :: w in tr[n].chunks[h].nodes ==> (w, h) in tr[n].stored
  {
    RunInv(false, tr, steps, n);
    assert Replicated(false, tr[n].chunks[h].nodes, h, tr[n].stored);
    if forall i :: 0 <= i < |steps| ==> !Resumes(tr[i], steps[i]) {
      RunInv(true, tr, steps, n);
      assert Replicated(true, tr[n].chunks[h].nodes, h, tr[n].stored);
    }
  }

  /** A chunk the plan left out stays on a replica until the session's lease ends, whatever is deleted meanwhile. */
  lemma OmittedChunkStaysStored(tr: seq<State>, steps: seq<Step>, n: nat, sid: SessionId, i: nat)
    requires IsRun(tr, steps) && n < |tr| && sid in tr[n].sessions
    requires Leased(tr[n].sessions[sid], tr[n].now) && tr[n].sessions[sid].run.Some?
    requires i < |tr[n].sessions[sid].hashes| && i !in tr[n].sessions[sid].run.value.pending
    ensures var h := tr[n].sessions[sid].hashes[i];
            h in tr[n].chunks && exists w :: w in tr[n].chunks[h].nodes && (w, h) in tr[n].stored
  {
    RunInv(false, tr, steps, n);
    var s, ses := tr[n], tr[n].sessions[sid];
    assert SessionOk(false, s.now, s.chunks, s.stored, ses);
    assert IndexOk(false, s.chunks, s.stored, ses.run.value, i, ses.hashes[i]);
  }

  // ---------------------------------------------------------------- leases

  /** Within 24 hours of its latest init a session's rows exist, are no tombstones and carry that init's stamp or a later one. */
  lemma LeaseHolds(tr: seq<State>, steps: seq<Step>, n: nat, sid: SessionId, h: Hash)
    requires IsRun(tr, steps) && n < |tr| && sid in tr[n].sessions && h in tr[n].sessions[sid].hashes
    requires Leased(tr[n].sessions[sid], tr[n].now)
    ensures RowLeased(tr[n].chunks, h, tr[n].sessions[sid].lease.value.last)
  {
    RunInv(false, tr, steps, n);
    LeasedRows(false, tr[n], sid);
  }

  lemma {:induction false} ClockMonotone(tr: seq<State>, steps: seq<Step>, i: nat, j: nat)
    requires IsRun(tr, steps) && i <= j < |tr|
    ensures tr[i].now <= tr[j].now
  {
    if i < j {
      ClockMonotone(tr, steps, i, j - 1);
      assert Takes(tr, steps, j - 1);
    }
  }

  /** When the present session sid had its successful inits, in the first n steps. */
  ghost function InitTimes(tr: seq<State>, steps: seq<Step>, sid: SessionId, n: nat): seq<int>
    requires n <= |steps| && |tr| == |steps| + 1
  {
    if n == 0 then [] else
    var before, step := InitTimes(tr, steps, sid, n - 1), steps[n - 1];
    if step.Begin? && step.sid == sid then []
    else if step.Init? && step.sid == sid then before + [tr[n - 1].now]
    else before
  }

  lemma {:induction false} LeaseInStep(s: State, step: Step, s': State, sid: SessionId)
    requires Next(s, step, s') && sid in s'.sessions
    ensures sid !in s.sessions ==> step.Begin? && step.sid == sid
    ensures step.Begin? && step.sid == sid ==> s'.sessions[sid].lease == None
    ensures step.Init? && step.sid == sid && sid in s.sessions ==>
              s'.sessions[sid].lease == Some(Lease(if s.sessions[sid].lease.Some? then s.sessions[sid].lease.value.first else s.now, s.now))
    ensures sid in s.sessions && !(step.Begin? && step.sid == sid) && !(step.Init? && step.sid == sid) ==>
              s'.sessions[sid].lease == s.sessions[sid].lease
  {
  }

  /** A lease is the times of the session's first and latest init. */
  lemma {:induction false} LeaseIsInitTimes(tr: seq<State>, steps: seq<Step>, sid: SessionId, n: nat)
    requires IsRun(tr, steps) && n < |tr| && sid in tr[n].sessions
    ensures var times := InitTimes(tr, steps, sid, n);
            tr[n].sessions[sid].lease == if times == [] then None else Some(Lease(times[0], times[|times| - 1]))
  {
    if n > 0 {
      assert Takes(tr, steps, n - 1);
      LeaseInStep(tr[n - 1], steps[n - 1], tr[n], sid);
      if sid in tr[n - 1].sessions {
        LeaseIsInitTimes(tr, steps, sid, n - 1);
      }
    }
  }

  /** The session sid has been the same upload, with the same first init, from state m to state n. */
  ghost predicate SameUpload(tr: seq<State>, sid: SessionId, m: nat, n: nat)
    requires m <= n < |tr|
  {
    && sid in tr[n].sessions && tr[n].sessions[sid].lease.Some?
    && forall j :: m <= j <= n ==>
      && sid in tr[j].sessions && tr[j].sessions[sid].lease.Some?
      && tr[j].sessions[sid].hashes == tr[n].sessions[sid].hashes
      && tr[j].sessions[sid].lease.value.first == tr[n].sessions[sid].lease.value.first
  }

  /**
    A resume the client accepts finds every row in place ever since the first
    init, for any allowance of skew and delay up to an hour: none was purged or
    tombstoned in between.
   */
  lemma ResumeFindsEveryRow(tr: seq<State>, steps: seq<Step>, m: nat, n: nat, sid: SessionId, elapsed: int, allowance: int, j: nat, h: Hash)
    requires IsRun(tr, steps) && m <= j <= n < |tr| && SameUpload(tr, sid, m, n)
    requires MayInitWithin(tr[n].sessions[sid], elapsed, tr[n].now, allowance) && allowance <= SLACK
    requires h in tr[n].sessions[sid].hashes
    ensures RowLeased(tr[j].chunks, h, tr[j].sessions[sid].lease.value.last)
  {
    ClockMonotone(tr, steps, j, n);
    RunInv(false, tr, steps, j);
    assert SessionOk(false, tr[j].now, tr[j].chunks, tr[j].stored, tr[j].sessions[sid]);
    LeaseHolds(tr, steps, j, sid, h);
  }

  /** An accepted resume is never answered with CHUNK_LOCKED or a routing error, and its logged chunks are on a replica. */
  lemma ResumeIsNeverRefused(tr: seq<State>, steps: seq<Step>, n: nat, sid: SessionId, elapsed: int, route: map<Hash, set<WorkerId>>)
    requires IsRun(tr, steps) && n < |tr| && sid in tr[n].sessions && tr[n].sessions[sid].lease.Some?
    requires MayInit(tr[n].sessions[sid], elapsed, tr[n].now)
    ensures FirstError(tr[n].chunks, tr[n].workers, route, tr[n].sessions[sid].hashes).None?
    ensures forall i :: i in tr[n].sessions[sid].log ==>
              && i < |tr[n].sessions[sid].hashes|
              && var h := tr[n].sessions[sid].hashes[i];
                 h in tr[n].chunks && exists w :: w in tr[n].chunks[h].nodes && (w, h) in tr[n].stored
  {
    RunInv(false, tr, steps, n);
    var s, ses := tr[n], tr[n].sessions[sid];
    assert SessionOk(false, s.now, s.chunks, s.stored, ses);
    LeasedRows(false, s, sid);
    forall h | h in ses.hashes
      ensures !Locked(s.chunks, h) && !Unroutable(s.chunks, s.workers, route, h)
    {
      assert RowLeased(s.chunks, h, ses.lease.value.last);
      assert s.chunks[h].nodes * s.workers == s.chunks[h].nodes;
    }
    InitSucceedsIff(s.chunks, s.workers, route, ses.hashes);
    forall i | i in ses.log
      ensures Replicated(false, s.chunks[ses.hashes[i]].nodes, ses.hashes[i], s.stored)
    {
    }
  }

  // ---------------------------------------------------------------- ledger

  /** What the deletes among the first n steps failed to take back. */
  ghost function TotalSlack(tr: seq<State>, steps: seq<Step>, n: nat, h: Hash): int
    requires n <= |steps| && |tr| == |steps| + 1
  {
    if n == 0 then 0 else TotalSlack(tr, steps, n - 1, h) + SlackOf(tr[n - 1], steps[n - 1], h)
  }

  /** The reference count is the live occurrences plus what deletes failed to take back, which is never negative. */
  lemma {:induction false} LedgerIsExact(tr: seq<State>, steps: seq<Step>, n: nat, h: Hash)
    requires IsRun(tr, steps) && n <= |steps|
    ensures TotalSlack(tr, steps, n, h) >= 0
    ensures RefOf(tr[n].chunks, h) == Occurrences(tr[n].files, h) + TotalSlack(tr, steps, n, h)
  {
    if n > 0 {
      LedgerIsExact(tr, steps, n - 1, h);
      SlackOfStep(tr, steps, n - 1, h);
    }
  }

  /** One step of a run, in terms of counts and occurrences. */
  lemma {:induction false} SlackOfStep(tr: seq<State>, steps: seq<Step>, i: nat, h: Hash)
    requires IsRun(tr, steps) && i < |steps|
    ensures var slack := SlackOf(tr[i], steps[i], h);
            slack >= 0 && Surplus(tr[i + 1], h) == Surplus(tr[i], h) + slack
  {
    RunInv(false, tr, steps, i);
    assert Takes(tr, steps, i);
    StepSurplus(false, tr[i], steps[i], tr[i + 1], h);
  }

  ghost predicate NoSlack(tr: seq<State>, steps: seq<Step>, n: nat, h: Hash)
    requires n <= |steps| && |tr| == |steps| + 1
  {
    forall i :: 0 <= i < n ==> SlackOf(tr[i], steps[i], h) == 0
  }

  lemma {:induction false} SlackIsNeverNegative(tr: seq<State>, steps: seq<Step>, h: Hash)
    requires IsRun(tr, steps)
    ensures forall i :: 0 <= i < |steps| ==> SlackOf(tr[i], steps[i], h) >= 0
  {
    forall i | 0 <= i < |steps|
      ensures SlackOf(tr[i], steps[i], h) >= 0
    {
      SlackOfStep(tr, steps, i, h);
    }
  }

  lemma {:induction false} NoSlackStep(tr: seq<State>, steps: seq<Step>, n: nat, h: Hash)
    requires 0 < n <= |steps| && |tr| == |steps| + 1
    ensures NoSlack(tr, steps, n, h) <==> NoSlack(tr, steps, n - 1, h) && SlackOf(tr[n - 1], steps[n - 1], h) == 0
  {
  }

  /** Nothing was left over after n steps exactly when no single one of them left anything over. */
  lemma {:induction false} NoSlackIff(tr: seq<State>, steps: seq<Step>, n: nat, h: Hash)
    requires n <= |steps| && |tr| == |steps| + 1
    requires forall i :: 0 <= i < |steps| ==> SlackOf(tr[i], steps[i], h) >= 0
    ensures TotalSlack(tr, steps, n, h) >= 0
    ensures TotalSlack(tr, steps, n, h) == 0 <==> NoSlack(tr, steps, n, h)
  {
    if n > 0 {
      NoSlackIff(tr, steps, n - 1, h);
      NoSlackStep(tr, steps, n, h);
    }
  }

  /** A delete whose picked row repeats no chunk, and which removes no other row that has any. */
  ghost predicate CleanDelete(s: State, step: Step) {
    step.Delete? && step.pick < |s.files| ==>
      && (forall h :: multiset(s.files[step.pick].chunks)[h] <= 1)
      && (forall i :: 0 <= i < |s.files| && i != step.pick && Matches(s.files[i], step.user, step.name) ==> s.files[i].chunks == [])
  }

  /** A delete takes back every reference it should, for every hash, exactly when it is clean. */
  lemma {:induction false} CleanDeleteIff(s: State, step: Step)
    requires step.Delete? ==> step.pick < |s.files| && Matches(s.files[step.pick], step.user, step.name)
    ensures (forall h :: SlackOf(s, step, h) == 0) <==> CleanDelete(s, step)
  {
    if step.Delete? {
      var f := s.files[step.pick];
      if CleanDelete(s, step) {
        forall h
          ensures SlackOf(s, step, h) == 0
        {
          OnlyPickedCounts(s.files, step.user, step.name, step.pick, h);
          assert h in f.chunks <==> multiset(f.chunks)[h] > 0;
        }
      } else if h :| multiset(f.chunks)[h] > 1 {
        PickedOccurs(s.files, step.user, step.name, step.pick, h);
        assert SlackOf(s, step, h) > 0;
      } else {
        var i :| 0 <= i < |s.files| && i != step.pick && Matches(s.files[i], step.user, step.name) && s.files[i].chunks != [];
        var h := s.files[i].chunks[0];
        BothCount(s.files, step.user, step.name, if i < step.pick then i else step.pick, if i < step.pick then step.pick else i, h);
        assert multiset(s.files[i].chunks)[h] >= 1;
        assert h in f.chunks ==> multiset(f.chunks)[h] >= 1;
        assert SlackOf(s, step, h) > 0;
      }
    }
  }

  /** For one hash: its count is exact exactly when every delete so far removed one occurrence if the picked row has the hash, and none otherwise. */
  lemma CountIsExactIff(tr: seq<State>, steps: seq<Step>, n: nat, h: Hash)
    requires IsRun(tr, steps) && n <= |steps|
    ensures RefOf(tr[n].chunks, h) == Occurrences(tr[n].files, h) <==> NoSlack(tr, steps, n, h)
  {
    LedgerIsExact(tr, steps, n, h);
    SlackIsNeverNegative(tr, steps, h);
    NoSlackIff(tr, steps, n, h);
  }

  lemma {:induction false} CleanStepIff(tr: seq<State>, steps: seq<Step>, i: nat)
    requires IsRun(tr, steps) && i < |steps|
    ensures (forall h :: SlackOf(tr[i], steps[i], h) == 0) <==> CleanDelete(tr[i], steps[i])
  {
    assert Takes(tr, steps, i);
    CleanDeleteIff(tr[i], steps[i]);
  }

  /** All counts are exact exactly when every delete so far was clean. */
  lemma LedgerIsExactIff(tr: seq<State>, steps: seq<Step>, n: nat)
    requires IsRun(tr, steps) && n <= |steps|
    ensures (forall h :: RefOf(tr[n].chunks, h) == Occurrences(tr[n].files, h))
            <==> forall i :: 0 <= i < n ==> CleanDelete(tr[i], steps[i])
  {
    forall h
      ensures RefOf(tr[n].chunks, h) == Occurrences(tr[n].files, h) <==> NoSlack(tr, steps, n, h)
    {
      CountIsExactIff(tr, steps, n, h);
    }
    if forall h :: RefOf(tr[n].chunks, h) == Occurrences(tr[n].files, h) {
      forall i | 0 <= i < n
        ensures CleanDelete(tr[i], steps[i])
      {
        CleanStepIff(tr, steps, i);
        forall h
          ensures SlackOf(tr[i], steps[i], h) == 0
        {
          assert NoSlack(tr, steps, n, h);
        }
      }
    }
    if forall i :: 0 <= i < n ==> CleanDelete(tr[i], steps[i]) {
      forall h
        ensures NoSlack(tr, steps, n, h)
      {
        forall i | 0 <= i < n
          ensures SlackOf(tr[i], steps[i], h) == 0
        {
          CleanStepIff(tr, steps, i);
        }
      }
    }
  }

  /** No delete drives a count to the tombstone value. */
  lemma DeleteMakesNoTombstone(tr: seq<State>, steps: seq<Step>, n: nat, h: Hash)
    requires IsRun(tr, steps) && n < |steps| && steps[n].Delete?
    ensures Locked(tr[n + 1].chunks, h) ==> Locked(tr[n].chunks, h)
  {
    RunInv(false, tr, steps, n);
    assert Takes(tr, steps, n);
    StepSameTombstones(false, tr[n], steps[n], tr[n + 1]);
  }

  // ---------------------------------------------------------------- tombstones

  /** Batches of different daemons are disjoint, and every tombstone is held by a daemon or was leaked by a failure. */
  lemma TombstonesHaveOneOwner(tr: seq<State>, steps: seq<Step>, n: nat, h: Hash)
    requires IsRun(tr, steps) && n < |tr|
    ensures Locked(tr[n].chunks, h) <==>
              (h in tr[n].leaked || exists d :: d in tr[n].daemons && h in Held(tr[n].daemons[d]))
    ensures forall d, e :: d in tr[n].daemons && e in tr[n].daemons && d != e ==>
              Held(tr[n].daemons[d]) !! Held(tr[n].daemons[e])
    ensures forall d :: d in tr[n].daemons ==> Held(tr[n].daemons[d]) !! tr[n].leaked
  {
    RunInv(false, tr, steps, n);
    forall d | d in tr[n].daemons && h in Held(tr[n].daemons[d])
      ensures Locked(tr[n].chunks, h)
    {
      assert DaemonOk(tr[n].chunks, tr[n].daemons[d]);
    }
  }

  ghost predicate Fails(step: Step) {
    step.Crash? || (step.Revert? && !step.dbOk)
  }

  lemma {:induction false} LeakInStep(s: State, step: Step, s': State)
    requires Next(s, step, s') && !Fails(step)
    ensures s'.leaked == s.leaked
  {
  }

  lemma {:induction false} NothingLeaks(tr: seq<State>, steps: seq<Step>, n: nat)
    requires IsRun(tr, steps) && n < |tr|
    requires forall i :: 0 <= i < n ==> !Fails(steps[i])
    ensures tr[n].leaked == {}
  {
    if n > 0 {
      NothingLeaks(tr, steps, n - 1);
      assert Takes(tr, steps, n - 1);
      LeakInStep(tr[n - 1], steps[n - 1], tr[n]);
    }
  }

  /** Without a crash or a failed revert, a database whose daemons are all idle holds no tombstone. */
  lemma {:induction false} NothingLeaksWithoutFailure(tr: seq<State>, steps: seq<Step>, n: nat)
    requires IsRun(tr, steps) && n < |tr|
    requires forall i :: 0 <= i < n ==> !Fails(steps[i])
    ensures tr[n].leaked == {}
    ensures (forall d :: d in tr[n].daemons ==> tr[n].daemons[d] == Idle) ==> forall h :: !Locked(tr[n].chunks, h)
  {
    NothingLeaks(tr, steps, n);
    if forall d :: d in tr[n].daemons ==> tr[n].daemons[d] == Idle {
      forall h
        ensures !Locked(tr[n].chunks, h)
      {
        TombstonesHaveOneOwner(tr, steps, n, h);
      }
    }
  }

  ghost predicate ActsFor(step: Step, d: DaemonId) {
    (step.Collect? || step.WorkerDelete? || step.Bulk? || step.Revert? || step.Rest? || step.Crash?) && step.d == d
  }

  /** The table effect of the collector's transactions, on tombstones they do not hold. */
  lemma {:induction false} OthersTombstonesStay(s: State, step: Step, s': State, h: Hash)
    requires Next(s, step, s') && (step.Collect? || step.Bulk? || step.Revert?)
    requires Locked(s.chunks, h) && h !in Held(s.daemons[step.d])
    ensures h in s'.chunks && s'.chunks[h] == s.chunks[h]
  {
  }

  lemma {:induction false} OtherDaemonsStay(s: State, step: Step, s': State, d: DaemonId)
    requires Next(s, step, s') && !ActsFor(step, d) && d in s.daemons
    ensures d in s'.daemons && s'.daemons[d] == s.daemons[d]
  {
  }

  lemma {:induction false} FrozenStep(s: State, step: Step, s': State, d: DaemonId, h: Hash)
    requires Inv(false, s) && Next(s, step, s') && !ActsFor(step, d) && d in s.daemons && h in Held(s.daemons[d])
    ensures h in s.chunks && h in s'.chunks && s'.chunks[h] == s.chunks[h]
  {
    assert DaemonOk(s.chunks, s.daemons[d]);
    if step.Collect? || step.Bulk? || step.Revert? {
      assert Held(s.daemons[step.d]) !! Held(s.daemons[d]);
      OthersTombstonesStay(s, step, s', h);
    } else {
      StepSameTombstones(false, s, step, s');
    }
  }

  /** While a daemon holds a tombstone nobody else changes its row or takes it away. */
  lemma HeldRowsAreFrozen(tr: seq<State>, steps: seq<Step>, n: nat, d: DaemonId, h: Hash)
    requires IsRun(tr, steps) && n < |steps| && !ActsFor(steps[n], d)
    requires d in tr[n].daemons && h in Held(tr[n].daemons[d])
    ensures d in tr[n + 1].daemons && tr[n + 1].daemons[d] == tr[n].daemons[d]
    ensures h in tr[n].chunks && h in tr[n + 1].chunks && tr[n + 1].chunks[h] == tr[n].chunks[h]
  {
    RunInv(false, tr, steps, n);
    assert Takes(tr, steps, n);
    FrozenStep(tr[n], steps[n], tr[n + 1], d, h);
    OtherDaemonsStay(tr[n], steps[n], tr[n + 1], d);
  }

  /** The bulk delete splits a batch: a row goes exactly when every one of its workers confirmed and the database did; all other rows stay tombstones to revert. */
  lemma BulkSplitsBatch(tr: seq<State>, steps: seq<Step>, n: nat, h: Hash)
    requires IsRun(tr, steps) && n < |steps| && steps[n].Bulk?
    requires steps[n].d in tr[n].daemons && tr[n].daemons[steps[n].d].Purging? && h in tr[n].daemons[steps[n].d].batch
    ensures steps[n].d in tr[n + 1].daemons
    ensures var dm, dm' := tr[n].daemons[steps[n].d], tr[n + 1].daemons[steps[n].d];
            var confirmed := forall w :: w in dm.batch[h] ==> (h, w) in dm.cleared;
            && h in tr[n].chunks && dm.batch[h] == tr[n].chunks[h].nodes
            && (h !in tr[n + 1].chunks <==> steps[n].dbOk && confirmed)
            && (h in tr[n + 1].chunks <==> h in Held(dm'))
            && (h in tr[n + 1].chunks ==> Locked(tr[n + 1].chunks, h))
  {
    RunInv(false, tr, steps, n);
    var s, d := tr[n], steps[n].d;
    assert Takes(tr, steps, n);
    assert DaemonOk(s.chunks, s.daemons[d]);
    assert h in Held(s.daemons[d]);
    assert Locked(s.chunks, h);
  }

  /** A successful revert gives the row back to the clients with a fresh stamp and releases it. */
  lemma RevertReleases(tr: seq<State>, steps: seq<Step>, n: nat)
    requires IsRun(tr, steps) && n < |steps| && steps[n].Revert? && steps[n].dbOk
    ensures var h, s' := steps[n].hash, tr[n + 1];
            h in s'.chunks && s'.chunks[h].refCount == 0 && s'.chunks[h].createdAt == s'.now
            && forall d :: d in s'.daemons ==> h !in Held(s'.daemons[d])
  {
    RunInv(false, tr, steps, n);
    var s, step, s' := tr[n], steps[n], tr[n + 1];
    assert Takes(tr, steps, n);
    assert DaemonOk(s.chunks, s.daemons[step.d]);
    assert step.hash in Held(s.daemons[step.d]);
    forall d | d in s'.daemons
      ensures step.hash !in Held(s'.daemons[d])
    {
      if d != step.d {
        assert Held(s.daemons[d]) !! Held(s.daemons[step.d]);
      }
    }
  }

  // ---------------------------------------------------------------- the fate of a batch

  /** Between steps i and k worker w confirmed to daemon d that h is gone. */
  ghost predicate Confirmed(steps: seq<Step>, i: nat, k: nat, d: DaemonId, h: Hash, w: WorkerId) {
    exists m :: i < m < k && m < |steps| && steps[m].WorkerDelete? && steps[m].ok && steps[m].d == d && steps[m].hash == h && steps[m].worker == w
  }

  /** Step k removes the row, after every one of the workers it had at step i has confirmed. */
  ghost predicate PurgedAt(tr: seq<State>, steps: seq<Step>, i: nat, k: nat, d: DaemonId, h: Hash)
    requires i < k < |steps| && |tr| == |steps| + 1
  {
    && steps[k] == Bulk(d, true) && h in tr[k].chunks && h !in tr[k + 1].chunks
    && h in tr[i].chunks && forall w :: w in tr[i].chunks[h].nodes ==> Confirmed(steps, i, k, d, h, w)
  }

  /** Step k gives the row back, unreferenced and freshly stamped. */
  ghost predicate RevertedAt(tr: seq<State>, steps: seq<Step>, k: nat, d: DaemonId, h: Hash)
    requires k < |steps| && |tr| == |steps| + 1
  {
    && steps[k] == Revert(d, h, true)
    && h in tr[k + 1].chunks && tr[k + 1].chunks[h].refCount == 0 && tr[k + 1].chunks[h].createdAt == tr[k].now
  }

  ghost predicate SettledAt(tr: seq<State>, steps: seq<Step>, i: nat, k: nat, d: DaemonId, h: Hash)
    requires i < k < |steps| && |tr| == |steps| + 1
  {
    PurgedAt(tr, steps, i, k, d, h) || RevertedAt(tr, steps, k, d, h)
  }

  /** Daemon d works without failure between steps i and j. */
  ghost predicate Working(steps: seq<Step>, i: nat, j: nat, d: DaemonId) {
    forall k :: i < k < j && k < |steps| && ActsFor(steps[k], d) ==> !Fails(steps[k]) && !steps[k].Rest?
  }

  /** What an unfailing act of its own does to a daemon that holds tombstones. */
  ghost predicate DaemonActs(dm: Daemon, step: Step, dm': Daemon) {
    match step
    case WorkerDelete(_, hash, worker, _, ok) =>
      dm.Purging? && dm' == (if ok then dm.(cleared := dm.cleared + {(hash, worker)}) else dm)
    case Bulk(_, dbOk) => dm.Purging? && dm' == Reverting(dm.batch.Keys - if dbOk then PurgedOf(dm) else {})
    case Revert(_, hash, _) => dm.Reverting? && hash in dm.rest && dm' == Reverting(dm.rest - {hash})
    case _ => false
  }

  lemma {:induction false} DaemonActsInStep(s: State, step: Step, s': State, d: DaemonId)
    requires Next(s, step, s') && ActsFor(step, d) && d in s.daemons && !s.daemons[d].Idle?
    requires !Fails(step) && !step.Rest?
    ensures d in s'.daemons && DaemonActs(s.daemons[d], step, s'.daemons[d])
  {
  }

  /** What a daemon's own transactions do to a row of its batch. */
  lemma {:induction false} RowInStep(s: State, step: Step, s': State, d: DaemonId, h: Hash)
    requires OwnershipOk(s.chunks, s.daemons, s.leaked) && Next(s, step, s') && ActsFor(step, d) && d in s.daemons
    requires !Fails(step) && !step.Rest? && !s.daemons[d].Idle?
    ensures h in Held(s.daemons[d]) && step.Bulk? && step.dbOk && h in PurgedOf(s.daemons[d]) ==> h in s.chunks && h !in s'.chunks
    ensures h in Held(s.daemons[d]) && step.Revert? && step.hash == h ==>
              h in s'.chunks && s'.chunks[h].refCount == 0 && s'.chunks[h].createdAt == s.now
    ensures step.Bulk? && h in s.chunks && h !in s'.chunks ==> step.dbOk && h in PurgedOf(s.daemons[d])
  {
    assert DaemonOk(s.chunks, s.daemons[d]);
  }

  /** A row still in the daemon's hands, and the confirmations counted so far. */
  ghost predicate InHands(dm: Daemon, steps: seq<Step>, i: nat, n: nat, d: DaemonId, h: Hash, nodes: set<WorkerId>) {
    match dm
    case Idle => false
    case Purging(batch, cleared) => h in batch && batch[h] == nodes && forall w :: (h, w) in cleared ==> Confirmed(steps, i, n, d, h, w)
    case Reverting(rest) => h in rest
  }

  lemma {:induction false} ConfirmedLater(steps: seq<Step>, i: nat, n: nat, d: DaemonId, h: Hash)
    ensures forall w :: Confirmed(steps, i, n, d, h, w) ==> Confirmed(steps, i, n + 1, d, h, w)
  {
    forall w | Confirmed(steps, i, n, d, h, w)
      ensures Confirmed(steps, i, n + 1, d, h, w)
    {
      var m :| i < m < n && m < |steps| && steps[m].WorkerDelete? && steps[m].ok && steps[m].d == d && steps[m].hash == h && steps[m].worker == w;
      assert i < m < n + 1;
    }
  }

  lemma {:induction false} InHandsStep(dm: Daemon, dm': Daemon, steps: seq<Step>, i: nat, n: nat, d: DaemonId, h: Hash, nodes: set<WorkerId>)
    requires i < n < |steps| && InHands(dm, steps, i, n, d, h, nodes)
    requires if ActsFor(steps[n], d) then DaemonActs(dm, steps[n], dm') else dm' == dm
    ensures InHands(dm', steps, i, n + 1, d, h, nodes)
            || (h !in Held(dm') && ActsFor(steps[n], d)
                && ((steps[n].Bulk? && steps[n].dbOk && h in PurgedOf(dm) && forall w :: w in nodes ==> Confirmed(steps, i, n, d, h, w))
                    || (steps[n].Revert? && steps[n].hash == h)))
  {
    ConfirmedLater(steps, i, n, d, h);
    if ActsFor(steps[n], d) && steps[n].WorkerDelete? && steps[n].ok {
      assert Confirmed(steps, i, n + 1, d, steps[n].hash, steps[n].worker);
    }
  }

  /** A step settles a row only by taking it out of the daemon's hands. */
  lemma {:induction false} SettlingReleases(tr: seq<State>, steps: seq<Step>, i: nat, m: nat, d: DaemonId, h: Hash)
    requires IsRun(tr, steps) && i < m < |steps| && Working(steps, i, m + 1, d)
    requires d in tr[m].daemons && !tr[m].daemons[d].Idle? && SettledAt(tr, steps, i, m, d, h)
    ensures d in tr[m + 1].daemons && h in Held(tr[m].daemons[d]) && h !in Held(tr[m + 1].daemons[d])
  {
    RunInv(false, tr, steps, m);
    assert Takes(tr, steps, m);
    DaemonActsInStep(tr[m], steps[m], tr[m + 1], d);
    RowInStep(tr[m], steps[m], tr[m + 1], d, h);
  }

  lemma {:induction false} CollectTakes(s: State, step: Step, s': State, h: Hash)
    requires Next(s, step, s') && step.Collect? && h in step.batch
    ensures h in s.chunks && step.d in s'.daemons && s'.daemons[step.d].Purging?
    ensures h in s'.daemons[step.d].batch && s'.daemons[step.d].batch[h] == s.chunks[h].nodes && s'.daemons[step.d].cleared == {}
  {
  }

  /** One more step of anybody, seen from daemon d. */
  lemma {:induction false} DaemonInStep(tr: seq<State>, steps: seq<Step>, i: nat, m: nat, d: DaemonId)
    requires IsRun(tr, steps) && i < m < |steps| && Working(steps, i, m + 1, d)
    requires d in tr[m].daemons && !tr[m].daemons[d].Idle?
    ensures d in tr[m + 1].daemons && !tr[m + 1].daemons[d].Idle?
    ensures if ActsFor(steps[m], d) then DaemonActs(tr[m].daemons[d], steps[m], tr[m + 1].daemons[d])
            else tr[m + 1].daemons[d] == tr[m].daemons[d]
  {
    assert Takes(tr, steps, m);
    if ActsFor(steps[m], d) {
      DaemonActsInStep(tr[m], steps[m], tr[m + 1], d);
    } else {
      OtherDaemonsStay(tr[m], steps[m], tr[m + 1], d);
    }
  }

  /** A row that leaves the daemon's hands at step m is settled there. */
  lemma {:induction false} LeavingSettles(tr: seq<State>, steps: seq<Step>, i: nat, m: nat, d: DaemonId, h: Hash)
    requires IsRun(tr, steps) && i < m < |steps| && Working(steps, i, m + 1, d) && h in tr[i].chunks
    requires d in tr[m].daemons && InHands(tr[m].daemons[d], steps, i, m, d, h, tr[i].chunks[h].nodes)
    ensures d in tr[m + 1].daemons
    ensures InHands(tr[m + 1].daemons[d], steps, i, m + 1, d, h, tr[i].chunks[h].nodes)
            || (h !in Held(tr[m + 1].daemons[d]) && SettledAt(tr, steps, i, m, d, h))
  {
    DaemonInStep(tr, steps, i, m, d);
    InHandsStep(tr[m].daemons[d], tr[m + 1].daemons[d], steps, i, m, d, h, tr[i].chunks[h].nodes);
    if ActsFor(steps[m], d) {
      RunInv(false, tr, steps, m);
      assert Takes(tr, steps, m);
      RowInStep(tr[m], steps[m], tr[m + 1], d, h);
    }
  }

  /** What has become, n steps into the run, of a row collected at step i: still held, or settled at the one step k. */
  ghost predicate FateIs(tr: seq<State>, steps: seq<Step>, i: nat, n: nat, d: DaemonId, h: Hash, k: Option<nat>)
    requires i < n <= |steps| && |tr| == |steps| + 1
  {
    && h in tr[i].chunks && d in tr[n].daemons && !tr[n].daemons[d].Idle?
    && (k.None? ==> InHands(tr[n].daemons[d], steps, i, n, d, h, tr[i].chunks[h].nodes))
    && (k.Some? ==> i < k.value < n && SettledAt(tr, steps, i, k.value, d, h) && h !in Held(tr[n].daemons[d]))
    && (forall m :: i < m < n && SettledAt(tr, steps, i, m, d, h) ==> k == Some(m))
  }

  lemma {:induction false} FateStep(tr: seq<State>, steps: seq<Step>, i: nat, m: nat, d: DaemonId, h: Hash, k: Option<nat>) returns (k': Option<nat>)
    requires i < m < |steps| && |tr| == |steps| + 1 && FateIs(tr, steps, i, m, d, h, k)
    requires d in tr[m + 1].daemons && !tr[m + 1].daemons[d].Idle?
    requires h !in Held(tr[m].daemons[d]) ==> h !in Held(tr[m + 1].daemons[d])
    requires SettledAt(tr, steps, i, m, d, h) ==> h in Held(tr[m].daemons[d]) && h !in Held(tr[m + 1].daemons[d])
    requires k.None? ==> InHands(tr[m + 1].daemons[d], steps, i, m + 1, d, h, tr[i].chunks[h].nodes)
                         || (h !in Held(tr[m + 1].daemons[d]) && SettledAt(tr, steps, i, m, d, h))
    ensures FateIs(tr, steps, i, m + 1, d, h, k')
  {
    k' := if k.None? && SettledAt(tr, steps, i, m, d, h) then Some(m) else k;
  }

  lemma {:induction false} FateSoFar(tr: seq<State>, steps: seq<Step>, i: nat, n: nat, d: DaemonId, h: Hash) returns (k: Option<nat>)
    requires IsRun(tr, steps) && i < n <= |steps| && Working(steps, i, n, d)
    requires steps[i].Collect? && steps[i].d == d && h in steps[i].batch
    ensures FateIs(tr, steps, i, n, d, h, k)
  {
    if n == i + 1 {
      assert Takes(tr, steps, i);
      CollectTakes(tr[i], steps[i], tr[i + 1], h);
      k := None;
    } else {
      var m := n - 1;
      k := FateSoFar(tr, steps, i, m, d, h);
      DaemonInStep(tr, steps, i, m, d);
      if SettledAt(tr, steps, i, m, d, h) {
        SettlingReleases(tr, steps, i, m, d, h);
      }
      if k.None? {
        LeavingSettles(tr, steps, i, m, d, h);
      }
      k := FateStep(tr, steps, i, m, d, h, k);
    }
  }

  /**
    The whole fate of a batch in a run of everybody: from the collection to the
    rest that ends it, with no failure of its daemon in between, each row is
    settled exactly once, purged after all its workers confirmed or given back.
   */
  lemma BatchFate(tr: seq<State>, steps: seq<Step>, i: nat, j: nat, d: DaemonId, h: Hash) returns (k: nat)
    requires IsRun(tr, steps) && i < j < |steps| && Working(steps, i, j, d)
    requires steps[i].Collect? && steps[i].d == d && h in steps[i].batch && steps[j] == Rest(d)
    ensures i < k < j && SettledAt(tr, steps, i, k, d, h)
    ensures forall m :: i < m < j && SettledAt(tr, steps, i, m, d, h) ==> m == k
  {
    var fate := FateSoFar(tr, steps, i, j, d, h);
    assert Takes(tr, steps, j);
    k := fate.value;
  }

  /** The step puts bytes of h on worker w, for a session or as a straggler. */
  ghost predicate Stores(s: State, step: Step, w: WorkerId, h: Hash) {
    || step == StraySave(w, h)
    || (step.Save? && step.worker == w && step.sid in s.sessions && step.index < |s.sessions[step.sid].hashes|
        && s.sessions[step.sid].hashes[step.index] == h)
  }

  lemma {:induction false} BytesInStep(s: State, step: Step, s': State, w: WorkerId, h: Hash)
    requires Next(s, step, s')
    ensures (w, h) in s'.stored ==> (w, h) in s.stored || Stores(s, step, w, h)
    ensures Stores(s, step, w, h) ==> (w, h) in s'.stored
    ensures step.WorkerDelete? && step.ok && step.worker == w && step.hash == h ==> (w, h) !in s'.stored
  {
  }

  /** From a confirmed deletion on, bytes are there again only if somebody stored them. */
  lemma {:induction false} GoneUntilStored(tr: seq<State>, steps: seq<Step>, m: nat, k: nat, w: WorkerId, h: Hash)
    requires IsRun(tr, steps) && m < k <= |steps|
    requires steps[m].WorkerDelete? && steps[m].ok && steps[m].worker == w && steps[m].hash == h
    ensures (w, h) in tr[k].stored ==> exists q :: m < q < k && Stores(tr[q], steps[q], w, h)
  {
    assert Takes(tr, steps, k - 1);
    BytesInStep(tr[k - 1], steps[k - 1], tr[k], w, h);
    if m < k - 1 {
      GoneUntilStored(tr, steps, m, k - 1, w, h);
    }
  }

  /** When a row is purged its bytes are off all its workers, but for what was stored after the collection. */
  lemma {:induction false} PurgedBytesAreGone(tr: seq<State>, steps: seq<Step>, i: nat, k: nat, d: DaemonId, h: Hash, w: WorkerId)
    requires IsRun(tr, steps) && i < k < |steps| && PurgedAt(tr, steps, i, k, d, h) && w in tr[i].chunks[h].nodes
    ensures (w, h) in tr[k].stored ==> exists q :: i < q < k && Stores(tr[q], steps[q], w, h)
  {
    assert Confirmed(steps, i, k, d, h, w);
    var m :| i < m < k && m < |steps| && steps[m].WorkerDelete? && steps[m].ok && steps[m].d == d && steps[m].hash == h && steps[m].worker == w;
    GoneUntilStored(tr, steps, m, k, w, h);
  }

  // ---------------------------------------------------------------- placement and plans

  lemma {:induction false} StepKeepsNodes(s: State, step: Step, t': Table, h: Hash)
    requires ChunkEffect(s, step, t') && h in s.chunks && h in t'
    ensures t'[h].nodes == s.chunks[h].nodes
  {
  }

  /** The replica set of a row never changes while the row lives. */
  lemma {:induction false} PlacementIsStable(tr: seq<State>, steps: seq<Step>, i: nat, j: nat, h: Hash)
    requires IsRun(tr, steps) && i <= j < |tr|
    requires forall k :: i <= k <= j ==> h in tr[k].chunks
    ensures tr[j].chunks[h].nodes == tr[i].chunks[h].nodes
  {
    if i < j {
      PlacementIsStable(tr, steps, i, j - 1, h);
      assert Takes(tr, steps, j - 1);
      StepChunkEffect(tr[j - 1], steps[j - 1], tr[j]);
      StepKeepsNodes(tr[j - 1], steps[j - 1], tr[j].chunks, h);
    }
  }

  /** The download plan of a live file lists all its chunks in order, each with a worker that stores it. */
  lemma DownloadPlanIsComplete(tr: seq<State>, steps: seq<Step>, n: nat, k: nat)
    requires IsRun(tr, steps) && n < |tr| && k < |tr[n].files|
    ensures var s := tr[n]; var hashes := s.files[k].chunks; var plans := JoinPlans(s.chunks, s.workers, hashes);
            && |plans| == |hashes|
            && forall i :: 0 <= i < |hashes| ==>
                 plans[i].hash == hashes[i] && exists w :: w in plans[i].nodes && (w, hashes[i]) in s.stored
  {
    var s := tr[n];
    var hashes := s.files[k].chunks;
    var plans := JoinPlans(s.chunks, s.workers, hashes);
    RunInv(false, tr, steps, n);
    DeletedRows(s.files, s.chunks, k);
    JoinPlansComplete(s.chunks, s.workers, hashes);
    forall i | 0 <= i < |hashes|
      ensures plans[i].hash == hashes[i] && exists w :: w in plans[i].nodes && (w, hashes[i]) in s.stored
    {
      var h := hashes[i];
      assert Replicated(false, s.chunks[h].nodes, h, s.stored);
      var w :| w in s.chunks[h].nodes && (w, h) in s.stored;
      assert w in plans[i].nodes;
    }
  }
}
