/** How tight the lifecycle's premises are: runs from the initial state that break the guarantees once a bound is exceeded. */
module LifecycleBounds {
  import opened Basics
  import opened ChunkTable
  import opened Lifecycle
  import opened LifecycleInvariant
  import opened LifecycleTheorems

  // ---------------------------------------------------------------- paths

  ghost function Last(tr: seq<State>): State
    requires tr != []
  {
    tr[|tr| - 1]
  }

  lemma Append(tr: seq<State>, steps: seq<Step>, step: Step, s: State)
    requires IsPath(tr, steps) && Next(Last(tr), step, s)
    ensures IsPath(tr + [s], steps + [step])
  {
    var tr', steps' := tr + [s], steps + [step];
    forall i | 0 <= i < |steps'|
      ensures Next(tr'[i], steps'[i], tr'[i + 1])
    {
      if i < |steps| {
        assert Takes(tr, steps, i);
      }
    }
  }

  /** One step further, from the same start. */
  lemma Extend(tr: seq<State>, steps: seq<Step>, step: Step, s: State) returns (tr': seq<State>, steps': seq<Step>)
    requires IsPath(tr, steps) && Next(Last(tr), step, s)
    ensures IsPath(tr', steps') && tr'[0] == tr[0] && Last(tr') == s
  {
    Append(tr, steps, step, s);
    tr', steps' := tr + [s], steps + [step];
  }

  /** One path after the other. */
  lemma {:induction false} Join(tr: seq<State>, steps: seq<Step>, more: seq<State>, moreSteps: seq<Step>) returns (tr': seq<State>, steps': seq<Step>)
    requires IsPath(tr, steps) && IsPath(more, moreSteps) && Last(tr) == more[0]
    ensures IsPath(tr', steps') && tr'[0] == tr[0] && Last(tr') == Last(more)
  {
    if moreSteps == [] {
      tr', steps' := tr, steps;
    } else {
      var k := |moreSteps| - 1;
      var init, initSteps := more[..k + 1], moreSteps[..k];
      forall i | 0 <= i < k
        ensures Takes(init, initSteps, i)
      {
        assert Takes(more, moreSteps, i);
      }
      tr', steps' := Join(tr, steps, init, initSteps);
      assert Takes(more, moreSteps, k);
      tr', steps' := Extend(tr', steps', moreSteps[k], more[k + 1]);
    }
  }

  /** Workers acknowledge a whole set of replicas, one after the other. */
  lemma {:induction false} SavesReach(s: State, sid: SessionId, acks: set<(nat, WorkerId)>) returns (tr: seq<State>, steps: seq<Step>)
    requires sid in s.sessions && s.sessions[sid].run.Some? && s.sessions[sid].run.value.acks == {}
    requires forall a :: a in acks ==> a.0 in s.sessions[sid].run.value.pending && a.1 in s.sessions[sid].run.value.pending[a.0] && a.0 < |s.sessions[sid].hashes|
    ensures IsPath(tr, steps) && tr[0] == s
    ensures Last(tr) == s.(stored := Last(tr).stored, sessions := s.sessions[sid := s.sessions[sid].(run := Some(s.sessions[sid].run.value.(acks := acks)))])
    decreases acks
  {
    if acks == {} {
      tr, steps := [s], [];
      assert s.sessions[sid := s.sessions[sid]] == s.sessions;
    } else {
      var a := Element(acks);
      tr, steps := SavesReach(s, sid, acks - {a});
      var last := Last(tr);
      var next := Saved(last, sid, a);
      assert last.sessions[sid].run.value.acks + {(a.0, a.1)} == acks;
      assert next.sessions == s.sessions[sid := s.sessions[sid].(run := Some(s.sessions[sid].run.value.(acks := acks)))];
      tr, steps := Extend(tr, steps, Save(sid, a.0, a.1), next);
    }
  }

  ghost function Saved(s: State, sid: SessionId, a: (nat, WorkerId)): State
    requires sid in s.sessions && s.sessions[sid].run.Some? && a.0 < |s.sessions[sid].hashes|
  {
    var ses := s.sessions[sid];
    s.(stored := s.stored + {(a.1, ses.hashes[a.0])},
       sessions := s.sessions[sid := ses.(run := Some(ses.run.value.(acks := ses.run.value.acks + {(a.0, a.1)})))])
  }

  // ---------------------------------------------------------------- an expired row can be collected

  /** Every worker of `todo` confirms the deletion of h, one after the other. */
  lemma {:induction false} ClearAll(s: State, d: DaemonId, h: Hash, todo: set<WorkerId>) returns (tr: seq<State>, steps: seq<Step>)
    requires d in s.daemons && s.daemons[d].Purging? && h in s.daemons[d].batch && todo <= s.daemons[d].batch[h]
    ensures IsPath(tr, steps) && tr[0] == s
    ensures var e := Last(tr);
            && d in e.daemons && e.daemons[d].Purging? && e.daemons[d].batch == s.daemons[d].batch
            && s.daemons[d].cleared <= e.daemons[d].cleared
            && (forall w :: w in todo ==> (h, w) in e.daemons[d].cleared)
            && e.chunks == s.chunks && e.files == s.files && e.sessions == s.sessions && e.now == s.now
    decreases |todo|
  {
    if todo == {} {
      tr, steps := [s], [];
    } else {
      var w := Element(todo);
      tr, steps := ClearAll(s, d, h, todo - {w});
      var e := Last(tr);
      var e' := e.(stored := e.stored - {(w, h)}, daemons := e.daemons[d := e.daemons[d].(cleared := e.daemons[d].cleared + {(h, w)})]);
      assert w in e.daemons[d].batch[h];
      tr, steps := Extend(tr, steps, WorkerDelete(d, h, w, true, true), e');
    }
  }

  /** An expired row can be purged at once by any idle daemon. */
  lemma {:induction false} ExpiredRowCanGo(s: State, d: DaemonId, h: Hash) returns (tr: seq<State>, steps: seq<Step>)
    requires d in s.daemons && s.daemons[d].Idle? && Expired(s.chunks, h, s.now)
    ensures IsPath(tr, steps) && tr[0] == s
    ensures var e := Last(tr);
            h !in e.chunks && e.files == s.files && e.sessions == s.sessions && e.now == s.now
  {
    var s1 := AfterCollect(s, d, {h});
    tr, steps := Extend([s], [], Collect(d, {h}), s1);
    var more, moreSteps := ClearAll(s1, d, h, s.chunks[h].nodes);
    tr, steps := Join(tr, steps, more, moreSteps);
    var e := PurgeStep(Last(tr), d, h);
    tr, steps := Extend(tr, steps, Bulk(d, true), e);
  }

  lemma {:induction false} PurgeStep(s: State, d: DaemonId, h: Hash) returns (e: State)
    requires d in s.daemons && s.daemons[d].Purging? && h in s.daemons[d].batch && Locked(s.chunks, h)
    requires forall w :: w in s.daemons[d].batch[h] ==> (h, w) in s.daemons[d].cleared
    ensures Next(s, Bulk(d, true), e)
    ensures h !in e.chunks && e.files == s.files && e.sessions == s.sessions && e.now == s.now
  {
    e := AfterBulk(s, d, true);
    assert h in PurgedOf(s.daemons[d]);
  }

  // ---------------------------------------------------------------- one upload from the initial state

  ghost function Start(): (s: State)
    ensures Initial(s)
  {
    State(0, {}, [], map[], {}, map[], map[0 := Idle], {})
  }

  /** The first step of a session on an empty database with one worker. */
  ghost function Ready(w: WorkerId, hashes: seq<Hash>): State {
    Start().(workers := {w}, sessions := map[0 := Session(hashes, None, {}, None)])
  }

  lemma {:induction false} ReadyRun(w: WorkerId, hashes: seq<Hash>) returns (tr: seq<State>, steps: seq<Step>)
    ensures IsPath(tr, steps) && tr[0] == Start() && Last(tr) == Ready(w, hashes)
  {
    var s1 := Start().(workers := {} + {w});
    tr, steps := Extend([Start()], [], Register(w), s1);
    tr, steps := Extend(tr, steps, Begin(0, hashes), s1.(sessions := s1.sessions[0 := Session(hashes, None, {}, None)]));
    assert Last(tr).sessions == map[0 := Session(hashes, None, {}, None)];
  }

  /** What the init of a file of copies of one chunk does. */
  ghost function Inited(w: WorkerId, h: Hash, hashes: seq<Hash>): State {
    AfterInit(Ready(w, hashes), 0, map[h := {w}])
  }

  ghost predicate Copies(hashes: seq<Hash>, h: Hash) {
    hashes != [] && forall x :: x in hashes ==> x == h
  }

  lemma {:induction false} InitedRun(w: WorkerId, h: Hash, hashes: seq<Hash>) returns (tr: seq<State>, steps: seq<Step>)
    requires Copies(hashes, h)
    ensures IsPath(tr, steps) && tr[0] == Start() && Last(tr) == Inited(w, h, hashes)
    ensures Last(tr).chunks == map[h := Row({w}, 0, 0)]
  {
    tr, steps := ReadyRun(w, hashes);
    var s, route := Ready(w, hashes), map[h := {w}];
    assert NodesFor(s.chunks, route, h) * s.workers == {w};
    assert w in NodesFor(s.chunks, route, h) * s.workers;
    InitSucceedsIff(s.chunks, s.workers, route, hashes);
    assert hashes[0] in hashes;
    tr, steps := Extend(tr, steps, Init(0, 0, route), Inited(w, h, hashes));
  }

  /** A run in which a file of copies of h has been transferred, with every replica acknowledged. */
  lemma {:induction false} TransferredRun(w: WorkerId, h: Hash, hashes: seq<Hash>) returns (tr: seq<State>, steps: seq<Step>)
    requires Copies(hashes, h)
    ensures IsPath(tr, steps) && tr[0] == Start()
    ensures var e := Last(tr);
            && e.now == 0 && e.files == [] && e.chunks == map[h := Row({w}, 0, 0)] && e.daemons == map[0 := Idle]
            && 0 in e.sessions && e.sessions[0].hashes == hashes && e.sessions[0].lease == Some(Lease(0, 0))
            && e.sessions[0].run.Some? && AllAcknowledged(e.sessions[0].run.value)
  {
    tr, steps := InitedRun(w, h, hashes);
    var s := Last(tr);
    var pending := s.sessions[0].run.value.pending;
    var acks := set i | i in pending :: (i, w);
    forall i | i in pending
      ensures i < |hashes| && pending[i] == {w}
    {
      assert hashes[i] in hashes;
      assert {w} * {w} == {w};
    }
    var more, moreSteps := SavesReach(s, 0, acks);
    tr, steps := Join(tr, steps, more, moreSteps);
  }

  // ---------------------------------------------------------------- the count is not always exact

  lemma {:induction false} CopiesCount(hashes: seq<Hash>, h: Hash)
    requires forall x :: x in hashes ==> x == h
    ensures multiset(hashes)[h] == |hashes|
  {
    if hashes != [] {
      var n := |hashes| - 1;
      assert hashes == hashes[..n] + [hashes[n]];
      assert forall x :: x in hashes[..n] ==> x in hashes;
      CopiesCount(hashes[..n], h);
      assert hashes[n] in hashes;
      assert multiset(hashes) == multiset(hashes[..n]) + multiset{hashes[n]};
    }
  }

  /** A file of c copies of a chunk, committed and deleted, leaves c - 1 references to nothing. */
  lemma {:induction false} RepeatedChunkLeavesReferences(w: WorkerId, h: Hash, hashes: seq<Hash>, user: int, name: string, size: int)
      returns (tr: seq<State>, steps: seq<Step>)
    requires Copies(hashes, h)
    ensures IsRun(tr, steps)
    ensures Last(tr).files == [] && Occurrences(Last(tr).files, h) == 0
    ensures RefOf(Last(tr).chunks, h) == |hashes| - 1
  {
    tr, steps := TransferredRun(w, h, hashes);
    CopiesCount(hashes, h);
    assert hashes[0] in hashes;
    var committed := AfterCommit(Last(tr), 0, user, name, size, true);
    tr, steps := Extend(tr, steps, Commit(0, user, name, size, true), committed);
    assert committed.files == [FileRow(user, name, size, hashes)] && committed.chunks[h].refCount == |hashes|;
    tr, steps := Extend(tr, steps, Delete(user, name, 0), AfterDelete(committed, user, name, 0));
    OnlyRowIsRemoved(committed.files[0], user, name);
  }

  lemma OnlyRowIsRemoved(f: FileRow, user: int, name: string)
    requires Matches(f, user, name)
    ensures Without([f], user, name) == []
  {
    assert [f][..0] == [];
  }

  /** The second init of a session whose commit went through without an answer finds nothing missing. */
  lemma {:induction false} RetryAfterLostAnswer(s: State, h: Hash) returns (s': State)
    requires 0 in s.sessions && s.sessions[0].hashes == [h] && s.sessions[0].lease == Some(Lease(0, 0)) && s.sessions[0].run.None?
    requires s.now == 0 && h in s.chunks && s.chunks[h].refCount == 1
    ensures Next(s, Init(0, 0, map[]), s') && s'.files == s.files && s'.now == 0
    ensures h in s'.chunks && s'.chunks[h].refCount == 1 && MayCommit(s', 0) && s'.sessions[0].hashes == [h]
  {
    InitSucceedsIff(s.chunks, s.workers, map[], [h]);
    s' := AfterInit(s, 0, map[]);
    assert s'.sessions[0].run.value.pending == map[];
  }

  lemma {:induction false} CommitOne(s: State, h: Hash, user: int, name: string, size: int, answered: bool) returns (s': State)
    requires MayCommit(s, 0) && s.sessions[0].hashes == [h] && h in s.chunks && s.chunks[h].refCount >= 0
    ensures Next(s, Commit(0, user, name, size, answered), s')
    ensures s'.files == s.files + [FileRow(user, name, size, [h])] && h in s'.chunks && s'.chunks[h].refCount == s.chunks[h].refCount + 1
    ensures s'.now == s.now && (!answered ==> 0 in s'.sessions && s'.sessions[0] == s.sessions[0].(run := None))
  {
    s' := AfterCommit(s, 0, user, name, size, answered);
    CopiesCount([h], h);
  }

  /** A run that commits the same file twice, because the first commit went unanswered. */
  lemma {:induction false} TwiceCommittedRun(w: WorkerId, h: Hash, user: int, name: string, size: int)
      returns (tr: seq<State>, steps: seq<Step>)
    ensures IsPath(tr, steps) && tr[0] == Start()
    ensures var f := FileRow(user, name, size, [h]);
            Last(tr).files == [f] + [f] && h in Last(tr).chunks && Last(tr).chunks[h].refCount == 2
  {
    tr, steps := OnceCommittedRun(w, h, user, name, size);
    var s := RetryAfterLostAnswer(Last(tr), h);
    tr, steps := Extend(tr, steps, Init(0, 0, map[]), s);
    s := CommitOne(s, h, user, name, size, true);
    tr, steps := Extend(tr, steps, Commit(0, user, name, size, true), s);
  }

  lemma {:induction false} OnceCommittedRun(w: WorkerId, h: Hash, user: int, name: string, size: int)
      returns (tr: seq<State>, steps: seq<Step>)
    ensures IsPath(tr, steps) && tr[0] == Start()
    ensures var s := Last(tr);
            && s.files == [FileRow(user, name, size, [h])] && h in s.chunks && s.chunks[h].refCount == 1 && s.now == 0
            && 0 in s.sessions && s.sessions[0].hashes == [h] && s.sessions[0].lease == Some(Lease(0, 0)) && s.sessions[0].run.None?
  {
    tr, steps := TransferredRun(w, h, [h]);
    var s := CommitOne(Last(tr), h, user, name, size, false);
    tr, steps := Extend(tr, steps, Commit(0, user, name, size, false), s);
  }

  /** Two rows of one name, from one upload whose first commit went unanswered: deleting the name leaves a reference to nothing. */
  lemma {:induction false} RepeatedNameLeavesReference(w: WorkerId, h: Hash, user: int, name: string, size: int)
      returns (tr: seq<State>, steps: seq<Step>)
    ensures IsRun(tr, steps)
    ensures Last(tr).files == [] && Occurrences(Last(tr).files, h) == 0
    ensures RefOf(Last(tr).chunks, h) == 1
  {
    tr, steps := TwiceCommittedRun(w, h, user, name, size);
    var s, f := Last(tr), FileRow(user, name, size, [h]);
    tr, steps := Extend(tr, steps, Delete(user, name, 0), AfterDelete(s, user, name, 0));
    OnlyRowIsRemoved(f, user, name);
    assert ([f] + [f])[..1] == [f];
  }

  // ---------------------------------------------------------------- how late a resume may be

  /** At the end of a run, a resume within the allowance that the client accepts, and a hash of it whose row is gone or a tombstone. */
  ghost predicate ResumeHazard(tr: seq<State>, steps: seq<Step>, sid: SessionId, elapsed: int, allowance: int, h: Hash) {
    && IsRun(tr, steps) && sid in Last(tr).sessions && Last(tr).sessions[sid].lease.Some?
    && MayInitWithin(Last(tr).sessions[sid], elapsed, Last(tr).now, allowance)
    && h in Last(tr).sessions[sid].hashes
    && !RowLeased(Last(tr).chunks, h, Last(tr).sessions[sid].lease.value.last)
  }

  ghost predicate SafeAllowance(allowance: int) {
    forall tr, steps, sid, elapsed, h :: !ResumeHazard(tr, steps, sid, elapsed, allowance, h)
  }

  lemma {:induction false} SmallAllowanceIsSafe(allowance: int)
    requires allowance <= SLACK
    ensures SafeAllowance(allowance)
  {
    forall tr, steps, sid, elapsed, h
      ensures !ResumeHazard(tr, steps, sid, elapsed, allowance, h)
    {
      if ResumeHazard(tr, steps, sid, elapsed, allowance, h) {
        var n := |tr| - 1;
        ResumeFindsEveryRow(tr, steps, n, n, sid, elapsed, allowance, n, h);
        assert false;
      }
    }
  }

  /** A session is stopped and forgotten for just over a day; meanwhile its row expires and is purged. */
  lemma {:induction false} ForgottenRun(w: WorkerId, h: Hash) returns (tr: seq<State>, steps: seq<Step>)
    ensures IsRun(tr, steps) && Last(tr).now == LEASE + 1 && h !in Last(tr).chunks
    ensures 0 in Last(tr).sessions && Last(tr).sessions[0].hashes == [h]
    ensures Last(tr).sessions[0].lease == Some(Lease(0, 0)) && Last(tr).sessions[0].run.None?
  {
    tr, steps := TransferredRun(w, h, [h]);
    var s := Last(tr);
    var ses := s.sessions[0].(log := s.sessions[0].log + {}, run := None);
    tr, steps := Extend(tr, steps, Stop(0, {}), s.(sessions := s.sessions[0 := ses]));
    tr, steps := Extend(tr, steps, Tick(LEASE + 1), Last(tr).(now := Last(tr).now + (LEASE + 1)));
    var more, moreSteps := ExpiredRowCanGo(Last(tr), 0, h);
    tr, steps := Join(tr, steps, more, moreSteps);
  }

  /** The hour that the 23-hour rule leaves for skew and delay is exact: an allowance is safe on all runs if and only if it is at most 3600 s. */
  lemma {:induction false} SlackIsExact(allowance: int)
    ensures SafeAllowance(allowance) <==> allowance <= 3600
  {
    if allowance <= SLACK {
      SmallAllowanceIsSafe(allowance);
    } else {
      var h := Hash("");
      var tr, steps := ForgottenRun(WorkerId(1), h);
      assert ResumeHazard(tr, steps, 0, RESUME_LIMIT, allowance, h);
    }
  }

  // ---------------------------------------------------------------- how late a commit may be

  /** A live file has a chunk without a referenced row. */
  ghost predicate LosesChunk(s: State, h: Hash) {
    IsLive(s, h) && (h !in s.chunks || s.chunks[h].refCount < 1)
  }

  /** At the end of a run, a commit of a finished transfer within the delay, which loses a chunk. */
  ghost predicate CommitHazard(tr: seq<State>, steps: seq<Step>, sid: SessionId, user: int, name: string, size: int, answered: bool, delay: int, h: Hash) {
    && IsRun(tr, steps) && MayCommitWithin(Last(tr), sid, delay)
    && LosesChunk(AfterCommit(Last(tr), sid, user, name, size, answered), h)
  }

  ghost predicate SafeDelay(delay: int) {
    forall tr, steps, sid, user, name, size, answered, h :: !CommitHazard(tr, steps, sid, user, name, size, answered, delay, h)
  }

  lemma {:induction false} LedgerKeepsChunks(s: State, h: Hash)
    requires LedgerOk(s.files, s.chunks)
    ensures !LosesChunk(s, h)
  {
    if IsLive(s, h) {
      var k :| 0 <= k < |s.files| && h in s.files[k].chunks;
      DeletedRows(s.files, s.chunks, k);
    }
  }

  lemma {:induction false} TimelyCommitIsSafe(tr: seq<State>, steps: seq<Step>, sid: SessionId, user: int, name: string, size: int, answered: bool, h: Hash)
    requires IsRun(tr, steps) && MayCommit(Last(tr), sid)
    ensures !LosesChunk(AfterCommit(Last(tr), sid, user, name, size, answered), h)
  {
    var s, e := Last(tr), AfterCommit(Last(tr), sid, user, name, size, answered);
    RunInv(false, tr, steps, |tr| - 1);
    StepLedger(false, s, Commit(sid, user, name, size, answered), e);
    LedgerKeepsChunks(e, h);
  }

  lemma {:induction false} ShortDelayIsSafe(delay: int)
    requires delay <= LEASE
    ensures SafeDelay(delay)
  {
    forall tr, steps, sid, user, name, size, answered, h
      ensures !CommitHazard(tr, steps, sid, user, name, size, answered, delay, h)
    {
      if IsRun(tr, steps) && MayCommitWithin(Last(tr), sid, delay) {
        TimelyCommitIsSafe(tr, steps, sid, user, name, size, answered, h);
      }
    }
  }

  /** A fully acknowledged session waits just over a day with its commit; meanwhile its row expires and is purged. */
  lemma {:induction false} LateCommitRun(w: WorkerId, h: Hash) returns (tr: seq<State>, steps: seq<Step>)
    ensures IsRun(tr, steps) && h !in Last(tr).chunks
    ensures MayCommitWithin(Last(tr), 0, LEASE + 1) && Last(tr).sessions[0].hashes == [h]
  {
    tr, steps := TransferredRun(w, h, [h]);
    tr, steps := Extend(tr, steps, Tick(LEASE + 1), Last(tr).(now := Last(tr).now + (LEASE + 1)));
    var more, moreSteps := ExpiredRowCanGo(Last(tr), 0, h);
    tr, steps := Join(tr, steps, more, moreSteps);
  }

  /** The 24 hours a commit may take after its init are exact: a delay is safe on all runs if and only if it is at most 86400 s. */
  lemma {:induction false} CommitDelayIsExact(delay: int)
    ensures SafeDelay(delay) <==> delay <= 86400
  {
    if delay <= LEASE {
      ShortDelayIsSafe(delay);
    } else {
      var h := Hash("");
      var tr, steps := LateCommitRun(WorkerId(1), h);
      var e := AfterCommit(Last(tr), 0, 0, "", 0, true);
      assert e.files[|e.files| - 1].chunks == [h];
      assert h in e.files[|e.files| - 1].chunks;
      assert LosesChunk(e, h);
      assert CommitHazard(tr, steps, 0, 0, "", 0, true, delay, h);
    }
  }

  /** Whenever it comes, a commit keeps the ledger if and only if each hash of the session has a row that is no tombstone. */
  lemma {:induction false} CommitKeepsLedgerIff(s: State, sid: SessionId, user: int, name: string, size: int, answered: bool)
    requires LedgerOk(s.files, s.chunks) && sid in s.sessions
    ensures var e := AfterCommit(s, sid, user, name, size, answered);
            LedgerOk(e.files, e.chunks) <==> forall h :: h in s.sessions[sid].hashes ==> h in s.chunks && s.chunks[h].refCount >= 0
  {
    var hashes := s.sessions[sid].hashes;
    var e := AfterCommit(s, sid, user, name, size, answered);
    forall h
      ensures Occurrences(e.files, h) == Occurrences(s.files, h) + multiset(hashes)[h]
      ensures h in hashes <==> multiset(hashes)[h] > 0
    {
      OccurrencesAppend(s.files, FileRow(user, name, size, hashes), h);
    }
    forall h | h in hashes && (h !in s.chunks || s.chunks[h].refCount < 0)
      ensures Occurrences(e.files, h) > RefOf(e.chunks, h)
    {
    }
  }
}
