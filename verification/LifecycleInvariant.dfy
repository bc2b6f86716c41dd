/** The inductive invariant of the chunk lifecycle, and its preservation by every step. */
module LifecycleInvariant {
  import opened Basics
  import opened ChunkTable
  import opened Lifecycle

  // ---------------------------------------------------------------- the invariant

  /** References a row stands for: a tombstone or an absent row stands for none. */
  ghost function RefOf(t: Table, h: Hash): nat {
    if h in t && t[h].refCount >= 0 then t[h].refCount else 0
  }

  /** The count never falls below the occurrences over the live files. */
  ghost predicate LedgerOk(files: seq<FileRow>, t: Table) {
    && (forall h :: h in t ==> t[h].refCount >= TOMBSTONE)
    && (forall h :: Occurrences(files, h) <= RefOf(t, h))
  }

  ghost predicate PlacementOk(workers: set<WorkerId>, t: Table) {
    forall h :: h in t ==> t[h].nodes != {} && t[h].nodes <= workers
  }

  ghost predicate ClockOk(now: int, t: Table) {
    forall h :: h in t ==> t[h].createdAt <= now
  }

  ghost predicate DaemonOk(t: Table, d: Daemon) {
    && (forall h :: h in Held(d) ==> Locked(t, h))
    && (d.Purging? ==> forall h :: h in d.batch ==> h in t && d.batch[h] == t[h].nodes)
  }

  /** Every tombstone has one owner: a daemon that holds it, or the list of leaked ones. */
  ghost predicate OwnershipOk(t: Table, daemons: map<DaemonId, Daemon>, leaked: set<Hash>) {
    && (forall d :: d in daemons ==> DaemonOk(t, daemons[d]) && Held(daemons[d]) !! leaked)
    && (forall d, e :: d in daemons && e in daemons && d != e ==> Held(daemons[d]) !! Held(daemons[e]))
    && (forall h :: h in leaked ==> Locked(t, h))
    && (forall h :: Locked(t, h) ==> h in leaked || exists d :: d in daemons && h in Held(daemons[d]))
  }

  /** On some replica, or (when `full`) on all of them. */
  ghost predicate Replicated(full: bool, nodes: set<WorkerId>, h: Hash, stored: set<(WorkerId, Hash)>) {
    if full then forall w :: w in nodes ==> (w, h) in stored
    else exists w :: w in nodes && (w, h) in stored
  }

  ghost predicate ReplicasOk(full: bool, t: Table, stored: set<(WorkerId, Hash)>) {
    forall h :: h in t && t[h].refCount > 0 ==> Replicated(full, t[h].nodes, h, stored)
  }

  ghost predicate Leased(ses: Session, now: int) {
    ses.lease.Some? && now <= ses.lease.value.last + LEASE
  }

  /** Within the lease a session's chunk has a row that is no tombstone and was stamped by the session's init or later. */
  ghost predicate RowLeased(t: Table, h: Hash, since: int) {
    h in t && t[h].refCount >= 0 && t[h].createdAt >= since
  }

  ghost predicate SessionShape(full: bool, ses: Session, now: int) {
    && (ses.lease.None? ==> ses.log == {} && ses.run.None?)
    && (ses.lease.Some? ==> ses.lease.value.first <= ses.lease.value.last <= now)
    && (forall i :: i in ses.log ==> i < |ses.hashes|)
    && (ses.run.Some? ==> forall i :: i in ses.run.value.pending ==> i < |ses.hashes|)
    && (ses.run.Some? ==> forall a :: a in ses.run.value.acks ==> a.0 in ses.run.value.pending && a.1 in ses.run.value.pending[a.0])
  }

  ghost predicate IndexOk(full: bool, t: Table, stored: set<(WorkerId, Hash)>, run: Run, i: nat, h: Hash) {
    h in t &&
    if i in run.pending then
      run.pending[i] == t[h].nodes && forall w :: (i, w) in run.acks ==> (w, h) in stored
    else Replicated(full, t[h].nodes, h, stored)
  }

  ghost predicate SessionLive(full: bool, ses: Session, t: Table, stored: set<(WorkerId, Hash)>)
    requires ses.lease.Some?
  {
    && (forall i :: 0 <= i < |ses.hashes| ==> RowLeased(t, ses.hashes[i], ses.lease.value.last))
    && (forall i :: i in ses.log && 0 <= i < |ses.hashes| ==> ses.hashes[i] in t && Replicated(false, t[ses.hashes[i]].nodes, ses.hashes[i], stored))
    && (ses.run.Some? ==> forall i :: 0 <= i < |ses.hashes| ==> IndexOk(full, t, stored, ses.run.value, i, ses.hashes[i]))
  }

  ghost predicate SessionOk(full: bool, now: int, t: Table, stored: set<(WorkerId, Hash)>, ses: Session) {
    SessionShape(full, ses, now) && (Leased(ses, now) ==> SessionLive(full, ses, t, stored))
  }

  ghost predicate SessionsOk(full: bool, now: int, t: Table, stored: set<(WorkerId, Hash)>, sessions: map<SessionId, Session>) {
    forall sid :: sid in sessions ==> SessionOk(full, now, t, stored, sessions[sid])
  }

  ghost predicate Inv(full: bool, s: State) {
    && LedgerOk(s.files, s.chunks)
    && PlacementOk(s.workers, s.chunks)
    && ClockOk(s.now, s.chunks)
    && OwnershipOk(s.chunks, s.daemons, s.leaked)
    && ReplicasOk(full, s.chunks, s.stored)
    && SessionsOk(full, s.now, s.chunks, s.stored, s.sessions)
  }

  // ---------------------------------------------------------------- frames

  /** Rows a lease can rest on. */
  ghost predicate Live(t: Table, h: Hash, now: int) {
    h in t && t[h].refCount >= 0 && t[h].createdAt + LEASE >= now
  }

  /** What every transaction leaves of the rows that a lease can rest on. */
  ghost predicate KeepsLive(now: int, t: Table, t': Table) {
    forall h :: Live(t, h, now) ==>
      h in t' && t'[h].nodes == t[h].nodes && t'[h].refCount >= 0 && t'[h].createdAt >= t[h].createdAt
  }

  /** Disks only lose chunks whose rows are tombstones. */
  ghost predicate KeepsStored(t: Table, stored: set<(WorkerId, Hash)>, stored': set<(WorkerId, Hash)>) {
    forall w, h :: (w, h) in stored && h in t && t[h].refCount >= 0 ==> (w, h) in stored'
  }

  lemma ReplicatedFrame(full: bool, t: Table, h: Hash, stored: set<(WorkerId, Hash)>, stored': set<(WorkerId, Hash)>)
    requires h in t && t[h].refCount >= 0
    requires KeepsStored(t, stored, stored') && Replicated(full, t[h].nodes, h, stored)
    ensures Replicated(full, t[h].nodes, h, stored')
  {
    if !full {
      var w :| w in t[h].nodes && (w, h) in stored;
      assert (w, h) in stored';
    }
  }

  lemma SessionFrame(full: bool, now: int, now': int, t: Table, t': Table, stored: set<(WorkerId, Hash)>, stored': set<(WorkerId, Hash)>, ses: Session)
    requires SessionOk(full, now, t, stored, ses) && now <= now'
    requires KeepsLive(now, t, t') && KeepsStored(t, stored, stored')
    ensures SessionOk(full, now', t', stored', ses)
  {
    if Leased(ses, now') {
      assert SessionLive(full, ses, t, stored);
      forall i | 0 <= i < |ses.hashes|
        ensures RowLeased(t', ses.hashes[i], ses.lease.value.last) && t'[ses.hashes[i]].nodes == t[ses.hashes[i]].nodes
        ensures ses.run.Some? ==> IndexOk(full, t', stored', ses.run.value, i, ses.hashes[i])
      {
        assert RowLeased(t, ses.hashes[i], ses.lease.value.last);
        assert Live(t, ses.hashes[i], now);
        if ses.run.Some? {
          assert IndexOk(full, t, stored, ses.run.value, i, ses.hashes[i]);
          if i !in ses.run.value.pending {
            ReplicatedFrame(full, t, ses.hashes[i], stored, stored');
          }
        }
      }
      forall i | i in ses.log && 0 <= i < |ses.hashes|
        ensures Replicated(false, t'[ses.hashes[i]].nodes, ses.hashes[i], stored')
      {
        assert RowLeased(t, ses.hashes[i], ses.lease.value.last);
        ReplicatedFrame(false, t, ses.hashes[i], stored, stored');
      }
    }
  }

  lemma SessionsFrame(full: bool, s: State, s': State)
    requires SessionsOk(full, s.now, s.chunks, s.stored, s.sessions) && s.now <= s'.now
    requires KeepsLive(s.now, s.chunks, s'.chunks) && KeepsStored(s.chunks, s.stored, s'.stored)
    ensures SessionsOk(full, s'.now, s'.chunks, s'.stored, s.sessions)
  {
    forall sid | sid in s.sessions
      ensures SessionOk(full, s'.now, s'.chunks, s'.stored, s.sessions[sid])
    {
      SessionFrame(full, s.now, s'.now, s.chunks, s'.chunks, s.stored, s'.stored, s.sessions[sid]);
    }
  }

  // ---------------------------------------------------------------- effect on the chunk table

  /** What a step does to the chunk table, and when. */
  ghost predicate ChunkEffect(s: State, step: Step, t': Table) {
    match step
    case Init(sid, _, route) =>
      && sid in s.sessions && t' == Refreshed(s.chunks, route, s.sessions[sid].hashes, s.now)
      && RouteValid(s, route) && FirstError(s.chunks, s.workers, route, s.sessions[sid].hashes).None?
    case Commit(sid, _, _, _, _) => MayCommit(s, sid) && t' == Committed(s.chunks, s.sessions[sid].hashes, s.now)
    case Delete(_, _, pick) => pick < |s.files| && t' == Dereferenced(s.chunks, s.files[pick].chunks)
    case Collect(_, batch) => (forall h :: h in batch ==> Expired(s.chunks, h, s.now)) && t' == Tombstoned(s.chunks, batch)
    case Bulk(d, dbOk) => exists purged :: t' == Purged(s.chunks, purged)
    case Revert(d, hash, dbOk) => t' == Reverted(s.chunks, hash, s.now) || t' == s.chunks
    case _ => t' == s.chunks
  }

  lemma {:induction false} StepChunkEffect(s: State, step: Step, s': State)
    requires Next(s, step, s')
    ensures ChunkEffect(s, step, s'.chunks)
    ensures s.now <= s'.now && (!step.Tick? ==> s'.now == s.now) && s.workers <= s'.workers
  {
    if step.Bulk? {
      assert s'.chunks == Purged(s.chunks, if step.dbOk then PurgedOf(s.daemons[step.d]) else {});
    }
  }

  // ---------------------------------------------------------------- leases are respected by every step

  /** A session in its lease holds rows, none of them a tombstone. */
  lemma LeasedRows(full: bool, s: State, sid: SessionId)
    requires Inv(full, s) && sid in s.sessions && Leased(s.sessions[sid], s.now)
    ensures forall h :: h in s.sessions[sid].hashes ==> RowLeased(s.chunks, h, s.sessions[sid].lease.value.last)
  {
    var ses := s.sessions[sid];
    assert SessionOk(full, s.now, s.chunks, s.stored, ses);
    forall h | h in ses.hashes
      ensures RowLeased(s.chunks, h, ses.lease.value.last)
    {
      var i :| 0 <= i < |ses.hashes| && ses.hashes[i] == h;
    }
  }

  /** Every chunk a delete dereferences has at least one reference. */
  lemma DeletedRows(files: seq<FileRow>, t: Table, pick: nat)
    requires LedgerOk(files, t) && pick < |files|
    ensures forall h :: h in files[pick].chunks ==> h in t && t[h].refCount >= 1
  {
    forall h | h in files[pick].chunks
      ensures h in t && t[h].refCount >= 1
    {
      assert multiset(files[pick].chunks)[h] >= 1;
      MemberOccurs(files, pick, h);
      assert Occurrences(files, h) <= RefOf(t, h);
    }
  }

  lemma {:induction false} EffectKeepsLive(full: bool, s: State, step: Step, t': Table)
    requires Inv(full, s) && ChunkEffect(s, step, t')
    ensures KeepsLive(s.now, s.chunks, t')
  {
    if step.Delete? {
      DeletedRows(s.files, s.chunks, step.pick);
    }
  }

  lemma {:induction false} StepKeepsLive(full: bool, s: State, step: Step, s': State)
    requires Inv(full, s) && Next(s, step, s')
    ensures s.now <= s'.now && KeepsLive(s.now, s.chunks, s'.chunks)
  {
    StepChunkEffect(s, step, s');
    EffectKeepsLive(full, s, step, s'.chunks);
  }

  /** Only a worker's DELETE takes bytes off a disk, and only those it names. */
  lemma {:induction false} StoredEffect(s: State, step: Step, s': State)
    requires Next(s, step, s')
    ensures if step.WorkerDelete? then s.stored - {(step.worker, step.hash)} <= s'.stored else s.stored <= s'.stored
  {
  }

  lemma {:induction false} DeletedIsTombstone(s: State, step: Step, s': State)
    requires OwnershipOk(s.chunks, s.daemons, s.leaked) && Next(s, step, s') && step.WorkerDelete?
    ensures Locked(s.chunks, step.hash)
  {
    assert DaemonOk(s.chunks, s.daemons[step.d]);
    assert step.hash in Held(s.daemons[step.d]);
  }

  lemma StepKeepsStored(full: bool, s: State, step: Step, s': State)
    requires Inv(full, s) && Next(s, step, s')
    ensures KeepsStored(s.chunks, s.stored, s'.stored)
  {
    StoredEffect(s, step, s');
    if step.WorkerDelete? {
      DeletedIsTombstone(s, step, s');
    }
  }

  // ---------------------------------------------------------------- ledger

  /** Occurrences a step removes from the files without taking a reference back. */
  ghost function SlackOf(s: State, step: Step, h: Hash): int {
    if step.Delete? && step.pick < |s.files| then
      Occurrences(Matching(s.files, step.user, step.name), h) - (if h in s.files[step.pick].chunks then 1 else 0)
    else 0
  }

  ghost function Surplus(s: State, h: Hash): int {
    RefOf(s.chunks, h) - Occurrences(s.files, h)
  }

  lemma CommitSurplus(full: bool, s: State, sid: SessionId, user: int, name: string, size: int, answered: bool, h: Hash)
    requires Inv(full, s) && MayCommit(s, sid)
    ensures Surplus(AfterCommit(s, sid, user, name, size, answered), h) == Surplus(s, h)
  {
    var ses := s.sessions[sid];
    LeasedRows(full, s, sid);
    OccurrencesAppend(s.files, FileRow(user, name, size, ses.hashes), h);
    if h in ses.hashes {
      assert RowLeased(s.chunks, h, ses.lease.value.last);
    } else {
      assert multiset(ses.hashes)[h] == 0;
    }
  }

  /** What a delete takes back, against the occurrences it removes. */
  lemma DeleteLedger(files: seq<FileRow>, t: Table, user: int, name: string, pick: nat, h: Hash)
    requires LedgerOk(files, t) && pick < |files| && Matches(files[pick], user, name)
    ensures RefOf(Dereferenced(t, files[pick].chunks), h) == RefOf(t, h) - (if h in files[pick].chunks then 1 else 0)
    ensures (if h in files[pick].chunks then 1 else 0) <= Occurrences(Matching(files, user, name), h)
  {
    DeletedRows(files, t, pick);
    PickedOccurs(files, user, name, pick, h);
    if h in files[pick].chunks {
      assert multiset(files[pick].chunks)[h] >= 1;
    }
  }

  lemma {:induction false} DeleteSurplus(s: State, user: int, name: string, pick: nat, h: Hash)
    requires LedgerOk(s.files, s.chunks) && pick < |s.files| && Matches(s.files[pick], user, name)
    ensures SlackOf(s, Delete(user, name, pick), h) >= 0
    ensures Surplus(AfterDelete(s, user, name, pick), h) == Surplus(s, h) + SlackOf(s, Delete(user, name, pick), h)
  {
    var files, t, taken := s.files, s.chunks, if h in s.files[pick].chunks then 1 else 0;
    DeleteLedger(files, t, user, name, pick, h);
    OccurrencesSplit(files, user, name, h);
    var s' := AfterDelete(s, user, name, pick);
    assert s'.files == Without(files, user, name) && s'.chunks == Dereferenced(t, files[pick].chunks);
    assert Surplus(s', h) == RefOf(s'.chunks, h) - Occurrences(s'.files, h);
    assert Surplus(s, h) == RefOf(t, h) - Occurrences(files, h);
    assert SlackOf(s, Delete(user, name, pick), h) == Occurrences(Matching(files, user, name), h) - taken;
  }

  /** Only a commit and a delete change what a row stands for, or the files. */
  lemma {:induction false} EffectKeepsCounts(s: State, step: Step, t': Table, h: Hash)
    requires ChunkEffect(s, step, t') && !step.Commit? && !step.Delete?
    ensures RefOf(t', h) == RefOf(s.chunks, h)
  {
  }

  lemma {:induction false} FilesEffect(s: State, step: Step, s': State)
    requires Next(s, step, s') && !step.Commit? && !step.Delete?
    ensures s'.files == s.files
  {
  }

  /** The exact ledger of one step: only a delete changes the surplus, by what it fails to take back. */
  lemma StepSurplus(full: bool, s: State, step: Step, s': State, h: Hash)
    requires Inv(full, s) && Next(s, step, s')
    ensures SlackOf(s, step, h) >= 0
    ensures Surplus(s', h) == Surplus(s, h) + SlackOf(s, step, h)
  {
    if step.Commit? {
      CommitSurplus(full, s, step.sid, step.user, step.name, step.size, step.answered, h);
    } else if step.Delete? {
      DeleteSurplus(s, step.user, step.name, step.pick, h);
    } else {
      StepChunkEffect(s, step, s');
      EffectKeepsCounts(s, step, s'.chunks, h);
      FilesEffect(s, step, s');
    }
  }

  lemma {:induction false} EffectBounds(s: State, step: Step, t': Table)
    requires LedgerOk(s.files, s.chunks) && ChunkEffect(s, step, t')
    ensures forall h :: h in t' ==> t'[h].refCount >= TOMBSTONE
  {
    if step.Delete? {
      DeletedRows(s.files, s.chunks, step.pick);
    }
  }

  lemma StepLedger(full: bool, s: State, step: Step, s': State)
    requires Inv(full, s) && Next(s, step, s')
    ensures LedgerOk(s'.files, s'.chunks)
  {
    forall h
      ensures Occurrences(s'.files, h) <= RefOf(s'.chunks, h)
    {
      StepSurplus(full, s, step, s', h);
      assert Occurrences(s.files, h) <= RefOf(s.chunks, h);
    }
    StepChunkEffect(s, step, s');
    EffectBounds(s, step, s'.chunks);
  }

  // ---------------------------------------------------------------- placement

  lemma {:induction false} EffectPlacement(full: bool, s: State, step: Step, t': Table)
    requires Inv(full, s) && ChunkEffect(s, step, t')
    ensures PlacementOk(s.workers, t')
  {
    if step.Init? {
      var hashes := s.sessions[step.sid].hashes;
      InitSucceedsIff(s.chunks, s.workers, step.route, hashes);
      forall h | h in t'
        ensures t'[h].nodes != {} && t'[h].nodes <= s.workers
      {
        if h !in s.chunks {
          assert h in hashes;
          assert !Unroutable(s.chunks, s.workers, step.route, h);
        }
      }
    }
  }

  lemma {:induction false} StepPlacement(full: bool, s: State, step: Step, s': State)
    requires Inv(full, s) && Next(s, step, s')
    ensures PlacementOk(s'.workers, s'.chunks)
  {
    StepChunkEffect(s, step, s');
    EffectPlacement(full, s, step, s'.chunks);
  }

  lemma {:induction false} StepClock(full: bool, s: State, step: Step, s': State)
    requires Inv(full, s) && Next(s, step, s')
    ensures ClockOk(s'.now, s'.chunks)
  {
    StepChunkEffect(s, step, s');
    EffectClock(s, step, s'.chunks);
  }

  lemma {:induction false} EffectClock(s: State, step: Step, t': Table)
    requires ClockOk(s.now, s.chunks) && ChunkEffect(s, step, t')
    ensures ClockOk(s.now, t')
  {
  }

  // ---------------------------------------------------------------- ownership of tombstones

  /** Transactions other than the collector's own leave every tombstone, and make no new one. */
  ghost predicate SameTombstones(t: Table, t': Table) {
    && (forall h :: Locked(t, h) ==> h in t' && t'[h] == t[h])
    && (forall h :: Locked(t', h) ==> Locked(t, h))
  }

  lemma {:induction false} EffectSameTombstones(full: bool, s: State, step: Step, t': Table)
    requires Inv(full, s) && ChunkEffect(s, step, t')
    requires !step.Collect? && !step.Bulk? && !step.Revert?
    ensures SameTombstones(s.chunks, t')
  {
    if step.Init? {
      InitSucceedsIff(s.chunks, s.workers, step.route, s.sessions[step.sid].hashes);
    } else if step.Commit? {
      var hashes := s.sessions[step.sid].hashes;
      LeasedRows(full, s, step.sid);
      forall h | h in hashes
        ensures h in t' && t'[h].refCount >= 1 && !Locked(s.chunks, h)
      {
        assert RowLeased(s.chunks, h, s.sessions[step.sid].lease.value.last);
        assert multiset(hashes)[h] >= 1;
      }
    } else if step.Delete? {
      DeletedRows(s.files, s.chunks, step.pick);
    }
  }

  lemma {:induction false} StepSameTombstones(full: bool, s: State, step: Step, s': State)
    requires Inv(full, s) && Next(s, step, s')
    requires !step.Collect? && !step.Bulk? && !step.Revert?
    ensures SameTombstones(s.chunks, s'.chunks)
  {
    StepChunkEffect(s, step, s');
    EffectSameTombstones(full, s, step, s'.chunks);
  }

  lemma OwnershipFrame(t: Table, t': Table, daemons: map<DaemonId, Daemon>, leaked: set<Hash>)
    requires OwnershipOk(t, daemons, leaked) && SameTombstones(t, t')
    ensures OwnershipOk(t', daemons, leaked)
  {
    forall d | d in daemons
      ensures DaemonOk(t', daemons[d])
    {
      assert DaemonOk(t, daemons[d]);
    }
  }

  /** Handing tombstones from one daemon to another state of its own, or to the leaked ones. */
  lemma OwnershipUpdate(t: Table, t': Table, daemons: map<DaemonId, Daemon>, leaked: set<Hash>, d: DaemonId, dm: Daemon, leaked': set<Hash>)
    requires OwnershipOk(t, daemons, leaked) && d in daemons
    requires DaemonOk(t', dm)
    requires leaked <= leaked' && leaked' <= leaked + Held(daemons[d]) && Held(dm) !! leaked'
    requires forall h :: Locked(t, h) && h !in Held(daemons[d]) ==> h in t' && t'[h] == t[h] && h !in Held(dm)
    requires forall h :: h in leaked' - leaked ==> Locked(t', h)
    requires forall h :: Locked(t', h) ==> h in leaked' || h in Held(dm) || (Locked(t, h) && h !in Held(daemons[d]))
    ensures OwnershipOk(t', daemons[d := dm], leaked')
  {
    var daemons' := daemons[d := dm];
    forall e | e in daemons'
      ensures DaemonOk(t', daemons'[e]) && Held(daemons'[e]) !! leaked'
    {
      if e != d {
        assert DaemonOk(t, daemons[e]);
        assert Held(daemons[e]) !! Held(daemons[d]);
      }
    }
    forall e, f | e in daemons' && f in daemons' && e != f
      ensures Held(daemons'[e]) !! Held(daemons'[f])
    {
      if e != d { assert DaemonOk(t, daemons[e]) && Held(daemons[e]) !! Held(daemons[d]); }
      if f != d { assert DaemonOk(t, daemons[f]) && Held(daemons[f]) !! Held(daemons[d]); }
    }
    forall h | h in leaked'
      ensures Locked(t', h)
    {
      if h in leaked { assert h !in Held(daemons[d]); }
    }
    forall h | Locked(t', h) && h !in leaked'
      ensures exists e :: e in daemons' && h in Held(daemons'[e])
    {
      if h in Held(dm) {
        assert h in Held(daemons'[d]);
      } else {
        var e :| e in daemons && h in Held(daemons[e]);
        assert daemons'[e] == daemons[e];
      }
    }
  }

  /** The steps of a daemon's own transactions keep every tombstone owned. */
  lemma {:induction false} GcOwnership(s: State, step: Step, s': State)
    requires OwnershipOk(s.chunks, s.daemons, s.leaked) && Next(s, step, s') && (step.Collect? || step.Bulk? || step.Revert?)
    ensures OwnershipOk(s'.chunks, s'.daemons, s'.leaked)
  {
    assert DaemonOk(s.chunks, s.daemons[step.d]);
    OwnershipUpdate(s.chunks, s'.chunks, s.daemons, s.leaked, step.d, s'.daemons[step.d], s'.leaked);
  }

  lemma {:induction false} DaemonOwnership(s: State, step: Step, s': State)
    requires OwnershipOk(s.chunks, s.daemons, s.leaked) && Next(s, step, s')
    requires step.Rest? || step.Crash? || (step.WorkerDelete? && step.ok)
    ensures OwnershipOk(s'.chunks, s'.daemons, s'.leaked)
  {
    assert DaemonOk(s.chunks, s.daemons[step.d]);
    OwnershipUpdate(s.chunks, s'.chunks, s.daemons, s.leaked, step.d, s'.daemons[step.d], s'.leaked);
  }

  /** No other step touches the daemons. */
  lemma {:induction false} DaemonsEffect(s: State, step: Step, s': State)
    requires Next(s, step, s') && !step.Collect? && !step.Bulk? && !step.Revert?
    requires !step.Rest? && !step.Crash? && !(step.WorkerDelete? && step.ok)
    ensures s'.daemons == s.daemons && s'.leaked == s.leaked
  {
  }

  lemma {:induction false} StepOwnership(full: bool, s: State, step: Step, s': State)
    requires Inv(full, s) && Next(s, step, s')
    ensures OwnershipOk(s'.chunks, s'.daemons, s'.leaked)
  {
    if step.Collect? || step.Bulk? || step.Revert? {
      GcOwnership(s, step, s');
    } else if step.Rest? || step.Crash? || (step.WorkerDelete? && step.ok) {
      DaemonOwnership(s, step, s');
    } else {
      StepSameTombstones(full, s, step, s');
      DaemonsEffect(s, step, s');
      OwnershipFrame(s.chunks, s'.chunks, s.daemons, s.leaked);
    }
  }

  // ---------------------------------------------------------------- replicas

  /** At commit every chunk of the file is on a replica (on all of them, when no upload resumes). */
  lemma CommitReplicated(full: bool, s: State, sid: SessionId, h: Hash)
    requires Inv(full, s) && MayCommit(s, sid) && h in s.sessions[sid].hashes
    ensures h in s.chunks && Replicated(full, s.chunks[h].nodes, h, s.stored)
  {
    var ses := s.sessions[sid];
    assert SessionOk(full, s.now, s.chunks, s.stored, ses);
    var i :| 0 <= i < |ses.hashes| && ses.hashes[i] == h;
    assert IndexOk(full, s.chunks, s.stored, ses.run.value, i, h);
    if i in ses.run.value.pending {
      forall w | w in s.chunks[h].nodes
        ensures (w, h) in s.stored
      {
        assert (i, w) in ses.run.value.acks;
      }
      var w := Element(s.chunks[h].nodes);
      assert (w, h) in s.stored;
    }
  }

  /** A row with references was one before, on the same replicas, unless it is being committed. */
  lemma {:induction false} EffectReferenced(s: State, step: Step, t': Table, h: Hash)
    requires LedgerOk(s.files, s.chunks) && ChunkEffect(s, step, t') && h in t' && t'[h].refCount > 0
    requires step.Commit? ==> h !in s.sessions[step.sid].hashes
    ensures h in s.chunks && s.chunks[h].refCount > 0 && t'[h].nodes == s.chunks[h].nodes
  {
  }

  lemma StepReplicas(full: bool, s: State, step: Step, s': State)
    requires Inv(full, s) && Next(s, step, s')
    ensures ReplicasOk(full, s'.chunks, s'.stored)
  {
    StepKeepsStored(full, s, step, s');
    StepChunkEffect(s, step, s');
    forall h | h in s'.chunks && s'.chunks[h].refCount > 0
      ensures Replicated(full, s'.chunks[h].nodes, h, s'.stored)
    {
      if step.Commit? && h in s.sessions[step.sid].hashes {
        CommitStored(full, s, step, s', h);
      } else {
        EffectReferenced(s, step, s'.chunks, h);
        ReplicatedFrame(full, s.chunks, h, s.stored, s'.stored);
      }
    }
  }

  lemma {:induction false} CommitStored(full: bool, s: State, step: Step, s': State, h: Hash)
    requires Inv(full, s) && Next(s, step, s') && step.Commit? && h in s.sessions[step.sid].hashes
    ensures h in s'.chunks && Replicated(full, s'.chunks[h].nodes, h, s'.stored)
  {
    CommitReplicated(full, s, step.sid, h);
  }

  // ---------------------------------------------------------------- sessions

  /** The init of a session, first or resumed, leaves it leased with every index either pending or replicated. */
  lemma InitSession(full: bool, s: State, step: Step, s': State)
    requires Inv(full, s) && Next(s, step, s') && step.Init? && (full ==> !Resumes(s, step))
    ensures SessionOk(full, s'.now, s'.chunks, s'.stored, s'.sessions[step.sid])
  {
    var ses, ses' := s.sessions[step.sid], s'.sessions[step.sid];
    var run := ses'.run.value;
    assert SessionOk(full, s.now, s.chunks, s.stored, ses);
    InitSucceedsIff(s.chunks, s.workers, step.route, ses.hashes);
    assert ses.lease.Some? ==> Leased(ses, s.now);
    StepPlacement(full, s, step, s');
    forall i | 0 <= i < |ses.hashes|
      ensures RowLeased(s'.chunks, ses.hashes[i], s.now)
      ensures i in ses.log ==> Replicated(false, s'.chunks[ses.hashes[i]].nodes, ses.hashes[i], s.stored)
      ensures IndexOk(full, s'.chunks, s'.stored, run, i, ses.hashes[i])
    {
      var h := ses.hashes[i];
      assert !Locked(s.chunks, h);
      assert h in s.chunks ==> s.chunks[h].refCount >= TOMBSTONE;
      assert h in s'.chunks && s'.chunks[h].nodes == NodesFor(s.chunks, step.route, h);
      assert s'.chunks[h].nodes <= s.workers;
      assert s'.chunks[h].nodes * s.workers == s'.chunks[h].nodes;
    }
  }

  lemma SaveSession(full: bool, s: State, step: Step, s': State)
    requires Inv(full, s) && Next(s, step, s') && step.Save?
    ensures SessionOk(full, s'.now, s'.chunks, s'.stored, s'.sessions[step.sid])
  {
    var ses, ses' := s.sessions[step.sid], s'.sessions[step.sid];
    StepKeepsLive(full, s, step, s');
    SessionFrame(full, s.now, s'.now, s.chunks, s'.chunks, s.stored, s'.stored, ses);
    if Leased(ses', s'.now) {
      forall i | 0 <= i < |ses'.hashes|
        ensures IndexOk(full, s'.chunks, s'.stored, ses'.run.value, i, ses'.hashes[i])
      {
        assert IndexOk(full, s'.chunks, s'.stored, ses.run.value, i, ses.hashes[i]);
      }
    }
  }

  /** What a run may log really is on a replica. */
  lemma LogSession(full: bool, s: State, step: Step, s': State)
    requires Inv(full, s) && Next(s, step, s') && (step.Stop? || step.Flush?)
    ensures SessionOk(full, s'.now, s'.chunks, s'.stored, s'.sessions[step.sid])
  {
    var ses, ses' := s.sessions[step.sid], s'.sessions[step.sid];
    assert SessionOk(full, s.now, s.chunks, s.stored, ses);
    forall i | i in step.logged
      ensures i in ses.run.value.pending
    {
      var w :| (i, w) in ses.run.value.acks;
      assert (i, w).0 in ses.run.value.pending;
    }
    if Leased(ses', s'.now) {
      forall i | i in ses'.log && 0 <= i < |ses'.hashes|
        ensures ses'.hashes[i] in s.chunks && Replicated(false, s.chunks[ses'.hashes[i]].nodes, ses'.hashes[i], s.stored)
      {
        if i !in ses.log {
          var w :| (i, w) in ses.run.value.acks;
          assert (i, w).1 in ses.run.value.pending[i];
          assert IndexOk(full, s.chunks, s.stored, ses.run.value, i, ses.hashes[i]);
        }
      }
    }
  }

  /** The other steps leave a session as it is, end its run, or start a new one. */
  lemma {:induction false} SessionsEffect(s: State, step: Step, s': State, sid: SessionId)
    requires Next(s, step, s') && !step.Init? && !step.Save? && !step.Stop? && !step.Flush?
    requires sid in s'.sessions
    ensures if sid in s.sessions then s'.sessions[sid] == s.sessions[sid] || s'.sessions[sid] == s.sessions[sid].(run := None)
            else s'.sessions[sid].lease.None? && s'.sessions[sid].log == {} && s'.sessions[sid].run.None?
  {
  }

  lemma {:induction false} OtherSessions(full: bool, s: State, step: Step, s': State)
    requires Next(s, step, s') && !step.Init? && !step.Save? && !step.Stop? && !step.Flush?
    requires SessionsOk(full, s'.now, s'.chunks, s'.stored, s.sessions)
    ensures SessionsOk(full, s'.now, s'.chunks, s'.stored, s'.sessions)
  {
    forall sid | sid in s'.sessions
      ensures SessionOk(full, s'.now, s'.chunks, s'.stored, s'.sessions[sid])
    {
      SessionsEffect(s, step, s', sid);
      if sid in s.sessions {
        assert SessionOk(full, s'.now, s'.chunks, s'.stored, s.sessions[sid]);
      }
    }
  }

  lemma {:induction false} StepSessions(full: bool, s: State, step: Step, s': State)
    requires Inv(full, s) && Next(s, step, s') && (full ==> !Resumes(s, step))
    ensures SessionsOk(full, s'.now, s'.chunks, s'.stored, s'.sessions)
  {
    assert SessionsOk(full, s'.now, s'.chunks, s'.stored, s.sessions) by {
      StepKeepsLive(full, s, step, s');
      StepKeepsStored(full, s, step, s');
      SessionsFrame(full, s, s');
    }
    if step.Init? {
      InitSession(full, s, step, s');
    } else if step.Save? {
      SaveSession(full, s, step, s');
    } else if step.Stop? || step.Flush? {
      LogSession(full, s, step, s');
    } else {
      OtherSessions(full, s, step, s');
    }
  }

  // ---------------------------------------------------------------- induction

  lemma InitialInv(full: bool, s: State)
    requires Initial(s)
    ensures Inv(full, s)
  {
  }

  /** The invariant survives every step; its strong form survives every step that resumes no upload. */
  lemma StepInv(full: bool, s: State, step: Step, s': State)
    requires Inv(full, s) && Next(s, step, s') && (full ==> !Resumes(s, step))
    ensures Inv(full, s')
  {
    StepLedger(full, s, step, s');
    StepPlacement(full, s, step, s');
    StepClock(full, s, step, s');
    StepOwnership(full, s, step, s');
    StepReplicas(full, s, step, s');
    StepSessions(full, s, step, s');
  }

  lemma {:induction false} RunInv(full: bool, tr: seq<State>, steps: seq<Step>, n: nat)
    requires IsRun(tr, steps) && n < |tr|
    requires full ==> forall i :: 0 <= i < |steps| ==> !Resumes(tr[i], steps[i])
    ensures Inv(full, tr[n])
  {
    if n == 0 {
      InitialInv(full, tr[0]);
    } else {
      RunInv(full, tr, steps, n - 1);
      assert Takes(tr, steps, n - 1);
      StepInv(full, tr[n - 1], steps[n - 1], tr[n]);
    }
  }
}
