/** One sweep of the collector daemon against a database and clients that are otherwise quiet. */
module GcDaemon {
  import opened Basics
  import opened ChunkTable
  import opened Repository

  /** The workers' disks, as far as DELETE requests reach them. */
  class WorkerFleet {
    var stored: set<(WorkerId, Hash)>
    /** Workers that answer every request; any other may answer or not. */
    const up: set<WorkerId>

    constructor (up: set<WorkerId>)
      ensures stored == {} && this.up == up
    {
      stored, this.up := {}, up;
    }

    /** DELETE /chunk: a confirmation means the bytes are gone; without one they may be. */
    method Delete(w: WorkerId, h: Hash) returns (ok: bool)
      modifies this
      ensures stored == old(stored) || stored == old(stored) - {(w, h)}
      ensures ok ==> (w, h) !in stored
      ensures w in up ==> ok
    {
      var reached: bool, answered: bool := *, *;
      ok := w in up || (reached && answered);
      if ok || reached {
        stored := stored - {(w, h)};
      }
    }
  }

  // ---------------------------------------------------------------- parallel purge

  /** The disks lost nothing but chunks of the batch, on the workers listed for them. */
  ghost predicate LostOnly(orphans: seq<Orphan>, before: set<(WorkerId, Hash)>, after: set<(WorkerId, Hash)>) {
    && after <= before
    && forall w, h :: (w, h) in before && (w, h) !in after ==>
         exists i :: 0 <= i < |orphans| && orphans[i].hash == h && w in orphans[i].locations
  }

  /** Some orphan of that hash has no bytes left on any of its workers. */
  ghost predicate Cleared(orphans: seq<Orphan>, stored: set<(WorkerId, Hash)>, h: Hash) {
    exists i :: 0 <= i < |orphans| && orphans[i].hash == h && forall w :: w in orphans[i].locations ==> (w, h) !in stored
  }

  /** A task of the pool has requests left, runs, or has failed; one that fails has a worker that may be down. */
  ghost predicate PurgeState(orphans: seq<Orphan>, up: set<WorkerId>, before: set<(WorkerId, Hash)>, stored: set<(WorkerId, Hash)>,
                             running: set<nat>, pending: set<(nat, WorkerId)>, failed: set<nat>) {
    && running <= Indices(|orphans|)
    && (forall p :: p in pending ==> p.0 < |orphans| && p.1 in orphans[p.0].locations && (p.0 in running || p.0 in failed))
    && LostOnly(orphans, before, stored)
    && (forall i, w :: 0 <= i < |orphans| && w in orphans[i].locations && i !in failed ==> (i, w) in pending || (w, orphans[i].hash) !in stored)
    && (forall i :: 0 <= i < |orphans| && i in failed ==> !(orphans[i].locations <= up))
  }

  /** One request of one task. */
  method PurgeOne(fleet: WorkerFleet, orphans: seq<Orphan>, ghost before: set<(WorkerId, Hash)>, running: set<nat>,
                  pending: set<(nat, WorkerId)>, failed: set<nat>, p: (nat, WorkerId)) returns (failed': set<nat>)
    requires PurgeState(orphans, fleet.up, before, fleet.stored, running, pending, failed) && p in pending
    modifies fleet
    ensures PurgeState(orphans, fleet.up, before, fleet.stored, running, pending - {p}, failed')
  {
    var ok := fleet.Delete(p.1, orphans[p.0].hash);
    failed' := if ok then failed else failed + {p.0};
  }

  /** Tasks run in any interleaving; one that throws, as it may when a worker is down, counts as failed. */
  method PurgeOrphanBatchParallel(fleet: WorkerFleet, orphans: seq<Orphan>) returns (purged: set<Hash>)
    modifies fleet
    ensures LostOnly(orphans, old(fleet.stored), fleet.stored)
    ensures forall h :: h in purged ==> Cleared(orphans, fleet.stored, h)
    ensures forall i :: 0 <= i < |orphans| && orphans[i].locations <= fleet.up ==> orphans[i].hash in purged
  {
    var running: set<nat> := Indices(|orphans|);
    var pending: set<(nat, WorkerId)> := set i: nat, w | i in Indices(|orphans|) && w in orphans[i].locations :: (i, w);
    var failed: set<nat> := {};
    while running != {}
      invariant PurgeState(orphans, fleet.up, old(fleet.stored), fleet.stored, running, pending, failed)
      decreases |running|, |pending|
    {
      var t :| t in running;
      var threw: bool := *;
      if threw && !(orphans[t].locations <= fleet.up) {
        failed := failed + {t};
        running := running - {t};
      } else if p :| p in pending && p.0 == t {
        failed := PurgeOne(fleet, orphans, old(fleet.stored), running, pending, failed, p);
        pending := pending - {p};
      } else {
        running := running - {t};
      }
    }
    purged := set i | i in Indices(|orphans|) && i !in failed :: orphans[i].hash;
  }

  function Indices(n: nat): (r: set<nat>)
    ensures forall i: nat :: i in r <==> i < n
  {
    if n == 0 then {} else Indices(n - 1) + {n - 1}
  }

  // ---------------------------------------------------------------- one batch

  /** How a row taken into a batch ends: purged everywhere, given back, or left a tombstone by a failed revert. */
  ghost predicate Gone(t: Table, t': Table, workers: set<WorkerId>, stored: set<(WorkerId, Hash)>, h: Hash) {
    h !in t' && OffDisks(t, workers, stored, h)
  }

  ghost predicate OffDisks(t: Table, workers: set<WorkerId>, stored: set<(WorkerId, Hash)>, h: Hash) {
    h in t && forall w :: w in t[h].nodes * workers ==> (w, h) !in stored
  }

  ghost predicate GivenBack(t: Table, t': Table, h: Hash, now: int) {
    h in t && h in t' && t'[h] == t[h].(refCount := 0, createdAt := now)
  }

  ghost predicate LeftBehind(t: Table, t': Table, h: Hash) {
    h in t && h in t' && t'[h] == t[h].(refCount := TOMBSTONE)
  }

  ghost predicate Untouched(t: Table, t': Table, h: Hash) {
    (h in t <==> h in t') && (h in t ==> t'[h] == t[h])
  }

  /** What can be relied on: workers that answer every request, and whether the database answers every transaction. */
  datatype Health = Health(up: set<WorkerId>, dbUp: bool)

  /** With the database and all its workers answering, a row has to go. */
  ghost predicate MustGo(t: Table, workers: set<WorkerId>, h: Hash, health: Health) {
    h in t && health.dbUp && t[h].nodes * workers <= health.up
  }

  /** What may become of a row that was taken into a batch. */
  ghost predicate Settled(t: Table, t': Table, workers: set<WorkerId>, stored: set<(WorkerId, Hash)>, h: Hash, now: int, health: Health) {
    || Gone(t, t', workers, stored, h)
    || (GivenBack(t, t', h, now) && !MustGo(t, workers, h, health))
    || (LeftBehind(t, t', h) && !health.dbUp)
  }

  /** How every row fares while one batch is handled. */
  ghost predicate BatchSettled(t: Table, t': Table, workers: set<WorkerId>, stored: set<(WorkerId, Hash)>, batch: set<Hash>, now: int, health: Health) {
    && (forall h :: h !in batch ==> Untouched(t, t', h))
    && (forall h :: h in batch ==> Settled(t, t', workers, stored, h, now, health))
  }

  /** Reverts every orphan that was not removed. */
  method RevertRest(repo: PostgresRepository, orphans: seq<Orphan>, ghost batch: set<Hash>, purged: set<Hash>, now: int, dbUp: bool, ghost t: Table)
    requires Lists(orphans, batch, t, repo.catalog.workers.Keys)
    requires repo.chunks == Purged(Tombstoned(t, batch), purged) && purged <= batch <= t.Keys
    modifies repo`chunks
    ensures repo.chunks.Keys == t.Keys - purged
    ensures forall h :: h !in batch ==> Untouched(t, repo.chunks, h)
    ensures forall h :: h in batch - purged ==> GivenBack(t, repo.chunks, h, now) || (!dbUp && LeftBehind(t, repo.chunks, h))
  {
    for i := 0 to |orphans|
      invariant repo.chunks.Keys == t.Keys - purged
      invariant forall h :: h !in batch ==> Untouched(t, repo.chunks, h)
      invariant forall j :: 0 <= j < i && orphans[j].hash !in purged ==>
                  GivenBack(t, repo.chunks, orphans[j].hash, now) || (!dbUp && LeftBehind(t, repo.chunks, orphans[j].hash))
      invariant forall j :: i <= j < |orphans| && orphans[j].hash !in purged ==> LeftBehind(t, repo.chunks, orphans[j].hash)
    {
      if orphans[i].hash !in purged {
        ghost var before := repo.chunks;
        var up: bool := *;
        repo.RevertTombstone(orphans[i].hash, now, up || dbUp);
        assert forall h :: h != orphans[i].hash ==> Untouched(before, repo.chunks, h);
      }
    }
    forall h | h in batch - purged
      ensures GivenBack(t, repo.chunks, h, now) || (!dbUp && LeftBehind(t, repo.chunks, h))
    {
      var i :| 0 <= i < |orphans| && orphans[i].hash == h;
    }
  }

  /** The confirmed hashes belong to the batch and are off every worker of their rows; those whose workers all answer are among them. */
  ghost predicate PurgeOk(batch: set<Hash>, t: Table, workers: set<WorkerId>, stored: set<(WorkerId, Hash)>, purged: set<Hash>, up: set<WorkerId>) {
    && purged <= batch <= t.Keys
    && (forall h :: h in purged ==> OffDisks(t, workers, stored, h))
    && (forall h :: h in batch && t[h].nodes * workers <= up ==> h in purged)
  }

  lemma {:induction false} PurgeOutcome(orphans: seq<Orphan>, batch: set<Hash>, t: Table, workers: set<WorkerId>, stored: set<(WorkerId, Hash)>, purged: set<Hash>, up: set<WorkerId>)
    requires Lists(orphans, batch, t, workers) && batch <= t.Keys
    requires forall h :: h in purged ==> Cleared(orphans, stored, h)
    requires forall i :: 0 <= i < |orphans| && orphans[i].locations <= up ==> orphans[i].hash in purged
    ensures PurgeOk(batch, t, workers, stored, purged, up)
  {
    forall h | h in purged
      ensures h in batch && OffDisks(t, workers, stored, h)
    {
      var i :| 0 <= i < |orphans| && orphans[i].hash == h && forall w :: w in orphans[i].locations ==> (w, h) !in stored;
      assert orphans[i].hash in batch;
    }
    forall h | h in batch && t[h].nodes * workers <= up
      ensures h in purged
    {
      var i :| 0 <= i < |orphans| && orphans[i].hash == h;
    }
  }

  /** Bulk deletion of the confirmed chunks; nothing is removed when it fails. */
  method RemoveConfirmed(repo: PostgresRepository, successes: set<Hash>, up: bool) returns (removed: set<Hash>, deleted: nat)
    modifies repo`chunks
    ensures removed == (if up then successes else {}) && deleted == |removed|
    ensures repo.chunks == Purged(old(repo.chunks), removed)
  {
    var deleteOk := true;
    deleted := 0;
    if successes != {} {
      deleteOk := repo.DeleteChunkRecordsBulk(successes, up);
      deleted := if deleteOk then |successes| else 0;
    }
    removed := if deleteOk then successes else {};
    assert Purged(old(repo.chunks), {}) == old(repo.chunks);
  }

  /** Bulk delete and revert, once the workers have answered. */
  method RecordBatch(repo: PostgresRepository, orphans: seq<Orphan>, ghost batch: set<Hash>, successes: set<Hash>, now: int, dbUp: bool,
                     ghost t: Table, ghost stored: set<(WorkerId, Hash)>, ghost up: set<WorkerId>)
      returns (deleted: nat)
    requires Lists(orphans, batch, t, repo.catalog.workers.Keys) && repo.chunks == Tombstoned(t, batch)
    requires PurgeOk(batch, t, repo.catalog.workers.Keys, stored, successes, up)
    modifies repo`chunks
    ensures BatchSettled(t, repo.chunks, repo.catalog.workers.Keys, stored, batch, now, Health(up, dbUp))
    ensures deleted == |t.Keys| - |repo.chunks.Keys|
  {
    var answers: bool := *;
    var removed;
    removed, deleted := RemoveConfirmed(repo, successes, answers || dbUp);
    RevertRest(repo, orphans, batch, removed, now, dbUp, t);
    RowsRemoved(t, repo.chunks, removed);
    BatchOutcome(t, repo.chunks, repo.catalog.workers.Keys, stored, batch, successes, removed, now, Health(up, dbUp));
  }

  /** Purge, bulk delete and revert of one batch. */
  method RunBatch(repo: PostgresRepository, fleet: WorkerFleet, orphans: seq<Orphan>, ghost batch: set<Hash>, now: int, dbUp: bool, ghost t: Table)
      returns (deleted: nat)
    requires Lists(orphans, batch, t, repo.catalog.workers.Keys)
    requires batch <= t.Keys && repo.chunks == Tombstoned(t, batch)
    modifies repo`chunks, fleet
    ensures LostOnly(orphans, old(fleet.stored), fleet.stored)
    ensures BatchSettled(t, repo.chunks, repo.catalog.workers.Keys, fleet.stored, batch, now, Health(fleet.up, dbUp))
    ensures deleted == |t.Keys| - |repo.chunks.Keys|
  {
    var successes := PurgeOrphanBatchParallel(fleet, orphans);
    PurgeOutcome(orphans, batch, t, repo.catalog.workers.Keys, fleet.stored, successes, fleet.up);
    deleted := RecordBatch(repo, orphans, batch, successes, now, dbUp, t, fleet.stored, fleet.up);
  }

  lemma {:induction false} BatchOutcome(t: Table, t': Table, workers: set<WorkerId>, stored: set<(WorkerId, Hash)>,
                                        batch: set<Hash>, purged: set<Hash>, removed: set<Hash>, now: int, health: Health)
    requires PurgeOk(batch, t, workers, stored, purged, health.up)
    requires removed <= purged && (health.dbUp ==> removed == purged)
    requires t'.Keys == t.Keys - removed && forall h :: h !in batch ==> Untouched(t, t', h)
    requires forall h :: h in batch - removed ==> GivenBack(t, t', h, now) || (!health.dbUp && LeftBehind(t, t', h))
    ensures BatchSettled(t, t', workers, stored, batch, now, health)
  {
    forall h | h in batch
      ensures Settled(t, t', workers, stored, h, now, health)
    {
      if h in removed {
        assert Gone(t, t', workers, stored, h);
      } else {
        assert h in batch - removed;
      }
    }
  }

  lemma {:induction false} RowsRemoved(t: Table, t': Table, removed: set<Hash>)
    requires removed <= t.Keys && t'.Keys == t.Keys - removed
    ensures |removed| == |t.Keys| - |t'.Keys|
  {
    assert t.Keys == t'.Keys + removed;
  }

  // ---------------------------------------------------------------- the sweep

  /** Rows that were not expired are untouched; expired ones are settled or still waiting. */
  ghost predicate RowsSwept(t: Table, t': Table, workers: set<WorkerId>, stored: set<(WorkerId, Hash)>, now: int, health: Health) {
    && (forall h :: !Expired(t, h, now) ==> Untouched(t, t', h))
    && (forall h :: Expired(t, h, now) ==> Settled(t, t', workers, stored, h, now, health) || Untouched(t, t', h))
  }

  /** Bytes were deleted only for chunks that were expired, on their own workers. */
  ghost predicate DisksSwept(t: Table, stored: set<(WorkerId, Hash)>, stored': set<(WorkerId, Hash)>, now: int) {
    && stored' <= stored
    && forall w, h :: (w, h) in stored && (w, h) !in stored' ==> Expired(t, h, now) && w in t[h].nodes
  }

  /**
    The inner loop of the daemon.  It terminates because each non-empty batch
    takes its rows out of the expired ones for good; while the database answers
    it ends with none left and no tombstone of its own, and every expired row
    whose workers answer is gone with all its bytes.  Each batch but the last
    takes 100 rows.
   */
  method Sweep(repo: PostgresRepository, fleet: WorkerFleet, now: int, dbUp: bool) returns (totalDeleted: nat, batches: nat)
    modifies repo`chunks, fleet
    ensures totalDeleted == |old(repo.chunks).Keys| - |repo.chunks.Keys|
    ensures RowsSwept(old(repo.chunks), repo.chunks, repo.catalog.workers.Keys, fleet.stored, now, Health(fleet.up, dbUp))
    ensures DisksSwept(old(repo.chunks), old(fleet.stored), fleet.stored, now)
    ensures dbUp ==> ExpiredSet(repo.chunks, now) == {}
    ensures dbUp ==> 100 * batches - 100 < |ExpiredSet(old(repo.chunks), now)| <= 100 * batches || batches == 0 == |ExpiredSet(old(repo.chunks), now)|
    ensures dbUp ==> forall h :: Expired(old(repo.chunks), h, now) ==>
              Settled(old(repo.chunks), repo.chunks, repo.catalog.workers.Keys, fleet.stored, h, now, Health(fleet.up, dbUp))
  {
    totalDeleted, batches := 0, 0;
    ghost var t0, s0, workers, health := repo.chunks, fleet.stored, repo.catalog.workers.Keys, Health(fleet.up, dbUp);
    var done := false;
    while !done
      invariant repo.catalog == old(repo.catalog)
      invariant totalDeleted == |t0.Keys| - |repo.chunks.Keys|
      invariant RowsSwept(t0, repo.chunks, workers, fleet.stored, now, health)
      invariant DisksSwept(t0, s0, fleet.stored, now)
      invariant done && dbUp ==> ExpiredSet(repo.chunks, now) == {}
      invariant dbUp ==> BatchesTaken(|ExpiredSet(t0, now)|, |ExpiredSet(repo.chunks, now)|, batches)
      decreases !done, |ExpiredSet(repo.chunks, now)|
    {
      ghost var t, s := repo.chunks, fleet.stored;
      var up: bool := *;
      up := up || dbUp;
      var orphans := repo.GetOrphanedChunks(GC_BATCH, now, up);
      ghost var batch: set<Hash> :|
        batch <= ExpiredSet(t, now)
        && |batch| == (if up then Min(GC_BATCH, |ExpiredSet(t, now)|) else 0)
        && Lists(orphans, batch, t, workers) && repo.chunks == Tombstoned(t, batch);
      if |orphans| == 0 {
        assert batch == {};
        assert repo.chunks == t;
        done := true;
      } else {
        assert orphans[0].hash in batch;
        batches := batches + 1;
        var deleted := RunBatch(repo, fleet, orphans, batch, now, dbUp, t);
        totalDeleted := totalDeleted + deleted;
        BatchIsProgress(t, repo.chunks, workers, fleet.stored, batch, now, health);
        BatchKeepsRows(t0, t, repo.chunks, workers, s, fleet.stored, batch, now, health);
        BatchKeepsDisks(t0, t, workers, s0, s, fleet.stored, orphans, batch, now, health);
      }
    }
    if dbUp {
      NothingWaits(t0, repo.chunks, workers, fleet.stored, now, health);
    }
  }

  /** Of so many expired rows so many are left after this many batches of 100, of which only the last may be smaller. */
  predicate BatchesTaken(expired: nat, left: nat, batches: nat) {
    if left > 0 then expired == left + 100 * batches else expired <= 100 * batches && (batches > 0 ==> 100 * batches - 100 < expired)
  }

  /** A handled batch leaves the expired rows for good. */
  lemma {:induction false} BatchIsProgress(t: Table, t': Table, workers: set<WorkerId>, stored: set<(WorkerId, Hash)>, batch: set<Hash>, now: int, health: Health)
    requires batch <= ExpiredSet(t, now) && batch != {}
    requires BatchSettled(t, t', workers, stored, batch, now, health)
    ensures |ExpiredSet(t', now)| < |ExpiredSet(t, now)| && |ExpiredSet(t', now)| == |ExpiredSet(t, now)| - |batch|
  {
    assert ExpiredSet(t', now) == ExpiredSet(t, now) - batch;
    assert ExpiredSet(t, now) == ExpiredSet(t', now) + batch;
  }

  /** A row that is expired now was expired, and the same, when the sweep began. */
  lemma {:induction false} StillWaiting(t0: Table, t: Table, workers: set<WorkerId>, s: set<(WorkerId, Hash)>, now: int, health: Health, h: Hash)
    requires RowsSwept(t0, t, workers, s, now, health) && Expired(t, h, now)
    ensures Expired(t0, h, now) && h in t0 && t0[h] == t[h]
  {
    assert Expired(t0, h, now) || Untouched(t0, t, h);
  }

  lemma {:induction false} BatchKeepsRows(t0: Table, t: Table, t': Table, workers: set<WorkerId>, s: set<(WorkerId, Hash)>, s': set<(WorkerId, Hash)>,
                                          batch: set<Hash>, now: int, health: Health)
    requires RowsSwept(t0, t, workers, s, now, health) && batch <= ExpiredSet(t, now) && s' <= s
    requires BatchSettled(t, t', workers, s', batch, now, health)
    ensures RowsSwept(t0, t', workers, s', now, health)
  {
    forall h
      ensures !Expired(t0, h, now) ==> Untouched(t0, t', h)
      ensures Expired(t0, h, now) ==> Settled(t0, t', workers, s', h, now, health) || Untouched(t0, t', h)
    {
      if h in batch {
        StillWaiting(t0, t, workers, s, now, health, h);
      } else {
        assert Untouched(t, t', h);
      }
    }
  }

  lemma {:induction false} BatchKeepsDisks(t0: Table, t: Table, workers: set<WorkerId>, s0: set<(WorkerId, Hash)>, s: set<(WorkerId, Hash)>, s': set<(WorkerId, Hash)>,
                                           orphans: seq<Orphan>, batch: set<Hash>, now: int, health: Health)
    requires RowsSwept(t0, t, workers, s, now, health) && DisksSwept(t0, s0, s, now)
    requires batch <= ExpiredSet(t, now) && Lists(orphans, batch, t, workers) && LostOnly(orphans, s, s')
    ensures DisksSwept(t0, s0, s', now)
  {
    forall w, h | (w, h) in s0 && (w, h) !in s'
      ensures Expired(t0, h, now) && w in t0[h].nodes
    {
      if (w, h) in s {
        var i :| 0 <= i < |orphans| && orphans[i].hash == h && w in orphans[i].locations;
        StillWaiting(t0, t, workers, s, now, health, h);
      }
    }
  }

  lemma {:induction false} NothingWaits(t0: Table, t: Table, workers: set<WorkerId>, s: set<(WorkerId, Hash)>, now: int, health: Health)
    requires RowsSwept(t0, t, workers, s, now, health) && ExpiredSet(t, now) == {}
    ensures forall h :: Expired(t0, h, now) ==> Settled(t0, t, workers, s, h, now, health)
  {
    forall h | Expired(t0, h, now)
      ensures Settled(t0, t, workers, s, h, now, health)
    {
      assert h !in ExpiredSet(t, now);
    }
  }
}
