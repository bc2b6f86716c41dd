/**
  The chunk lifecycle as a step machine: client sessions, worker disks, any
  number of collector daemons and the clock act in any order on the `files`
  and `chunks` tables.
 */
module Lifecycle {
  import opened Basics
  import opened ChunkTable

  type SessionId = int
  type DaemonId = int

  // ---------------------------------------------------------------- state

  /** Database times of a session's first and latest successful upload-init. */
  datatype Lease = Lease(first: int, last: int)

  /** One pass over the pending indices: the replicas each index goes to, and the acknowledgements so far. */
  datatype Run = Run(pending: map<nat, set<WorkerId>>, acks: set<(nat, WorkerId)>)

  /** A client's upload of one file: its hashes, its completion log and, while it transfers, its run. */
  datatype Session = Session(hashes: seq<Hash>, lease: Option<Lease>, log: set<nat>, run: Option<Run>)

  datatype Daemon =
    | Idle
    | Purging(batch: map<Hash, set<WorkerId>>, cleared: set<(Hash, WorkerId)>)
    | Reverting(rest: set<Hash>)

  /**
    `stored` holds (w, h) when worker w has bytes with digest h on disk.
    `leaked` is a history of tombstones whose owner gave up on them.
   */
  datatype State = State(
    now: int,
    workers: set<WorkerId>,
    files: seq<FileRow>,
    chunks: Table,
    stored: set<(WorkerId, Hash)>,
    sessions: map<SessionId, Session>,
    daemons: map<DaemonId, Daemon>,
    leaked: set<Hash>)

  ghost predicate Initial(s: State) {
    && s.files == [] && s.chunks == map[] && s.stored == {} && s.sessions == map[] && s.leaked == {}
    && forall d :: d in s.daemons ==> s.daemons[d] == Idle
  }

  // ---------------------------------------------------------------- steps

  const RESUME_LIMIT := 82800
  const SLACK := LEASE - RESUME_LIMIT

  datatype Step =
    | Tick(seconds: nat)
    | Register(worker: WorkerId)
    | Begin(sid: SessionId, hashes: seq<Hash>)
    | Discard(sid: SessionId)
    | Init(sid: SessionId, elapsed: int, route: map<Hash, set<WorkerId>>)
    | Save(sid: SessionId, index: nat, worker: WorkerId)
    | StraySave(worker: WorkerId, hash: Hash)
    | Flush(sid: SessionId, logged: set<nat>)
    | Stop(sid: SessionId, logged: set<nat>)
    | Commit(sid: SessionId, user: int, name: string, size: int, answered: bool)
    | Delete(user: int, name: string, pick: nat)
    | Collect(d: DaemonId, batch: set<Hash>)
    | WorkerDelete(d: DaemonId, hash: Hash, worker: WorkerId, gone: bool, ok: bool)
    | Bulk(d: DaemonId, dbOk: bool)
    | Revert(d: DaemonId, hash: Hash, dbOk: bool)
    | Rest(d: DaemonId)
    | Crash(d: DaemonId)

  /** The client's resume test: a manifest older than 23 hours is thrown away. */
  ghost predicate ResumeAccepted(elapsed: int) {
    !(elapsed > RESUME_LIMIT)
  }

  /**
    A resumed init may be late against the client's own reading of the elapsed
    time by clock skew and delay; the machine allows one hour of both together.
   */
  ghost predicate MayInit(ses: Session, elapsed: int, now: int) {
    MayInitWithin(ses, elapsed, now, SLACK)
  }

  /** The same with any other allowance. */
  ghost predicate MayInitWithin(ses: Session, elapsed: int, now: int, allowance: int) {
    && ses.run.None?
    && (ses.lease.Some? ==> ResumeAccepted(elapsed) && now - ses.lease.value.first <= elapsed + allowance)
  }

  ghost predicate RouteValid(s: State, route: map<Hash, set<WorkerId>>) {
    forall h :: h in route ==> route[h] != {} && route[h] <= s.workers
  }

  /** What the plan and the local log leave to upload (module Correlation derives it from the client's loop). */
  function PendingOf(t: Table, workers: set<WorkerId>, route: map<Hash, set<WorkerId>>, hashes: seq<Hash>, log: set<nat>): map<nat, set<WorkerId>> {
    map i: nat | i < |hashes| && Missing(t, hashes[i]) && i !in log :: NodesFor(t, route, hashes[i]) * workers
  }

  ghost function AfterInit(s: State, sid: SessionId, route: map<Hash, set<WorkerId>>): State
    requires sid in s.sessions
  {
    var ses := s.sessions[sid];
    var lease := Lease(if ses.lease.Some? then ses.lease.value.first else s.now, s.now);
    var run := Run(PendingOf(s.chunks, s.workers, route, ses.hashes, ses.log), {});
    s.(chunks := Refreshed(s.chunks, route, ses.hashes, s.now),
       sessions := s.sessions[sid := ses.(lease := Some(lease), run := Some(run))])
  }

  ghost predicate AllAcknowledged(run: Run) {
    forall i, w :: i in run.pending && w in run.pending[i] ==> (i, w) in run.acks
  }

  /** Indices with at least one acknowledgement: all that may reach the log. */
  ghost predicate Loggable(run: Run, logged: set<nat>) {
    forall i :: i in logged ==> exists w :: (i, w) in run.acks
  }

  /** A session whose transfer succeeded, at most `delay` after its init. */
  ghost predicate MayCommitWithin(s: State, sid: SessionId, delay: int) {
    && sid in s.sessions
    && s.sessions[sid].lease.Some? && s.sessions[sid].run.Some?
    && AllAcknowledged(s.sessions[sid].run.value)
    && s.now <= s.sessions[sid].lease.value.last + delay
  }

  /** A commit comes at most a lease after the init. */
  ghost predicate MayCommit(s: State, sid: SessionId) {
    MayCommitWithin(s, sid, LEASE)
  }

  /** The answer to a commit may be lost, in which case the client keeps its manifest. */
  ghost function AfterCommit(s: State, sid: SessionId, user: int, name: string, size: int, answered: bool): State
    requires sid in s.sessions
  {
    var ses := s.sessions[sid];
    s.(files := s.files + [FileRow(user, name, size, ses.hashes)],
       chunks := Committed(s.chunks, ses.hashes, s.now),
       sessions := if answered then s.sessions - {sid} else s.sessions[sid := ses.(run := None)])
  }

  ghost function AfterDelete(s: State, user: int, name: string, pick: nat): State
    requires pick < |s.files|
  {
    s.(files := Without(s.files, user, name), chunks := Dereferenced(s.chunks, s.files[pick].chunks))
  }

  /** Tombstones a daemon still has to settle. */
  ghost function Held(d: Daemon): set<Hash> {
    match d
    case Idle => {}
    case Purging(batch, _) => batch.Keys
    case Reverting(rest) => rest
  }

  /** A chunk counts as purged once every one of its workers has confirmed the deletion. */
  ghost function PurgedOf(d: Daemon): set<Hash>
    requires d.Purging?
  {
    set h | h in d.batch && forall w :: w in d.batch[h] ==> (h, w) in d.cleared
  }

  ghost function AfterCollect(s: State, d: DaemonId, batch: set<Hash>): State
    requires forall h :: h in batch ==> h in s.chunks
  {
    s.(chunks := Tombstoned(s.chunks, batch),
       daemons := s.daemons[d := Purging(map h | h in batch :: s.chunks[h].nodes, {})])
  }

  ghost function AfterBulk(s: State, d: DaemonId, dbOk: bool): State
    requires d in s.daemons && s.daemons[d].Purging?
  {
    var purged := if dbOk then PurgedOf(s.daemons[d]) else {};
    s.(chunks := Purged(s.chunks, purged),
       daemons := s.daemons[d := Reverting(s.daemons[d].batch.Keys - purged)])
  }

  ghost function AfterRevert(s: State, d: DaemonId, h: Hash, dbOk: bool): State
    requires d in s.daemons && s.daemons[d].Reverting?
  {
    s.(chunks := if dbOk then Reverted(s.chunks, h, s.now) else s.chunks,
       leaked := if dbOk then s.leaked else s.leaked + {h},
       daemons := s.daemons[d := Reverting(s.daemons[d].rest - {h})])
  }

  /** One atomic action of some participant.  A transaction that throws changes nothing and is no step. */
  ghost predicate Next(s: State, step: Step, s': State) {
    match step
    case Tick(seconds) => s' == s.(now := s.now + seconds)
    case Register(worker) => s' == s.(workers := s.workers + {worker})
    case Begin(sid, hashes) =>
      sid !in s.sessions && s' == s.(sessions := s.sessions[sid := Session(hashes, None, {}, None)])
    case Discard(sid) => s' == s.(sessions := s.sessions - {sid})
    case Init(sid, elapsed, route) =>
      && sid in s.sessions && MayInit(s.sessions[sid], elapsed, s.now)
      && RouteValid(s, route)
      && FirstError(s.chunks, s.workers, route, s.sessions[sid].hashes).None?
      && s' == AfterInit(s, sid, route)
    case Save(sid, index, worker) =>
      && sid in s.sessions && s.sessions[sid].run.Some?
      && var ses := s.sessions[sid];
      && index in ses.run.value.pending && worker in ses.run.value.pending[index] && index < |ses.hashes|
      && s' == s.(stored := s.stored + {(worker, ses.hashes[index])},
                  sessions := s.sessions[sid := ses.(run := Some(ses.run.value.(acks := ses.run.value.acks + {(index, worker)})))])
    case StraySave(worker, hash) => s' == s.(stored := s.stored + {(worker, hash)})
    case Flush(sid, logged) =>
      && sid in s.sessions && s.sessions[sid].run.Some?
      && Loggable(s.sessions[sid].run.value, logged)
      && s' == s.(sessions := s.sessions[sid := s.sessions[sid].(log := s.sessions[sid].log + logged)])
    case Stop(sid, logged) =>
      && sid in s.sessions && s.sessions[sid].run.Some?
      && Loggable(s.sessions[sid].run.value, logged)
      && s' == s.(sessions := s.sessions[sid := s.sessions[sid].(log := s.sessions[sid].log + logged, run := None)])
    case Commit(sid, user, name, size, answered) =>
      MayCommit(s, sid) && s' == AfterCommit(s, sid, user, name, size, answered)
    case Delete(user, name, pick) =>
      && pick < |s.files| && Matches(s.files[pick], user, name)
      && s' == AfterDelete(s, user, name, pick)
    case Collect(d, batch) =>
      && d in s.daemons && s.daemons[d].Idle? && 0 < |batch| <= GC_BATCH
      && (forall h :: h in batch ==> Expired(s.chunks, h, s.now))
      && s' == AfterCollect(s, d, batch)
    case WorkerDelete(d, hash, worker, gone, ok) =>
      && d in s.daemons && s.daemons[d].Purging?
      && hash in s.daemons[d].batch && worker in s.daemons[d].batch[hash] && (ok ==> gone)
      && s' == s.(stored := if gone then s.stored - {(worker, hash)} else s.stored,
                  daemons := if ok then s.daemons[d := s.daemons[d].(cleared := s.daemons[d].cleared + {(hash, worker)})] else s.daemons)
    case Bulk(d, dbOk) =>
      d in s.daemons && s.daemons[d].Purging? && s' == AfterBulk(s, d, dbOk)
    case Revert(d, hash, dbOk) =>
      d in s.daemons && s.daemons[d].Reverting? && hash in s.daemons[d].rest && s' == AfterRevert(s, d, hash, dbOk)
    case Rest(d) =>
      d in s.daemons && s.daemons[d] == Reverting({}) && s' == s.(daemons := s.daemons[d := Idle])
    case Crash(d) =>
      d in s.daemons && s' == s.(daemons := s.daemons[d := Idle], leaked := s.leaked + Held(s.daemons[d]))
  }

  /** A second init of the same session: the client resumes from its manifest. */
  ghost predicate Resumes(s: State, step: Step) {
    step.Init? && step.sid in s.sessions && s.sessions[step.sid].lease.Some?
  }

  /** Step i leads from state i to the next. */
  ghost predicate Takes(tr: seq<State>, steps: seq<Step>, i: nat)
    requires i < |steps| && |tr| == |steps| + 1
  {
    Next(tr[i], steps[i], tr[i + 1])
  }

  ghost predicate IsPath(tr: seq<State>, steps: seq<Step>) {
    |tr| == |steps| + 1 && forall i :: 0 <= i < |steps| ==> Takes(tr, steps, i)
  }

  ghost predicate IsRun(tr: seq<State>, steps: seq<Step>) {
    IsPath(tr, steps) && Initial(tr[0])
  }
}
