/** The client's two operations: uploading a local file, possibly resuming, and downloading one. */
module Client {
  import opened Basics
  import opened ChunkTable
  import opened Correlation
  import opened Slicer
  import opened StateManager
  import opened Repository
  import L = Lifecycle
  import U = Upload
  import D = Download

  const CHUNK_SIZE := 1048576

  // ---------------------------------------------------------------- the local file

  /** The file at one moment: its bytes and its modification stamp. */
  datatype LocalFile = LocalFile(data: Bytes, modified: int)

  /** The file over time; other programs may change it whenever they like. */
  type History = nat -> LocalFile

  predicate SameStamp(a: LocalFile, b: LocalFile) {
    |a.data| == |b.data| && a.modified == b.modified
  }

  /** Inspections at these two times see one size and one stamp. */
  ghost predicate Agree(file: History, a: nat, b: nat) {
    |file(a).data| == |file(b).data| && file(a).modified == file(b).modified
  }

  /** Two inspections that see the same size and stamp had no modification between them. */
  ghost predicate StampsTell(file: History) {
    forall a: nat, b: nat, c: nat :: a <= b <= c && |file(a).data| == |file(c).data| && file(a).modified == file(c).modified
                                     ==> file(b).data == file(a).data
  }

  function HashesOf(data: Bytes, digest: Digest): (hashes: seq<Hash>)
    ensures |hashes| == NumChunks(|data|, CHUNK_SIZE)
  {
    seq(NumChunks(|data|, CHUNK_SIZE), i requires i >= 0 => digest(Slice(data, CHUNK_SIZE, i)))
  }

  /** There is one hash for each full or begun megabyte, and each is the digest of exactly its bytes. */
  lemma {:induction false} HashesAre(data: Bytes, digest: Digest)
    ensures |HashesOf(data, digest)| == (|data| + 1048575) / 1048576
    ensures forall i :: 0 <= i < |HashesOf(data, digest)| ==>
              && i * 1048576 < |data|
              && HashesOf(data, digest)[i] == digest(data[i * 1048576..Min((i + 1) * 1048576, |data|)])
  {
    forall i | 0 <= i < |HashesOf(data, digest)|
      ensures i * 1048576 < |data| && Slice(data, CHUNK_SIZE, i) == data[i * 1048576..Min((i + 1) * 1048576, |data|)]
    {
      ChunkExists(|data|, CHUNK_SIZE, i);
    }
  }

  /** The hashes were computed no earlier than the size and stamp beside them were read. */
  ghost predicate Faithful(b: Blueprint, file: History, t: nat, digest: Digest) {
    exists t0: nat, t1: nat :: (t0 <= t1 <= t && b.totalSize == |file(t0).data| && b.modified == file(t0).modified
                                && b.hashes == HashesOf(file(t1).data, digest))
  }

  /** A blueprint whose size and stamp are still the file's has the file's hashes. */
  lemma {:induction false} UnmodifiedMeansCurrent(b: Blueprint, file: History, s: nat, t: nat, digest: Digest)
    requires StampsTell(file) && Faithful(b, file, s, digest) && s <= t
    requires b.totalSize == |file(t).data| && b.modified == file(t).modified
    ensures b.hashes == HashesOf(file(t).data, digest)
  {
    var t0: nat, t1: nat :| t0 <= t1 <= s && b.totalSize == |file(t0).data| && b.modified == file(t0).modified
      && b.hashes == HashesOf(file(t1).data, digest);
    assert file(t1).data == file(t0).data;
    assert file(t).data == file(t0).data;
  }

  // ---------------------------------------------------------------- the server's answer

  /** What the server knows when it answers an upload-init. */
  datatype View = View(chunks: Table, workers: set<WorkerId>, route: map<Hash, set<WorkerId>>) {

    function Answer(hashes: seq<Hash>): Option<seq<Plan>> {
      if FirstError(chunks, workers, route, hashes).None? then Some(MissingPlans(chunks, workers, route, hashes)) else None
    }
  }

  /** The server has no reason to refuse: no hash is a tombstone, and what has no row or no reference has a registered worker to go to. */
  ghost predicate Answerable(v: View, hashes: seq<Hash>) {
    forall h :: h in hashes ==>
      if h in v.chunks then v.chunks[h].refCount != -1 && (v.chunks[h].refCount == 0 ==> exists w :: w in v.chunks[h].nodes && w in v.workers)
      else h in v.route && exists w :: w in v.route[h] && w in v.workers
  }

  lemma {:induction false} AnswerableIff(v: View, hashes: seq<Hash>)
    ensures v.Answer(hashes).Some? <==> Answerable(v, hashes)
  {
    InitSucceedsIff(v.chunks, v.workers, v.route, hashes);
    forall h | h in hashes
      ensures !Locked(v.chunks, h) && !Unroutable(v.chunks, v.workers, v.route, h) <==>
              if h in v.chunks then v.chunks[h].refCount != -1 && (v.chunks[h].refCount == 0 ==> exists w :: w in v.chunks[h].nodes && w in v.workers)
              else h in v.route && exists w :: w in v.route[h] && w in v.workers
    {
      var nodes := NodesFor(v.chunks, v.route, h);
      if nodes * v.workers != {} {
        var w := Element(nodes * v.workers);
        assert w in nodes && w in v.workers;
      }
      assert forall w :: w in nodes && w in v.workers ==> w in nodes * v.workers;
    }
  }

  /** The user's file of that name is in the list the server answered with. */
  ghost predicate HasFile(cond: Conditions, user: int, name: string) {
    cond.listed.Some? && exists f :: f in cond.listed.value && f.user == user && f.name == name
  }

  lemma {:induction false} TakenIff(cond: Conditions, user: int, name: string)
    ensures cond.Taken(user, name) <==> HasFile(cond, user, name)
  {
    if cond.listed.Some? && exists f :: f in cond.listed.value && f.user == user && f.name == name {
      var f :| f in cond.listed.value && f.user == user && f.name == name;
      var i :| 0 <= i < |cond.listed.value| && cond.listed.value[i] == f;
      assert Matches(cond.listed.value[i], user, name);
    }
  }

  /**
    What an attempt meets: the server's files when it is asked about the name
    (None when that request fails, upon which the client goes on), a readable
    file, the server reachable, the user pausing, the commit answered with
    success, and the workers that store whatever they are sent correctly.
   */
  datatype Conditions = Conditions(listed: Option<seq<FileRow>>, readable: bool, reachable: bool, interrupted: bool, answered: bool, accepting: set<WorkerId>) {

    /** The server says that the user has a file of that name. */
    predicate Taken(user: int, name: string) {
      listed.Some? && exists i :: 0 <= i < |listed.value| && Matches(listed.value[i], user, name)
    }
  }

  /** Nothing gets in the way, and the file stays as it is. */
  ghost predicate Calm(cond: Conditions, v: View, file: History, t: nat) {
    && cond.readable && cond.reachable && !cond.interrupted && v.workers <= cond.accepting
    && StampsTell(file) && forall s: nat :: s >= t ==> file(s) == file(t)
  }

  // ---------------------------------------------------------------- outcome of an upload

  /**
    What one attempt did: when it inspected the file, the hashes it named, the
    indices it found in the log, its transfer as a run of the lifecycle machine,
    and the file row it asked the server to commit.
   */
  datatype Report = Report(checks: seq<nat>, resumed: bool, hashes: seq<Hash>, prior: set<nat>, run: Option<L.Run>, commit: Option<FileRow>)

  /** The completed bits as a set. */
  function Marked(completed: seq<bool>): (r: set<nat>)
    ensures forall i: nat :: i in r <==> i < |completed| && completed[i]
  {
    set i: nat | i < |completed| && completed[i]
  }

  ghost predicate WithinPlan(run: L.Run) {
    forall i, w :: (i, w) in run.acks ==> i in run.pending && w in run.pending[i]
  }

  /** Inspections come in order; a transfer needs two that agree, a commit three, the last at its end. */
  ghost predicate Inspected(r: Report, file: History, t: nat, t': nat, user: int, name: string) {
    && r.checks != [] && t <= r.checks[0]
    && (r.run.Some? ==> |r.checks| >= 2 && r.checks[0] <= r.checks[1] <= t' && Agree(file, r.checks[0], r.checks[1]))
    && (r.commit.Some? ==>
          && |r.checks| == 3 && r.checks[1] <= r.checks[2] == t' && Agree(file, r.checks[0], t')
          && r.commit == Some(FileRow(user, name, |file(t').data|, r.hashes)))
  }

  /** A manifest is taken up again exactly when it names chunks, its size and stamp are the file's, and it is at most 82800 s old. */
  ghost predicate ResumesYoung(r: Report, file: History, now: int, manifest: Option<Blueprint>) {
    r.checks != [] &&
    (r.resumed <==> manifest.Some? && manifest.value.hashes != [] && now - manifest.value.session <= 82800
                    && manifest.value.totalSize == |file(r.checks[0]).data| && manifest.value.modified == file(r.checks[0]).modified)
  }

  /** The commit names exactly this content, after a transfer in which every pending replica acknowledged. */
  ghost predicate IsCommitOf(r: Report, user: int, name: string, data: Bytes, digest: Digest) {
    r.hashes == HashesOf(data, digest) && r.commit == Some(FileRow(user, name, |data|, r.hashes))
  }

  /** The transfer is a run of the lifecycle on the server's answer, complete if there is a commit. */
  ghost predicate FollowsPlan(r: Report, v: View) {
    && (r.run.Some? ==> v.Answer(r.hashes).Some? && WithinPlan(r.run.value)
                        && r.run.value.pending == L.PendingOf(v.chunks, v.workers, v.route, r.hashes, r.prior))
    && (r.commit.Some? ==> r.run.Some? && L.AllAcknowledged(r.run.value))
  }

  /** Only an accepted resume inherits hashes and logged indices; anything else starts with nothing done. */
  ghost predicate Resumption(r: Report, now: int, manifest: Option<Blueprint>, log: seq<int>) {
    Inherits(r.resumed, r.hashes, r.prior, now, manifest, log)
  }

  ghost predicate Inherits(resumed: bool, hashes: seq<Hash>, prior: set<nat>, now: int, manifest: Option<Blueprint>, log: seq<int>) {
    && (resumed ==> manifest.Some? && manifest.value.hashes == hashes && L.ResumeAccepted(now - manifest.value.session)
                    && forall i: nat :: i in prior <==> i in log)
    && (!resumed ==> prior == {})
  }

  /** The log holds what it held and what this transfer got acknowledged. */
  ghost predicate LogGained(r: Report, log: seq<int>) {
    forall i: nat :: i in log <==> i in r.prior || (r.run.Some? && U.IndexAcked(r.run.value.acks, i))
  }

  /** Every chunk the server missed has been acknowledged by a replica in this session. */
  ghost predicate Served(v: View, hashes: seq<Hash>, delivered: set<(Hash, WorkerId)>) {
    forall i :: 0 <= i < |hashes| && Missing(v.chunks, hashes[i]) ==> Delivered(delivered, hashes[i])
  }

  /** The acknowledgements are the lifecycle's: within the plan, and all of it when the transfer succeeded. */
  lemma {:induction false} TransferIsRun(v: View, hashes: seq<Hash>, completed: seq<bool>, prior: set<nat>, tasks: seq<Task>, ok: bool, acked: set<(nat, WorkerId)>, payloads: seq<Bytes>, digest: Digest)
    requires |hashes| == |completed| && forall i :: 0 <= i < |completed| ==> (completed[i] <==> i in prior)
    requires tasks == Greedy(hashes, MissingPlans(v.chunks, v.workers, v.route, hashes), completed, |hashes|).tasks
    requires ok ==> forall k, w :: 0 <= k < |tasks| && w in tasks[k].plan.nodes ==> (tasks[k].index, w) in acked
    requires U.Accepted(acked, tasks, payloads, digest)
    ensures var run := L.Run(L.PendingOf(v.chunks, v.workers, v.route, hashes, prior), acked);
            WithinPlan(run) && (ok ==> L.AllAcknowledged(run))
  {
    var pending := L.PendingOf(v.chunks, v.workers, v.route, hashes, prior);
    TasksArePending(v.chunks, v.workers, v.route, hashes, completed, prior);
    forall i, w | (i, w) in acked
      ensures i in pending && w in pending[i]
    {
      assert U.AcceptedBy((i, w), tasks, payloads, digest);
    }
    if ok {
      forall i, w | i in pending && w in pending[i]
        ensures (i, w) in acked
      {
        var k :| 0 <= k < |tasks| && tasks[k].index == i;
      }
    }
  }

  /** When the hashes are those of the bytes read, no worker that accepts correct chunks refuses one. */
  lemma {:induction false} SendsSucceed(v: View, hashes: seq<Hash>, completed: seq<bool>, tasks: seq<Task>, data: Bytes, payloads: seq<Bytes>, digest: Digest, accepting: set<WorkerId>)
    requires |hashes| == |completed| && hashes == HashesOf(data, digest) && v.workers <= accepting
    requires tasks == Greedy(hashes, MissingPlans(v.chunks, v.workers, v.route, hashes), completed, |hashes|).tasks
    requires |payloads| <= |tasks| && payloads == ReadAll(Opened(data), CHUNK_SIZE, U.TaskIndices(tasks[..|payloads|])).1
    ensures forall k, w :: !U.SendFails(tasks, payloads, digest, accepting, k, w)
  {
    CorrelationIsExact(v.chunks, v.workers, v.route, hashes, completed);
    U.PayloadsAreSlices(data, CHUNK_SIZE, tasks, payloads);
    forall k: nat, w | k < |tasks| && k < |payloads| && w in tasks[k].plan.nodes
      ensures !U.Refusable(w, tasks[k].plan.hash, payloads[k], digest, accepting)
    {
      assert tasks[k].plan.hash == hashes[tasks[k].index];
    }
  }

  ghost predicate Delivered(delivered: set<(Hash, WorkerId)>, h: Hash) {
    exists w :: (h, w) in delivered
  }

  /** Every logged index is a chunk some replica has acknowledged. */
  ghost predicate LogSound(hashes: seq<Hash>, log: seq<int>, delivered: set<(Hash, WorkerId)>) {
    forall i :: i in log ==> 0 <= i < |hashes| && Delivered(delivered, hashes[i])
  }

  /** The replicas acknowledged during one run. */
  ghost function DeliveredBy(hashes: seq<Hash>, acks: set<(nat, WorkerId)>): set<(Hash, WorkerId)> {
    set a | a in acks && a.0 < |hashes| :: (hashes[a.0], a.1)
  }

  lemma {:induction false} LoggedMeansChunks(hashes: seq<Hash>, log: seq<int>, delivered: set<(Hash, WorkerId)>)
    requires LogSound(hashes, log, delivered)
    ensures log != [] ==> hashes != []
  {
    if log != [] {
      assert log[0] in log;
      assert 0 <= log[0] < |hashes|;
    }
  }

  lemma {:induction false} LogStaysSound(hashes: seq<Hash>, before: seq<int>, log: seq<int>, delivered: set<(Hash, WorkerId)>, run: L.Run)
    requires LogSound(hashes, before, delivered) && before <= log && WithinPlan(run)
    requires forall i :: i in log[|before|..] ==> U.IndexAcked(run.acks, i)
    requires forall i :: i in run.pending ==> i < |hashes|
    ensures LogSound(hashes, log, delivered + DeliveredBy(hashes, run.acks))
  {
    var more := delivered + DeliveredBy(hashes, run.acks);
    assert log == before + log[|before|..];
    forall i | i in log
      ensures 0 <= i < |hashes| && Delivered(more, hashes[i])
    {
      if i in before {
        var w :| (hashes[i], w) in delivered;
        assert (hashes[i], w) in more;
      } else {
        var a :| a in run.acks && a.0 == i;
        assert (a.0, a.1) in run.acks;
        assert (hashes[a.0], a.1) in more;
      }
    }
  }

  /** The bits read from a sound log are the log. */
  lemma {:induction false} LogIsPrior(hashes: seq<Hash>, log: seq<int>, delivered: set<(Hash, WorkerId)>, completed: seq<bool>)
    requires LogSound(hashes, log, delivered) && |completed| == |hashes|
    requires forall i :: 0 <= i < |completed| ==> (completed[i] <==> i in log)
    ensures forall i: nat :: i in Marked(completed) <==> i in log
  {
  }

  /** When a run succeeded, every chunk the server missed was delivered by it or by an earlier run of the session. */
  lemma {:induction false} AllServed(v: View, hashes: seq<Hash>, prior: set<nat>, run: L.Run, delivered: set<(Hash, WorkerId)>)
    requires v.Answer(hashes).Some?
    requires run.pending == L.PendingOf(v.chunks, v.workers, v.route, hashes, prior) && L.AllAcknowledged(run)
    requires DeliveredBy(hashes, run.acks) <= delivered
    requires forall k :: k in prior ==> k < |hashes| && Delivered(delivered, hashes[k])
    ensures Served(v, hashes, delivered)
  {
    InitSucceedsIff(v.chunks, v.workers, v.route, hashes);
    forall i | 0 <= i < |hashes| && Missing(v.chunks, hashes[i])
      ensures Delivered(delivered, hashes[i])
    {
      if i !in prior {
        assert hashes[i] in hashes;
        assert run.pending[i] != {};
        var w: WorkerId :| w in run.pending[i];
        assert (i, w) in run.acks;
        assert (hashes[(i, w).0], (i, w).1) in DeliveredBy(hashes, run.acks);
      }
    }
  }

  // ---------------------------------------------------------------- chunk sizes of a download

  /** The size of each position, from the file size alone. */
  function Sized(fileSize: nat, plans: seq<Plan>): seq<D.Chunk> {
    seq(|plans|, i requires 0 <= i < |plans| => D.Chunk(plans[i].hash, SliceLength(fileSize, CHUNK_SIZE, i)))
  }

  method ChunkSizes(fileSize: nat, plans: seq<Plan>) returns (chunks: seq<D.Chunk>)
    ensures chunks == Sized(fileSize, plans)
  {
    chunks := [];
    var bytesRemaining := fileSize;
    for i := 0 to |plans|
      invariant |chunks| == i && forall k :: 0 <= k < i ==> chunks[k] == D.Chunk(plans[k].hash, SliceLength(fileSize, CHUNK_SIZE, k))
      invariant bytesRemaining == if i * CHUNK_SIZE <= fileSize then fileSize - i * CHUNK_SIZE else 0
    {
      if bytesRemaining >= CHUNK_SIZE {
        chunks := chunks + [D.Chunk(plans[i].hash, CHUNK_SIZE)];
        bytesRemaining := bytesRemaining - CHUNK_SIZE;
      } else {
        chunks := chunks + [D.Chunk(plans[i].hash, bytesRemaining)];
        bytesRemaining := 0;
      }
    }
  }

  // ---------------------------------------------------------------- the client

  datatype Fetched = Output(content: Bytes) | Paused | Cancelled | Failed

  method Later(t: nat) returns (t': nat)
    ensures t' >= t
  {
    t' :| t' >= t;
  }

  class DSEClient {
    const state: LocalStateManager
    const slicer: LocalFileSlicer
    /** Replicas that have acknowledged a chunk since the manifest was made. */
    ghost var delivered: set<(Hash, WorkerId)>

    ghost predicate Valid(file: History, t: nat, digest: Digest)
      reads this, state
    {
      && (state.manifest.None? ==> state.log == [])
      && (state.manifest.Some? ==>
            Faithful(state.manifest.value, file, t, digest) && LogSound(state.manifest.value.hashes, state.log, delivered))
    }

    constructor (file: History, digest: Digest)
      ensures Valid(file, 0, digest) && fresh(state) && fresh(slicer)
    {
      state := new LocalStateManager();
      slicer := new LocalFileSlicer();
      delivered := {};
    }

    /** A manifest is resumed when the file carries its size and stamp and it is at most 23 hours old; any other is discarded. */
    method ResumeOrDiscard(f0: LocalFile, now: int, ghost file: History, ghost t: nat, ghost digest: Digest) returns (r: Option<UploadManifest>)
      requires Valid(file, t, digest)
      modifies this, state
      ensures Valid(file, t, digest)
      ensures r.None? ==> state.manifest == None
      ensures r.Some? <==> (old(state.manifest).Some? && var b := old(state.manifest).value;
                            b.totalSize == |f0.data| && b.modified == f0.modified && L.ResumeAccepted(now - b.session))
      ensures r.Some? ==> state.manifest == old(state.manifest) == Some(r.value.plan) && state.log == old(state.log) && delivered == old(delivered)
      ensures r.Some? ==> |r.value.completed| == |r.value.plan.hashes|
                          && forall i :: 0 <= i < |r.value.completed| ==> (r.value.completed[i] <==> i in state.log)
    {
      if state.manifest.None? {
        return None;
      }
      var m := state.LoadUploadManifest();
      var fileModified := m.plan.totalSize != |f0.data| || m.plan.modified != f0.modified;
      var gcExpired := now - m.plan.session > L.RESUME_LIMIT;
      if fileModified || gcExpired {
        state.DeleteUploadManifest();
        delivered := {};
        return None;
      }
      r := Some(m);
    }

    /** Pass 1: without hashes to go by, hash the file and save a new manifest. */
    method HashAndSave(file: History, t0: nat, now: int, digest: Digest) returns (m: UploadManifest, t: nat)
      requires state.log == []
      modifies this, state`manifest
      ensures t >= t0 && Valid(file, t, digest) && state.manifest == Some(m.plan) && state.log == []
      ensures m.plan.totalSize == |file(t0).data| && m.plan.modified == file(t0).modified && m.plan.session == now
      ensures m.completed == Unmarked(|m.plan.hashes|)
    {
      t := Later(t0);
      var hashes := ComputeHashes(file(t).data, CHUNK_SIZE, digest);
      assert hashes == HashesOf(file(t).data, digest);
      m := UploadManifest(Blueprint(|file(t0).data|, file(t0).modified, now, hashes), Unmarked(|hashes|));
      state.SaveUploadManifest(m);
      delivered := {};
    }

    /** Everything before the negotiation: the manifest to work with. */
    method Begin(file: History, t0: nat, now: int, digest: Digest) returns (m: UploadManifest, resumed: bool, t: nat)
      requires Valid(file, t0, digest)
      modifies this, state
      ensures t >= t0 && Valid(file, t, digest) && state.manifest == Some(m.plan)
      ensures m.plan.totalSize == |file(t0).data| && m.plan.modified == file(t0).modified
      ensures |m.completed| == |m.plan.hashes| && forall i :: 0 <= i < |m.completed| ==> (m.completed[i] <==> i in state.log)
      ensures resumed ==> old(state.manifest) == Some(m.plan) && L.ResumeAccepted(now - m.plan.session)
                          && state.log == old(state.log) && delivered == old(delivered)
      ensures !resumed ==> state.log == [] && m.plan.session == now
      ensures resumed <==> old(state.manifest).Some? && old(state.manifest).value.hashes != []
                           && now - old(state.manifest).value.session <= 82800
                           && old(state.manifest).value.totalSize == |file(t0).data| && old(state.manifest).value.modified == file(t0).modified
    {
      var found := ResumeOrDiscard(file(t0), now, file, t0, digest);
      if found.Some? && found.value.plan.hashes != [] {
        return found.value, true, t0;
      }
      if found.Some? {
        LoggedMeansChunks(found.value.plan.hashes, state.log, delivered);
      }
      resumed := false;
      m, t := HashAndSave(file, t0, now, digest);
    }

    /** Pass 2, if anything is pending: afterwards the log holds exactly the newly acknowledged indices more. */
    method TransferPending(m: UploadManifest, v: View, prior: set<nat>, tasks: seq<Task>, data: Bytes, cond: Conditions, ghost file: History, ghost t: nat, digest: Digest)
        returns (ok: bool, run: L.Run)
      requires Valid(file, t, digest) && state.manifest == Some(m.plan)
      requires |m.completed| == |m.plan.hashes| && forall i :: 0 <= i < |m.completed| ==> (m.completed[i] <==> i in prior)
      requires v.Answer(m.plan.hashes).Some?
      requires tasks == Greedy(m.plan.hashes, v.Answer(m.plan.hashes).value, m.completed, |m.plan.hashes|).tasks
      modifies this, slicer, state`log
      ensures Valid(file, t, digest) && state.manifest == Some(m.plan)
      ensures run.pending == L.PendingOf(v.chunks, v.workers, v.route, m.plan.hashes, prior)
      ensures WithinPlan(run) && (ok ==> L.AllAcknowledged(run))
      ensures !cond.interrupted && v.workers <= cond.accepting && m.plan.hashes == HashesOf(data, digest) ==> ok
      ensures delivered == old(delivered) + DeliveredBy(m.plan.hashes, run.acks)
      ensures forall i :: i in state.log <==> i in old(state.log) || U.IndexAcked(run.acks, i)
    {
      ghost var payloads := [];
      var acked: set<(nat, WorkerId)> := {};
      ok := true;
      if tasks != [] {
        var sent;
        ok, acked, sent := U.Upload(slicer, state, data, CHUNK_SIZE, tasks, digest, cond.accepting, cond.interrupted);
        payloads := sent;
        if m.plan.hashes == HashesOf(data, digest) && v.workers <= cond.accepting {
          SendsSucceed(v, m.plan.hashes, m.completed, tasks, data, sent, digest, cond.accepting);
        }
      }
      assert state.log == old(state.log) + state.log[|old(state.log)|..];
      run := L.Run(L.PendingOf(v.chunks, v.workers, v.route, m.plan.hashes, prior), acked);
      TransferIsRun(v, m.plan.hashes, m.completed, prior, tasks, ok, acked, payloads, digest);
      LogStaysSound(m.plan.hashes, old(state.log), state.log, delivered, run);
      delivered := delivered + DeliveredBy(m.plan.hashes, acked);
    }

    /** Up to the transfer: the manifest, the server's plan and the pending tasks, unless something stopped the attempt. */
    method Negotiate(file: History, t: nat, now: int, v: View, cond: Conditions, digest: Digest)
        returns (go: bool, m: UploadManifest, resumed: bool, prior: set<nat>, tasks: seq<Task>, t0: nat, t': nat)
      requires Valid(file, t, digest)
      modifies this, state
      ensures t <= t0 <= t' && Valid(file, t', digest) && state.manifest == Some(m.plan)
      ensures m.plan.totalSize == |file(t0).data| && m.plan.modified == file(t0).modified
      ensures |m.completed| == |m.plan.hashes| && forall i :: 0 <= i < |m.completed| ==> (m.completed[i] <==> i in prior)
      ensures forall i: nat :: i in prior <==> i in state.log
      ensures forall k :: k in prior ==> k < |m.plan.hashes| && Delivered(delivered, m.plan.hashes[k])
      ensures Inherits(resumed, m.plan.hashes, prior, now, old(state.manifest), old(state.log))
      ensures ResumesYoung(Report([t0], resumed, m.plan.hashes, prior, None, None), file, now, old(state.manifest))
      ensures go <==> cond.reachable && v.Answer(m.plan.hashes).Some? && Agree(file, t0, t')
      ensures go ==> tasks == Greedy(m.plan.hashes, v.Answer(m.plan.hashes).value, m.completed, |m.plan.hashes|).tasks
    {
      go, tasks := false, [];
      t0 := Later(t);
      assert Valid(file, t0, digest);
      m, resumed, t' := Begin(file, t0, now, digest);
      prior := Marked(m.completed);
      LogIsPrior(m.plan.hashes, state.log, delivered, m.completed);
      t' := Later(t');
      var answer := v.Answer(m.plan.hashes);
      if !cond.reachable || answer.None? {
        return;
      }
      tasks := Correlate(m.plan.hashes, answer.value, m.completed);
      go := SameStamp(file(t'), file(t0));
    }

    /** Transfer and final inspection: what was run, and whether to commit. */
    method TransferAndInspect(m: UploadManifest, v: View, prior: set<nat>, tasks: seq<Task>, cond: Conditions, file: History, t0: nat, t: nat, digest: Digest)
        returns (ready: bool, run: L.Run, t': nat)
      requires t0 <= t && Valid(file, t, digest) && state.manifest == Some(m.plan)
      requires m.plan.totalSize == |file(t0).data| && m.plan.modified == file(t0).modified
      requires |m.completed| == |m.plan.hashes| && forall i :: 0 <= i < |m.completed| ==> (m.completed[i] <==> i in prior)
      requires forall k :: k in prior ==> k < |m.plan.hashes| && Delivered(delivered, m.plan.hashes[k])
      requires v.Answer(m.plan.hashes).Some?
      requires tasks == Greedy(m.plan.hashes, v.Answer(m.plan.hashes).value, m.completed, |m.plan.hashes|).tasks
      modifies this, slicer, state`log
      ensures t' >= t && Valid(file, t', digest) && state.manifest == Some(m.plan)
      ensures WithinPlan(run) && run.pending == L.PendingOf(v.chunks, v.workers, v.route, m.plan.hashes, prior)
      ensures forall i :: i in state.log <==> i in old(state.log) || U.IndexAcked(run.acks, i)
      ensures ready ==> L.AllAcknowledged(run) && Served(v, m.plan.hashes, delivered) && Agree(file, t0, t')
      ensures Calm(cond, v, file, t0) ==> ready
    {
      t' := Later(t);
      if StampsTell(file) && file(t') == file(t0) {
        UnmodifiedMeansCurrent(m.plan, file, t', t', digest);
      }
      var ok;
      ok, run := TransferPending(m, v, prior, tasks, file(t').data, cond, file, t', digest);
      if ok {
        AllServed(v, m.plan.hashes, prior, run, delivered);
      }
      t' := Later(t');
      ready := ok && SameStamp(file(t'), file(t0));
    }

    /** From the negotiated plan to the report. */
    method Conclude(user: int, name: string, m: UploadManifest, resumed: bool, v: View, prior: set<nat>, tasks: seq<Task>, cond: Conditions,
                    file: History, t0: nat, t: nat, digest: Digest)
        returns (r: Report, t': nat)
      requires t0 <= t && Valid(file, t, digest) && state.manifest == Some(m.plan) && Agree(file, t0, t)
      requires m.plan.totalSize == |file(t0).data| && m.plan.modified == file(t0).modified
      requires |m.completed| == |m.plan.hashes| && forall i :: 0 <= i < |m.completed| ==> (m.completed[i] <==> i in prior)
      requires forall k :: k in prior ==> k < |m.plan.hashes| && Delivered(delivered, m.plan.hashes[k])
      requires v.Answer(m.plan.hashes).Some?
      requires tasks == Greedy(m.plan.hashes, v.Answer(m.plan.hashes).value, m.completed, |m.plan.hashes|).tasks
      modifies this, slicer, state`log
      ensures t' >= t && Valid(file, t', digest) && state.manifest == Some(m.plan)
      ensures r.resumed == resumed && r.hashes == m.plan.hashes && r.prior == prior && r.run.Some?
      ensures FollowsPlan(r, v) && Inspected(r, file, t0, t', user, name) && r.checks[0] == t0
      ensures forall i :: i in state.log <==> i in old(state.log) || U.IndexAcked(r.run.value.acks, i)
      ensures r.commit.Some? ==> Served(v, r.hashes, delivered)
      ensures r.commit.Some? && StampsTell(file) ==> IsCommitOf(r, user, name, file(t').data, digest)
      ensures Calm(cond, v, file, t0) ==> r.commit.Some?
    {
      var ready, run;
      ready, run, t' := TransferAndInspect(m, v, prior, tasks, cond, file, t0, t, digest);
      if ready {
        r := Report([t0, t, t'], resumed, m.plan.hashes, prior, Some(run), Some(FileRow(user, name, |file(t0).data|, m.plan.hashes)));
        if StampsTell(file) {
          UnmodifiedMeansCurrent(m.plan, file, t', t', digest);
        }
      } else {
        r := Report([t0, t], resumed, m.plan.hashes, prior, Some(run), None);
      }
    }

    /** Everything before the commit; `r.commit` is the request to send, if the attempt got that far. */
    method Attempt(user: int, name: string, file: History, t: nat, now: int, v: View, cond: Conditions, digest: Digest) returns (r: Report, t': nat)
      requires Valid(file, t, digest)
      modifies this, state, slicer
      ensures t' >= t && Valid(file, t', digest)
      ensures state.manifest.Some? && state.manifest.value.hashes == r.hashes
      ensures r.commit.Some? && StampsTell(file) ==> IsCommitOf(r, user, name, file(t').data, digest)
      ensures FollowsPlan(r, v) && Resumption(r, now, old(state.manifest), old(state.log))
      ensures LogGained(r, state.log)
      ensures r.commit.Some? ==> Served(v, r.hashes, delivered)
      ensures Calm(cond, v, file, t) && v.Answer(r.hashes).Some? ==> r.commit.Some?
      ensures Inspected(r, file, t, t', user, name) && ResumesYoung(r, file, now, old(state.manifest))
    {
      var go, m, resumed, prior, tasks, t0, t1 := Negotiate(file, t, now, v, cond, digest);
      if go {
        r, t' := Conclude(user, name, m, resumed, v, prior, tasks, cond, file, t0, t1, digest);
      } else {
        r, t' := Report([t0], resumed, m.plan.hashes, prior, None, None), t1;
      }
    }

    /**
      One attempt to upload the file found at time t or later.  `now` is the
      client's clock, `v` what the server knows when it answers the init.
      `served` are the deliveries of the session up to the commit.
     */
    method UploadFile(user: int, name: string, file: History, t: nat, now: int, v: View, cond: Conditions, digest: Digest)
        returns (ok: bool, r: Report, t': nat, ghost served: set<(Hash, WorkerId)>)
      requires Valid(file, t, digest)
      modifies this, state, slicer
      ensures t' >= t && Valid(file, t', digest)
      ensures r.commit.Some? && StampsTell(file) ==> IsCommitOf(r, user, name, file(t').data, digest)
      ensures FollowsPlan(r, v) && Resumption(r, now, old(state.manifest), old(state.log))
      ensures r.commit.Some? ==> Served(v, r.hashes, served)
      ensures HasFile(cond, user, name) || !cond.readable ==> r.commit.None? && state.manifest == old(state.manifest) && state.log == old(state.log)
      ensures !HasFile(cond, user, name) && cond.readable ==>
                Inspected(r, file, t, t', user, name) && ResumesYoung(r, file, now, old(state.manifest))
      ensures Calm(cond, v, file, t) && !HasFile(cond, user, name) && Answerable(v, r.hashes) ==> r.commit.Some?
      ensures ok <==> r.commit.Some? && cond.answered
      ensures ok ==> state.manifest == None && state.log == []
      ensures !ok && !HasFile(cond, user, name) && cond.readable ==>
                state.manifest.Some? && state.manifest.value.hashes == r.hashes && LogGained(r, state.log)
    {
      ok, r, t', served := false, Report([], false, [], {}, None, None), t, {};
      TakenIff(cond, user, name);
      if cond.Taken(user, name) || !cond.readable {
        return;
      }
      r, t' := Attempt(user, name, file, t, now, v, cond, digest);
      served := delivered;
      AnswerableIff(v, r.hashes);
      // A refusal and a lost answer look the same to the client.
      if r.commit.Some? && cond.answered {
        state.DeleteUploadManifest();
        delivered := {};
        ok := true;
      }
    }

    /**
      One attempt to download.  A finished temporary file is renamed to the
      output; a paused one is kept for the next attempt, a cancelled one removed.
     */
    method DownloadFile(answer: Option<Manifest>, temp: D.TempFile, net: D.Network, digest: Digest, interrupted: bool) returns (r: Fetched)
      requires answer.Some? ==> answer.value.fileSize >= 0
      modifies temp
      ensures r.Output? ==> answer.Some? && D.Complete(r.content, Sized(answer.value.fileSize, answer.value.plans), digest)
      ensures r.Output? || r.Cancelled? ==> temp.content == None
      ensures r.Paused? || r.Cancelled? ==> interrupted
      ensures answer.Some? && (r.Paused? || r.Failed?) ==> temp.content.Some? && (old(temp.content).Some? ==>
                D.NothingLost(old(temp.content).value, temp.content.value, Sized(answer.value.fileSize, answer.value.plans), digest))
      ensures r.Failed? && answer.Some? ==>
                var chunks := Sized(answer.value.fileSize, answer.value.plans);
                exists i :: 0 <= i < |chunks| && !D.Servable(net, D.RoutesOf(answer.value.plans), chunks[i], digest)
    {
      if answer.None? {
        return Failed;
      }
      var chunks := ChunkSizes(answer.value.fileSize, answer.value.plans);
      var done, running, requested := D.DownloadToFile(chunks, answer.value.plans, temp, net, digest, interrupted);
      if done.Err? {
        return Failed;
      }
      if done.value {
        r := Output(temp.content.value);
        temp.Remove();
        return;
      }
      var cancelled: bool := *;
      if cancelled {
        temp.Remove();
        return Cancelled;
      }
      r := Paused;
    }
  }
}
