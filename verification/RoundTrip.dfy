/** What goes up comes down: the client's two operations joined by any run of the chunk lifecycle. */
module RoundTrip {
  import opened Basics
  import opened ChunkTable
  import opened Slicer
  import opened Repository
  import opened Client
  import opened Worker
  import D = Download
  import L = Lifecycle
  import LT = LifecycleTheorems

  // ---------------------------------------------------------------- positions are slices

  /** The sizes computed from the file size alone lay the slices end to end. */
  lemma {:induction false} SizedOffsets(data: Bytes, plans: seq<Plan>, i: nat)
    requires i <= |plans|
    ensures D.Offset(Sized(|data|, plans), i) == Min(i * CHUNK_SIZE, |data|)
  {
    if i > 0 {
      SizedOffsets(data, plans, i - 1);
    }
  }

  lemma {:induction false} SizedCoversFile(data: Bytes, plans: seq<Plan>)
    requires |plans| == NumChunks(|data|, CHUNK_SIZE)
    ensures D.Total(Sized(|data|, plans)) == |data|
    ensures forall i :: 0 <= i < |plans| ==> D.At(data, Sized(|data|, plans), i) == Slice(data, CHUNK_SIZE, i)
  {
    var n := |plans|;
    SizedOffsets(data, plans, n);
    ChunkExists(|data|, CHUNK_SIZE, n);
    forall i | 0 <= i < n
      ensures D.At(data, Sized(|data|, plans), i) == Slice(data, CHUNK_SIZE, i)
    {
      SizedOffsets(data, plans, i);
      SizedOffsets(data, plans, i + 1);
      ChunkExists(|data|, CHUNK_SIZE, i);
    }
  }

  /** Among the data in play, the file's slices and what was downloaded in their places, equal digests mean equal bytes. */
  ghost predicate NoCollision(data: Bytes, content: Bytes, chunks: seq<D.Chunk>, digest: Digest)
    requires |content| == D.Total(chunks)
  {
    forall i :: 0 <= i < |chunks| && digest(D.At(content, chunks, i)) == digest(Slice(data, CHUNK_SIZE, i))
                ==> D.At(content, chunks, i) == Slice(data, CHUNK_SIZE, i)
  }

  ghost predicate PlansFor(plans: seq<Plan>, hashes: seq<Hash>) {
    |plans| == |hashes| && forall i :: 0 <= i < |hashes| ==> plans[i].hash == hashes[i]
  }

  /** A complete download of a file's chunks is the file, and nothing else is complete. */
  lemma {:induction false} CompleteIffIdentical(data: Bytes, plans: seq<Plan>, content: Bytes, digest: Digest)
    requires PlansFor(plans, HashesOf(data, digest))
    requires |content| == D.Total(Sized(|data|, plans)) && NoCollision(data, content, Sized(|data|, plans), digest)
    ensures D.Complete(content, Sized(|data|, plans), digest) <==> content == data
  {
    var chunks := Sized(|data|, plans);
    SizedCoversFile(data, plans);
    if D.Complete(content, chunks, digest) {
      forall i | 0 <= i < |chunks|
        ensures D.At(content, chunks, i) == D.At(data, chunks, i)
      {
        assert D.Verified(content, chunks, digest, i);
        assert plans[i].hash == HashesOf(data, digest)[i];
      }
      D.PositionsCover(content, data, chunks, |chunks|);
      assert content[..|content|] == content && data[..|data|] == data;
    } else if content == data {
      forall i | 0 <= i < |chunks|
        ensures D.Verified(content, chunks, digest, i)
      {
        assert plans[i].hash == HashesOf(data, digest)[i];
      }
    }
  }

  /** No chunk the client sends is empty or over a megabyte, so none is too large for a worker. */
  lemma {:induction false} ChunksFitWorkers(data: Bytes, i: nat)
    requires i < NumChunks(|data|, CHUNK_SIZE)
    ensures 0 < |Slice(data, CHUNK_SIZE, i)| <= 1048576 < PAYLOAD_LIMIT
  {
    OnlyLastIsShort(|data|, CHUNK_SIZE, i);
  }

  /** What a client sends of its file a healthy worker stores, exactly when its encryption fits above the floor, and serves from then on. */
  method StoreChunk(server: WorkerServer, data: Bytes, i: nat, iv: Bytes) returns (status: int, got: int, body: Bytes)
    requires server.Valid() && i < NumChunks(|data|, CHUNK_SIZE) && server.storage.digest(Slice(data, CHUNK_SIZE, i)).hex != []
    modifies server.storage
    ensures server.Valid()
    ensures status == 200 <==> old(server.storage.disk).available - old(server.storage.disk).inFlight
                               >= |server.storage.cipher.enc(Slice(data, CHUNK_SIZE, i), iv)| + 52428800
    ensures status == 200 ==> got == 200 && body == Slice(data, CHUNK_SIZE, i)
  {
    ChunksFitWorkers(data, i);
    var chunk := Slice(data, CHUNK_SIZE, i);
    status := server.Post(server.storage.digest(chunk), chunk, iv, true);
    got, body := server.Get(server.storage.digest(chunk));
  }

  // ---------------------------------------------------------------- the file row between commit and download

  ghost predicate Removes(step: L.Step, user: int, name: string) {
    step.Delete? && step.user == user && step.name == name
  }

  lemma {:induction false} WithoutKeepsOthers(files: seq<FileRow>, user: int, name: string, row: FileRow)
    requires row in files && !Matches(row, user, name)
    ensures row in Without(files, user, name)
  {
    var n := |files| - 1;
    if files[n] != row {
      WithoutKeepsOthers(files[..n], user, name, row);
    }
  }

  lemma {:induction false} RowStays(tr: seq<L.State>, steps: seq<L.Step>, n: nat, m: nat, row: FileRow)
    requires L.IsRun(tr, steps) && n <= m < |tr| && row in tr[n].files
    requires forall i :: n <= i < m ==> !Removes(steps[i], row.user, row.name)
    ensures row in tr[m].files
  {
    if n < m {
      RowStays(tr, steps, n, m - 1, row);
      var step := steps[m - 1];
      assert L.Takes(tr, steps, m - 1);
      if step.Delete? {
        WithoutKeepsOthers(tr[m - 1].files, step.user, step.name, row);
      }
    }
  }

  lemma {:induction false} OnlyMatch(files: seq<FileRow>, user: int, name: string, row: FileRow, i: nat)
    requires |Matching(files, user, name)| <= 1
    requires row in files && Matches(row, user, name) && i < |files| && Matches(files[i], user, name)
    ensures files[i] == row
  {
    var k :| 0 <= k < |files| && files[k] == row;
    PickedIsMatching(files, user, name, k);
    PickedIsMatching(files, user, name, i);
  }

  // ---------------------------------------------------------------- the theorem

  /** Step n of the run is the commit the attempt asked for. */
  ghost predicate CarriesOut(s: L.State, step: L.Step, r: Report) {
    && step.Commit? && r.commit.Some? && step.sid in s.sessions && s.sessions[step.sid].hashes == r.hashes
    && r.commit.value == FileRow(step.user, step.name, step.size, r.hashes)
  }

  /**
    The premises of a round trip: step n commits the upload of `data`, nobody
    deletes that name up to state m, where it has one row and `answer` is its
    download plan.
   */
  ghost predicate Uploaded(tr: seq<L.State>, steps: seq<L.Step>, n: nat, m: nat, r: Report, user: int, name: string, data: Bytes, answer: Manifest, digest: Digest) {
    && L.IsRun(tr, steps) && n < m < |tr|
    && IsCommitOf(r, user, name, data, digest) && CarriesOut(tr[n], steps[n], r)
    && (forall i :: n < i < m ==> !Removes(steps[i], user, name))
    && |Matching(tr[m].files, user, name)| <= 1
    && AnswersPlan(tr[m].files, tr[m].chunks, tr[m].workers, user, name, answer)
  }

  lemma {:induction false} CommittedRow(tr: seq<L.State>, steps: seq<L.Step>, n: nat, m: nat, r: Report, user: int, name: string, data: Bytes, answer: Manifest, digest: Digest)
      returns (k: nat)
    requires Uploaded(tr, steps, n, m, r, user, name, data, answer, digest)
    ensures k < |tr[m].files| && tr[m].files[k] == FileRow(user, name, |data|, r.hashes)
    ensures answer == Manifest(|data|, JoinPlans(tr[m].chunks, tr[m].workers, r.hashes))
  {
    var row := r.commit.value;
    assert L.Takes(tr, steps, n);
    assert tr[n + 1].files[|tr[n].files|] == row;
    RowStays(tr, steps, n + 1, m, row);
    var files := tr[m].files;
    k :| 0 <= k < |files| && Matches(files[k], user, name)
      && answer == Manifest(files[k].size, JoinPlans(tr[m].chunks, tr[m].workers, files[k].chunks));
    OnlyMatch(files, user, name, row, k);
  }

  /** Whatever happened in between, a complete download of an uploaded file is that file. */
  lemma UploadThenDownload(tr: seq<L.State>, steps: seq<L.Step>, n: nat, m: nat, r: Report, user: int, name: string, data: Bytes, answer: Manifest, digest: Digest)
    requires Uploaded(tr, steps, n, m, r, user, name, data, answer, digest)
    ensures answer.fileSize == |data| && PlansFor(answer.plans, HashesOf(data, digest))
    ensures forall content :: |content| == D.Total(Sized(|data|, answer.plans)) && NoCollision(data, content, Sized(|data|, answer.plans), digest)
              ==> (D.Complete(content, Sized(|data|, answer.plans), digest) <==> content == data)
  {
    var k := CommittedRow(tr, steps, n, m, r, user, name, data, answer, digest);
    LT.DownloadPlanIsComplete(tr, steps, m, k);
    var plans := answer.plans;
    forall content | |content| == D.Total(Sized(|data|, plans)) && NoCollision(data, content, Sized(|data|, plans), digest)
      ensures D.Complete(content, Sized(|data|, plans), digest) <==> content == data
    {
      CompleteIffIdentical(data, plans, content, digest);
    }
  }

  /** Workers keep answering for the chunks of this file that they store. */
  ghost predicate Honest(net: D.Network, stored: set<(WorkerId, Hash)>, data: Bytes, digest: Digest) {
    forall i: nat, w: WorkerId :: i < NumChunks(|data|, CHUNK_SIZE) && (w, HashesOf(data, digest)[i]) in stored ==>
      && (w, HashesOf(data, digest)[i]) in net.serves
      && net.serves[(w, HashesOf(data, digest)[i])] == Slice(data, CHUNK_SIZE, i)
  }

  lemma {:induction false} RouteIsSomePlan(plans: seq<Plan>, i: nat) returns (j: nat)
    requires i < |plans|
    ensures j < |plans| && plans[j].hash == plans[i].hash
    ensures plans[i].hash in D.RoutesOf(plans) && D.RoutesOf(plans)[plans[i].hash] == plans[j].nodes
  {
    var n := |plans| - 1;
    if plans[n].hash == plans[i].hash {
      j := n;
    } else {
      j := RouteIsSomePlan(plans[..n], i);
    }
  }

  /** Every chunk of the committed file can be fetched: some replica in the plan stores it. */
  lemma EveryChunkIsServable(tr: seq<L.State>, steps: seq<L.Step>, n: nat, m: nat, r: Report, user: int, name: string, data: Bytes, answer: Manifest, net: D.Network, digest: Digest)
    requires Uploaded(tr, steps, n, m, r, user, name, data, answer, digest) && Honest(net, tr[m].stored, data, digest)
    ensures forall i :: 0 <= i < |answer.plans| ==> D.Servable(net, D.RoutesOf(answer.plans), Sized(|data|, answer.plans)[i], digest)
  {
    var k := CommittedRow(tr, steps, n, m, r, user, name, data, answer, digest);
    LT.DownloadPlanIsComplete(tr, steps, m, k);
    var plans := answer.plans;
    var hashes := HashesOf(data, digest);
    assert hashes == r.hashes;
    forall i | 0 <= i < |plans|
      ensures D.Servable(net, D.RoutesOf(plans), Sized(|data|, plans)[i], digest)
    {
      var j := RouteIsSomePlan(plans, i);
      var w :| w in plans[j].nodes && (w, hashes[j]) in tr[m].stored;
      assert hashes[j] == hashes[i] && (w, hashes[i]) in tr[m].stored;
      assert D.Reliable(net, w, Sized(|data|, plans)[i], digest);
    }
  }

  /** A download of the uploaded file never fails, and what it puts out is the identical file. */
  method DownloadUploaded(client: DSEClient, temp: D.TempFile, net: D.Network, digest: Digest, interrupted: bool, answer: Manifest, ghost data: Bytes, user: int, name: string,
                          ghost tr: seq<L.State>, ghost steps: seq<L.Step>, ghost n: nat, ghost m: nat, ghost r: Report)
      returns (f: Fetched)
    requires Uploaded(tr, steps, n, m, r, user, name, data, answer, digest) && Honest(net, tr[m].stored, data, digest)
    modifies temp
    ensures !interrupted ==> f.Output?
    ensures !f.Failed?
    ensures f.Output? ==> |f.content| == |data| == D.Total(Sized(|data|, answer.plans))
    ensures f.Output? ==> (NoCollision(data, f.content, Sized(|data|, answer.plans), digest) ==> f.content == data)
  {
    UploadThenDownload(tr, steps, n, m, r, user, name, data, answer, digest);
    EveryChunkIsServable(tr, steps, n, m, r, user, name, data, answer, net, digest);
    SizedCoversFile(data, answer.plans);
    f := client.DownloadFile(Some(answer), temp, net, digest, interrupted);
  }
}
