/** Parallel positional download into a temporary file that earlier runs may have left partly filled. */
module Download {
  import opened Basics
  import opened ChunkTable

  /** What the download expects at one position of the file. */
  datatype Chunk = Chunk(hash: Hash, size: nat)

  /** Workers that answer a GET with the given bytes whenever asked; every other request may end in any way. */
  datatype Network = Network(serves: map<(WorkerId, Hash), Bytes>)

  // ---------------------------------------------------------------- positions

  /** Where chunk i starts. */
  function Offset(chunks: seq<Chunk>, i: nat): nat
    requires i <= |chunks|
  {
    if i == 0 then 0 else Offset(chunks, i - 1) + chunks[i - 1].size
  }

  function Total(chunks: seq<Chunk>): nat {
    Offset(chunks, |chunks|)
  }

  lemma {:induction false} OffsetsGrow(chunks: seq<Chunk>, i: nat, j: nat)
    requires i <= j <= |chunks|
    ensures Offset(chunks, i) <= Offset(chunks, j)
  {
    if i < j {
      OffsetsGrow(chunks, i, j - 1);
    }
  }

  /** The bytes at the position of chunk i. */
  function At(content: Bytes, chunks: seq<Chunk>, i: nat): (r: Bytes)
    requires i < |chunks| && |content| == Total(chunks)
    ensures |r| == chunks[i].size
  {
    OffsetsGrow(chunks, i + 1, |chunks|);
    content[Offset(chunks, i)..Offset(chunks, i + 1)]
  }

  ghost predicate Verified(content: Bytes, chunks: seq<Chunk>, digest: Digest, i: nat) {
    i < |chunks| && |content| == Total(chunks) && digest(At(content, chunks, i)) == chunks[i].hash
  }

  /** Every position holds bytes with its chunk's hash. */
  ghost predicate Complete(content: Bytes, chunks: seq<Chunk>, digest: Digest) {
    |content| == Total(chunks) && forall i :: 0 <= i < |chunks| ==> Verified(content, chunks, digest, i)
  }

  function Overwritten(content: Bytes, offset: nat, b: Bytes): (r: Bytes)
    requires offset + |b| <= |content|
    ensures |r| == |content|
  {
    content[..offset] + b + content[offset + |b|..]
  }

  /** Positions do not overlap: writing chunk j puts it in place and moves no byte of another. */
  lemma {:induction false} WriteOneChunk(content: Bytes, chunks: seq<Chunk>, j: nat, b: Bytes)
    requires |content| == Total(chunks) && j < |chunks| && |b| == chunks[j].size
    ensures Offset(chunks, j) + |b| <= |content|
    ensures var content' := Overwritten(content, Offset(chunks, j), b);
            At(content', chunks, j) == b && forall i :: 0 <= i < |chunks| && i != j ==> At(content', chunks, i) == At(content, chunks, i)
  {
    OffsetsGrow(chunks, j + 1, |chunks|);
    var content' := Overwritten(content, Offset(chunks, j), b);
    forall i | 0 <= i < |chunks| && i != j
      ensures At(content', chunks, i) == At(content, chunks, i)
    {
      OffsetsGrow(chunks, i + 1, |chunks|);
      if i < j {
        OffsetsGrow(chunks, i + 1, j);
      } else {
        OffsetsGrow(chunks, j + 1, i);
      }
    }
  }

  /** A file is determined by its positions. */
  lemma {:induction false} PositionsCover(a: Bytes, b: Bytes, chunks: seq<Chunk>, n: nat)
    requires |a| == |b| == Total(chunks) && n <= |chunks|
    requires forall i :: 0 <= i < n ==> At(a, chunks, i) == At(b, chunks, i)
    ensures Offset(chunks, n) <= |a| && a[..Offset(chunks, n)] == b[..Offset(chunks, n)]
  {
    OffsetsGrow(chunks, n, |chunks|);
    if n > 0 {
      PositionsCover(a, b, chunks, n - 1);
      var m := Offset(chunks, n - 1);
      assert a[..Offset(chunks, n)] == a[..m] + At(a, chunks, n - 1);
      assert b[..Offset(chunks, n)] == b[..m] + At(b, chunks, n - 1);
    }
  }

  // ---------------------------------------------------------------- the temporary file

  class TempFile {
    var content: Option<Bytes>

    constructor (content: Option<Bytes>)
      ensures this.content == content
    {
      this.content := content;
    }

    /** Truncates, then stretches to n bytes. */
    method Allocate(n: nat)
      modifies this
      ensures content.Some? && |content.value| == n
    {
      content := Some(seq(n, i => 0));
    }

    /** The file is gone: renamed to its final name, or deleted. */
    method Remove()
      modifies this
      ensures content == None
    {
      content := None;
    }

    method WriteAt(offset: nat, b: Bytes)
      requires content.Some? && offset + |b| <= |content.value|
      modifies this
      ensures content == Some(Overwritten(old(content).value, offset, b))
    {
      content := Some(Overwritten(content.value, offset, b));
    }
  }

  // ---------------------------------------------------------------- one chunk from its replicas

  ghost predicate Reliable(net: Network, w: WorkerId, chunk: Chunk, digest: Digest) {
    (w, chunk.hash) in net.serves && |net.serves[(w, chunk.hash)]| == chunk.size && digest(net.serves[(w, chunk.hash)]) == chunk.hash
  }

  /** Some replica in the routing map keeps answering with the right bytes. */
  ghost predicate Servable(net: Network, routes: map<Hash, set<WorkerId>>, chunk: Chunk, digest: Digest) {
    chunk.hash in routes && exists w :: w in routes[chunk.hash] && Reliable(net, w, chunk, digest)
  }

  /** Takes the pieces of a response body into the buffer, giving up on the first that does not fit. */
  method Receive(buffer: Bytes, body: Bytes) returns (buffer': Bytes, complete: bool)
    ensures |buffer'| == |buffer|
    ensures complete ==> buffer' == body
    ensures |body| == |buffer| ==> complete
  {
    buffer' := buffer;
    var written := 0;
    while written < |body|
      invariant |buffer'| == |buffer| && written <= |body| && written <= |buffer|
      invariant buffer'[..written] == body[..written]
    {
      var n: nat :| 0 < n <= |body| - written;
      var piece := body[written..written + n];
      if written + n > |buffer| {
        return buffer', false;
      }
      buffer' := buffer'[..written] + piece + buffer'[written + n..];
      written := written + n;
    }
    assert body[..|body|] == body;
    assert written == |buffer| ==> buffer'[..written] == buffer';
    complete := written == |buffer|;
  }

  /** The failover loop: only bytes of the exact size and digest are accepted, and one reliable replica is enough. */
  method DownloadChunkFromReplica(net: Network, nodes: set<WorkerId>, chunk: Chunk, digest: Digest) returns (r: Option<Bytes>)
    ensures r.Some? ==> |r.value| == chunk.size && digest(r.value) == chunk.hash
    ensures r.None? ==> forall w :: w in nodes ==> !Reliable(net, w, chunk, digest)
  {
    var rest := nodes;
    var buffer := seq(chunk.size, i => 0);
    while rest != {}
      invariant |buffer| == chunk.size && rest <= nodes
      invariant forall w :: w in nodes - rest ==> !Reliable(net, w, chunk, digest)
      decreases rest
    {
      var w :| w in rest;
      rest := rest - {w};
      var status: int, body: Bytes := *, *;
      if (w, chunk.hash) in net.serves {
        status, body := 200, net.serves[(w, chunk.hash)];
      }
      var complete;
      buffer, complete := Receive(buffer, body);
      if status == 200 && complete && digest(buffer) == chunk.hash {
        return Some(buffer);
      }
    }
    r := None;
  }

  // ---------------------------------------------------------------- the transfer

  /** The node lists of the plans, by hash; a later plan replaces an earlier one. */
  function RoutesOf(plans: seq<Plan>): map<Hash, set<WorkerId>> {
    if plans == [] then map[] else RoutesOf(plans[..|plans| - 1])[plans[|plans| - 1].hash := plans[|plans| - 1].nodes]
  }

  /** The map has the hashes of the plans, each with the nodes of its last plan. */
  lemma {:induction false} LastPlanRoutes(plans: seq<Plan>, i: nat)
    requires i < |plans| && forall j :: i < j < |plans| ==> plans[j].hash != plans[i].hash
    ensures plans[i].hash in RoutesOf(plans) && RoutesOf(plans)[plans[i].hash] == plans[i].nodes
    ensures forall h :: h in RoutesOf(plans) <==> exists j :: 0 <= j < |plans| && plans[j].hash == h
  {
    RoutedHashes(plans);
    var n := |plans| - 1;
    if i < n {
      LastPlanRoutes(plans[..n], i);
    }
  }

  lemma {:induction false} RoutedHashes(plans: seq<Plan>)
    ensures forall h :: h in RoutesOf(plans) <==> exists j :: 0 <= j < |plans| && plans[j].hash == h
  {
    if plans != [] {
      var n := |plans| - 1;
      RoutedHashes(plans[..n]);
      forall h
        ensures h in RoutesOf(plans) <==> exists j :: 0 <= j < |plans| && plans[j].hash == h
      {
        if h == plans[n].hash {
          assert plans[n].hash == h;
        } else if h in RoutesOf(plans[..n]) {
          var j :| 0 <= j < n && plans[..n][j].hash == h;
          assert plans[j].hash == h;
        } else if j :| 0 <= j < |plans| && plans[j].hash == h {
          assert plans[..n][j].hash == h;
        }
      }
    }
  }

  method RoutingMap(plans: seq<Plan>) returns (routes: map<Hash, set<WorkerId>>)
    ensures routes == RoutesOf(plans)
  {
    routes := map[];
    for i := 0 to |plans|
      invariant routes == RoutesOf(plans[..i])
    {
      assert plans[..i + 1][..i] == plans[..i];
      routes := routes[plans[i].hash := plans[i].nodes];
    }
    assert plans[..|plans|] == plans;
  }

  /**
    The transfer between two steps: chunks being fetched, chunks fetched but not
    yet written, chunks no replica delivered, and every chunk ever requested.
   */
  datatype Fetch = Fetch(
    next: nat,
    stopped: bool,
    running: bool,
    fetching: set<nat>,
    ready: map<nat, Bytes>,
    failed: set<nat>,
    requested: set<nat>)

  ghost predicate FetchOk(f: Fetch, content: Bytes, chunks: seq<Chunk>, digest: Digest) {
    && f.next <= |chunks| && |content| == Total(chunks)
    && (forall i :: i in f.fetching || i in f.ready || i in f.failed || i in f.requested ==> i < f.next)
    && f.fetching !! f.ready.Keys && f.fetching !! f.failed && f.ready.Keys !! f.failed
    && (forall i :: i in f.ready ==> |f.ready[i]| == chunks[i].size && digest(f.ready[i]) == chunks[i].hash)
    && (forall i: nat :: i < f.next ==> i in f.fetching || i in f.ready || i in f.failed || Verified(content, chunks, digest, i))
    && (f.stopped ==> !f.running)
  }

  ghost predicate Unservable(failed: set<nat>, net: Network, routes: map<Hash, set<WorkerId>>, chunks: seq<Chunk>, digest: Digest) {
    forall i :: i in failed && i < |chunks| ==> !Servable(net, routes, chunks[i], digest)
  }

  /** No position that was right before is wrong now. */
  ghost predicate NothingLost(before: Bytes, content: Bytes, chunks: seq<Chunk>, digest: Digest) {
    forall i: nat :: Verified(before, chunks, digest, i) ==> Verified(content, chunks, digest, i)
  }

  /** The pass over a file of the right size, until paused. */
  method VerifyPartial(content: Bytes, chunks: seq<Chunk>, digest: Digest, interrupted: bool) returns (completed: seq<bool>, running: bool)
    requires |content| == Total(chunks)
    ensures running || interrupted
    ensures |completed| == |chunks|
    ensures forall i :: 0 <= i < |chunks| && completed[i] ==> Verified(content, chunks, digest, i)
    ensures running ==> forall i :: 0 <= i < |chunks| && Verified(content, chunks, digest, i) ==> completed[i]
  {
    completed, running := seq(|chunks|, i => false), true;
    var offset := 0;
    for i := 0 to |chunks|
      invariant |completed| == |chunks| && running && offset == Offset(chunks, i)
      invariant forall k :: 0 <= k < i ==> (completed[k] <==> Verified(content, chunks, digest, k))
      invariant forall k :: i <= k < |chunks| ==> !completed[k]
    {
      var paused: bool := *;
      if paused && interrupted {
        return completed, false;
      }
      OffsetsGrow(chunks, i + 1, |chunks|);
      var buffer := content[offset..offset + chunks[i].size];
      assert buffer == At(content, chunks, i);
      if digest(buffer) == chunks[i].hash {
        completed := completed[i := true];
      }
      offset := offset + chunks[i].size;
    }
  }

  /** The main thread looks at its next chunk; a chunk without a route ends the download. */
  method DispatchNext(f: Fetch, chunks: seq<Chunk>, completed: seq<bool>, routes: map<Hash, set<WorkerId>>, interrupted: bool, ghost content: Bytes, digest: Digest)
      returns (r: Result<Fetch, Hash>)
    requires FetchOk(f, content, chunks, digest) && !f.stopped && f.next < |chunks| == |completed|
    requires completed[f.next] ==> Verified(content, chunks, digest, f.next)
    ensures r.Ok? ==> FetchOk(r.value, content, chunks, digest) && r.value.failed == f.failed && (r.value.stopped || r.value.next == f.next + 1)
    ensures r.Ok? ==> forall i :: i in r.value.requested ==> i in f.requested || (i == f.next && !completed[i])
    ensures r.Ok? ==> r.value.next >= f.next
    ensures r.Ok? ==> forall i :: i in r.value.fetching ==> i in f.fetching || chunks[i].hash in routes
    ensures r.Ok? && f.running && !interrupted ==> r.value.running
    ensures !f.running ==> r.Ok? && !r.value.running && r.value.requested == f.requested
    ensures r.Err? ==> r.error == chunks[f.next].hash && r.error !in routes
  {
    var paused: bool := *;
    if (paused && interrupted) || !f.running {
      return Ok(f.(running := false, stopped := true));
    }
    if completed[f.next] {
      return Ok(f.(next := f.next + 1));
    }
    if chunks[f.next].hash !in routes {
      return Err(chunks[f.next].hash);
    }
    r := Ok(f.(next := f.next + 1, fetching := f.fetching + {f.next}, requested := f.requested + {f.next}));
  }

  /** A pool thread ends its request. */
  method FetchOne(f: Fetch, chunks: seq<Chunk>, net: Network, routes: map<Hash, set<WorkerId>>, ghost content: Bytes, digest: Digest) returns (f': Fetch)
    requires FetchOk(f, content, chunks, digest) && f.fetching != {} && Unservable(f.failed, net, routes, chunks, digest)
    requires forall i :: i in f.fetching ==> i < |chunks| && chunks[i].hash in routes
    ensures FetchOk(f', content, chunks, digest) && Unservable(f'.failed, net, routes, chunks, digest)
    ensures f' == f.(fetching := f'.fetching, ready := f'.ready, failed := f'.failed)
    ensures f'.fetching < f.fetching && |f'.fetching| < |f.fetching|
  {
    var i :| i in f.fetching;
    var r := DownloadChunkFromReplica(net, routes[chunks[i].hash], chunks[i], digest);
    var rest := f.fetching - {i};
    f' := Answered(f, i, r);
    AnswerKeeps(f, content, chunks, digest, i, r);
    assert f.fetching == rest + {i};
  }

  /** The state after the request for chunk i ended. */
  function Answered(f: Fetch, i: nat, r: Option<Bytes>): Fetch {
    var rest := f.fetching - {i};
    if r.Some? then f.(fetching := rest, ready := f.ready[i := r.value]) else f.(fetching := rest, failed := f.failed + {i})
  }

  lemma {:induction false} AnswerKeeps(f: Fetch, content: Bytes, chunks: seq<Chunk>, digest: Digest, i: nat, r: Option<Bytes>)
    requires FetchOk(f, content, chunks, digest) && i in f.fetching && i < |chunks|
    requires r.Some? ==> |r.value| == chunks[i].size && digest(r.value) == chunks[i].hash
    ensures FetchOk(Answered(f, i, r), content, chunks, digest)
  {
  }

  /** Writing a chunk's own bytes makes its position right and spoils none. */
  lemma {:induction false} WriteVerifies(content: Bytes, chunks: seq<Chunk>, digest: Digest, j: nat, b: Bytes)
    requires |content| == Total(chunks) && j < |chunks| && |b| == chunks[j].size && digest(b) == chunks[j].hash
    ensures Offset(chunks, j) + |b| <= |content|
    ensures Verified(Overwritten(content, Offset(chunks, j), b), chunks, digest, j)
    ensures NothingLost(content, Overwritten(content, Offset(chunks, j), b), chunks, digest)
  {
    WriteOneChunk(content, chunks, j, b);
  }

  lemma {:induction false} WrittenKeeps(f: Fetch, content: Bytes, content': Bytes, chunks: seq<Chunk>, digest: Digest, j: nat)
    requires FetchOk(f, content, chunks, digest) && j in f.ready
    requires |content'| == |content| && NothingLost(content, content', chunks, digest) && Verified(content', chunks, digest, j)
    ensures FetchOk(f.(ready := f.ready - {j}), content', chunks, digest)
  {
    var f' := f.(ready := f.ready - {j});
    forall i: nat | i < f'.next
      ensures i in f'.fetching || i in f'.ready || i in f'.failed || Verified(content', chunks, digest, i)
    {
      assert Verified(content, chunks, digest, i) ==> Verified(content', chunks, digest, i);
    }
  }

  /** A pool thread writes under the lock. */
  method WriteOne(f: Fetch, chunks: seq<Chunk>, temp: TempFile, digest: Digest) returns (f': Fetch)
    requires temp.content.Some? && FetchOk(f, temp.content.value, chunks, digest) && f.ready != map[]
    modifies temp
    ensures temp.content.Some? && FetchOk(f', temp.content.value, chunks, digest)
    ensures NothingLost(old(temp.content).value, temp.content.value, chunks, digest)
    ensures f' == f.(ready := f'.ready) && |f'.ready.Keys| < |f.ready.Keys|
  {
    ghost var some := Element(f.ready.Keys);
    var i :| i in f.ready;
    WriteVerifies(temp.content.value, chunks, digest, i, f.ready[i]);
    temp.WriteAt(Offset(chunks, i), f.ready[i]);
    f' := f.(ready := f.ready - {i});
    WrittenKeeps(f, old(temp.content).value, temp.content.value, chunks, digest, i);
    assert f.ready.Keys == f'.ready.Keys + {i};
  }

  /** What the next run finds: a file of the right size stays, anything else is replaced by an empty allocation. */
  method Prepare(chunks: seq<Chunk>, temp: TempFile, digest: Digest, interrupted: bool) returns (completed: seq<bool>, running: bool)
    modifies temp
    ensures running || interrupted
    ensures temp.content.Some? && |temp.content.value| == Total(chunks) && |completed| == |chunks|
    ensures old(temp.content).Some? && |old(temp.content).value| == Total(chunks) ==> temp.content == old(temp.content)
    ensures forall i :: 0 <= i < |chunks| && completed[i] ==> Verified(temp.content.value, chunks, digest, i)
    ensures running && old(temp.content).Some? ==>
              forall i :: 0 <= i < |chunks| && Verified(old(temp.content).value, chunks, digest, i) ==> completed[i]
  {
    completed, running := seq(|chunks|, i => false), true;
    if temp.content.None? || |temp.content.value| != Total(chunks) {
      temp.Allocate(Total(chunks));
    } else {
      completed, running := VerifyPartial(temp.content.value, chunks, digest, interrupted);
    }
  }

  /** Every requested chunk was unverified when the run began. */
  ghost predicate OnlyMissing(requested: set<nat>, before: Option<Bytes>, chunks: seq<Chunk>, digest: Digest) {
    before.Some? ==> forall i :: i in requested ==> !Verified(before.value, chunks, digest, i)
  }

  /**
    One run of the download on whatever an earlier run left.  Main thread and
    pool threads take turns in any order.  Ok(true) means a complete file;
    Ok(false) means paused, if the user does so (`interrupted`); an error means
    some chunk had no replica that serves it.  No outcome spoils a position that
    was right before.
   */
  method DownloadToFile(chunks: seq<Chunk>, plans: seq<Plan>, temp: TempFile, net: Network, digest: Digest, interrupted: bool)
      returns (r: Result<bool, Hash>, running: bool, requested: set<nat>)
    modifies temp
    ensures running || interrupted
    ensures temp.content.Some? && |temp.content.value| == Total(chunks)
    ensures r == Ok(true) ==> Complete(temp.content.value, chunks, digest)
    ensures r.Ok? ==> r.value == running
    ensures r.Err? ==> exists i :: 0 <= i < |chunks| && chunks[i].hash == r.error && !Servable(net, RoutesOf(plans), chunks[i], digest)
    ensures old(temp.content).Some? ==> NothingLost(old(temp.content).value, temp.content.value, chunks, digest)
    ensures OnlyMissing(requested, old(temp.content), chunks, digest)
  {
    var routes := RoutingMap(plans);
    var completed, running0 := Prepare(chunks, temp, digest, interrupted);
    var outcome, f := RunFetch(chunks, completed, running0, routes, temp, net, digest, interrupted);
    requested := f.requested;
    if outcome.Err? {
      return Err(outcome.error), f.running, requested;
    }
    var failure := AwaitAll(f.failed, chunks);
    if failure.Some? {
      return Err(failure.value), f.running, requested;
    }
    // The user may also have paused after the last write.
    var paused: bool := *;
    running := f.running && !(paused && interrupted);
    r := Ok(running);
  }

  /** The first future that carries an exception rethrows it. */
  method AwaitAll(failed: set<nat>, chunks: seq<Chunk>) returns (failure: Option<Hash>)
    ensures failure.Some? ==> exists i :: i in failed && i < |chunks| && chunks[i].hash == failure.value
    ensures failure.None? ==> forall i :: i in failed ==> i >= |chunks|
  {
    for i := 0 to |chunks|
      invariant forall k :: 0 <= k < i ==> k !in failed
    {
      if i in failed {
        return Some(chunks[i].hash);
      }
    }
    failure := None;
  }

  method RunFetch(chunks: seq<Chunk>, completed: seq<bool>, running: bool, routes: map<Hash, set<WorkerId>>, temp: TempFile, net: Network, digest: Digest, interrupted: bool)
      returns (outcome: Result<(), Hash>, f: Fetch)
    requires temp.content.Some? && |temp.content.value| == Total(chunks) && |completed| == |chunks|
    requires forall i :: 0 <= i < |chunks| && completed[i] ==> Verified(temp.content.value, chunks, digest, i)
    modifies temp
    ensures temp.content.Some? && FetchOk(f, temp.content.value, chunks, digest)
    ensures NothingLost(old(temp.content).value, temp.content.value, chunks, digest)
    ensures Unservable(f.failed, net, routes, chunks, digest)
    ensures outcome.Ok? ==> f.fetching == {} && f.ready == map[] && (f.stopped || f.next == |chunks|)
    ensures outcome.Err? ==> exists i :: 0 <= i < |chunks| && chunks[i].hash == outcome.error && outcome.error !in routes
    ensures forall i :: i in f.requested ==> i < |chunks| && !completed[i]
    ensures !running ==> f.requested == {} && !f.running
    ensures running && !interrupted ==> f.running
  {
    ghost var before := temp.content.value;
    f := Fetch(0, false, running, {}, map[], {}, {});
    while
      invariant temp.content.Some? && FetchOk(f, temp.content.value, chunks, digest)
      invariant NothingLost(before, temp.content.value, chunks, digest)
      invariant Unservable(f.failed, net, routes, chunks, digest)
      invariant forall i :: i in f.fetching ==> i < |chunks| && chunks[i].hash in routes
      invariant forall i :: i in f.requested ==> i < |chunks| && !completed[i]
      invariant !running ==> f.requested == {} && !f.running
      invariant running && !interrupted ==> f.running
      decreases |chunks| - f.next, if f.stopped then 0 else 1, |f.fetching|, |f.ready.Keys|
    {
      case !f.stopped && f.next < |chunks| =>
        var next := DispatchNext(f, chunks, completed, routes, interrupted, temp.content.value, digest);
        if next.Err? {
          return Err(next.error), f;
        }
        f := next.value;
      case f.fetching != {} =>
        f := FetchOne(f, chunks, net, routes, temp.content.value, digest);
      case f.ready != map[] =>
        f := WriteOne(f, chunks, temp, digest);
    }
    outcome := Ok(());
  }
}
