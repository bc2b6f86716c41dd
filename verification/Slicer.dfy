/** Cutting a file into chunks: the input stream, parallel hashing and the random-access second pass. */
module Slicer {
  import opened Basics
  import opened Sync

  // ---------------------------------------------------------------- slices

  /** How many chunks of size c a file of n bytes has. */
  function NumChunks(n: nat, c: nat): nat
    requires c > 0
  {
    (n + c - 1) / c
  }

  /** What a chunk that starts at byte p holds. */
  function LengthAt(n: nat, c: nat, p: nat): nat {
    if p >= n then 0 else if p + c <= n then c else n - p
  }

  function SliceLength(n: nat, c: nat, i: nat): nat {
    LengthAt(n, c, i * c)
  }

  /** Bytes p to min(p + c, size), empty beyond the end. */
  function Cut(data: Bytes, c: nat, p: nat): (r: Bytes)
    ensures |r| == LengthAt(|data|, c, p)
  {
    if p >= |data| then [] else if p + c <= |data| then data[p..p + c] else data[p..]
  }

  /** Bytes i*c to min(i*c + c, size). */
  function Slice(data: Bytes, c: nat, i: nat): (r: Bytes)
    ensures |r| == SliceLength(|data|, c, i)
  {
    Cut(data, c, i * c)
  }

  /** Slice i is exactly those of the bytes i*c to (i+1)*c that the file has. */
  lemma {:induction false} SliceIs(data: Bytes, c: nat, i: nat)
    requires c > 0 && i * c <= |data|
    ensures i * c <= Min((i + 1) * c, |data|) && Slice(data, c, i) == data[i * c..Min((i + 1) * c, |data|)]
  {
    assert (i + 1) * c == i * c + c;
  }

  /** Chunk i exists exactly when it starts inside the file. */
  lemma {:induction false} ChunkExists(n: nat, c: nat, i: nat)
    requires c > 0
    ensures i < NumChunks(n, c) <==> i * c < n
  {
    var q := NumChunks(n, c);
    var r := (n + c - 1) % c;
    assert n + c - 1 == q * c + r;
    if i < q {
      ProductMonotone(i + 1, q, c);
      assert (i + 1) * c == i * c + c;
    } else {
      ProductMonotone(q, i, c);
    }
  }

  lemma {:induction false} SliceIsEmptyIff(n: nat, c: nat, i: nat)
    requires c > 0
    ensures SliceLength(n, c, i) == 0 <==> i >= NumChunks(n, c)
  {
    ChunkExists(n, c, i);
  }

  /** Every chunk but the last is full. */
  lemma {:induction false} OnlyLastIsShort(n: nat, c: nat, i: nat)
    requires c > 0 && i < NumChunks(n, c)
    ensures 0 < SliceLength(n, c, i) <= c
    ensures SliceLength(n, c, i) < c ==> i == NumChunks(n, c) - 1
  {
    ChunkExists(n, c, i);
    ChunkExists(n, c, i + 1);
    assert (i + 1) * c == i * c + c;
  }

  // ---------------------------------------------------------------- the input stream

  /** An open binary input stream: position, end-of-file bit and fail bit. */
  datatype Stream = Stream(data: Bytes, pos: nat, eof: bool, failed: bool) {

    predicate Good() {
      !eof && !failed
    }

    /** Positions from the start: clears the end-of-file bit, but does nothing on a failed stream. */
    function Seek(offset: nat): Stream {
      if failed then this.(eof := false) else this.(pos := offset, eof := false)
    }

    /** Reads up to n bytes; coming up short sets both bits, and a stream that is not good yields nothing. */
    function Read(n: nat): (Stream, Bytes) {
      if !Good() then (this.(failed := true), [])
      else if pos + n <= |data| then (this.(pos := pos + n), data[pos..pos + n])
      else if pos <= |data| then (Stream(data, |data|, true, true), data[pos..])
      else (Stream(data, pos, true, true), [])
    }
  }

  /** Opening clears all bits. */
  function Opened(data: Bytes): Stream {
    Stream(data, 0, false, false)
  }

  /** A read that starts at chunk i of a good stream returns slice i, and leaves the stream good exactly when the slice is full. */
  lemma {:induction false} ReadIsSlice(s: Stream, c: nat, i: nat)
    requires c > 0 && s.Good() && s.pos == i * c
    ensures s.Read(c).1 == Slice(s.data, c, i) && s.Read(c).0.data == s.data
    ensures s.Read(c).0.Good() <==> SliceLength(|s.data|, c, i) == c
    ensures s.Read(c).0.Good() ==> s.Read(c).0.pos == (i + 1) * c
    ensures !s.Read(c).0.Good() ==> s.Read(c).0.failed
  {
    assert (i + 1) * c == i * c + c;
  }

  // ---------------------------------------------------------------- pass 1: parallel hashing

  const HASH_PERMITS := 32

  /** The producer has read chunk k into its buffer and stands behind it. */
  ghost predicate Produced(file: Stream, data: Bytes, c: nat, buffer: Bytes, k: nat) {
    && file.data == data && buffer == Slice(data, c, k)
    && (file.Good() <==> |buffer| == c)
    && (file.Good() ==> file.pos == (k + 1) * c)
  }

  lemma {:induction false} FirstChunk(data: Bytes, c: nat)
    requires c > 0
    ensures Produced(Opened(data).Read(c).0, data, c, Opened(data).Read(c).1, 0)
  {
    ReadIsSlice(Opened(data), c, 0);
  }

  /** What the producer reads next. */
  lemma {:induction false} ProduceNext(file: Stream, data: Bytes, c: nat, buffer: Bytes, k: nat)
    requires c > 0 && Produced(file, data, c, buffer, k) && |buffer| > 0
    ensures Produced(file.Read(c).0, data, c, file.Read(c).1, k + 1)
  {
    if file.Good() {
      ReadIsSlice(file, c, k + 1);
    } else {
      assert |data| < (k + 1) * c;
    }
  }

  /** One turn of the producer: its buffer is a chunk of the file exactly when it is not empty, and reading on yields the next. */
  lemma {:induction false} NextChunk(file: Stream, data: Bytes, c: nat, buffer: Bytes, k: nat)
    requires c > 0 && Produced(file, data, c, buffer, k)
    ensures |buffer| > 0 <==> k < NumChunks(|data|, c)
    ensures |buffer| > 0 ==> Produced(file.Read(c).0, data, c, file.Read(c).1, k + 1)
  {
    SliceIsEmptyIff(|data|, c, k);
    if |buffer| > 0 {
      ProduceNext(file, data, c, buffer, k);
    }
  }

  /** The chunks a sequential reader would go on to produce. */
  function Remaining(file: Stream, buffer: Bytes, c: nat): seq<Bytes>
    requires c > 0
    decreases if file.Good() && file.pos <= |file.data| then |file.data| - file.pos + 1 else 0, |buffer|
  {
    if buffer == [] then [] else [buffer] + Remaining(file.Read(c).0, file.Read(c).1, c)
  }

  lemma {:induction false} RemainingAreSlices(file: Stream, data: Bytes, c: nat, buffer: Bytes, k: nat)
    requires c > 0 && Produced(file, data, c, buffer, k) && k <= NumChunks(|data|, c)
    ensures |Remaining(file, buffer, c)| == NumChunks(|data|, c) - k
    ensures SlicesFrom(data, c, k, Remaining(file, buffer, c))
    decreases NumChunks(|data|, c) - k
  {
    NextChunk(file, data, c, buffer, k);
    if buffer != [] {
      RemainingAreSlices(file.Read(c).0, data, c, file.Read(c).1, k + 1);
      OneSliceMore(data, c, k, buffer, Remaining(file.Read(c).0, file.Read(c).1, c));
    }
  }

  /** The chunks are the slices from slice k on. */
  ghost predicate SlicesFrom(data: Bytes, c: nat, k: nat, chunks: seq<Bytes>) {
    forall i :: 0 <= i < |chunks| ==> chunks[i] == Slice(data, c, k + i)
  }

  lemma {:induction false} OneSliceMore(data: Bytes, c: nat, k: nat, first: Bytes, rest: seq<Bytes>)
    requires first == Slice(data, c, k) && SlicesFrom(data, c, k + 1, rest)
    ensures SlicesFrom(data, c, k, [first] + rest)
  {
    forall i | 0 <= i < |[first] + rest|
      ensures ([first] + rest)[i] == Slice(data, c, k + i)
    {
      if i > 0 {
        assert rest[i - 1] == Slice(data, c, k + 1 + (i - 1));
      }
    }
  }

  /** The pool: jobs being hashed (each holds a permit), jobs whose permit is back but whose promise is not set, and results. */
  datatype Pool = Pool(hashing: set<nat>, publishing: set<nat>, results: map<nat, Hash>)

  /** Each submitted job is in one stage, and results are the digests of their jobs. */
  ghost predicate PoolOk(pool: Pool, jobs: seq<Bytes>, digest: Digest) {
    && (forall i: nat :: i < |jobs| <==> i in pool.hashing || i in pool.publishing || i in pool.results)
    && pool.hashing !! pool.publishing && pool.hashing !! pool.results.Keys && pool.publishing !! pool.results.Keys
    && (forall i :: i in pool.results && i < |jobs| ==> pool.results[i] == digest(jobs[i]))
  }

  method Submit(limiter: Semaphore, pool: Pool, jobs: seq<Bytes>, job: Bytes, digest: Digest) returns (pool': Pool)
    requires PoolOk(pool, jobs, digest) && limiter.count > 0
    modifies limiter
    ensures PoolOk(pool', jobs + [job], digest)
    ensures limiter.count + |pool'.hashing| == old(limiter.count) + |pool.hashing|
  {
    limiter.Acquire();
    pool' := pool.(hashing := pool.hashing + {|jobs|});
  }

  method Release(limiter: Semaphore, pool: Pool, jobs: seq<Bytes>, digest: Digest) returns (pool': Pool)
    requires PoolOk(pool, jobs, digest) && pool.hashing != {}
    modifies limiter
    ensures PoolOk(pool', jobs, digest) && |pool'.hashing| == |pool.hashing| - 1
    ensures limiter.count + |pool'.hashing| == old(limiter.count) + |pool.hashing|
  {
    var t :| t in pool.hashing;
    limiter.Release();
    pool' := pool.(hashing := pool.hashing - {t}, publishing := pool.publishing + {t});
  }

  method Publish(pool: Pool, jobs: seq<Bytes>, digest: Digest) returns (pool': Pool)
    requires PoolOk(pool, jobs, digest) && pool.publishing != {}
    ensures PoolOk(pool', jobs, digest) && |pool'.publishing| == |pool.publishing| - 1 && pool'.hashing == pool.hashing
  {
    var t :| t in pool.publishing;
    pool' := pool.(publishing := pool.publishing - {t}, results := pool.results[t := digest(jobs[t])]);
  }

  /** The producer reads on. */
  method ReadOn(file: Stream, buffer: Bytes, c: nat, ghost before: seq<Bytes>) returns (file': Stream, buffer': Bytes)
    requires c > 0 && |buffer| > 0
    ensures before + [buffer] + Remaining(file', buffer', c) == before + Remaining(file, buffer, c)
  {
    var read := file.Read(c);
    file', buffer' := read.0, read.1;
  }

  /**
    One producer reads on while pool threads hash; every interleaving of their
    steps is a choice of the loop.  The loop ends only when all hashes are in,
    so no schedule deadlocks, it always ends, and all permits are back.
   */
  method HashRemaining(start: Stream, first: Bytes, c: nat, digest: Digest, limiter: Semaphore) returns (hashes: seq<Hash>)
    requires c > 0 && limiter.count == 32
    modifies limiter
    ensures limiter.count == 32
    ensures |hashes| == |Remaining(start, first, c)|
    ensures forall i :: 0 <= i < |hashes| ==> hashes[i] == digest(Remaining(start, first, c)[i])
  {
    var file, buffer := start, first;
    ghost var chunks := Remaining(file, buffer, c);
    var jobs: seq<Bytes>, pool := [], Pool({}, {}, map[]);
    while
      invariant limiter.count + |pool.hashing| == HASH_PERMITS
      invariant jobs + Remaining(file, buffer, c) == chunks
      invariant PoolOk(pool, jobs, digest)
      decreases |chunks| - |jobs|, |pool.hashing|, |pool.publishing|
    {
      case |buffer| > 0 && limiter.count > 0 =>
        pool := Submit(limiter, pool, jobs, buffer, digest);
        ghost var before := jobs;
        jobs := jobs + [buffer];
        file, buffer := ReadOn(file, buffer, c, before);
      case pool.hashing != {} =>
        pool := Release(limiter, pool, jobs, digest);
      case pool.publishing != {} =>
        pool := Publish(pool, jobs, digest);
    }
    assert jobs == chunks;
    hashes := Collect(pool.results, |jobs|);
  }

  method ComputeHashes(data: Bytes, c: nat, digest: Digest) returns (hashes: seq<Hash>)
    requires c > 0
    ensures |hashes| == NumChunks(|data|, c)
    ensures forall i :: 0 <= i < |hashes| ==> hashes[i] == digest(Slice(data, c, i))
  {
    var read := Opened(data).Read(c);
    FirstChunk(data, c);
    RemainingAreSlices(read.0, data, c, read.1, 0);
    var limiter := new Semaphore(HASH_PERMITS);
    hashes := HashRemaining(read.0, read.1, c, digest, limiter);
  }

  /** Awaiting the futures in submission order. */
  method Collect(results: map<nat, Hash>, n: nat) returns (hashes: seq<Hash>)
    requires forall i: nat :: i < n ==> i in results
    ensures |hashes| == n && forall i :: 0 <= i < n ==> hashes[i] == results[i]
  {
    hashes := [];
    for i := 0 to n
      invariant |hashes| == i && forall k :: 0 <= k < i ==> hashes[k] == results[k]
    {
      hashes := hashes + [results[i]];
    }
  }

  // ---------------------------------------------------------------- pass 2: random access

  /** One ReadChunk: seek, then read. */
  function ReadAt(s: Stream, c: nat, i: nat): (Stream, Bytes) {
    s.Seek(i * c).Read(c)
  }

  /** The buffers a list of reads returns, one after the other on the same stream. */
  function ReadAll(s: Stream, c: nat, indices: seq<nat>): (Stream, seq<Bytes>) {
    if indices == [] then (s, []) else
    var before := ReadAll(s, c, indices[..|indices| - 1]);
    var last := ReadAt(before.0, c, indices[|indices| - 1]);
    (last.0, before.1 + [last.1])
  }

  ghost predicate AllSlices(data: Bytes, c: nat, indices: seq<nat>, buffers: seq<Bytes>) {
    |buffers| == |indices| && forall k :: 0 <= k < |indices| ==> buffers[k] == Slice(data, c, indices[k])
  }

  ghost predicate InRange(n: nat, c: nat, indices: seq<nat>)
    requires c > 0
  {
    forall k :: 0 <= k < |indices| ==> indices[k] < NumChunks(n, c)
  }

  ghost predicate Full(n: nat, c: nat, i: nat) {
    SliceLength(n, c, i) == c
  }

  /** A short chunk is read at most as the last one. */
  ghost predicate ShortReadLast(n: nat, c: nat, indices: seq<nat>) {
    AllFull(n, c, if indices == [] then [] else indices[..|indices| - 1])
  }

  ghost predicate AllFull(n: nat, c: nat, indices: seq<nat>) {
    forall k :: 0 <= k < |indices| ==> Full(n, c, indices[k])
  }

  /** On a stream that has not failed ReadChunk returns its slice, and the stream fails exactly on a short one; on a failed stream it returns nothing. */
  lemma {:induction false} ReadAtIsSlice(s: Stream, c: nat, i: nat)
    requires c > 0 && i < NumChunks(|s.data|, c)
    ensures ReadAt(s, c, i).0.data == s.data
    ensures !s.failed ==> ReadAt(s, c, i).1 == Slice(s.data, c, i)
    ensures !s.failed ==> (ReadAt(s, c, i).0.failed <==> !Full(|s.data|, c, i))
    ensures s.failed ==> ReadAt(s, c, i).0.failed && ReadAt(s, c, i).1 != Slice(s.data, c, i)
  {
    OnlyLastIsShort(|s.data|, c, i);
    if !s.failed {
      ReadIsSlice(s.Seek(i * c), c, i);
    }
  }

  /** The stream has failed exactly when some chunk read was short. */
  lemma {:induction false} ReadAllState(data: Bytes, c: nat, indices: seq<nat>)
    requires c > 0 && InRange(|data|, c, indices)
    ensures var r := ReadAll(Opened(data), c, indices);
            r.0.data == data && |r.1| == |indices| && (!r.0.failed <==> AllFull(|data|, c, indices))
  {
    if indices != [] {
      var n := |indices| - 1;
      var front := indices[..n];
      ReadAllState(data, c, front);
      var before := ReadAll(Opened(data), c, front);
      ReadAtIsSlice(before.0, c, indices[n]);
      ReadAtSticks(before.0, c, indices[n]);
      assert AllFull(|data|, c, indices) <==> AllFull(|data|, c, front) && Full(|data|, c, indices[n]);
    }
  }

  /** A failed stream stays failed. */
  lemma {:induction false} ReadAtSticks(s: Stream, c: nat, i: nat)
    ensures s.failed ==> ReadAt(s, c, i).0.failed
  {
  }

  lemma {:induction false} SlicesAppend(data: Bytes, c: nat, indices: seq<nat>, buffers: seq<Bytes>, i: nat, b: Bytes)
    requires |indices| == |buffers|
    ensures AllSlices(data, c, indices + [i], buffers + [b]) <==> AllSlices(data, c, indices, buffers) && b == Slice(data, c, i)
  {
    if AllSlices(data, c, indices + [i], buffers + [b]) {
      forall k | 0 <= k < |indices|
        ensures buffers[k] == Slice(data, c, indices[k])
      {
        assert (buffers + [b])[k] == buffers[k] && (indices + [i])[k] == indices[k];
      }
      assert (buffers + [b])[|indices|] == b && (indices + [i])[|indices|] == i;
    }
  }

  lemma {:induction false} FullMeansShortLast(n: nat, c: nat, indices: seq<nat>)
    ensures AllFull(n, c, indices) ==> ShortReadLast(n, c, indices)
  {
  }

  /** What a read of chunk i returns after the reads of a list. */
  function ReadAfter(data: Bytes, c: nat, indices: seq<nat>, i: nat): Bytes {
    ReadAt(ReadAll(Opened(data), c, indices).0, c, i).1
  }

  lemma {:induction false} ReadAfterIff(data: Bytes, c: nat, indices: seq<nat>, i: nat)
    requires c > 0 && InRange(|data|, c, indices) && i < NumChunks(|data|, c)
    ensures ReadAfter(data, c, indices, i) == Slice(data, c, i) <==> AllFull(|data|, c, indices)
  {
    ReadAllState(data, c, indices);
    ReadAtIsSlice(ReadAll(Opened(data), c, indices).0, c, i);
  }

  /** Any list of in-range reads returns the right slices exactly when a short chunk comes last if at all. */
  lemma {:induction false} SecondPassIff(data: Bytes, c: nat, indices: seq<nat>)
    requires c > 0 && InRange(|data|, c, indices)
    ensures AllSlices(data, c, indices, ReadAll(Opened(data), c, indices).1) <==> ShortReadLast(|data|, c, indices)
  {
    if indices != [] {
      var front, i := indices[..|indices| - 1], indices[|indices| - 1];
      ReadAllState(data, c, front);
      SecondPassIff(data, c, front);
      FullMeansShortLast(|data|, c, front);
      ReadAfterIff(data, c, front, i);
      ReadAllAppend(data, c, front, i);
      SlicesAppend(data, c, front, ReadAll(Opened(data), c, front).1, i, ReadAfter(data, c, front, i));
      assert indices == front + [i];
    }
  }

  lemma {:induction false} ReadAllAppend(data: Bytes, c: nat, front: seq<nat>, i: nat)
    ensures ReadAll(Opened(data), c, front + [i]).1 == ReadAll(Opened(data), c, front).1 + [ReadAfter(data, c, front, i)]
  {
    assert (front + [i])[..|front|] == front;
  }

  /** A strictly increasing list is read right: only the final index of the file can come up short. */
  lemma {:induction false} SecondPassReadsFirst(data: Bytes, c: nat, indices: seq<nat>)
    requires c > 0 && InRange(|data|, c, indices)
    requires forall j, k :: 0 <= j < k < |indices| ==> indices[j] < indices[k]
    ensures AllSlices(data, c, indices, ReadAll(Opened(data), c, indices).1)
  {
    forall k | 0 <= k < |indices| - 1
      ensures Full(|data|, c, indices[k])
    {
      OnlyLastIsShort(|data|, c, indices[k]);
      assert indices[k] < indices[k + 1];
    }
    SecondPassIff(data, c, indices);
  }

  /** The file slicer's stream; each ReadChunk goes on where the previous one left the bits. */
  class LocalFileSlicer {
    var stream: Option<Stream>

    constructor ()
      ensures stream == None
    {
      stream := None;
    }

    method OpenStream(data: Bytes)
      modifies this
      ensures stream == Some(Opened(data))
    {
      CloseStream();
      stream := Some(Opened(data));
    }

    method ReadChunk(i: nat, c: nat) returns (buffer: Bytes)
      requires stream.Some?
      modifies this
      ensures stream == Some(ReadAt(old(stream).value, c, i).0) && buffer == ReadAt(old(stream).value, c, i).1
    {
      var positioned := stream.value.Seek(i * c);
      var read := positioned.Read(c);
      stream, buffer := Some(read.0), read.1;
    }

    method CloseStream()
      modifies this
      ensures stream == None
    {
      stream := None;
    }
  }
}
