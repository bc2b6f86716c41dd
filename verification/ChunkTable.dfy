/**
  The `chunks` and `files` tables as values, and what each transaction of the
  metadata repository does to them, in closed form.  Class PostgresRepository proves
  that the statement-by-statement transactions compute exactly these.
 */
module ChunkTable {
  import opened Basics

  /** A row of `chunks`: the replica set, the reference count and the lease stamp (in seconds). */
  datatype Row = Row(nodes: set<WorkerId>, refCount: int, createdAt: int)

  type Table = map<Hash, Row>

  datatype FileRow = FileRow(user: int, name: string, size: int, chunks: seq<Hash>)

  /** One entry of an upload or download plan. */
  datatype Plan = Plan(hash: Hash, nodes: set<WorkerId>)

  const TOMBSTONE := -1

  // ---------------------------------------------------------------- upload-init

  /** The server asks for a chunk exactly when it has no row or an unreferenced one. */
  predicate Missing(t: Table, h: Hash) {
    h !in t || t[h].refCount == 0
  }

  predicate Locked(t: Table, h: Hash) {
    h in t && t[h].refCount == TOMBSTONE
  }

  /** Where a chunk lives, or would be placed by the shard map. */
  function NodesFor(t: Table, route: map<Hash, set<WorkerId>>, h: Hash): set<WorkerId> {
    if h in t then t[h].nodes else if h in route then route[h] else {}
  }

  /** No registered worker can be named in the plan entry of a missing chunk. */
  predicate Unroutable(t: Table, workers: set<WorkerId>, route: map<Hash, set<WorkerId>>, h: Hash) {
    Missing(t, h) && NodesFor(t, route, h) * workers == {}
  }

  datatype InitError = ChunkLocked | NoRoute

  /** The error of the first hash that stops an upload-init, if any does. */
  function FirstError(t: Table, workers: set<WorkerId>, route: map<Hash, set<WorkerId>>, hashes: seq<Hash>): Option<InitError> {
    if hashes == [] then None else
    var n := |hashes| - 1;
    var before := FirstError(t, workers, route, hashes[..n]);
    if before.Some? then before
    else if Locked(t, hashes[n]) then Some(ChunkLocked)
    else if Unroutable(t, workers, route, hashes[n]) then Some(NoRoute)
    else None
  }

  /** The table after an upload-init: every named row exists and carries a fresh lease stamp. */
  function Refreshed(t: Table, route: map<Hash, set<WorkerId>>, hashes: seq<Hash>, now: int): Table {
    map h | h in t.Keys + (set k | k in hashes) ::
      if h !in t then Row(NodesFor(t, route, h), 0, now)
      else if h in hashes then t[h].(createdAt := now)
      else t[h]
  }

  /** The plan: the missing hashes, in the client's order, repeats included. */
  function MissingPlans(t: Table, workers: set<WorkerId>, route: map<Hash, set<WorkerId>>, hashes: seq<Hash>): seq<Plan> {
    if hashes == [] then [] else
    var n := |hashes| - 1;
    MissingPlans(t, workers, route, hashes[..n]) +
    if Missing(t, hashes[n]) then [Plan(hashes[n], NodesFor(t, route, hashes[n]) * workers)] else []
  }

  /** An upload-init goes through exactly when none of its hashes is tombstoned or unroutable. */
  lemma {:induction false} InitSucceedsIff(t: Table, workers: set<WorkerId>, route: map<Hash, set<WorkerId>>, hashes: seq<Hash>)
    ensures FirstError(t, workers, route, hashes).None? <==>
            forall h :: h in hashes ==> !Locked(t, h) && !Unroutable(t, workers, route, h)
  {
    if hashes == [] {
    } else {
      var n := |hashes| - 1;
      InitSucceedsIff(t, workers, route, hashes[..n]);
      assert hashes == hashes[..n] + [hashes[n]];
    }
  }

  /** The plan entry of a chunk names the registered workers of its row or, for a new one, of its route. */
  ghost predicate PlacesChunk(t: Table, workers: set<WorkerId>, route: map<Hash, set<WorkerId>>, p: Plan, h: Hash) {
    && p.hash == h
    && forall w :: w in p.nodes <==> w in workers && if h in t then w in t[h].nodes else h in route && w in route[h]
  }

  /** The plan picks, in order and with repeats, exactly the hashes without a row or with an unreferenced one. */
  lemma {:induction false} MissingPlansAre(t: Table, workers: set<WorkerId>, route: map<Hash, set<WorkerId>>, hashes: seq<Hash>) returns (idx: seq<nat>)
    ensures Ascending(idx, |hashes|) && |idx| == |MissingPlans(t, workers, route, hashes)|
    ensures forall i: nat :: i in idx <==> i < |hashes| && (hashes[i] !in t || t[hashes[i]].refCount == 0)
    ensures forall k :: 0 <= k < |idx| ==> PlacesChunk(t, workers, route, MissingPlans(t, workers, route, hashes)[k], hashes[idx[k]])
  {
    if hashes == [] {
      idx := [];
    } else {
      var n := |hashes| - 1;
      idx := MissingPlansAre(t, workers, route, hashes[..n]);
      AscendOnce(idx, n);
      if hashes[n] !in t || t[hashes[n]].refCount == 0 {
        idx := idx + [n];
      }
    }
  }

  /** An init fails on its first hash that is a tombstone, or is missing and names no registered worker. */
  lemma {:induction false} FirstErrorIs(t: Table, workers: set<WorkerId>, route: map<Hash, set<WorkerId>>, hashes: seq<Hash>) returns (i: nat)
    requires FirstError(t, workers, route, hashes).Some?
    ensures i < |hashes| && FirstError(t, workers, route, hashes[..i]).None?
    ensures FirstError(t, workers, route, hashes).value
            == if hashes[i] in t && t[hashes[i]].refCount == -1 then ChunkLocked else NoRoute
    ensures hashes[i] in t ==> t[hashes[i]].refCount == -1 || (t[hashes[i]].refCount == 0 && t[hashes[i]].nodes !! workers)
    ensures hashes[i] !in t && hashes[i] in route ==> route[hashes[i]] !! workers
  {
    var n := |hashes| - 1;
    if FirstError(t, workers, route, hashes[..n]).Some? {
      i := FirstErrorIs(t, workers, route, hashes[..n]);
      assert hashes[..n][..i] == hashes[..i];
    } else {
      i := n;
      assert Locked(t, hashes[i]) || NodesFor(t, route, hashes[i]) * workers == {};
      assert forall w :: w in NodesFor(t, route, hashes[i]) && w in workers ==> w in NodesFor(t, route, hashes[i]) * workers;
    }
  }

  // ---------------------------------------------------------------- commit and delete

  /** Commit adds one reference per occurrence of a hash in the file. */
  function Committed(t: Table, hashes: seq<Hash>, now: int): Table {
    map h | h in t :: if h in hashes then t[h].(refCount := t[h].refCount + multiset(hashes)[h], createdAt := now) else t[h]
  }

  /** Delete takes one reference from each distinct hash of the file. */
  function Dereferenced(t: Table, hashes: seq<Hash>): Table {
    map h | h in t :: if h in hashes then t[h].(refCount := t[h].refCount - 1) else t[h]
  }

  predicate Matches(f: FileRow, user: int, name: string) {
    f.user == user && f.name == name
  }

  function Without(files: seq<FileRow>, user: int, name: string): seq<FileRow> {
    if files == [] then [] else
    var n := |files| - 1;
    Without(files[..n], user, name) + if Matches(files[n], user, name) then [] else [files[n]]
  }

  function Matching(files: seq<FileRow>, user: int, name: string): seq<FileRow> {
    if files == [] then [] else
    var n := |files| - 1;
    Matching(files[..n], user, name) + if Matches(files[n], user, name) then [files[n]] else []
  }

  /** What stays after a delete: exactly the rows of another user or name, in their order. */
  lemma {:induction false} WithoutIs(files: seq<FileRow>, user: int, name: string) returns (idx: seq<nat>)
    ensures Ascending(idx, |files|) && |idx| == |Without(files, user, name)|
    ensures forall i: nat :: i in idx <==> i < |files| && !(files[i].user == user && files[i].name == name)
    ensures forall k :: 0 <= k < |idx| ==> Without(files, user, name)[k] == files[idx[k]]
  {
    if files == [] {
      idx := [];
    } else {
      var n := |files| - 1;
      idx := WithoutIs(files[..n], user, name);
      AscendOnce(idx, n);
      if !(files[n].user == user && files[n].name == name) {
        idx := idx + [n];
      }
    }
  }

  /** No row of the user and name is left, and every other row as often as it was there. */
  lemma {:induction false} WithoutCounts(files: seq<FileRow>, user: int, name: string, f: FileRow)
    ensures multiset(Without(files, user, name))[f] == if f.user == user && f.name == name then 0 else multiset(files)[f]
  {
    if files != [] {
      var n := |files| - 1;
      WithoutCounts(files[..n], user, name, f);
      assert files == files[..n] + [files[n]];
    }
  }

  /** How often a hash occurs over all live files. */
  function Occurrences(files: seq<FileRow>, h: Hash): nat {
    if files == [] then 0 else
    var n := |files| - 1;
    Occurrences(files[..n], h) + multiset(files[n].chunks)[h]
  }

  lemma OccurrencesAppend(files: seq<FileRow>, f: FileRow, h: Hash)
    ensures Occurrences(files + [f], h) == Occurrences(files, h) + multiset(f.chunks)[h]
  {
    assert (files + [f])[..|files|] == files;
  }

  /** Deleting a name splits the occurrences between the rows kept and the rows removed. */
  lemma {:induction false} OccurrencesSplit(files: seq<FileRow>, user: int, name: string, h: Hash)
    ensures Occurrences(files, h)
         == Occurrences(Without(files, user, name), h) + Occurrences(Matching(files, user, name), h)
  {
    if files == [] {
    } else {
      var n := |files| - 1;
      OccurrencesSplit(files[..n], user, name, h);
      var kept, removed := Without(files[..n], user, name), Matching(files[..n], user, name);
      if Matches(files[n], user, name) {
        assert Without(files, user, name) == kept + [] == kept;
        OccurrencesAppend(removed, files[n], h);
      } else {
        assert Matching(files, user, name) == removed + [] == removed;
        OccurrencesAppend(kept, files[n], h);
      }
    }
  }

  lemma {:induction false} MemberOccurs(files: seq<FileRow>, k: nat, h: Hash)
    requires k < |files|
    ensures multiset(files[k].chunks)[h] <= Occurrences(files, h)
  {
    var n := |files| - 1;
    if k < n {
      MemberOccurs(files[..n], k, h);
    }
  }

  lemma {:induction false} PickedIsMatching(files: seq<FileRow>, user: int, name: string, k: nat)
    requires k < |files| && Matches(files[k], user, name)
    ensures files[k] in Matching(files, user, name)
  {
    var n := |files| - 1;
    if k < n {
      PickedIsMatching(files[..n], user, name, k);
    }
  }

  /** The row a delete decrements for is among the occurrences it removes. */
  lemma PickedOccurs(files: seq<FileRow>, user: int, name: string, k: nat, h: Hash)
    requires k < |files| && Matches(files[k], user, name)
    ensures multiset(files[k].chunks)[h] <= Occurrences(Matching(files, user, name), h)
  {
    PickedIsMatching(files, user, name, k);
    var m := Matching(files, user, name);
    var j :| 0 <= j < |m| && m[j] == files[k];
    MemberOccurs(m, j, h);
  }

  /** With no other row of the name having chunks, the picked one is all that is removed. */
  lemma {:induction false} OnlyPickedCounts(files: seq<FileRow>, user: int, name: string, pick: nat, h: Hash)
    requires pick < |files| && Matches(files[pick], user, name)
    requires forall i :: 0 <= i < |files| && i != pick && Matches(files[i], user, name) ==> files[i].chunks == []
    ensures Occurrences(Matching(files, user, name), h) == multiset(files[pick].chunks)[h]
  {
    var n := |files| - 1;
    MatchingLast(files, user, name, h);
    if pick < n {
      OnlyPickedCounts(files[..n], user, name, pick, h);
    } else {
      NoChunksNoOccurrences(files[..n], user, name, h);
    }
  }

  lemma {:induction false} MatchingLast(files: seq<FileRow>, user: int, name: string, h: Hash)
    requires files != []
    ensures var n := |files| - 1;
            Occurrences(Matching(files, user, name), h) == Occurrences(Matching(files[..n], user, name), h)
              + (if Matches(files[n], user, name) then multiset(files[n].chunks)[h] else 0)
  {
    var n := |files| - 1;
    var front := Matching(files[..n], user, name);
    if Matches(files[n], user, name) {
      OccurrencesAppend(front, files[n], h);
    } else {
      assert front + [] == front;
    }
  }

  lemma {:induction false} NoChunksNoOccurrences(files: seq<FileRow>, user: int, name: string, h: Hash)
    requires forall i :: 0 <= i < |files| && Matches(files[i], user, name) ==> files[i].chunks == []
    ensures Occurrences(Matching(files, user, name), h) == 0
  {
    if files != [] {
      MatchingLast(files, user, name, h);
      NoChunksNoOccurrences(files[..|files| - 1], user, name, h);
    }
  }

  lemma {:induction false} LastAndEarlier(front: seq<FileRow>, f: FileRow, user: int, name: string, i: nat, h: Hash)
    requires i < |front| && Matches(front[i], user, name) && Matches(f, user, name)
    ensures multiset(front[i].chunks)[h] + multiset(f.chunks)[h] <= Occurrences(Matching(front + [f], user, name), h)
  {
    PickedOccurs(front, user, name, i, h);
    MatchingLast(front + [f], user, name, h);
    assert (front + [f])[..|front|] == front;
  }

  lemma {:induction false} MatchingGrows(front: seq<FileRow>, f: FileRow, user: int, name: string, h: Hash)
    ensures Occurrences(Matching(front, user, name), h) <= Occurrences(Matching(front + [f], user, name), h)
  {
    MatchingLast(front + [f], user, name, h);
    assert (front + [f])[..|front|] == front;
  }

  /** Two rows of the name both count. */
  lemma {:induction false} BothCount(files: seq<FileRow>, user: int, name: string, i: nat, j: nat, h: Hash)
    requires i < j < |files| && Matches(files[i], user, name) && Matches(files[j], user, name)
    ensures multiset(files[i].chunks)[h] + multiset(files[j].chunks)[h] <= Occurrences(Matching(files, user, name), h)
  {
    var front, f := files[..|files| - 1], files[|files| - 1];
    assert files == front + [f];
    if j == |front| {
      LastAndEarlier(front, f, user, name, i, h);
    } else {
      BothCount(front, user, name, i, j, h);
      MatchingGrows(front, f, user, name, h);
    }
  }

  // ---------------------------------------------------------------- garbage collection

  const GC_HOURS := 24
  const GC_BATCH := 100
  const LEASE := GC_HOURS * 3600

  /** Rows the collector may take: unreferenced and stamped more than a lease ago. */
  predicate Expired(t: Table, h: Hash, now: int) {
    h in t && t[h].refCount == 0 && t[h].createdAt < now - LEASE
  }

  function Tombstoned(t: Table, batch: set<Hash>): Table {
    map h | h in t :: if h in batch then t[h].(refCount := TOMBSTONE) else t[h]
  }

  /** Bulk deletion removes only rows that still are tombstones. */
  function Purged(t: Table, hashes: set<Hash>): Table {
    map h | h in t && !(h in hashes && t[h].refCount == TOMBSTONE) :: t[h]
  }

  function Reverted(t: Table, h: Hash, now: int): Table {
    if Locked(t, h) then t[h := t[h].(refCount := 0, createdAt := now)] else t
  }

  // ---------------------------------------------------------------- download plan

  /** The chunk list joined with the chunk table: a hash without a row drops out. */
  function JoinPlans(t: Table, workers: set<WorkerId>, hashes: seq<Hash>): seq<Plan> {
    if hashes == [] then [] else
    var n := |hashes| - 1;
    JoinPlans(t, workers, hashes[..n]) +
    if hashes[n] in t then [Plan(hashes[n], t[hashes[n]].nodes * workers)] else []
  }

  /** The join picks, in order, exactly the hashes that have a row, each with the registered workers of that row. */
  lemma {:induction false} JoinPlansAre(t: Table, workers: set<WorkerId>, hashes: seq<Hash>) returns (idx: seq<nat>)
    ensures Ascending(idx, |hashes|) && |idx| == |JoinPlans(t, workers, hashes)|
    ensures forall i: nat :: i in idx <==> i < |hashes| && hashes[i] in t
    ensures forall k :: 0 <= k < |idx| ==>
              && hashes[idx[k]] in t && JoinPlans(t, workers, hashes)[k].hash == hashes[idx[k]]
              && forall w :: w in JoinPlans(t, workers, hashes)[k].nodes <==> w in workers && w in t[hashes[idx[k]]].nodes
  {
    if hashes == [] {
      idx := [];
    } else {
      var n := |hashes| - 1;
      idx := JoinPlansAre(t, workers, hashes[..n]);
      AscendOnce(idx, n);
      if hashes[n] in t {
        idx := idx + [n];
      }
    }
  }

  /** When every hash has a row, the plan lists the file's chunks one for one, in order. */
  lemma {:induction false} JoinPlansComplete(t: Table, workers: set<WorkerId>, hashes: seq<Hash>)
    requires forall h :: h in hashes ==> h in t
    ensures |JoinPlans(t, workers, hashes)| == |hashes|
    ensures forall i :: 0 <= i < |hashes| ==>
              JoinPlans(t, workers, hashes)[i] == Plan(hashes[i], t[hashes[i]].nodes * workers)
  {
    if hashes == [] {
    } else {
      var n := |hashes| - 1;
      JoinPlansComplete(t, workers, hashes[..n]);
    }
  }
}
