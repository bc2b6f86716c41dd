/** The metadata repository: each method is one transaction, statement by statement. */
module Repository {
  import opened Basics
  import opened ChunkTable
  import opened ShardMap
  import opened Directory

  datatype AdminError = EmptyList | UnknownWorker | NameTaken | UnknownCluster

  datatype Orphan = Orphan(hash: Hash, locations: set<WorkerId>)

  datatype Manifest = Manifest(fileSize: int, plans: seq<Plan>)

  // ---------------------------------------------------------------- one more statement

  lemma {:induction false} FirstErrorOfPrefix(t: Table, workers: set<WorkerId>, route: map<Hash, set<WorkerId>>, hashes: seq<Hash>, i: nat)
    requires i <= |hashes| && FirstError(t, workers, route, hashes[..i]).Some?
    ensures FirstError(t, workers, route, hashes) == FirstError(t, workers, route, hashes[..i])
  {
    if i < |hashes| {
      var n := |hashes| - 1;
      assert hashes[..n][..i] == hashes[..i];
      FirstErrorOfPrefix(t, workers, route, hashes[..n], i);
    } else {
      assert hashes[..i] == hashes;
    }
  }

  /** What one more hash adds to the outcome of an upload-init. */
  lemma {:induction false} FilterOneMore(t: Table, workers: set<WorkerId>, route: map<Hash, set<WorkerId>>, hashes: seq<Hash>, i: nat, now: int)
    requires i < |hashes| && FirstError(t, workers, route, hashes[..i]).None?
    ensures var h := hashes[i];
            && (Locked(t, h) ==> FirstError(t, workers, route, hashes) == Some(ChunkLocked))
            && (Unroutable(t, workers, route, h) ==> FirstError(t, workers, route, hashes) == Some(NoRoute))
            && (!Locked(t, h) && !Unroutable(t, workers, route, h) ==> FirstError(t, workers, route, hashes[..i + 1]).None?)
            && MissingPlans(t, workers, route, hashes[..i + 1]) == MissingPlans(t, workers, route, hashes[..i])
                 + (if Missing(t, h) then [Plan(h, NodesFor(t, route, h) * workers)] else [])
  {
    assert hashes[..i + 1][..i] == hashes[..i];
    if Locked(t, hashes[i]) || Unroutable(t, workers, route, hashes[i]) {
      FirstErrorOfPrefix(t, workers, route, hashes, i + 1);
    }
  }

  lemma {:induction false} RefreshOneMore(t: Table, route: map<Hash, set<WorkerId>>, hashes: seq<Hash>, i: nat, now: int)
    requires i < |hashes|
    ensures var h, r := hashes[i], Refreshed(t, route, hashes[..i], now);
            && (h in r <==> h in t || h in hashes[..i])
            && (h in r && h !in t ==> r[h] == Row(NodesFor(t, route, h), 0, now))
            && (h in t ==> r[h].nodes == t[h].nodes && r[h].refCount == t[h].refCount)
            && Refreshed(t, route, hashes[..i + 1], now)
                 == r[h := if h in r then r[h].(createdAt := now) else Row(NodesFor(t, route, h), 0, now)]
  {
    assert hashes[..i + 1] == hashes[..i] + [hashes[i]];
  }

  lemma {:induction false} CommitOneMore(t: Table, done: seq<Hash>, h: Hash, now: int)
    ensures Committed(t, done + [h], now) ==
            (var r := Committed(t, done, now);
             if h in r then r[h := r[h].(refCount := r[h].refCount + 1, createdAt := now)] else r)
  {
    assert multiset(done + [h]) == multiset(done) + multiset{h};
    assert h in done || multiset(done)[h] == 0;
  }

  lemma {:induction false} CommitNothing(t: Table, now: int)
    ensures Committed(t, [], now) == t
  {
  }

  function ExpiredSet(t: Table, now: int): set<Hash> {
    set h | h in t && Expired(t, h, now)
  }

  lemma {:induction false} SubsetByCount<T>(a: set<T>, b: set<T>)
    ensures |a * b| == |a| <==> forall x :: x in a ==> x in b
  {
    assert a == a * b + (a - b);
    assert |a| == |a * b| + |a - b|;
    if forall x :: x in a ==> x in b {
      assert a * b == a;
    } else {
      var x :| x in a && x !in b;
      assert x in a - b;
    }
  }

  ghost predicate Lists(orphans: seq<Orphan>, batch: set<Hash>, t: Table, workers: set<WorkerId>) {
    && (forall i, j :: 0 <= i < j < |orphans| ==> orphans[i].hash != orphans[j].hash)
    && (forall i :: 0 <= i < |orphans| ==> orphans[i].hash in batch && orphans[i].hash in t && orphans[i].locations == t[orphans[i].hash].nodes * workers)
    && (forall h :: h in batch ==> exists i :: 0 <= i < |orphans| && orphans[i].hash == h)
  }

  /** The manifest is that of a file row of the name, its plan the join of that row's chunks with their rows. */
  ghost predicate AnswersPlan(files: seq<FileRow>, t: Table, workers: set<WorkerId>, user: int, name: string, m: Manifest) {
    exists i :: (0 <= i < |files| && Matches(files[i], user, name)
                 && m == Manifest(files[i].size, JoinPlans(t, workers, files[i].chunks)))
  }

  // ---------------------------------------------------------------- what the transactions mean, field by field

  /** Named rows get a fresh stamp and nothing else; no other row changes, and only named rows are new. */
  ghost predicate RowsRefreshed(t: Table, t': Table, hashes: seq<Hash>, now: int) {
    && (forall h :: h in t' <==> h in t || h in hashes)
    && (forall h :: h in t ==> t'[h] == Row(t[h].nodes, t[h].refCount, if h in hashes then now else t[h].createdAt))
    && (forall h :: h in hashes && h !in t ==> t'[h].refCount == 0 && t'[h].createdAt == now)
  }

  /** The nodes are the registered workers of the cluster that owns the bucket of the digest, all of them and no others. */
  ghost predicate OnOwningCluster(cat: Catalog, h: Hash, nodes: set<WorkerId>)
    requires cat.buckets >= 1 && IsDigest(h.hex)
  {
    var b := HexValue(h.hex[..8]) % cat.buckets;
    && b in cat.shards && cat.shards[b] in cat.clusters
    && forall w :: w in nodes <==> w in cat.workers && w in cat.clusters[cat.shards[b]].nodes
  }

  /** Where the new rows lie. */
  ghost predicate NewRowsPlaced(cat: Catalog, t: Table, t': Table, hashes: seq<Hash>)
    requires cat.buckets >= 1
  {
    forall h :: h in hashes && h !in t && h in t' && IsDigest(h.hex) ==> OnOwningCluster(cat, h, t'[h].nodes)
  }

  /** The plan lists, in order and with repeats, what had no row or no reference, on the registered workers of its row. */
  ghost predicate PlansListed(idx: seq<nat>, t: Table, t': Table, workers: set<WorkerId>, hashes: seq<Hash>, plans: seq<Plan>) {
    && Ascending(idx, |hashes|) && |idx| == |plans|
    && (forall i: nat :: i in idx <==> i < |hashes| && (hashes[i] !in t || t[hashes[i]].refCount == 0))
    && (forall k :: 0 <= k < |idx| ==> plans[k].hash == hashes[idx[k]] && hashes[idx[k]] in t'
                                       && forall w :: w in plans[k].nodes <==> w in t'[hashes[idx[k]]].nodes && w in workers)
  }

  /** A tombstone, an unreferenced row none of whose workers is registered, or a new chunk while there is no cluster. */
  ghost predicate StopsInit(cat: Catalog, t: Table, h: Hash) {
    || (h in t && t[h].refCount == -1)
    || (h in t && t[h].refCount == 0 && forall w :: w in t[h].nodes ==> w !in cat.workers)
    || (h !in t && cat.shards == map[])
  }

  lemma {:induction false} StopsInitIff(cat: Catalog, t: Table, hashes: seq<Hash>, h: Hash)
    requires Directory.Valid(cat) && cat.buckets >= 1 && h in hashes
    ensures Locked(t, h) || Unroutable(t, cat.workers.Keys, RoutesFor(cat, hashes), h) <==> StopsInit(cat, t, h)
  {
    if h in t {
      assert forall w :: w in t[h].nodes * cat.workers.Keys <==> w in t[h].nodes && w in cat.workers;
    } else if cat.shards != map[] {
      RouteExists(cat, h);
      assert RouteOf(cat, h) * cat.workers.Keys == RouteOf(cat, h);
    }
  }

  /** An init fails exactly when one of its hashes stops it, and says CHUNK_LOCKED exactly when the first such is a tombstone. */
  lemma {:induction false} InitErrorIs(cat: Catalog, t: Table, hashes: seq<Hash>)
    requires Directory.Valid(cat) && cat.buckets >= 1
    ensures var e := FirstError(t, cat.workers.Keys, RoutesFor(cat, hashes), hashes);
            && (e.Some? <==> exists h :: h in hashes && StopsInit(cat, t, h))
            && (e.Some? ==> exists i :: (0 <= i < |hashes| && StopsInit(cat, t, hashes[i]) && (forall j :: 0 <= j < i ==> !StopsInit(cat, t, hashes[j]))
                                         && (e.value == ChunkLocked <==> hashes[i] in t && t[hashes[i]].refCount == -1)))
  {
    var route := RoutesFor(cat, hashes);
    InitSucceedsIff(t, cat.workers.Keys, route, hashes);
    forall h | h in hashes
      ensures Locked(t, h) || Unroutable(t, cat.workers.Keys, route, h) <==> StopsInit(cat, t, h)
    {
      StopsInitIff(cat, t, hashes, h);
    }
    if FirstError(t, cat.workers.Keys, route, hashes).Some? {
      var i := FirstErrorIs(t, cat.workers.Keys, route, hashes);
      InitSucceedsIff(t, cat.workers.Keys, route, hashes[..i]);
      assert forall j :: 0 <= j < i ==> hashes[j] in hashes[..i] && hashes[j] in hashes;
      assert hashes[i] in hashes;
    }
  }

  lemma {:induction false} RefreshIs(t: Table, route: map<Hash, set<WorkerId>>, hashes: seq<Hash>, now: int)
    ensures RowsRefreshed(t, Refreshed(t, route, hashes, now), hashes, now)
  {
  }

  lemma {:induction false} RouteIsPlaced(cat: Catalog, h: Hash)
    requires Directory.Valid(cat) && cat.buckets >= 1 && cat.shards != map[] && IsDigest(h.hex)
    ensures OnOwningCluster(cat, h, RouteOf(cat, h))
  {
    var w := WorkerId(0);
    RouteIsOwningCluster(cat, h, w);
    forall w
      ensures w in RouteOf(cat, h) <==> w in cat.workers && w in cat.clusters[cat.shards[HexValue(h.hex[..8]) % cat.buckets]].nodes
    {
      RouteIsOwningCluster(cat, h, w);
    }
  }

  /** Where the new chunks of an init that goes through are put. */
  lemma {:induction false} PlacementIs(cat: Catalog, t: Table, hashes: seq<Hash>, now: int)
    requires Directory.Valid(cat) && cat.buckets >= 1
    requires FirstError(t, cat.workers.Keys, RoutesFor(cat, hashes), hashes).None?
    ensures NewRowsPlaced(cat, t, Refreshed(t, RoutesFor(cat, hashes), hashes, now), hashes)
  {
    var t' := Refreshed(t, RoutesFor(cat, hashes), hashes, now);
    InitErrorIs(cat, t, hashes);
    forall h | h in hashes && h !in t && h in t' && IsDigest(h.hex)
      ensures OnOwningCluster(cat, h, t'[h].nodes)
    {
      assert !StopsInit(cat, t, h);
      RouteExists(cat, h);
      assert t'[h].nodes == RouteOf(cat, h);
      RouteIsPlaced(cat, h);
    }
  }

  lemma {:induction false} PlanIs(t: Table, workers: set<WorkerId>, route: map<Hash, set<WorkerId>>, hashes: seq<Hash>, now: int) returns (idx: seq<nat>)
    ensures PlansListed(idx, t, Refreshed(t, route, hashes, now), workers, hashes, MissingPlans(t, workers, route, hashes))
  {
    idx := MissingPlansAre(t, workers, route, hashes);
  }

  /** One reference more for each occurrence in the file, and a fresh stamp; rows are neither made nor moved. */
  ghost predicate RowsReferenced(t: Table, t': Table, hashes: seq<Hash>, now: int) {
    && t'.Keys == t.Keys
    && forall h :: h in t ==> t'[h] == Row(t[h].nodes, t[h].refCount + multiset(hashes)[h], if h in hashes then now else t[h].createdAt)
  }

  /** One reference less for each distinct hash of the file, and nothing else. */
  ghost predicate RowsReleased(t: Table, t': Table, hashes: seq<Hash>) {
    && t'.Keys == t.Keys
    && forall h :: h in t ==> t'[h] == Row(t[h].nodes, t[h].refCount - (if h in hashes then 1 else 0), t[h].createdAt)
  }

  /** Rows with no reference whose stamp is more than 86400 s old, and no others. */
  ghost predicate AllExpired(t: Table, now: int, expired: set<Hash>) {
    forall h :: h in expired <==> h in t && t[h].refCount == 0 && now - t[h].createdAt > 86400
  }

  /** The rows of the batch carry the count -1; nothing else changes. */
  ghost predicate RowsTombstoned(t: Table, t': Table, batch: set<Hash>) {
    && t'.Keys == t.Keys
    && forall h :: h in t ==> t'[h] == Row(t[h].nodes, if h in batch then -1 else t[h].refCount, t[h].createdAt)
  }

  lemma {:induction false} TombstonesAre(t: Table, batch: set<Hash>)
    ensures RowsTombstoned(t, Tombstoned(t, batch), batch)
  {
  }

  // ---------------------------------------------------------------- the transactions

  class PostgresRepository {
    var files: seq<FileRow>
    var chunks: Table
    var catalog: Catalog
    var nextWorker: int
    var nextCluster: ClusterId

    /** Foreign keys, unique addresses and the serial counters. */
    ghost predicate Valid()
      reads this
    {
      && Directory.Valid(catalog) && catalog.buckets >= 1
      && (forall w :: w in catalog.workers ==> w.id < nextWorker)
      && (forall c :: c in catalog.clusters ==> c < nextCluster)
    }

    constructor (buckets: nat)
      requires buckets >= 1
      ensures Valid() && files == [] && chunks == map[]
      ensures catalog == Catalog(buckets, map[], map[], map[])
    {
      files, chunks := [], map[];
      catalog := Catalog(buckets, map[], map[], map[]);
      nextWorker, nextCluster := 1, 1;
    }

    /** The missing chunks of an upload, with placement; a tombstone or a routing hole rolls everything back. */
    method FilterMissingChunks(hashes: seq<Hash>, now: int) returns (r: Result<seq<Plan>, InitError>)
      requires Valid()
      modifies this`chunks
      ensures Valid()
      ensures var route := RoutesFor(catalog, hashes);
              match FirstError(old(chunks), catalog.workers.Keys, route, hashes)
              case Some(e) => r == Err(e) && chunks == old(chunks)
              case None => r == Ok(MissingPlans(old(chunks), catalog.workers.Keys, route, hashes))
                           && chunks == Refreshed(old(chunks), route, hashes, now)
      ensures r.Ok? ==> RowsRefreshed(old(chunks), chunks, hashes, now) && NewRowsPlaced(catalog, old(chunks), chunks, hashes)
      ensures r.Ok? ==> exists idx :: PlansListed(idx, old(chunks), chunks, catalog.workers.Keys, hashes, r.value)
      ensures r.Err? <==> exists h :: h in hashes && StopsInit(catalog, old(chunks), h)
    {
      InitErrorIs(catalog, chunks, hashes);
      var done := FilterEach(hashes, now);
      if done.Err? {
        return Err(done.error);
      }
      ghost var route := RoutesFor(catalog, hashes);
      RefreshIs(chunks, route, hashes, now);
      PlacementIs(catalog, chunks, hashes, now);
      ghost var idx := PlanIs(chunks, catalog.workers.Keys, route, hashes, now);
      chunks := done.value.0;
      r := Ok(done.value.1);
    }

    /** The statements of the transaction, hash by hash, up to the first that throws. */
    method FilterEach(hashes: seq<Hash>, now: int) returns (r: Result<(Table, seq<Plan>), InitError>)
      requires Valid()
      ensures var route := RoutesFor(catalog, hashes);
              match FirstError(chunks, catalog.workers.Keys, route, hashes)
              case Some(e) => r == Err(e)
              case None => r == Ok((Refreshed(chunks, route, hashes, now), MissingPlans(chunks, catalog.workers.Keys, route, hashes)))
    {
      ghost var route := RoutesFor(catalog, hashes);
      var workers := catalog.workers.Keys;
      var t, plans := chunks, [];
      assert hashes[..|hashes|] == hashes;
      for i := 0 to |hashes|
        invariant FirstError(chunks, workers, route, hashes[..i]).None?
        invariant t == Refreshed(chunks, route, hashes[..i], now)
        invariant plans == MissingPlans(chunks, workers, route, hashes[..i])
      {
        var h := hashes[i];
        FilterOneMore(chunks, workers, route, hashes, i, now);
        RefreshOneMore(chunks, route, hashes, i, now);
        InitSucceedsIff(chunks, workers, route, hashes[..i]);
        if h !in t {
          var placed := RouteOf(catalog, h);
          if placed == {} {
            return Err(NoRoute);
          }
          assert placed * workers == placed;
          t := t[h := Row(placed, 0, now)];
          plans := plans + [Plan(h, placed)];
        } else if t[h].refCount == TOMBSTONE {
          return Err(ChunkLocked);
        } else {
          var row := t[h];
          t := t[h := row.(createdAt := now)];
          if row.refCount == 0 {
            if row.nodes * workers == {} {
              return Err(NoRoute);
            }
            plans := plans + [Plan(h, row.nodes * workers)];
          }
        }
      }
      r := Ok((t, plans));
    }

    /** Records the file and references each occurrence of each chunk, or fails without effect when the database does (`up` is whether it answers). */
    method CommitFile(user: int, name: string, size: int, hashes: seq<Hash>, now: int, up: bool) returns (ok: bool)
      requires Valid()
      modifies this`files, this`chunks
      ensures Valid()
      ensures ok == up
      ensures ok ==> files == old(files) + [FileRow(user, name, size, hashes)] && chunks == Committed(old(chunks), hashes, now)
      ensures ok ==> RowsReferenced(old(chunks), chunks, hashes, now)
      ensures !ok ==> files == old(files) && chunks == old(chunks)
    {
      if !up {
        return false;
      }
      var t := chunks;
      CommitNothing(chunks, now);
      for i := 0 to |hashes|
        invariant chunks == old(chunks) && files == old(files)
        invariant t == Committed(chunks, hashes[..i], now)
      {
        var h := hashes[i];
        assert hashes[..i + 1] == hashes[..i] + [h];
        CommitOneMore(chunks, hashes[..i], h, now);
        if h in t {
          t := t[h := t[h].(refCount := t[h].refCount + 1, createdAt := now)];
        }
      }
      assert hashes[..|hashes|] == hashes;
      files := files + [FileRow(user, name, size, hashes)];
      chunks := t;
      ok := true;
    }

    /** Dereferences the chunks of one matching row, then removes every matching row. */
    method DeleteFile(user: int, name: string) returns (found: bool, pick: nat)
      requires Valid()
      modifies this`files, this`chunks
      ensures Valid()
      ensures found <==> exists f :: f in old(files) && f.user == user && f.name == name
      ensures found ==> pick < |old(files)| && Matches(old(files)[pick], user, name)
      ensures found ==> RowsReleased(old(chunks), chunks, old(files)[pick].chunks)
      ensures forall f :: multiset(files)[f] == if f.user == user && f.name == name then 0 else multiset(old(files))[f]
      ensures found ==> files == Without(old(files), user, name) && chunks == Dereferenced(old(chunks), old(files)[pick].chunks)
      ensures !found ==> files == old(files) && chunks == old(chunks)
    {
      pick := 0;
      forall f
        ensures multiset(Without(files, user, name))[f] == if f.user == user && f.name == name then 0 else multiset(files)[f]
      {
        WithoutCounts(files, user, name, f);
      }
      if i :| 0 <= i < |files| && Matches(files[i], user, name) {
        found, pick := true, i;
        chunks := Dereferenced(chunks, files[pick].chunks);
        files := Without(files, user, name);
      } else {
        found := false;
        assert forall f :: f in files ==> !(f.user == user && f.name == name);
      }
    }

    /** The plan of the one file of that name. */
    method GetDownloadPlan(user: int, name: string) returns (r: Option<Manifest>)
      requires |Matching(files, user, name)| <= 1
      ensures r.None? <==> forall f :: f in files ==> !(f.user == user && f.name == name)
      ensures r.Some? ==> exists f :: (f in files && f.user == user && f.name == name && r.value.fileSize == f.size
                                       && r.value.plans == JoinPlans(chunks, catalog.workers.Keys, f.chunks))
      ensures r.Some? ==> AnswersPlan(files, chunks, catalog.workers.Keys, user, name, r.value)
    {
      if i :| 0 <= i < |files| && Matches(files[i], user, name) {
        r := Some(Manifest(files[i].size, JoinPlans(chunks, catalog.workers.Keys, files[i].chunks)));
      } else {
        r := None;
      }
    }

    /** Tombstones up to `limit` expired rows, whichever the query picks; empty when the database fails. */
    method GetOrphanedChunks(limit: nat, now: int, up: bool) returns (orphans: seq<Orphan>)
      modifies this`chunks
      ensures exists batch: set<Hash> ::
                && batch <= ExpiredSet(old(chunks), now)
                && |batch| == (if up then Min(limit, |ExpiredSet(old(chunks), now)|) else 0)
                && Lists(orphans, batch, old(chunks), catalog.workers.Keys)
                && chunks == Tombstoned(old(chunks), batch)
                && RowsTombstoned(old(chunks), chunks, batch)
      ensures AllExpired(old(chunks), now, ExpiredSet(old(chunks), now))
    {
      var expired := ExpiredSet(chunks, now);
      var k := if up then Min(limit, |expired|) else 0;
      ghost var some := SubsetOfSize(expired, k);
      var batch: set<Hash> :| batch <= expired && |batch| == k;
      orphans := ListRows(batch);
      TombstonesAre(chunks, batch);
      chunks := Tombstoned(chunks, batch);
    }

    /** The rows returned by the update, each with the addresses of its registered workers. */
    method ListRows(batch: set<Hash>) returns (orphans: seq<Orphan>)
      requires batch <= chunks.Keys
      ensures Lists(orphans, batch, chunks, catalog.workers.Keys)
    {
      orphans := [];
      var workers := catalog.workers.Keys;
      var rest := batch;
      while rest != {}
        invariant rest <= batch
        invariant Lists(orphans, batch - rest, chunks, workers)
        decreases rest
      {
        var h :| h in rest;
        ghost var before, listed := orphans, batch - rest;
        orphans := orphans + [Orphan(h, chunks[h].nodes * workers)];
        rest := rest - {h};
        forall g | g in batch - rest
          ensures exists i :: 0 <= i < |orphans| && orphans[i].hash == g
        {
          if g == h {
            assert orphans[|before|].hash == g;
          } else {
            assert g in listed;
            var i :| 0 <= i < |before| && before[i].hash == g;
            assert orphans[i].hash == g;
          }
        }
      }
      assert batch - rest == batch;
    }

    /** Removes the named tombstones, or fails without effect. */
    method DeleteChunkRecordsBulk(hashes: set<Hash>, up: bool) returns (ok: bool)
      modifies this`chunks
      ensures ok == (hashes == {} || up)
      ensures chunks == if ok then Purged(old(chunks), hashes) else old(chunks)
      ensures ok ==> forall h :: if h in old(chunks) && !(h in hashes && old(chunks)[h].refCount == -1)
                                 then h in chunks && chunks[h] == old(chunks)[h] else h !in chunks
    {
      if hashes == {} {
        assert Purged(chunks, {}) == chunks;
        return true;
      }
      ok := up;
      if ok {
        chunks := Purged(chunks, hashes);
      }
    }

    /** Gives a tombstone back with a fresh stamp; a database failure is swallowed. */
    method RevertTombstone(h: Hash, now: int, up: bool)
      modifies this`chunks
      ensures chunks == if up then Reverted(old(chunks), h, now) else old(chunks)
      ensures chunks == if up && h in old(chunks) && old(chunks)[h].refCount == -1
                        then old(chunks)[h := Row(old(chunks)[h].nodes, 0, now)] else old(chunks)
    {
      if up && h in chunks && chunks[h].refCount == TOMBSTONE {
        chunks := chunks[h := chunks[h].(refCount := 0, createdAt := now)];
      }
    }

    /** The node list is non-empty and names registered workers only. */
    method VerifyNodesExist(ids: seq<WorkerId>) returns (error: Option<AdminError>)
      ensures error == if ids == [] then Some(EmptyList) else if !NodesExist(catalog, ids) then Some(UnknownWorker) else None
    {
      if ids == [] {
        return Some(EmptyList);
      }
      var unique := NodeSet(ids);
      var valid := |unique * catalog.workers.Keys|;
      SubsetByCount(unique, catalog.workers.Keys);
      assert forall w :: w in ids <==> w in unique;
      error := if valid != |unique| then Some(UnknownWorker) else None;
    }

    method RegisterWorker(beat: Worker) returns (id: WorkerId)
      requires Valid()
      modifies this`catalog, this`nextWorker
      ensures Valid() && Registered(old(catalog), beat, id, catalog)
      ensures id in old(catalog).workers <==>
              exists w :: w in old(catalog).workers && old(catalog).workers[w].host == beat.host && old(catalog).workers[w].port == beat.port
      ensures id in old(catalog).workers ==> old(catalog).workers[id].host == beat.host && old(catalog).workers[id].port == beat.port
      ensures id in catalog.workers && catalog.workers[id]
              == Worker(beat.host, beat.port, beat.advertisedHost, beat.advertisedPort, beat.freeSpace,
                        if id in old(catalog).workers && old(catalog).workers[id].status == ReadOnly then ReadOnly else Active)
      ensures catalog == old(catalog).(workers := old(catalog).workers[id := catalog.workers[id]])
    {
      if w :| w in catalog.workers && SameAddress(catalog.workers[w], beat.host, beat.port) {
        id := w;
        catalog := catalog.(workers := catalog.workers[id := Beat(Some(catalog.workers[id]), beat)]);
      } else {
        id := WorkerId(nextWorker);
        nextWorker := nextWorker + 1;
        catalog := catalog.(workers := catalog.workers[id := Beat(None, beat)]);
      }
    }

    method AddCluster(name: string, ids: seq<WorkerId>) returns (r: Result<ClusterId, AdminError>)
      requires Valid()
      modifies this`catalog, this`nextCluster
      ensures Valid()
      ensures r.Ok? ==> ClusterAdded(old(catalog), name, ids, r.value, catalog)
      ensures r.Err? ==> catalog == old(catalog)
      ensures r.Err? <==> ids == [] || !NodesExist(old(catalog), ids) || NameUsed(old(catalog), name)
      ensures r.Err? <==> ids == [] || (exists w :: w in ids && w !in old(catalog).workers)
                          || exists c :: c in old(catalog).clusters && old(catalog).clusters[c].name == name
      ensures r.Ok? ==> r.value !in old(catalog).clusters && catalog.workers == old(catalog).workers
                        && catalog.clusters == old(catalog).clusters[r.value := Cluster(name, ids)]
      ensures r.Ok? ==> RoutesTo(catalog, r.value, ids)
    {
      var error := VerifyNodesExist(ids);
      if error.Some? {
        return Err(error.value);
      }
      if NameUsed(catalog, name) {
        return Err(NameTaken);
      }
      var c := nextCluster;
      nextCluster := nextCluster + 1;
      UnknownClusterOwnsNothing(catalog, c);
      var shards := AddOwner(catalog.buckets, catalog.shards, c);
      var added := catalog.(clusters := catalog.clusters[c := Cluster(name, ids)], shards := shards);
      AddKeepsValid(catalog, name, ids, c, added);
      ClusterServesBuckets(added, c);
      catalog := added;
      r := Ok(c);
    }

    method ReplaceCluster(c: ClusterId, ids: seq<WorkerId>) returns (error: Option<AdminError>)
      requires Valid()
      modifies this`catalog
      ensures Valid()
      ensures error.None? ==> ClusterReplaced(old(catalog), c, ids, catalog)
      ensures error.Some? ==> catalog == old(catalog)
      ensures error.Some? <==> c !in old(catalog).clusters || ids == [] || !NodesExist(old(catalog), ids)
      ensures error.Some? <==> c !in old(catalog).clusters || ids == [] || exists w :: w in ids && w !in old(catalog).workers
      ensures error.None? ==> catalog.shards == old(catalog).shards && catalog.workers.Keys == old(catalog).workers.Keys
                              && catalog.clusters == old(catalog).clusters[c := Cluster(old(catalog).clusters[c].name, ids)]
      ensures error.None? ==> forall w :: w in old(catalog).workers ==>
                catalog.workers[w] == old(catalog).workers[w].(status := if w in old(catalog).clusters[c].nodes then ReadOnly else old(catalog).workers[w].status)
      ensures error.None? ==> RoutesTo(catalog, c, ids)
    {
      if c !in catalog.clusters {
        return Some(UnknownCluster);
      }
      error := VerifyNodesExist(ids);
      if error.None? {
        catalog := catalog.(workers := Sealed(catalog.workers, catalog.clusters[c].nodes),
                            clusters := catalog.clusters[c := catalog.clusters[c].(nodes := ids)]);
        ReplaceKeepsValid(old(catalog), c, ids, catalog);
        ClusterServesBuckets(catalog, c);
      }
    }
  }
}
