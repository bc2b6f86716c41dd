/** The worker: chunk storage on one disk shared by concurrent handlers, and the hash-checked chunk endpoints. */
module Worker {
  import opened Basics
  import opened DiskReserve

  /** AES-256-CBC as an assumed inverse pair; the random vector is a parameter. */
  datatype Cipher = Cipher(enc: (Bytes, Bytes) -> Bytes, dec: Bytes -> Option<Bytes>)

  ghost predicate Inverse(c: Cipher) {
    forall b, iv :: c.dec(c.enc(b, iv)) == Some(b)
  }

  /** A stored file is the encryption of bytes with the digest it is named after. */
  ghost predicate Authentic(files: map<Hash, Bytes>, c: Cipher, digest: Digest) {
    forall h :: h in files ==> exists b, iv :: files[h] == c.enc(b, iv) && digest(b) == h
  }

  /** What a load of h returns: nothing when the file is absent or does not decrypt. */
  function Loaded(files: map<Hash, Bytes>, c: Cipher, h: Hash): Bytes {
    if h !in files then [] else match c.dec(files[h]) case None => [] case Some(b) => b
  }

  lemma {:induction false} StoreIsAuthentic(files: map<Hash, Bytes>, c: Cipher, digest: Digest, b: Bytes, iv: Bytes)
    requires Authentic(files, c, digest)
    ensures Authentic(files[digest(b) := c.enc(b, iv)], c, digest)
  {
    var files' := files[digest(b) := c.enc(b, iv)];
    forall h | h in files'
      ensures exists b', iv' :: files'[h] == c.enc(b', iv') && digest(b') == h
    {
      if h == digest(b) {
        assert files'[h] == c.enc(b, iv) && digest(b) == h;
      } else {
        assert files'[h] == files[h];
      }
    }
  }

  lemma LoadedIsAuthentic(files: map<Hash, Bytes>, c: Cipher, digest: Digest, h: Hash)
    requires Inverse(c) && Authentic(files, c, digest) && h in files
    ensures digest(Loaded(files, c, h)) == h
  {
    var b, iv :| files[h] == c.enc(b, iv) && digest(b) == h;
    assert c.dec(c.enc(b, iv)) == Some(b);
  }

  class LocalDiskStorage {
    const cipher: Cipher
    const digest: Digest
    var files: map<Hash, Bytes>
    var disk: Disk

    /** While any save is live, free space covers all unwritten bytes and the floor: no other program uses this disk. */
    ghost predicate Valid()
      reads this
    {
      && Inverse(cipher) && Balanced(disk) && (disk.live != map[] ==> Covered(disk, 0))
    }

    /** Every handler checks digests, so every file is what its name says. */
    ghost predicate AllAuthentic()
      reads this
    {
      Authentic(files, cipher, digest)
    }

    constructor (cipher: Cipher, digest: Digest, available: nat)
      requires Inverse(cipher)
      ensures Valid() && AllAuthentic() && files == map[] && disk == Disk(available, 0, map[])
    {
      this.cipher, this.digest := cipher, digest;
      files := map[];
      disk := Disk(available, 0, map[]);
      assert ReservedOf(map[]) == map[];
    }

    /** One act on the accounts; a live save keeps its cover. */
    method Account(a: Act)
      requires Valid() && !a.Foreign?
      modifies this`disk
      ensures Valid() && disk == After(old(disk), a)
    {
      ActKeepsInvariant(disk, a, 0);
      LiveMeansAdmitted(disk, a);
      disk := After(disk, a);
    }

    /** Checks and reserves under the lock; the file system may fail to say what is free (`queried` is whether it does). */
    method ReserveSpace(id: nat, size: nat, queried: bool) returns (ok: bool)
      requires Valid() && id !in disk.live
      modifies this`disk
      ensures Valid() && (ok <==> queried && old(disk).available - old(disk).inFlight >= size + 52428800)
      ensures ok ==> disk == Disk(old(disk).available, old(disk).inFlight + size, old(disk).live[id := Write(size, 0)])
      ensures disk == if ok then After(old(disk), Reserve(id, size)) else old(disk)
    {
      ok := queried && Fits(disk, size);
      if ok {
        Account(Reserve(id, size));
      }
    }

    /** Any number of other handlers act; none of them owns reservation `mine`. */
    method Others(mine: nat)
      requires Valid() && mine in disk.live
      modifies this
      ensures Valid() && mine in disk.live && disk.live[mine] == old(disk).live[mine]
      ensures old(AllAuthentic()) ==> AllAuthentic()
    {
      var rounds: int :| rounds >= 0;
      for r := 0 to rounds
        invariant Valid() && mine in disk.live && disk.live[mine] == old(disk).live[mine]
        invariant old(AllAuthentic()) ==> AllAuthentic()
      {
        OthersTurn(mine);
      }
    }

    method OthersTurn(mine: nat)
      requires Valid() && mine in disk.live
      modifies this
      ensures Valid() && mine in disk.live && disk.live[mine] == old(disk).live[mine]
      ensures old(AllAuthentic()) ==> AllAuthentic()
    {
      var turn: int, id: nat, n: nat := *, *, *;
      var body: Bytes, iv: Bytes := *, *;
      if id == mine {
        return;
      }
      match turn
      case 0 => Account(Reserve(id, n));
      case 1 => Account(Put(id, n));
      case 2 => Account(Release(id));
      case 3 => Account(Freed(n));
      case 4 => Store(digest(body), body, iv);
      case _ => files := files - {digest(body)};
    }

    /** Reserves, writes piece by piece among other handlers, and releases its reservation `mine` on every path; on a `healthy` disk it succeeds exactly when the file fits. */
    method SaveChunk(h: Hash, data: Bytes, iv: Bytes, healthy: bool) returns (ok: bool, ghost mine: nat)
      requires Valid()
      modifies this
      ensures Valid() && (old(AllAuthentic()) && digest(data) == h ==> AllAuthentic())
      ensures ok ==> h in files && files[h] == cipher.enc(data, iv) && Loaded(files, cipher, h) == data
      ensures ok ==> old(disk).available - old(disk).inFlight >= |cipher.enc(data, iv)| + 52428800
      ensures healthy && old(disk).available - old(disk).inFlight >= |cipher.enc(data, iv)| + 52428800 ==> ok
      ensures mine !in old(disk).live && mine !in disk.live
    {
      var encrypted := cipher.enc(data, iv);
      var id := FreshId(disk.live);
      mine := id;
      var queried: bool := *;
      ok := ReserveSpace(id, |encrypted|, queried || healthy);
      if !ok {
        return;
      }
      Others(id);
      var isOpen: bool := *;
      if !isOpen && !healthy {
        ReleaseSpace(id);
        return false, mine;
      }
      ok := WriteOut(id, |encrypted|, healthy);
      if ok {
        Store(h, data, iv);
      }
      ReleaseSpace(id);
    }

    method ReleaseSpace(id: nat)
      requires Valid() && id in disk.live
      modifies this`disk
      ensures Valid() && id !in disk.live
    {
      Account(Release(id));
    }

    /** The flushed file becomes what the disk holds under the name. */
    method Store(h: Hash, data: Bytes, iv: Bytes)
      requires Valid()
      modifies this`files
      ensures Valid() && files == old(files)[h := cipher.enc(data, iv)]
      ensures Loaded(files, cipher, h) == data
      ensures old(AllAuthentic()) && digest(data) == h ==> AllAuthentic()
    {
      if AllAuthentic() && digest(data) == h {
        StoreIsAuthentic(files, cipher, digest, data, iv);
      }
      assert cipher.dec(cipher.enc(data, iv)) == Some(data);
      files := files[h := cipher.enc(data, iv)];
    }

    /** Writes the reserved bytes in pieces; the device may fail, but space never runs out. */
    method WriteOut(id: nat, size: nat, healthy: bool) returns (ok: bool)
      requires Valid() && id in disk.live && disk.live[id] == Write(size, 0)
      modifies this
      ensures Valid() && id in disk.live && disk.live[id].reserved == size
      ensures ok ==> disk.live[id].written == size
      ensures healthy ==> ok
      ensures old(AllAuthentic()) ==> AllAuthentic()
    {
      while disk.live[id].written < size
        invariant Valid() && id in disk.live && disk.live[id].reserved == size && disk.live[id].written <= size
        invariant old(AllAuthentic()) ==> AllAuthentic()
        decreases size - disk.live[id].written
      {
        var failed: bool := *;
        if failed && !healthy {
          return false;
        }
        var n: nat :| 0 < n <= size - disk.live[id].written;
        SpaceForPiece(disk, id);
        assert n + FLOOR <= disk.available;
        Account(Put(id, n));
        Others(id);
      }
      ok := true;
    }

    method LoadChunk(h: Hash) returns (data: Bytes)
      ensures data == Loaded(files, cipher, h)
      ensures data == if h in files && cipher.dec(files[h]).Some? then cipher.dec(files[h]).value else []
    {
      if h !in files {
        return [];
      }
      var decrypted := cipher.dec(files[h]);
      data := if decrypted.Some? then decrypted.value else [];
    }

    /** True when the file is gone, whether or not it was there. */
    method DeleteChunk(h: Hash, healthy: bool) returns (ok: bool)
      requires Valid()
      modifies this`files
      ensures ok == healthy
      ensures Valid() && files == if ok then old(files) - {h} else old(files)
      ensures old(AllAuthentic()) ==> AllAuthentic()
    {
      ok := healthy;
      if ok {
        files := files - {h};
      }
    }
  }

  lemma {:induction false} LiveMeansAdmitted(d: Disk, a: Act)
    requires Balanced(d) && (d.live != map[] ==> Covered(d, 0)) && !a.Foreign?
    ensures After(d, a).live != map[] ==> Covered(After(d, a), 0)
  {
    ActKeepsInvariant(d, a, 0);
  }

  /** A live save can always write the rest of its bytes without touching the floor. */
  lemma {:induction false} SpaceForPiece(d: Disk, id: nat)
    requires Balanced(d) && Covered(d, 0) && id in d.live
    ensures d.live[id].reserved - d.live[id].written + FLOOR <= d.available
  {
    RemoveWrite(d.live, id);
    UnwrittenIsPart(d.live - {id});
  }

  method FreshId(live: map<nat, Write>) returns (id: nat)
    ensures id !in live
  {
    id := 0;
    var seen: set<nat> := {};
    while id in live
      invariant seen <= live.Keys && forall k: nat :: k in seen <==> k < id
      decreases |live.Keys - seen|
    {
      assert live.Keys - seen == live.Keys - (seen + {id}) + {id};
      seen := seen + {id};
      id := id + 1;
    }
  }

  // ---------------------------------------------------------------- the endpoints

  const OK := 200
  const BAD_REQUEST := 400
  const NOT_FOUND := 404
  const TOO_LARGE := 413
  const SERVER_ERROR := 500

  const PAYLOAD_LIMIT := 1048576 + 1024

  class WorkerServer {
    const storage: LocalDiskStorage

    ghost predicate Valid()
      reads this, storage
    {
      storage.Valid() && storage.AllAuthentic()
    }

    constructor (storage: LocalDiskStorage)
      requires storage.Valid() && storage.AllAuthentic()
      ensures Valid() && this.storage == storage
    {
      this.storage := storage;
    }

    /** Stores a body only under its own digest. */
    method Post(h: Hash, body: Bytes, iv: Bytes, healthy: bool) returns (status: int)
      requires Valid()
      modifies storage
      ensures Valid()
      ensures status == 413 <==> |body| > 1049600
      ensures status == 400 <==> |body| <= 1049600 && (h.hex == [] || storage.digest(body) != h)
      ensures status == 200 ==> h in storage.files && Loaded(storage.files, storage.cipher, h) == body
      ensures healthy && |body| <= 1049600 && h.hex != [] && storage.digest(body) == h ==>
                (status == 200 <==> old(storage.disk).available - old(storage.disk).inFlight >= |storage.cipher.enc(body, iv)| + 52428800)
      ensures status in {200, 400, 413, 500}
      ensures status == 413 || status == 400 ==> storage.files == old(storage.files) && storage.disk == old(storage.disk)
    {
      if |body| > PAYLOAD_LIMIT {
        return TOO_LARGE;
      }
      if h.hex == [] || storage.digest(body) != h {
        return BAD_REQUEST;
      }
      var ok, mine := storage.SaveChunk(h, body, iv, healthy);
      status := if ok then OK else SERVER_ERROR;
    }

    /** Serves only bytes with the digest asked for, never an empty body. */
    method Get(h: Hash) returns (status: int, body: Bytes)
      requires Valid()
      ensures status == 200 <==> Loaded(storage.files, storage.cipher, h) != []
      ensures status == 200 ==> body == Loaded(storage.files, storage.cipher, h) && storage.digest(body) == h
      ensures status != 200 ==> status == 404 && (h !in storage.files || storage.digest([]) == h)
    {
      body := storage.LoadChunk(h);
      status := if body != [] then OK else NOT_FOUND;
      if h in storage.files {
        LoadedIsAuthentic(storage.files, storage.cipher, storage.digest, h);
      }
    }

    method Delete(h: Hash, healthy: bool) returns (status: int)
      requires Valid()
      modifies storage`files
      ensures Valid()
      ensures status == 200 <==> healthy
      ensures status == 200 ==> storage.files == old(storage.files) - {h}
      ensures status != 200 ==> status == 404 && storage.files == old(storage.files)
    {
      var ok := storage.DeleteChunk(h, healthy);
      status := if ok then OK else NOT_FOUND;
    }
  }
}
