/** The worker's space accounting: concurrent writers, one shared counter and a floor of free space. */
module DiskReserve {
  import opened Basics

  const FLOOR := 50 * 1024 * 1024

  /** One save in progress. */
  datatype Write = Write(reserved: nat, written: nat)

  /** Free bytes of the file system, the `in_flight_bytes` counter, and the saves that hold a reservation. */
  datatype Disk = Disk(available: int, inFlight: int, live: map<nat, Write>)

  datatype Act =
    | Reserve(id: nat, size: nat)
    | Put(id: nat, n: nat)
    | Release(id: nat)
    | Freed(n: nat)
    | Foreign(n: nat)

  predicate Fits(d: Disk, size: nat) {
    !(d.available - d.inFlight < size + FLOOR)
  }

  /** The effect of one act; a refused reservation and an act out of turn change nothing. */
  function After(d: Disk, a: Act): Disk {
    match a
    case Reserve(id, size) =>
      if id !in d.live && Fits(d, size)
      then d.(inFlight := d.inFlight + size, live := d.live[id := Write(size, 0)]) else d
    case Put(id, n) =>
      if id in d.live && d.live[id].written + n <= d.live[id].reserved
      then d.(available := d.available - n, live := d.live[id := d.live[id].(written := d.live[id].written + n)]) else d
    case Release(id) =>
      if id in d.live then d.(inFlight := d.inFlight - d.live[id].reserved, live := d.live - {id}) else d
    case Freed(n) => d.(available := d.available + n)
    case Foreign(n) => d.(available := d.available - n)
  }

  // ---------------------------------------------------------------- sums

  ghost function Sum(m: map<nat, int>): int {
    if m == map[] then 0 else
    Some(m.Keys);
    var k: nat :| k in m;
    m[k] + Sum(m - {k})
  }

  lemma Some(s: set<nat>)
    requires s != {}
    ensures exists k: nat :: k in s
  {
    var k := Element(s);
  }

  /** The sum does not depend on the order of summation. */
  lemma {:induction false} SumSplit(m: map<nat, int>, k: nat)
    requires k in m
    ensures Sum(m) == m[k] + Sum(m - {k})
  {
    Some(m.Keys);
    var c: nat :| c in m && Sum(m) == m[c] + Sum(m - {c});
    if c != k {
      SumSplit(m - {c}, k);
      SumSplit(m - {k}, c);
      assert m - {c} - {k} == m - {k} - {c};
    }
  }

  lemma {:induction false} SumPut(m: map<nat, int>, k: nat, v: int)
    ensures Sum(m[k := v]) == Sum(m) + v - (if k in m then m[k] else 0)
  {
    var m' := m[k := v];
    SumSplit(m', k);
    assert m' - {k} == m - {k};
    if k in m {
      SumSplit(m, k);
    } else {
      assert m - {k} == m;
    }
  }

  ghost function ReservedOf(live: map<nat, Write>): map<nat, int> {
    map k | k in live :: live[k].reserved
  }

  ghost function UnwrittenOf(live: map<nat, Write>): map<nat, int> {
    map k | k in live :: live[k].reserved - live[k].written
  }

  ghost function Reserved(d: Disk): int {
    Sum(ReservedOf(d.live))
  }

  ghost function Unwritten(d: Disk): int {
    Sum(UnwrittenOf(d.live))
  }

  ghost predicate InBounds(live: map<nat, Write>) {
    forall k :: k in live ==> live[k].written <= live[k].reserved
  }

  lemma {:induction false} UnwrittenIsPart(live: map<nat, Write>)
    requires InBounds(live)
    ensures 0 <= Sum(UnwrittenOf(live)) <= Sum(ReservedOf(live))
    decreases live.Keys
  {
    if live == map[] {
      assert UnwrittenOf(live) == map[] && ReservedOf(live) == map[];
    } else {
      var k := Element(live.Keys);
      RemoveWrite(live, k);
      UnwrittenIsPart(live - {k});
    }
  }

  lemma {:induction false} RemoveWrite(live: map<nat, Write>, k: nat)
    requires k in live
    ensures Sum(ReservedOf(live - {k})) == Sum(ReservedOf(live)) - live[k].reserved
    ensures Sum(UnwrittenOf(live - {k})) == Sum(UnwrittenOf(live)) - (live[k].reserved - live[k].written)
  {
    SumSplit(ReservedOf(live), k);
    SumSplit(UnwrittenOf(live), k);
    assert ReservedOf(live) - {k} == ReservedOf(live - {k});
    assert UnwrittenOf(live) - {k} == UnwrittenOf(live - {k});
  }

  lemma {:induction false} PutReserved(live: map<nat, Write>, k: nat, w: Write)
    ensures Sum(ReservedOf(live[k := w])) == Sum(ReservedOf(live)) + w.reserved - (if k in live then live[k].reserved else 0)
  {
    SumPut(ReservedOf(live), k, w.reserved);
    assert ReservedOf(live)[k := w.reserved] == ReservedOf(live[k := w]);
  }

  lemma {:induction false} PutUnwritten(live: map<nat, Write>, k: nat, w: Write)
    ensures Sum(UnwrittenOf(live[k := w])) ==
            Sum(UnwrittenOf(live)) + (w.reserved - w.written) - (if k in live then live[k].reserved - live[k].written else 0)
  {
    SumPut(UnwrittenOf(live), k, w.reserved - w.written);
    assert UnwrittenOf(live)[k := w.reserved - w.written] == UnwrittenOf(live[k := w]);
  }

  // ---------------------------------------------------------------- the invariant

  /** The counter is the sum of the live reservations. */
  ghost predicate Balanced(d: Disk) {
    InBounds(d.live) && d.inFlight == Reserved(d)
  }

  /** What is free, but for bytes others have taken, covers all unwritten bytes and the floor. */
  ghost predicate Covered(d: Disk, foreign: int) {
    d.available + foreign >= Unwritten(d) + FLOOR
  }

  predicate Admits(d: Disk, a: Act) {
    a.Reserve? && a.id !in d.live && Fits(d, a.size)
  }

  function Taken(a: Act): nat {
    if a.Foreign? then a.n else 0
  }

  lemma {:induction false} ActKeepsInvariant(d: Disk, a: Act, foreign: nat)
    requires Balanced(d)
    ensures Balanced(After(d, a))
    ensures Covered(d, foreign) || Admits(d, a) ==> Covered(After(d, a), foreign + Taken(a))
  {
    match a
    case Reserve(id, size) =>
      UnwrittenIsPart(d.live);
      PutReserved(d.live, id, Write(size, 0));
      PutUnwritten(d.live, id, Write(size, 0));
    case Put(id, n) =>
      PutKeepsInvariant(d, id, n, foreign);
    case Release(id) =>
      if id in d.live {
        RemoveWrite(d.live, id);
      }
    case Freed(n) =>
    case Foreign(n) =>
  }

  /** Written bytes leave the free space and the unwritten bytes together. */
  lemma {:induction false} PutKeepsInvariant(d: Disk, id: nat, n: nat, foreign: nat)
    requires Balanced(d)
    ensures Balanced(After(d, Put(id, n)))
    ensures Covered(d, foreign) ==> Covered(After(d, Put(id, n)), foreign)
  {
    if id in d.live && d.live[id].written + n <= d.live[id].reserved {
      var w := Write(d.live[id].reserved, d.live[id].written + n);
      PutReserved(d.live, id, w);
      PutUnwritten(d.live, id, w);
      var d' := After(d, Put(id, n));
      assert d'.live == d.live[id := w];
      assert Reserved(d') == Reserved(d) && Unwritten(d') == Unwritten(d) - n;
    }
  }

  // ---------------------------------------------------------------- runs

  /** Any interleaving of savers, deletions and other programs, from a freshly started worker. */
  ghost predicate IsRun(tr: seq<Disk>, acts: seq<Act>) {
    && |tr| == |acts| + 1 && tr[0].inFlight == 0 && tr[0].live == map[]
    && forall i :: 0 <= i < |acts| ==> tr[i + 1] == After(tr[i], acts[i])
  }

  /** Bytes other programs have taken in the first n acts. */
  function ForeignBytes(acts: seq<Act>, n: nat): nat
    requires n <= |acts|
  {
    if n == 0 then 0 else ForeignBytes(acts, n - 1) + Taken(acts[n - 1])
  }

  ghost predicate SomeAdmitted(tr: seq<Disk>, acts: seq<Act>, n: nat)
    requires n <= |acts| && n <= |tr|
  {
    exists i :: 0 <= i < n && Admits(tr[i], acts[i])
  }

  /**
    The counter always equals the live reservations.  From the first admission
    on, for good, free space covers every unwritten byte and the floor, less
    only what other programs took.
   */
  lemma {:induction false} ReserveHolds(tr: seq<Disk>, acts: seq<Act>, n: nat)
    requires IsRun(tr, acts) && n < |tr|
    ensures Balanced(tr[n])
    ensures SomeAdmitted(tr, acts, n) ==> Covered(tr[n], ForeignBytes(acts, n))
    ensures SomeAdmitted(tr, acts, n) ==> tr[n].available + ForeignBytes(acts, n) >= Unwritten(tr[n]) + 52428800
    ensures tr[n].live != map[] ==> SomeAdmitted(tr, acts, n)
  {
    if n > 0 {
      ReserveHolds(tr, acts, n - 1);
      var d, a := tr[n - 1], acts[n - 1];
      assert tr[n] == After(d, a);
      ActKeepsInvariant(d, a, ForeignBytes(acts, n - 1));
      if SomeAdmitted(tr, acts, n) && !Admits(d, a) {
        var i :| 0 <= i < n && Admits(tr[i], acts[i]);
        assert i < n - 1;
      }
      if tr[n].live != map[] && !Admits(d, a) {
        assert d.live != map[];
        var i :| 0 <= i < n - 1 && Admits(tr[i], acts[i]);
      }
    } else {
      assert ReservedOf(map[]) == map[];
    }
  }

  /** With nobody else on the disk, a live save never runs out of space and never eats into the floor. */
  lemma {:induction false} WritesNeverFail(tr: seq<Disk>, acts: seq<Act>, n: nat)
    requires IsRun(tr, acts) && n < |tr| && tr[n].live != map[]
    requires forall i :: 0 <= i < n ==> !acts[i].Foreign?
    ensures tr[n].available >= Unwritten(tr[n]) + 52428800 && Unwritten(tr[n]) >= 0
    ensures forall id :: id in tr[n].live ==> tr[n].live[id].reserved - tr[n].live[id].written + 52428800 <= tr[n].available
  {
    ReserveHolds(tr, acts, n);
    NoForeignBytes(acts, n);
    var live := tr[n].live;
    UnwrittenIsPart(live);
    forall id | id in live
      ensures live[id].reserved - live[id].written <= Unwritten(tr[n])
    {
      RemoveWrite(live, id);
      UnwrittenIsPart(live - {id});
    }
  }

  /** Bytes the saves have put on the disk in the first n acts. */
  function PutBytes(tr: seq<Disk>, acts: seq<Act>, n: nat): nat
    requires n <= |acts| && |tr| == |acts| + 1
  {
    if n == 0 then 0 else PutBytes(tr, acts, n - 1) + Put1(tr[n - 1], acts[n - 1])
  }

  /** A piece counts while it stays within its reservation. */
  function Put1(d: Disk, a: Act): nat {
    if a.Put? && a.id in d.live && d.live[a.id].written + a.n <= d.live[a.id].reserved then a.n else 0
  }

  function FreedBytes(acts: seq<Act>, n: nat): nat
    requires n <= |acts|
  {
    if n == 0 then 0 else FreedBytes(acts, n - 1) + if acts[n - 1].Freed? then acts[n - 1].n else 0
  }

  /** No byte is lost: free space is what there was, less what saves and others put there, plus what was freed. */
  lemma {:induction false} SpaceIsConserved(tr: seq<Disk>, acts: seq<Act>, n: nat)
    requires IsRun(tr, acts) && n < |tr|
    ensures tr[n].available == tr[0].available - PutBytes(tr, acts, n) - ForeignBytes(acts, n) + FreedBytes(acts, n)
  {
    if n > 0 {
      SpaceIsConserved(tr, acts, n - 1);
      assert tr[n] == After(tr[n - 1], acts[n - 1]);
    }
  }

  lemma {:induction false} NoForeignBytes(acts: seq<Act>, n: nat)
    requires n <= |acts| && forall i :: 0 <= i < n ==> !acts[i].Foreign?
    ensures ForeignBytes(acts, n) == 0
  {
    if n > 0 {
      NoForeignBytes(acts, n - 1);
    }
  }

  // ---------------------------------------------------------------- when the guard is exact

  /** The bytes would fit beside everything still to be written, above the floor. */
  ghost predicate RoomFor(d: Disk, size: nat) {
    d.available >= Unwritten(d) + size + 52428800
  }

  ghost predicate NothingWritten(live: map<nat, Write>) {
    forall k :: k in live ==> live[k].written == 0
  }

  /** What is unwritten falls short of what is reserved exactly when some save has written something. */
  lemma {:induction false} AllUnwrittenIff(live: map<nat, Write>)
    requires InBounds(live)
    ensures Sum(UnwrittenOf(live)) == Sum(ReservedOf(live)) <==> NothingWritten(live)
    decreases live.Keys
  {
    if live == map[] {
      assert UnwrittenOf(live) == ReservedOf(live);
    } else {
      var k := Element(live.Keys);
      RemoveWrite(live, k);
      UnwrittenIsPart(live - {k});
      AllUnwrittenIff(live - {k});
      var rest := live - {k};
      assert live == rest[k := live[k]];
      assert NothingWritten(live) ==> NothingWritten(rest);
    }
  }

  /**
    The guard never admits what has no room.  It admits everything that has
    room exactly when nothing has, or no live save has written anything yet:
    bytes already written are charged twice, as used and as reserved.
   */
  lemma {:induction false} GuardIsExactIff(d: Disk)
    requires Balanced(d)
    ensures forall size: nat :: Fits(d, size) ==> RoomFor(d, size)
    ensures (forall size: nat :: RoomFor(d, size) ==> Fits(d, size)) <==> !RoomFor(d, 0) || NothingWritten(d.live)
  {
    UnwrittenIsPart(d.live);
    AllUnwrittenIff(d.live);
    if RoomFor(d, 0) && !NothingWritten(d.live) {
      var size: nat := d.available - Unwritten(d) - FLOOR;
      assert RoomFor(d, size) && !Fits(d, size);
    }
  }

  /** While a worker that has its disk to itself saves anything, the guard is exact just as long as nothing is written. */
  lemma {:induction false} GuardIsExactUntilWritten(tr: seq<Disk>, acts: seq<Act>, n: nat)
    requires IsRun(tr, acts) && n < |tr| && tr[n].live != map[]
    requires forall i :: 0 <= i < n ==> !acts[i].Foreign?
    ensures (forall size: nat :: RoomFor(tr[n], size) <==> Fits(tr[n], size)) <==> NothingWritten(tr[n].live)
  {
    ReserveHolds(tr, acts, n);
    WritesNeverFail(tr, acts, n);
    GuardIsExactIff(tr[n]);
  }

  /** A fresh worker refuses a save of b bytes that exactly fits, because another save of a bytes has been written but not released. */
  lemma {:induction false} WrittenSaveBlocksFittingOne(a: nat, b: nat) returns (tr: seq<Disk>, acts: seq<Act>)
    requires a > 0
    ensures IsRun(tr, acts) && acts == [Reserve(0, a), Put(0, a), Reserve(1, b)]
    ensures tr[0].available == 52428800 + a + b && tr[2].available == 52428800 + b
    ensures RoomFor(tr[2], b) && tr[3] == tr[2] && 1 !in tr[3].live
  {
    var d0 := Disk(FLOOR + a + b, 0, map[]);
    acts := [Reserve(0, a), Put(0, a), Reserve(1, b)];
    var d1 := After(d0, acts[0]);
    var d2 := After(d1, acts[1]);
    tr := [d0, d1, d2, After(d2, acts[2])];
    assert d2 == Disk(FLOOR + b, a, map[0 := Write(a, a)]);
    RemoveWrite(d2.live, 0);
    assert d2.live - {0} == map[] && UnwrittenOf(map[]) == map[];
  }
}
