/** Bucket ownership: how `AddCluster` rebalances the shard map, for any buckets its LIMIT queries pick. */
module ShardMap {
  import opened Basics

  type ClusterId = int

  /** The table `shard_map`: bucket to owning cluster. */
  type Shards = map<nat, ClusterId>

  /** The bucket ids 0 to n - 1. */
  function Below(n: nat): (r: set<nat>)
    ensures |r| == n && forall b: nat :: b in r <==> b < n
  {
    if n == 0 then {} else Below(n - 1) + {n - 1}
  }

  function Buckets(m: Shards, c: ClusterId): set<nat> {
    set b | b in m && m[b] == c
  }

  function Owned(m: Shards, c: ClusterId): nat {
    |Buckets(m, c)|
  }

  function Owners(m: Shards): set<ClusterId> {
    set b | b in m :: m[b]
  }

  function Bootstrapped(n: nat, c: ClusterId): Shards {
    map b | b in Below(n) :: c
  }

  /** floor(n / k), by repeated subtraction. */
  function Share(n: nat, k: nat): nat
    requires k >= 1
  {
    if n < k then 0 else 1 + Share(n - k, k)
  }

  /** Division is determined by its equation. */
  lemma QuotientIsUnique(n: nat, k: nat, q: nat, r: nat)
    requires k >= 1 && n == q * k + r && r < k
    ensures n / k == q
  {
    var p := n / k;
    assert n == p * k + n % k && (p + 1) * k == p * k + k && (q + 1) * k == q * k + k;
    if p + 1 <= q {
      ProductMonotone(p + 1, q, k);
      assert false;
    } else if q + 1 <= p {
      ProductMonotone(q + 1, p, k);
      assert false;
    }
  }

  lemma {:induction false} ShareIsFloor(n: nat, k: nat)
    requires k >= 1
    ensures Share(n, k) == n / k
  {
    if n >= k {
      ShareIsFloor(n - k, k);
      var q, r := (n - k) / k, (n - k) % k;
      assert n - k == q * k + r && (q + 1) * k == q * k + k;
      QuotientIsUnique(n, k, q + 1, r);
    }
  }

  /** Buckets an existing owner keeps when one more cluster joins. */
  function Target(n: nat, m: Shards): nat {
    Share(n, |Owners(m)| + 1)
  }

  /** Buckets move only into cluster c, and every earlier owner is cut down to t of them. */
  ghost predicate CutTo(m: Shards, c: ClusterId, m': Shards, t: nat) {
    && m'.Keys == m.Keys
    && (forall b :: b in m ==> m'[b] == m[b] || m'[b] == c)
    && (forall o :: o in Owners(m) ==> Owned(m', o) == Min(Owned(m, o), t))
  }

  /** The effect of adding cluster c to a map of n buckets. */
  ghost predicate Rebalanced(n: nat, m: Shards, c: ClusterId, m': Shards) {
    if m == map[] then m' == Bootstrapped(n, c) else CutTo(m, c, m', Target(n, m))
  }

  // ---------------------------------------------------------------- the rebalancing loop

  /** `UPDATE shard_map ... LIMIT k`: any k buckets of `from` go to `to`. */
  method Reassign(m: Shards, from: ClusterId, to: ClusterId, k: nat) returns (m': Shards)
    requires from != to && k <= Owned(m, from)
    ensures m'.Keys == m.Keys
    ensures forall b :: b in m ==> m'[b] == m[b] || (m[b] == from && m'[b] == to)
    ensures Owned(m', from) == Owned(m, from) - k
    ensures forall c :: c != from && c != to ==> Owned(m', c) == Owned(m, c)
  {
    ghost var some := SubsetOfSize(Buckets(m, from), k);
    var moved :| moved <= Buckets(m, from) && |moved| == k;
    m' := map b | b in m :: if b in moved then to else m[b];
    assert Buckets(m', from) == Buckets(m, from) - moved;
    forall c | c != from && c != to
      ensures Owned(m', c) == Owned(m, c)
    {
      assert Buckets(m', c) == Buckets(m, c);
    }
  }

  lemma OwnerOfAny(m: Shards)
    ensures m == map[] <==> Owners(m) == {}
  {
    if m != map[] {
      var b := Element(m.Keys);
      assert m[b] in Owners(m);
    }
  }

  /** Visits the owners in whatever order the query returns them. */
  method AddOwner(n: nat, m: Shards, c: ClusterId) returns (m': Shards)
    requires c !in Owners(m)
    ensures Rebalanced(n, m, c, m')
  {
    var owners := Owners(m);
    OwnerOfAny(m);
    if owners == {} {
      m' := Bootstrapped(n, c);
    } else {
      var target := n / (|owners| + 1);
      ShareIsFloor(n, |owners| + 1);
      var todo := owners;
      m' := m;
      while todo != {}
        invariant todo <= owners
        invariant m'.Keys == m.Keys
        invariant forall b :: b in m ==> m'[b] == m[b] || m'[b] == c
        invariant forall o :: o in todo ==> Owned(m', o) == Owned(m, o)
        invariant forall o :: o in owners - todo ==> Owned(m', o) == Min(Owned(m, o), target)
        decreases todo
      {
        ghost var some := Element(todo);
        var o :| o in todo;
        var surplus := Owned(m', o) - target;
        if surplus > 0 {
          m' := Reassign(m', o, c, surplus);
        }
        todo := todo - {o};
      }
    }
  }

  // ---------------------------------------------------------------- balance over runs

  /** Each earlier cluster owns `share` buckets and the newest owns `last`. */
  ghost predicate Shared(n: nat, m: Shards, earlier: set<ClusterId>, newest: ClusterId, share: nat, last: nat) {
    && newest !in earlier
    && m.Keys == Below(n)
    && (forall b :: b in m ==> m[b] in earlier || m[b] == newest)
    && (forall c :: c in earlier ==> Owned(m, c) == share)
    && Owned(m, newest) == last
  }

  /** After k additions each earlier cluster owns floor(n/k) buckets and the newest the remainder on top. */
  ghost predicate Balanced(n: nat, m: Shards, earlier: set<ClusterId>, newest: ClusterId) {
    var k := |earlier| + 1;
    Shared(n, m, earlier, newest, n / k, n / k + n % k)
  }

  /** k * t, as repeated addition. */
  ghost function Times(k: nat, t: nat): nat {
    if k == 0 then 0 else Times(k - 1, t) + t
  }

  ghost function HeldBy(m: Shards, cs: set<ClusterId>): set<nat> {
    set b | b in m && m[b] in cs
  }

  /** If each cluster of a set owns t buckets, the set owns |set| * t. */
  lemma {:induction false} EqualShares(m: Shards, cs: set<ClusterId>, t: nat)
    requires forall c :: c in cs ==> Owned(m, c) == t
    ensures |HeldBy(m, cs)| == Times(|cs|, t)
  {
    if cs == {} {
      assert HeldBy(m, cs) == {};
    } else {
      var c := Element(cs);
      var rest := cs - {c};
      EqualShares(m, rest, t);
      assert HeldBy(m, cs) == HeldBy(m, rest) + Buckets(m, c);
      assert HeldBy(m, rest) * Buckets(m, c) == {};
    }
  }

  lemma {:induction false} TimesIsProduct(k: nat, t: nat)
    ensures Times(k, t) == k * t
  {
    if k > 0 {
      TimesIsProduct(k - 1, t);
      assert (k - 1) * t + t == k * t;
    }
  }

  lemma FloorBound(n: nat, k: nat, q: nat)
    requires k >= 1 && q * k <= n
    ensures q <= n / k
  {
    var p := n / k;
    assert n == p * k + n % k && (p + 1) * k == p * k + k;
    if p + 1 <= q {
      ProductMonotone(p + 1, q, k);
      assert false;
    }
  }

  /** The arithmetic of one more share: shares only shrink, and what k equal shares leave is a share plus the remainder. */
  lemma {:induction false} ShareArithmetic(n: nat, k: nat)
    requires k >= 1
    ensures n / (k + 1) <= n / k
    ensures Times(k, n / (k + 1)) + n / (k + 1) + n % (k + 1) == n
    ensures k <= n ==> n / k >= 1
  {
    var q := OneMoreShare(n, k);
    FloorBound(n, k, q);
    if k <= n {
      FloorBound(n, k, 1);
    }
  }

  lemma {:induction false} OneMoreShare(n: nat, k: nat) returns (q: nat)
    ensures q == n / (k + 1) && q * k <= n && Times(k, q) + q + n % (k + 1) == n
  {
    q := n / (k + 1);
    TimesIsProduct(k, q);
    assert n == q * (k + 1) + n % (k + 1);
    assert q * (k + 1) == q * k + q && q * k == k * q;
  }

  /** Balance in terms of Share: the newest cluster owns what the shares of the others leave. */
  ghost predicate Even(n: nat, m: Shards, earlier: set<ClusterId>, newest: ClusterId) {
    var share := Share(n, |earlier| + 1);
    Times(|earlier|, share) <= n && Shared(n, m, earlier, newest, share, n - Times(|earlier|, share))
  }

  lemma {:induction false} LastShare(n: nat, k: nat)
    requires k >= 1
    ensures Share(n, k) == n / k
    ensures Times(k - 1, Share(n, k)) + n / k + n % k == n
  {
    ShareIsFloor(n, k);
    if k == 1 {
      assert n / 1 == n && n % 1 == 0;
    } else {
      ShareArithmetic(n, k - 1);
    }
  }

  lemma {:induction false} EvenIsBalanced(n: nat, m: Shards, earlier: set<ClusterId>, newest: ClusterId)
    ensures Even(n, m, earlier, newest) <==> Balanced(n, m, earlier, newest)
  {
    LastShare(n, |earlier| + 1);
  }

  lemma {:induction false} ShareShrinks(n: nat, k: nat)
    requires 1 <= k <= n
    ensures 1 <= Share(n, k) && Share(n, k + 1) <= Share(n, k)
    ensures Times(k - 1, Share(n, k)) + Share(n, k) <= n
  {
    LastShare(n, k);
    LastShare(n, k + 1);
    ShareArithmetic(n, k);
  }

  lemma {:induction false} OwnersOfShared(n: nat, m: Shards, earlier: set<ClusterId>, newest: ClusterId, share: nat, last: nat)
    requires Shared(n, m, earlier, newest, share, last) && 1 <= share <= last
    ensures Owners(m) == earlier + {newest} && |Owners(m)| == |earlier| + 1 && m != map[]
  {
    forall c | c in earlier + {newest}
      ensures c in Owners(m)
    {
      var b := Element(Buckets(m, c));
      assert m[b] == c;
    }
    assert newest in Owners(m);
    OwnerOfAny(m);
  }

  /** The newest cluster gets whatever the earlier ones, each cut to t, leave over. */
  lemma {:induction false} NewestShare(n: nat, m': Shards, earlier: set<ClusterId>, c: ClusterId, t: nat)
    requires c !in earlier && m'.Keys == Below(n)
    requires forall b :: b in m' ==> m'[b] in earlier || m'[b] == c
    requires forall o :: o in earlier ==> Owned(m', o) == t
    ensures Times(|earlier|, t) + Owned(m', c) == n
  {
    EqualShares(m', earlier, t);
    assert m'.Keys == HeldBy(m', earlier) + Buckets(m', c);
    assert HeldBy(m', earlier) * Buckets(m', c) == {};
  }

  lemma {:induction false} SharedStep(n: nat, m: Shards, earlier: set<ClusterId>, newest: ClusterId, share: nat, last: nat, c: ClusterId, m': Shards, t: nat)
    requires Shared(n, m, earlier, newest, share, last) && 1 <= share <= last && t <= share
    requires c !in earlier + {newest} && CutTo(m, c, m', t)
    ensures Shared(n, m', earlier + {newest}, c, t, Owned(m', c))
    ensures Times(|earlier| + 1, t) + Owned(m', c) == n && |earlier + {newest}| == |earlier| + 1
  {
    OwnersOfShared(n, m, earlier, newest, share, last);
    NewestShare(n, m', earlier + {newest}, c, t);
    assert |earlier + {newest}| == |earlier| + 1;
  }

  lemma {:induction false} EvenCut(n: nat, m: Shards, earlier: set<ClusterId>, newest: ClusterId, c: ClusterId, m': Shards)
    requires Even(n, m, earlier, newest) && |earlier| + 1 <= n && Rebalanced(n, m, c, m')
    ensures CutTo(m, c, m', Share(n, |earlier| + 2))
  {
    var k := |earlier| + 1;
    ShareShrinks(n, k);
    OwnersOfShared(n, m, earlier, newest, Share(n, k), n - Times(k - 1, Share(n, k)));
    assert Target(n, m) == Share(n, k + 1);
  }

  lemma {:induction false} EvenStep(n: nat, m: Shards, earlier: set<ClusterId>, newest: ClusterId, c: ClusterId, m': Shards)
    requires Even(n, m, earlier, newest) && |earlier| + 1 <= n
    requires c !in earlier + {newest} && Rebalanced(n, m, c, m')
    ensures Even(n, m', earlier + {newest}, c)
  {
    var k := |earlier| + 1;
    EvenCut(n, m, earlier, newest, c, m');
    ShareShrinks(n, k);
    SharedStep(n, m, earlier, newest, Share(n, k), n - Times(k - 1, Share(n, k)), c, m', Share(n, k + 1));
  }

  ghost predicate Distinct(order: seq<ClusterId>) {
    forall i, j :: 0 <= i < j < |order| ==> order[i] != order[j]
  }

  /** The clusters added by additions lo to hi - 1, counting from 0. */
  ghost function Added(order: seq<ClusterId>, lo: nat, hi: nat): set<ClusterId>
    requires lo <= hi <= |order|
  {
    if lo == hi then {} else Added(order, lo, hi - 1) + {order[hi - 1]}
  }

  lemma {:induction false} AddedHas(order: seq<ClusterId>, lo: nat, hi: nat, i: nat)
    requires lo <= i < hi <= |order|
    ensures order[i] in Added(order, lo, hi)
  {
    if i < hi - 1 {
      AddedHas(order, lo, hi - 1, i);
    }
  }

  lemma {:induction false} NotAdded(order: seq<ClusterId>, lo: nat, hi: nat, k: nat)
    requires Distinct(order) && lo <= hi <= |order| && k < |order| && (k < lo || hi <= k)
    ensures order[k] !in Added(order, lo, hi)
  {
    if lo < hi {
      NotAdded(order, lo, hi - 1, k);
    }
  }

  lemma {:induction false} AddedSize(order: seq<ClusterId>, lo: nat, hi: nat)
    requires Distinct(order) && lo <= hi <= |order|
    ensures |Added(order, lo, hi)| == hi - lo
  {
    if lo < hi {
      AddedSize(order, lo, hi - 1);
      NotAdded(order, lo, hi - 1, hi - 1);
    }
  }

  lemma {:induction false} AddedSince(order: seq<ClusterId>, lo: nat, hi: nat)
    requires lo <= hi <= |order|
    ensures Added(order, lo, hi) <= Added(order, 0, hi)
  {
    if lo < hi {
      AddedSince(order, lo, hi - 1);
    }
  }

  /** A run of additions from an empty map. */
  ghost predicate Additions(n: nat, maps: seq<Shards>, order: seq<ClusterId>) {
    && |maps| == |order| + 1 && Distinct(order) && maps[0] == map[]
    && forall i :: 0 <= i < |order| ==> Addition(n, maps, order, i)
  }

  ghost predicate Addition(n: nat, maps: seq<Shards>, order: seq<ClusterId>, i: nat)
    requires i < |order| && |maps| == |order| + 1
  {
    Rebalanced(n, maps[i], order[i], maps[i + 1])
  }

  /** The first addition owns everything. */
  lemma {:induction false} FirstIsEven(n: nat, c: ClusterId, m: Shards)
    requires Rebalanced(n, map[], c, m)
    ensures Even(n, m, {}, c)
  {
    assert Buckets(m, c) == Below(n);
  }

  // ---------------------------------------------------------------- the cycle of owners

  /** How many clusters own buckets after the m-th addition: one more each time, up to n, then one again. */
  ghost function Turn(n: nat, m: nat): (j: nat)
    requires n >= 1 && m >= 1
    ensures 1 <= j <= n && j <= m && (m <= n ==> j == m)
  {
    if m == 1 || Turn(n, m - 1) == n then 1 else Turn(n, m - 1) + 1
  }

  lemma {:induction false} ModStep(a: nat, n: nat)
    requires n >= 1
    ensures (a + 1) % n == if a % n == n - 1 then 0 else a % n + 1
  {
    var q, r := a / n, a % n;
    assert a == q * n + r && (q + 1) * n == q * n + n;
    if r == n - 1 {
      RemainderIsUnique(a + 1, n, q + 1, 0);
    } else {
      RemainderIsUnique(a + 1, n, q, r + 1);
    }
  }

  lemma {:induction false} RemainderIsUnique(a: nat, n: nat, q: nat, r: nat)
    requires n >= 1 && a == q * n + r && r < n
    ensures a % n == r
  {
    QuotientIsUnique(a, n, q, r);
  }

  lemma {:induction false} TurnIsModular(n: nat, m: nat)
    requires n >= 1 && m >= 1
    ensures Turn(n, m) == (m - 1) % n + 1
  {
    if m == 1 {
      RemainderIsUnique(0, n, 0, 0);
    } else {
      TurnIsModular(n, m - 1);
      ModStep(m - 2, n);
    }
  }

  /** One cluster more than there are buckets leaves nothing to the others. */
  lemma {:induction false} FullTurnStartsOver(n: nat, m: Shards, earlier: set<ClusterId>, c: ClusterId)
    requires n >= 1 && |earlier| == n && Even(n, m, earlier, c)
    ensures Even(n, m, {}, c)
  {
    LastShare(n, 1);
    TimesIsProduct(n, 0);
    assert Share(n, n + 1) == 0;
    SubsetOfFullSize(Buckets(m, c), m.Keys);
  }

  lemma {:induction false} TurnStep(n: nat, m: Shards, earlier: set<ClusterId>, newest: ClusterId, c: ClusterId, m': Shards) returns (j: nat, earlier': set<ClusterId>)
    requires Even(n, m, earlier, newest) && |earlier| + 1 <= n && newest !in earlier
    requires c !in earlier + {newest} && Rebalanced(n, m, c, m')
    ensures j == if |earlier| + 1 == n then 1 else |earlier| + 2
    ensures Even(n, m', earlier', c) && |earlier'| + 1 == j <= n
    ensures earlier' == if |earlier| + 1 == n then {} else earlier + {newest}
  {
    EvenStep(n, m, earlier, newest, c, m');
    OneMore(earlier, newest);
    if |earlier| + 1 == n {
      FullTurnStartsOver(n, m', earlier + {newest}, c);
      j, earlier' := 1, {};
    } else {
      j, earlier' := |earlier| + 2, earlier + {newest};
    }
  }

  lemma OneMore(earlier: set<ClusterId>, newest: ClusterId)
    ensures newest !in earlier ==> |earlier + {newest}| == |earlier| + 1
  {
  }

  /** The newest j of the first m clusters share all buckets evenly; `earlier` are those before the very newest. */
  ghost predicate Round(n: nat, shards: Shards, order: seq<ClusterId>, m: nat, j: nat, earlier: set<ClusterId>) {
    && 1 <= j <= m <= |order| && j <= n
    && |earlier| + 1 == j && earlier == Added(order, m - j, m - 1)
    && Even(n, shards, earlier, order[m - 1])
  }

  lemma {:induction false} NextRound(n: nat, before: Shards, after: Shards, order: seq<ClusterId>, m: nat, i: nat, earlier: set<ClusterId>)
      returns (j: nat, earlier': set<ClusterId>)
    requires Distinct(order) && 1 < m <= |order| && Round(n, before, order, m - 1, i, earlier)
    requires Rebalanced(n, before, order[m - 1], after)
    ensures j == (if i == n then 1 else i + 1) && Round(n, after, order, m, j, earlier')
  {
    RecentGrows(n, order, m, i);
    j, earlier' := TurnStep(n, before, earlier, order[m - 2], order[m - 1], after);
  }

  /** After the m-th addition the newest Turn(n, m) clusters share all buckets evenly. */
  lemma {:induction false} EvenHolds(n: nat, maps: seq<Shards>, order: seq<ClusterId>, m: nat) returns (j: nat, earlier: set<ClusterId>)
    requires Additions(n, maps, order) && n >= 1 && 1 <= m <= |order|
    ensures j == Turn(n, m) && Round(n, maps[m], order, m, j, earlier)
  {
    assert Addition(n, maps, order, m - 1);
    if m == 1 {
      FirstIsEven(n, order[0], maps[1]);
      j, earlier := 1, Added(order, 0, 0);
    } else {
      j, earlier := EvenHolds(n, maps, order, m - 1);
      TurnGrows(n, m);
      j, earlier := NextRound(n, maps[m - 1], maps[m], order, m, j, earlier);
    }
  }

  lemma {:induction false} TurnGrows(n: nat, m: nat)
    requires n >= 1 && m > 1
    ensures Turn(n, m) == if Turn(n, m - 1) == n then 1 else Turn(n, m - 1) + 1
  {
  }

  lemma {:induction false} RecentGrows(n: nat, order: seq<ClusterId>, m: nat, i: nat)
    requires Distinct(order) && 1 <= i < m <= |order|
    ensures var before := Added(order, m - 1 - i, m - 2);
            && order[m - 2] !in before && order[m - 1] !in before + {order[m - 2]}
            && Added(order, m - (if i == n then 1 else i + 1), m - 1) == if i == n then {} else before + {order[m - 2]}
  {
    NotAdded(order, m - 1 - i, m - 2, m - 2);
    NotAdded(order, m - 1 - i, m - 2, m - 1);
  }

  /**
    Exactly who owns what after every addition, however many there were: with n
    buckets, the newest j = (m - 1) mod n + 1 clusters are balanced among
    themselves, and so all older ones own nothing.
   */
  lemma {:induction false} OwnershipIsCyclic(n: nat, maps: seq<Shards>, order: seq<ClusterId>, m: nat)
    requires Additions(n, maps, order) && n >= 1 && 1 <= m <= |order|
    ensures 0 <= (m - 1) % n < m
    ensures var older := m - 1 - (m - 1) % n;
            && Balanced(n, maps[m], Added(order, older, m - 1), order[m - 1])
            && forall i :: 0 <= i < older ==> Owned(maps[m], order[i]) == 0
  {
    TurnIsModular(n, m);
    var j, earlier := EvenHolds(n, maps, order, m);
    EvenIsBalanced(n, maps[m], earlier, order[m - 1]);
    var older := m - j;
    forall i | 0 <= i < older
      ensures Owned(maps[m], order[i]) == 0
    {
      OlderIsNotRecent(order, i, older, m);
      NobodyElseOwns(n, maps[m], earlier, order[m - 1], order[i]);
    }
  }

  lemma {:induction false} OlderIsNotRecent(order: seq<ClusterId>, i: nat, older: nat, m: nat)
    requires Distinct(order) && i < older < m <= |order|
    ensures order[i] !in Added(order, older, m - 1) && order[i] != order[m - 1]
  {
    NotAdded(order, older, m - 1, i);
  }

  lemma {:induction false} NobodyElseOwns(n: nat, m: Shards, earlier: set<ClusterId>, newest: ClusterId, c: ClusterId)
    requires Even(n, m, earlier, newest) && c !in earlier && c != newest
    ensures Owned(m, c) == 0
  {
    assert Buckets(m, c) == {};
  }

  /** With n buckets the map is balanced over all clusters after each of the first n + 1 additions. */
  lemma {:induction false} BalanceHolds(n: nat, maps: seq<Shards>, order: seq<ClusterId>, m: nat)
    requires Additions(n, maps, order) && 1 <= m <= |order| && m <= n + 1
    ensures Balanced(n, maps[m], Added(order, 0, m - 1), order[m - 1]) && |Added(order, 0, m - 1)| == m - 1
  {
    AddedSize(order, 0, m - 1);
    if n == 0 {
      assert Addition(0, maps, order, 0);
      assert Buckets(maps[1], order[0]) == {};
    } else if m <= n {
      var j, earlier := EvenHolds(n, maps, order, m);
      EvenIsBalanced(n, maps[m], earlier, order[m - 1]);
    } else {
      BalanceReturns(n, maps, order, m);
    }
  }

  /** Past n additions balance over all m clusters means that the newest owns everything. */
  lemma {:induction false} BalanceReturns(n: nat, maps: seq<Shards>, order: seq<ClusterId>, m: nat)
    requires Additions(n, maps, order) && n >= 1 && n < m <= |order|
    ensures Balanced(n, maps[m], Added(order, 0, m - 1), order[m - 1]) <==> Turn(n, m) == 1
  {
    var j, recent := EvenHolds(n, maps, order, m);
    var all, newest := Added(order, 0, m - 1), order[m - 1];
    AllAreMany(order, m, m - j);
    if recent == {} {
      SoleOwnerLeavesNone(n, maps[m], all, newest);
    } else {
      TwoOwnersUnbalanced(n, maps[m], recent, newest, all);
    }
  }

  lemma {:induction false} AllAreMany(order: seq<ClusterId>, m: nat, lo: nat)
    requires Distinct(order) && lo < m <= |order|
    ensures order[m - 1] !in Added(order, 0, m - 1) && |Added(order, 0, m - 1)| == m - 1
    ensures Added(order, lo, m - 1) <= Added(order, 0, m - 1)
  {
    NotAdded(order, 0, m - 1, m - 1);
    AddedSize(order, 0, m - 1);
    AddedSince(order, lo, m - 1);
  }

  /** With more clusters than buckets the floor is 0 and the remainder is everything. */
  lemma {:induction false} ManyClusters(n: nat, m: nat)
    requires n < m
    ensures n / m == 0 && n % m == n
  {
    QuotientIsUnique(n, m, 0, n);
  }

  lemma {:induction false} SoleOwnerLeavesNone(n: nat, m: Shards, others: set<ClusterId>, newest: ClusterId)
    requires Even(n, m, {}, newest) && newest !in others && n <= |others|
    ensures Balanced(n, m, others, newest)
  {
    ManyClusters(n, |others| + 1);
    SoleOwnerOwnsAll(n, m, newest);
    forall c | c in others
      ensures Owned(m, c) == 0
    {
      NobodyElseOwns(n, m, {}, newest, c);
    }
  }

  lemma {:induction false} SoleOwnerOwnsAll(n: nat, m: Shards, newest: ClusterId)
    requires Even(n, m, {}, newest)
    ensures m.Keys == Below(n) && Owned(m, newest) == n && forall b :: b in m ==> m[b] == newest
  {
    LastShare(n, 1);
  }

  lemma {:induction false} TwoOwnersUnbalanced(n: nat, m: Shards, recent: set<ClusterId>, newest: ClusterId, all: set<ClusterId>)
    requires Even(n, m, recent, newest) && recent != {} && |recent| + 1 <= n
    requires recent <= all && n <= |all|
    ensures !Balanced(n, m, all, newest)
  {
    ShareShrinks(n, |recent| + 1);
    ManyClusters(n, |all| + 1);
    var c := Element(recent);
    assert Owned(m, c) >= 1 && c in all;
  }

  /** For every number of additions: the map is balanced over all clusters in the first round, and after that only when a new round begins. */
  lemma {:induction false} BalancedIff(n: nat, maps: seq<Shards>, order: seq<ClusterId>, m: nat)
    requires Additions(n, maps, order) && n >= 1 && 1 <= m <= |order|
    ensures Balanced(n, maps[m], Added(order, 0, m - 1), order[m - 1]) <==> m <= n || (m - 1) % n == 0
  {
    TurnIsModular(n, m);
    if m <= n {
      BalanceHolds(n, maps, order, m);
    } else {
      BalanceReturns(n, maps, order, m);
    }
  }

  lemma {:induction false} SubsetOfFullSize(a: set<nat>, b: set<nat>)
    requires a <= b && |a| == |b|
    ensures a == b
  {
    assert b == a + (b - a);
    assert |b - a| == 0;
  }
}
