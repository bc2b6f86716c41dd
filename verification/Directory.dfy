/** Bucket ids of chunk hashes, the worker and cluster tables, and the routing they define. */
module Directory {
  import opened Basics
  import opened ShardMap

  // ---------------------------------------------------------------- bucket of a hash

  function HexDigit(c: char): Option<nat> {
    if '0' <= c <= '9' then Some(c as nat - '0' as nat)
    else if 'a' <= c <= 'f' then Some(c as nat - 'a' as nat + 10)
    else if 'A' <= c <= 'F' then Some(c as nat - 'A' as nat + 10)
    else None
  }

  /** Reads hex digits from the left until a character is none, on top of what was read before. */
  function HexRun(s: string, acc: nat): nat {
    if s == [] || HexDigit(s[0]).None? then acc else HexRun(s[1..], 16 * acc + HexDigit(s[0]).value)
  }

  /** `std::stoul(s, nullptr, 16)`: white space, a sign, an optional 0x, then digits; None where it throws. */
  function ParseHex(s: string): Option<int> {
    if s == [] then None
    else if IsSpace(s[0]) then ParseHex(s[1..])
    else if s[0] == '+' then ParseDigits(s[1..])
    else if s[0] == '-' then
      var r := ParseDigits(s[1..]);
      if r.Some? then Some(-r.value) else None
    else ParseDigits(s)
  }

  function ParseDigits(s: string): (r: Option<int>)
    ensures r.Some? ==> r.value >= 0
  {
    if |s| >= 3 && s[0] == '0' && (s[1] == 'x' || s[1] == 'X') && HexDigit(s[2]).Some? then Some(HexRun(s[2..], 0))
    else if s != [] && HexDigit(s[0]).Some? then Some(HexRun(s, 0))
    else None
  }

  const UINT_RANGE := 0x1_0000_0000

  /** The unsigned value of the first eight characters, modulo the bucket count; 0 where it cannot be read. */
  function BucketOf(hex: string, buckets: nat): (b: nat)
    requires buckets >= 1
    ensures b < buckets
  {
    if |hex| < 8 then 0 else
    match ParseHex(hex[..8])
    case None => 0
    case Some(v) => (v % UINT_RANGE) % buckets
  }

  /** The positional value of a hex string. */
  function HexValue(s: string): nat
    requires forall i :: 0 <= i < |s| ==> HexDigit(s[i]).Some?
  {
    if s == [] then 0 else 16 * HexValue(s[..|s| - 1]) + HexDigit(s[|s| - 1]).value
  }

  lemma {:induction false} HexRunAppend(s: string, c: char, acc: nat)
    requires HexDigit(c).Some? && forall i :: 0 <= i < |s| ==> HexDigit(s[i]).Some?
    ensures HexRun(s + [c], acc) == 16 * HexRun(s, acc) + HexDigit(c).value
  {
    var t := s + [c];
    if s == [] {
      assert t[1..] == [];
      assert HexRun(t[1..], 16 * acc + HexDigit(c).value) == 16 * acc + HexDigit(c).value;
    } else {
      assert t[1..] == s[1..] + [c];
      HexRunAppend(s[1..], c, 16 * acc + HexDigit(s[0]).value);
    }
  }

  lemma {:induction false} HexRunIsValue(s: string)
    requires forall i :: 0 <= i < |s| ==> HexDigit(s[i]).Some?
    ensures HexRun(s, 0) == HexValue(s)
  {
    if s != [] {
      var n := |s| - 1;
      HexRunIsValue(s[..n]);
      HexRunAppend(s[..n], s[n], 0);
      assert s[..n] + [s[n]] == s;
    }
  }

  lemma {:induction false} HexValueBound(s: string)
    requires |s| <= 8 && forall i :: 0 <= i < |s| ==> HexDigit(s[i]).Some?
    ensures HexValue(s) < UINT_RANGE
    ensures |s| <= 7 ==> HexValue(s) < 0x1000_0000
    ensures |s| <= 6 ==> HexValue(s) < 0x100_0000
    ensures |s| <= 5 ==> HexValue(s) < 0x10_0000
    ensures |s| <= 4 ==> HexValue(s) < 0x1_0000
    ensures |s| <= 3 ==> HexValue(s) < 0x1000
    ensures |s| <= 2 ==> HexValue(s) < 0x100
    ensures |s| <= 1 ==> HexValue(s) < 0x10
  {
    if s != [] {
      HexValueBound(s[..|s| - 1]);
    }
  }

  /** For a digest the bucket is the value of its first eight hex digits modulo the bucket count. */
  lemma {:induction false} BucketOfDigest(hex: string, buckets: nat)
    requires buckets >= 1 && |hex| >= 8 && forall i :: 0 <= i < 8 ==> HexDigit(hex[i]).Some?
    ensures BucketOf(hex, buckets) == HexValue(hex[..8]) % buckets
  {
    var s := hex[..8];
    HexRunIsValue(s);
    HexValueBound(s);
    assert HexDigit(s[0]).Some? && HexDigit(s[1]).Some?;
  }

  /** Exactly the characters 0-9, a-f and A-F are digits. */
  lemma {:induction false} HexDigitIff(c: char)
    ensures HexDigit(c).Some? <==> c in "0123456789abcdefABCDEF"
  {
  }

  /** A digit is read at its hexadecimal value, in either case. */
  lemma {:induction false} HexDigitIs(d: nat)
    requires d < 16
    ensures HexDigit("0123456789abcdef"[d]) == Some(d) && HexDigit("0123456789ABCDEF"[d]) == Some(d)
  {
  }

  /** The text begins with eight hexadecimal digits, as every digest does. */
  predicate IsDigest(hex: string) {
    |hex| >= 8 && forall i :: 0 <= i < 8 ==> HexDigit(hex[i]).Some?
  }

  lemma {:induction false} HexValueStep(s: string, c: char)
    requires (forall i :: 0 <= i < |s| ==> HexDigit(s[i]).Some?) && HexDigit(c).Some?
    ensures HexValue(s + [c]) == 16 * HexValue(s) + HexDigit(c).value
  {
    assert (s + [c])[..|s|] == s;
  }

  lemma {:induction false} HexRunStops(digits: string, rest: string, acc: nat)
    requires (forall i :: 0 <= i < |digits| ==> HexDigit(digits[i]).Some?) && (rest == "" || HexDigit(rest[0]).None?)
    ensures HexRun(digits + rest, acc) == HexRun(digits, acc)
  {
    if digits != "" {
      assert (digits + rest)[1..] == digits[1..] + rest;
      HexRunStops(digits[1..], rest, 16 * acc + HexDigit(digits[0]).value);
    } else {
      assert digits + rest == rest;
    }
  }

  /** Any text is read like `strtoul` in base 16: after spaces and a sign the longest run of digits, past a 0x that digits follow. */
  lemma {:induction false} ParseHexNumeral(spaces: string, sign: string, digits: string, rest: string)
    requires forall i :: 0 <= i < |spaces| ==> spaces[i] as int == 32 || 9 <= spaces[i] as int <= 13
    requires (sign == "" || sign == "+" || sign == "-") && digits != ""
    requires (forall i :: 0 <= i < |digits| ==> HexDigit(digits[i]).Some?) && (rest == "" || HexDigit(rest[0]).None?)
    ensures var size: int := HexValue(digits);
            var v := Some(if sign == "-" then -size else size);
            && (digits != "0" || rest == "" || rest[0] !in "xX" ==> ParseHex(spaces + (sign + (digits + rest))) == v)
            && ParseHex(spaces + (sign + ("0x" + (digits + rest)))) == v
  {
    var u := digits + rest;
    HexRunStops(digits, rest, 0);
    HexRunIsValue(digits);
    assert HexDigit(u[0]).Some?;
    SkipToSign(spaces, sign, u);
    var v := "0x" + u;
    assert v[2..] == u && HexDigit(v[0]).Some?;
    SkipToSign(spaces, sign, v);
  }

  lemma {:induction false} SkipToSign(spaces: string, sign: string, u: string)
    requires forall i :: 0 <= i < |spaces| ==> spaces[i] as int == 32 || 9 <= spaces[i] as int <= 13
    requires (sign == "" || sign == "+" || sign == "-") && u != "" && HexDigit(u[0]).Some?
    ensures ParseHex(spaces + (sign + u)) ==
            var r := ParseDigits(u); if sign == "-" && r.Some? then Some(-r.value) else r
  {
    if spaces != "" {
      assert (spaces + (sign + u))[1..] == spaces[1..] + (sign + u);
      assert IsSpace(spaces[0]);
      SkipToSign(spaces[1..], sign, u);
    } else if sign != "" {
      assert spaces + (sign + u) == sign + u && (sign + u)[1..] == u;
    } else {
      assert spaces + (sign + u) == u;
    }
  }

  /** The number that eight digits stand for. */
  function Number(d: seq<nat>): nat
    requires |d| == 8
  {
    d[0] * 0x1000_0000 + d[1] * 0x100_0000 + d[2] * 0x10_0000 + d[3] * 0x1_0000 + d[4] * 0x1000 + d[5] * 0x100 + d[6] * 0x10 + d[7]
  }

  /** The bucket of a digest with the first eight digits d is their number modulo the bucket count; a text shorter than that is in bucket 0. */
  lemma {:induction false} BucketFormula(hex: string, d: seq<nat>, buckets: nat)
    requires buckets >= 1 && |hex| >= 8 && |d| == 8
    requires forall i :: 0 <= i < 8 ==> d[i] < 16 && hex[i] == "0123456789abcdef"[d[i]]
    ensures BucketOf(hex, buckets) == Number(d) % buckets
    ensures forall k :: 0 <= k < 8 ==> BucketOf(hex[..k], buckets) == 0
  {
    forall i | 0 <= i < 8
      ensures HexDigit(hex[i]) == Some(d[i])
    {
      HexDigitIs(d[i]);
    }
    BucketOfDigest(hex, buckets);
    EightDigits(hex[..8], d);
  }

  lemma {:induction false} EightDigits(s: string, d: seq<nat>)
    requires |s| == |d| == 8 && forall i :: 0 <= i < 8 ==> HexDigit(s[i]) == Some(d[i])
    ensures HexValue(s) == Number(d)
  {
    FourDigits(s[..4], d[..4]);
    FourDigits(s[4..], d[4..]);
    TwoHalves(s[..4], s[4..]);
    assert s[..4] + s[4..] == s;
  }

  lemma {:induction false} FourDigits(s: string, d: seq<nat>)
    requires |s| == |d| == 4 && forall i :: 0 <= i < 4 ==> HexDigit(s[i]) == Some(d[i])
    ensures HexValue(s) == d[0] * 0x1000 + d[1] * 0x100 + d[2] * 0x10 + d[3]
  {
    HexValueStep([], s[0]);
    HexValueStep([s[0]], s[1]);
    HexValueStep([s[0], s[1]], s[2]);
    HexValueStep([s[0], s[1], s[2]], s[3]);
    assert [] + [s[0]] == [s[0]] && [s[0]] + [s[1]] == [s[0], s[1]] && [s[0], s[1]] + [s[2]] == [s[0], s[1], s[2]];
    assert s == [s[0], s[1], s[2]] + [s[3]];
  }

  lemma {:induction false} TwoHalves(s: string, t: string)
    requires |t| == 4 && (forall i :: 0 <= i < |s| ==> HexDigit(s[i]).Some?) && (forall i :: 0 <= i < 4 ==> HexDigit(t[i]).Some?)
    ensures HexValue(s + t) == 0x1_0000 * HexValue(s) + HexValue(t)
  {
    HexValueStep(s, t[0]);
    HexValueStep(s + [t[0]], t[1]);
    HexValueStep(s + [t[0]] + [t[1]], t[2]);
    HexValueStep(s + [t[0]] + [t[1]] + [t[2]], t[3]);
    assert s + t == s + [t[0]] + [t[1]] + [t[2]] + [t[3]];
    FourDigits(t, [HexDigit(t[0]).value, HexDigit(t[1]).value, HexDigit(t[2]).value, HexDigit(t[3]).value]);
  }

  // ---------------------------------------------------------------- tables

  datatype Status = Active | ReadOnly

  datatype Worker = Worker(host: string, port: int, advertisedHost: string, advertisedPort: int, freeSpace: int, status: Status)

  datatype Cluster = Cluster(name: string, nodes: seq<WorkerId>)

  /** The tables `worker_nodes`, `clusters` and `shard_map`, and the configured bucket count. */
  datatype Catalog = Catalog(buckets: nat, workers: map<WorkerId, Worker>, clusters: map<ClusterId, Cluster>, shards: Shards)

  /** What foreign keys, the unique address and the checks of the cluster methods maintain. */
  ghost predicate Valid(cat: Catalog) {
    && (cat.shards == map[] || cat.shards.Keys == Below(cat.buckets))
    && (forall b :: b in cat.shards ==> cat.shards[b] in cat.clusters)
    && (forall c :: c in cat.clusters ==> cat.clusters[c].nodes != [] && NodesExist(cat, cat.clusters[c].nodes))
    && UniqueAddresses(cat.workers)
  }

  ghost predicate UniqueAddresses(workers: map<WorkerId, Worker>) {
    forall v, w :: v in workers && w in workers && SameAddress(workers[v], workers[w].host, workers[w].port) ==> v == w
  }

  predicate SameAddress(w: Worker, host: string, port: int) {
    w.host == host && w.port == port
  }

  predicate NodesExist(cat: Catalog, ids: seq<WorkerId>) {
    forall w :: w in ids ==> w in cat.workers
  }

  predicate NameUsed(cat: Catalog, name: string) {
    exists c :: c in cat.clusters && cat.clusters[c].name == name
  }

  function NodeSet(ids: seq<WorkerId>): set<WorkerId> {
    set w | w in ids
  }

  /** The registered workers a new chunk is placed on; empty when the bucket has no cluster. */
  function RouteOf(cat: Catalog, h: Hash): set<WorkerId>
    requires cat.buckets >= 1
  {
    var b := BucketOf(h.hex, cat.buckets);
    if b in cat.shards && cat.shards[b] in cat.clusters then NodeSet(cat.clusters[cat.shards[b]].nodes) * cat.workers.Keys else {}
  }

  /** The placement the shard map proposes for each hash of an upload. */
  function RoutesFor(cat: Catalog, hashes: seq<Hash>): map<Hash, set<WorkerId>>
    requires cat.buckets >= 1
  {
    map h | h in hashes && RouteOf(cat, h) != {} :: RouteOf(cat, h)
  }

  // ---------------------------------------------------------------- operations

  /** A heartbeat keeps a sealed worker sealed. */
  function Beat(before: Option<Worker>, beat: Worker): Worker {
    beat.(status := if before.Some? && before.value.status == ReadOnly then ReadOnly else Active)
  }

  /** The upsert keyed by address: the row it hits, or a new row. */
  ghost predicate Registered(cat: Catalog, beat: Worker, id: WorkerId, cat': Catalog) {
    if id in cat.workers then
      SameAddress(cat.workers[id], beat.host, beat.port) &&
      cat' == cat.(workers := cat.workers[id := Beat(Some(cat.workers[id]), beat)])
    else
      (forall w :: w in cat.workers ==> !SameAddress(cat.workers[w], beat.host, beat.port)) &&
      cat' == cat.(workers := cat.workers[id := Beat(None, beat)])
  }

  ghost predicate ClusterAdded(cat: Catalog, name: string, ids: seq<WorkerId>, c: ClusterId, cat': Catalog) {
    && ids != [] && NodesExist(cat, ids) && !NameUsed(cat, name) && c !in cat.clusters
    && cat'.buckets == cat.buckets && cat'.workers == cat.workers
    && cat'.clusters == cat.clusters[c := Cluster(name, ids)]
    && Rebalanced(cat.buckets, cat.shards, c, cat'.shards)
  }

  function Sealed(workers: map<WorkerId, Worker>, ids: seq<WorkerId>): map<WorkerId, Worker> {
    map w | w in workers :: if w in ids then workers[w].(status := ReadOnly) else workers[w]
  }

  ghost predicate ClusterReplaced(cat: Catalog, c: ClusterId, ids: seq<WorkerId>, cat': Catalog) {
    && c in cat.clusters && ids != [] && NodesExist(cat, ids)
    && cat' == cat.(workers := Sealed(cat.workers, cat.clusters[c].nodes),
                    clusters := cat.clusters[c := cat.clusters[c].(nodes := ids)])
  }

  datatype Op =
    | Heartbeat(beat: Worker, id: WorkerId)
    | Add(name: string, ids: seq<WorkerId>, cluster: ClusterId)
    | Replace(cluster: ClusterId, ids: seq<WorkerId>)

  ghost predicate Operates(cat: Catalog, op: Op, cat': Catalog) {
    match op
    case Heartbeat(beat, id) => Registered(cat, beat, id, cat')
    case Add(name, ids, c) => ClusterAdded(cat, name, ids, c, cat')
    case Replace(c, ids) => ClusterReplaced(cat, c, ids, cat')
  }

  /** A run of operator actions and heartbeats from empty tables. */
  ghost predicate History(cats: seq<Catalog>, ops: seq<Op>) {
    && |cats| == |ops| + 1
    && cats[0].workers == map[] && cats[0].clusters == map[] && cats[0].shards == map[]
    && forall i :: 0 <= i < |ops| ==> Operated(cats, ops, i)
  }

  ghost predicate Operated(cats: seq<Catalog>, ops: seq<Op>, i: nat)
    requires i < |ops| && |cats| == |ops| + 1
  {
    Operates(cats[i], ops[i], cats[i + 1])
  }

  // ---------------------------------------------------------------- routing stays total

  lemma {:induction false} BeatKeepsAddresses(workers: map<WorkerId, Worker>, id: WorkerId, w: Worker)
    requires UniqueAddresses(workers)
    requires if id in workers then SameAddress(workers[id], w.host, w.port) else forall v :: v in workers ==> !SameAddress(workers[v], w.host, w.port)
    ensures UniqueAddresses(workers[id := w])
  {
  }

  lemma {:induction false} HeartbeatKeepsValid(cat: Catalog, beat: Worker, id: WorkerId, cat': Catalog)
    requires Valid(cat) && Registered(cat, beat, id, cat')
    ensures Valid(cat') && cat'.workers.Keys == cat.workers.Keys + {id}
  {
    BeatKeepsAddresses(cat.workers, id, Beat(if id in cat.workers then Some(cat.workers[id]) else None, beat));
    forall c | c in cat'.clusters
      ensures NodesExist(cat', cat'.clusters[c].nodes)
    {
      assert NodesExist(cat, cat.clusters[c].nodes);
    }
  }

  lemma {:induction false} UnknownClusterOwnsNothing(cat: Catalog, c: ClusterId)
    requires Valid(cat) && c !in cat.clusters
    ensures c !in Owners(cat.shards)
  {
  }

  lemma {:induction false} AddKeepsValid(cat: Catalog, name: string, ids: seq<WorkerId>, c: ClusterId, cat': Catalog)
    requires Valid(cat) && ClusterAdded(cat, name, ids, c, cat')
    ensures Valid(cat') && cat'.shards.Keys == if cat.shards == map[] then Below(cat.buckets) else cat.shards.Keys
  {
    forall d | d in cat'.clusters
      ensures cat'.clusters[d].nodes != [] && NodesExist(cat', cat'.clusters[d].nodes)
    {
      if d != c {
        assert NodesExist(cat, cat.clusters[d].nodes);
      }
    }
  }

  lemma {:induction false} ReplaceKeepsValid(cat: Catalog, c: ClusterId, ids: seq<WorkerId>, cat': Catalog)
    requires Valid(cat) && ClusterReplaced(cat, c, ids, cat')
    ensures Valid(cat') && cat'.workers.Keys == cat.workers.Keys
  {
    forall d | d in cat'.clusters
      ensures cat'.clusters[d].nodes != [] && NodesExist(cat', cat'.clusters[d].nodes)
    {
      if d != c {
        assert NodesExist(cat, cat.clusters[d].nodes);
      }
    }
  }

  lemma {:induction false} OperationKeepsValid(cat: Catalog, op: Op, cat': Catalog)
    requires Valid(cat) && Operates(cat, op, cat')
    ensures Valid(cat') && cat'.buckets == cat.buckets && cat.workers.Keys <= cat'.workers.Keys
    ensures cat.shards != map[] ==> cat'.shards != map[]
  {
    match op
    case Heartbeat(beat, id) =>
      HeartbeatKeepsValid(cat, beat, id, cat');
    case Add(name, ids, c) =>
      AddKeepsValid(cat, name, ids, c, cat');
      assert cat.shards != map[] ==> cat'.shards.Keys != {};
    case Replace(c, ids) =>
      ReplaceKeepsValid(cat, c, ids, cat');
  }

  lemma {:induction false} HistoryIsValid(cats: seq<Catalog>, ops: seq<Op>, n: nat)
    requires History(cats, ops) && n < |cats|
    ensures Valid(cats[n]) && cats[n].buckets == cats[0].buckets
  {
    if n > 0 {
      HistoryIsValid(cats, ops, n - 1);
      assert Operated(cats, ops, n - 1);
      OperationKeepsValid(cats[n - 1], ops[n - 1], cats[n]);
    }
  }

  lemma {:induction false} StaysBootstrapped(cats: seq<Catalog>, ops: seq<Op>, m: nat, n: nat)
    requires History(cats, ops) && m <= n < |cats| && cats[m].shards != map[]
    ensures cats[n].shards != map[]
  {
    if m < n {
      StaysBootstrapped(cats, ops, m, n - 1);
      OperationInHistory(cats, ops, n - 1);
    }
  }

  lemma {:induction false} OperationInHistory(cats: seq<Catalog>, ops: seq<Op>, k: nat)
    requires History(cats, ops) && k < |ops|
    ensures cats[k].shards != map[] ==> cats[k + 1].shards != map[]
  {
    HistoryIsValid(cats, ops, k);
    assert Operated(cats, ops, k);
    OperationKeepsValid(cats[k], ops[k], cats[k + 1]);
  }

  /** In a valid catalog whose map is bootstrapped every hash has a route. */
  lemma {:induction false} RouteExists(cat: Catalog, h: Hash)
    requires Valid(cat) && cat.buckets >= 1 && cat.shards != map[]
    ensures RouteOf(cat, h) != {} && RouteOf(cat, h) <= cat.workers.Keys
  {
    var b := BucketOf(h.hex, cat.buckets);
    assert b in Below(cat.buckets);
    assert cat.shards[b] in cat.clusters;
    ClusterReachable(cat, cat.shards[b]);
  }

  /** A digest routes to exactly the workers listed by the cluster that owns its bucket. */
  lemma {:induction false} RouteIsOwningCluster(cat: Catalog, h: Hash, w: WorkerId)
    requires Valid(cat) && cat.buckets >= 1 && cat.shards != map[] && IsDigest(h.hex)
    ensures var b := HexValue(h.hex[..8]) % cat.buckets;
            && b in cat.shards && cat.shards[b] in cat.clusters
            && (w in RouteOf(cat, h) <==> w in cat.workers && w in cat.clusters[cat.shards[b]].nodes)
            && (w in cat.clusters[cat.shards[b]].nodes ==> w in cat.workers)
  {
    BucketOfDigest(h.hex, cat.buckets);
    var c := cat.shards[BucketOf(h.hex, cat.buckets)];
    assert NodesExist(cat, cat.clusters[c].nodes);
  }

  /** A digest in a bucket of cluster c routes to exactly the workers of the list. */
  ghost predicate RoutesTo(cat: Catalog, c: ClusterId, ids: seq<WorkerId>) {
    forall h: Hash, w: WorkerId :: cat.buckets >= 1 && IsDigest(h.hex) && HexValue(h.hex[..8]) % cat.buckets in Buckets(cat.shards, c) ==>
      (w in RouteOf(cat, h) <==> w in ids)
  }

  lemma {:induction false} ClusterServesBuckets(cat: Catalog, c: ClusterId)
    requires Valid(cat) && c in cat.clusters
    ensures RoutesTo(cat, c, cat.clusters[c].nodes)
  {
    forall h: Hash, w: WorkerId | cat.buckets >= 1 && IsDigest(h.hex) && HexValue(h.hex[..8]) % cat.buckets in Buckets(cat.shards, c)
      ensures w in RouteOf(cat, h) <==> w in cat.clusters[c].nodes
    {
      RouteIsOwningCluster(cat, h, w);
    }
  }

  lemma {:induction false} ClusterReachable(cat: Catalog, c: ClusterId)
    requires Valid(cat) && c in cat.clusters
    ensures NodeSet(cat.clusters[c].nodes) * cat.workers.Keys != {}
  {
    var nodes := cat.clusters[c].nodes;
    assert NodesExist(cat, nodes);
    var w := nodes[0];
    assert w in nodes;
    assert w in NodeSet(nodes) * cat.workers.Keys;
  }

  /** Ever after the first cluster was added, every hash routes to registered workers. */
  lemma {:induction false} RoutingIsTotal(cats: seq<Catalog>, ops: seq<Op>, m: nat, n: nat, h: Hash)
    requires History(cats, ops) && m <= n < |cats| && cats[0].buckets >= 1 && cats[m].shards != map[]
    ensures cats[n].buckets >= 1 && RouteOf(cats[n], h) != {} && RouteOf(cats[n], h) <= cats[n].workers.Keys
  {
    HistoryIsValid(cats, ops, n);
    StaysBootstrapped(cats, ops, m, n);
    RouteExists(cats[n], h);
  }

  // ---------------------------------------------------------------- sealed workers

  /** READ_ONLY is never left. */
  lemma {:induction false} SealedStaysSealed(cats: seq<Catalog>, ops: seq<Op>, m: nat, n: nat, w: WorkerId)
    requires History(cats, ops) && m <= n < |cats| && w in cats[m].workers
    ensures w in cats[n].workers
    ensures cats[m].workers[w].status == ReadOnly ==> cats[n].workers[w].status == ReadOnly
  {
    if m < n {
      SealedStaysSealed(cats, ops, m, n - 1, w);
      assert Operated(cats, ops, n - 1);
    }
  }

  ghost predicate NamesUnique(cat: Catalog) {
    forall c, d :: c in cat.clusters && d in cat.clusters && cat.clusters[c].name == cat.clusters[d].name ==> c == d
  }

  /** No two clusters ever share a name. */
  lemma {:induction false} NamesStayUnique(cats: seq<Catalog>, ops: seq<Op>, n: nat)
    requires History(cats, ops) && n < |cats|
    ensures NamesUnique(cats[n])
  {
    if n > 0 {
      NamesStayUnique(cats, ops, n - 1);
      assert Operated(cats, ops, n - 1);
      NamesInStep(cats[n - 1], ops[n - 1], cats[n]);
    }
  }

  lemma {:induction false} NamesInStep(cat: Catalog, op: Op, cat': Catalog)
    requires NamesUnique(cat) && Operates(cat, op, cat')
    ensures NamesUnique(cat')
  {
    if op.Add? {
      assert forall c :: c in cat.clusters ==> cat.clusters[c].name != op.name;
    }
  }

  ghost predicate AllActive(cat: Catalog) {
    forall c, w :: c in cat.clusters && w in cat.clusters[c].nodes && w in cat.workers ==> cat.workers[w].status == Active
  }

  ghost predicate ClustersDisjoint(cat: Catalog) {
    forall c, d, w :: c in cat.clusters && d in cat.clusters && c != d && w in cat.clusters[c].nodes ==> w !in cat.clusters[d].nodes
  }

  /** The operator supplies only active workers that no cluster uses. */
  ghost predicate Fresh(cat: Catalog, ids: seq<WorkerId>) {
    && (forall w :: w in ids && w in cat.workers ==> cat.workers[w].status == Active)
    && (forall c, w :: c in cat.clusters && w in ids ==> w !in cat.clusters[c].nodes)
  }

  ghost predicate Disciplined(cat: Catalog, op: Op) {
    op.Heartbeat? || Fresh(cat, op.ids)
  }

  lemma {:induction false} DisciplineStep(cat: Catalog, op: Op, cat': Catalog)
    requires Valid(cat) && Operates(cat, op, cat') && Disciplined(cat, op) && AllActive(cat) && ClustersDisjoint(cat)
    ensures AllActive(cat') && ClustersDisjoint(cat')
  {
  }

  lemma {:induction false} DisciplineHolds(cats: seq<Catalog>, ops: seq<Op>, n: nat)
    requires History(cats, ops) && n < |cats|
    requires forall i :: 0 <= i < n ==> Disciplined(cats[i], ops[i])
    ensures AllActive(cats[n]) && ClustersDisjoint(cats[n])
  {
    if n > 0 {
      DisciplineHolds(cats, ops, n - 1);
      HistoryIsValid(cats, ops, n - 1);
      assert Operated(cats, ops, n - 1);
      DisciplineStep(cats[n - 1], ops[n - 1], cats[n]);
    }
  }

  /** If operators supply only active, unused workers, no chunk is ever routed to a sealed one. */
  lemma {:induction false} NoRouteToSealedWorker(cats: seq<Catalog>, ops: seq<Op>, n: nat, h: Hash, w: WorkerId)
    requires History(cats, ops) && n < |cats| && cats[n].buckets >= 1 && w in RouteOf(cats[n], h)
    requires forall i :: 0 <= i < n ==> Disciplined(cats[i], ops[i])
    ensures cats[n].workers[w].status == Active
  {
    DisciplineHolds(cats, ops, n);
    var cat := cats[n];
    var c := cat.shards[BucketOf(h.hex, cat.buckets)];
    assert c in cat.clusters && w in cat.clusters[c].nodes && w in cat.workers;
  }

  /**
    Without that discipline a replacement keeps all clusters on unsealed workers
    exactly when the new workers are active, none of them is being retired, and
    no other cluster shares a retired one.
   */
  lemma {:induction false} ReplaceKeepsActiveIff(cat: Catalog, c: ClusterId, ids: seq<WorkerId>, cat': Catalog)
    requires Valid(cat) && AllActive(cat) && ClusterReplaced(cat, c, ids, cat')
    ensures AllActive(cat') <==>
              && (forall w :: w in ids ==> cat.workers[w].status == Active && w !in cat.clusters[c].nodes)
              && (forall d, w :: d in cat.clusters && d != c && w in cat.clusters[d].nodes ==> w !in cat.clusters[c].nodes)
  {
    if AllActive(cat') {
      forall w | w in ids
        ensures cat.workers[w].status == Active && w !in cat.clusters[c].nodes
      {
        assert c in cat'.clusters && w in cat'.clusters[c].nodes && w in cat'.workers;
      }
      forall d, w | d in cat.clusters && d != c && w in cat.clusters[d].nodes
        ensures w !in cat.clusters[c].nodes
      {
        assert d in cat'.clusters && w in cat'.clusters[d].nodes && w in cat'.workers;
      }
    }
  }
}
