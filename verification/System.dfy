/** The whole control plane: cluster administration and the chunk lifecycle on the same worker table. */
module System {
  import opened Basics
  import opened ChunkTable
  import opened Directory
  import opened Repository
  import L = Lifecycle
  import LI = LifecycleInvariant

  datatype World = World(cat: Catalog, life: L.State)

  datatype Action = Administer(op: Op) | Serve(step: L.Step)

  /** An init takes its routes from the current catalog; administration changes no chunk, file or session. */
  ghost predicate Next(s: World, a: Action, s': World)
    requires s.cat.buckets >= 1
  {
    match a
    case Administer(op) =>
      && Operates(s.cat, op, s'.cat)
      && s'.life == s.life.(workers := s'.cat.workers.Keys)
    case Serve(step) =>
      && !step.Register? && s'.cat == s.cat
      && (step.Init? && step.sid in s.life.sessions ==> step.route == RoutesFor(s.cat, s.life.sessions[step.sid].hashes))
      && L.Next(s.life, step, s'.life)
  }

  ghost predicate IsRun(tr: seq<World>, actions: seq<Action>) {
    && |tr| == |actions| + 1
    && tr[0].cat.buckets >= 1
    && tr[0].cat.workers == map[] && tr[0].cat.clusters == map[] && tr[0].cat.shards == map[]
    && L.Initial(tr[0].life) && tr[0].life.workers == {}
    && forall i :: 0 <= i < |actions| ==> Takes(tr, actions, i)
  }

  /** Action i leads from world i to the next. */
  ghost predicate Takes(tr: seq<World>, actions: seq<Action>, i: nat)
    requires i < |actions| && |tr| == |actions| + 1
  {
    tr[i].cat.buckets >= 1 && Next(tr[i], actions[i], tr[i + 1])
  }

  /** What an action is to the chunk lifecycle: a new worker, nothing, or its own step. */
  ghost function LifeStep(a: Action): L.Step {
    match a
    case Administer(Heartbeat(_, id)) => L.Register(id)
    case Administer(_) => L.Tick(0)
    case Serve(step) => step
  }

  ghost function Lives(tr: seq<World>): seq<L.State> {
    seq(|tr|, i requires 0 <= i < |tr| => tr[i].life)
  }

  ghost function LifeSteps(actions: seq<Action>): seq<L.Step> {
    seq(|actions|, i requires 0 <= i < |actions| => LifeStep(actions[i]))
  }

  lemma {:induction false} AdministrationIsLifeStep(s: World, op: Op, s': World)
    requires s.cat.buckets >= 1 && Valid(s.cat) && s.life.workers == s.cat.workers.Keys && Next(s, Administer(op), s')
    ensures L.Next(s.life, LifeStep(Administer(op)), s'.life)
    ensures Valid(s'.cat) && s'.life.workers == s'.cat.workers.Keys
  {
    OperationKeepsValid(s.cat, op, s'.cat);
    WorkersAfter(s.cat, op, s'.cat);
    if op.Heartbeat? {
      assert s'.life == s.life.(workers := s.life.workers + {op.id});
    } else {
      assert s'.life == s.life.(now := s.life.now + 0);
    }
  }

  lemma {:induction false} WorkersAfter(cat: Catalog, op: Op, cat': Catalog)
    requires Operates(cat, op, cat')
    ensures cat'.workers.Keys == cat.workers.Keys + if op.Heartbeat? then {op.id} else {}
  {
  }

  lemma {:induction false} ServeKeepsWorkers(s: L.State, step: L.Step, s': L.State)
    requires L.Next(s, step, s') && !step.Register?
    ensures s'.workers == s.workers
  {
  }

  lemma {:induction false} ActionIsLifeStep(s: World, a: Action, s': World)
    requires s.cat.buckets >= 1 && Valid(s.cat) && s.life.workers == s.cat.workers.Keys && Next(s, a, s')
    ensures L.Next(s.life, LifeStep(a), s'.life)
    ensures Valid(s'.cat) && s'.life.workers == s'.cat.workers.Keys
  {
    if a.Administer? {
      AdministrationIsLifeStep(s, a.op, s');
    } else {
      ServeKeepsWorkers(s.life, a.step, s'.life);
    }
  }

  lemma {:induction false} CatalogInStep(tr: seq<World>, actions: seq<Action>, n: nat)
    requires IsRun(tr, actions) && n < |tr|
    ensures Valid(tr[n].cat) && tr[n].cat.buckets == tr[0].cat.buckets && tr[n].life.workers == tr[n].cat.workers.Keys
  {
    if n > 0 {
      CatalogInStep(tr, actions, n - 1);
      assert Takes(tr, actions, n - 1);
      ActionIsLifeStep(tr[n - 1], actions[n - 1], tr[n]);
      if actions[n - 1].Administer? {
        OperationKeepsValid(tr[n - 1].cat, actions[n - 1].op, tr[n].cat);
      }
    }
  }

  /** Every run of the system is a run of the lifecycle, so all its guarantees carry over. */
  lemma {:induction false} RunsRefineLifecycle(tr: seq<World>, actions: seq<Action>)
    requires IsRun(tr, actions)
    ensures L.IsRun(Lives(tr), LifeSteps(actions))
  {
    forall i | 0 <= i < |actions|
      ensures L.Next(Lives(tr)[i], LifeSteps(actions)[i], Lives(tr)[i + 1])
    {
      CatalogInStep(tr, actions, i);
      assert Takes(tr, actions, i);
      ActionIsLifeStep(tr[i], actions[i], tr[i + 1]);
    }
  }

  /** The routes an init is offered always name registered workers: the lifecycle's premise never stops an init. */
  lemma {:induction false} RoutesAreValid(tr: seq<World>, actions: seq<Action>, n: nat, hashes: seq<Hash>)
    requires IsRun(tr, actions) && n < |tr|
    ensures tr[n].cat.buckets >= 1 && L.RouteValid(tr[n].life, RoutesFor(tr[n].cat, hashes))
  {
    CatalogInStep(tr, actions, n);
  }

  /** Once a cluster was added, an upload-init can only fail on a tombstone. */
  lemma {:induction false} InitFailsOnlyOnTombstones(tr: seq<World>, actions: seq<Action>, n: nat, hashes: seq<Hash>)
    requires IsRun(tr, actions) && n < |tr| && tr[n].cat.shards != map[]
    ensures tr[n].cat.buckets >= 1
    ensures FirstError(tr[n].life.chunks, tr[n].life.workers, RoutesFor(tr[n].cat, hashes), hashes).None?
            <==> forall h :: h in hashes ==> !Locked(tr[n].life.chunks, h)
  {
    CatalogInStep(tr, actions, n);
    RunsRefineLifecycle(tr, actions);
    LI.RunInv(false, Lives(tr), LifeSteps(actions), n);
    var s, route := tr[n].life, RoutesFor(tr[n].cat, hashes);
    assert s == Lives(tr)[n];
    forall h | h in hashes
      ensures !Unroutable(s.chunks, s.workers, route, h)
    {
      RouteExists(tr[n].cat, h);
      var nodes := NodesFor(s.chunks, route, h);
      assert nodes != {} && nodes <= s.workers;
      assert nodes * s.workers == nodes;
    }
    InitSucceedsIff(s.chunks, s.workers, route, hashes);
  }

  ghost predicate Disciplines(s: World, a: Action) {
    a.Administer? ==> Disciplined(s.cat, a.op)
  }

  lemma {:induction false} DisciplinedRun(tr: seq<World>, actions: seq<Action>, n: nat)
    requires IsRun(tr, actions) && n < |tr|
    requires forall i :: 0 <= i < n ==> Disciplines(tr[i], actions[i])
    ensures AllActive(tr[n].cat) && ClustersDisjoint(tr[n].cat)
  {
    if n > 0 {
      DisciplinedRun(tr, actions, n - 1);
      CatalogInStep(tr, actions, n - 1);
      assert Takes(tr, actions, n - 1);
      if actions[n - 1].Administer? {
        DisciplineStep(tr[n - 1].cat, actions[n - 1].op, tr[n].cat);
      }
    }
  }

  lemma {:induction false} OnlyInitMakesRows(s: L.State, step: L.Step, s': L.State, h: Hash)
    requires L.Next(s, step, s') && h !in s.chunks && h in s'.chunks
    ensures step.Init?
  {
  }

  /** Only an init makes rows, and it places them by the catalog's route. */
  lemma {:induction false} NewRowsFollowTheRoute(s: World, a: Action, s': World, h: Hash)
    requires s.cat.buckets >= 1 && Next(s, a, s') && h !in s.life.chunks && h in s'.life.chunks
    ensures s'.life.chunks[h].nodes <= RouteOf(s.cat, h)
  {
    if a.Serve? {
      OnlyInitMakesRows(s.life, a.step, s'.life, h);
    }
  }

  /** With disciplined operators a new row is placed only on workers that are not sealed. */
  lemma {:induction false} NewRowsAvoidSealedWorkers(tr: seq<World>, actions: seq<Action>, n: nat, h: Hash, w: WorkerId)
    requires IsRun(tr, actions) && n < |actions|
    requires forall i :: 0 <= i < n ==> Disciplines(tr[i], actions[i])
    requires h !in tr[n].life.chunks && h in tr[n + 1].life.chunks && w in tr[n + 1].life.chunks[h].nodes
    ensures w in tr[n].cat.workers && tr[n].cat.workers[w].status == Active
  {
    var cat := tr[n].cat;
    DisciplinedRun(tr, actions, n);
    assert Takes(tr, actions, n);
    NewRowsFollowTheRoute(tr[n], actions[n], tr[n + 1], h);
    assert w in RouteOf(cat, h);
    var c := cat.shards[BucketOf(h.hex, cat.buckets)];
    assert c in cat.clusters && w in cat.clusters[c].nodes;
  }

  /** On every run a new row lies on exactly the registered workers listed by the cluster that owns the bucket of its digest. */
  lemma {:induction false} NewRowsLieOnOwningCluster(tr: seq<World>, actions: seq<Action>, n: nat, h: Hash)
    requires IsRun(tr, actions) && n < |actions|
    requires h !in tr[n].life.chunks && h in tr[n + 1].life.chunks && IsDigest(h.hex)
    ensures tr[n].cat.buckets >= 1 && OnOwningCluster(tr[n].cat, h, tr[n + 1].life.chunks[h].nodes)
  {
    CatalogInStep(tr, actions, n);
    assert Takes(tr, actions, n);
    var hashes := NewRowFromInit(tr[n], actions[n], tr[n + 1], h);
    PlacementIs(tr[n].cat, tr[n].life.chunks, hashes, tr[n].life.now);
    assert h in hashes;
  }

  ghost predicate InitsTo(cat: Catalog, t: Table, t': Table, hashes: seq<Hash>, now: int) {
    && cat.buckets >= 1 && FirstError(t, cat.workers.Keys, RoutesFor(cat, hashes), hashes).None?
    && t' == Refreshed(t, RoutesFor(cat, hashes), hashes, now)
  }

  lemma {:induction false} NewRowFromInit(s: World, a: Action, s': World, h: Hash) returns (hashes: seq<Hash>)
    requires s.cat.buckets >= 1 && s.life.workers == s.cat.workers.Keys && Next(s, a, s')
    requires h !in s.life.chunks && h in s'.life.chunks
    ensures InitsTo(s.cat, s.life.chunks, s'.life.chunks, hashes, s.life.now)
  {
    if a.Serve? {
      OnlyInitMakesRows(s.life, a.step, s'.life, h);
      hashes := s.life.sessions[a.step.sid].hashes;
    }
  }
}
