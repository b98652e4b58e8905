/** The refresh task: sync, retire, publish, tick after tick. */
module Refresh {
  import opened Bytes
  import opened Ownership
  import opened RoutingState
  import opened Sync
  import opened HopManager
  import opened Rzid

  /** What one tick meets: the manifest, unless fetching it fails, and the registry's answers. */
  datatype TickInput = TickInput(manifest: Option<Versions>, registry: Registry)

  /** What a sync with a fetched manifest amounts to, for the visiting order it used. */
  function SyncResult(mode: Mode, current: RoutingSnapshot, local: Versions, manifest: Versions, order: seq<Owner>,
                      reg: Registry): (Outcome, Versions)
  {
    var changed := DetectChanges(mode, manifest, local);
    if changed == {} then (NoChange, local)
    else
      var w := Work(Base(mode, current), local);
      var w' := match mode
        case EdgeMode => EdgeSync(w, manifest, changed, order, reg)
        case ZoneMode(zoneId) => ZoneSync(w, zoneId, manifest, changed, order, reg);
      (OutcomeOf(mode, w'.routes), w'.local)
  }

  /** The orders a sync can visit its owners in. */
  ghost predicate OrderFits(mode: Mode, current: RoutingSnapshot, local: Versions, manifest: Versions,
                            order: seq<Owner>,
                            reg: Registry)
  {
    var changed := DetectChanges(mode, manifest, local);
    changed != {} ==>
      match mode
      case EdgeMode => Visits(order, ValidZones(manifest))
      case ZoneMode(zoneId) =>
        Visits(order, FetchShards(Work(Base(mode, current), local), zoneId, changed, reg).routes.hops.Keys)
  }

  /** Hops were only added or retired; whoever is active before and after is never missing from
      any map a reader could load meanwhile, and stays the same object. */
  ghost predicate NeverMissing(h0: HopMap, st0: seq<HopMap>, h1: HopMap, st1: seq<HopMap>, both: set<HopId>) {
    && st0 <= st1
    && (forall k, id :: |st0| <= k < |st1| && id in both && id in h0 ==> id in st1[k] && st1[k][id] == h0[id])
    && (forall id :: id in both && id in h0 ==> id in h1 && h1[id] == h0[id])
  }

  lemma GrownNeverMissing(h0: HopMap, st0: seq<HopMap>, h1: HopMap, st1: seq<HopMap>, both: set<HopId>)
    requires Grown(h0, st0, h1, st1)
    ensures NeverMissing(h0, st0, h1, st1, both)
  {
  }

  lemma RetireKeeps(h0: HopMap, st0: seq<HopMap>, h1: HopMap, st1: seq<HopMap>, h2: HopMap, st2: seq<HopMap>,
                    active: set<HopId>)
    requires Grown(h0, st0, h1, st1) && h2 == h1 - (h1.Keys - active)
    requires st2 == st1 || st2 == st1 + [h2]
    ensures NeverMissing(h0, st0, h2, st2, active)
  {
  }

  /** What a tick can change: the hops with all the maps stored so far, the recorded versions,
      and the published snapshot. */
  datatype Point = Point(hops: HopMap, stores: seq<HopMap>, local: Versions, routing: RoutingSnapshot)

  /** One tick: without a manifest nothing happens; with one, versions and snapshot are the
      sync's, and the hops become those of a new snapshot or stay. */
  ghost predicate TickStep(mode: Mode, input: TickInput, order: seq<Owner>, p: Point, q: Point) {
    && (input.manifest.None? ==> q == p)
    && (input.manifest.Some? ==>
          var (outcome, local) := SyncResult(mode, p.routing, p.local, input.manifest.value, order, input.registry);
          && OrderFits(mode, p.routing, p.local, input.manifest.value, order, input.registry)
          && q.local == local
          && if outcome.Updated? then q.routing == outcome.snapshot && q.hops.Keys == HopIds(q.routing.routes)
             else q.routing == p.routing && q.hops == p.hops)
    && NeverMissing(p.hops, p.stores, q.hops, q.stores, HopIds(q.routing.routes))
  }

  /** A run: one point before and after each tick. */
  ghost predicate Follows(mode: Mode, inputs: seq<TickInput>, orders: seq<seq<Owner>>, trace: seq<Point>) {
    && |orders| == |inputs| && |trace| == |inputs| + 1
    && forall i :: 0 <= i < |inputs| ==> TickStep(mode, inputs[i], orders[i], trace[i], trace[i + 1])
  }

  /** An outcome together with the hops there are now: an empty one brought no hop, any other
      has all its hops and no dangling route. */
  ghost predicate Backed(o: Outcome, before: set<HopId>, after: set<HopId>) {
    && (o.NoRoute? || o.Updated?)
    && (o.NoRoute? ==> after == before)
    && (o.Updated? ==> NoDangling(o.snapshot.routes) && HopIds(o.snapshot.routes) <= after)
  }

  lemma EdgeSynced(w: Work, manifest: Versions, changed: set<string>, order: seq<Owner>, reg: Registry,
                   before: set<HopId>, after: set<HopId>)
    requires Visits(order, ValidZones(manifest)) && HopIds(w.routes) <= before <= after
    requires HopsFit(before, after, w.routes, EdgeSync(w, manifest, changed, order, reg).routes)
    ensures var r := EdgeSync(w, manifest, changed, order, reg).routes;
            Backed(OutcomeOf(EdgeMode, r), before, after) && r.hops.Keys <= ValidZones(manifest)
  {
    EdgeSyncShape(w, manifest, changed, order, reg);
    EmptyBringsNothing(before, after, w.routes, EdgeSync(w, manifest, changed, order, reg).routes);
  }

  lemma ZoneSynced(mode: Mode, w: Work, manifest: Versions, changed: set<string>, order: seq<Owner>, reg: Registry,
                   before: set<HopId>, after: set<HopId>)
    requires mode.ZoneMode? && Visits(order, FetchShards(w, mode.zoneId, changed, reg).routes.hops.Keys)
    requires HopIds(w.routes) <= before <= after
    requires HopsFit(before, after, w.routes, ZoneSync(w, mode.zoneId, manifest, changed, order, reg).routes)
    ensures Backed(OutcomeOf(mode, ZoneSync(w, mode.zoneId, manifest, changed, order, reg).routes), before, after)
  {
    ZoneSyncShape(w, mode.zoneId, manifest, changed, order, reg);
    EmptyBringsNothing(before, after, w.routes, ZoneSync(w, mode.zoneId, manifest, changed, order, reg).routes);
  }

  lemma EmptyBringsNothing(before: set<HopId>, after: set<HopId>, base: Routes, r: Routes)
    requires HopsFit(before, after, base, r) && HopIds(base) <= before <= after
    ensures IsEmpty(r) ==> after == before
    ensures HopIds(r) <= after
  {
    if IsEmpty(r) {
      assert HopIds(r) == {};
    }
  }

  lemma SameHops(h0: HopMap, h1: HopMap)
    requires Keeps(h1, h0)
    ensures h1.Keys == h0.Keys ==> h1 == h0
    ensures h0.Keys <= h1.Keys
  {
  }

  class Router {
    const client: RzidClient
    const hm: HopRegistry

    /** The published snapshot, and (for the proofs) every snapshot ever published. */
    var routing: RoutingSnapshot
    ghost var published: seq<RoutingSnapshot>

    /** Registry and snapshot agree, and no published snapshot has a dangling route. */
    ghost predicate Valid()
      reads this, hm
    {
      && hm.hops.Keys == HopIds(routing.routes)
      && published != [] && published[|published| - 1] == routing
      && (forall p :: p in published ==> NoDangling(p.routes))
    }

    ghost function Now(): Point
      reads this, hm, client
    {
      Point(hm.hops, hm.stores, client.local, routing)
    }

    constructor (mode: Mode)
      ensures Valid() && fresh(hm) && fresh(client)
      ensures routing.routes == EMPTY_ROUTES && published == [routing] && client.mode == mode
    {
      client := new RzidClient(mode);
      hm := new HopRegistry();
      routing := if mode == EdgeMode then Edge(EMPTY_ROUTES) else Zone(EMPTY_ROUTES);
      published := [if mode == EdgeMode then Edge(EMPTY_ROUTES) else Zone(EMPTY_ROUTES)];
    }

    /** Manifest, change detection, sync by mode, retirement. */
    method SyncRoutingState(input: TickInput) returns (outcome: Outcome, order: seq<Owner>)
      requires Valid()
      modifies client, hm
      ensures input.manifest.None? ==>
                outcome == ManifestFailed && client.local == old(client.local) && hm.stores == old(hm.stores)
      ensures input.manifest.Some? ==>
                var (mode, manifest, reg) := (client.mode, input.manifest.value, input.registry);
                && OrderFits(mode, routing, old(client.local), manifest, order, reg)
                && (outcome, client.local) == SyncResult(mode, routing, old(client.local), manifest, order, reg)
      ensures outcome.Updated? ==>
                NoDangling(outcome.snapshot.routes) && hm.hops.Keys == HopIds(outcome.snapshot.routes)
      ensures !outcome.Updated? ==> hm.hops == old(hm.hops)
      ensures outcome.Updated? && client.mode == EdgeMode ==>
                outcome.snapshot.routes.hops.Keys <= ValidZones(input.manifest.value)
      ensures NeverMissing(old(hm.hops), old(hm.stores), hm.hops, hm.stores,
                           if outcome.Updated? then HopIds(outcome.snapshot.routes) else old(hm.hops).Keys)
    {
      order := [];
      if input.manifest.None? {
        return ManifestFailed, [];
      }
      var manifest := input.manifest.value;
      var changed := DetectChanges(client.mode, manifest, client.local);
      if changed == {} {
        return NoChange, [];
      }
      outcome, order := SyncByMode(manifest, changed, input.registry);
      if outcome.Updated? {
        ghost var grown, stores := hm.hops, hm.stores;
        var _ := hm.RetireUnused(HopIds(outcome.snapshot.routes));
        RetireKeeps(old(hm.hops), old(hm.stores), grown, stores, hm.hops, hm.stores, HopIds(outcome.snapshot.routes));
      } else {
        GrownNeverMissing(old(hm.hops), old(hm.stores), hm.hops, hm.stores, old(hm.hops).Keys);
      }
    }

    /** The sync proper. An empty result is an error, and then no hop was created either. */
    method SyncByMode(manifest: Versions, changed: set<string>, registry: Registry)
      returns (outcome: Outcome, order: seq<Owner>)
      requires Valid() && changed == DetectChanges(client.mode, manifest, client.local) && changed != {}
      modifies client, hm
      ensures OrderFits(client.mode, routing, old(client.local), manifest, order, registry)
      ensures (outcome, client.local) == SyncResult(client.mode, routing, old(client.local), manifest, order, registry)
      ensures outcome.NoRoute? || outcome.Updated?
      ensures outcome.NoRoute? ==> hm.hops == old(hm.hops)
      ensures outcome.Updated? ==>
                NoDangling(outcome.snapshot.routes) && HopIds(outcome.snapshot.routes) <= hm.hops.Keys
      ensures outcome.Updated? && client.mode == EdgeMode ==>
                outcome.snapshot.routes.hops.Keys <= ValidZones(manifest)
      ensures Grown(old(hm.hops), old(hm.stores), hm.hops, hm.stores)
    {
      ghost var w, before := Work(Base(client.mode, routing), client.local), hm.hops;
      BaseIdsKnown(client.mode, routing);
      if client.mode == EdgeMode {
        outcome, order := client.SyncEdgeState(routing, manifest, changed, hm, registry);
        EdgeSynced(w, manifest, changed, order, registry, before.Keys, hm.hops.Keys);
      } else {
        outcome, order := client.SyncZoneState(routing, manifest, changed, hm, registry);
        ZoneSynced(client.mode, w, manifest, changed, order, registry, before.Keys, hm.hops.Keys);
      }
      SameHops(before, hm.hops);
    }

    /** One refresh tick. A failed, empty or unchanged sync publishes nothing and leaves the
        hops as they were. */
    method Tick(input: TickInput) returns (outcome: Outcome, order: seq<Owner>)
      requires Valid()
      modifies this, client, hm
      ensures Valid()
      ensures TickStep(client.mode, input, order, old(Now()), Now())
      ensures published == old(published) || published == old(published) + [routing]
      ensures routing == if outcome.Updated? then outcome.snapshot else old(routing)
    {
      outcome, order := SyncRoutingState(input);
      if outcome.Updated? {
        routing := outcome.snapshot;
        published := published + [routing];
      }
    }

    /** Any run of the refresh task, tick by tick. */
    method RunRefreshTask(inputs: seq<TickInput>) returns (ghost orders: seq<seq<Owner>>, ghost trace: seq<Point>)
      requires Valid()
      modifies this, client, hm
      ensures Valid() && Follows(client.mode, inputs, orders, trace)
      ensures trace[0] == old(Now()) && trace[|inputs|] == Now()
    {
      orders, trace := [], [Now()];
      for i := 0 to |inputs|
        invariant Valid() && Follows(client.mode, inputs[..i], orders, trace)
        invariant trace[0] == old(Now()) && trace[i] == Now()
      {
        var _, order := Tick(inputs[i]);
        FollowsSnoc(client.mode, inputs[..i], inputs[i], orders, order, trace, Now());
        assert inputs[..i + 1] == inputs[..i] + [inputs[i]];
        orders, trace := orders + [order], trace + [Now()];
      }
      assert inputs[..|inputs|] == inputs;
    }
  }

  lemma FollowsSnoc(mode: Mode, inputs: seq<TickInput>, input: TickInput, orders: seq<seq<Owner>>, order: seq<Owner>,
                    trace: seq<Point>, q: Point)
    requires Follows(mode, inputs, orders, trace) && TickStep(mode, input, order, trace[|inputs|], q)
    ensures Follows(mode, inputs + [input], orders + [order], trace + [q])
  {
    var inputs', orders', trace' := inputs + [input], orders + [order], trace + [q];
    forall i | 0 <= i < |inputs'| ensures TickStep(mode, inputs'[i], orders'[i], trace'[i], trace'[i + 1]) {
      if i < |inputs| {
        assert TickStep(mode, inputs[i], orders[i], trace[i], trace[i + 1]);
      }
    }
  }

  lemma BaseIdsKnown(mode: Mode, current: RoutingSnapshot)
    ensures HopIds(Base(mode, current)) <= HopIds(current.routes)
  {
  }
}
