/** The registry client: the syncs of module Sync carried out step by step on a working copy,
    with hops created on the way and retired at the end. */
module Rzid {
  import opened Ownership
  import opened RoutingState
  import opened RegistryKeys
  import opened Sync
  import opened HopManager
  import Hop

  type HopMap = map<HopId, Hop.Hop>

  datatype Outcome = ManifestFailed | NoChange | NoRoute | Updated(snapshot: RoutingSnapshot)

  /** `m` still has every hop of `base`, as the same object. */
  ghost predicate Keeps(m: HopMap, base: HopMap) {
    forall id :: id in base ==> id in m && m[id] == base[id]
  }

  /** From `h0` to `h1` hops were only added, in every store on the way too. */
  ghost predicate Grown(h0: HopMap, st0: seq<HopMap>, h1: HopMap, st1: seq<HopMap>) {
    && Keeps(h1, h0) && st0 <= st1
    && forall k :: |st0| <= k < |st1| ==> Keeps(st1[k], h0)
  }

  lemma GrownTrans(h0: HopMap, st0: seq<HopMap>, h1: HopMap, st1: seq<HopMap>, h2: HopMap, st2: seq<HopMap>)
    requires Grown(h0, st0, h1, st1) && Grown(h1, st1, h2, st2)
    ensures Grown(h0, st0, h2, st2)
  {
  }

  /** The state a sync starts from: the current one if it is of our kind. */
  function Base(mode: Mode, current: RoutingSnapshot): Routes {
    match (mode, current)
    case (EdgeMode, Edge(r)) => r
    case (ZoneMode(_), Zone(r)) => r
    case _ => EMPTY_ROUTES
  }

  /** `get_or_create` for every id of a list. */
  method CreateAll(ids: seq<HopId>, hm: HopRegistry)
    modifies hm
    ensures hm.hops.Keys == old(hm.hops).Keys + (set id | id in ids)
    ensures Grown(old(hm.hops), old(hm.stores), hm.hops, hm.stores)
  {
    for i := 0 to |ids|
      invariant hm.hops.Keys == old(hm.hops).Keys + (set id | id in ids[..i])
      invariant Grown(old(hm.hops), old(hm.stores), hm.hops, hm.stores)
    {
      ghost var h1, st1 := hm.hops, hm.stores;
      var _ := hm.GetOrCreate(ids[i]);
      GrownTrans(old(hm.hops), old(hm.stores), h1, st1, hm.hops, hm.stores);
      assert ids[..i + 1] == ids[..i] + [ids[i]];
    }
    assert ids[..|ids|] == ids;
  }

  /** The hop ids a visit of one zone brings in. */
  function FetchedIds(z: Owner, changed: set<string>, reg: Registry): set<HopId> {
    if RoutersKey(z) in changed && reg.zoneRouters(z).Some? then set id | id in reg.zoneRouters(z).value.1 else {}
  }

  lemma GotStep(zones: set<Owner>, z: Owner, changed: set<string>, reg: Registry)
    ensures IdsOf(RoutersGot(zones + {z}, changed, reg))
            == IdsOf(RoutersGot(zones, changed, reg)) + FetchedIds(z, changed, reg)
  {
    var a, b := RoutersGot(zones, changed, reg), RoutersGot(zones + {z}, changed, reg);
    forall id | id in FetchedIds(z, changed, reg) ensures id in IdsOf(b) {
      var ids := reg.zoneRouters(z).value.1;
      var i :| 0 <= i < |ids| && ids[i] == id;
      assert z in b && b[z][i] == id;
    }
    forall id | id in IdsOf(a) ensures id in IdsOf(b) {
      var y, i :| y in a && 0 <= i < |a[y]| && a[y][i] == id;
      assert y in b && b[y][i] == id;
    }
    forall id | id in IdsOf(b) ensures id in IdsOf(a) + FetchedIds(z, changed, reg) {
      var y, i :| y in b && 0 <= i < |b[y]| && b[y][i] == id;
      if y in zones {
        assert y in a && a[y][i] == id;
      }
    }
  }

  /** Overlaying one hop map on another. */
  lemma IdsOfSum(a: map<Owner, seq<HopId>>, b: map<Owner, seq<HopId>>)
    ensures IdsOf(b) <= IdsOf(a + b) <= IdsOf(a) + IdsOf(b)
  {
    forall id | id in IdsOf(b) ensures id in IdsOf(a + b) {
      var y, i :| y in b && 0 <= i < |b[y]| && b[y][i] == id;
      assert y in a + b && (a + b)[y][i] == id;
    }
    forall id | id in IdsOf(a + b) ensures id in IdsOf(a) + IdsOf(b) {
      var y, i :| y in a + b && 0 <= i < |(a + b)[y]| && (a + b)[y][i] == id;
      if y !in b {
        assert y in a && a[y][i] == id;
      }
    }
  }

  lemma IdsOfPart(a: map<Owner, seq<HopId>>, b: map<Owner, seq<HopId>>)
    requires forall z :: z in a ==> z in b && a[z] == b[z]
    ensures IdsOf(a) <= IdsOf(b)
  {
    forall id | id in IdsOf(a) ensures id in IdsOf(b) {
      var y, i :| y in a && 0 <= i < |a[y]| && a[y][i] == id;
      assert y in b && b[y][i] == id;
    }
  }

  /** The registry grew by nothing but hops of the new routes, and every hop of the new routes
      was there before or is there now. */
  ghost predicate HopsFit(before: set<HopId>, after: set<HopId>, base: Routes, routes: Routes) {
    after <= before + HopIds(routes) && HopIds(routes) <= HopIds(base) + after
  }

  lemma EdgeHopsFit(before: set<HopId>, w: Work, manifest: Versions, changed: set<string>, order: seq<Owner>,
                    reg: Registry)
    requires Visits(order, ValidZones(manifest))
    ensures HopsFit(before, before + IdsOf(RoutersGot(ValidZones(manifest), changed, reg)), w.routes,
                    EdgeSync(w, manifest, changed, order, reg).routes)
  {
    var zones := ValidZones(manifest);
    var r, got := EdgeSync(w, manifest, changed, order, reg).routes, RoutersGot(zones, changed, reg);
    EdgeSyncShape(w, manifest, changed, order, reg);
    IdsOfSum(EdgeStart(w.routes, zones).hops, got);
    IdsOfPart(EdgeStart(w.routes, zones).hops, w.routes.hops);
    assert HopIds(r) == IdsOf(r.hops) && HopIds(w.routes) == IdsOf(w.routes.hops);
  }

  lemma VisitsStep(order: seq<Owner>, seen: set<Owner>, z: Owner)
    requires Visits(order, seen) && z !in seen
    ensures Visits(order + [z], seen + {z})
  {
  }

  lemma {:induction false} EdgeFoldSnoc(w: Work, order: seq<Owner>, z: Owner, changed: set<string>, reg: Registry)
    ensures EdgeFold(w, order + [z], changed, reg) == EdgeVisit(EdgeFold(w, order, changed, reg), z, changed, reg)
    decreases |order|
  {
    if order == [] {
      assert order + [z] == [z];
    } else {
      assert (order + [z])[0] == order[0] && (order + [z])[1..] == order[1..] + [z];
      EdgeFoldSnoc(EdgeVisit(w, order[0], changed, reg), order[1..], z, changed, reg);
    }
  }

  /** The zones in `seen` have been visited in this order: the work done and the hops there are now. */
  ghost predicate Visited(start: Work, now: Work, order: seq<Owner>, seen: set<Owner>, before: set<HopId>,
                          after: set<HopId>, changed: set<string>, reg: Registry)
  {
    && Visits(order, seen) && now == EdgeFold(start, order, changed, reg)
    && after == before + IdsOf(RoutersGot(seen, changed, reg))
  }

  lemma NothingVisited(start: Work, before: set<HopId>, changed: set<string>, reg: Registry)
    ensures Visited(start, start, [], {}, before, before, changed, reg)
  {
    assert IdsOf(RoutersGot({}, changed, reg)) == {};
  }

  lemma VisitedStep(start: Work, now: Work, order: seq<Owner>, seen: set<Owner>, before: set<HopId>, after: set<HopId>,
                    changed: set<string>, reg: Registry, z: Owner)
    requires Visited(start, now, order, seen, before, after, changed, reg) && z !in seen
    ensures Visited(start, EdgeVisit(now, z, changed, reg), order + [z], seen + {z}, before,
                    after + FetchedIds(z, changed, reg), changed, reg)
  {
    EdgeFoldSnoc(start, order, z, changed, reg);
    GotStep(seen, z, changed, reg);
    VisitsStep(order, seen, z);
  }

  lemma {:induction false} ZoneFoldSnoc(w: Work, order: seq<Owner>, z: Owner, zoneId: string, manifest: Versions,
                                        reg: Registry)
    ensures ZoneFold(w, order + [z], zoneId, manifest, reg)
         == ZoneVisit(ZoneFold(w, order, zoneId, manifest, reg), z, zoneId, manifest, reg)
    decreases |order|
  {
    if order == [] {
      assert order + [z] == [z];
    } else {
      assert (order + [z])[0] == order[0] && (order + [z])[1..] == order[1..] + [z];
      ZoneFoldSnoc(ZoneVisit(w, order[0], zoneId, manifest, reg), order[1..], z, zoneId, manifest, reg);
    }
  }

  function OutcomeOf(mode: Mode, r: Routes): Outcome {
    if IsEmpty(r) then NoRoute else Updated(if mode == EdgeMode then Edge(r) else Zone(r))
  }

  class RzidClient {
    const mode: Mode
    var local: Versions

    constructor (mode: Mode)
      ensures this.mode == mode && local == map[]
    {
      this.mode := mode;
      local := map[];
    }

    function WorkOf(table: RouteTable): Work reads this, table { Work(table.View(), local) }

    /** One zone of the edge sync: its routers, then its segments. */
    method VisitZone(table: RouteTable, z: Owner, changed: set<string>, hm: HopRegistry, reg: Registry)
      modifies this, table, hm
      ensures WorkOf(table) == EdgeVisit(old(WorkOf(table)), z, changed, reg)
      ensures Grown(old(hm.hops), old(hm.stores), hm.hops, hm.stores)
      ensures hm.hops.Keys == old(hm.hops).Keys + FetchedIds(z, changed, reg)
    {
      if RoutersKey(z) in changed {
        match reg.zoneRouters(z)
        case Some((version, routers)) =>
          CreateAll(routers, hm);
          table.SetHops(z, routers);
          local := local[RoutersKey(z) := version];
        case None =>
      }
      ghost var mid := WorkOf(table);
      if SegmentsKey(z) in changed {
        match reg.zoneSegments(z)
        case Some((version, segments)) =>
          table.ReplaceSegments(z, segments);
          local := local[SegmentsKey(z) := version];
        case None =>
      }
      assert WorkOf(table) == VisitSegments(mid, z, changed, reg);
    }

    /** Visits every zone once, in some order. */
    method VisitZones(table: RouteTable, zones: set<Owner>, changed: set<string>, hm: HopRegistry, reg: Registry)
      returns (order: seq<Owner>)
      modifies this, table, hm
      ensures Visits(order, zones)
      ensures WorkOf(table) == EdgeFold(old(WorkOf(table)), order, changed, reg)
      ensures hm.hops.Keys == old(hm.hops).Keys + IdsOf(RoutersGot(zones, changed, reg))
      ensures Grown(old(hm.hops), old(hm.stores), hm.hops, hm.stores)
    {
      ghost var start := WorkOf(table);
      order := [];
      var todo := zones;
      NothingVisited(start, old(hm.hops).Keys, changed, reg);
      ghost var seen: set<Owner> := {};
      while todo != {}
        invariant seen !! todo && seen + todo == zones
        invariant Visited(start, WorkOf(table), order, seen, old(hm.hops).Keys, hm.hops.Keys, changed, reg)
        invariant Grown(old(hm.hops), old(hm.stores), hm.hops, hm.stores)
        decreases todo
      {
        var z: Owner :| z in todo;
        ghost var w1, h1, st1 := WorkOf(table), hm.hops, hm.stores;
        VisitZone(table, z, changed, hm, reg);
        VisitedStep(start, w1, order, seen, old(hm.hops).Keys, h1.Keys, changed, reg, z);
        GrownTrans(old(hm.hops), old(hm.stores), h1, st1, hm.hops, hm.stores);
        order, todo, seen := order + [z], todo - {z}, seen + {z};
      }
    }

    /** The edge sync, in whatever order the zones come. */
    method SyncEdgeState(current: RoutingSnapshot, manifest: Versions, changed: set<string>, hm: HopRegistry,
                         reg: Registry)
      returns (outcome: Outcome, order: seq<Owner>)
      requires mode == EdgeMode
      modifies this, hm
      ensures Visits(order, ValidZones(manifest))
      ensures var w := EdgeSync(Work(Base(mode, current), old(local)), manifest, changed, order, reg);
              && local == w.local && outcome == OutcomeOf(mode, w.routes)
              && HopsFit(old(hm.hops).Keys, hm.hops.Keys, Base(mode, current), w.routes)
      ensures Grown(old(hm.hops), old(hm.stores), hm.hops, hm.stores)
    {
      var base := Base(mode, current);
      var table := new RouteTable(base);
      var zones := ValidZones(manifest);
      table.RetainValid(zones);
      ghost var start := WorkOf(table);
      assert start == Work(EdgeStart(base, zones), old(local));
      order := VisitZones(table, zones, changed, hm, reg);
      EdgeHopsFit(old(hm.hops).Keys, Work(base, old(local)), manifest, changed, order, reg);
      table.RetainSegments(table.hops.Keys);
      outcome := OutcomeOf(mode, table.View());
    }

    /** Our own zone's shards and their bridges. */
    method FetchTopology(table: RouteTable, zoneId: string, changed: set<string>, hm: HopRegistry, reg: Registry)
      modifies this, table, hm
      ensures WorkOf(table) == FetchShards(old(WorkOf(table)), zoneId, changed, reg)
      ensures HopsFit(old(hm.hops).Keys, hm.hops.Keys, old(table.View()), table.View())
      ensures Grown(old(hm.hops), old(hm.stores), hm.hops, hm.stores)
    {
      if ShardsKey(zoneId) !in changed && table.hops != map[] {
        return;
      }
      match reg.zoneShards(zoneId)
      case Some((version, shards)) =>
        CreateBridges(shards, hm);
        table.hops := shards;
        table.RetainSegments(table.hops.Keys);
        local := local[ShardsKey(zoneId) := version];
        assert HopIds(table.View()) == IdsOf(shards);
      case None =>
    }

    method CreateBridges(shards: map<Owner, seq<HopId>>, hm: HopRegistry)
      modifies hm
      ensures hm.hops.Keys == old(hm.hops).Keys + IdsOf(shards)
      ensures Grown(old(hm.hops), old(hm.stores), hm.hops, hm.stores)
    {
      var todo := shards.Keys;
      ghost var done: map<Owner, seq<HopId>> := map[];
      while todo != {}
        invariant todo <= shards.Keys && done == map z | z in shards && z !in todo :: shards[z]
        invariant hm.hops.Keys == old(hm.hops).Keys + IdsOf(done)
        invariant Grown(old(hm.hops), old(hm.stores), hm.hops, hm.stores)
        decreases todo
      {
        var z: Owner :| z in todo;
        ghost var h1, st1 := hm.hops, hm.stores;
        CreateAll(shards[z], hm);
        GrownTrans(old(hm.hops), old(hm.stores), h1, st1, hm.hops, hm.stores);
        IdsAfterAdd(done, z, shards[z]);
        done, todo := done[z := shards[z]], todo - {z};
      }
      assert done == shards;
    }

    /** One shard of the zone sync. */
    method VisitShard(table: RouteTable, shard: Owner, zoneId: string, manifest: Versions, reg: Registry)
      modifies this, table`owner
      ensures WorkOf(table) == ZoneVisit(old(WorkOf(table)), shard, zoneId, manifest, reg)
    {
      var key := ShardSegmentsKey(shard);
      if key !in manifest || UpToDate(local, key, manifest[key]) {
        return;
      }
      match reg.shardSegments(shard)
      case Some((version, zone, segments)) =>
        if zone != zoneId {
          return;
        }
        table.ReplaceSegments(shard, segments);
        local := local[key := version];
      case None =>
    }

    /** The zone sync, in whatever order the shards come. */
    method SyncZoneState(current: RoutingSnapshot, manifest: Versions, changed: set<string>, hm: HopRegistry,
                         reg: Registry)
      returns (outcome: Outcome, order: seq<Owner>)
      requires mode.ZoneMode?
      modifies this, hm
      ensures var w := Work(Base(mode, current), old(local));
              Visits(order, FetchShards(w, mode.zoneId, changed, reg).routes.hops.Keys)
      ensures var w := ZoneSync(Work(Base(mode, current), old(local)), mode.zoneId, manifest, changed, order, reg);
              && local == w.local && outcome == OutcomeOf(mode, w.routes)
              && HopsFit(old(hm.hops).Keys, hm.hops.Keys, Base(mode, current), w.routes)
      ensures Grown(old(hm.hops), old(hm.stores), hm.hops, hm.stores)
    {
      var base := Base(mode, current);
      var table := new RouteTable(base);
      FetchTopology(table, mode.zoneId, changed, hm, reg);
      ghost var start := WorkOf(table);
      order := [];
      var todo := table.hops.Keys;
      ghost var shards := todo;
      label fetched:
      while todo != {}
        invariant todo <= shards && Visits(order, shards - todo)
        invariant WorkOf(table) == ZoneFold(start, order, mode.zoneId, manifest, reg) && table.hops == start.routes.hops
        invariant hm.hops == old@fetched(hm.hops) && hm.stores == old@fetched(hm.stores)
        decreases todo
      {
        var z: Owner :| z in todo;
        ZoneFoldSnoc(start, order, z, mode.zoneId, manifest, reg);
        VisitsStep(order, shards - todo, z);
        assert shards - (todo - {z}) == shards - todo + {z};
        VisitShard(table, z, mode.zoneId, manifest, reg);
        order, todo := order + [z], todo - {z};
      }
      assert shards - todo == shards;
      table.RetainSegments(table.hops.Keys);
      assert HopIds(table.View()) == HopIds(start.routes);
      outcome := OutcomeOf(mode, table.View());
    }
  }

  lemma IdsAfterAdd(hops: map<Owner, seq<HopId>>, z: Owner, ids: seq<HopId>)
    requires z !in hops
    ensures IdsOf(hops[z := ids]) == IdsOf(hops) + (set id | id in ids)
  {
    var one: map<Owner, seq<HopId>> := map[z := ids];
    assert hops[z := ids] == hops + one;
    IdsOfSum(hops, one);
    IdsOfPart(hops, hops + one);
    forall id | id in ids ensures id in IdsOf(one) {
      var i :| 0 <= i < |ids| && ids[i] == id;
      assert z in one && one[z][i] == id;
    }
    forall id | id in IdsOf(one) ensures id in ids {
    }
  }
}
