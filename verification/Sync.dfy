/** What one synchronisation with the registry computes, as a function of the visiting order
    and of whatever the registry answers. */
module Sync {
  import opened Bytes
  import opened Ownership
  import opened RoutingState
  import opened RegistryKeys

  type Versions = map<string, nat>

  datatype Mode = EdgeMode | ZoneMode(zoneId: string)

  /** The registry's answers during one sync; None is a failed fetch. */
  datatype Registry = Registry(
    zoneRouters: string -> Option<(nat, seq<HopId>)>,
    zoneSegments: string -> Option<(nat, seq<Segment>)>,
    zoneShards: string -> Option<(nat, map<string, seq<HopId>>)>,
    shardSegments: string -> Option<(nat, string, seq<Segment>)>)

  /** A state under construction and the locally recorded versions. */
  datatype Work = Work(routes: Routes, local: Versions)

  predicate Relevant(mode: Mode, key: string) {
    match mode
    case EdgeMode => StartsWith(key, "zones/") && (EndsWith(key, "/routers") || EndsWith(key, "/segments"))
    case ZoneMode(zoneId) =>
      (StartsWith(key, "zones/") && Contains(key, zoneId)) || (StartsWith(key, "shards/") && EndsWith(key, "/segments"))
  }

  predicate UpToDate(local: Versions, key: string, version: nat) {
    key in local && local[key] == version
  }

  function DetectChanges(mode: Mode, manifest: Versions, local: Versions): set<string> {
    set k | k in manifest && Relevant(mode, k) && !UpToDate(local, k, manifest[k])
  }

  /** What is left of a sync: an empty result is an error, so the routes published before stay,
      though the versions fetched on the way are recorded. */
  function Adopted(before: Work, after: Work): Work {
    if IsEmpty(after.routes) then before.(local := after.local) else after
  }

  // ----- edge routers -----

  /** The manifest is authoritative for which zones exist. */
  function ValidZones(manifest: Versions): set<Owner> {
    set k | k in manifest && ZoneOf(k).Some? :: ZoneOf(k).value
  }

  function EdgeStart(r: Routes, valid: set<Owner>): Routes {
    Routes(Retain(r.owner, valid), map z | z in r.hops && z in valid :: r.hops[z])
  }

  function VisitRouters(w: Work, z: Owner, changed: set<string>, reg: Registry): Work {
    if RoutersKey(z) !in changed then w
    else match reg.zoneRouters(z)
      case None => w
      case Some((v, ids)) => Work(w.routes.(hops := w.routes.hops[z := ids]), w.local[RoutersKey(z) := v])
  }

  function VisitSegments(w: Work, z: Owner, changed: set<string>, reg: Registry): Work {
    if SegmentsKey(z) !in changed then w
    else match reg.zoneSegments(z)
      case None => w
      case Some((v, list)) =>
        Work(w.routes.(owner := Replace(w.routes.owner, z, list)), w.local[SegmentsKey(z) := v])
  }

  function EdgeVisit(w: Work, z: Owner, changed: set<string>, reg: Registry): Work {
    VisitSegments(VisitRouters(w, z, changed, reg), z, changed, reg)
  }

  function EdgeFold(w: Work, order: seq<Owner>, changed: set<string>, reg: Registry): Work
    decreases |order|
  {
    if order == [] then w else EdgeFold(EdgeVisit(w, order[0], changed, reg), order[1..], changed, reg)
  }

  /** The final consistency pass. */
  function Finish(r: Routes): (f: Routes)
    ensures NoDangling(f)
  {
    r.(owner := Retain(r.owner, r.hops.Keys))
  }

  function EdgeSync(w: Work, manifest: Versions, changed: set<string>, order: seq<Owner>, reg: Registry): Work {
    var done := EdgeFold(w.(routes := EdgeStart(w.routes, ValidZones(manifest))), order, changed, reg);
    done.(routes := Finish(done.routes))
  }

  /** The lists that were fetched. */
  function RoutersGot(zones: set<Owner>, changed: set<string>, reg: Registry): map<Owner, seq<HopId>> {
    map z | z in zones && RoutersKey(z) in changed && reg.zoneRouters(z).Some? :: reg.zoneRouters(z).value.1
  }

  function SegmentsGot(zones: set<Owner>, changed: set<string>, reg: Registry): map<Owner, seq<Segment>> {
    map z | z in zones && SegmentsKey(z) in changed && reg.zoneSegments(z).Some? :: reg.zoneSegments(z).value.1
  }

  lemma {:induction false} EdgeFoldOwner(w: Work, order: seq<Owner>, zones: set<Owner>, changed: set<string>,
                                         reg: Registry)
    requires forall z :: z in order ==> z in zones
    ensures EdgeFold(w, order, changed, reg).routes.owner
         == FoldClaims(w.routes.owner, order, SegmentsGot(zones, changed, reg))
    decreases |order|
  {
    if order == [] {
    } else {
      assert order[0] in order;
      EdgeFoldOwner(EdgeVisit(w, order[0], changed, reg), order[1..], zones, changed, reg);
    }
  }

  lemma {:induction false} EdgeFoldHops(w: Work, order: seq<Owner>, zones: set<Owner>, changed: set<string>,
                                        reg: Registry)
    requires forall z :: z in order ==> z in zones
    ensures var h, got := EdgeFold(w, order, changed, reg).routes.hops, RoutersGot(zones, changed, reg);
            && (forall z :: z in h <==> z in w.routes.hops || (z in order && z in got))
            && (forall z :: z in h ==> h[z] == if z in order && z in got then got[z] else w.routes.hops[z])
    decreases |order|
  {
    if order == [] {
    } else {
      assert order[0] in order;
      EdgeFoldHops(EdgeVisit(w, order[0], changed, reg), order[1..], zones, changed, reg);
    }
  }

  /** Routers after a sync, without any order: fetched lists replace old ones, vanished zones go. */
  function EdgeHops(r: Routes, zones: set<Owner>, changed: set<string>, reg: Registry): map<Owner, seq<HopId>> {
    EdgeStart(r, zones).hops + RoutersGot(zones, changed, reg)
  }

  /** The whole edge sync in closed form, for every order and every pattern of failures. */
  lemma EdgeSyncShape(w: Work, manifest: Versions, changed: set<string>, order: seq<Owner>, reg: Registry)
    requires Visits(order, ValidZones(manifest))
    ensures var zones := ValidZones(manifest);
            var r, h := EdgeSync(w, manifest, changed, order, reg).routes, EdgeHops(w.routes, zones, changed, reg);
            && r.hops == h
            && r.owner == Synced(Retain(w.routes.owner, zones), order, SegmentsGot(zones, changed, reg), h.Keys)
            && NoDangling(r) && h.Keys <= zones
  {
    var zones := ValidZones(manifest);
    var start := w.(routes := EdgeStart(w.routes, zones));
    EdgeFoldOwner(start, order, zones, changed, reg);
    EdgeFoldAllHops(start, order, zones, changed, reg);
    HopsInZones(w.routes, zones, changed, reg);
  }

  lemma EdgeFoldAllHops(w: Work, order: seq<Owner>, zones: set<Owner>, changed: set<string>, reg: Registry)
    requires Visits(order, zones)
    ensures EdgeFold(w, order, changed, reg).routes.hops == w.routes.hops + RoutersGot(zones, changed, reg)
  {
    EdgeFoldHops(w, order, zones, changed, reg);
    var h, got := EdgeFold(w, order, changed, reg).routes.hops, RoutersGot(zones, changed, reg);
    assert h.Keys == w.routes.hops.Keys + got.Keys;
  }

  lemma HopsInZones(r: Routes, zones: set<Owner>, changed: set<string>, reg: Registry)
    ensures EdgeHops(r, zones, changed, reg).Keys <= zones
  {
  }

  /** The published edge routes do not depend on the hash order of the zones exactly when no
      segment is listed both by a zone that has routers and by another fetched zone. */
  lemma EdgeOrderIndependentIff(w: Work, manifest: Versions, changed: set<string>, reg: Registry)
    ensures var zones := ValidZones(manifest);
            Compatible(SegmentsGot(zones, changed, reg), EdgeHops(w.routes, zones, changed, reg).Keys) <==>
            forall o1, o2 :: Visits(o1, zones) && Visits(o2, zones) ==>
              EdgeSync(w, manifest, changed, o1, reg).routes == EdgeSync(w, manifest, changed, o2, reg).routes
  {
    var zones := ValidZones(manifest);
    var claims, kept := SegmentsGot(zones, changed, reg), EdgeHops(w.routes, zones, changed, reg).Keys;
    var m := Retain(w.routes.owner, zones);
    forall o | Visits(o, zones)
      ensures EdgeSync(w, manifest, changed, o, reg).routes
           == Routes(Synced(m, o, claims, kept), EdgeHops(w.routes, zones, changed, reg))
    {
      EdgeSyncShape(w, manifest, changed, o, reg);
    }
    OrderIndependentIff(m, zones, claims, kept);
  }

  // ----- zone routers -----

  /** The shard topology of our own zone, when it changed or was never fetched. */
  function FetchShards(w: Work, zoneId: string, changed: set<string>, reg: Registry): Work {
    if ShardsKey(zoneId) !in changed && w.routes.hops != map[] then w
    else match reg.zoneShards(zoneId)
      case None => w
      case Some((v, shards)) => Work(Routes(Retain(w.routes.owner, shards.Keys), shards),
                                     w.local[ShardsKey(zoneId) := v])
  }

  /** The segment list taken for a shard: fetched, and answered for our zone. */
  function ShardGot(local: Versions, shard: Owner, zoneId: string, manifest: Versions, reg: Registry)
    : Option<(nat, seq<Segment>)>
  {
    var key := ShardSegmentsKey(shard);
    if key !in manifest || UpToDate(local, key, manifest[key]) then None
    else match reg.shardSegments(shard)
      case None => None
      case Some((v, zone, list)) => if zone != zoneId then None else Some((v, list))
  }

  function ZoneVisit(w: Work, shard: Owner, zoneId: string, manifest: Versions, reg: Registry): Work {
    match ShardGot(w.local, shard, zoneId, manifest, reg)
    case None => w
    case Some((v, list)) =>
      Work(w.routes.(owner := Replace(w.routes.owner, shard, list)), w.local[ShardSegmentsKey(shard) := v])
  }

  function ZoneFold(w: Work, order: seq<Owner>, zoneId: string, manifest: Versions, reg: Registry): Work
    decreases |order|
  {
    if order == [] then w
    else ZoneFold(ZoneVisit(w, order[0], zoneId, manifest, reg), order[1..], zoneId, manifest, reg)
  }

  function ZoneSync(w: Work, zoneId: string, manifest: Versions, changed: set<string>, order: seq<Owner>,
                    reg: Registry): Work
  {
    var done := ZoneFold(FetchShards(w, zoneId, changed, reg), order, zoneId, manifest, reg);
    done.(routes := Finish(done.routes))
  }

  function ShardsGot(local: Versions, shards: set<Owner>, zoneId: string, manifest: Versions, reg: Registry)
    : map<Owner, seq<Segment>>
  {
    map s | s in shards && ShardGot(local, s, zoneId, manifest, reg).Some?
      :: ShardGot(local, s, zoneId, manifest, reg).value.1
  }

  lemma {:induction false} ZoneFoldShape(w: Work, order: seq<Owner>, zoneId: string, manifest: Versions, reg: Registry,
                                         claims: map<Owner, seq<Segment>>)
    requires forall i, j :: 0 <= i < j < |order| ==> order[i] != order[j]
    requires forall z :: z in order ==>
               var got := ShardGot(w.local, z, zoneId, manifest, reg);
               (z in claims <==> got.Some?) && (got.Some? ==> claims[z] == got.value.1)
    ensures ZoneFold(w, order, zoneId, manifest, reg).routes
         == w.routes.(owner := FoldClaims(w.routes.owner, order, claims))
    decreases |order|
  {
    if order == [] {
    } else {
      assert order[0] in order;
      var w' := ZoneVisit(w, order[0], zoneId, manifest, reg);
      forall z | z in order[1..]
        ensures ShardGot(w'.local, z, zoneId, manifest, reg) == ShardGot(w.local, z, zoneId, manifest, reg)
      {
        KeysDiffer(z, order[0]);
      }
      ZoneFoldShape(w', order[1..], zoneId, manifest, reg, claims);
    }
  }

  /** The whole zone sync in closed form; replies for another zone count as not fetched. */
  lemma ZoneSyncShape(w: Work, zoneId: string, manifest: Versions, changed: set<string>, order: seq<Owner>,
                      reg: Registry)
    requires Visits(order, FetchShards(w, zoneId, changed, reg).routes.hops.Keys)
    ensures var start := FetchShards(w, zoneId, changed, reg);
            var r, h := ZoneSync(w, zoneId, manifest, changed, order, reg).routes, start.routes.hops;
            && r.hops == h && NoDangling(r)
            && r.owner == Synced(start.routes.owner, order, ShardsGot(start.local, h.Keys, zoneId, manifest, reg),
                                 h.Keys)
  {
    var start := FetchShards(w, zoneId, changed, reg);
    ZoneFoldShape(start, order, zoneId, manifest, reg,
                  ShardsGot(start.local, start.routes.hops.Keys, zoneId, manifest, reg));
  }

  /** Likewise for zone routers: order does not matter exactly when no segment is listed by two
      fetched shards. */
  lemma ZoneOrderIndependentIff(w: Work, zoneId: string, manifest: Versions, changed: set<string>, reg: Registry)
    ensures var start := FetchShards(w, zoneId, changed, reg);
            var shards := start.routes.hops.Keys;
            Compatible(ShardsGot(start.local, shards, zoneId, manifest, reg), shards) <==>
            forall o1, o2 :: Visits(o1, shards) && Visits(o2, shards) ==>
              ZoneSync(w, zoneId, manifest, changed, o1, reg).routes
                == ZoneSync(w, zoneId, manifest, changed, o2, reg).routes
  {
    var start := FetchShards(w, zoneId, changed, reg);
    var h := start.routes.hops;
    var claims := ShardsGot(start.local, h.Keys, zoneId, manifest, reg);
    forall o | Visits(o, h.Keys)
      ensures ZoneSync(w, zoneId, manifest, changed, o, reg).routes
              == Routes(Synced(start.routes.owner, o, claims, h.Keys), h)
    {
      ZoneSyncShape(w, zoneId, manifest, changed, o, reg);
    }
    OrderIndependentIff(start.routes.owner, h.Keys, claims, h.Keys);
  }
}
