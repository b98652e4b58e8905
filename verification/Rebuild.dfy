/** Incremental edge syncs against a registry that answers: each one leaves the state a rebuild
    from scratch would give, over whole histories of the topology. */
module Rebuild {
  import opened Bytes
  import opened Ownership
  import opened RoutingState
  import opened RegistryKeys
  import opened Sync

  /** The registry's content at each version of each resource: versions determine content. */
  datatype Content = Content(routers: (string, nat) -> seq<HopId>, segments: (string, nat) -> seq<Segment>)

  datatype ZoneVersions = ZoneVersions(routers: nat, segments: nat)

  /** The zones that exist, with the current versions of their two resources. */
  type Topology = map<string, ZoneVersions>

  ghost predicate Lists(t: Topology, c: Content, z: Owner, s: Segment) {
    z in t && s in c.segments(z, t[z].segments)
  }

  /** Zone ids hold no slash, and no segment is in two zones. */
  ghost predicate TopologyOk(t: Topology, c: Content) {
    && (forall z :: z in t ==> '/' !in z)
    && (forall s, y, z :: Lists(t, c, y, s) && Lists(t, c, z, s) ==> y == z)
  }

  /** The manifest names exactly these zones and gives both versions of each. It may hold other
      keys, such as those of shards. */
  ghost predicate Describes(manifest: Versions, t: Topology) {
    && ValidZones(manifest) == t.Keys
    && forall z :: z in t ==>
         && RoutersKey(z) in manifest && manifest[RoutersKey(z)] == t[z].routers
         && SegmentsKey(z) in manifest && manifest[SegmentsKey(z)] == t[z].segments
  }

  /** A registry whose every fetch succeeds with the current content. */
  function Serving(t: Topology, c: Content): Registry {
    Registry(
      z => if z in t then Some((t[z].routers, c.routers(z, t[z].routers))) else None,
      z => if z in t then Some((t[z].segments, c.segments(z, t[z].segments))) else None,
      _ => None,
      _ => None)
  }

  /** The routes are exactly the topology's. */
  ghost predicate Reflects(r: Routes, t: Topology, c: Content) {
    && r.hops == (map z | z in t :: c.routers(z, t[z].routers))
    && forall s, z :: Owns(r.owner, z, s) <==> Lists(t, c, z, s)
  }

  lemma ReflectsUnique(a: Routes, b: Routes, t: Topology, c: Content)
    requires Reflects(a, t, c) && Reflects(b, t, c)
    ensures a == b
  {
    SameOwners(a.owner, b.owner);
  }

  /** The keys not reported as changed are those of zones that have not changed, or of new zones
      without segments. */
  ghost predicate ChangesCovered(t0: Topology, t1: Topology, c: Content, changed: set<string>) {
    forall z :: z in t1 ==>
      && (RoutersKey(z) !in changed ==> z in t0 && t0[z].routers == t1[z].routers)
      && (SegmentsKey(z) !in changed ==>
            if z in t0 then t0[z].segments == t1[z].segments else c.segments(z, t1[z].segments) == [])
  }

  /** One incremental sync takes a state that reflects the old topology to one that reflects the new. */
  lemma SyncReflects(w: Work, manifest: Versions, changed: set<string>, order: seq<Owner>,
                     t0: Topology, t1: Topology, c: Content)
    requires Reflects(w.routes, t0, c) && TopologyOk(t1, c) && Describes(manifest, t1)
    requires ChangesCovered(t0, t1, c, changed) && Visits(order, t1.Keys)
    ensures Reflects(EdgeSync(w, manifest, changed, order, Serving(t1, c)).routes, t1, c)
  {
    var reg, zones := Serving(t1, c), t1.Keys;
    EdgeSyncShape(w, manifest, changed, order, reg);
    var r := EdgeSync(w, manifest, changed, order, reg).routes;
    SyncedHops(w.routes, changed, t0, t1, c);
    forall s, z ensures Owns(r.owner, z, s) <==> Lists(t1, c, z, s) {
      SyncedSegments(w.routes, changed, order, t0, t1, c, s, z);
    }
  }

  lemma SyncedSegments(r: Routes, changed: set<string>, order: seq<Owner>, t0: Topology, t1: Topology, c: Content,
                       s: Segment, z: Owner)
    requires Reflects(r, t0, c) && TopologyOk(t1, c) && ChangesCovered(t0, t1, c, changed) && Visits(order, t1.Keys)
    ensures Owns(Synced(Retain(r.owner, t1.Keys), order, SegmentsGot(t1.Keys, changed, Serving(t1, c)), t1.Keys), z, s)
       <==> Lists(t1, c, z, s)
  {
    var claims := SegmentsGot(t1.Keys, changed, Serving(t1, c));
    forall s, y | Claimed(claims, y, s) ensures Lists(t1, c, y, s) {
    }
    var m := Retain(r.owner, t1.Keys);
    SyncedOwner(m, order, t1.Keys, claims, t1.Keys, s, z);
    assert Owns(m, z, s) <==> Owns(r.owner, z, s) && z in t1;
    assert z in t1 && z !in claims ==> (Lists(t0, c, z, s) <==> Lists(t1, c, z, s));
  }

  lemma SyncedHops(r: Routes, changed: set<string>, t0: Topology, t1: Topology, c: Content)
    requires Reflects(r, t0, c) && ChangesCovered(t0, t1, c, changed)
    ensures EdgeHops(r, t1.Keys, changed, Serving(t1, c)) == map z | z in t1 :: c.routers(z, t1[z].routers)
  {
  }

  /** The same sync from nothing: no state, no recorded version. */
  function FromScratch(manifest: Versions, order: seq<Owner>, t: Topology, c: Content): Routes {
    EdgeSync(Work(EMPTY_ROUTES, map[]), manifest, DetectChanges(EdgeMode, manifest, map[]), order, Serving(t, c)).routes
  }

  lemma KeysAreRelevant(z: string)
    ensures Relevant(EdgeMode, RoutersKey(z)) && Relevant(EdgeMode, SegmentsKey(z))
  {
  }

  lemma ScratchReflects(manifest: Versions, order: seq<Owner>, t: Topology, c: Content)
    requires TopologyOk(t, c) && Describes(manifest, t) && Visits(order, t.Keys)
    ensures Reflects(FromScratch(manifest, order, t, c), t, c)
  {
    var changed := DetectChanges(EdgeMode, manifest, map[]);
    forall z | z in t ensures RoutersKey(z) in changed && SegmentsKey(z) in changed {
      KeysAreRelevant(z);
    }
    SyncReflects(Work(EMPTY_ROUTES, map[]), manifest, changed, order, map[], t, c);
  }

  /** Incremental equals rebuild, whatever the two hash orders. */
  lemma IncrementalEqualsRebuild(w: Work, manifest: Versions, changed: set<string>, order: seq<Owner>,
                                 order': seq<Owner>,
                                 t0: Topology, t1: Topology, c: Content)
    requires Reflects(w.routes, t0, c) && TopologyOk(t1, c) && Describes(manifest, t1)
    requires ChangesCovered(t0, t1, c, changed) && Visits(order, t1.Keys) && Visits(order', t1.Keys)
    ensures EdgeSync(w, manifest, changed, order, Serving(t1, c)).routes == FromScratch(manifest, order', t1, c)
  {
    SyncReflects(w, manifest, changed, order, t0, t1, c);
    ScratchReflects(manifest, order', t1, c);
    ReflectsUnique(EdgeSync(w, manifest, changed, order, Serving(t1, c)).routes,
                   FromScratch(manifest, order', t1, c), t1, c);
  }

  // ----- whole histories -----

  /** One refresh tick: the topology at that moment, its manifest, and the hash order used. */
  datatype Tick = Tick(topology: Topology, manifest: Versions, order: seq<Owner>)

  function SyncOf(w: Work, tick: Tick, c: Content): Work {
    EdgeSync(w, tick.manifest, DetectChanges(EdgeMode, tick.manifest, w.local), tick.order, Serving(tick.topology, c))
  }

  /** What a tick does: nothing when no key changed, else an incremental sync. */
  function RunTick(w: Work, tick: Tick, c: Content): Work {
    if DetectChanges(EdgeMode, tick.manifest, w.local) == {} then w else Adopted(w, SyncOf(w, tick, c))
  }

  /** A changed key means that there are zones. */
  lemma ChangeMeansZones(manifest: Versions, local: Versions, t: Topology)
    requires Describes(manifest, t) && DetectChanges(EdgeMode, manifest, local) != {}
    ensures t != map[]
  {
    var k :| k in DetectChanges(EdgeMode, manifest, local);
    assert ZoneOf(k).value in ValidZones(manifest);
  }

  lemma ReflectedZones(r: Routes, t: Topology, c: Content)
    requires Reflects(r, t, c)
    ensures r.hops.Keys == t.Keys
  {
  }

  /** The topology the state stands for after a tick; without a changed key it stays the old one. */
  function Shown(w: Work, t0: Topology, tick: Tick): Topology {
    if DetectChanges(EdgeMode, tick.manifest, w.local) == {} then t0 else tick.topology
  }

  /** A zone not shown so far arrives with versions other than those once recorded for it. */
  ghost predicate Fresh(local: Versions, t0: Topology, t1: Topology, c: Content) {
    forall z :: z in t1 && z !in t0 ==>
      && !UpToDate(local, RoutersKey(z), t1[z].routers)
      && (UpToDate(local, SegmentsKey(z), t1[z].segments) ==> c.segments(z, t1[z].segments) == [])
  }

  ghost predicate TickOk(w: Work, t0: Topology, tick: Tick, c: Content) {
    TickSeen(tick, c) && Fresh(w.local, t0, tick.topology, c)
  }

  ghost predicate TickSeen(tick: Tick, c: Content) {
    TopologyOk(tick.topology, c) && Describes(tick.manifest, tick.topology) && Visits(tick.order, tick.topology.Keys)
  }

  ghost predicate Recorded(local: Versions, t: Topology) {
    forall z :: z in t ==>
      UpToDate(local, RoutersKey(z), t[z].routers) && UpToDate(local, SegmentsKey(z), t[z].segments)
  }

  /** The state reflects the shown topology and its versions are recorded. */
  ghost predicate InStep(w: Work, t: Topology, c: Content) {
    Reflects(w.routes, t, c) && Recorded(w.local, t)
  }

  lemma {:induction false} EdgeFoldLocal(w: Work, order: seq<Owner>, changed: set<string>, reg: Registry, z: Owner)
    ensures var l := EdgeFold(w, order, changed, reg).local;
            && (if z in order && RoutersKey(z) in changed && reg.zoneRouters(z).Some?
                then UpToDate(l, RoutersKey(z), reg.zoneRouters(z).value.0)
                else (RoutersKey(z) in l <==> RoutersKey(z) in w.local)
                     && (RoutersKey(z) in l ==> l[RoutersKey(z)] == w.local[RoutersKey(z)]))
            && (if z in order && SegmentsKey(z) in changed && reg.zoneSegments(z).Some?
                then UpToDate(l, SegmentsKey(z), reg.zoneSegments(z).value.0)
                else (SegmentsKey(z) in l <==> SegmentsKey(z) in w.local)
                     && (SegmentsKey(z) in l ==> l[SegmentsKey(z)] == w.local[SegmentsKey(z)]))
    decreases |order|
  {
    if order == [] {
    } else {
      KeysDiffer(z, order[0]);
      KeysDiffer(order[0], z);
      EdgeFoldLocal(EdgeVisit(w, order[0], changed, reg), order[1..], changed, reg, z);
    }
  }

  /** A tick that sees a change adopts its sync, and that reflects the new topology. */
  lemma ChangeIsAdopted(w: Work, t0: Topology, tick: Tick, c: Content)
    requires InStep(w, t0, c) && TickOk(w, t0, tick, c) && DetectChanges(EdgeMode, tick.manifest, w.local) != {}
    ensures Reflects(SyncOf(w, tick, c).routes, tick.topology, c)
    ensures RunTick(w, tick, c) == SyncOf(w, tick, c) && !IsEmpty(SyncOf(w, tick, c).routes)
  {
    var t1, changed := tick.topology, DetectChanges(EdgeMode, tick.manifest, w.local);
    forall z | z in t1
      ensures RoutersKey(z) !in changed ==> UpToDate(w.local, RoutersKey(z), t1[z].routers)
      ensures SegmentsKey(z) !in changed ==> UpToDate(w.local, SegmentsKey(z), t1[z].segments)
    {
      KeysAreRelevant(z);
    }
    SyncReflects(w, tick.manifest, changed, tick.order, t0, t1, c);
    ChangeMeansZones(tick.manifest, w.local, t1);
    ReflectedZones(SyncOf(w, tick, c).routes, t1, c);
  }

  /** Fetched or not, after a sync the current versions are recorded. */
  lemma SyncRecords(w: Work, tick: Tick, c: Content)
    requires TickSeen(tick, c)
    ensures Recorded(SyncOf(w, tick, c).local, tick.topology)
  {
    var t1, changed := tick.topology, DetectChanges(EdgeMode, tick.manifest, w.local);
    var start := w.(routes := EdgeStart(w.routes, ValidZones(tick.manifest)));
    forall z | z in t1
      ensures UpToDate(SyncOf(w, tick, c).local, RoutersKey(z), t1[z].routers)
      ensures UpToDate(SyncOf(w, tick, c).local, SegmentsKey(z), t1[z].segments)
    {
      KeysAreRelevant(z);
      EdgeFoldLocal(start, tick.order, changed, Serving(t1, c), z);
    }
  }

  lemma TickKeepsStep(w: Work, t0: Topology, tick: Tick, c: Content)
    requires InStep(w, t0, c) && TickOk(w, t0, tick, c)
    ensures InStep(RunTick(w, tick, c), Shown(w, t0, tick), c)
  {
    if DetectChanges(EdgeMode, tick.manifest, w.local) != {} {
      ChangeIsAdopted(w, t0, tick, c);
      SyncRecords(w, tick, c);
    }
  }

  ghost predicate HistoryOk(w: Work, t0: Topology, ticks: seq<Tick>, c: Content)
    decreases |ticks|
  {
    ticks == [] ||
    (TickOk(w, t0, ticks[0], c) && HistoryOk(RunTick(w, ticks[0], c), Shown(w, t0, ticks[0]), ticks[1..], c))
  }

  function RunTicks(w: Work, ticks: seq<Tick>, c: Content): Work
    decreases |ticks|
  {
    if ticks == [] then w else RunTicks(RunTick(w, ticks[0], c), ticks[1..], c)
  }

  function ShownAfter(w: Work, t0: Topology, ticks: seq<Tick>, c: Content): Topology
    decreases |ticks|
  {
    if ticks == [] then t0 else ShownAfter(RunTick(w, ticks[0], c), Shown(w, t0, ticks[0]), ticks[1..], c)
  }

  /** After any history the state is exactly the topology of the last tick that saw a change. */
  lemma {:induction false} HistoryReflects(w: Work, t0: Topology, ticks: seq<Tick>, c: Content)
    requires InStep(w, t0, c) && HistoryOk(w, t0, ticks, c)
    ensures InStep(RunTicks(w, ticks, c), ShownAfter(w, t0, ticks, c), c)
    decreases |ticks|
  {
    if ticks == [] {
    } else {
      TickKeepsStep(w, t0, ticks[0], c);
      HistoryReflects(RunTick(w, ticks[0], c), Shown(w, t0, ticks[0]), ticks[1..], c);
    }
  }

  /** From start-up, however long the history: a tick that sees a change leaves exactly what a
      rebuild from scratch against its topology would give. */
  lemma HistoryEqualsRebuild(ticks: seq<Tick>, last: Tick, order': seq<Owner>, c: Content)
    requires HistoryOk(Work(EMPTY_ROUTES, map[]), map[], ticks, c)
    requires var w := RunTicks(Work(EMPTY_ROUTES, map[]), ticks, c);
             && TickOk(w, ShownAfter(Work(EMPTY_ROUTES, map[]), map[], ticks, c), last, c)
             && DetectChanges(EdgeMode, last.manifest, w.local) != {}
    requires Visits(order', last.topology.Keys)
    ensures RunTick(RunTicks(Work(EMPTY_ROUTES, map[]), ticks, c), last, c).routes
         == FromScratch(last.manifest, order', last.topology, c)
  {
    var w0: Work := Work(EMPTY_ROUTES, map[]);
    var w, t := RunTicks(w0, ticks, c), ShownAfter(w0, map[], ticks, c);
    HistoryReflects(w0, map[], ticks, c);
    TickKeepsStep(w, t, last, c);
    ScratchReflects(last.manifest, order', last.topology, c);
    ReflectsUnique(RunTick(w, last, c).routes, FromScratch(last.manifest, order', last.topology, c), last.topology, c);
  }

  /** Why `Fresh` is asked for: a zone that was dropped but whose old router version is still
      recorded is not fetched again, so it stays without routers and without segments. */
  lemma StaleZoneStaysMissing(w: Work, manifest: Versions, order: seq<Owner>, reg: Registry, z: Owner)
    requires Visits(order, ValidZones(manifest)) && z !in w.routes.hops
    requires RoutersKey(z) in manifest && UpToDate(w.local, RoutersKey(z), manifest[RoutersKey(z)])
    ensures var r := EdgeSync(w, manifest, DetectChanges(EdgeMode, manifest, w.local), order, reg).routes;
            z !in r.hops && forall s :: !Owns(r.owner, z, s)
  {
    EdgeSyncShape(w, manifest, DetectChanges(EdgeMode, manifest, w.local), order, reg);
  }

  /** Likewise a segment list that is recorded is not fetched again. */
  lemma StaleSegmentsStayMissing(w: Work, t0: Topology, tick: Tick, c: Content, z: Owner, s: Segment)
    requires Reflects(w.routes, t0, c) && TickSeen(tick, c) && Lists(tick.topology, c, z, s) && z !in t0
    requires UpToDate(w.local, SegmentsKey(z), tick.topology[z].segments)
    requires DetectChanges(EdgeMode, tick.manifest, w.local) != {}
    ensures !Owns(SyncOf(w, tick, c).routes.owner, z, s)
  {
    var t1, changed := tick.topology, DetectChanges(EdgeMode, tick.manifest, w.local);
    var reg := Serving(t1, c);
    var claims := SegmentsGot(t1.Keys, changed, reg);
    EdgeSyncShape(w, tick.manifest, changed, tick.order, reg);
    forall s, y | Claimed(claims, y, s) ensures Lists(t1, c, y, s) {
    }
    SyncedOwner(Retain(w.routes.owner, t1.Keys), tick.order, t1.Keys, claims,
                SyncOf(w, tick, c).routes.hops.Keys, s, z);
    assert !Owns(w.routes.owner, z, s);
  }

  /** Exactly when a tick leaves the state of its topology. If it sees a change: when no zone has
      come back under a version still recorded for it. If it sees none: when the zones are the same. */
  lemma TickReflectsIff(w: Work, t0: Topology, tick: Tick, c: Content)
    requires InStep(w, t0, c) && TickSeen(tick, c)
    ensures Reflects(RunTick(w, tick, c).routes, tick.topology, c) <==>
              if DetectChanges(EdgeMode, tick.manifest, w.local) == {} then t0.Keys == tick.topology.Keys
              else Fresh(w.local, t0, tick.topology, c)
  {
    var t1, r := tick.topology, RunTick(w, tick, c).routes;
    if DetectChanges(EdgeMode, tick.manifest, w.local) == {} {
      if t0.Keys == t1.Keys {
        NothingChanged(w.local, t0, tick);
      }
      ReflectedZones(w.routes, t0, c);
      if Reflects(r, t1, c) {
        ReflectedZones(r, t1, c);
      }
    } else if Fresh(w.local, t0, t1, c) {
      TickKeepsStep(w, t0, tick, c);
    } else {
      StaleBreaks(w, t0, tick, c);
    }
  }

  lemma StaleBreaks(w: Work, t0: Topology, tick: Tick, c: Content)
    requires Reflects(w.routes, t0, c) && TickSeen(tick, c) && !Fresh(w.local, t0, tick.topology, c)
    requires DetectChanges(EdgeMode, tick.manifest, w.local) != {}
    ensures !Reflects(RunTick(w, tick, c).routes, tick.topology, c)
  {
    var t1 := tick.topology;
    var z :| z in t1 && z !in t0 && (UpToDate(w.local, RoutersKey(z), t1[z].routers)
      || (UpToDate(w.local, SegmentsKey(z), t1[z].segments) && c.segments(z, t1[z].segments) != []));
    ReflectedZones(w.routes, t0, c);
    if Reflects(w.routes, t1, c) {
      ReflectedZones(w.routes, t1, c);
    }
    if UpToDate(w.local, RoutersKey(z), t1[z].routers) {
      StaleZoneStaysMissing(w, tick.manifest, tick.order, Serving(t1, c), z);
    } else {
      var s := c.segments(z, t1[z].segments)[0];
      assert Lists(t1, c, z, s);
      StaleSegmentsStayMissing(w, t0, tick, c, z, s);
    }
  }

  lemma NothingChanged(local: Versions, t0: Topology, tick: Tick)
    requires Recorded(local, t0) && Describes(tick.manifest, tick.topology) && t0.Keys == tick.topology.Keys
    requires DetectChanges(EdgeMode, tick.manifest, local) == {}
    ensures t0 == tick.topology
  {
    forall z | z in t0 ensures t0[z] == tick.topology[z] {
      KeysAreRelevant(z);
      assert RoutersKey(z) !in DetectChanges(EdgeMode, tick.manifest, local);
      assert SegmentsKey(z) !in DetectChanges(EdgeMode, tick.manifest, local);
    }
  }
}
