/** What an edge router shows after any history whatever, stale zones included: for every zone,
    whether it has its routers and whether it has its segments. */
module EdgeHistory {
  import opened Ownership
  import opened RoutingState
  import opened RegistryKeys
  import opened Sync
  import opened Rebuild

  /** Of a topology, the zones whose routers are shown, and those whose segments are shown too. */
  datatype Held = Held(topology: Topology, routers: set<Owner>, segments: set<Owner>)

  const NOTHING: Held := Held(map[], {}, {})
  const START: Work := Work(EMPTY_ROUTES, map[])

  ghost predicate HopsHeld(r: Routes, h: Held, c: Content) {
    h.routers <= h.topology.Keys && r.hops == map z | z in h.routers :: c.routers(z, h.topology[z].routers)
  }

  ghost predicate SegmentsHeld(r: Routes, h: Held, c: Content) {
    forall s, z :: Owns(r.owner, z, s) <==> z in h.segments && Lists(h.topology, c, z, s)
  }

  ghost predicate VersionsHeld(local: Versions, h: Held) {
    && h.segments <= h.routers <= h.topology.Keys
    && (forall z :: z in h.routers ==> UpToDate(local, RoutersKey(z), h.topology[z].routers))
    && (forall z :: z in h.segments ==> UpToDate(local, SegmentsKey(z), h.topology[z].segments))
  }

  /** The state is exactly that part of the topology, and its versions are recorded. */
  ghost predicate Holds(w: Work, h: Held, c: Content) {
    HopsHeld(w.routes, h, c) && SegmentsHeld(w.routes, h, c) && VersionsHeld(w.local, h)
  }

  /** The zones that have their routers after a change: those that had them, and those whose
      router version is not the recorded one. */
  function NextRouters(h: Held, local: Versions, t: Topology): set<Owner> {
    set z | z in t && (z in h.routers || !UpToDate(local, RoutersKey(z), t[z].routers))
  }

  /** Of these, the zones that have their segments. */
  function NextSegments(h: Held, local: Versions, t: Topology): set<Owner> {
    set z | z in t && z in NextRouters(h, local, t)
      && (z in h.segments || !UpToDate(local, SegmentsKey(z), t[z].segments))
  }

  /** What a tick makes of it: nothing without a change, nor when no zone would have routers. */
  function Next(h: Held, local: Versions, tick: Tick): Held {
    if DetectChanges(EdgeMode, tick.manifest, local) == {} || NextRouters(h, local, tick.topology) == {} then h
    else Held(tick.topology, NextRouters(h, local, tick.topology), NextSegments(h, local, tick.topology))
  }

  /** The keys to be fetched are those whose version is not recorded. */
  ghost predicate Exactly(changed: set<string>, local: Versions, t: Topology) {
    forall z :: z in t ==>
      && (RoutersKey(z) in changed <==> !UpToDate(local, RoutersKey(z), t[z].routers))
      && (SegmentsKey(z) in changed <==> !UpToDate(local, SegmentsKey(z), t[z].segments))
  }

  lemma ChangesAre(tick: Tick, local: Versions, c: Content)
    requires TickSeen(tick, c)
    ensures Exactly(DetectChanges(EdgeMode, tick.manifest, local), local, tick.topology)
  {
    forall z | z in tick.topology
      ensures RoutersKey(z) in DetectChanges(EdgeMode, tick.manifest, local)
         <==> !UpToDate(local, RoutersKey(z), tick.topology[z].routers)
      ensures SegmentsKey(z) in DetectChanges(EdgeMode, tick.manifest, local)
         <==> !UpToDate(local, SegmentsKey(z), tick.topology[z].segments)
    {
      KeysAreRelevant(z);
    }
  }

  lemma HopsAre(w: Work, h: Held, changed: set<string>, t: Topology, c: Content)
    requires HopsHeld(w.routes, h, c) && VersionsHeld(w.local, h) && Exactly(changed, w.local, t)
    ensures EdgeHops(w.routes, t.Keys, changed, Serving(t, c))
         == map z | z in NextRouters(h, w.local, t) :: c.routers(z, t[z].routers)
  {
  }

  lemma SyncedRouters(w: Work, h: Held, tick: Tick, c: Content)
    requires HopsHeld(w.routes, h, c) && VersionsHeld(w.local, h) && TickSeen(tick, c)
    ensures SyncOf(w, tick, c).routes.hops
         == map z | z in NextRouters(h, w.local, tick.topology) :: c.routers(z, tick.topology[z].routers)
    ensures SyncOf(w, tick, c).routes.hops.Keys == NextRouters(h, w.local, tick.topology)
  {
    var t, changed := tick.topology, DetectChanges(EdgeMode, tick.manifest, w.local);
    EdgeSyncShape(w, tick.manifest, changed, tick.order, Serving(t, c));
    ChangesAre(tick, w.local, c);
    HopsAre(w, h, changed, t, c);
  }

  lemma SameList(local: Versions, h: Held, t: Topology, c: Content, z: Owner, s: Segment)
    requires VersionsHeld(local, h) && z in h.segments && z in t && UpToDate(local, SegmentsKey(z), t[z].segments)
    ensures Lists(h.topology, c, z, s) <==> Lists(t, c, z, s)
  {
  }

  lemma ClaimsAre(changed: set<string>, local: Versions, t: Topology, c: Content)
    requires Exactly(changed, local, t)
    ensures var claims := SegmentsGot(t.Keys, changed, Serving(t, c));
            && claims.Keys <= t.Keys
            && (forall z :: z in t ==> (z in claims <==> !UpToDate(local, SegmentsKey(z), t[z].segments)))
            && forall z, s :: Claimed(claims, z, s) <==> z in claims && Lists(t, c, z, s)
  {
  }

  lemma SegmentIs(w: Work, h: Held, changed: set<string>, order: seq<Owner>, t: Topology, c: Content, z: Owner,
                  s: Segment)
    requires SegmentsHeld(w.routes, h, c) && VersionsHeld(w.local, h)
    requires Exactly(changed, w.local, t) && TopologyOk(t, c) && Visits(order, t.Keys)
    ensures Owns(Synced(Retain(w.routes.owner, t.Keys), order, SegmentsGot(t.Keys, changed, Serving(t, c)),
                        NextRouters(h, w.local, t)), z, s)
       <==> z in NextSegments(h, w.local, t) && Lists(t, c, z, s)
  {
    var claims := SegmentsGot(t.Keys, changed, Serving(t, c));
    ClaimsAre(changed, w.local, t, c);
    RetainedOwns(w.routes.owner, t.Keys, z, s);
    SyncedOwner(Retain(w.routes.owner, t.Keys), order, t.Keys, claims, NextRouters(h, w.local, t), s, z);
    if z in t && z in h.segments && z !in claims {
      SameList(w.local, h, t, c, z, s);
    }
  }

  lemma SyncedSegment(w: Work, h: Held, tick: Tick, c: Content, z: Owner, s: Segment)
    requires Holds(w, h, c) && TickSeen(tick, c)
    ensures Owns(SyncOf(w, tick, c).routes.owner, z, s)
       <==> z in NextSegments(h, w.local, tick.topology) && Lists(tick.topology, c, z, s)
  {
    var t, changed := tick.topology, DetectChanges(EdgeMode, tick.manifest, w.local);
    EdgeSyncShape(w, tick.manifest, changed, tick.order, Serving(t, c));
    SyncedRouters(w, h, tick, c);
    ChangesAre(tick, w.local, c);
    SegmentIs(w, h, changed, tick.order, t, c, z, s);
  }

  lemma SyncedSegments(w: Work, h: Held, tick: Tick, c: Content)
    requires Holds(w, h, c) && TickSeen(tick, c)
    ensures var t := tick.topology;
            SegmentsHeld(SyncOf(w, tick, c).routes, Held(t, NextRouters(h, w.local, t), NextSegments(h, w.local, t)), c)
  {
    forall s, z
      ensures Owns(SyncOf(w, tick, c).routes.owner, z, s)
         <==> z in NextSegments(h, w.local, tick.topology) && Lists(tick.topology, c, z, s)
    {
      SyncedSegment(w, h, tick, c, z, s);
    }
  }

  /** A sync that shows no zone leaves the old routes, and does not touch the versions of the zones
      they show. */
  lemma NothingAdopted(w: Work, h: Held, tick: Tick, c: Content)
    requires Holds(w, h, c) && TickSeen(tick, c) && NextRouters(h, w.local, tick.topology) == {}
    ensures Holds(Adopted(w, SyncOf(w, tick, c)), h, c)
  {
    var t, changed, after := tick.topology, DetectChanges(EdgeMode, tick.manifest, w.local), SyncOf(w, tick, c);
    SyncedRouters(w, h, tick, c);
    assert after.routes.hops == map[];
    SyncedSegments(w, h, tick, c);
    NobodyOwns(after.routes.owner);
    var start := w.(routes := EdgeStart(w.routes, ValidZones(tick.manifest)));
    forall z | z in h.routers
      ensures UpToDate(after.local, RoutersKey(z), h.topology[z].routers)
      ensures z in h.segments ==> UpToDate(after.local, SegmentsKey(z), h.topology[z].segments)
    {
      assert z !in t;
      EdgeFoldLocal(start, tick.order, changed, Serving(t, c), z);
    }
  }

  /** One tick, whatever the topologies before and after it. */
  lemma TickHolds(w: Work, h: Held, tick: Tick, c: Content)
    requires Holds(w, h, c) && TickSeen(tick, c)
    ensures Holds(RunTick(w, tick, c), Next(h, w.local, tick), c)
  {
    if DetectChanges(EdgeMode, tick.manifest, w.local) == {} {
    } else if NextRouters(h, w.local, tick.topology) == {} {
      NothingAdopted(w, h, tick, c);
    } else {
      SyncHolds(w, h, tick, c);
    }
  }

  lemma SyncHolds(w: Work, h: Held, tick: Tick, c: Content)
    requires Holds(w, h, c) && TickSeen(tick, c) && NextRouters(h, w.local, tick.topology) != {}
    ensures Adopted(w, SyncOf(w, tick, c)) == SyncOf(w, tick, c)
    ensures Holds(SyncOf(w, tick, c),
                  Held(tick.topology, NextRouters(h, w.local, tick.topology), NextSegments(h, w.local,
                                                                                           tick.topology)), c)
  {
    SyncedRouters(w, h, tick, c);
    SyncedSegments(w, h, tick, c);
    SyncRecords(w, tick, c);
  }

  ghost predicate AllSeen(ticks: seq<Tick>, c: Content) { forall i :: 0 <= i < |ticks| ==> TickSeen(ticks[i], c) }

  function HeldAfter(w: Work, h: Held, ticks: seq<Tick>, c: Content): Held
    decreases |ticks|
  {
    if ticks == [] then h else HeldAfter(RunTick(w, ticks[0], c), Next(h, w.local, ticks[0]), ticks[1..], c)
  }

  lemma {:induction false} HistoryHoldsFrom(w: Work, h: Held, ticks: seq<Tick>, c: Content)
    requires Holds(w, h, c) && AllSeen(ticks, c)
    ensures Holds(RunTicks(w, ticks, c), HeldAfter(w, h, ticks, c), c)
    decreases |ticks|
  {
    if ticks == [] {
    } else {
      TickHolds(w, h, ticks[0], c);
      HistoryHoldsFrom(RunTick(w, ticks[0], c), Next(h, w.local, ticks[0]), ticks[1..], c);
    }
  }

  /** From start-up, after any history: exactly what each zone shows. */
  lemma HistoryHolds(ticks: seq<Tick>, c: Content)
    requires AllSeen(ticks, c)
    ensures Holds(RunTicks(START, ticks, c), HeldAfter(START, NOTHING, ticks, c), c)
  {
    HistoryHoldsFrom(START, NOTHING, ticks, c);
  }

  /** A missing zone heals exactly when a change finds it under another router version than the
      recorded one; a shown zone stays as long as it is in the manifest. */
  lemma ZoneShownIff(ticks: seq<Tick>, tick: Tick, c: Content, z: Owner)
    requires AllSeen(ticks, c) && TickSeen(tick, c)
    requires var w := RunTicks(START, ticks, c);
             DetectChanges(EdgeMode, tick.manifest, w.local) != {} && !IsEmpty(SyncOf(w, tick, c).routes)
    ensures var w := RunTicks(START, ticks, c);
            z in RunTick(w, tick, c).routes.hops <==>
              z in tick.topology && (z in w.routes.hops || !UpToDate(w.local, RoutersKey(z), tick.topology[z].routers))
  {
    HistoryHolds(ticks, c);
    ShownNext(RunTicks(START, ticks, c), HeldAfter(START, NOTHING, ticks, c), tick, c, z);
  }

  lemma ShownNext(w: Work, h: Held, tick: Tick, c: Content, z: Owner)
    requires HopsHeld(w.routes, h, c) && VersionsHeld(w.local, h) && TickSeen(tick, c)
    requires DetectChanges(EdgeMode, tick.manifest, w.local) != {} && !IsEmpty(SyncOf(w, tick, c).routes)
    ensures z in RunTick(w, tick, c).routes.hops <==>
              z in tick.topology && (z in w.routes.hops || !UpToDate(w.local, RoutersKey(z), tick.topology[z].routers))
  {
    SyncedRouters(w, h, tick, c);
    assert w.routes.hops.Keys == h.routers;
    assert RunTick(w, tick, c) == SyncOf(w, tick, c);
  }

  lemma FirstSegmentShown(r: Routes, t: Topology, c: Content, z: Owner)
    requires Reflects(r, t, c) && z in t && c.segments(z, t[z].segments) != []
    ensures Owns(r.owner, z, c.segments(z, t[z].segments)[0])
  {
    assert Lists(t, c, z, c.segments(z, t[z].segments)[0]);
  }

  /** After any history a state in hand is all of its topology exactly when every zone has its
      routers, and its segments unless it lists none. */
  lemma HoldsAllIff(w: Work, h: Held, c: Content)
    requires Holds(w, h, c)
    ensures Reflects(w.routes, h.topology, c) <==>
              h.routers == h.topology.Keys
              && forall z :: z in h.topology && z !in h.segments ==> c.segments(z, h.topology[z].segments) == []
  {
    var t := h.topology;
    assert w.routes.hops.Keys == h.routers;
    if Reflects(w.routes, t, c) {
      ReflectedZones(w.routes, t, c);
      forall z | z in t && z !in h.segments ensures c.segments(z, t[z].segments) == [] {
        if c.segments(z, t[z].segments) != [] {
          FirstSegmentShown(w.routes, t, c, z);
        }
      }
    }
  }

  // ----- a history that goes wrong -----

  function OneZone(a: Owner, v: ZoneVersions): Versions {
    map[RoutersKey(a) := v.routers, SegmentsKey(a) := v.segments]
  }

  function TwoZones(a: Owner, v: ZoneVersions, b: Owner, u: ZoneVersions): Versions {
    OneZone(a, v) + OneZone(b, u)
  }

  lemma OneZoneDescribes(a: Owner, v: ZoneVersions)
    requires '/' !in a
    ensures Describes(OneZone(a, v), map[a := v])
  {
    KeysNameTheirZone(a);
    KeysDiffer(a, a);
    assert RoutersKey(a) in OneZone(a, v);
  }

  lemma TwoZonesDescribe(a: Owner, v: ZoneVersions, b: Owner, u: ZoneVersions)
    requires a != b && '/' !in a && '/' !in b
    ensures Describes(TwoZones(a, v, b, u), map[a := v, b := u])
  {
    var m := TwoZones(a, v, b, u);
    KeysNameTheirZone(a);
    KeysNameTheirZone(b);
    KeysDiffer(a, b);
    KeysDiffer(b, a);
    KeysDiffer(a, a);
    KeysDiffer(b, b);
    assert RoutersKey(a) in m && RoutersKey(b) in m;
    assert ValidZones(m) == {a, b};
  }

  /** The topologies of the history: two zones; one of them gone; it is back as it was. */
  function Both(a: Owner, b: Owner, n: nat): Topology { map[a := ZoneVersions(n, 1), b := ZoneVersions(1, 1)] }
  function Alone(a: Owner, n: nat): Topology { map[a := ZoneVersions(n, 1)] }

  function BothTick(a: Owner, b: Owner, n: nat): Tick {
    Tick(Both(a, b, n), TwoZones(a, ZoneVersions(n, 1), b, ZoneVersions(1, 1)), [a, b])
  }

  function AloneTick(a: Owner, n: nat): Tick { Tick(Alone(a, n), OneZone(a, ZoneVersions(n, 1)), [a]) }

  /** From start-up: a zone that vanishes in a tick that sees a change, and comes back under its
      old router version, is not shown again, though every fetch succeeds. */
  lemma ReturningZoneStaysMissing(k1: Tick, k2: Tick, k3: Tick, a: Owner, b: Owner, c: Content)
    requires TickSeen(k1, c) && TickSeen(k2, c) && TickSeen(k3, c)
    requires a in k1.topology && a in k2.topology && a in k3.topology && k2.topology.Keys <= k1.topology.Keys
    requires k1.topology[a].routers != k2.topology[a].routers && k2.topology[a].routers != k3.topology[a].routers
    requires b in k1.topology && b !in k2.topology && b in k3.topology
    requires k1.topology[b].routers == k3.topology[b].routers
    ensures var w := RunTicks(START, [k1, k2], c);
            && HistoryOk(START, map[], [k1, k2], c)
            && b !in RunTick(w, k3, c).routes.hops && !Reflects(RunTick(w, k3, c).routes, k3.topology, c)
  {
    var w := RunTicks(START, [k1, k2], c);
    ZoneVanishes(k1, k2, a, b, c);
    TickChanges(w, k2.topology, k3, a, c);
    ReflectedZones(w.routes, k2.topology, c);
    StaleZoneStaysMissing(w, k3.manifest, k3.order, Serving(k3.topology, c), b);
    NotAdoptedBack(w, k3, b, c);
    if Reflects(RunTick(w, k3, c).routes, k3.topology, c) {
      ReflectedZones(RunTick(w, k3, c).routes, k3.topology, c);
    }
  }

  lemma ZoneVanishes(k1: Tick, k2: Tick, a: Owner, b: Owner, c: Content)
    requires TickSeen(k1, c) && TickSeen(k2, c)
    requires a in k1.topology && a in k2.topology && k2.topology.Keys <= k1.topology.Keys
    requires k1.topology[a].routers != k2.topology[a].routers && b in k1.topology && b !in k2.topology
    ensures HistoryOk(START, map[], [k1, k2], c) && InStep(RunTicks(START, [k1, k2], c), k2.topology, c)
    ensures UpToDate(RunTicks(START, [k1, k2], c).local, RoutersKey(b), k1.topology[b].routers)
  {
    var w1 := RunTick(START, k1, c);
    FirstTick(k1, a, c);
    TickChanges(w1, k1.topology, k2, a, c);
    LaterTick(w1, k1.topology, k2, c);
    TwoTicks(k1, k2, c);
    VersionsOutlast(w1, k1.topology, k2, b, c);
  }

  lemma BothApart(a: Owner, b: Owner, n: nat, s: Segment, u: Segment)
    requires a != b && '/' !in a && '/' !in b && s != u
    ensures TopologyOk(Both(a, b, n), TwoLists(a, s, u)) && Visits([a, b], Both(a, b, n).Keys)
  {
  }

  lemma BothSeen(a: Owner, b: Owner, n: nat, s: Segment, u: Segment)
    requires a != b && '/' !in a && '/' !in b && s != u
    ensures TickSeen(BothTick(a, b, n), TwoLists(a, s, u))
  {
    BothApart(a, b, n, s, u);
    TwoZonesDescribe(a, ZoneVersions(n, 1), b, ZoneVersions(1, 1));
  }

  lemma AloneSeen(a: Owner, n: nat, s: Segment, u: Segment)
    requires '/' !in a
    ensures TickSeen(AloneTick(a, n), TwoLists(a, s, u))
  {
    OneZoneDescribes(a, ZoneVersions(n, 1));
  }

  /** One segment for each of two zones. */
  function TwoLists(a: Owner, s: Segment, u: Segment): Content {
    Content((z, v) => [z], (z, v) => if z == a then [s] else [u])
  }

  /** There are such histories: two zones; one of them gone; it is back as it was. */
  lemma SuchAHistory(a: Owner, b: Owner, s: Segment, u: Segment)
    requires a != b && '/' !in a && '/' !in b && s != u
    ensures var c, k1, k2, k3 := TwoLists(a, s, u), BothTick(a, b, 1), AloneTick(a, 2), BothTick(a, b, 3);
            && TickSeen(k1, c) && TickSeen(k2, c) && TickSeen(k3, c)
            && b !in RunTick(RunTicks(START, [k1, k2], c), k3, c).routes.hops
  {
    BothSeen(a, b, 1, s, u);
    AloneSeen(a, 2, s, u);
    BothSeen(a, b, 3, s, u);
    ReturningZoneStaysMissing(BothTick(a, b, 1), AloneTick(a, 2), BothTick(a, b, 3), a, b, TwoLists(a, s, u));
  }

  lemma TwoTicks(k1: Tick, k2: Tick, c: Content)
    requires TickOk(START, map[], k1, c) && Shown(START, map[], k1) == k1.topology
    requires TickOk(RunTick(START, k1, c), k1.topology, k2, c)
    ensures HistoryOk(START, map[], [k1, k2], c)
    ensures RunTicks(START, [k1, k2], c) == RunTick(RunTick(START, k1, c), k2, c)
  {
    var w1 := RunTick(START, k1, c);
    assert [k1, k2][1..] == [k2] && [k2][1..] == [];
    assert HistoryOk(w1, k1.topology, [k2], c);
    assert RunTicks(w1, [k2], c) == RunTick(w1, k2, c);
  }

  lemma FirstTick(tick: Tick, a: Owner, c: Content)
    requires TickSeen(tick, c) && a in tick.topology
    ensures TickOk(START, map[], tick, c) && Shown(START, map[], tick) == tick.topology
    ensures InStep(RunTick(START, tick, c), tick.topology, c)
  {
    ChangesAre(tick, START.local, c);
    TickKeepsStep(START, map[], tick, c);
  }

  lemma LaterTick(w: Work, t0: Topology, tick: Tick, c: Content)
    requires InStep(w, t0, c) && TickSeen(tick, c) && tick.topology.Keys <= t0.Keys
    requires DetectChanges(EdgeMode, tick.manifest, w.local) != {}
    ensures TickOk(w, t0, tick, c) && InStep(RunTick(w, tick, c), tick.topology, c)
  {
    TickKeepsStep(w, t0, tick, c);
  }

  lemma TickChanges(w: Work, t0: Topology, tick: Tick, a: Owner, c: Content)
    requires InStep(w, t0, c) && TickSeen(tick, c) && a in t0 && a in tick.topology
    requires t0[a].routers != tick.topology[a].routers
    ensures DetectChanges(EdgeMode, tick.manifest, w.local) != {}
  {
    ChangesAre(tick, w.local, c);
  }

  /** The versions of a zone that vanishes stay recorded. */
  lemma VersionsOutlast(w: Work, t0: Topology, tick: Tick, b: Owner, c: Content)
    requires InStep(w, t0, c) && TickSeen(tick, c) && b in t0 && b !in tick.topology
    ensures UpToDate(RunTick(w, tick, c).local, RoutersKey(b), t0[b].routers)
  {
    var start := w.(routes := EdgeStart(w.routes, ValidZones(tick.manifest)));
    EdgeFoldLocal(start, tick.order, DetectChanges(EdgeMode, tick.manifest, w.local), Serving(tick.topology, c), b);
  }

  lemma NotAdoptedBack(w: Work, tick: Tick, b: Owner, c: Content)
    requires b !in w.routes.hops && b !in SyncOf(w, tick, c).routes.hops
    ensures b !in RunTick(w, tick, c).routes.hops
  {
  }
}
