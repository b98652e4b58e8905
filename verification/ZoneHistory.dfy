/** What a zone router shows after any history whatever, lost and returning shards included. */
module ZoneHistory {
  import opened Bytes
  import opened Ownership
  import opened RoutingState
  import opened RegistryKeys
  import opened Sync
  import opened ZoneRebuild

  const START: Work := Work(EMPTY_ROUTES, map[])

  /** The shards shown, with the segments of some of them; a recorded topology version is theirs,
      or that of an empty topology. */
  ghost predicate Holds(w: Work, h: Held, c: Content, zoneId: string) {
    && w.routes.hops == h.shown.shards && SegmentsHeld(w.routes, h, c) && VersionsHeld(w.local, h)
    && (ShardsKey(zoneId) in w.local ==>
          w.routes.hops == c.shards(w.local[ShardsKey(zoneId)]) || c.shards(w.local[ShardsKey(zoneId)]) == map[])
  }

  /** A tick as it may come at any state: its order visits the shards the sync finds. */
  ghost predicate Comes(w: Work, tick: Tick, c: Content, zoneId: string) {
    && TopologyOk(tick.topology, c) && Describes(tick.manifest, zoneId, tick.topology)
    && Visits(tick.order, Fetched(w, tick, c, zoneId).routes.hops.Keys)
  }

  /** What a tick makes of it: nothing without a change, nor when the zone has lost its shards. */
  function Next(w: Work, h: Held, tick: Tick, c: Content, zoneId: string): Held {
    if Changes(w, tick, zoneId) == {} || Emptied(w, tick.topology) then h
    else Held(ShownOf(tick.topology, c), NextSegments(h, w.local, tick.topology))
  }

  /** Once the version of an empty topology is recorded, the old shards are visited, and nothing
      is fetched for them. */
  lemma IdleSync(w: Work, h: Held, tick: Tick, c: Content, zoneId: string)
    requires Holds(w, h, c, zoneId) && Comes(w, tick, c, zoneId) && !TopologyKnown(w, tick.topology, c, zoneId)
    ensures Emptied(w, tick.topology) && SyncOf(w, tick, c, zoneId) == w
  {
    KeysAreRelevant(zoneId, "");
    var reg := Serving(tick.topology, c, zoneId);
    assert c.shards(tick.topology.version) == map[];
    assert tick.topology.segments.Keys == {};
    assert Fetched(w, tick, c, zoneId) == w;
    IdleFold(w, tick.order, zoneId, tick.manifest, reg);
    AllKept(w.routes, h, c);
  }

  lemma {:induction false} IdleFold(w: Work, order: seq<Owner>, zoneId: string, manifest: Versions, reg: Registry)
    requires forall z :: reg.shardSegments(z) == None
    ensures ZoneFold(w, order, zoneId, manifest, reg) == w
    decreases |order|
  {
    if order == [] {
    } else {
      IdleFold(w, order[1..], zoneId, manifest, reg);
    }
  }

  lemma AllKept(r: Routes, h: Held, c: Content)
    requires r.hops == h.shown.shards && SegmentsHeld(r, h, c)
    ensures Finish(r) == r
  {
    forall s | s in r.owner ensures r.owner[s] in r.hops {
      assert Owns(r.owner, r.owner[s], s);
    }
  }

  lemma KnownMeansSeen(w: Work, tick: Tick, c: Content, zoneId: string)
    requires Comes(w, tick, c, zoneId) && TopologyKnown(w, tick.topology, c, zoneId)
    ensures TickSeen(tick, c, zoneId)
  {
    KeysAreRelevant(zoneId, "");
  }

  /** A sync that finds no shards touches no version but the topology's. */
  lemma EmptyHolds(w: Work, h: Held, tick: Tick, c: Content, zoneId: string)
    requires Holds(w, h, c, zoneId) && TickSeen(tick, c, zoneId) && TopologyKnown(w, tick.topology, c, zoneId)
    requires Emptied(w, tick.topology)
    ensures Holds(Adopted(w, SyncOf(w, tick, c, zoneId)), h, c, zoneId)
  {
    EmptySync(w, h, tick, c, zoneId);
    VersionsRecorded(w, tick, c, zoneId);
    FetchedShards(w, tick, c, zoneId);
    assert c.shards(tick.topology.version).Keys == {};
    assert tick.order == [];
    assert SyncOf(w, tick, c, zoneId).local == Fetched(w, tick, c, zoneId).local;
    forall z | z in h.segments
      ensures UpToDate(SyncOf(w, tick, c, zoneId).local, ShardSegmentsKey(z), h.shown.segments[z])
    {
      assert SameAt(Fetched(w, tick, c, zoneId).local, w.local, ShardSegmentsKey(z));
    }
  }

  lemma ShardsHold(w: Work, h: Held, tick: Tick, c: Content, zoneId: string)
    requires Holds(w, h, c, zoneId) && TickSeen(tick, c, zoneId) && TopologyKnown(w, tick.topology, c, zoneId)
    requires !Emptied(w, tick.topology)
    ensures Holds(Adopted(w, SyncOf(w, tick, c, zoneId)),
                  Held(ShownOf(tick.topology, c), NextSegments(h, w.local, tick.topology)), c, zoneId)
  {
    SyncHolds(w, h, tick, c, zoneId);
    VersionsRecorded(w, tick, c, zoneId);
    if tick.topology.segments == map[] {
      EmptySync(w, h, tick, c, zoneId);
    } else {
      assert c.shards(tick.topology.version).Keys != {};
    }
  }

  /** One tick, whatever the topologies before and after it. */
  lemma TickHolds(w: Work, h: Held, tick: Tick, c: Content, zoneId: string)
    requires Holds(w, h, c, zoneId) && Comes(w, tick, c, zoneId)
    ensures Holds(RunTick(w, tick, c, zoneId), Next(w, h, tick, c, zoneId), c, zoneId)
  {
    if Changes(w, tick, zoneId) == {} {
    } else if !TopologyKnown(w, tick.topology, c, zoneId) {
      IdleSync(w, h, tick, c, zoneId);
    } else {
      KnownMeansSeen(w, tick, c, zoneId);
      if Emptied(w, tick.topology) {
        EmptyHolds(w, h, tick, c, zoneId);
      } else {
        ShardsHold(w, h, tick, c, zoneId);
      }
    }
  }

  ghost predicate AllCome(w: Work, ticks: seq<Tick>, c: Content, zoneId: string)
    decreases |ticks|
  {
    ticks != [] ==> Comes(w, ticks[0], c, zoneId) && AllCome(RunTick(w, ticks[0], c, zoneId), ticks[1..], c, zoneId)
  }

  function HeldAfter(w: Work, h: Held, ticks: seq<Tick>, c: Content, zoneId: string): Held
    decreases |ticks|
  {
    if ticks == [] then h
    else HeldAfter(RunTick(w, ticks[0], c, zoneId), Next(w, h, ticks[0], c, zoneId), ticks[1..], c, zoneId)
  }

  lemma {:induction false} HistoryHoldsFrom(w: Work, h: Held, ticks: seq<Tick>, c: Content, zoneId: string)
    requires Holds(w, h, c, zoneId) && AllCome(w, ticks, c, zoneId)
    ensures Holds(RunTicks(w, ticks, c, zoneId), HeldAfter(w, h, ticks, c, zoneId), c, zoneId)
    decreases |ticks|
  {
    if ticks == [] {
    } else {
      TickHolds(w, h, ticks[0], c, zoneId);
      HistoryHoldsFrom(RunTick(w, ticks[0], c, zoneId), Next(w, h, ticks[0], c, zoneId), ticks[1..], c, zoneId);
    }
  }

  /** From start-up, after any history: exactly the shards shown, and which have their segments. */
  lemma HistoryHolds(ticks: seq<Tick>, c: Content, zoneId: string)
    requires AllCome(START, ticks, c, zoneId)
    ensures Holds(RunTicks(START, ticks, c, zoneId), HeldAfter(START, AllOf(NOTHING), ticks, c, zoneId), c, zoneId)
  {
    HistoryHoldsFrom(START, AllOf(NOTHING), ticks, c, zoneId);
  }

  /** Whatever happened before, lost shards and stale ones included: a tick that sees a change
      shows the current shards, unless there are none while some are shown. */
  lemma ShardsShown(ticks: seq<Tick>, tick: Tick, c: Content, zoneId: string)
    requires AllCome(START, ticks, c, zoneId) && Comes(RunTicks(START, ticks, c, zoneId), tick, c, zoneId)
    ensures var w := RunTicks(START, ticks, c, zoneId);
            RunTick(w, tick, c, zoneId).routes.hops ==
              if Changes(w, tick, zoneId) == {} || Emptied(w, tick.topology) then w.routes.hops
              else c.shards(tick.topology.version)
  {
    var w, h := RunTicks(START, ticks, c, zoneId), HeldAfter(START, AllOf(NOTHING), ticks, c, zoneId);
    HistoryHolds(ticks, c, zoneId);
    TickHolds(w, h, tick, c, zoneId);
  }

  // ----- histories that go wrong -----

  lemma StartKnows(tick: Tick, c: Content, zoneId: string)
    requires TickSeen(tick, c, zoneId)
    ensures Changes(START, tick, zoneId) != {} && TickOk(START, NOTHING, tick, c, zoneId)
    ensures InStep(RunTick(START, tick, c, zoneId), ShownOf(tick.topology, c), c, zoneId)
  {
    KeysAreRelevant(zoneId, "");
    assert ShardsKey(zoneId) in Changes(START, tick, zoneId);
    StartInStep(c, zoneId);
    TickKeepsStep(START, NOTHING, tick, c, zoneId);
  }

  /** From start-up: a zone that had shards and has none any more keeps its routes, though every
      fetch succeeds. */
  lemma EmptiedZoneKeepsRoutes(k1: Tick, k2: Tick, c: Content, zoneId: string)
    requires TickSeen(k1, c, zoneId) && TickSeen(k2, c, zoneId)
    requires k1.topology.segments != map[] && k2.topology.segments == map[]
    ensures var w := RunTicks(START, [k1], c, zoneId);
            && HistoryOk(START, NOTHING, [k1], c, zoneId)
            && RunTick(w, k2, c, zoneId).routes == w.routes
            && !Reflects(w.routes, ShownOf(k2.topology, c), c)
  {
    var w := RunTick(START, k1, c, zoneId);
    StartKnows(k1, c, zoneId);
    assert [k1][1..] == [] && RunTicks(START, [k1], c, zoneId) == w;
    TickReflectsIff(w, ShownOf(k1.topology, c), k2, c, zoneId);
    assert w.routes.hops.Keys == k1.topology.segments.Keys;
    if Changes(w, k2, zoneId) != {} {
      InStepHolds(w, ShownOf(k1.topology, c), c, zoneId);
      EmptySync(w, AllOf(ShownOf(k1.topology, c)), k2, c, zoneId);
    }
  }

  /** From start-up: a shard that vanishes and comes back under its old version stays without its
      segments, though every fetch succeeds. */
  lemma ReturningShardStaysMissing(k1: Tick, k2: Tick, k3: Tick, y: Owner, s: Segment, c: Content, zoneId: string)
    requires TickSeen(k1, c, zoneId) && TickSeen(k2, c, zoneId) && TickSeen(k3, c, zoneId)
    requires k2.topology.segments != map[] && k2.topology.segments.Keys <= k1.topology.segments.Keys
    requires y in k1.topology.segments && y !in k2.topology.segments && y in k3.topology.segments
    requires k1.topology.segments[y] == k3.topology.segments[y] && s in c.segments(y, k3.topology.segments[y])
    ensures var w := RunTicks(START, [k1, k2], c, zoneId);
            && HistoryOk(START, NOTHING, [k1, k2], c, zoneId)
            && !Reflects(RunTick(w, k3, c, zoneId).routes, ShownOf(k3.topology, c), c)
  {
    var w1 := RunTick(START, k1, c, zoneId);
    var w2 := RunTick(w1, k2, c, zoneId);
    StartKnows(k1, c, zoneId);
    TickKeepsStep(w1, ShownOf(k1.topology, c), k2, c, zoneId);
    TwoTicks(k1, k2, c, zoneId);
    VersionOutlasts(w1, ShownOf(k1.topology, c), k2, y, c, zoneId);
    TickReflectsIff(w2, ShownOf(k2.topology, c), k3, c, zoneId);
    assert !Fresh(w2.local, ShownOf(k2.topology, c), k3.topology, c);
  }

  lemma TwoTicks(k1: Tick, k2: Tick, c: Content, zoneId: string)
    requires TickOk(START, NOTHING, k1, c, zoneId)
    requires TickOk(RunTick(START, k1, c, zoneId), ShownOf(k1.topology, c), k2, c, zoneId)
    ensures HistoryOk(START, NOTHING, [k1, k2], c, zoneId)
    ensures RunTicks(START, [k1, k2], c, zoneId) == RunTick(RunTick(START, k1, c, zoneId), k2, c, zoneId)
  {
    var w1 := RunTick(START, k1, c, zoneId);
    assert [k1, k2][1..] == [k2] && [k2][1..] == [];
    assert HistoryOk(w1, ShownOf(k1.topology, c), [k2], c, zoneId);
    assert RunTicks(w1, [k2], c, zoneId) == RunTick(w1, k2, c, zoneId);
  }

  /** The version of a shard that vanishes stays recorded. */
  lemma VersionOutlasts(w: Work, t0: Shown, tick: Tick, y: Owner, c: Content, zoneId: string)
    requires InStep(w, t0, c, zoneId) && TickSeen(tick, c, zoneId)
    requires y in t0.shards && y !in tick.topology.segments
    ensures y in t0.segments && UpToDate(RunTick(w, tick, c, zoneId).local, ShardSegmentsKey(y), t0.segments[y])
  {
    var f := Fetched(w, tick, c, zoneId);
    InStepHolds(w, t0, c, zoneId);
    FetchedShards(w, tick, c, zoneId);
    assert SameAt(f.local, w.local, ShardSegmentsKey(y));
    ZoneFoldLocal(f, tick.order, zoneId, tick.manifest, Serving(tick.topology, c, zoneId), y);
  }

  // ----- there are such histories -----

  function ManifestOf(zoneId: string, t: Topology, x: Owner, y: Owner): Versions {
    (if x in t.segments then map[ShardSegmentsKey(x) := t.segments[x]] else map[])
    + (if y in t.segments then map[ShardSegmentsKey(y) := t.segments[y]] else map[])
    + map[ShardsKey(zoneId) := t.version]
  }

  lemma ManifestDescribes(zoneId: string, t: Topology, x: Owner, y: Owner)
    requires t.segments.Keys <= {x, y}
    ensures Describes(ManifestOf(zoneId, t, x, y), zoneId, t)
  {
    KeysDiffer(x, y);
    KeysDiffer(x, zoneId);
    KeysDiffer(y, zoneId);
  }

  /** Two shards, then one, then both again, then none. */
  function Content4(x: Owner, y: Owner, s: Segment, u: Segment): Content {
    Content(v => if v == 2 then map[x := []] else if v == 4 then map[] else map[x := [], y := []],
            (z, v) => if z == x then [s] else [u])
  }

  function TickOf(zoneId: string, v: nat, x: Owner, y: Owner): Tick {
    var t := Topology(v, if v == 2 then map[x := 1] else if v == 4 then map[] else map[x := 1, y := 1]);
    Tick(t, ManifestOf(zoneId, t, x, y), if v == 2 then [x] else if v == 4 then [] else [x, y])
  }

  lemma TickOfSeen(zoneId: string, v: nat, x: Owner, y: Owner, s: Segment, u: Segment)
    requires x != y && s != u
    ensures TickSeen(TickOf(zoneId, v, x, y), Content4(x, y, s, u), zoneId)
  {
    var tick := TickOf(zoneId, v, x, y);
    ManifestDescribes(zoneId, tick.topology, x, y);
  }

  lemma SuchAnEmptying(zoneId: string, x: Owner, y: Owner, s: Segment, u: Segment)
    requires x != y && s != u
    ensures var c, k1, k4 := Content4(x, y, s, u), TickOf(zoneId, 1, x, y), TickOf(zoneId, 4, x, y);
            var w := RunTicks(START, [k1], c, zoneId);
            && TickSeen(k1, c, zoneId) && TickSeen(k4, c, zoneId)
            && RunTick(w, k4, c, zoneId).routes == w.routes && !Reflects(w.routes, ShownOf(k4.topology, c), c)
  {
    TickOfSeen(zoneId, 1, x, y, s, u);
    TickOfSeen(zoneId, 4, x, y, s, u);
    EmptiedZoneKeepsRoutes(TickOf(zoneId, 1, x, y), TickOf(zoneId, 4, x, y), Content4(x, y, s, u), zoneId);
  }

  lemma SuchAReturn(zoneId: string, x: Owner, y: Owner, s: Segment, u: Segment)
    requires x != y && s != u
    ensures var c, k1, k2, k3 := Content4(x, y, s, u), TickOf(zoneId, 1, x, y), TickOf(zoneId, 2, x, y),
        TickOf(zoneId, 3, x, y);
            && TickSeen(k1, c, zoneId) && TickSeen(k2, c, zoneId) && TickSeen(k3, c, zoneId)
            && !Reflects(RunTick(RunTicks(START, [k1, k2], c, zoneId), k3, c, zoneId).routes, ShownOf(k3.topology,
                                                                                                      c), c)
  {
    TickOfSeen(zoneId, 1, x, y, s, u);
    TickOfSeen(zoneId, 2, x, y, s, u);
    TickOfSeen(zoneId, 3, x, y, s, u);
    ReturningShardStaysMissing(TickOf(zoneId, 1, x, y), TickOf(zoneId, 2, x, y), TickOf(zoneId, 3, x, y), y, u,
                               Content4(x, y, s, u), zoneId);
  }
}
