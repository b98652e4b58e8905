/** Incremental zone syncs against a registry that answers: when each one leaves the state a
    rebuild from scratch would give, over whole histories of the zone's shards. */
module ZoneRebuild {
  import opened Bytes
  import opened Ownership
  import opened RoutingState
  import opened RegistryKeys
  import opened Sync

  /** The registry's content for one zone: its shards with their bridges at each version of the
      shard topology, and the segments at each version of a shard's list. */
  datatype Content = Content(shards: nat -> map<Owner, seq<HopId>>, segments: (Owner, nat) -> seq<Segment>)

  /** The current version of the shard topology, and of each shard's segment list. */
  datatype Topology = Topology(version: nat, segments: map<Owner, nat>)

  /** What a state stands for: shards with bridges, and the version of each one's segments. */
  datatype Shown = Shown(shards: map<Owner, seq<HopId>>, segments: map<Owner, nat>)

  const NOTHING := Shown(map[], map[])

  function ShownOf(t: Topology, c: Content): Shown { Shown(c.shards(t.version), t.segments) }

  ghost predicate Lists(t: Shown, c: Content, z: Owner, s: Segment) {
    z in t.shards && z in t.segments && s in c.segments(z, t.segments[z])
  }

  /** The versions are those of the zone's shards, and no segment is in two shards. */
  ghost predicate TopologyOk(t: Topology, c: Content) {
    && c.shards(t.version).Keys == t.segments.Keys
    && (forall s, y, z :: Lists(ShownOf(t, c), c, y, s) && Lists(ShownOf(t, c), c, z, s) ==> y == z)
  }

  /** The manifest gives these versions. It may hold any other keys. */
  ghost predicate Describes(manifest: Versions, zoneId: string, t: Topology) {
    && ShardsKey(zoneId) in manifest && manifest[ShardsKey(zoneId)] == t.version
    && forall z :: z in t.segments ==> ShardSegmentsKey(z) in manifest && manifest[ShardSegmentsKey(z)] == t.segments[z]
  }

  /** A registry whose every fetch for this zone succeeds with the current content. */
  function Serving(t: Topology, c: Content, zoneId: string): Registry {
    Registry(
      _ => None,
      _ => None,
      z => if z == zoneId then Some((t.version, c.shards(t.version))) else None,
      z => if z in t.segments then Some((t.segments[z], zoneId, c.segments(z, t.segments[z]))) else None)
  }

  /** The routes are exactly those of the shards shown. */
  ghost predicate Reflects(r: Routes, t: Shown, c: Content) {
    && r.hops == t.shards
    && forall s, z :: Owns(r.owner, z, s) <==> Lists(t, c, z, s)
  }

  lemma ReflectsUnique(a: Routes, b: Routes, t: Shown, c: Content)
    requires Reflects(a, t, c) && Reflects(b, t, c)
    ensures a == b
  {
    SameOwners(a.owner, b.owner);
  }

  /** A recorded topology version is the state's, and the versions of its shards are recorded. */
  ghost predicate Recorded(w: Work, t: Shown, c: Content, zoneId: string) {
    && (ShardsKey(zoneId) in w.local ==> w.routes.hops == c.shards(w.local[ShardsKey(zoneId)]))
    && forall z :: z in t.shards ==> z in t.segments && UpToDate(w.local, ShardSegmentsKey(z), t.segments[z])
  }

  ghost predicate InStep(w: Work, t: Shown, c: Content, zoneId: string) {
    Reflects(w.routes, t, c) && Recorded(w, t, c, zoneId)
  }

  /** Of what is shown, the shards whose segments are there too. */
  datatype Held = Held(shown: Shown, segments: set<Owner>)

  function AllOf(t: Shown): Held { Held(t, t.shards.Keys) }

  ghost predicate SegmentsHeld(r: Routes, h: Held, c: Content) {
    forall s, z :: Owns(r.owner, z, s) <==> z in h.segments && Lists(h.shown, c, z, s)
  }

  ghost predicate VersionsHeld(local: Versions, h: Held) {
    && h.segments <= h.shown.shards.Keys
    && forall z :: z in h.segments ==>
         z in h.shown.segments && UpToDate(local, ShardSegmentsKey(z), h.shown.segments[z])
  }

  /** If the topology's version is recorded, its shards are the state's. */
  ghost predicate TopologyKnown(w: Work, t: Topology, c: Content, zoneId: string) {
    UpToDate(w.local, ShardsKey(zoneId), t.version) ==> w.routes.hops == c.shards(t.version)
  }

  lemma InStepHolds(w: Work, t0: Shown, c: Content, zoneId: string)
    requires InStep(w, t0, c, zoneId)
    ensures w.routes.hops == t0.shards && SegmentsHeld(w.routes, AllOf(t0), c) && VersionsHeld(w.local, AllOf(t0))
    ensures forall t :: TopologyKnown(w, t, c, zoneId)
  {
  }

  // ----- one tick -----

  /** One refresh tick: the topology at that moment, its manifest, and the shard order used. */
  datatype Tick = Tick(topology: Topology, manifest: Versions, order: seq<Owner>)

  ghost predicate TickSeen(tick: Tick, c: Content, zoneId: string) {
    && TopologyOk(tick.topology, c) && Describes(tick.manifest, zoneId, tick.topology)
    && Visits(tick.order, tick.topology.segments.Keys)
  }

  function Changes(w: Work, tick: Tick, zoneId: string): set<string> {
    DetectChanges(ZoneMode(zoneId), tick.manifest, w.local)
  }

  function Fetched(w: Work, tick: Tick, c: Content, zoneId: string): Work {
    FetchShards(w, zoneId, Changes(w, tick, zoneId), Serving(tick.topology, c, zoneId))
  }

  function SyncOf(w: Work, tick: Tick, c: Content, zoneId: string): Work {
    ZoneSync(w, zoneId, tick.manifest, Changes(w, tick, zoneId), tick.order, Serving(tick.topology, c, zoneId))
  }

  /** What a tick does: nothing when no key changed, else an incremental sync. */
  function RunTick(w: Work, tick: Tick, c: Content, zoneId: string): Work {
    if Changes(w, tick, zoneId) == {} then w else Adopted(w, SyncOf(w, tick, c, zoneId))
  }

  lemma {:induction false} ContainsMiddle(front: string, p: string, back: string)
    ensures Contains(front + p + back, p)
  {
    var s := front + p + back;
    if front == [] {
      assert s[..|p|] == p;
    } else {
      assert s[1..] == front[1..] + p + back;
      ContainsMiddle(front[1..], p, back);
    }
  }

  /** The zone's own keys are watched. */
  lemma KeysAreRelevant(zoneId: string, z: Owner)
    ensures Relevant(ZoneMode(zoneId), ShardsKey(zoneId)) && Relevant(ZoneMode(zoneId), ShardSegmentsKey(z))
  {
    ContainsMiddle("zones/", zoneId, "/shards");
    assert ShardsKey(zoneId)[..6] == "zones/";
    var k := ShardSegmentsKey(z);
    assert k[..7] == "shards/" && k[|k| - 9..] == "/segments";
  }

  ghost predicate SameAt(a: Versions, b: Versions, key: string) {
    (key in a <==> key in b) && (key in a ==> a[key] == b[key])
  }

  /** After the first half of a sync the shards are the current ones, fetched or not. */
  lemma FetchedShards(w: Work, tick: Tick, c: Content, zoneId: string)
    requires TopologyKnown(w, tick.topology, c, zoneId) && TickSeen(tick, c, zoneId)
    ensures var f := Fetched(w, tick, c, zoneId);
            && f.routes.hops == c.shards(tick.topology.version)
            && f.routes.owner in {w.routes.owner, Retain(w.routes.owner, tick.topology.segments.Keys)}
            && UpToDate(f.local, ShardsKey(zoneId), tick.topology.version)
            && forall z :: SameAt(f.local, w.local, ShardSegmentsKey(z))
  {
    KeysAreRelevant(zoneId, "");
    forall z ensures ShardSegmentsKey(z) != ShardsKey(zoneId) {
      KeysDiffer(z, zoneId);
    }
  }

  /** A shard not shown so far arrives under another version than the one once recorded for it. */
  ghost predicate Fresh(local: Versions, t0: Shown, t1: Topology, c: Content) {
    forall z :: z in t1.segments && z !in t0.shards && UpToDate(local, ShardSegmentsKey(z), t1.segments[z]) ==>
      c.segments(z, t1.segments[z]) == []
  }

  function Claims(w: Work, tick: Tick, c: Content, zoneId: string): map<Owner, seq<Segment>> {
    ShardsGot(Fetched(w, tick, c, zoneId).local, tick.topology.segments.Keys, zoneId, tick.manifest,
              Serving(tick.topology, c, zoneId))
  }

  /** The lists taken are the current ones of just the shards whose version is not recorded. */
  lemma ClaimsAre(w: Work, tick: Tick, c: Content, zoneId: string)
    requires TopologyKnown(w, tick.topology, c, zoneId) && TickSeen(tick, c, zoneId)
    ensures var t1, claims := tick.topology, Claims(w, tick, c, zoneId);
            && claims.Keys <= t1.segments.Keys
            && (forall z :: z in t1.segments ==>
                  (z in claims <==> !UpToDate(w.local, ShardSegmentsKey(z), t1.segments[z])))
            && (forall z :: z in claims ==> claims[z] == c.segments(z, t1.segments[z]))
  {
    FetchedShards(w, tick, c, zoneId);
    var f := Fetched(w, tick, c, zoneId);
    forall z | z in tick.topology.segments
      ensures UpToDate(f.local, ShardSegmentsKey(z), tick.topology.segments[z])
         <==> UpToDate(w.local, ShardSegmentsKey(z), tick.topology.segments[z])
    {
      assert SameAt(f.local, w.local, ShardSegmentsKey(z));
    }
  }

  lemma SyncedShards(w: Work, tick: Tick, c: Content, zoneId: string)
    requires TopologyKnown(w, tick.topology, c, zoneId) && TickSeen(tick, c, zoneId)
    ensures SyncOf(w, tick, c, zoneId).routes.hops == c.shards(tick.topology.version)
  {
    FetchedShards(w, tick, c, zoneId);
    ZoneSyncShape(w, zoneId, tick.manifest, Changes(w, tick, zoneId), tick.order, Serving(tick.topology, c, zoneId));
  }

  /** The shards that have their segments after a sync: those that had them, and those whose
      version is not the recorded one. */
  function NextSegments(h: Held, local: Versions, t: Topology): set<Owner> {
    set z | z in t.segments && (z in h.segments || !UpToDate(local, ShardSegmentsKey(z), t.segments[z]))
  }

  lemma SameList(local: Versions, h: Held, t: Topology, c: Content, z: Owner, s: Segment)
    requires VersionsHeld(local, h) && TopologyOk(t, c)
    requires z in h.segments && z in t.segments && UpToDate(local, ShardSegmentsKey(z), t.segments[z])
    ensures Lists(h.shown, c, z, s) <==> Lists(ShownOf(t, c), c, z, s)
  {
  }

  /** Who owns a segment after the sync. */
  lemma SyncedSegment(w: Work, h: Held, tick: Tick, c: Content, zoneId: string, z: Owner, s: Segment)
    requires SegmentsHeld(w.routes, h, c) && VersionsHeld(w.local, h)
    requires TopologyKnown(w, tick.topology, c, zoneId) && TickSeen(tick, c, zoneId)
    ensures Owns(SyncOf(w, tick, c, zoneId).routes.owner, z, s)
       <==> z in NextSegments(h, w.local, tick.topology) && Lists(ShownOf(tick.topology, c), c, z, s)
  {
    var t, shards := tick.topology, tick.topology.segments.Keys;
    var f, claims := Fetched(w, tick, c, zoneId), Claims(w, tick, c, zoneId);
    FetchedShards(w, tick, c, zoneId);
    ClaimsAre(w, tick, c, zoneId);
    ZoneSyncShape(w, zoneId, tick.manifest, Changes(w, tick, zoneId), tick.order, Serving(t, c, zoneId));
    forall y, s' | Claimed(claims, y, s') ensures Lists(ShownOf(t, c), c, y, s') {
    }
    RetainedOwns(w.routes.owner, shards, z, s);
    SyncedOwner(f.routes.owner, tick.order, shards, claims, shards, s, z);
    if z in shards && z in h.segments && z !in claims {
      SameList(w.local, h, t, c, z, s);
    }
  }

  lemma SyncHolds(w: Work, h: Held, tick: Tick, c: Content, zoneId: string)
    requires SegmentsHeld(w.routes, h, c) && VersionsHeld(w.local, h)
    requires TopologyKnown(w, tick.topology, c, zoneId) && TickSeen(tick, c, zoneId)
    ensures var r, t := SyncOf(w, tick, c, zoneId).routes, tick.topology;
            r.hops == c.shards(t.version) && SegmentsHeld(r, Held(ShownOf(t, c), NextSegments(h, w.local, t)), c)
  {
    SyncedShards(w, tick, c, zoneId);
    forall s, z
      ensures Owns(SyncOf(w, tick, c, zoneId).routes.owner, z, s)
         <==> z in NextSegments(h, w.local, tick.topology) && Lists(ShownOf(tick.topology, c), c, z, s)
    {
      SyncedSegment(w, h, tick, c, zoneId, z, s);
    }
  }

  /** What the sync itself comes to. */
  lemma SyncReflectsIff(w: Work, t0: Shown, tick: Tick, c: Content, zoneId: string)
    requires InStep(w, t0, c, zoneId) && TickSeen(tick, c, zoneId)
    ensures Reflects(SyncOf(w, tick, c, zoneId).routes, ShownOf(tick.topology, c), c)
       <==> Fresh(w.local, t0, tick.topology, c)
  {
    var t1, r := tick.topology, SyncOf(w, tick, c, zoneId).routes;
    InStepHolds(w, t0, c, zoneId);
    SyncHolds(w, AllOf(t0), tick, c, zoneId);
    if !Fresh(w.local, t0, t1, c) {
      var z :| z in t1.segments && z !in t0.shards && UpToDate(w.local, ShardSegmentsKey(z), t1.segments[z])
               && c.segments(z, t1.segments[z]) != [];
      var s := c.segments(z, t1.segments[z])[0];
      assert Lists(ShownOf(t1, c), c, z, s) && !Owns(r.owner, z, s);
    }
  }

  /** Without a changed key the topology is the one shown. */
  lemma NothingChanged(w: Work, t0: Shown, tick: Tick, c: Content, zoneId: string)
    requires InStep(w, t0, c, zoneId) && TickSeen(tick, c, zoneId) && Changes(w, tick, zoneId) == {}
    ensures t0.shards == c.shards(tick.topology.version)
    ensures forall z :: z in t0.shards ==> z in t0.segments && t0.segments[z] == tick.topology.segments[z]
    ensures InStep(w, ShownOf(tick.topology, c), c, zoneId)
  {
    KeysAreRelevant(zoneId, "");
    assert ShardsKey(zoneId) !in Changes(w, tick, zoneId);
    forall z | z in t0.shards ensures t0.segments[z] == tick.topology.segments[z] {
      KeysAreRelevant(zoneId, z);
      assert ShardSegmentsKey(z) !in Changes(w, tick, zoneId);
    }
    forall z, s ensures Lists(t0, c, z, s) <==> Lists(ShownOf(tick.topology, c), c, z, s) {
    }
  }

  /** A zone that has lost all its shards. Its sync comes out empty, which is taken for an error. */
  predicate Emptied(w: Work, t1: Topology) { t1.segments == map[] && w.routes.hops != map[] }

  /** Exactly when a tick leaves the state of its topology: when no shard has come back under a
      version still recorded for it, and the zone has not lost its last shard. */
  lemma TickReflectsIff(w: Work, t0: Shown, tick: Tick, c: Content, zoneId: string)
    requires InStep(w, t0, c, zoneId) && TickSeen(tick, c, zoneId)
    ensures Reflects(RunTick(w, tick, c, zoneId).routes, ShownOf(tick.topology, c), c)
       <==> Fresh(w.local, t0, tick.topology, c) && !Emptied(w, tick.topology)
  {
    var r := SyncOf(w, tick, c, zoneId).routes;
    InStepHolds(w, t0, c, zoneId);
    if Changes(w, tick, zoneId) == {} {
      NothingChanged(w, t0, tick, c, zoneId);
    } else {
      SyncReflectsIff(w, t0, tick, c, zoneId);
      SyncedShards(w, tick, c, zoneId);
      if tick.topology.segments == map[] {
        EmptySync(w, AllOf(t0), tick, c, zoneId);
      }
    }
  }

  lemma EmptySync(w: Work, h: Held, tick: Tick, c: Content, zoneId: string)
    requires SegmentsHeld(w.routes, h, c) && VersionsHeld(w.local, h) && w.routes.hops == h.shown.shards
    requires TopologyKnown(w, tick.topology, c, zoneId) && TickSeen(tick, c, zoneId)
    requires tick.topology.segments == map[]
    ensures SyncOf(w, tick, c, zoneId).routes == EMPTY_ROUTES
    ensures w.routes.hops == map[] ==> w.routes.owner == map[]
    ensures Changes(w, tick, zoneId) != {} ==> RunTick(w, tick, c, zoneId).routes == w.routes
  {
    var r := SyncOf(w, tick, c, zoneId).routes;
    SyncHolds(w, h, tick, c, zoneId);
    NobodyOwns(r.owner);
    if w.routes.hops == map[] {
      NobodyOwns(w.routes.owner);
    }
    assert r.hops.Keys == {};
  }

  // ----- whole histories -----

  ghost predicate TickOk(w: Work, t0: Shown, tick: Tick, c: Content, zoneId: string) {
    TickSeen(tick, c, zoneId) && Fresh(w.local, t0, tick.topology, c) && !Emptied(w, tick.topology)
  }

  lemma {:induction false} ZoneFoldLocal(w: Work, order: seq<Owner>, zoneId: string, manifest: Versions,
                                         reg: Registry, z: Owner)
    requires forall i, j :: 0 <= i < j < |order| ==> order[i] != order[j]
    ensures var l, got := ZoneFold(w, order, zoneId, manifest, reg).local, ShardGot(w.local, z, zoneId, manifest, reg);
            && SameAt(l, w.local, ShardsKey(zoneId))
            && if z in order && got.Some? then UpToDate(l, ShardSegmentsKey(z), got.value.0)
               else SameAt(l, w.local, ShardSegmentsKey(z))
    decreases |order|
  {
    if order == [] {
    } else {
      KeysDiffer(order[0], z);
      KeysDiffer(order[0], zoneId);
      ZoneFoldLocal(ZoneVisit(w, order[0], zoneId, manifest, reg), order[1..], zoneId, manifest, reg, z);
    }
  }

  /** Fetched or not, the current version of a shard's segments is recorded afterwards. */
  lemma ShardVersionRecorded(w: Work, tick: Tick, c: Content, zoneId: string, z: Owner)
    requires TopologyKnown(w, tick.topology, c, zoneId) && TickSeen(tick, c, zoneId) && z in tick.topology.segments
    ensures UpToDate(SyncOf(w, tick, c, zoneId).local, ShardSegmentsKey(z), tick.topology.segments[z])
  {
    var f, reg := Fetched(w, tick, c, zoneId), Serving(tick.topology, c, zoneId);
    FetchedShards(w, tick, c, zoneId);
    assert SameAt(f.local, w.local, ShardSegmentsKey(z));
    ZoneFoldLocal(f, tick.order, zoneId, tick.manifest, reg, z);
    assert SyncOf(w, tick, c, zoneId).local == ZoneFold(f, tick.order, zoneId, tick.manifest, reg).local;
  }

  lemma VersionsRecorded(w: Work, tick: Tick, c: Content, zoneId: string)
    requires TopologyKnown(w, tick.topology, c, zoneId) && TickSeen(tick, c, zoneId)
    ensures Recorded(SyncOf(w, tick, c, zoneId), ShownOf(tick.topology, c), c, zoneId)
    ensures UpToDate(SyncOf(w, tick, c, zoneId).local, ShardsKey(zoneId), tick.topology.version)
  {
    FetchedShards(w, tick, c, zoneId);
    SyncedShards(w, tick, c, zoneId);
    ZoneFoldLocal(Fetched(w, tick, c, zoneId), tick.order, zoneId, tick.manifest, Serving(tick.topology, c, zoneId),
                  "");
    forall z | z in tick.topology.segments
      ensures UpToDate(SyncOf(w, tick, c, zoneId).local, ShardSegmentsKey(z), tick.topology.segments[z])
    {
      ShardVersionRecorded(w, tick, c, zoneId, z);
    }
  }

  lemma TickKeepsStep(w: Work, t0: Shown, tick: Tick, c: Content, zoneId: string)
    requires InStep(w, t0, c, zoneId) && TickOk(w, t0, tick, c, zoneId)
    ensures InStep(RunTick(w, tick, c, zoneId), ShownOf(tick.topology, c), c, zoneId)
  {
    if Changes(w, tick, zoneId) == {} {
      NothingChanged(w, t0, tick, c, zoneId);
    } else {
      InStepHolds(w, t0, c, zoneId);
      TickReflectsIff(w, t0, tick, c, zoneId);
      VersionsRecorded(w, tick, c, zoneId);
      if tick.topology.segments == map[] {
        EmptySync(w, AllOf(t0), tick, c, zoneId);
        assert w.routes == EMPTY_ROUTES;
      } else {
        SyncedShards(w, tick, c, zoneId);
      }
    }
  }

  ghost predicate HistoryOk(w: Work, t0: Shown, ticks: seq<Tick>, c: Content, zoneId: string)
    decreases |ticks|
  {
    ticks == [] ||
    (TickOk(w, t0, ticks[0], c, zoneId)
     && HistoryOk(RunTick(w, ticks[0], c, zoneId), ShownOf(ticks[0].topology, c), ticks[1..], c, zoneId))
  }

  function RunTicks(w: Work, ticks: seq<Tick>, c: Content, zoneId: string): Work
    decreases |ticks|
  {
    if ticks == [] then w else RunTicks(RunTick(w, ticks[0], c, zoneId), ticks[1..], c, zoneId)
  }

  function ShownAfter(t0: Shown, ticks: seq<Tick>, c: Content): Shown
    decreases |ticks|
  {
    if ticks == [] then t0 else ShownAfter(ShownOf(ticks[0].topology, c), ticks[1..], c)
  }

  lemma {:induction false} ShownIsLast(t0: Shown, ticks: seq<Tick>, c: Content)
    requires ticks != []
    ensures ShownAfter(t0, ticks, c) == ShownOf(ticks[|ticks| - 1].topology, c)
    decreases |ticks|
  {
    if |ticks| == 1 {
      assert ticks[1..] == [];
    } else {
      ShownIsLast(ShownOf(ticks[0].topology, c), ticks[1..], c);
    }
  }

  /** After any history the state is exactly the topology of the last tick. */
  lemma {:induction false} HistoryReflects(w: Work, t0: Shown, ticks: seq<Tick>, c: Content, zoneId: string)
    requires InStep(w, t0, c, zoneId) && HistoryOk(w, t0, ticks, c, zoneId)
    ensures InStep(RunTicks(w, ticks, c, zoneId), ShownAfter(t0, ticks, c), c, zoneId)
    decreases |ticks|
  {
    if ticks == [] {
    } else {
      TickKeepsStep(w, t0, ticks[0], c, zoneId);
      HistoryReflects(RunTick(w, ticks[0], c, zoneId), ShownOf(ticks[0].topology, c), ticks[1..], c, zoneId);
    }
  }

  /** The same sync from nothing: no state, no recorded version. */
  function FromScratch(tick: Tick, order: seq<Owner>, c: Content, zoneId: string): Routes {
    SyncOf(Work(EMPTY_ROUTES, map[]), tick.(order := order), c, zoneId).routes
  }

  lemma StartInStep(c: Content, zoneId: string)
    ensures InStep(Work(EMPTY_ROUTES, map[]), NOTHING, c, zoneId)
  {
  }

  /** From start-up, however long the history, the state is exactly what a rebuild from scratch
      against the last topology would give, whatever the two shard orders. */
  lemma HistoryEqualsRebuild(ticks: seq<Tick>, order': seq<Owner>, c: Content, zoneId: string)
    requires ticks != [] && HistoryOk(Work(EMPTY_ROUTES, map[]), NOTHING, ticks, c, zoneId)
    requires var last := ticks[|ticks| - 1]; TickSeen(last.(order := order'), c, zoneId)
    ensures RunTicks(Work(EMPTY_ROUTES, map[]), ticks, c, zoneId).routes
         == FromScratch(ticks[|ticks| - 1], order', c, zoneId)
  {
    var w0: Work, last := Work(EMPTY_ROUTES, map[]), ticks[|ticks| - 1].(order := order');
    StartInStep(c, zoneId);
    HistoryReflects(w0, NOTHING, ticks, c, zoneId);
    ShownIsLast(NOTHING, ticks, c);
    SyncReflectsIff(w0, NOTHING, last, c, zoneId);
    ReflectsUnique(RunTicks(w0, ticks, c, zoneId).routes, FromScratch(ticks[|ticks| - 1], order', c, zoneId),
                   ShownOf(last.topology, c), c);
  }
}
