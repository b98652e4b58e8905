/** What every run of the refresh task guarantees, whatever the registry does. */
module RefreshSafety {
  import opened Bytes
  import opened Ownership
  import opened RoutingState
  import opened Sync
  import opened Rzid
  import opened Refresh
  import opened Rebuild
  import EdgeHistory
  import ZoneRebuild

  // ----- registry and snapshot -----

  /** The registry holds just the hops of the published snapshot, which has no dangling route. */
  ghost predicate Agrees(p: Point) {
    p.hops.Keys == HopIds(p.routing.routes) && NoDangling(p.routing.routes)
  }

  lemma TickAgrees(mode: Mode, input: TickInput, order: seq<Owner>, p: Point, q: Point)
    requires TickStep(mode, input, order, p, q) && Agrees(p)
    ensures Agrees(q)
  {
    if input.manifest.Some? {
      var manifest, reg := input.manifest.value, input.registry;
      var changed := DetectChanges(mode, manifest, p.local);
      var w := Work(Base(mode, p.routing), p.local);
      if changed != {} {
        match mode
        case EdgeMode => EdgeSyncShape(w, manifest, changed, order, reg);
        case ZoneMode(zoneId) => ZoneSyncShape(w, zoneId, manifest, changed, order, reg);
      }
    }
  }

  /** At every tick boundary of every run, failed and empty syncs included. */
  lemma {:induction false} RunAgrees(mode: Mode, inputs: seq<TickInput>, orders: seq<seq<Owner>>, trace: seq<Point>,
                                     i: nat)
    requires Follows(mode, inputs, orders, trace) && Agrees(trace[0]) && i <= |inputs|
    ensures Agrees(trace[i])
    decreases i
  {
    if i == 0 {
    } else {
      RunAgrees(mode, inputs, orders, trace, i - 1);
      TickAgrees(mode, inputs[i - 1], orders[i - 1], trace[i - 1], trace[i]);
    }
  }

  /** The hop is named by every snapshot published from point `i` to point `j`. */
  ghost predicate Stays(trace: seq<Point>, i: nat, j: nat, id: HopId)
    requires i <= j < |trace|
  {
    forall k :: i <= k <= j ==> id in HopIds(trace[k].routing.routes)
  }

  /** Such a hop keeps its object, in every map a reader could load on the way. */
  lemma {:induction false} HopSurvives(mode: Mode, inputs: seq<TickInput>, orders: seq<seq<Owner>>, trace: seq<Point>,
                                       i: nat, j: nat, id: HopId)
    requires Follows(mode, inputs, orders, trace) && Agrees(trace[0]) && i <= j <= |inputs| && Stays(trace, i, j, id)
    ensures id in trace[i].hops && id in trace[j].hops && trace[j].hops[id] == trace[i].hops[id]
    ensures |trace[i].stores| <= |trace[j].stores|
    ensures forall k :: |trace[i].stores| <= k < |trace[j].stores| ==>
              id in trace[j].stores[k] && trace[j].stores[k][id] == trace[i].hops[id]
    decreases j
  {
    RunAgrees(mode, inputs, orders, trace, i);
    if i == j {
    } else {
      HopSurvives(mode, inputs, orders, trace, i, j - 1, id);
      RunAgrees(mode, inputs, orders, trace, j - 1);
      var p, q := trace[j - 1], trace[j];
      assert TickStep(mode, inputs[j - 1], orders[j - 1], p, trace[j - 1 + 1]);
      assert id in HopIds(q.routing.routes);
      forall k | |trace[i].stores| <= k < |q.stores| ensures id in q.stores[k] && q.stores[k][id] == trace[i].hops[id] {
        if k < |p.stores| {
          assert q.stores[k] == p.stores[k];
        }
      }
    }
  }

  // ----- edge runs against a registry that answers -----

  /** What the registry had to say at a tick: nothing, or the manifest of a topology it serves. */
  datatype Word = Silence | Manifest(tick: Tick)

  ghost predicate Heard(input: TickInput, order: seq<Owner>, local: Versions, word: Word, c: Content) {
    match word
    case Silence => input.manifest.None?
    case Manifest(t) =>
      && input == TickInput(Some(t.manifest), Serving(t.topology, c))
      && (DetectChanges(EdgeMode, t.manifest, local) != {} ==> order == t.order)
  }

  function TicksOf(words: seq<Word>): seq<Tick> {
    if words == [] then []
    else
      var front := TicksOf(words[..|words| - 1]);
      match words[|words| - 1]
      case Silence => front
      case Manifest(t) => front + [t]
  }

  lemma {:induction false} RunTicksSnoc(w: Work, ticks: seq<Tick>, t: Tick, c: Content)
    ensures RunTicks(w, ticks + [t], c) == RunTick(RunTicks(w, ticks, c), t, c)
    decreases |ticks|
  {
    if ticks == [] {
      assert (ticks + [t])[1..] == [];
    } else {
      assert (ticks + [t])[0] == ticks[0] && (ticks + [t])[1..] == ticks[1..] + [t];
      RunTicksSnoc(RunTick(w, ticks[0], c), ticks[1..], t, c);
    }
  }

  /** The published routes with the recorded versions. */
  function WorkAt(p: Point): Work { Work(p.routing.routes, p.local) }

  /** One step of the refresh task is one tick of the history. */
  lemma StepIsTick(input: TickInput, order: seq<Owner>, p: Point, q: Point, t: Tick, c: Content)
    requires TickStep(EdgeMode, input, order, p, q) && p.routing.Edge? && Heard(input, order, p.local, Manifest(t), c)
    ensures q.routing.Edge? && WorkAt(q) == RunTick(WorkAt(p), t, c)
  {
    assert Base(EdgeMode, p.routing) == p.routing.routes;
  }

  /** A run of an edge router, from start-up, that heard these words. */
  ghost predicate EdgeRun(inputs: seq<TickInput>, orders: seq<seq<Owner>>, trace: seq<Point>, words: seq<Word>,
                          c: Content)
  {
    && Follows(EdgeMode, inputs, orders, trace) && |words| == |inputs|
    && trace[0].routing == Edge(EMPTY_ROUTES) && trace[0].local == map[]
    && forall i :: 0 <= i < |inputs| ==> Heard(inputs[i], orders[i], trace[i].local, words[i], c)
  }

  /** Ticks without a manifest leave no trace in the history. */
  lemma {:induction false} RunIsHistory(inputs: seq<TickInput>, orders: seq<seq<Owner>>, trace: seq<Point>,
                                        words: seq<Word>, c: Content, i: nat)
    requires EdgeRun(inputs, orders, trace, words, c) && i <= |inputs|
    ensures trace[i].routing.Edge?
    ensures WorkAt(trace[i]) == RunTicks(Work(EMPTY_ROUTES, map[]), TicksOf(words[..i]), c)
    decreases i
  {
    if i == 0 {
    } else {
      RunIsHistory(inputs, orders, trace, words, c, i - 1);
      var k: nat := i - 1;
      assert words[..i][..k] == words[..k] && words[..i][k] == words[k];
      assert TickStep(EdgeMode, inputs[k], orders[k], trace[k], trace[k + 1]);
      assert Heard(inputs[k], orders[k], trace[k].local, words[k], c);
      if words[k].Manifest? {
        StepIsTick(inputs[k], orders[k], trace[k], trace[k + 1], words[k].tick, c);
        RunTicksSnoc(Work(EMPTY_ROUTES, map[]), TicksOf(words[..k]), words[k].tick, c);
      }
    }
  }

  /** Nothing needs to be assumed of what was heard for the published routes to be known: after
      any run they are what the history of its manifests leaves of each zone. */
  lemma RunHolds(inputs: seq<TickInput>, orders: seq<seq<Owner>>, trace: seq<Point>, words: seq<Word>, c: Content,
                 i: nat)
    requires EdgeRun(inputs, orders, trace, words, c) && i <= |inputs|
    requires EdgeHistory.AllSeen(TicksOf(words[..i]), c)
    ensures EdgeHistory.Holds(WorkAt(trace[i]),
              EdgeHistory.HeldAfter(EdgeHistory.START, EdgeHistory.NOTHING, TicksOf(words[..i]), c), c)
  {
    RunIsHistory(inputs, orders, trace, words, c, i);
    EdgeHistory.HistoryHolds(TicksOf(words[..i]), c);
  }

  /** Whatever was heard before: a tick of an edge router that sees a change publishes exactly
      what a rebuild from scratch against its topology would. */
  lemma RunPublishesRebuild(inputs: seq<TickInput>, orders: seq<seq<Owner>>, trace: seq<Point>, words: seq<Word>,
                            c: Content, k: nat, order': seq<Owner>)
    requires EdgeRun(inputs, orders, trace, words, c) && k < |inputs| && words[k].Manifest?
    requires HistoryOk(Work(EMPTY_ROUTES, map[]), map[], TicksOf(words[..k]), c)
    requires TickOk(WorkAt(trace[k]), ShownAfter(Work(EMPTY_ROUTES, map[]), map[], TicksOf(words[..k]), c),
                    words[k].tick, c)
    requires DetectChanges(EdgeMode, words[k].tick.manifest, trace[k].local) != {}
    requires Visits(order', words[k].tick.topology.Keys)
    ensures trace[k + 1].routing == Edge(FromScratch(words[k].tick.manifest, order', words[k].tick.topology, c))
  {
    RunIsHistory(inputs, orders, trace, words, c, k);
    assert TickStep(EdgeMode, inputs[k], orders[k], trace[k], trace[k + 1]);
    assert Heard(inputs[k], orders[k], trace[k].local, words[k], c);
    StepIsTick(inputs[k], orders[k], trace[k], trace[k + 1], words[k].tick, c);
    HistoryEqualsRebuild(TicksOf(words[..k]), words[k].tick, order', c);
  }

  /** Likewise seen from one tick alone: from a state in step, the sync's outcome is the rebuild. */
  lemma TickPublishesRebuild(r: Routes, local: Versions, t0: Topology, tick: Tick, c: Content, order': seq<Owner>)
    requires InStep(Work(r, local), t0, c) && TickOk(Work(r, local), t0, tick, c)
    requires DetectChanges(EdgeMode, tick.manifest, local) != {} && Visits(order', tick.topology.Keys)
    ensures SyncResult(EdgeMode, Edge(r), local, tick.manifest, tick.order, Serving(tick.topology, c)).0
         == Updated(Edge(FromScratch(tick.manifest, order', tick.topology, c)))
  {
    var w: Work, scratch := Work(r, local), FromScratch(tick.manifest, order', tick.topology, c);
    ChangeIsAdopted(w, t0, tick, c);
    ScratchReflects(tick.manifest, order', tick.topology, c);
    ReflectsUnique(SyncOf(w, tick, c).routes, scratch, tick.topology, c);
    assert Base(EdgeMode, Edge(r)) == r;
  }

  // ----- zone runs against a registry that answers -----

  datatype ZoneWord = ZoneSilence | ZoneManifest(tick: ZoneRebuild.Tick)

  /** What the words so far leave to be shown. */
  function ZoneShown(words: seq<ZoneWord>, c: ZoneRebuild.Content): ZoneRebuild.Shown {
    if words == [] then ZoneRebuild.NOTHING
    else
      match words[|words| - 1]
      case ZoneSilence => ZoneShown(words[..|words| - 1], c)
      case ZoneManifest(t) => ZoneRebuild.ShownOf(t.topology, c)
  }

  /** A tick of a zone router that heard a word: silence, or a manifest under which no shard comes
      back stale and the zone keeps a shard. */
  ghost predicate ZoneHeard(zoneId: string, input: TickInput, order: seq<Owner>, p: Point, shown: ZoneRebuild.Shown,
                            word: ZoneWord, c: ZoneRebuild.Content)
  {
    match word
    case ZoneSilence => input.manifest.None?
    case ZoneManifest(t) =>
      && input == TickInput(Some(t.manifest), ZoneRebuild.Serving(t.topology, c, zoneId))
      && (ZoneRebuild.Changes(WorkAt(p), t, zoneId) != {} ==> order == t.order)
      && ZoneRebuild.TickOk(WorkAt(p), shown, t, c, zoneId)
  }

  ghost predicate ZoneRun(zoneId: string, inputs: seq<TickInput>, orders: seq<seq<Owner>>, trace: seq<Point>,
                          words: seq<ZoneWord>, c: ZoneRebuild.Content)
  {
    && Follows(ZoneMode(zoneId), inputs, orders, trace) && |words| == |inputs|
    && trace[0].routing == Zone(EMPTY_ROUTES) && trace[0].local == map[]
    && forall i :: 0 <= i < |inputs| ==>
         ZoneHeard(zoneId, inputs[i], orders[i], trace[i], ZoneShown(words[..i], c), words[i], c)
  }

  lemma StepIsZoneTick(zoneId: string, input: TickInput, order: seq<Owner>, p: Point, q: Point,
                       shown: ZoneRebuild.Shown,
                       t: ZoneRebuild.Tick, c: ZoneRebuild.Content)
    requires TickStep(ZoneMode(zoneId), input, order, p, q) && p.routing.Zone?
    requires ZoneHeard(zoneId, input, order, p, shown, ZoneManifest(t), c)
    ensures q.routing.Zone? && WorkAt(q) == ZoneRebuild.RunTick(WorkAt(p), t, c, zoneId)
  {
    var w := WorkAt(p);
    assert Base(ZoneMode(zoneId), p.routing) == p.routing.routes;
    assert input.manifest.value == t.manifest && input.registry == ZoneRebuild.Serving(t.topology, c, zoneId);
    if ZoneRebuild.Changes(w, t, zoneId) != {} {
      assert ZoneRebuild.SyncOf(w, t, c, zoneId)
          == ZoneSync(w, zoneId, t.manifest, ZoneRebuild.Changes(w, t, zoneId), order, input.registry);
    }
  }

  /** At every tick boundary a zone router publishes exactly the topology it heard of last. */
  lemma {:induction false} ZoneRunReflects(zoneId: string, inputs: seq<TickInput>, orders: seq<seq<Owner>>,
                                           trace: seq<Point>, words: seq<ZoneWord>, c: ZoneRebuild.Content, i: nat)
    requires ZoneRun(zoneId, inputs, orders, trace, words, c) && i <= |inputs|
    ensures trace[i].routing.Zone?
    ensures ZoneRebuild.InStep(WorkAt(trace[i]), ZoneShown(words[..i], c), c, zoneId)
    decreases i
  {
    if i == 0 {
      ZoneRebuild.StartInStep(c, zoneId);
    } else {
      var k: nat := i - 1;
      ZoneRunReflects(zoneId, inputs, orders, trace, words, c, k);
      assert words[..i][..k] == words[..k] && words[..i][k] == words[k];
      var shown := ZoneShown(words[..k], c);
      assert TickStep(ZoneMode(zoneId), inputs[k], orders[k], trace[k], trace[k + 1]);
      assert ZoneHeard(zoneId, inputs[k], orders[k], trace[k], shown, words[k], c);
      if words[k].ZoneManifest? {
        StepIsZoneTick(zoneId, inputs[k], orders[k], trace[k], trace[k + 1], shown, words[k].tick, c);
        ZoneRebuild.TickKeepsStep(WorkAt(trace[k]), shown, words[k].tick, c, zoneId);
      }
    }
  }

  /** So after every manifest it publishes what a rebuild from scratch would. */
  lemma ZoneRunPublishesRebuild(zoneId: string, inputs: seq<TickInput>, orders: seq<seq<Owner>>, trace: seq<Point>,
                                words: seq<ZoneWord>, c: ZoneRebuild.Content, k: nat, order': seq<Owner>)
    requires ZoneRun(zoneId, inputs, orders, trace, words, c) && k < |inputs| && words[k].ZoneManifest?
    requires ZoneRebuild.TickSeen(words[k].tick.(order := order'), c, zoneId)
    ensures trace[k + 1].routing == Zone(ZoneRebuild.FromScratch(words[k].tick, order', c, zoneId))
  {
    var w0: Work, last := Work(EMPTY_ROUTES, map[]), words[k].tick.(order := order');
    var now := ZoneRebuild.ShownOf(last.topology, c);
    ZoneRunReflects(zoneId, inputs, orders, trace, words, c, k + 1);
    assert words[..k + 1][k] == words[k];
    ZoneRebuild.StartInStep(c, zoneId);
    ZoneRebuild.SyncReflectsIff(w0, ZoneRebuild.NOTHING, last, c, zoneId);
    ZoneRebuild.ReflectsUnique(trace[k + 1].routing.routes,
                               ZoneRebuild.FromScratch(words[k].tick, order', c, zoneId), now, c);
  }
}
