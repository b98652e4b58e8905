/** What a sync leaves behind, read off the registry's own answers: for every pattern of failed
    fetches and replies for other zones, which hops, which segments and which versions. */
module SyncSafety {
  import opened Bytes
  import opened Ownership
  import opened RoutingState
  import opened RegistryKeys
  import opened Sync
  import Rebuild
  import ZoneRebuild

  /** The manifest has a version of `key` that is not the recorded one. */
  predicate Due(key: string, manifest: Versions, local: Versions) {
    key in manifest && (key in local ==> local[key] != manifest[key])
  }

  // ----- edge routers -----

  /** The zones of a manifest: whatever stands between "zones/" and the next slash, or the end, of
      one of its keys. */
  lemma ZonesAre(manifest: Versions, z: Owner)
    ensures z in ValidZones(manifest) <==>
              '/' !in z && exists key <- manifest :: key == "zones/" + z || StartsWith(key, "zones/" + z + "/")
  {
    forall key | key in manifest
      ensures ZoneOf(key) == Some(z) <==>
                '/' !in z && (key == "zones/" + z || StartsWith(key, "zones/" + z + "/"))
    {
      ZoneOfIff(key, z);
    }
  }

  /** The zone's segment list was due and came. */
  predicate ListCame(manifest: Versions, changed: set<string>, reg: Registry, z: Owner) {
    z in ValidZones(manifest) && SegmentsKey(z) in changed && reg.zoneSegments(z).Some?
  }

  predicate ListNames(manifest: Versions, changed: set<string>, reg: Registry, z: Owner, s: Segment) {
    ListCame(manifest, changed, reg, z) && s in reg.zoneSegments(z).value.1
  }

  predicate RoutersCame(manifest: Versions, changed: set<string>, reg: Registry, z: Owner) {
    z in ValidZones(manifest) && RoutersKey(z) in changed && reg.zoneRouters(z).Some?
  }

  /** Routers: what came, else what was there, for the zones of the manifest and no others. */
  lemma EdgeRoutersAre(w: Work, manifest: Versions, changed: set<string>, order: seq<Owner>, reg: Registry, z: Owner)
    requires Visits(order, ValidZones(manifest))
    ensures var hops := EdgeSync(w, manifest, changed, order, reg).routes.hops;
            if RoutersCame(manifest, changed, reg, z) then z in hops && hops[z] == reg.zoneRouters(z).value.1
            else (z in hops <==> z in ValidZones(manifest) && z in w.routes.hops)
                 && (z in hops ==> hops[z] == w.routes.hops[z])
  {
    EdgeSyncShape(w, manifest, changed, order, reg);
  }

  /** Segments, when no two lists that came name the same one: `s` belongs to `z` exactly when `z`
      has routers and either its list came and names `s`, or it did not come, `z` held `s`, and no
      list that came names `s`. */
  lemma EdgeSegmentsAre(w: Work, manifest: Versions, changed: set<string>, order: seq<Owner>, reg: Registry,
                        z: Owner, s: Segment)
    requires Visits(order, ValidZones(manifest))
    requires forall x, y ::
               ListNames(manifest, changed, reg, x, s) && ListNames(manifest, changed, reg, y, s) ==> x == y
    ensures var r := EdgeSync(w, manifest, changed, order, reg).routes;
            (s in r.owner && r.owner[s] == z) <==>
              && z in r.hops
              && if ListCame(manifest, changed, reg, z) then s in reg.zoneSegments(z).value.1
                 else && s in w.routes.owner && w.routes.owner[s] == z
                      && forall y :: !ListNames(manifest, changed, reg, y, s)
  {
    var zones := ValidZones(manifest);
    var claims := SegmentsGot(zones, changed, reg);
    EdgeSyncShape(w, manifest, changed, order, reg);
    forall y ensures Claimed(claims, y, s) <==> ListNames(manifest, changed, reg, y, s) {
    }
    SyncedAt(Retain(w.routes.owner, zones), order, zones, claims, EdgeHops(w.routes, zones, changed, reg).Keys, s, z);
    RetainedOwns(w.routes.owner, zones, z, s);
  }

  /** The order-free description for one segment needs no more than that this segment is named once. */
  lemma SyncedAt(m: map<Segment, Owner>, order: seq<Owner>, owners: set<Owner>, claims: map<Owner, seq<Segment>>,
                 kept: set<Owner>, s: Segment, z: Owner)
    requires Visits(order, owners) && claims.Keys <= owners
    requires forall x, y :: Claimed(claims, x, s) && Claimed(claims, y, s) ==> x == y
    ensures Owns(Synced(m, order, claims, kept), z, s) <==>
              && z in kept
              && (Claimed(claims, z, s) || (z !in claims && Owns(m, z, s) && forall y :: !Claimed(claims, y, s)))
  {
    FoldAt(m, order, claims, s);
    if Claimed(claims, z, s) {
      assert z in order;
    }
  }

  /** Versions: recorded for just what came. */
  lemma EdgeVersionsAre(w: Work, manifest: Versions, changed: set<string>, order: seq<Owner>, reg: Registry, z: Owner)
    requires Visits(order, ValidZones(manifest))
    ensures var local := EdgeSync(w, manifest, changed, order, reg).local;
            && (if RoutersCame(manifest, changed, reg, z)
                then UpToDate(local, RoutersKey(z), reg.zoneRouters(z).value.0)
                else SameVersion(local, w.local, RoutersKey(z)))
            && (if ListCame(manifest, changed, reg, z)
                then UpToDate(local, SegmentsKey(z), reg.zoneSegments(z).value.0)
                else SameVersion(local, w.local, SegmentsKey(z)))
  {
    Rebuild.EdgeFoldLocal(w.(routes := EdgeStart(w.routes, ValidZones(manifest))), order, changed, reg, z);
  }

  ghost predicate SameVersion(a: Versions, b: Versions, key: string) {
    (key in a <==> key in b) && (key in a ==> a[key] == b[key])
  }

  /** The keys an edge router finds changed: those of zones' routers and segments whose version is
      not the recorded one; shards are none of its business. */
  lemma EdgeWatches(manifest: Versions, local: Versions, z: Owner)
    ensures var changed := DetectChanges(EdgeMode, manifest, local);
            && (RoutersKey(z) in changed <==> Due(RoutersKey(z), manifest, local))
            && (SegmentsKey(z) in changed <==> Due(SegmentsKey(z), manifest, local))
            && ShardsKey(z) !in changed && ShardSegmentsKey(z) !in changed
  {
    Rebuild.KeysAreRelevant(z);
    assert ShardSegmentsKey(z)[0] == 's';
    SecondLast(ShardsKey(z), "zones/" + z, "/shards");
    assert !EndsWith(ShardsKey(z), "/routers") && !EndsWith(ShardsKey(z), "/segments");
  }

  /** Every key an edge router finds changed. */
  lemma EdgeDetects(manifest: Versions, local: Versions, key: string)
    ensures key in DetectChanges(EdgeMode, manifest, local) <==>
              && Due(key, manifest, local) && StartsWith(key, "zones/")
              && (EndsWith(key, "/routers") || EndsWith(key, "/segments"))
  {
  }

  /** A sync that leaves no owner with hops is dropped; any other is published. */
  lemma EdgeAdopts(w: Work, manifest: Versions, changed: set<string>, order: seq<Owner>, reg: Registry)
    requires Visits(order, ValidZones(manifest))
    ensures var after := EdgeSync(w, manifest, changed, order, reg);
            Adopted(w, after) == Work(if after.routes.hops == map[] then w.routes else after.routes, after.local)
  {
    EdgeSyncShape(w, manifest, changed, order, reg);
  }

  // ----- zone routers -----

  /** Every key a zone router finds changed: any that starts like a zone's and has the text of our
      id in it, and the segment lists of all shards. */
  lemma ZoneDetects(zoneId: string, manifest: Versions, local: Versions, key: string)
    ensures key in DetectChanges(ZoneMode(zoneId), manifest, local) <==>
              && Due(key, manifest, local)
              && ((StartsWith(key, "zones/") && exists i: nat :: i <= |key| && StartsWith(key[i..], zoneId))
                  || (StartsWith(key, "shards/") && EndsWith(key, "/segments")))
  {
    ContainsIff(key, zoneId);
  }

  lemma ZoneAdopts(w: Work, zoneId: string, manifest: Versions, changed: set<string>, order: seq<Owner>,
                   reg: Registry)
    requires Visits(order, FetchShards(w, zoneId, changed, reg).routes.hops.Keys)
    ensures var after := ZoneSync(w, zoneId, manifest, changed, order, reg);
            Adopted(w, after) == Work(if after.routes.hops == map[] then w.routes else after.routes, after.local)
  {
    ZoneSyncShape(w, zoneId, manifest, changed, order, reg);
  }

  /** The shard topology was due, or there was none yet, and it came. */
  predicate TopologyCame(w: Work, zoneId: string, changed: set<string>, reg: Registry) {
    (ShardsKey(zoneId) in changed || w.routes.hops == map[]) && reg.zoneShards(zoneId).Some?
  }

  /** The shard's list was due, came, and came for our zone. */
  predicate ShardListCame(w: Work, zoneId: string, manifest: Versions, reg: Registry, z: Owner) {
    && Due(ShardSegmentsKey(z), manifest, w.local)
    && reg.shardSegments(z).Some? && reg.shardSegments(z).value.1 == zoneId
  }

  predicate ShardListNames(w: Work, zoneId: string, manifest: Versions, reg: Registry, z: Owner, s: Segment) {
    ShardListCame(w, zoneId, manifest, reg, z) && s in reg.shardSegments(z).value.2
  }

  /** The shards a sync visits are those of its result. */
  lemma ZoneShardsAre(w: Work, zoneId: string, manifest: Versions, changed: set<string>, order: seq<Owner>,
                      reg: Registry)
    requires Visits(order, FetchShards(w, zoneId, changed, reg).routes.hops.Keys)
    ensures ZoneSync(w, zoneId, manifest, changed, order, reg).routes.hops
         == if TopologyCame(w, zoneId, changed, reg) then reg.zoneShards(zoneId).value.1 else w.routes.hops
  {
    ZoneSyncShape(w, zoneId, manifest, changed, order, reg);
  }

  /** Fetching the topology does not touch the versions of lists. */
  lemma GotIff(w: Work, zoneId: string, manifest: Versions, changed: set<string>, reg: Registry, z: Owner)
    ensures var got := ShardGot(FetchShards(w, zoneId, changed, reg).local, z, zoneId, manifest, reg);
            && (got.Some? <==> ShardListCame(w, zoneId, manifest, reg, z))
            && (got.Some? ==> got.value == (reg.shardSegments(z).value.0, reg.shardSegments(z).value.2))
    ensures SameVersion(FetchShards(w, zoneId, changed, reg).local, w.local, ShardSegmentsKey(z))
  {
    KeysDiffer(z, zoneId);
  }

  /** Segments, when no two lists taken name the same one: `s` belongs to `z` exactly when `z` is in
      the topology and either its list came for our zone and names `s`, or none was taken for it,
      it held `s`, and no list taken names `s`. */
  lemma ZoneSegmentsAre(w: Work, zoneId: string, manifest: Versions, changed: set<string>, order: seq<Owner>,
                        reg: Registry, z: Owner, s: Segment)
    requires Visits(order, FetchShards(w, zoneId, changed, reg).routes.hops.Keys)
    requires forall x <- order, y <- order | ShardListNames(w, zoneId, manifest, reg, x, s)
                                             && ShardListNames(w, zoneId, manifest, reg, y, s) :: x == y
    ensures var r := ZoneSync(w, zoneId, manifest, changed, order, reg).routes;
            (s in r.owner && r.owner[s] == z) <==>
              && z in r.hops
              && if ShardListCame(w, zoneId, manifest, reg, z) then s in reg.shardSegments(z).value.2
                 else && s in w.routes.owner && w.routes.owner[s] == z
                      && forall y <- r.hops :: !ShardListNames(w, zoneId, manifest, reg, y, s)
  {
    var start := FetchShards(w, zoneId, changed, reg);
    var shards := start.routes.hops.Keys;
    var claims := ShardsGot(start.local, shards, zoneId, manifest, reg);
    ZoneSyncShape(w, zoneId, manifest, changed, order, reg);
    forall y
      ensures Claimed(claims, y, s) <==> y in shards && ShardListNames(w, zoneId, manifest, reg, y, s)
      ensures y in claims <==> y in shards && ShardListCame(w, zoneId, manifest, reg, y)
    {
      GotIff(w, zoneId, manifest, changed, reg, y);
    }
    SyncedAt(start.routes.owner, order, shards, claims, shards, s, z);
    StartOwns(w, zoneId, changed, reg, z, s);
  }

  lemma StartOwns(w: Work, zoneId: string, changed: set<string>, reg: Registry, z: Owner, s: Segment)
    ensures var start := FetchShards(w, zoneId, changed, reg).routes;
            z in start.hops ==> (Owns(start.owner, z, s) <==> Owns(w.routes.owner, z, s))
  {
  }

  /** A reply for another zone installs nothing and records nothing, whatever else was fetched. */
  lemma ForeignReplyIgnored(w: Work, zoneId: string, manifest: Versions, changed: set<string>, order: seq<Owner>,
                            reg: Registry, z: Owner)
    requires Visits(order, FetchShards(w, zoneId, changed, reg).routes.hops.Keys)
    requires reg.shardSegments(z).Some? && reg.shardSegments(z).value.1 != zoneId
    ensures var after := ZoneSync(w, zoneId, manifest, changed, order, reg);
            && (forall s :: s in after.routes.owner && after.routes.owner[s] == z ==>
                  s in w.routes.owner && w.routes.owner[s] == z)
            && SameVersion(after.local, w.local, ShardSegmentsKey(z))
  {
    var start := FetchShards(w, zoneId, changed, reg);
    var shards := start.routes.hops.Keys;
    var claims := ShardsGot(start.local, shards, zoneId, manifest, reg);
    ZoneSyncShape(w, zoneId, manifest, changed, order, reg);
    GotIff(w, zoneId, manifest, changed, reg, z);
    ZoneVersionsAre(w, zoneId, manifest, changed, order, reg, z);
    var after := ZoneSync(w, zoneId, manifest, changed, order, reg).routes.owner;
    forall s | s in after && after[s] == z ensures s in w.routes.owner && w.routes.owner[s] == z {
      FoldAt(start.routes.owner, order, claims, s);
      StartOwns(w, zoneId, changed, reg, z, s);
    }
  }

  /** Versions: recorded for just what was taken. */
  lemma ZoneVersionsAre(w: Work, zoneId: string, manifest: Versions, changed: set<string>, order: seq<Owner>,
                        reg: Registry, z: Owner)
    requires Visits(order, FetchShards(w, zoneId, changed, reg).routes.hops.Keys)
    ensures var after := ZoneSync(w, zoneId, manifest, changed, order, reg);
            && (if z in after.routes.hops && ShardListCame(w, zoneId, manifest, reg, z)
                then UpToDate(after.local, ShardSegmentsKey(z), reg.shardSegments(z).value.0)
                else SameVersion(after.local, w.local, ShardSegmentsKey(z)))
            && (if TopologyCame(w, zoneId, changed, reg)
                then UpToDate(after.local, ShardsKey(zoneId), reg.zoneShards(zoneId).value.0)
                else SameVersion(after.local, w.local, ShardsKey(zoneId)))
  {
    GotIff(w, zoneId, manifest, changed, reg, z);
    ZoneSyncShape(w, zoneId, manifest, changed, order, reg);
    ZoneRebuild.ZoneFoldLocal(FetchShards(w, zoneId, changed, reg), order, zoneId, manifest, reg, z);
  }

  /** The keys a zone router surely finds changed: its own topology's and every shard list's, when
      the version is not the recorded one. */
  lemma ZoneWatches(zoneId: string, manifest: Versions, local: Versions, z: Owner)
    ensures var changed := DetectChanges(ZoneMode(zoneId), manifest, local);
            && (ShardsKey(zoneId) in changed <==> Due(ShardsKey(zoneId), manifest, local))
            && (ShardSegmentsKey(z) in changed <==> Due(ShardSegmentsKey(z), manifest, local))
  {
    ZoneRebuild.KeysAreRelevant(zoneId, z);
  }
}
