/** The two-level routing tables and the snapshots published from them. */
module RoutingState {
  import opened Ownership

  type HopId = string

  /** segment -> owner -> hop ids: zones and their routers on an edge router, shards and their
      bridges on a zone router. */
  datatype Routes = Routes(owner: map<Segment, Owner>, hops: map<Owner, seq<HopId>>)

  datatype RoutingSnapshot = Edge(routes: Routes) | Zone(routes: Routes)

  const EMPTY_ROUTES := Routes(map[], map[])

  /** The hops of a segment's owner; none for a segment or an owner that is not known. */
  function Lookup(r: Routes, s: Segment): seq<HopId> {
    if s in r.owner && r.owner[s] in r.hops then r.hops[r.owner[s]] else []
  }

  /** Every hop id that occurs in a map from owners to hops. */
  function IdsOf(hops: map<Owner, seq<HopId>>): set<HopId> {
    set z, i | z in hops && 0 <= i < |hops[z]| :: hops[z][i]
  }

  function HopIds(r: Routes): set<HopId> { IdsOf(r.hops) }

  predicate IsEmpty(r: Routes) { r.owner == map[] && r.hops == map[] }

  /** Every segment's owner has an entry in the second map. */
  predicate NoDangling(r: Routes) {
    forall s :: s in r.owner ==> r.owner[s] in r.hops
  }

  /** `m` with every segment of a list given to `z`. */
  function Overlaid(m: map<Segment, Owner>, list: seq<Segment>, z: Owner): map<Segment, Owner> {
    m + (map s | s in list :: z)
  }

  lemma OverlaidSnoc(m: map<Segment, Owner>, list: seq<Segment>, s: Segment, z: Owner)
    ensures Overlaid(m, list + [s], z) == (Overlaid(m, list, z) - {s})[s := z]
  {
  }

  /** The working copy a sync mutates. */
  class RouteTable {
    var owner: map<Segment, Owner>
    var hops: map<Owner, seq<HopId>>

    function View(): Routes reads this { Routes(owner, hops) }

    /** Clones a published state. */
    constructor (r: Routes)
      ensures View() == r
    {
      owner, hops := r.owner, r.hops;
    }

    method SetHops(z: Owner, ids: seq<HopId>)
      modifies this`hops
      ensures hops == old(hops)[z := ids]
    {
      hops := hops[z := ids];
    }

    /** Replaces the complete segment list of an owner, one segment at a time. */
    method ReplaceSegments(z: Owner, segments: seq<Segment>)
      modifies this`owner
      ensures owner == Replace(old(owner), z, segments)
    {
      owner := map s | s in owner && owner[s] != z :: owner[s];
      ghost var kept := owner;
      for i := 0 to |segments|
        invariant owner == Overlaid(kept, segments[..i], z)
      {
        OverlaidSnoc(kept, segments[..i], segments[i], z);
        assert segments[..i + 1] == segments[..i] + [segments[i]];
        owner := owner - {segments[i]};
        owner := owner[segments[i] := z];
      }
      assert segments[..|segments|] == segments;
    }

    /** Drops the segments of owners that are not valid. */
    method RetainSegments(valid: set<Owner>)
      modifies this`owner
      ensures owner == Retain(old(owner), valid)
    {
      owner := map s | s in owner && owner[s] in valid :: owner[s];
    }

    /** Drops every trace of owners that are not valid. */
    method RetainValid(valid: set<Owner>)
      modifies this
      ensures hops == (map z | z in old(hops) && z in valid :: old(hops)[z])
      ensures owner == Retain(old(owner), valid)
    {
      hops := map z | z in hops && z in valid :: hops[z];
      RetainSegments(valid);
    }
  }
}
