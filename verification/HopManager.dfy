/** The registry of hops, swapped as a whole on every change. */
module HopManager {
  import opened RoutingState
  import Hop

  class HopRegistry {
    var hops: map<HopId, Hop.Hop>

    /** Every map stored so far, in order: what concurrent readers can have seen. */
    ghost var stores: seq<map<HopId, Hop.Hop>>

    constructor ()
      ensures hops == map[] && stores == []
    {
      hops, stores := map[], [];
    }

    /** Existing hops, and their connections, survive. */
    method GetOrCreate(id: HopId) returns (h: Hop.Hop)
      modifies this
      ensures id in hops && h == hops[id]
      ensures id in old(hops) ==> hops == old(hops) && stores == old(stores)
      ensures id !in old(hops) ==>
                fresh(h) && h.id == id && hops == old(hops)[id := h] && stores == old(stores) + [hops]
    {
      if id in hops {
        return hops[id];
      }
      h := new Hop.Hop(id);
      hops := hops[id := h];
      stores := stores + [hops];
    }

    /** Retires the hops that are not active; the others keep their objects. */
    method RetireUnused(active: set<HopId>) returns (retired: set<HopId>)
      modifies this
      ensures retired == old(hops).Keys - active
      ensures hops == old(hops) - retired
      ensures stores == if retired == {} then old(stores) else old(stores) + [hops]
    {
      retired := set id | id in hops && id !in active;
      if retired == {} {
        return;
      }
      hops := hops - retired;
      stores := stores + [hops];
    }
  }
}
