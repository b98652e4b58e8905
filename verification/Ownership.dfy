/** Who owns a segment: the one-sided updates of the routing maps, and what a whole series of
    them amounts to. */
module Ownership {
  import opened Bytes

  type Segment = bytes

  /** A zone id on an edge router, a shard id on a zone router. */
  type Owner = string

  /** `retain`: keeps the segments whose owner is valid. */
  function Retain(m: map<Segment, Owner>, valid: set<Owner>): map<Segment, Owner> {
    map s | s in m && m[s] in valid :: m[s]
  }

  /** Replaces the complete segment list of an owner. */
  function Replace(m: map<Segment, Owner>, z: Owner, list: seq<Segment>): map<Segment, Owner> {
    (map s | s in m && m[s] != z :: m[s]) + (map s | s in list :: z)
  }

  /** The owners in `order` are visited one after the other; those with a fetched list
      (`claims`) have their segments replaced. */
  function FoldClaims(m: map<Segment, Owner>, order: seq<Owner>, claims: map<Owner, seq<Segment>>): map<Segment, Owner>
    decreases |order|
  {
    if order == [] then m
    else
      var z := order[0];
      FoldClaims(if z in claims then Replace(m, z, claims[z]) else m, order[1..], claims)
  }

  ghost predicate Claimed(claims: map<Owner, seq<Segment>>, z: Owner, s: Segment) {
    z in claims && s in claims[z]
  }

  /** The last owner in the order whose list names `s`. */
  ghost function LastClaimer(order: seq<Owner>, claims: map<Owner, seq<Segment>>, s: Segment): (r: Option<Owner>)
    ensures r.Some? ==> r.value in order && Claimed(claims, r.value, s)
    ensures r.None? ==> forall z :: z in order ==> !Claimed(claims, z, s)
    decreases |order|
  {
    if order == [] then None
    else
      match LastClaimer(order[1..], claims, s)
      case Some(z) => Some(z)
      case None => if Claimed(claims, order[0], s) then Some(order[0]) else None
  }

  /** Where a segment ends up, for any order and any lists: with its last claimer, else where
      it was unless that owner's list was replaced. */
  lemma {:induction false} FoldAt(m: map<Segment, Owner>, order: seq<Owner>, claims: map<Owner, seq<Segment>>,
                                  s: Segment)
    ensures var r := FoldClaims(m, order, claims);
            match LastClaimer(order, claims, s)
            case Some(z) => s in r && r[s] == z
            case None =>
              && (s in r <==> s in m && !(m[s] in order && m[s] in claims))
              && (s in r ==> r[s] == m[s])
    decreases |order|
  {
    if order == [] {
    } else {
      var z := order[0];
      FoldAt(if z in claims then Replace(m, z, claims[z]) else m, order[1..], claims, s);
    }
  }

  /** An order that visits exactly the owners of a set, each once. */
  ghost predicate Visits(order: seq<Owner>, owners: set<Owner>) {
    && (forall z :: z in order <==> z in owners)
    && (forall i, j :: 0 <= i < j < |order| ==> order[i] != order[j])
  }

  /** The result of a sync: visit, then drop the segments whose owner is not kept. */
  function Synced(m: map<Segment, Owner>, order: seq<Owner>, claims: map<Owner, seq<Segment>>, kept: set<Owner>)
    : map<Segment, Owner>
  {
    Retain(FoldClaims(m, order, claims), kept)
  }

  /** No segment is claimed by a kept owner and by another one too. */
  ghost predicate Compatible(claims: map<Owner, seq<Segment>>, kept: set<Owner>) {
    forall s, y, z :: Claimed(claims, y, s) && Claimed(claims, z, s) && y in kept ==> y == z
  }

  ghost predicate Owns(m: map<Segment, Owner>, z: Owner, s: Segment) {
    s in m && m[s] == z
  }

  /** With compatible lists the result is described without any order: `s` belongs to `z` exactly
      when `z` is kept and either claims `s`, or kept its old list, held `s`, and nobody claims it. */
  lemma SyncedOwner(m: map<Segment, Owner>, order: seq<Owner>, owners: set<Owner>, claims: map<Owner, seq<Segment>>,
                    kept: set<Owner>, s: Segment, z: Owner)
    requires Visits(order, owners) && claims.Keys <= owners && Compatible(claims, kept)
    ensures var r := Synced(m, order, claims, kept);
            Owns(r, z, s) <==>
              && z in kept
              && (Claimed(claims, z, s)
                  || (z !in claims && Owns(m, z, s) && forall y :: !Claimed(claims, y, s)))
  {
    FoldAt(m, order, claims, s);
    if z in kept && Claimed(claims, z, s) {
      assert z in order;
    }
  }

  lemma RetainedOwns(m: map<Segment, Owner>, valid: set<Owner>, z: Owner, s: Segment)
    ensures Owns(Retain(m, valid), z, s) <==> z in valid && Owns(m, z, s)
  {
  }

  lemma NobodyOwns(m: map<Segment, Owner>)
    requires forall s, z :: !Owns(m, z, s)
    ensures m == map[]
  {
    forall s | s in m ensures Owns(m, m[s], s) {
    }
    assert m.Keys == {};
  }

  /** Owners decide a map. */
  lemma SameOwners(a: map<Segment, Owner>, b: map<Segment, Owner>)
    requires forall s, z :: Owns(a, z, s) <==> Owns(b, z, s)
    ensures a == b
  {
    forall s
      ensures s in a ==> Owns(b, a[s], s)
      ensures s in b ==> Owns(a, b[s], s)
    {
      assert s in a ==> Owns(a, a[s], s);
      assert s in b ==> Owns(b, b[s], s);
    }
    assert a.Keys == b.Keys;
  }

  lemma SameSynced(m: map<Segment, Owner>, o1: seq<Owner>, o2: seq<Owner>, owners: set<Owner>,
                   claims: map<Owner, seq<Segment>>, kept: set<Owner>)
    requires Visits(o1, owners) && Visits(o2, owners) && claims.Keys <= owners && Compatible(claims, kept)
    ensures Synced(m, o1, claims, kept) == Synced(m, o2, claims, kept)
  {
    var r1, r2 := Synced(m, o1, claims, kept), Synced(m, o2, claims, kept);
    forall s, z ensures Owns(r1, z, s) <==> Owns(r2, z, s) {
      SyncedOwner(m, o1, owners, claims, kept, s, z);
      SyncedOwner(m, o2, owners, claims, kept, s, z);
    }
    SameOwners(r1, r2);
  }

  /** Some order of a set. */
  lemma Enumerated(owners: set<Owner>) returns (order: seq<Owner>)
    ensures Visits(order, owners)
  {
    if owners == {} {
      order := [];
    } else {
      var z :| z in owners;
      var rest := Enumerated(owners - {z});
      order := [z] + rest;
    }
  }

  lemma {:induction false} LastClaimerSnoc(order: seq<Owner>, z: Owner, claims: map<Owner, seq<Segment>>, s: Segment)
    requires Claimed(claims, z, s)
    ensures LastClaimer(order + [z], claims, s) == Some(z)
    decreases |order|
  {
    if order == [] {
      assert order + [z] == [z];
      assert LastClaimer([z][1..], claims, s) == None;
    } else {
      assert (order + [z])[1..] == order[1..] + [z];
      LastClaimerSnoc(order[1..], z, claims, s);
    }
  }

  /** The owner visited last keeps what it claims, if it is kept at all. */
  lemma LastVisitedWins(m: map<Segment, Owner>, order: seq<Owner>, z: Owner, claims: map<Owner, seq<Segment>>,
                        kept: set<Owner>, s: Segment)
    requires Claimed(claims, z, s)
    ensures var r := Synced(m, order + [z], claims, kept); if z in kept then Owns(r, z, s) else s !in r
  {
    LastClaimerSnoc(order, z, claims, s);
    FoldAt(m, order + [z], claims, s);
  }

  lemma VisitsWithTwo(rest: seq<Owner>, owners: set<Owner>, y: Owner, z: Owner)
    requires y in owners && z in owners && y != z && Visits(rest, owners - {y, z})
    ensures Visits(rest + [y] + [z], owners)
  {
  }

  /** Two claimers of one segment, one of them kept, make the visiting order show. */
  lemma ConflictShows(m: map<Segment, Owner>, owners: set<Owner>, claims: map<Owner, seq<Segment>>, kept: set<Owner>,
                      s: Segment, y: Owner, z: Owner)
    requires claims.Keys <= owners && Claimed(claims, y, s) && Claimed(claims, z, s) && y in kept && y != z
    ensures exists o1, o2 :: Visits(o1, owners) && Visits(o2, owners)
              && Synced(m, o1, claims, kept) != Synced(m, o2, claims, kept)
  {
    var rest := Enumerated(owners - {y, z});
    var o1, o2 := rest + [z] + [y], rest + [y] + [z];
    assert {y, z} == {z, y};
    VisitsWithTwo(rest, owners, z, y);
    VisitsWithTwo(rest, owners, y, z);
    LastVisitedWins(m, rest + [z], y, claims, kept, s);
    LastVisitedWins(m, rest + [y], z, claims, kept, s);
  }

  /** The outcome is independent of the hash order of the owners exactly when the fetched lists
      are compatible. */
  lemma OrderIndependentIff(m: map<Segment, Owner>, owners: set<Owner>, claims: map<Owner, seq<Segment>>,
                            kept: set<Owner>)
    requires claims.Keys <= owners
    ensures Compatible(claims, kept) <==>
            forall o1, o2 :: Visits(o1, owners) && Visits(o2, owners) ==>
              Synced(m, o1, claims, kept) == Synced(m, o2, claims, kept)
  {
    if Compatible(claims, kept) {
      forall o1, o2 | Visits(o1, owners) && Visits(o2, owners)
        ensures Synced(m, o1, claims, kept) == Synced(m, o2, claims, kept)
      {
        SameSynced(m, o1, o2, owners, claims, kept);
      }
    } else {
      var s, y, z :| Claimed(claims, y, s) && Claimed(claims, z, s) && y in kept && y != z;
      ConflictShows(m, owners, claims, kept, s, y, z);
    }
  }
}
