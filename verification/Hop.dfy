/** A hop and its set of connections, whose `closed` flags other tasks may raise at any time. */
module Hop {
  import opened Rotation

  /** A connection as its hop sees it. `closed` only ever goes from false to true. */
  class Connection {
    var closed: bool

    constructor ()
      ensures !closed
    {
      closed := false;
    }

    method Close()
      modifies this
      ensures closed
    {
      closed := true;
    }
  }

  /** The connections outside `closed`, in order. */
  function LiveOf(cs: seq<Connection>, closed: set<Connection>): seq<Connection> {
    if cs == [] then []
    else (if cs[0] in closed then [] else [cs[0]]) + LiveOf(cs[1..], closed)
  }

  lemma {:induction false} LiveMembers(cs: seq<Connection>, closed: set<Connection>)
    ensures forall c <- LiveOf(cs, closed) :: c in cs && c !in closed
    ensures forall c <- cs :: c !in closed ==> c in LiveOf(cs, closed)
  {
    if cs == [] {
    } else {
      LiveMembers(cs[1..], closed);
    }
  }

  /** Closing more connections leaves no more live ones. */
  lemma {:induction false} LiveShrinks(cs: seq<Connection>, before: set<Connection>, after: set<Connection>)
    requires forall c :: c in cs && c in before ==> c in after
    ensures |LiveOf(cs, after)| <= |LiveOf(cs, before)|
  {
    if cs == [] {
    } else {
      assert cs[0] in cs && forall c :: c in cs[1..] ==> c in cs;
      LiveShrinks(cs[1..], before, after);
    }
  }

  /** Only membership within the list matters. */
  lemma {:induction false} LiveSame(cs: seq<Connection>, a: set<Connection>, b: set<Connection>)
    requires forall c :: c in cs ==> (c in a <==> c in b)
    ensures LiveOf(cs, a) == LiveOf(cs, b)
  {
    if cs == [] {
    } else {
      assert cs[0] in cs && forall c :: c in cs[1..] ==> c in cs;
      LiveSame(cs[1..], a, b);
    }
  }

  lemma {:induction false} AllLive(cs: seq<Connection>, closed: set<Connection>)
    requires forall c <- cs :: c !in closed
    ensures LiveOf(cs, closed) == cs
  {
    if cs == [] {
    } else {
      AllLive(cs[1..], closed);
    }
  }

  function ClosedIn(cs: seq<Connection>): set<Connection>
    reads cs
  {
    set c | c in cs && c.closed
  }

  /** Round-robin choice: the first live connection cyclically from the cursor. */
  method Pick(cs: seq<Connection>, cursor: nat) returns (r: Connection?)
    ensures r != null <==> exists i :: 0 <= i < |cs| && !cs[i].closed
    ensures r != null ==> exists k :: 0 <= k < |cs| && r == cs[At(cursor, |cs|, k)] && !r.closed
                            && forall j :: 0 <= j < k ==> cs[At(cursor, |cs|, j)].closed
  {
    var n := |cs|;
    for k := 0 to n
      invariant forall j :: 0 <= j < k ==> cs[At(cursor, n, j)].closed
    {
      var idx := At(cursor, n, k);
      if !cs[idx].closed {
        return cs[idx];
      }
    }
    forall i | 0 <= i < n ensures cs[i].closed {
      RoundIsPermutation(cursor, n, i, 0);
      assert cs[At(cursor, n, StepOf(cursor, n, i))].closed;
    }
    r := null;
  }

  method LiveCount(cs: seq<Connection>) returns (n: nat)
    ensures n == |LiveOf(cs, ClosedIn(cs))|
  {
    var live := LiveOnes(cs);
    n := |live|;
  }

  lemma LiveStep(found: seq<Connection>, cs: seq<Connection>, i: nat, closed: set<Connection>)
    requires i < |cs|
    ensures found + LiveOf(cs[i..], closed)
         == (if cs[i] in closed then found else found + [cs[i]]) + LiveOf(cs[i + 1..], closed)
  {
    assert cs[i..][0] == cs[i] && cs[i..][1..] == cs[i + 1..];
  }

  lemma ClosedAt(cs: seq<Connection>, i: nat)
    requires i < |cs|
    ensures cs[i] in ClosedIn(cs) <==> cs[i].closed
  {
  }

  method LiveOnes(cs: seq<Connection>) returns (live: seq<Connection>)
    ensures live == LiveOf(cs, ClosedIn(cs))
  {
    live := [];
    ghost var closed := ClosedIn(cs);
    assert cs[0..] == cs;
    for i := 0 to |cs|
      invariant LiveOf(cs, closed) == live + LiveOf(cs[i..], closed)
    {
      ClosedAt(cs, i);
      LiveStep(live, cs, i, closed);
      if !cs[i].closed {
        live := live + [cs[i]];
      }
    }
  }

  /** Other tasks close some connections. */
  method Interfere(some: set<Connection>)
    modifies some
    ensures forall c :: c in some ==> c.closed
  {
    var todo := some;
    while todo != {}
      invariant todo <= some && forall c :: c in some - todo ==> c.closed
      decreases todo
    {
      var c: Connection :| c in todo;
      c.Close();
      todo := todo - {c};
    }
  }

  /** Tries to open `n` connections; some of them (`dies`) close again at once. */
  method OpenUpTo(n: nat, opens: nat -> bool, dies: nat -> bool) returns (added: seq<Connection>)
    ensures |added| <= n && fresh(added)
    ensures (forall k :: !dies(k)) ==> forall c <- added :: !c.closed
    ensures (forall k :: opens(k)) ==> |added| == n
  {
    added := [];
    for k := 0 to n
      invariant |added| <= k && fresh(added)
      invariant (forall j :: !dies(j)) ==> forall c <- added :: !c.closed
      invariant (forall j :: opens(j)) ==> |added| == k
    {
      if opens(k) {
        var conn := new Connection();
        if dies(k) {
          conn.Close();
        }
        added := added + [conn];
      }
    }
  }

  /** As many connections as configured, but at least one. */
  function Target(connPerHop: nat): (n: nat)
    ensures n >= 1 && n >= connPerHop && (n == 1 || n == connPerHop)
  {
    if connPerHop < 1 then 1 else connPerHop
  }

  class Hop {
    const id: string
    var connections: seq<Connection>
    var rr: nat

    constructor (id: string)
      ensures this.id == id && connections == [] && rr == 0
    {
      this.id := id;
      connections, rr := [], 0;
    }

    /** Hot path: the cursor moves on with every call. */
    method NextConnection() returns (r: Connection?)
      modifies this`rr
      ensures rr == old(rr) + 1
      ensures r != null <==> exists i :: 0 <= i < |connections| && !connections[i].closed
      ensures r != null ==> exists k :: 0 <= k < |connections| && r == connections[At(old(rr), |connections|, k)]
                              && !r.closed && forall j :: 0 <= j < k ==>
                                    connections[At(old(rr), |connections|, j)].closed
    {
      var cursor := rr;
      rr := rr + 1;
      r := Pick(connections, cursor);
    }

    /** Tops the set up to the target. Other tasks may close connections between the count and
        the filter (`closing`) and while new ones are being opened (`closingLater`, and `dies` for
        the new ones themselves); each attempt to connect may fail. The set never grows past the
        target, and no connection that is still live is dropped. */
    method EnsureConnections(connPerHop: nat, resolved: bool, opens: nat -> bool, dies: nat -> bool,
                             closing: set<Connection>, closingLater: set<Connection>)
      requires |connections| <= Target(connPerHop)
      modifies this`connections, closing, closingLater
      ensures |connections| <= Target(connPerHop)
      ensures forall c :: c in old(connections) && !c.closed ==> c in connections
      ensures forall c :: c in connections && c !in old(connections) ==> fresh(c)
      ensures !resolved || old(|LiveOf(connections, ClosedIn(connections))|) >= Target(connPerHop) ==>
                connections == old(connections)
      ensures resolved && closing == closingLater == {} && (forall k :: opens(k) && !dies(k)) ==>
                |LiveOf(connections, ClosedIn(connections))| >= Target(connPerHop)
    {
      var target := Target(connPerHop);
      var live := LiveCount(connections);
      ghost var closedBefore := ClosedIn(connections);
      if live >= target {
        return;
      }
      if !resolved {
        return;
      }
      Interfere(closing);
      LiveShrinks(connections, closedBefore, ClosedIn(connections));
      if closing == {} {
        LiveSame(connections, closedBefore, ClosedIn(connections));
      }
      RefillSet(target, target - live, opens, dies, closingLater);
    }

    /** The second half: filter, open, store. */
    method RefillSet(target: nat, toCreate: nat, opens: nat -> bool, dies: nat -> bool, closingLater: set<Connection>)
      requires |LiveOf(connections, ClosedIn(connections))| + toCreate <= target && |connections| <= target
      modifies this`connections, closingLater
      ensures |connections| <= target
      ensures forall c :: c in old(connections) && !c.closed ==> c in connections
      ensures forall c :: c in connections && c !in old(connections) ==> fresh(c)
      ensures closingLater == {} && (forall k :: opens(k) && !dies(k)) && toCreate > 0 ==>
                |LiveOf(connections, ClosedIn(connections))|
                  == old(|LiveOf(connections, ClosedIn(connections))|) + toCreate
    {
      var newConns := LiveOnes(connections);
      LiveMembers(connections, ClosedIn(connections));
      var added := OpenUpTo(toCreate, opens, dies);
      newConns := newConns + added;
      Interfere(closingLater);
      if newConns != [] {
        connections := newConns;
      }
      if closingLater == {} && (forall k :: opens(k) && !dies(k)) && toCreate > 0 {
        AllLive(newConns, ClosedIn(newConns));
      }
    }

    /** Replaces the set by one fresh connection, when one can be opened. */
    method TryReconnect(opens: bool, ghost target: nat) returns (ok: bool)
      requires target >= 1 && |connections| <= target
      modifies this`connections
      ensures ok == opens && |connections| <= target
      ensures ok ==> |connections| == 1 && fresh(connections[0]) && !connections[0].closed
      ensures !ok ==> connections == old(connections)
    {
      ok := opens;
      if opens {
        var conn := new Connection();
        connections := [conn];
      }
    }
  }
}
