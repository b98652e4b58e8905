/** Where a call went, step by step, and how it ended: read off the snapshots it loaded and what
    the hops offered. */
module ForwarderVisits {
  import opened Bytes
  import opened RoutingState
  import opened Forwarder
  import ForwarderSafety
  import Rotation

  /** The segment has an owner, and the owner hops. */
  predicate Routed(r: Routes, segment: bytes) {
    segment in r.owner && r.owner[segment] in r.hops && r.hops[r.owner[segment]] != []
  }

  /** The hops of the segment's owner in the snapshot an attempt loaded. */
  function RouteOf(c: Call, a: nat): seq<HopId>
    requires Routed(c.world.load(a).routes, c.segment)
  {
    var r := c.world.load(a).routes;
    r.hops[r.owner[c.segment]]
  }

  /** Before the `j`-th visit there were `i` others in the same attempt. */
  predicate StepIn(vs: seq<Visit>, j: nat, i: nat) {
    && i <= j < |vs|
    && (forall m :: j - i <= m <= j ==> vs[m].attempt == vs[j].attempt)
    && (i < j ==> vs[j - i - 1].attempt != vs[j].attempt)
  }

  /** A visit to the `i`-th hop of its attempt, counting from `clrid` modulo their number and
      going round: what it found there, and what it sent. */
  ghost predicate Met(c: Call, v: Visit, i: nat) {
    var r := c.world.load(v.attempt).routes;
    && Routed(r, c.segment)
    && var list := r.hops[r.owner[c.segment]];
    && i < |list| && v.index == (c.clrid % |list| + i) % |list| && v.hop == list[v.index]
    && match c.world.slot(v.attempt, i)
       case Ready(id, result) =>
         c.clridOffset + 4 <= |c.frame| ==>
           && v.sent.Some? && v.sent.value.id == id && v.sent.value.result == result
           && (v.sent.value.closed <==> result == ConnectionClosed || (result == OtherError && !c.isWrite))
       case _ => v.sent.None?
  }

  lemma RoutedIff(c: Call, a: nat)
    ensures Routed(c.world.load(a).routes, c.segment) <==> Hops(c, a) != []
    ensures Hops(c, a) != [] ==> Hops(c, a) == RouteOf(c, a)
  {
  }

  lemma VisitMet(c: Call, a: nat, i: nat)
    requires i < |Hops(c, a)|
    ensures Met(c, VisitAt(c, a, i), i) && VisitAt(c, a, i).attempt == a
  {
    RoutedIff(c, a);
  }

  // ----- positions -----

  /** The visit of step `i` of attempt `a` stands behind those of the attempts before. */
  lemma {:induction false} TraceHas(c: Call, p: nat, k: nat, a: nat, i: nat)
    requires k <= |Hops(c, p)| && a <= p && i < |Hops(c, a)| && (a == p ==> i < k)
    ensures HopsTotal(c, a) + i < |Trace(c, p, k)| && Trace(c, p, k)[HopsTotal(c, a) + i] == VisitAt(c, a, i)
    decreases p
  {
    ForwarderSafety.FullPassesLength(c, p);
    if a < p {
      TraceHas(c, p - 1, |Hops(c, p - 1)|, a, i);
    }
  }

  /** Which step the `j`-th visit is. */
  lemma {:induction false} TracePlace(c: Call, p: nat, k: nat, j: nat) returns (a: nat, i: nat)
    requires k <= |Hops(c, p)| && j < |Trace(c, p, k)|
    ensures a <= p && i < |Hops(c, a)| && (a == p ==> i < k)
    ensures j == HopsTotal(c, a) + i && Trace(c, p, k)[j] == VisitAt(c, a, i)
    decreases p
  {
    ForwarderSafety.FullPassesLength(c, p);
    if j >= HopsTotal(c, p) {
      a, i := p, j - HopsTotal(c, p);
    } else {
      a, i := TracePlace(c, p - 1, |Hops(c, p - 1)|, j);
    }
  }

  /** From `first` on, `i + 1` visits of the same attempt. */
  predicate InAttempt(vs: seq<Visit>, first: nat, a: nat, i: nat) {
    first + i < |vs| && forall m :: first <= m <= first + i ==> vs[m].attempt == a
  }

  lemma AttemptAt(c: Call, p: nat, k: nat, a: nat, i: nat, first: nat, vs: seq<Visit>)
    requires k <= |Hops(c, p)| && a <= p && i < |Hops(c, a)| && (a == p ==> i < k)
    requires first == HopsTotal(c, a) && vs == Trace(c, p, k)
    ensures first + i < |vs| && vs[first + i].attempt == a
  {
    TraceHas(c, p, k, a, i);
  }

  lemma {:induction false} StepsOfAttempt(c: Call, p: nat, k: nat, a: nat, i: nat, first: nat, vs: seq<Visit>)
    requires k <= |Hops(c, p)| && a <= p && i < |Hops(c, a)| && (a == p ==> i < k)
    requires first == HopsTotal(c, a) && vs == Trace(c, p, k)
    ensures InAttempt(vs, first, a, i)
    decreases i
  {
    AttemptAt(c, p, k, a, i, first, vs);
    if i > 0 {
      StepsOfAttempt(c, p, k, a, i - 1, first, vs);
    }
  }

  lemma StepFrom(vs: seq<Visit>, first: nat, a: nat, i: nat)
    requires InAttempt(vs, first, a, i) && (first > 0 ==> vs[first - 1].attempt != a)
    ensures StepIn(vs, first + i, i)
  {
  }

  lemma OtherBefore(c: Call, p: nat, k: nat, a: nat, first: nat)
    requires k <= |Hops(c, p)| && 0 < first <= |Trace(c, p, k)| && first == HopsTotal(c, a)
    ensures Trace(c, p, k)[first - 1].attempt != a
  {
    var b, h := TracePlace(c, p, k, first - 1);
    if b == a {
      assert false;
    }
  }

  /** The visits right before it are the earlier steps of its attempt, and no more. */
  lemma PlaceIsStep(c: Call, p: nat, k: nat, a: nat, i: nat, first: nat, vs: seq<Visit>)
    requires k <= |Hops(c, p)| && a <= p && i < |Hops(c, a)| && (a == p ==> i < k)
    requires first == HopsTotal(c, a) && vs == Trace(c, p, k)
    ensures StepIn(vs, first + i, i)
  {
    StepsOfAttempt(c, p, k, a, i, first, vs);
    if first > 0 {
      OtherBefore(c, p, k, a, first);
    }
    StepFrom(vs, first, a, i);
  }

  /** Every visit of a call is to a hop of the segment's owner, in the order of the rotation, and
      sends what it says exactly when it found an open connection. */
  lemma VisitsAreRouted(c: Call, res: Result, p: nat, k: nat, j: nat)
    requires Explains(c, res, p, k) && j < |Trace(c, p, k)|
    ensures Trace(c, p, k)[j].attempt < c.maxRetries
    ensures var vs := Trace(c, p, k); exists i: nat :: StepIn(vs, j, i) && Met(c, vs[j], i)
  {
    var a, i := TracePlace(c, p, k, j);
    VisitMet(c, a, i);
    PlaceIsStep(c, p, k, a, i, HopsTotal(c, a), Trace(c, p, k));
  }

  /** The attempt visited the hop at this index once. */
  ghost predicate VisitedOnce(vs: seq<Visit>, a: nat, idx: nat, hop: HopId) {
    exists j: nat :: j < |vs| && VisitOf(vs[j], a, idx) && vs[j].hop == hop
      && forall m: nat :: m < |vs| && VisitOf(vs[m], a, idx) ==> m == j
  }

  predicate VisitOf(v: Visit, a: nat, idx: nat) { v.attempt == a && v.index == idx }

  /** An attempt that was given up has visited every hop of the segment's owner, each once. */
  lemma AttemptsVisitAll(c: Call, res: Result, p: nat, k: nat, a: nat)
    requires Explains(c, res, p, k) && a < p
    ensures Routed(c.world.load(a).routes, c.segment)
    ensures forall idx :: 0 <= idx < |RouteOf(c, a)| ==> VisitedOnce(Trace(c, p, k), a, idx, RouteOf(c, a)[idx])
  {
    assert PassedBy(c, a);
    RoutedIff(c, a);
    forall idx | 0 <= idx < |RouteOf(c, a)| ensures VisitedOnce(Trace(c, p, k), a, idx, RouteOf(c, a)[idx]) {
      IndexVisitedOnce(c, p, k, a, idx);
    }
  }

  lemma IndexVisitedOnce(c: Call, p: nat, k: nat, a: nat, idx: nat)
    requires k <= |Hops(c, p)| && a < p && idx < |Hops(c, a)|
    ensures VisitedOnce(Trace(c, p, k), a, idx, Hops(c, a)[idx])
  {
    var vs, n, start := Trace(c, p, k), |Hops(c, a)|, c.clrid % |Hops(c, a)|;
    var i := Rotation.StepOf(start, n, idx);
    Rotation.RoundIsPermutation(start, n, idx, i);
    TraceHas(c, p, k, a, i);
    var j := HopsTotal(c, a) + i;
    assert VisitOf(vs[j], a, idx);
    forall m: nat | m < |vs| && VisitOf(vs[m], a, idx) ensures m == j {
      var b, h := TracePlace(c, p, k, m);
      Rotation.RoundIsPermutation(start, n, idx, h);
    }
  }

  // ----- how it ends -----

  /** UnknownSegment says just that: the snapshot the call loaded last has no hop for the segment,
      and the ones before had. */
  lemma UnknownSegmentIff(c: Call, res: Result, p: nat, k: nat)
    requires Explains(c, res, p, k)
    ensures res == Err(UnknownSegment) <==> p < c.maxRetries && !Routed(c.world.load(p).routes, c.segment)
    ensures forall a :: 0 <= a < p ==> Routed(c.world.load(a).routes, c.segment)
  {
    RoutedIff(c, p);
    forall a | 0 <= a < p ensures Routed(c.world.load(a).routes, c.segment) {
      assert PassedBy(c, a);
      RoutedIff(c, a);
    }
  }

  /** Some visit was answered. */
  predicate Answered(vs: seq<Visit>) {
    exists j: nat :: j < |vs| && vs[j].sent.Some? && vs[j].sent.value.result.Answer?
  }

  /** Some visit's send failed otherwise than by finding its connection closed. */
  predicate FailedAfterSend(vs: seq<Visit>) {
    exists j: nat :: j < |vs| && vs[j].sent.Some? && vs[j].sent.value.result.OtherError?
  }

  /** The visit that is answered ends the call, and its answer, but for the CLRID, is the result. */
  lemma AnswerEndsCall(c: Call, res: Result, p: nat, k: nat, j: nat)
    requires Explains(c, res, p, k) && j < |Trace(c, p, k)|
    requires var sent := Trace(c, p, k)[j].sent; sent.Some? && sent.value.result.Answer?
    ensures j + 1 == |Trace(c, p, k)| && res.Ok?
    ensures var f := Trace(c, p, k)[j].sent.value.result.frame;
            if |f| < 9 then res.response == f
            else && |res.response| == |f| && FromLe32(res.response[1..5]) == c.clrid
                 && res.response[0] == f[0] && res.response[5..] == f[5..]
  {
    var a, i := TracePlace(c, p, k, j);
    assert a < p ==> PassedBy(c, a);
    assert Ends(c, a, i);
    ForwarderSafety.FullPassesLength(c, p);
  }

  /** Which calls succeed, and which end in Timeout: the answered ones, and the writes with a send
      that failed after it was sent. */
  lemma OutcomeIff(c: Call, res: Result, p: nat, k: nat)
    requires Explains(c, res, p, k)
    ensures res.Ok? <==> Answered(Trace(c, p, k))
    ensures res == Err(Timeout) <==> c.isWrite && FailedAfterSend(Trace(c, p, k))
  {
    var vs := Trace(c, p, k);
    if res.Ok? || res == Err(Timeout) {
      TraceHas(c, p, k, p, k - 1);
      assert Ends(c, p, k - 1);
      assert vs[HopsTotal(c, p) + (k - 1)].sent.Some?;
    }
    if j: nat :| j < |vs| && vs[j].sent.Some? && vs[j].sent.value.result.Answer? {
      AnswerEndsCall(c, res, p, k, j);
    }
    if c.isWrite {
      if j: nat :| j < |vs| && vs[j].sent.Some? && vs[j].sent.value.result.OtherError? {
        ForwarderSafety.WritesStopAtFirstError(c, res, p, k, j);
      }
    }
  }
}
