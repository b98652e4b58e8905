/** Forwarding one request: routes, hops in round-robin order, retries, CLRID rewriting. */
module Forwarder {
  import opened Bytes
  import opened ShardStream
  import opened Serializers
  import opened RoutingState
  import Rotation

  const GETSEGMENTS := Ascii("GETSEGMENTS")
  const GETCODECS := Ascii("__codecs__")

  /** How send_and_wait came back; `OtherError` is any error but a closed connection. */
  datatype SendResult = Answer(frame: bytes) | ConnectionClosed | OtherError

  /** What a visit to a hop meets. */
  datatype Slot = NoHop | NoConnection | AlreadyClosed | Ready(newClrid: u32, result: SendResult)

  /** Everything the call does not decide itself: the snapshot loaded in each attempt, and what
      the i-th hop tried in it offers. */
  datatype World = World(load: nat -> RoutingSnapshot, slot: (nat, nat) -> Slot)

  /** The multiplexer's guarantee about answers. */
  ghost predicate AnswersOk(w: World) {
    forall a, i :: w.slot(a, i).Ready? && w.slot(a, i).result.Answer? ==>
      ResponseFor(w.slot(a, i).result.frame, w.slot(a, i).newClrid)
  }

  datatype ForwardError = UnknownSegment | NetworkError | Timeout | Internal
  datatype Result = Ok(response: bytes) | Err(error: ForwardError)

  datatype Call = Call(frame: bytes, segment: bytes, clridOffset: nat, clrid: u32, isWrite: bool, maxRetries: nat,
                       world: World)

  /** A frame handed to a connection, how that ended, and whether the connection was closed for it. */
  datatype Sent = Sent(frame: bytes, id: u32, result: SendResult, closed: bool)
  datatype Visit = Visit(attempt: nat, index: nat, hop: HopId, sent: Option<Sent>)

  // ----- what a call amounts to, for any world -----

  function Hops(c: Call, a: nat): seq<HopId> { Lookup(c.world.load(a).routes, c.segment) }

  /** The index tried at step `i` of an attempt over `n` hops. */
  function IndexAt(c: Call, n: nat, i: nat): nat
    requires n > 0
  {
    Rotation.At(c.clrid % n, n, i)
  }

  predicate OffsetOk(c: Call) { c.clridOffset + 4 <= |c.frame| }

  /** The frame with another id at the CLRID's place. */
  function Stamped(c: Call, id: u32): bytes
    requires OffsetOk(c)
  {
    Patch(c.frame, c.clridOffset, Le32(id))
  }

  /** The frame as rewritten by earlier sends of the same call. */
  ghost predicate SameButClrid(c: Call, frame: bytes) {
    && |frame| == |c.frame|
    && forall j :: 0 <= j < |frame| && !(c.clridOffset <= j < c.clridOffset + 4) ==> frame[j] == c.frame[j]
  }

  lemma Restamp(c: Call, frame: bytes, id: u32)
    requires OffsetOk(c) && SameButClrid(c, frame)
    ensures Patch(frame, c.clridOffset, Le32(id)) == Stamped(c, id) && SameButClrid(c, Stamped(c, id))
  {
  }

  function SentAt(c: Call, slot: Slot): Option<Sent> {
    if slot.Ready? && OffsetOk(c) then
      Some(Sent(Stamped(c, slot.newClrid), slot.newClrid, slot.result,
                slot.result.ConnectionClosed? || (slot.result.OtherError? && !c.isWrite)))
    else None
  }

  function VisitAt(c: Call, a: nat, i: nat): Visit
    requires i < |Hops(c, a)|
  {
    var hops := Hops(c, a);
    var idx := IndexAt(c, |hops|, i);
    Visit(a, idx, hops[idx], SentAt(c, c.world.slot(a, i)))
  }

  /** The first `k` visits of an attempt. */
  function Pass(c: Call, a: nat, k: nat): (vs: seq<Visit>)
    requires k <= |Hops(c, a)|
    ensures |vs| == k
  {
    seq(k, i requires 0 <= i < k => VisitAt(c, a, i))
  }

  lemma PassSnoc(c: Call, a: nat, i: nat)
    requires i < |Hops(c, a)|
    ensures Pass(c, a, i + 1) == Pass(c, a, i) + [VisitAt(c, a, i)]
  {
  }

  /** The visits of the first `p` attempts, each of them complete. */
  function FullPasses(c: Call, p: nat): seq<Visit> {
    if p == 0 then [] else FullPasses(c, p - 1) + Pass(c, p - 1, |Hops(c, p - 1)|)
  }

  function HopsTotal(c: Call, p: nat): nat {
    if p == 0 then 0 else HopsTotal(c, p - 1) + |Hops(c, p - 1)|
  }

  /** Whether a visit ends the call. */
  predicate Ends(c: Call, a: nat, i: nat) {
    var slot := c.world.slot(a, i);
    slot.Ready? && (!OffsetOk(c) || slot.result.Answer? || (c.isWrite && slot.result.OtherError?))
  }

  function EndResult(c: Call, a: nat, i: nat): Result
    requires Ends(c, a, i)
  {
    var slot := c.world.slot(a, i);
    if !OffsetOk(c) then Err(Internal)
    else match slot.result
      case Answer(f) => Ok(if |f| >= 9 then Patch(f, 1, Le32(c.clrid)) else f)
      case _ => Err(Timeout)
  }

  ghost predicate PassedBy(c: Call, a: nat) {
    Hops(c, a) != [] && forall i :: 0 <= i < |Hops(c, a)| ==> !Ends(c, a, i)
  }

  /** The call came to `res` after `p` complete attempts and `k` visits of the next one. */
  ghost predicate Explains(c: Call, res: Result, p: nat, k: nat) {
    && p <= c.maxRetries
    && (forall a :: 0 <= a < p ==> PassedBy(c, a))
    && if p == c.maxRetries then k == 0 && res == Err(NetworkError)
       else if Hops(c, p) == [] then k == 0 && res == Err(UnknownSegment)
       else && 0 < k <= |Hops(c, p)|
            && (forall i :: 0 <= i < k - 1 ==> !Ends(c, p, i))
            && Ends(c, p, k - 1) && res == EndResult(c, p, k - 1)
  }

  /** The visits of such a call. */
  function Trace(c: Call, p: nat, k: nat): seq<Visit>
    requires k <= |Hops(c, p)|
  {
    FullPasses(c, p) + Pass(c, p, k)
  }

  function Join(parts: seq<bytes>): bytes {
    if parts == [] then [] else if |parts| == 1 then parts[0] else parts[0] + [44] + Join(parts[1..])
  }

  /** All parts, in order, with one comma between any two of them. */
  lemma {:induction false} JoinAppend(a: seq<bytes>, b: seq<bytes>)
    requires a != [] && b != []
    ensures Join(a + b) == Join(a) + [44] + Join(b)
    ensures |a| == 1 ==> Join(a) == a[0]
  {
    assert (a + b)[0] == a[0] && (a + b)[1..] == a[1..] + b;
    if |a| > 1 {
      JoinAppend(a[1..], b);
      assert Join(a) == a[0] + [44] + Join(a[1..]);
    } else {
      assert a[1..] + b == b;
    }
  }

  /** An enumeration of the snapshot's segments. */
  ghost predicate Enumerates(keys: seq<bytes>, r: Routes) {
    && (forall s :: s in keys <==> s in r.owner)
    && forall i, j :: 0 <= i < j < |keys| ==> keys[i] != keys[j]
  }

  method SegmentKeys(r: Routes) returns (keys: seq<bytes>)
    ensures Enumerates(keys, r)
  {
    keys := [];
    var todo := r.owner.Keys;
    while todo != {}
      invariant todo <= r.owner.Keys
      invariant forall s :: s in keys <==> s in r.owner && s !in todo
      invariant forall i, j :: 0 <= i < j < |keys| ==> keys[i] != keys[j]
      decreases todo
    {
      var s :| s in todo;
      keys, todo := keys + [s], todo - {s};
    }
  }

  /** Forwards one request, or answers a control segment itself. `passes` and `steps` say how far
      the retries went. */
  method Forward(c: Call, codecs: seq<bytes>)
    returns (res: Result, visits: seq<Visit>, ghost passes: nat, ghost steps: nat, ghost keys: seq<bytes>)
    requires c.segment == GETSEGMENTS ==> forall s :: s in c.world.load(0).routes.owner ==> |s| < U32_SIZE
    requires |Join(codecs)| < U32_SIZE
    ensures c.segment == GETSEGMENTS ==>
              visits == [] && Enumerates(keys, c.world.load(0).routes) && KeysFit(keys)
              && res == Ok(Response(c.clrid, SegmentsPayload(keys)))
    ensures c.segment == GETCODECS ==>
              visits == [] && res == Ok(Response(c.clrid, SuccessPayload([Field(1, RAW_TYPE, Join(codecs))])))
    ensures c.segment != GETSEGMENTS && c.segment != GETCODECS ==>
              Explains(c, res, passes, steps) && visits == Trace(c, passes, steps)
  {
    visits, passes, steps, keys := [], 0, 0, [];
    assert GETSEGMENTS != GETCODECS by {
      assert |GETSEGMENTS| == 11 && |GETCODECS| == 10;
    }
    if c.segment == GETSEGMENTS {
      var names := SegmentKeys(c.world.load(0).routes);
      keys := names;
      var response := SerializeGetSegments(names, c.clrid);
      return Ok(response), [], 0, 0, keys;
    }
    if c.segment == GETCODECS {
      var response := SerializeCodecs(c.clrid, Join(codecs));
      return Ok(response), [], 0, 0, [];
    }
    res, visits, passes, steps := Route(c);
  }

  /** One hop of one attempt: find a connection, rewrite the CLRID in place, send. `done` is the
      call's result when this ends it; `sent` says that a request failed after it was sent. */
  method TryHop(c: Call, attempt: nat, startIdx: nat, i: nat, frame0: bytes)
    returns (frame: bytes, visit: Visit, done: Option<Result>, sent: bool)
    requires i < |Hops(c, attempt)| && startIdx == c.clrid % |Hops(c, attempt)| && SameButClrid(c, frame0)
    ensures SameButClrid(c, frame) && visit == VisitAt(c, attempt, i)
    ensures done.Some? <==> Ends(c, attempt, i)
    ensures done.Some? ==> done.value == EndResult(c, attempt, i)
    ensures sent && done.None? ==> !c.isWrite
  {
    var hopIds := Lookup(c.world.load(attempt).routes, c.segment);
    var idx := Rotation.At(startIdx, |hopIds|, i);
    var slot := c.world.slot(attempt, i);
    frame, visit, done, sent := frame0, Visit(attempt, idx, hopIds[idx], None), None, false;
    if !slot.Ready? {
      return;
    }
    if c.clridOffset + 4 > |frame| {
      done := Some(Err(Internal));
      return;
    }
    Restamp(c, frame, slot.newClrid);
    frame := Patch(frame, c.clridOffset, Le32(slot.newClrid));
    var close := false;
    match slot.result {
      case Answer(response) =>
        done := Some(Ok(if |response| >= 9 then Patch(response, 1, Le32(c.clrid)) else response));
      case ConnectionClosed =>
        close := true;
      case OtherError =>
        sent := true;
        if c.isWrite {
          done := Some(Err(Timeout));
        } else {
          close := true;
        }
    }
    visit := visit.(sent := Some(Sent(frame, slot.newClrid, slot.result, close)));
  }

  /** One attempt over the hops of a snapshot, in round-robin order. */
  method TryHops(c: Call, attempt: nat, frame0: bytes)
    returns (frame: bytes, pass: seq<Visit>, done: Option<Result>, sent: bool)
    requires Hops(c, attempt) != [] && SameButClrid(c, frame0)
    ensures SameButClrid(c, frame)
    ensures |pass| <= |Hops(c, attempt)| && pass == Pass(c, attempt, |pass|)
    ensures done.None? ==> |pass| == |Hops(c, attempt)| && PassedBy(c, attempt) && (sent ==> !c.isWrite)
    ensures done.Some? ==> pass != [] && Ends(c, attempt, |pass| - 1) && done.value == EndResult(c, attempt, |pass| - 1)
                           && forall i :: 0 <= i < |pass| - 1 ==> !Ends(c, attempt, i)
  {
    var hopIds := Lookup(c.world.load(attempt).routes, c.segment);
    var startIdx := c.clrid % |hopIds|;
    frame, pass, done, sent := frame0, [], None, false;
    for i := 0 to |hopIds|
      invariant forall j :: 0 <= j < i ==> !Ends(c, attempt, j)
      invariant |pass| == i && pass == Pass(c, attempt, i) && SameButClrid(c, frame)
      invariant done.None? && (sent ==> !c.isWrite)
    {
      var visit, failed;
      frame, visit, done, failed := TryHop(c, attempt, startIdx, i, frame);
      PassSnoc(c, attempt, i);
      pass := pass + [visit];
      if done.Some? {
        return;
      }
      sent := sent || failed;
    }
  }

  /** The attempts. The guard against resending a write after the hops are exhausted is dead:
      such a write has already returned. */
  method Route(c: Call) returns (res: Result, visits: seq<Visit>, passes: nat, steps: nat)
    ensures Explains(c, res, passes, steps) && visits == Trace(c, passes, steps)
  {
    visits, passes, steps := [], 0, 0;
    var frame := c.frame;
    var requestSent := false;
    for attempt := 0 to c.maxRetries
      invariant passes == attempt && steps == 0 && forall a :: 0 <= a < attempt ==> PassedBy(c, a)
      invariant visits == FullPasses(c, attempt) && SameButClrid(c, frame)
      invariant requestSent ==> !c.isWrite
    {
      if Lookup(c.world.load(attempt).routes, c.segment) == [] {
        return Err(UnknownSegment), visits, passes, 0;
      }
      var pass, done, sent;
      frame, pass, done, sent := TryHops(c, attempt, frame);
      visits := visits + pass;
      if done.Some? {
        return done.value, visits, passes, |pass|;
      }
      requestSent := requestSent || sent;
      passes := attempt + 1;
      if c.isWrite && requestSent {
        assert false;
      }
      if attempt == c.maxRetries - 1 {
        return Err(NetworkError), visits, passes, 0;
      }
    }
    res := Err(NetworkError);
  }
}
