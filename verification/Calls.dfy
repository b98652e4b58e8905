/** From a client's frame to its response, read off the frame's own bytes. */
module Calls {
  import opened Bytes
  import opened Protocol
  import opened FrameStream
  import opened Serializers
  import opened Forwarder
  import opened TcpServer
  import ForwarderSafety
  import ForwarderVisits
  import EndToEnd

  // ----- the names on the wire -----

  /** The control segments, byte by byte. */
  lemma ControlNames()
    ensures KEEPALIVE == [95, 95, 107, 101, 101, 112, 97, 108, 105, 118, 101, 95, 95]
    ensures GETSEGMENTS == [71, 69, 84, 83, 69, 71, 77, 69, 78, 84, 83]
    ensures GETCODECS == [95, 95, 99, 111, 100, 101, 99, 115, 95, 95]
  {
  }

  // ----- what is asked -----

  /** `f` has the parts that a frame must have. */
  predicate HasParts(f: bytes) { |f| >= 16 && 16 + f[5] as int <= |f| }

  function SegmentOf(f: bytes): bytes
    requires HasParts(f)
  {
    f[6..6 + f[5] as int]
  }

  predicate FlaggedWrite(f: bytes)
    requires HasParts(f)
  {
    f[6 + f[5] as int] == 1
  }

  function ClridOf(f: bytes): u32
    requires HasParts(f)
  {
    FromLe32(f[8 + f[5] as int..12 + f[5] as int])
  }

  /** The call asks for what the frame says. */
  predicate CallFor(c: Call, f: bytes) {
    && HasParts(f) && c.frame == f
    && c.segment == SegmentOf(f) && (c.isWrite <==> FlaggedWrite(f)) && c.clrid == ClridOf(f)
    && c.clridOffset == 8 + f[5] as int
  }

  /** A frame that was taken is forwarded as what its bytes say: the segment behind its length
      byte, a write if and only if the flag byte is 1, and the CLRID behind the shard magic. */
  lemma CallIsTheFrames(chunks: seq<bytes>, cfg: Config, stalls: nat -> bool, taken: seq<Request>, out: Outcome,
                        log: Log, r: Request, w: World)
    requires Ran(chunks, cfg.maxBuffer, cfg.maxFrame, stalls, taken, out, log) && r in taken
    ensures CallFor(CallOf(r, cfg, w), r.bytes)
    ensures CallOf(r, cfg, w).maxRetries == cfg.maxRetries && CallOf(r, cfg, w).world == w
  {
    var s := Flatten(chunks);
    ProgressMeans(s, log.rest, log.ledger, taken, cfg.maxFrame);
    assert r in DecodeAll(s);
    EndToEnd.DecodedRequests(s, r);
    DecodedParts(r.bytes);
  }

  lemma DecodedParts(f: bytes)
    requires TryDecode(f).Frame?
    ensures var d := TryDecode(f).frame;
            && HasParts(f) && d.segment == SegmentOf(f) && (d.isWrite <==> FlaggedWrite(f)) && d.clrid == ClridOf(f)
            && d.clridOffset == 8 + f[5] as int
  {
  }

  // ----- what is done -----

  /** What a frame was sent as: the client's own but for the four bytes of its CLRID. */
  predicate SentAs(f: bytes, sent: Sent)
    requires HasParts(f)
  {
    var at := 8 + f[5] as int;
    && |sent.frame| == |f| && sent.frame[at..at + 4] == Le32(sent.id)
    && forall j :: 0 <= j < |f| && !(at <= j < at + 4) ==> sent.frame[j] == f[j]
  }

  lemma SentAsFrame(c: Call, f: bytes, p: nat, k: nat, v: Visit)
    requires CallFor(c, f) && k <= |Hops(c, p)| && v in Trace(c, p, k) && v.sent.Some?
    ensures SentAs(f, v.sent.value)
  {
    ForwarderSafety.SentIsStamped(c, p, k, v);
    var sent, at := v.sent.value.frame, c.clridOffset;
    Le32OfFromLe32(sent[at..at + 4]);
  }

  lemma HopOfVisit(c: Call, res: Result, p: nat, k: nat, v: Visit)
    requires Explains(c, res, p, k) && v in Trace(c, p, k)
    ensures v.attempt < c.maxRetries
    ensures var routes := c.world.load(v.attempt).routes;
            ForwarderVisits.Routed(routes, c.segment) && v.hop in routes.hops[routes.owner[c.segment]]
  {
    var j :| 0 <= j < |Trace(c, p, k)| && Trace(c, p, k)[j] == v;
    ForwarderVisits.VisitsAreRouted(c, res, p, k, j);
  }

  /** For every taken frame and every visit made for it: the hop is one of those the snapshot of
      that attempt gives for the bytes behind the segment length, and what was sent is the frame
      under the id of its waiter. */
  lemma FrameGoesWhereItSays(chunks: seq<bytes>, cfg: Config, stalls: nat -> bool, taken: seq<Request>, out: Outcome,
                             log: Log, r: Request, w: World, res: Result, p: nat, k: nat, v: Visit)
    requires Ran(chunks, cfg.maxBuffer, cfg.maxFrame, stalls, taken, out, log) && r in taken
    requires Explains(CallOf(r, cfg, w), res, p, k) && v in Trace(CallOf(r, cfg, w), p, k)
    ensures HasParts(r.bytes) && v.attempt < cfg.maxRetries
    ensures var routes := w.load(v.attempt).routes;
            && ForwarderVisits.Routed(routes, SegmentOf(r.bytes))
            && v.hop in routes.hops[routes.owner[SegmentOf(r.bytes)]]
    ensures v.sent.Some? ==> SentAs(r.bytes, v.sent.value)
  {
    var c := CallOf(r, cfg, w);
    CallIsTheFrames(chunks, cfg, stalls, taken, out, log, r, w);
    HopOfVisit(c, res, p, k, v);
    if v.sent.Some? {
      SentAsFrame(c, r.bytes, p, k, v);
    }
  }

  /** The retry discipline, on the flag byte. A write: every send but the last found its connection
      closed, and the first other error is the end, reported as code 3. Anything else is retried
      and never reported so. */
  lemma FlagDecidesRetries(chunks: seq<bytes>, cfg: Config, stalls: nat -> bool, taken: seq<Request>, out: Outcome,
                           log: Log, r: Request, w: World, res: Result, p: nat, k: nat)
    requires Ran(chunks, cfg.maxBuffer, cfg.maxFrame, stalls, taken, out, log) && r in taken
    requires Explains(CallOf(r, cfg, w), res, p, k)
    ensures HasParts(r.bytes)
    ensures var vs := Trace(CallOf(r, cfg, w), p, k);
            && (FlaggedWrite(r.bytes) ==>
                  forall j :: 0 <= j < |vs| - 1 && vs[j].sent.Some? ==> vs[j].sent.value.result == ConnectionClosed)
            && (FlaggedWrite(r.bytes) && ForwarderVisits.FailedAfterSend(vs) ==>
                  res == Err(Timeout) && Rendered(ClridOf(r.bytes), res) == Response(ClridOf(r.bytes), ErrorPayload(3)))
            && (!FlaggedWrite(r.bytes) ==> res != Err(Timeout))
  {
    var c := CallOf(r, cfg, w);
    CallIsTheFrames(chunks, cfg, stalls, taken, out, log, r, w);
    ForwarderVisits.OutcomeIff(c, res, p, k);
    if FlaggedWrite(r.bytes) {
      var vs := Trace(c, p, k);
      forall j | 0 <= j < |vs| - 1 && vs[j].sent.Some? ensures vs[j].sent.value.result == ConnectionClosed {
        ForwarderSafety.WritesStopAtFirstError(c, res, p, k, j);
      }
    }
  }

  // ----- what is answered -----

  /** The error frames, byte by byte. */
  lemma ErrorFrameIs(clrid: u32, e: ForwardError)
    ensures Rendered(clrid, Err(e)) == Response(clrid, ErrorPayload(ErrorCode(e))) == ErrorFrame(clrid, e)
  {
  }

  function ErrorFrame(clrid: u32, e: ForwardError): bytes {
    [0xFF] + Le32(clrid) + [22, 0, 0, 0] + [5, 69, 82, 82, 79, 82, 1, 0, 1, 0, 1, 4, 0, 0, 0] + [3, 0, 0, 0] + Status(e)
  }

  /** "404", "503", "408" and "500". */
  function Status(e: ForwardError): bytes {
    match e
    case UnknownSegment => [52, 48, 52]
    case NetworkError => [53, 48, 51]
    case Timeout => [52, 48, 56]
    case Internal => [53, 48, 48]
  }

  /** The response that was written for the `i`-th frame that is not a keepalive is what the
      forwarding of that very frame came to, unless the frame asks the router itself. */
  lemma ResponsesAreOutcomes(chunks: seq<bytes>, cfg: Config, stalls: nat -> bool, taken: seq<Request>, out: Outcome,
                             log: Log, responses: seq<bytes>, worlds: nat -> World, i: nat,
                             res: Result, p: nat, k: nat)
    requires Ran(chunks, cfg.maxBuffer, cfg.maxFrame, stalls, taken, out, log)
    requires Answered(Real(taken), responses, cfg, worlds) && i < |responses|
    requires Explains(CallOf(Real(taken)[i], cfg, worlds(i)), res, p, k)
    ensures Real(taken)[i] in taken && HasParts(Real(taken)[i].bytes)
    ensures var f := Real(taken)[i].bytes;
            SegmentOf(f) != GETSEGMENTS && SegmentOf(f) != GETCODECS ==>
              match res
              case Ok(answer) => responses[i] == answer
              case Err(e) => responses[i] == ErrorFrame(ClridOf(f), e)
  {
    var r := Real(taken)[i];
    var c := CallOf(r, cfg, worlds(i));
    RealMembers(taken, r);
    CallIsTheFrames(chunks, cfg, stalls, taken, out, log, r, worlds(i));
    assert Answers(c, cfg.codecs, responses[i]);
    if c.segment != GETSEGMENTS && c.segment != GETCODECS {
      var res', p', k' :| Explains(c, res', p', k') && responses[i] == Rendered(c.clrid, res');
      ForwarderSafety.OutcomeIsDetermined(c, res, p, k, res', p', k');
      if res.Err? {
        ErrorFrameIs(c.clrid, res.error);
      }
    }
  }

  // ----- keepalives -----

  lemma {:induction false} ExceptMembers(rs: seq<Request>, segment: bytes, r: Request)
    ensures r in Except(rs, segment) <==> r in rs && r.info.segment != segment
  {
    if rs == [] {
    } else {
      ExceptMembers(rs[1..], segment, r);
      assert r in rs <==> r == rs[0] || r in rs[1..];
    }
  }

  /** Keepalives are the requests for the one control segment; no other frame goes unanswered. */
  lemma RealMembers(rs: seq<Request>, r: Request)
    ensures r in Real(rs) <==>
              r in rs && r.info.segment != [95, 95, 107, 101, 101, 112, 97, 108, 105, 118, 101, 95, 95]
  {
    ControlNames();
    ExceptMembers(rs, KEEPALIVE, r);
  }

  lemma {:induction false} ExceptAppend(a: seq<Request>, b: seq<Request>, segment: bytes)
    ensures Except(a + b, segment) == Except(a, segment) + Except(b, segment)
  {
    var all := a + b;
    if a == [] {
      assert all == b;
    } else {
      assert all[0] == a[0] && all[1..] == a[1..] + b;
      ExceptAppend(a[1..], b, segment);
      Prepended(Unless(a[0], segment), Except(a[1..], segment), Except(b, segment));
      assert Except(all, segment) == Unless(a[0], segment) + Except(a[1..] + b, segment);
    }
  }

  /** The order of the others stays, and none is counted twice. */
  lemma RealAppend(a: seq<Request>, r: Request, b: seq<Request>)
    ensures Real(a + [r] + b)
         == Real(a)
            + (if r.info.segment == [95, 95, 107, 101, 101, 112, 97, 108, 105, 118, 101, 95, 95] then [] else [r])
            + Real(b)
  {
    ControlNames();
    ExceptAppend(a + [r], b, KEEPALIVE);
    ExceptSnoc(a, r, KEEPALIVE);
  }
}
