/** The parts composed: from the client's bytes to the bytes the client reads back. */
module EndToEnd {
  import opened Bytes
  import opened Protocol
  import opened ShardStream
  import opened FrameStream
  import opened Serializers
  import opened Forwarder
  import opened TcpServer
  import ForwarderSafety
  import Multiplexer
  import MultiplexerSafety

  // ----- the request side -----

  /** How TCP cuts a stream does not matter: two connections that read the same bytes took the
      same requests as far as both got, and all of them if neither was cut off. */
  lemma ChunkingIndependent(chunks1: seq<bytes>, chunks2: seq<bytes>, maxBuffer1: nat, maxBuffer2: nat,
                            maxFrame1: nat, maxFrame2: nat,
                            stalls1: nat -> bool, stalls2: nat -> bool,
                            taken1: seq<Request>, taken2: seq<Request>, out1: Outcome, out2: Outcome,
                            log1: Log, log2: Log)
    requires Flatten(chunks1) == Flatten(chunks2)
    requires Ran(chunks1, maxBuffer1, maxFrame1, stalls1, taken1, out1, log1)
    requires Ran(chunks2, maxBuffer2, maxFrame2, stalls2, taken2, out2, log2)
    ensures taken1 <= taken2 || taken2 <= taken1
    ensures out1.EndOfInput? && out2.EndOfInput? ==> taken1 == taken2
    ensures out1.FrameTooLarge? && out2.FrameTooLarge? && maxFrame1 == maxFrame2 ==> taken1 == taken2
  {
    var all := DecodeAll(Flatten(chunks1));
    ProgressMeans(Flatten(chunks1), log1.rest, log1.ledger, taken1, maxFrame1);
    ProgressMeans(Flatten(chunks2), log2.rest, log2.ledger, taken2, maxFrame2);
    assert taken1 == all[..|taken1|] && taken2 == all[..|taken2|];
  }

  /** A frame parses the same without the bytes behind it. */
  lemma FrameStandsAlone(buf: bytes)
    requires TryDecode(buf).Frame?
    ensures var f := TryDecode(buf).frame; TryDecode(buf[..f.frameLen]) == Frame(f)
  {
    var f := TryDecode(buf).frame;
    var front := buf[..f.frameLen];
    assert front + buf[f.frameLen..] == buf;
    assert front[1..5] == buf[1..5];
    if TryDecode(front) != NeedMore {
      DecodeStable(front, buf[f.frameLen..]);
    }
  }

  lemma {:induction false} DecodedRequests(s: bytes, r: Request)
    requires r in DecodeAll(s)
    ensures TryDecode(r.bytes) == Frame(r.info) && r.info.frameLen == |r.bytes|
    decreases |s|
  {
    match TryDecode(s)
    case Frame(f) =>
      if r == Request(s[..f.frameLen], f) {
        FrameStandsAlone(s);
      } else {
        DecodedRequests(s[f.frameLen..], r);
      }
    case Bad(_) => DecodedRequests(s[1..], r);
  }

  /** What the connection loop forwards always has room for the CLRID: error code 4 is never sent. */
  lemma ForwardedFramesHoldClrid(chunks: seq<bytes>, cfg: Config, stalls: nat -> bool,
                                 taken: seq<Request>, out: Outcome, log: Log,
                                 r: Request, w: World, res: Result, p: nat, k: nat)
    requires Ran(chunks, cfg.maxBuffer, cfg.maxFrame, stalls, taken, out, log) && r in taken
    requires Explains(CallOf(r, cfg, w), res, p, k)
    ensures OffsetOk(CallOf(r, cfg, w)) && res != Err(Internal)
  {
    var s := Flatten(chunks);
    ProgressMeans(s, log.rest, log.ledger, taken, cfg.maxFrame);
    assert r in DecodeAll(s);
    DecodedRequests(s, r);
    assert r.bytes[..r.info.frameLen] == r.bytes;
    ForwarderSafety.DecodedNeverTooShort(CallOf(r, cfg, w), res, p, k, r.bytes);
  }

  // ----- clients that send nothing but frames -----

  predicate FramesWithin(fs: seq<bytes>, maxFrame: nat) {
    AllFrames(fs) && forall i :: 0 <= i < |fs| ==> |fs[i]| <= maxFrame
  }

  /** On such a stream consumption stops only between frames. */
  lemma {:induction false} StopsBetweenFrames(fs: seq<bytes>, maxFrame: nat, ledger: seq<Piece>, rest: bytes)
    returns (j: nat)
    requires FramesWithin(fs, maxFrame) && Accounts(ledger, Flatten(fs), rest)
    ensures j <= |fs| && rest == Flatten(fs[j..])
    decreases |ledger|
  {
    if ledger == [] {
      j := 0;
      assert fs[0..] == fs;
    } else if fs == [] {
      j := StopsBetweenFrames(fs, maxFrame, ledger[1..], rest);
    } else {
      var s := Flatten(fs);
      FramesTail(fs);
      DecodeStable(fs[0], Flatten(fs[1..]));
      if ledger[0].Taken? {
        assert s[|fs[0]|..] == Flatten(fs[1..]);
        j := StopsBetweenFrames(fs[1..], maxFrame, ledger[1..], rest);
        assert fs[1..][j..] == fs[1 + j..];
        j := 1 + j;
      } else {
        assert s[0] == ROUTER_MAGIC;
        j := StopsBetweenFrames(fs, maxFrame, ledger[1..], rest);
      }
    }
  }

  /** A piece of such a stream that holds no frame is shorter than a frame. */
  lemma UnfinishedIsShort(fs: seq<bytes>, maxFrame: nat, ledger: seq<Piece>, waiting: bytes, more: bytes)
    requires FramesWithin(fs, maxFrame) && Accounts(ledger, Flatten(fs), waiting + more) && DecodeAll(waiting) == []
    ensures waiting == [] || |waiting| < maxFrame
  {
    var j := StopsBetweenFrames(fs, maxFrame, ledger, waiting + more);
    if j == |fs| {
      assert Flatten(fs[j..]) == [];
      assert |waiting + more| == 0;
    } else if |waiting| >= |fs[j]| {
      assert WholeFrame(fs[j]) && fs[j..][0] == fs[j];
      var f := fs[j];
      assert (waiting + more)[..|f|] == f && (waiting + more)[..|f|] == waiting[..|f|];
      assert waiting == f + waiting[|f|..];
      TakeFirst(f, waiting[|f|..]);
    }
  }

  lemma {:induction false} RequestsWithin(fs: seq<bytes>, maxFrame: nat)
    requires FramesWithin(fs, maxFrame)
    ensures |RequestsOf(fs)| == |fs|
    ensures forall i :: 0 <= i < |fs| ==>
              RequestsOf(fs)[i].bytes == fs[i] && RequestsOf(fs)[i].info.frameLen <= maxFrame
  {
    if fs == [] {
    } else {
      FramesTail(fs);
      RequestsWithin(fs[1..], maxFrame);
    }
  }

  /** A client that sends frames of at most `maxFrame` bytes, in reads that leave room for a frame
      in the buffer, is never cut off by a size limit, and every frame reaches the server in order. */
  lemma ProperClientsAreServed(fs: seq<bytes>, chunks: seq<bytes>, maxBuffer: nat, maxFrame: nat, stalls: nat -> bool,
                               taken: seq<Request>, out: Outcome, log: Log)
    requires FramesWithin(fs, maxFrame) && Flatten(chunks) == Flatten(fs)
    requires forall i :: 0 <= i < |chunks| ==> |chunks[i]| + maxFrame <= maxBuffer
    requires Ran(chunks, maxBuffer, maxFrame, stalls, taken, out, log)
    ensures out != BufferOverflow && out != FrameTooLarge
    ensures DecodeAll(Flatten(chunks)) == RequestsOf(fs) && taken <= RequestsOf(fs)
    ensures out.EndOfInput? ==> taken == RequestsOf(fs)
  {
    ConcatenationRecovered(fs, []);
    assert Flatten(fs) + [] == Flatten(fs) && RequestsOf(fs) + [] == RequestsOf(fs) && DecodeAll([]) == [];
    RequestsWithin(fs, maxFrame);
    ProgressMeans(Flatten(chunks), log.rest, log.ledger, taken, maxFrame);
    if out.BufferOverflow? {
      var last, tail := chunks[log.read - 1], Flatten(chunks[log.read..]);
      ConcatAssoc(log.waiting, last, tail);
      UnfinishedIsShort(fs, maxFrame, log.ledger, log.waiting, last + tail);
    }
  }

  // ----- the response side -----

  /** The bytes written to a client, cut by the reader's rule, are exactly one frame for each
      request that is not a keepalive, in request order, each under its request's CLRID; after a
      failed write only the last of them is missing. What another router reads from them, in any
      pieces, is what this cut says. */
  lemma ResponsesAreFramed(taken: seq<Request>, responses: seq<bytes>, written: bytes, cfg: Config,
                           writeFails: nat -> bool, worlds: nat -> World)
    requires forall n: nat :: WorldOk(worlds(n), cfg)
    requires Served(taken, responses, written, cfg, writeFails, worlds)
          || Unsent(taken, responses, written, cfg, writeFails, worlds)
    ensures CutAll(written) == responses
    ensures Served(taken, responses, written, cfg, writeFails, worlds) ==> |responses| == |Real(taken)|
    ensures Unsent(taken, responses, written, cfg, writeFails, worlds) ==> |responses| + 1 == |Real(taken)|
    ensures |responses| <= |Real(taken)|
    ensures forall i :: 0 <= i < |responses| ==> ResponseFor(responses[i], Real(taken)[i].info.clrid)
  {
    forall i | 0 <= i < |responses| ensures ResponseFor(responses[i], Real(taken)[i].info.clrid) {
      var c := CallOf(Real(taken)[i], cfg, worlds(i));
      assert WorldOk(worlds(i), cfg);
      AnswersAreFramed(c, cfg, responses[i]);
    }
    CutsAreInverse(responses);
  }

  lemma {:induction false} DistinctCount(keys: seq<bytes>)
    requires forall i, j :: 0 <= i < j < |keys| ==> keys[i] != keys[j]
    ensures |set k | k in keys| == |keys|
  {
    if keys == [] {
    } else {
      var rest := keys[1..];
      DistinctCount(rest);
      assert (set k | k in keys) == {keys[0]} + (set k | k in rest);
    }
  }

  /** A client that asks for the segments can parse the answer exactly when there are at most
      32767; it then finds every segment of the snapshot once, with a zero count, and no other. */
  lemma SegmentsAnswerParses(c: Call, codecs: seq<bytes>, response: bytes)
    requires c.segment == GETSEGMENTS && Answers(c, codecs, response)
    ensures var r, parsed := c.world.load(0).routes, ParsePayload(response[9..]);
            && (parsed.Success? <==> |r.owner| <= MAX_SEGMENTS)
            && (parsed.Success? ==>
                  && |parsed.fields| == 2 * |r.owner|
                  && exists keys :: Enumerates(keys, r) && |keys| == |r.owner|
                       && forall i :: 0 <= i < |keys| ==> SegmentPair(parsed.fields, keys, i))
  {
    var r := c.world.load(0).routes;
    var keys :| Enumerates(keys, r) && KeysFit(keys) && response == Response(c.clrid, SegmentsPayload(keys));
    ResponseFramedIff(c.clrid, SegmentsPayload(keys));
    DistinctCount(keys);
    assert (set k | k in keys) == r.owner.Keys;
    SegmentsRoundTrip(keys);
  }

  /** The codecs answer parses to its one field. */
  lemma CodecsAnswerParses(c: Call, codecs: seq<bytes>, response: bytes)
    requires c.segment == GETCODECS && Answers(c, codecs, response)
    ensures ParsePayload(response[9..]) == Success([Field(1, 0x09, Join(codecs))])
  {
    assert |GETSEGMENTS| == 11 && |GETCODECS| == 10;
    var fs := [Field(1, RAW_TYPE, Join(codecs))];
    ResponseFramedIff(c.clrid, SuccessPayload(fs));
    ParseSuccessIff(fs);
  }

  /** What a client is told when a request could not be forwarded: something failed, and never
      what. Its reply is the same whatever the error was. */
  lemma ErrorsLookAlike(c: Call, error: ForwardError)
    ensures ParsePayload(Rendered(c.clrid, Err(error))[9..]) == Failure(Some(Le32(3)))
  {
    ResponseFramedIff(c.clrid, ErrorPayload(ErrorCode(error)));
    ErrorTextOutsideField(ErrorCode(error));
  }

  // ----- the hops' side -----

  /** A hop's answer comes from a caller of a multiplexer that returned with it. */
  ghost predicate FromMultiplexer(id: u32, frame: bytes) {
    exists s: Multiplexer.State, t: nat ::
      && MultiplexerSafety.Reachable(s) && t < |s.callers| && t < |s.ids|
      && s.callers[t] == Multiplexer.Returned(Multiplexer.Answer(frame)) && s.ids[t] == id
  }

  /** What the forwarder expects of answers is what every multiplexer run delivers: a frame long
      enough to restore the CLRID in, under the id that was sent. */
  lemma MultiplexedAnswersOk(w: World)
    requires forall a, i :: w.slot(a, i).Ready? && w.slot(a, i).result.Answer? ==>
               FromMultiplexer(w.slot(a, i).newClrid, w.slot(a, i).result.frame)
    ensures AnswersOk(w)
  {
    forall a, i | w.slot(a, i).Ready? && w.slot(a, i).result.Answer?
      ensures ResponseFor(w.slot(a, i).result.frame, w.slot(a, i).newClrid)
    {
      var id, frame := w.slot(a, i).newClrid, w.slot(a, i).result.frame;
      assert FromMultiplexer(id, frame);
      var s: Multiplexer.State, t: nat :|
        && MultiplexerSafety.Reachable(s) && t < |s.callers| && t < |s.ids|
        && s.callers[t] == Multiplexer.Returned(Multiplexer.Answer(frame)) && s.ids[t] == id;
      MultiplexerSafety.AnswerIsOwn(s, t);
    }
  }
}
