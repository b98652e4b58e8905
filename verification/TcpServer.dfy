/** One client connection: buffer, resync, limits, and one response for each request. */
module TcpServer {
  import opened Bytes
  import opened Protocol
  import opened ShardStream
  import opened FrameStream
  import opened Serializers
  import opened Forwarder
  import ForwarderSafety

  datatype Config = Config(maxBuffer: nat, maxFrame: nat, maxRetries: nat, codecs: seq<bytes>)

  /** Why a connection ended. `EndOfInput` covers end of file, read errors, idle timeout and
      cancellation: no more bytes come. */
  datatype Outcome = EndOfInput | BufferOverflow | FrameTimeout | FrameTooLarge | WriteFailed

  // ----- answering one request -----

  function CallOf(r: Request, cfg: Config, w: World): Call {
    Call(r.bytes, r.info.segment, r.info.clridOffset, r.info.clrid, r.info.isWrite, cfg.maxRetries, w)
  }

  function ErrorCode(e: ForwardError): byte {
    match e
    case UnknownSegment => 1
    case NetworkError => 2
    case Timeout => 3
    case Internal => 4
  }

  function Rendered(clrid: u32, res: Result): bytes {
    match res
    case Ok(r) => r
    case Err(e) => Response(clrid, ErrorPayload(ErrorCode(e)))
  }

  /** `response` is what this call comes to: a list of the segments, the codecs, the hop's answer
      with the CLRID restored, or the error frame of its error. */
  ghost predicate Answers(c: Call, codecs: seq<bytes>, response: bytes) {
    if c.segment == GETSEGMENTS then
      exists keys :: Enumerates(keys, c.world.load(0).routes) && KeysFit(keys)
                     && response == Response(c.clrid, SegmentsPayload(keys))
    else if c.segment == GETCODECS then
      |Join(codecs)| < U32_SIZE && response == Response(c.clrid, SuccessPayload([Field(1, RAW_TYPE, Join(codecs))]))
    else
      exists res, p, k :: Explains(c, res, p, k) && response == Rendered(c.clrid, res)
  }

  /** Hop answers are the multiplexer's, and locally built payloads fit a 32-bit length. */
  ghost predicate WorldOk(w: World, cfg: Config) {
    && AnswersOk(w)
    && (forall s :: s in w.load(0).routes.owner ==> |s| < U32_SIZE)
    && (forall keys :: Enumerates(keys, w.load(0).routes) && KeysFit(keys) ==> |SegmentsPayload(keys)| < U32_SIZE)
    && |Join(cfg.codecs)| < U32_SIZE - 17
  }

  /** Every answer is one response frame under the request's own CLRID. */
  lemma AnswersAreFramed(c: Call, cfg: Config, response: bytes)
    requires WorldOk(c.world, cfg) && Answers(c, cfg.codecs, response)
    ensures ResponseFor(response, c.clrid)
  {
    if c.segment == GETSEGMENTS {
      var keys :| Enumerates(keys, c.world.load(0).routes) && KeysFit(keys)
        && response == Response(c.clrid, SegmentsPayload(keys));
      ResponseFramedIff(c.clrid, SegmentsPayload(keys));
    } else if c.segment == GETCODECS {
      var f := Field(1, RAW_TYPE, Join(cfg.codecs));
      EncodeTwo(f, f);
      assert |SUCCESS| == 7;
      ResponseFramedIff(c.clrid, SuccessPayload([f]));
    } else {
      var res, p, k :| Explains(c, res, p, k) && response == Rendered(c.clrid, res);
      match res
      case Ok(r) => ForwarderSafety.AnswerIsRestored(c, res, p, k);
      case Err(e) => ResponseFramedIff(c.clrid, ErrorPayload(ErrorCode(e)));
    }
  }

  method Respond(r: Request, cfg: Config, w: World) returns (response: bytes)
    requires WorldOk(w, cfg)
    ensures Answers(CallOf(r, cfg, w), cfg.codecs, response)
  {
    var c := CallOf(r, cfg, w);
    var res, visits, passes, steps, keys := Forward(c, cfg.codecs);
    match res
    case Ok(bytes) =>
      response := bytes;
    case Err(e) =>
      response := BuildErrorResponse(c.clrid, ErrorCode(e));
    assert response == Rendered(c.clrid, res);
  }

  // ----- the buffer -----

  /** The stream `whole` has been consumed down to `rest` as `ledger` says, yielding `taken`, no
      frame of which was over the limit. */
  ghost predicate Progress(whole: bytes, rest: bytes, ledger: seq<Piece>, taken: seq<Request>, maxFrame: nat) {
    && Accounts(ledger, whole, rest) && TakenFrames(ledger, whole, rest) == taken
    && forall i :: 0 <= i < |taken| ==> taken[i].info.frameLen <= maxFrame
  }

  /** What was taken ends right before a frame over the limit. */
  ghost predicate StopsAtOversized(taken: seq<Request>, all: seq<Request>, maxFrame: nat) {
    taken < all && all[|taken|].info.frameLen > maxFrame
  }

  lemma ProgressMeans(whole: bytes, rest: bytes, ledger: seq<Piece>, taken: seq<Request>, maxFrame: nat)
    requires Progress(whole, rest, ledger, taken, maxFrame)
    ensures DecodeAll(whole) == taken + DecodeAll(rest)
    ensures taken <= Accepted(DecodeAll(whole), maxFrame)
  {
    LedgerKeepsFrames(ledger, whole, rest);
    AcceptedAppend(taken, DecodeAll(rest), maxFrame);
  }

  lemma TakeStep(whole: bytes, buf: bytes, tail: bytes, ledger: seq<Piece>, taken: seq<Request>, maxFrame: nat)
    requires Progress(whole, buf + tail, ledger, taken, maxFrame)
    requires TryDecode(buf).Frame? && TryDecode(buf).frame.frameLen <= maxFrame
    ensures var f := TryDecode(buf).frame;
            Progress(whole, buf[f.frameLen..] + tail, ledger + [Taken(f.frameLen)],
                     taken + [Request(buf[..f.frameLen], f)], maxFrame)
  {
    var f := TryDecode(buf).frame;
    var rest := buf + tail;
    DecodeStable(buf, tail);
    assert rest[f.frameLen..] == buf[f.frameLen..] + tail && rest[..f.frameLen] == buf[..f.frameLen];
    LedgerAppend(ledger, Taken(f.frameLen), whole, rest);
  }

  lemma RejectStep(whole: bytes, buf: bytes, tail: bytes, ledger: seq<Piece>, taken: seq<Request>, maxFrame: nat)
    requires Progress(whole, buf + tail, ledger, taken, maxFrame) && TryDecode(buf).Bad?
    ensures Progress(whole, buf[1..] + tail, ledger + [Rejected], taken, maxFrame)
  {
    var rest := buf + tail;
    DecodeStable(buf, tail);
    assert rest[1..] == buf[1..] + tail;
    LedgerAppend(ledger, Rejected, whole, rest);
  }

  lemma SkipStep(whole: bytes, buf: bytes, tail: bytes, ledger: seq<Piece>, taken: seq<Request>, maxFrame: nat, n: nat)
    requires Progress(whole, buf + tail, ledger, taken, maxFrame) && n <= |buf| && ROUTER_MAGIC !in buf[..n]
    ensures Progress(whole, buf[n..] + tail, ledger + [Skipped(n)], taken, maxFrame)
  {
    var rest := buf + tail;
    assert rest[n..] == buf[n..] + tail && rest[..n] == buf[..n];
    LedgerAppend(ledger, Skipped(n), whole, rest);
  }

  /** Bad bytes at the front: drop one, then everything up to the next magic byte. Without one,
      keep a short window and wait. */
  method Resync(buf0: bytes, ghost whole: bytes, ghost tail: bytes, ghost ledger0: seq<Piece>,
                ghost taken: seq<Request>, ghost maxFrame: nat)
    returns (buf: bytes, again: bool, ghost ledger: seq<Piece>)
    requires Progress(whole, buf0 + tail, ledger0, taken, maxFrame) && TryDecode(buf0).Bad?
    ensures Progress(whole, buf + tail, ledger, taken, maxFrame) && |buf| < |buf0|
    ensures !again ==> DecodeAll(buf) == [] && ROUTER_MAGIC !in buf
  {
    RejectStep(whole, buf0, tail, ledger0, taken, maxFrame);
    buf, ledger := buf0[1..], ledger0 + [Rejected];
    match FindNextRouterMagic(buf, 0)
    case Some(pos) =>
      if pos > 0 {
        SkipStep(whole, buf, tail, ledger, taken, maxFrame, pos);
        buf, ledger := buf[pos..], ledger + [Skipped(pos)];
      }
      again := true;
    case None =>
      assert buf[0..] == buf;
      if |buf| > 64 {
        var keep := if 8 < |buf| then 8 else |buf|;
        var start := |buf| - keep;
        assert forall b :: b in buf[..start] ==> b in buf;
        assert forall b :: b in buf[start..] ==> b in buf;
        SkipStep(whole, buf, tail, ledger, taken, maxFrame, start);
        buf, ledger := buf[start..], ledger + [Skipped(start)];
      }
      GarbageYieldsNothing(buf);
      again := false;
  }

  // ----- the connection -----

  function Unless(r: Request, segment: bytes): seq<Request> {
    if r.info.segment == segment then [] else [r]
  }

  /** The requests for other segments than the given one. */
  function Except(rs: seq<Request>, segment: bytes): seq<Request> {
    if rs == [] then [] else Unless(rs[0], segment) + Except(rs[1..], segment)
  }

  /** The frames that are answered: all but keepalives. */
  function Real(rs: seq<Request>): seq<Request> { Except(rs, KEEPALIVE) }

  lemma {:induction false} ExceptSnoc(rs: seq<Request>, r: Request, segment: bytes)
    ensures Except(rs + [r], segment) == Except(rs, segment) + Unless(r, segment)
  {
    var all := rs + [r];
    if rs == [] {
      assert all == [r] && all[1..] == [];
    } else {
      assert all[0] == rs[0] && all[1..] == rs[1..] + [r];
      ExceptSnoc(rs[1..], r, segment);
      Prepended(Unless(rs[0], segment), Except(rs[1..], segment), Unless(r, segment));
    }
  }

  /** The first responses answer the first requests, in order. */
  ghost predicate Answered(requests: seq<Request>, responses: seq<bytes>, cfg: Config, worlds: nat -> World) {
    && |responses| <= |requests|
    && forall i :: 0 <= i < |responses| ==> Answers(CallOf(requests[i], cfg, worlds(i)), cfg.codecs, responses[i])
  }

  lemma AnsweredSnoc(requests: seq<Request>, responses: seq<bytes>, r: Request, response: bytes,
                     cfg: Config, worlds: nat -> World)
    requires Answered(requests, responses, cfg, worlds) && |responses| == |requests|
    ensures Answered(requests + [r], responses, cfg, worlds)
    ensures Answers(CallOf(r, cfg, worlds(|responses|)), cfg.codecs, response) ==>
              Answered(requests + [r], responses + [response], cfg, worlds)
  {
    forall i | 0 <= i < |responses|
      ensures Answers(CallOf((requests + [r])[i], cfg, worlds(i)), cfg.codecs, (responses + [response])[i])
    {
      assert (requests + [r])[i] == requests[i] && (responses + [response])[i] == responses[i];
    }
  }

  /** The first `k` responses could be written. */
  ghost predicate NoneFailed(k: nat, writeFails: nat -> bool) {
    forall n :: 0 <= n < k ==> !writeFails(n)
  }

  /** Every request taken so far has been answered, and the answers are what was written. */
  ghost predicate Served(taken: seq<Request>, responses: seq<bytes>, written: bytes, cfg: Config,
                         writeFails: nat -> bool, worlds: nat -> World)
  {
    && Answered(Real(taken), responses, cfg, worlds) && |responses| == |Real(taken)|
    && written == Flatten(responses) && NoneFailed(|responses|, writeFails)
  }

  /** The same, but for the last request, whose response could not be written. */
  ghost predicate Unsent(taken: seq<Request>, responses: seq<bytes>, written: bytes, cfg: Config,
                         writeFails: nat -> bool, worlds: nat -> World)
  {
    && Answered(Real(taken), responses, cfg, worlds) && |responses| == |Real(taken)| - 1
    && written == Flatten(responses) && NoneFailed(|responses|, writeFails) && writeFails(|responses|)
  }

  lemma OneMoreWritten(k: nat, writeFails: nat -> bool)
    requires NoneFailed(k, writeFails) && !writeFails(k)
    ensures NoneFailed(k + 1, writeFails)
  {
  }

  lemma ServedSnoc(taken: seq<Request>, r: Request, responses: seq<bytes>, response: bytes, written: bytes, cfg: Config,
                   writeFails: nat -> bool, worlds: nat -> World)
    requires Served(taken, responses, written, cfg, writeFails, worlds) && r.info.segment != KEEPALIVE
    requires Answered(Real(taken) + [r], responses, cfg, worlds)
    requires Answered(Real(taken) + [r], responses + [response], cfg, worlds)
    ensures if writeFails(|responses|) then Unsent(taken + [r], responses, written, cfg, writeFails, worlds)
            else Served(taken + [r], responses + [response], written + response, cfg, writeFails, worlds)
  {
    ExceptSnoc(taken, r, KEEPALIVE);
    assert Real(taken + [r]) == Real(taken) + [r];
    FlattenSnoc(responses, response);
    if !writeFails(|responses|) {
      OneMoreWritten(|responses|, writeFails);
    }
  }

  /** One taken frame: keepalives are only activity, requests get one response. */
  method Serve(r: Request, ghost taken: seq<Request>, responses0: seq<bytes>, written0: bytes, cfg: Config,
               writeFails: nat -> bool, worlds: nat -> World)
    returns (responses: seq<bytes>, written: bytes, failed: bool)
    requires (forall n: nat :: WorldOk(worlds(n), cfg)) && Served(taken, responses0, written0, cfg, writeFails, worlds)
    ensures if failed then Unsent(taken + [r], responses, written, cfg, writeFails, worlds)
            else Served(taken + [r], responses, written, cfg, writeFails, worlds)
  {
    responses, written, failed := responses0, written0, false;
    if r.info.segment == KEEPALIVE {
      ExceptSnoc(taken, r, KEEPALIVE);
      assert Real(taken + [r]) == Real(taken);
      return;
    }
    var n := |responses|;
    var response := Respond(r, cfg, worlds(n));
    AnsweredSnoc(Real(taken), responses, r, response, cfg, worlds);
    ServedSnoc(taken, r, responses, response, written, cfg, writeFails, worlds);
    if writeFails(n) {
      failed := true;
      return;
    }
    responses, written := responses + [response], written + response;
  }

  /** Works the buffer off frame by frame. `stop` ends the connection; otherwise what is left holds
      no frame yet. */
  method ProcessBuffer(buf0: bytes, ghost whole: bytes, ghost tail: bytes, ghost ledger0: seq<Piece>,
                       taken0: seq<Request>, responses0: seq<bytes>, written0: bytes, stalled: bool,
                       cfg: Config, writeFails: nat -> bool, worlds: nat -> World)
    returns (buf: bytes, ghost ledger: seq<Piece>, taken: seq<Request>, responses: seq<bytes>, written: bytes,
             stop: Option<Outcome>)
    requires forall n: nat :: WorldOk(worlds(n), cfg)
    requires Progress(whole, buf0 + tail, ledger0, taken0, cfg.maxFrame)
    requires Served(taken0, responses0, written0, cfg, writeFails, worlds)
    ensures Progress(whole, buf + tail, ledger, taken, cfg.maxFrame)
    ensures if stop == Some(WriteFailed) then Unsent(taken, responses, written, cfg, writeFails, worlds)
            else Served(taken, responses, written, cfg, writeFails, worlds)
    ensures stop == None ==> DecodeAll(buf) == []
    ensures stop == Some(FrameTooLarge) ==> TryDecode(buf).Frame? && TryDecode(buf).frame.frameLen > cfg.maxFrame
    ensures stop == Some(BufferOverflow) <==> |buf0| > cfg.maxBuffer
    ensures stop == Some(BufferOverflow) ==> buf == buf0
    ensures stop == Some(FrameTimeout) ==> stalled && TryDecode(buf) == NeedMore
    ensures stop == None && stalled ==> ROUTER_MAGIC !in buf
    ensures stop != Some(EndOfInput) && |buf| <= |buf0|
  {
    buf, ledger, taken, responses, written, stop := buf0, ledger0, taken0, responses0, written0, None;
    var reading := true;
    while reading
      invariant Progress(whole, buf + tail, ledger, taken, cfg.maxFrame)
      invariant !reading ==> DecodeAll(buf) == [] && (stalled ==> ROUTER_MAGIC !in buf)
      invariant |buf| <= |buf0| && stop == None
      invariant (buf == buf0 && reading) || |buf0| <= cfg.maxBuffer
      invariant Served(taken, responses, written, cfg, writeFails, worlds)
      decreases |buf|, reading
    {
      if |buf| > cfg.maxBuffer {
        stop := Some(BufferOverflow);
        return;
      }
      match TryDecode(buf)
      case NeedMore =>
        if stalled {
          stop := Some(FrameTimeout);
          return;
        }
        reading := false;
      case Frame(f) =>
        if f.frameLen > cfg.maxFrame {
          stop := Some(FrameTooLarge);
          return;
        }
        var r := Request(buf[..f.frameLen], f);
        TakeStep(whole, buf, tail, ledger, taken, cfg.maxFrame);
        var failed;
        responses, written, failed := Serve(r, taken, responses, written, cfg, writeFails, worlds);
        buf, ledger, taken := buf[f.frameLen..], ledger + [Taken(f.frameLen)], taken + [r];
        if failed {
          stop := Some(WriteFailed);
          return;
        }
      case Bad(_) =>
        buf, reading, ledger := Resync(buf, whole, tail, ledger, taken, cfg.maxFrame);
    }
  }

  /** What only the proofs keep of a connection: the pieces its stream was cut into, how many
      chunks were read, what the buffer held in the end, what it held before the last chunk, and
      all that was not consumed. */
  datatype Log = Log(ledger: seq<Piece>, read: nat, held: bytes, waiting: bytes, rest: bytes)

  /** A connection that was sent `chunks`, took these requests, and ended this way. */
  ghost predicate Ran(chunks: seq<bytes>, maxBuffer: nat, maxFrame: nat, stalls: nat -> bool,
                      taken: seq<Request>, outcome: Outcome, log: Log)
  {
    var whole := Flatten(chunks);
    // every byte is accounted for, and what was taken is what a one-shot reading accepts
    && log.read <= |chunks| && log.rest == log.held + Flatten(chunks[log.read..])
    && Progress(whole, log.rest, log.ledger, taken, maxFrame)
    && taken <= Accepted(DecodeAll(whole), maxFrame)
    // the connection ends early only for its reason
    && (outcome.EndOfInput? ==> log.read == |chunks| && taken == DecodeAll(whole) && |log.held| <= maxBuffer)
    && (outcome.FrameTooLarge? ==> StopsAtOversized(taken, DecodeAll(whole), maxFrame))
    && (outcome.FrameTimeout? ==> log.read > 0 && stalls(log.read - 1) && TryDecode(log.held) == NeedMore)
    // an overflow means that an unfinished piece and the chunk after it do not fit together
    && (outcome.BufferOverflow? ==>
          && log.read > 0 && DecodeAll(log.waiting) == []
          && log.held == log.waiting + chunks[log.read - 1] && |log.held| > maxBuffer)
  }

  /** The whole life of a client connection. The stream arrives as `chunks`; `stalls` says whether
      the frame timeout has run out at a wait, `writeFails` whether the n-th response cannot be
      written, `worlds` what the n-th forwarded request meets. */
  method HandleConnection(chunks: seq<bytes>, cfg: Config, stalls: nat -> bool, writeFails: nat -> bool,
                          worlds: nat -> World)
    returns (taken: seq<Request>, responses: seq<bytes>, written: bytes, outcome: Outcome, ghost log: Log)
    requires forall n: nat :: WorldOk(worlds(n), cfg)
    ensures Ran(chunks, cfg.maxBuffer, cfg.maxFrame, stalls, taken, outcome, log)
    ensures if outcome.WriteFailed? then Unsent(taken, responses, written, cfg, writeFails, worlds)
            else Served(taken, responses, written, cfg, writeFails, worlds)
  {
    ghost var whole := Flatten(chunks);
    taken, responses, written := [], [], [];
    var buf: bytes := [];
    ghost var ledger: seq<Piece> := [];
    NothingConsumed(chunks, cfg.maxFrame);
    for k := 0 to |chunks|
      invariant Progress(whole, Pending(buf, chunks, k), ledger, taken, cfg.maxFrame)
      invariant DecodeAll(buf) == [] && |buf| <= cfg.maxBuffer
      invariant Served(taken, responses, written, cfg, writeFails, worlds)
    {
      ghost var waiting, tail := buf, Flatten(chunks[k + 1..]);
      ChunkRead(buf, chunks, k);
      var stop;
      buf, ledger, taken, responses, written, stop :=
        ProcessBuffer(buf + chunks[k], whole, tail, ledger, taken, responses, written, stalls(k), cfg, writeFails,
                      worlds);
      if stop.Some? {
        outcome, log := stop.value, Log(ledger, k + 1, buf, waiting, buf + tail);
        StoppedEarly(chunks, cfg.maxBuffer, cfg.maxFrame, stalls, taken, outcome, log);
        return;
      }
    }
    AllRead(buf, chunks);
    outcome, log := EndOfInput, Log(ledger, |chunks|, buf, [], buf);
    StoppedAtEnd(chunks, cfg.maxBuffer, cfg.maxFrame, stalls, taken, log);
  }

  lemma StoppedEarly(chunks: seq<bytes>, maxBuffer: nat, maxFrame: nat, stalls: nat -> bool,
                     taken: seq<Request>, outcome: Outcome, log: Log)
    requires 0 < log.read <= |chunks| && log.rest == log.held + Flatten(chunks[log.read..]) && outcome != EndOfInput
    requires Progress(Flatten(chunks), log.rest, log.ledger, taken, maxFrame)
    requires outcome.FrameTooLarge? ==> TryDecode(log.held).Frame? && TryDecode(log.held).frame.frameLen > maxFrame
    requires outcome.FrameTimeout? ==> stalls(log.read - 1) && TryDecode(log.held) == NeedMore
    requires outcome.BufferOverflow? ==>
               DecodeAll(log.waiting) == [] && log.held == log.waiting + chunks[log.read - 1] && |log.held| > maxBuffer
    ensures Ran(chunks, maxBuffer, maxFrame, stalls, taken, outcome, log)
  {
    ProgressMeans(Flatten(chunks), log.rest, log.ledger, taken, maxFrame);
    if outcome.FrameTooLarge? {
      OversizedStops(log.held, Flatten(chunks[log.read..]), taken, Flatten(chunks), maxFrame);
    }
  }

  lemma StoppedAtEnd(chunks: seq<bytes>, maxBuffer: nat, maxFrame: nat, stalls: nat -> bool, taken: seq<Request>,
                     log: Log)
    requires log.read == |chunks| && log.rest == log.held && |log.held| <= maxBuffer && DecodeAll(log.held) == []
    requires Progress(Flatten(chunks), log.rest, log.ledger, taken, maxFrame)
    ensures Ran(chunks, maxBuffer, maxFrame, stalls, taken, EndOfInput, log)
  {
    AllRead(log.held, chunks);
    ProgressMeans(Flatten(chunks), log.rest, log.ledger, taken, maxFrame);
  }

  lemma NothingConsumed(chunks: seq<bytes>, maxFrame: nat)
    ensures Progress(Flatten(chunks), Pending([], chunks, 0), [], [], maxFrame)
    ensures DecodeAll([]) == []
  {
    assert chunks[0..] == chunks && Pending([], chunks, 0) == Flatten(chunks);
  }

  lemma ChunkRead(buf: bytes, chunks: seq<bytes>, k: nat)
    requires k < |chunks|
    ensures Pending(buf, chunks, k) == buf + chunks[k] + Flatten(chunks[k + 1..])
  {
    assert chunks[k..][0] == chunks[k] && chunks[k..][1..] == chunks[k + 1..];
    ConcatAssoc(buf, chunks[k], Flatten(chunks[k + 1..]));
  }

  lemma AllRead(buf: bytes, chunks: seq<bytes>)
    ensures Pending(buf, chunks, |chunks|) == buf
  {
    assert chunks[|chunks|..] == [];
  }

  lemma OversizedStops(buf: bytes, tail: bytes, taken: seq<Request>, whole: bytes, maxFrame: nat)
    requires TryDecode(buf).Frame? && TryDecode(buf).frame.frameLen > maxFrame
    requires DecodeAll(whole) == taken + DecodeAll(buf + tail)
    ensures StopsAtOversized(taken, DecodeAll(whole), maxFrame)
  {
    DecodeStable(buf, tail);
    var rest := DecodeAll(buf + tail);
    assert rest != [] && rest[0].info == TryDecode(buf).frame;
    assert (taken + rest)[|taken|] == rest[0];
  }
}
