/** The router frame: its decoder, its encoders, and the language they share. */
module Protocol {
  import opened Bytes
  import opened ShardStream
  import Utf8

  const ROUTER_MAGIC: byte := 0xFE
  const MAX_TOTAL_LEN := 16 * 1024 * 1024

  /** The segment name that marks a frame as a keepalive. */
  const KEEPALIVE: bytes := Ascii("__keepalive__")

  datatype RouterFrame = RouterFrame(
    segment: bytes, isWrite: bool, clridOffset: nat, clrid: u32, frameLen: nat)

  datatype ParseError =
    | BadMagic | TooLarge | TotalLenTooSmall | SegmentOutOfRange | NotUtf8 | MissingShardMagic

  datatype Decoded = NeedMore | Frame(frame: RouterFrame) | Bad(error: ParseError)

  function TryDecode(buf: bytes): (d: Decoded)
    ensures d.Frame? ==> 0 < d.frame.frameLen <= |buf| && d.frame.clridOffset + 8 <= d.frame.frameLen
    ensures d.Bad? ==> |buf| >= 5
  {
    if |buf| < 5 then NeedMore
    else if buf[0] != ROUTER_MAGIC then Bad(BadMagic)
    else
      var totalLen := FromLe32(buf[1..5]);
      var frameLen := 5 + totalLen;
      if totalLen > MAX_TOTAL_LEN then Bad(TooLarge)
      else if |buf| < frameLen then NeedMore
      else if totalLen < 2 then Bad(TotalLenTooSmall)
      else
        var writePos := 6 + buf[5] as int;
        if writePos >= frameLen then Bad(SegmentOutOfRange)
        else if !Utf8.Valid(buf[6..writePos]) then Bad(NotUtf8)
        else
          var shardStart := writePos + 1;
          if shardStart + 9 > frameLen || buf[shardStart] != SHARD_MAGIC then Bad(MissingShardMagic)
          else
            Frame(RouterFrame(buf[6..writePos], buf[writePos] == 1, shardStart + 1,
                              FromLe32(buf[shardStart + 1..shardStart + 5]), frameLen))
  }

  /** When the decoder waits, on the bytes alone: the header is incomplete, or it announces an
      acceptable length that is not there yet. */
  lemma NeedMoreIff(buf: bytes)
    ensures TryDecode(buf) == NeedMore <==>
              || |buf| < 5
              || (buf[0] == 0xFE && FromLe32(buf[1..5]) <= 16777216 && |buf| < 5 + FromLe32(buf[1..5]))
  {
  }

  /** Every verdict but "need more" is final: later bytes cannot change it. */
  lemma DecodeStable(buf: bytes, more: bytes)
    requires TryDecode(buf) != NeedMore
    ensures TryDecode(buf + more) == TryDecode(buf)
  {
    var all := buf + more;
    assert all[1..5] == buf[1..5];
    if buf[0] == ROUTER_MAGIC && FromLe32(buf[1..5]) <= MAX_TOTAL_LEN && FromLe32(buf[1..5]) >= 2 {
      var w := 6 + buf[5] as int;
      if w < 5 + FromLe32(buf[1..5]) {
        assert all[6..w] == buf[6..w];
        if w + 10 <= 5 + FromLe32(buf[1..5]) {
          assert all[w + 2..w + 6] == buf[w + 2..w + 6];
        }
      }
    }
  }

  /** The layout of a router frame: any flag byte, and whatever follows the CLRID. */
  function RawFrame(segment: bytes, flag: byte, clrid: u32, tail: bytes): (r: bytes)
    requires RawOk(segment, tail)
    ensures |r| == 12 + |segment| + |tail|
  {
    [ROUTER_MAGIC] + Le32(7 + |segment| + |tail|) + [|segment|] + segment
    + [flag, SHARD_MAGIC] + Le32(clrid) + tail
  }

  /** The sizes a decodable frame may have; the tail holds at least a 4-byte length. */
  predicate RawOk(segment: bytes, tail: bytes) {
    |segment| <= 255 && |tail| >= 4 && 7 + |segment| + |tail| <= MAX_TOTAL_LEN
  }

  /** The parts of a frame at their positions. */
  predicate LaidOut(r: bytes, segment: bytes, flag: byte, clrid: u32, tail: bytes)
    requires RawOk(segment, tail)
  {
    var n := |segment|;
    && |r| == 12 + n + |tail|
    && r[0] == 0xFE && r[1..5] == Le32(7 + n + |tail|) && r[5] as int == n
    && r[6..6 + n] == segment && r[6 + n] == flag && r[7 + n] == 0xFF
    && r[8 + n..12 + n] == Le32(clrid) && r[12 + n..] == tail
  }

  lemma RawLayout(segment: bytes, flag: byte, clrid: u32, tail: bytes)
    requires RawOk(segment, tail)
    ensures LaidOut(RawFrame(segment, flag, clrid, tail), segment, flag, clrid, tail)
  {
    var n := |segment|;
    var head := [ROUTER_MAGIC] + Le32(7 + n + |tail|) + [n];
    var mid := [flag, SHARD_MAGIC];
    assert |head| == 6;
    assert RawFrame(segment, flag, clrid, tail) == head + segment + mid + Le32(clrid) + tail;
  }

  /** Decoding, read off the positions of the parts. */
  lemma DecodeParts(r: bytes, segment: bytes, flag: byte, clrid: u32, tail: bytes)
    requires RawOk(segment, tail) && LaidOut(r, segment, flag, clrid, tail) && Utf8.Valid(segment)
    ensures TryDecode(r) == Frame(RouterFrame(segment, flag == 1, 8 + |segment|, clrid, 12 + |segment| + |tail|))
  {
    var n := |segment|;
    assert FromLe32(r[1..5]) == 7 + n + |tail| && FromLe32(r[8 + n..12 + n]) == clrid;
  }

  /** A laid-out frame by itself decodes to its parts. */
  lemma DecodeLaidOut(segment: bytes, flag: byte, clrid: u32, tail: bytes)
    requires RawOk(segment, tail) && Utf8.Valid(segment)
    ensures TryDecode(RawFrame(segment, flag, clrid, tail))
         == Frame(RouterFrame(segment, flag == 1, 8 + |segment|, clrid, 12 + |segment| + |tail|))
  {
    RawLayout(segment, flag, clrid, tail);
    DecodeParts(RawFrame(segment, flag, clrid, tail), segment, flag, clrid, tail);
  }

  /** Round trip: a laid-out frame followed by anything decodes to its parts and its own length. */
  lemma DecodeRaw(segment: bytes, flag: byte, clrid: u32, tail: bytes, rest: bytes)
    requires RawOk(segment, tail) && Utf8.Valid(segment)
    ensures TryDecode(RawFrame(segment, flag, clrid, tail) + rest)
         == Frame(RouterFrame(segment, flag == 1, 8 + |segment|, clrid, 12 + |segment| + |tail|))
  {
    DecodeLaidOut(segment, flag, clrid, tail);
    DecodeStable(RawFrame(segment, flag, clrid, tail), rest);
  }

  lemma SplitAtParts(buf: bytes, n: nat, len: nat)
    requires 12 + n <= len <= |buf|
    ensures buf[..len] == [buf[0]] + buf[1..5] + [buf[5]] + buf[6..6 + n] + [buf[6 + n], buf[7 + n]]
                          + buf[8 + n..12 + n] + buf[12 + n..len]
  {
  }

  /** Conversely, what the decoder accepts is a laid-out frame with exactly the parts it reports. */
  lemma DecodedIsRaw(buf: bytes)
    requires TryDecode(buf).Frame?
    ensures var f := TryDecode(buf).frame; var n := |f.segment|;
            && f.clridOffset == 8 + n && 12 + n <= f.frameLen
            && RawOk(f.segment, buf[12 + n..f.frameLen]) && Utf8.Valid(f.segment)
            && f.isWrite == (buf[6 + n] == 1)
            && buf[..f.frameLen] == RawFrame(f.segment, buf[6 + n], f.clrid, buf[12 + n..f.frameLen])
  {
    var f := TryDecode(buf).frame;
    var n := |f.segment|;
    var tail := buf[12 + n..f.frameLen];
    assert n == buf[5] as int;
    assert f.frameLen == 12 + n + |tail|;
    Le32OfFromLe32(buf[1..5]);
    Le32OfFromLe32(buf[8 + n..12 + n]);
    SplitAtParts(buf, n, f.frameLen);
  }

  /** `buf` starts with a laid-out frame that `f` describes. */
  predicate StartsWithFrame(buf: bytes, f: RouterFrame, flag: byte, tail: bytes) {
    && RawOk(f.segment, tail) && Utf8.Valid(f.segment)
    && f.clridOffset == 8 + |f.segment| && f.isWrite == (flag == 1)
    && f.frameLen == 12 + |f.segment| + |tail| && f.frameLen <= |buf|
    && buf[..f.frameLen] == RawFrame(f.segment, flag, f.clrid, tail)
  }

  lemma FrameInFront(buf: bytes, f: RouterFrame, flag: byte, tail: bytes)
    requires StartsWithFrame(buf, f, flag, tail)
    ensures TryDecode(buf) == Frame(f)
  {
    DecodeRaw(f.segment, flag, f.clrid, tail, buf[f.frameLen..]);
    assert buf == buf[..f.frameLen] + buf[f.frameLen..];
  }

  /** The accepted language, exactly. */
  lemma DecodesIff(buf: bytes, f: RouterFrame)
    ensures TryDecode(buf) == Frame(f) <==> exists flag: byte, tail: bytes :: StartsWithFrame(buf, f, flag, tail)
  {
    if TryDecode(buf) == Frame(f) {
      DecodedIsRaw(buf);
      assert StartsWithFrame(buf, f, buf[6 + |f.segment|], buf[12 + |f.segment|..f.frameLen]);
    }
    if flag: byte, tail: bytes :| StartsWithFrame(buf, f, flag, tail) {
      FrameInFront(buf, f, flag, tail);
    }
  }

  /** Self-delimitation: no strict prefix of a frame is a frame, or an error. */
  lemma PrefixNeedsMore(segment: bytes, flag: byte, clrid: u32, tail: bytes, k: nat)
    requires RawOk(segment, tail)
    requires k < |RawFrame(segment, flag, clrid, tail)|
    ensures TryDecode(RawFrame(segment, flag, clrid, tail)[..k]) == NeedMore
  {
    RawLayout(segment, flag, clrid, tail);
    var r := RawFrame(segment, flag, clrid, tail);
    if k >= 5 {
      assert r[..k][1..5] == r[1..5];
    }
  }

  // ----- encoders -----

  /** The client's frame: after the CLRID come the payload's length and the payload. */
  function EncodeRequest(segment: bytes, isWrite: bool, clrid: u32, payload: bytes): bytes
    requires EncodeOk(segment, payload)
  {
    RawFrame(segment, if isWrite then 1 else 0, clrid, Le32(|payload|) + payload)
  }

  predicate EncodeOk(segment: bytes, payload: bytes) {
    |segment| <= 255 && Utf8.Valid(segment) && 11 + |segment| + |payload| <= MAX_TOTAL_LEN
  }

  lemma PushesBuildRaw(segment: bytes, flag: byte, clrid: u32, tail: bytes)
    requires RawOk(segment, tail)
    ensures [ROUTER_MAGIC] + Le32(7 + |segment| + |tail|) + [|segment|] + segment + [flag] + [SHARD_MAGIC]
            + Le32(clrid) + tail == RawFrame(segment, flag, clrid, tail)
  {
  }

  method PrependRouterHeader(segment: bytes, isWrite: bool, clrid: u32, payload: bytes) returns (out: bytes)
    requires EncodeOk(segment, payload)
    ensures out == EncodeRequest(segment, isWrite, clrid, payload)
  {
    var shardFrameLen := 9 + |payload|;
    var routerHeaderLen := 1 + |segment| + 1;
    out := [ROUTER_MAGIC];
    out := out + Le32(routerHeaderLen + shardFrameLen);
    out := out + [|segment|];
    out := out + segment;
    out := out + [if isWrite then 1 else 0];
    out := out + [SHARD_MAGIC];
    out := out + Le32(clrid);
    ghost var head := out;
    out := out + Le32(|payload|);
    out := out + payload;
    assert out == head + (Le32(|payload|) + payload);
    PushesBuildRaw(segment, if isWrite then 1 else 0, clrid, Le32(|payload|) + payload);
  }

  /** What the client encodes, the router decodes, whatever follows on the stream. */
  lemma EncodeDecodes(segment: bytes, isWrite: bool, clrid: u32, payload: bytes, rest: bytes)
    requires EncodeOk(segment, payload)
    ensures var r := EncodeRequest(segment, isWrite, clrid, payload);
            && TryDecode(r + rest) == Frame(RouterFrame(segment, isWrite, 8 + |segment|, clrid, |r|))
            && r[12 + |segment|..] == Le32(|payload|) + payload
  {
    DecodeRaw(segment, if isWrite then 1 else 0, clrid, Le32(|payload|) + payload, rest);
    RawLayout(segment, if isWrite then 1 else 0, clrid, Le32(|payload|) + payload);
  }

  /** The keepalive layout: the control segment, not a write, and a zero length behind the CLRID. */
  lemma KeepaliveDecodes(clrid: u32)
    ensures RawOk(KEEPALIVE, NO_PAYLOAD) && |KEEPALIVE| == 13
    ensures TryDecode(RawFrame(KEEPALIVE, 0, clrid, NO_PAYLOAD)) == Frame(RouterFrame(KEEPALIVE, false, 21, clrid, 29))
    ensures |RawFrame(KEEPALIVE, 0, clrid, NO_PAYLOAD)| == 29
  {
    Utf8.AsciiIsValid(KEEPALIVE);
    DecodeLaidOut(KEEPALIVE, 0, clrid, NO_PAYLOAD);
  }

  const NO_PAYLOAD: bytes := [0, 0, 0, 0]

  /** The pushes of a frame for a control segment. */
  method PushControlFrame(segment: bytes, clrid: u32) returns (buf: bytes)
    requires RawOk(segment, NO_PAYLOAD)
    ensures buf == RawFrame(segment, 0, clrid, NO_PAYLOAD)
  {
    var segLen := |segment|;
    var totalLen := 1 + segLen + 1 + 9;
    buf := [ROUTER_MAGIC];
    buf := buf + Le32(totalLen);
    buf := buf + [segLen];
    buf := buf + segment;
    buf := buf + [0];
    buf := buf + [SHARD_MAGIC];
    buf := buf + Le32(clrid);
    buf := buf + NO_PAYLOAD;
    PushesBuildRaw(segment, 0, clrid, NO_PAYLOAD);
  }

  /** A keepalive frame decodes as the control segment, not a write, and always whole. */
  method BuildKeepaliveFrame(clrid: u32) returns (buf: bytes)
    ensures buf == RawFrame(KEEPALIVE, 0, clrid, NO_PAYLOAD)
    ensures TryDecode(buf) == Frame(RouterFrame(KEEPALIVE, false, 21, clrid, |buf|))
  {
    KeepaliveDecodes(clrid);
    buf := PushControlFrame(KEEPALIVE, clrid);
  }

  function FindNextRouterMagic(buf: bytes, from: nat): (r: Option<nat>)
    requires from <= |buf|
    ensures r.Some? ==> from <= r.value < |buf| && buf[r.value] == ROUTER_MAGIC && ROUTER_MAGIC !in buf[from..r.value]
    ensures r.None? ==> ROUTER_MAGIC !in buf[from..]
    decreases |buf| - from
  {
    if from == |buf| then None
    else if buf[from] == ROUTER_MAGIC then Some(from)
    else FindNextRouterMagic(buf, from + 1)
  }
}
