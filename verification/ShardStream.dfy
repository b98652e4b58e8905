/** The response side of the wire: 0xFF, CLRID, payload length, payload. */
module ShardStream {
  import opened Bytes

  const SHARD_MAGIC: byte := 0xFF

  /** Exactly one response frame. */
  predicate WholeResponse(f: bytes) {
    |f| >= 9 && f[0] == SHARD_MAGIC && |f| == 9 + FromLe32(f[5..9])
  }

  /** A response frame carrying a given correlation id. */
  predicate ResponseFor(f: bytes, id: u32) {
    WholeResponse(f) && FromLe32(f[1..5]) == id
  }

  /** The reader's cutting rule, on a whole stream: slide over bytes that are not a magic,
      otherwise cut `9 + payload_len` bytes. */
  function CutAll(s: bytes): seq<bytes>
    decreases |s|
  {
    if |s| < 9 then []
    else if s[0] != SHARD_MAGIC then CutAll(s[1..])
    else
      var len := 9 + FromLe32(s[5..9]);
      if |s| < len then [] else [s[..len]] + CutAll(s[len..])
  }

  /** Everything the reader cuts is a whole response. */
  lemma {:induction false} CutsAreWhole(s: bytes)
    ensures forall i :: 0 <= i < |CutAll(s)| ==> WholeResponse(CutAll(s)[i])
    decreases |s|
  {
    if |s| < 9 {
    } else {
      if s[0] != SHARD_MAGIC {
        CutsAreWhole(s[1..]);
      } else {
        var len := 9 + FromLe32(s[5..9]);
        if |s| >= len {
          assert s[..len][5..9] == s[5..9];
          CutsAreWhole(s[len..]);
        }
      }
    }
  }

  lemma CutFirst(f: bytes, rest: bytes)
    requires WholeResponse(f)
    ensures CutAll(f + rest) == [f] + CutAll(rest)
  {
  }

  /** Bytes without a response magic are passed over, whatever follows. */
  lemma {:induction false} SlidesOverGarbage(garbage: bytes, s: bytes)
    requires 0xFF !in garbage
    ensures CutAll(garbage + s) == CutAll(s)
    decreases |garbage|
  {
    if garbage == [] {
      assert garbage + s == s;
    } else {
      assert garbage[0] in garbage && forall b :: b in garbage[1..] ==> b in garbage;
      assert (garbage + s)[1..] == garbage[1..] + s;
      SlidesOverGarbage(garbage[1..], s);
    }
  }

  /** A stream of whole responses is cut back into exactly those responses: none is skipped,
      split or merged. */
  lemma {:induction false} CutsAreInverse(rs: seq<bytes>)
    requires forall i :: 0 <= i < |rs| ==> WholeResponse(rs[i])
    ensures CutAll(Flatten(rs)) == rs
  {
    if rs == [] {
    } else {
      assert WholeResponse(rs[0]);
      CutsAreInverse(rs[1..]);
      CutFirst(rs[0], Flatten(rs[1..]));
    }
  }

  /** Putting another id into bytes 1..5 keeps the framing and changes nothing else. */
  lemma RestampKeepsFraming(f: bytes, id: u32)
    requires WholeResponse(f)
    ensures ResponseFor(Patch(f, 1, Le32(id)), id)
    ensures Patch(f, 1, Le32(id))[5..] == f[5..] && |Patch(f, 1, Le32(id))| == |f|
  {
  }

  /** One inner read of the reader task: `buf` grows by chunks until `need` bytes are there. */
  method FillTo(need: nat, chunks: seq<bytes>, buf0: bytes, at0: nat) returns (buf: bytes, at: nat)
    requires at0 <= |chunks|
    ensures at0 <= at <= |chunks|
    ensures buf + Flatten(chunks[at..]) == buf0 + Flatten(chunks[at0..])
    ensures |buf| < need ==> at == |chunks|
    ensures |buf| >= |buf0|
  {
    buf, at := buf0, at0;
    while |buf| < need && at < |chunks|
      invariant at0 <= at <= |chunks| && |buf| >= |buf0|
      invariant buf + Flatten(chunks[at..]) == buf0 + Flatten(chunks[at0..])
    {
      assert chunks[at..][0] == chunks[at] && chunks[at..][1..] == chunks[at + 1..];
      assert buf + (chunks[at] + Flatten(chunks[at + 1..])) == (buf + chunks[at]) + Flatten(chunks[at + 1..]);
      buf, at := buf + chunks[at], at + 1;
    }
  }

  /** What the reader has still to see. */
  ghost function Pending(buf: bytes, chunks: seq<bytes>, at: nat): bytes
    requires at <= |chunks|
  {
    buf + Flatten(chunks[at..])
  }

  lemma CutSlide(buf: bytes, rest: bytes)
    requires |buf| >= 9 && buf[0] != SHARD_MAGIC
    ensures CutAll(buf + rest) == CutAll(buf[1..] + rest)
  {
    assert (buf + rest)[1..] == buf[1..] + rest;
  }

  lemma CutOne(buf: bytes, rest: bytes, len: nat)
    requires |buf| >= len >= 9 && buf[0] == SHARD_MAGIC && len == 9 + FromLe32(buf[5..9])
    ensures CutAll(buf + rest) == [buf[..len]] + CutAll(buf[len..] + rest)
  {
    var f := buf[..len];
    assert f[5..9] == buf[5..9];
    assert buf + rest == f + (buf[len..] + rest);
    CutFirst(f, buf[len..] + rest);
  }

  lemma NothingToCut(s: bytes)
    requires |s| < 9 || (s[0] == SHARD_MAGIC && |s| < 9 + FromLe32(s[5..9]))
    ensures CutAll(s) == []
  {
  }

  function Maybe(frame: Option<bytes>): seq<bytes> { if frame.Some? then [frame.value] else [] }

  /** One turn of the reader task: slide by a byte or cut a frame; `eof` when the input ends in it. */
  method ReadTurn(chunks: seq<bytes>, buf0: bytes, at0: nat)
    returns (frame: Option<bytes>, buf: bytes, at: nat, eof: bool)
    requires at0 <= |chunks|
    ensures at <= |chunks|
    ensures CutAll(Pending(buf0, chunks, at0)) == Maybe(frame) + CutAll(Pending(buf, chunks, at))
    ensures eof ==> frame == None && CutAll(Pending(buf, chunks, at)) == []
    ensures !eof ==> |Pending(buf, chunks, at)| < |Pending(buf0, chunks, at0)|
  {
    frame, eof := None, true;
    buf, at := FillTo(9, chunks, buf0, at0);
    if |buf| < 9 {
      assert chunks[at..] == [] && Pending(buf, chunks, at) == buf;
      NothingToCut(buf);
      return;
    }
    if buf[0] != SHARD_MAGIC {
      CutSlide(buf, Flatten(chunks[at..]));
      buf, eof := buf[1..], false;
      return;
    }
    var frameLen := 9 + FromLe32(buf[5..9]);
    ghost var head := buf[..9];
    buf, at := FillMore(frameLen, chunks, buf, at);
    if |buf| < frameLen {
      assert chunks[at..] == [] && Pending(buf, chunks, at) == buf;
      NothingToCut(buf);
      return;
    }
    CutOne(buf, Flatten(chunks[at..]), frameLen);
    frame, buf, eof := Some(buf[..frameLen]), buf[frameLen..], false;
  }

  /** The second inner read: the header already read stays in front. */
  method FillMore(need: nat, chunks: seq<bytes>, buf0: bytes, at0: nat) returns (buf: bytes, at: nat)
    requires at0 <= |chunks| && |buf0| >= 9
    ensures at0 <= at <= |chunks| && |buf| >= 9 && buf[0] == buf0[0] && buf[5..9] == buf0[5..9]
    ensures buf + Flatten(chunks[at..]) == buf0 + Flatten(chunks[at0..])
    ensures |buf| < need ==> at == |chunks|
  {
    buf, at := FillTo(need, chunks, buf0, at0);
    ghost var all := buf0 + Flatten(chunks[at0..]);
    assert all[0] == buf0[0] && all[5..9] == buf0[5..9];
    assert all[0] == buf[0] && all[5..9] == buf[5..9];
  }

  /** The frames handed over so far, with those still to come, are those of the whole stream. */
  ghost predicate HandedOver(frames: seq<bytes>, pending: bytes, whole: bytes) {
    CutAll(whole) == frames + CutAll(pending)
  }

  lemma HandOverStep(frames: seq<bytes>, pending: bytes, whole: bytes, frame: Option<bytes>, pending': bytes)
    requires HandedOver(frames, pending, whole) && CutAll(pending) == Maybe(frame) + CutAll(pending')
    ensures HandedOver(frames + Maybe(frame), pending', whole)
  {
    assert frames + (Maybe(frame) + CutAll(pending')) == frames + Maybe(frame) + CutAll(pending');
  }

  /** The reader task, up to end of file: whatever the chunks, the frames handed to the demux
      are the ones the whole stream holds. */
  method ReadResponses(chunks: seq<bytes>) returns (frames: seq<bytes>)
    ensures frames == CutAll(Flatten(chunks))
    ensures forall i :: 0 <= i < |frames| ==> WholeResponse(frames[i])
  {
    frames := ReadFrames(chunks);
    CutsAreWhole(Flatten(chunks));
  }

  /** The loop of the reader task. */
  method ReadFrames(chunks: seq<bytes>) returns (frames: seq<bytes>)
    ensures HandedOver(frames, [], Flatten(chunks))
  {
    frames := [];
    var buf: bytes, at: nat, eof := [], 0, false;
    assert chunks[0..] == chunks && Pending(buf, chunks, at) == Flatten(chunks);
    while !eof
      invariant at <= |chunks| && HandedOver(frames, Pending(buf, chunks, at), Flatten(chunks))
      invariant eof ==> CutAll(Pending(buf, chunks, at)) == []
      decreases !eof, |Pending(buf, chunks, at)|
    {
      var frame;
      ghost var before := Pending(buf, chunks, at);
      frame, buf, at, eof := ReadTurn(chunks, buf, at);
      HandOverStep(frames, before, Flatten(chunks), frame, Pending(buf, chunks, at));
      frames := frames + Maybe(frame);
    }
    NothingToCut([]);
  }
}
