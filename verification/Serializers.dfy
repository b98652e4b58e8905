/** Responses the router builds itself, and the client's field parser as their inverse. */
module Serializers {
  import opened Bytes
  import opened ShardStream

  /** A typed field of a response payload. */
  datatype Field = Field(id: u16, typ: byte, data: bytes)

  const STRING_TYPE: byte := 0x01
  const COUNT_TYPE: byte := 0x03
  const RAW_TYPE: byte := 0x09

  /** The most segments whose fields a 16-bit field count can number. */
  const MAX_SEGMENTS := 32767

  predicate Encodable(fs: seq<Field>) { forall i :: 0 <= i < |fs| ==> |fs[i].data| < U32_SIZE }

  function EncodeField(f: Field): bytes
    requires |f.data| < U32_SIZE
  {
    Le16(f.id) + [f.typ] + Le32(|f.data|) + f.data
  }

  function EncodeFields(fs: seq<Field>): bytes
    requires Encodable(fs)
  {
    if fs == [] then [] else EncodeField(fs[0]) + EncodeFields(fs[1..])
  }

  lemma {:induction false} EncodeFieldsAppend(a: seq<Field>, b: seq<Field>)
    requires Encodable(a) && Encodable(b)
    ensures EncodeFields(a + b) == EncodeFields(a) + EncodeFields(b)
  {
    if a == [] {
      assert a + b == b;
    } else {
      assert (a + b)[1..] == a[1..] + b;
      EncodeFieldsAppend(a[1..], b);
    }
  }

  /** A response frame around a payload; the length word is 32 bits wide. */
  function Response(clrid: u32, payload: bytes): bytes {
    [SHARD_MAGIC] + Le32(clrid) + Le32(|payload| % U32_SIZE) + payload
  }

  /** The frame is well formed exactly when the payload length fits its length word. */
  lemma ResponseFramedIff(clrid: u32, payload: bytes)
    ensures ResponseFor(Response(clrid, payload), clrid) <==> |payload| < U32_SIZE
    ensures Response(clrid, payload)[9..] == payload && Response(clrid, payload)[0] == 0xFF
  {
  }

  const SUCCESS := Ascii("SUCCESS")

  /** Status string, field count, and what follows them. */
  function Counted(count: u16, fields: bytes): bytes { [7] + SUCCESS + Le16(count) + fields }

  /** A success payload; its field count is 16 bits wide. */
  function SuccessPayload(fs: seq<Field>): bytes
    requires Encodable(fs)
  {
    Counted(|fs| % U16_SIZE, EncodeFields(fs))
  }

  // ----- GETSEGMENTS -----

  /** Two fields per segment, its key and a zero count, numbered from `n + 1` modulo 2^16. */
  function SegmentFields(keys: seq<bytes>, n: nat): (fs: seq<Field>)
    ensures |fs| == 2 * |keys|
  {
    if keys == [] then []
    else [Field((n + 1) % U16_SIZE, STRING_TYPE, keys[0]), Field((n + 2) % U16_SIZE, COUNT_TYPE, Le32(0))]
         + SegmentFields(keys[1..], n + 2)
  }

  predicate KeysFit(keys: seq<bytes>) { forall i :: 0 <= i < |keys| ==> |keys[i]| < U32_SIZE }

  lemma {:induction false} SegmentFieldAt(keys: seq<bytes>, n: nat, i: nat)
    requires i < |keys|
    ensures SegmentFields(keys, n)[2 * i] == Field((n + 2 * i + 1) % U16_SIZE, STRING_TYPE, keys[i])
    ensures SegmentFields(keys, n)[2 * i + 1] == Field((n + 2 * i + 2) % U16_SIZE, COUNT_TYPE, Le32(0))
  {
    if i == 0 {
    } else {
      SegmentFieldAt(keys[1..], n + 2, i - 1);
      assert SegmentFields(keys, n)[2..] == SegmentFields(keys[1..], n + 2);
    }
  }

  lemma {:induction false} SegmentFieldsFit(keys: seq<bytes>, n: nat)
    requires KeysFit(keys)
    ensures Encodable(SegmentFields(keys, n))
  {
    if keys == [] {
    } else {
      SegmentFieldsFit(keys[1..], n + 2);
    }
  }

  lemma {:induction false} SegmentFieldsSnoc(keys: seq<bytes>, key: bytes, n: nat)
    ensures SegmentFields(keys + [key], n) == SegmentFields(keys, n) + SegmentFields([key], n + 2 * |keys|)
  {
    if keys == [] {
      assert keys + [key] == [key];
    } else {
      assert (keys + [key])[1..] == keys[1..] + [key];
      SegmentFieldsSnoc(keys[1..], key, n + 2);
    }
  }

  ghost function SegmentsPayload(keys: seq<bytes>): bytes
    requires KeysFit(keys)
  {
    SegmentFieldsFit(keys, 0);
    SuccessPayload(SegmentFields(keys, 0))
  }

  /** Pushing the four parts of a field. */
  method PushField(buf0: bytes, id: u16, typ: byte, data: bytes) returns (buf: bytes)
    requires |data| < U32_SIZE
    ensures buf == buf0 + EncodeField(Field(id, typ, data))
  {
    buf := buf0;
    buf := buf + Le16(id);
    buf := buf + [typ];
    buf := buf + Le32(|data|);
    buf := buf + data;
  }

  lemma EncodeTwo(a: Field, b: Field)
    requires |a.data| < U32_SIZE && |b.data| < U32_SIZE
    ensures EncodeFields([a]) == EncodeField(a)
    ensures EncodeFields([a, b]) == EncodeField(a) + EncodeField(b)
  {
    assert [a, b][1..] == [b] && [b][1..] == [] && [a][1..] == [];
    assert EncodeFields([b]) == EncodeField(b) + [] == EncodeField(b);
    assert EncodeFields([a]) == EncodeField(a) + [] == EncodeField(a);
  }

  lemma WrapStep(n: nat)
    ensures (n % U16_SIZE + 1) % U16_SIZE == (n + 1) % U16_SIZE
  {
  }

  /** One turn of the serialiser's loop: the two fields of one segment. */
  method PushSegment(buf0: bytes, key: bytes, ghost done: nat, total: u16) returns (buf: bytes, total': u16)
    requires |key| < U32_SIZE && total as int == done % U16_SIZE
    ensures Encodable(SegmentFields([key], done))
    ensures buf == buf0 + EncodeFields(SegmentFields([key], done))
    ensures total' as int == (done + 2) % U16_SIZE
  {
    WrapStep(done);
    WrapStep(done + 1);
    total' := total;
    buf := PushField(buf0, (total' + 1) % U16_SIZE, STRING_TYPE, key);
    total' := (total' + 1) % U16_SIZE;
    buf := PushField(buf, (total' + 1) % U16_SIZE, COUNT_TYPE, Le32(0));
    total' := (total' + 1) % U16_SIZE;
    ghost var a := Field((done + 1) % U16_SIZE, STRING_TYPE, key);
    ghost var b := Field((done + 2) % U16_SIZE, COUNT_TYPE, Le32(0));
    assert SegmentFields([key], done) == [a, b];
    EncodeTwo(a, b);
  }

  /** A response up to its field count, with placeholders for the payload length and the count. */
  function Opening(clrid: u32): (b: bytes)
    ensures |b| == 19
  {
    assert |SUCCESS| == 7;
    [SHARD_MAGIC] + Le32(clrid) + Le32(0) + [7] + SUCCESS + Le16(0)
  }

  method PushOpening(clrid: u32) returns (buf: bytes, payloadLenPos: nat, payloadStart: nat, countPos: nat)
    ensures buf == Opening(clrid) && payloadLenPos == 5 && payloadStart == 9 && countPos == 17
  {
    assert |SUCCESS| == 7;
    buf := [SHARD_MAGIC] + Le32(clrid);
    payloadLenPos := |buf|;
    buf := buf + Le32(0);
    payloadStart := |buf|;
    buf := buf + [7] + SUCCESS;
    countPos := |buf|;
    buf := buf + Le16(0);
  }

  lemma CountPatched(clrid: u32, count: u16, fields: bytes)
    ensures Patch(Opening(clrid) + fields, 17, Le16(count))
         == [SHARD_MAGIC] + Le32(clrid) + Le32(0) + Counted(count, fields)
  {
    assert |SUCCESS| == 7;
  }

  lemma LengthPatched(clrid: u32, payload: bytes)
    ensures var buf := [SHARD_MAGIC] + Le32(clrid) + Le32(0) + payload;
            Patch(buf, 5, Le32((|buf| - 9) % U32_SIZE)) == Response(clrid, payload)
  {
  }

  /** The two back-patches: the field count, then the payload length. */
  method PatchBack(clrid: u32, buf0: bytes, payloadLenPos: nat, payloadStart: nat, countPos: nat, count: u16,
                   ghost fields: bytes)
    returns (buf: bytes)
    requires buf0 == Opening(clrid) + fields && payloadLenPos == 5 && payloadStart == 9 && countPos == 17
    ensures buf == Response(clrid, Counted(count, fields))
  {
    CountPatched(clrid, count, fields);
    LengthPatched(clrid, Counted(count, fields));
    buf := Patch(buf0, countPos, Le16(count));
    buf := Patch(buf, payloadLenPos, Le32((|buf| - payloadStart) % U32_SIZE));
  }

  lemma EncodedBehind(front: bytes, a: seq<Field>, b: seq<Field>)
    requires Encodable(a) && Encodable(b)
    ensures Encodable(a + b) && front + EncodeFields(a) + EncodeFields(b) == front + EncodeFields(a + b)
  {
    EncodeFieldsAppend(a, b);
    ConcatAssoc(front, EncodeFields(a), EncodeFields(b));
  }

  lemma OneMoreSegment(keys: seq<bytes>, k: nat, front: bytes)
    requires k < |keys| && KeysFit(keys)
    ensures Encodable(SegmentFields(keys[..k], 0)) && Encodable(SegmentFields(keys[..k + 1], 0))
    ensures Encodable(SegmentFields([keys[k]], 2 * k))
    ensures front + EncodeFields(SegmentFields(keys[..k], 0)) + EncodeFields(SegmentFields([keys[k]], 2 * k))
         == front + EncodeFields(SegmentFields(keys[..k + 1], 0))
  {
    SegmentFieldsFit(keys[..k], 0);
    SegmentFieldsFit([keys[k]], 2 * k);
    SegmentFieldsSnoc(keys[..k], keys[k], 0);
    assert keys[..k] + [keys[k]] == keys[..k + 1];
    EncodedBehind(front, SegmentFields(keys[..k], 0), SegmentFields([keys[k]], 2 * k));
  }

  /** The serialiser's loop: the fields of all segments, and their number modulo 2^16. */
  method PushSegments(front: bytes, keys: seq<bytes>) returns (buf: bytes, totalFields: u16)
    requires KeysFit(keys)
    ensures Encodable(SegmentFields(keys, 0))
    ensures buf == front + EncodeFields(SegmentFields(keys, 0))
    ensures totalFields as int == 2 * |keys| % U16_SIZE
  {
    buf, totalFields := front, 0;
    for k := 0 to |keys|
      invariant KeysFit(keys[..k]) && Encodable(SegmentFields(keys[..k], 0))
      invariant totalFields as int == 2 * k % U16_SIZE
      invariant buf == front + EncodeFields(SegmentFields(keys[..k], 0))
    {
      buf, totalFields := PushSegment(buf, keys[k], 2 * k, totalFields);
      OneMoreSegment(keys, k, front);
    }
    assert keys[..|keys|] == keys;
  }

  /** The serialiser writes placeholders and patches the field count and the payload length
      back in once they are known. */
  method SerializeGetSegments(keys: seq<bytes>, clrid: u32) returns (buf: bytes)
    requires KeysFit(keys)
    ensures buf == Response(clrid, SegmentsPayload(keys))
  {
    var payloadLenPos, payloadStart, fieldsPos, totalFields;
    buf, payloadLenPos, payloadStart, fieldsPos := PushOpening(clrid);
    buf, totalFields := PushSegments(buf, keys);
    buf := PatchBack(clrid, buf, payloadLenPos, payloadStart, fieldsPos, totalFields,
                     EncodeFields(SegmentFields(keys, 0)));
  }

  /** The codecs response: one raw field, with the same two back-patches. */
  method SerializeCodecs(clrid: u32, codecs: bytes) returns (buf: bytes)
    requires |codecs| < U32_SIZE
    ensures buf == Response(clrid, SuccessPayload([Field(1, RAW_TYPE, codecs)]))
  {
    var payloadLenPos, payloadStart, countPos;
    buf, payloadLenPos, payloadStart, countPos := PushOpening(clrid);
    buf := PushField(buf, 1, RAW_TYPE, codecs);
    ghost var f := Field(1, RAW_TYPE, codecs);
    EncodeTwo(f, f);
    buf := PatchBack(clrid, buf, payloadLenPos, payloadStart, countPos, 1, EncodeField(f));
  }

  // ----- what the client makes of a payload -----

  /** The client's field macro: one field at `offset`, and the offset behind it. */
  function ReadField(data: bytes, offset: nat): (r: Option<(Field, nat)>)
    ensures r.Some? ==> offset < r.value.1 <= |data|
  {
    if offset + 7 > |data| then None
    else
      var len := FromLe32(data[offset + 3..offset + 7]);
      if offset + 7 + len > |data| then None
      else Some((Field(FromLe16(data[offset..offset + 2]), data[offset + 2],
                       data[offset + 7..offset + 7 + len]), offset + 7 + len))
  }

  function ReadFields(data: bytes, offset: nat, count: nat): Option<(seq<Field>, nat)>
    decreases count
  {
    if count == 0 then Some(([], offset))
    else match ReadField(data, offset)
      case None => None
      case Some((f, next)) =>
        match ReadFields(data, next, count - 1)
        case None => None
        case Some((fs, end)) => Some(([f] + fs, end))
  }

  /** The message of an error reply: its first field, if that is field 1 and a string. Bytes
      behind the field are not looked at. */
  function ExtractErrorMessage(data: bytes, count: u16, offset: nat): Option<bytes> {
    if count >= 1 && offset + 7 <= |data|
       && FromLe16(data[offset..offset + 2]) == 1 && data[offset + 2] == STRING_TYPE
       && offset + 7 + FromLe32(data[offset + 3..offset + 7]) <= |data|
    then Some(data[offset + 7..offset + 7 + FromLe32(data[offset + 3..offset + 7])])
    else None
  }

  datatype Reply = Malformed | Failure(message: Option<bytes>) | Success(fields: seq<Field>)

  /** A client's way through a payload: the status decides; an error reply is searched for its
      message, a success is read by the field macro, `count` times, up to the very end. Which
      ids and types a particular command then insists on is not part of this. */
  function ParsePayload(data: bytes): Reply {
    if data == [] then Malformed
    else
      var n := data[0] as int;
      if |data| < 1 + n + 2 then Malformed
      else
        var count := FromLe16(data[1 + n..3 + n]);
        if data[1..1 + n] != SUCCESS then Failure(ExtractErrorMessage(data, count, 3 + n))
        else
          match ReadFields(data, 3 + n, count)
          case None => Malformed
          case Some((fs, end)) => if end != |data| then Malformed else Success(fs)
  }

  /** An encoded field is read back wherever it stands. */
  lemma ReadEncodedField(data: bytes, offset: nat, f: Field)
    requires |f.data| < U32_SIZE && offset <= |data| && EncodeField(f) <= data[offset..]
    ensures ReadField(data, offset) == Some((f, offset + |EncodeField(f)|))
  {
    var e, here := EncodeField(f), data[offset..];
    assert here[..|e|] == e;
    assert data[offset..offset + 2] == e[..2] == Le16(f.id);
    assert data[offset + 3..offset + 7] == e[3..7] == Le32(|f.data|);
    assert data[offset + 7..offset + 7 + |f.data|] == e[7..] == f.data;
  }

  lemma SplitPrefix(a: bytes, b: bytes, data: bytes, offset: nat)
    requires offset <= |data| && a + b <= data[offset..]
    ensures offset + |a| <= |data| && a <= data[offset..] && b <= data[offset + |a|..]
  {
  }

  /** The encoded fields stand at `offset`. */
  predicate Holds(data: bytes, offset: nat, fs: seq<Field>) {
    Encodable(fs) && offset <= |data| && EncodeFields(fs) <= data[offset..]
  }

  lemma TailHolds(data: bytes, offset: nat, fs: seq<Field>)
    requires Holds(data, offset, fs) && fs != []
    ensures EncodeField(fs[0]) <= data[offset..]
    ensures Holds(data, offset + |EncodeField(fs[0])|, fs[1..])
  {
    SplitPrefix(EncodeField(fs[0]), EncodeFields(fs[1..]), data, offset);
  }

  /** The head of an encoded list is read first, and the rest follows right behind it. */
  lemma ReadFirstField(data: bytes, offset: nat, fs: seq<Field>)
    requires Holds(data, offset, fs) && fs != []
    ensures var next := offset + |EncodeField(fs[0])|;
            && ReadField(data, offset) == Some((fs[0], next)) && Holds(data, next, fs[1..])
            && offset + |EncodeFields(fs)| == next + |EncodeFields(fs[1..])|
  {
    TailHolds(data, offset, fs);
    ReadEncodedField(data, offset, fs[0]);
  }

  /** From `offset` on, just these fields are read, up to `end`. */
  predicate ReadsAs(data: bytes, offset: nat, fs: seq<Field>, end: nat) {
    ReadFields(data, offset, |fs|) == Some((fs, end))
  }

  lemma ReadsAsStep(data: bytes, offset: nat, fs: seq<Field>, next: nat, end: nat)
    requires fs != [] && ReadField(data, offset) == Some((fs[0], next)) && ReadsAs(data, next, fs[1..], end)
    ensures ReadsAs(data, offset, fs, end)
  {
    assert [fs[0]] + fs[1..] == fs;
  }

  /** Reading as many fields as were encoded returns them and stops right behind them. */
  lemma {:induction false} ReadEncodedFields(data: bytes, offset: nat, fs: seq<Field>, end: nat)
    requires Holds(data, offset, fs) && end == offset + |EncodeFields(fs)|
    ensures ReadsAs(data, offset, fs, end)
    decreases |fs|
  {
    if fs == [] {
    } else {
      var next := offset + |EncodeField(fs[0])|;
      ReadFirstField(data, offset, fs);
      ReadEncodedFields(data, next, fs[1..], end);
      ReadsAsStep(data, offset, fs, next, end);
    }
  }

  lemma PayloadFront(count: u16, fields: bytes)
    ensures var d := Counted(count, fields);
            && |d| == 10 + |fields| && d[0] == 7 && d[1..8] == SUCCESS == [83, 85, 67, 67, 69, 83, 83]
            && FromLe16(d[8..10]) == count && d[10..] == fields
  {
    var d := Counted(count, fields);
    assert |SUCCESS| == 7;
    assert d[8..10] == Le16(count);
  }

  /** What parsing comes to, once the fields have been read. */
  lemma ParseStep(data: bytes, count: u16, fs: seq<Field>, end: nat)
    requires |data| >= 10 && data[0] == 7 && data[1..8] == SUCCESS
    requires FromLe16(data[8..10]) == count && |fs| == count as int && ReadsAs(data, 10, fs, end)
    ensures ParsePayload(data) == if end != |data| then Malformed else Success(fs)
  {
  }

  /** A payload whose fields go on behind the `count` it states. */
  lemma ParseCounted(count: u16, fs: seq<Field>, fields: bytes)
    requires Encodable(fs) && |fs| == count as int && EncodeFields(fs) <= fields
    ensures ParsePayload(Counted(count, fields)) == if |EncodeFields(fs)| != |fields| then Malformed else Success(fs)
  {
    var data := Counted(count, fields);
    PayloadFront(count, fields);
    ReadEncodedFields(data, 10, fs, 10 + |EncodeFields(fs)|);
    ParseStep(data, count, fs, 10 + |EncodeFields(fs)|);
  }

  lemma {:induction false} EncodedNotEmpty(fs: seq<Field>)
    requires Encodable(fs) && fs != []
    ensures EncodeFields(fs) != []
  {
  }

  lemma BelowCount(n: nat)
    requires n < U16_SIZE
    ensures n % U16_SIZE == n
  {
  }

  lemma ParseOverflowing(fs: seq<Field>)
    requires Encodable(fs) && |fs| >= U16_SIZE
    ensures ParsePayload(SuccessPayload(fs)) == Malformed
  {
    var count := |fs| % U16_SIZE;
    var a, b := fs[..count], fs[count..];
    assert fs == a + b;
    EncodeFieldsAppend(a, b);
    EncodedNotEmpty(b);
    ParseCounted(count, a, EncodeFields(fs));
  }

  /** A payload of encoded fields parses back exactly when the 16-bit count can hold their number. */
  lemma ParseSuccessIff(fs: seq<Field>)
    requires Encodable(fs)
    ensures ParsePayload(SuccessPayload(fs)) == Success(fs) <==> |fs| < U16_SIZE
    ensures |fs| >= U16_SIZE ==> ParsePayload(SuccessPayload(fs)) == Malformed
  {
    if |fs| < U16_SIZE {
      BelowCount(|fs|);
      ParseCounted(|fs|, fs, EncodeFields(fs));
    } else {
      ParseOverflowing(fs);
    }
  }

  /** The i-th key's two fields: the key, then a zero count. */
  predicate SegmentPair(fs: seq<Field>, keys: seq<bytes>, i: nat)
    requires i < |keys| && |fs| == 2 * |keys| && |keys| <= MAX_SEGMENTS
  {
    && fs[2 * i] == Field(2 * i + 1, 0x01, keys[i])
    && fs[2 * i + 1] == Field(2 * i + 2, 0x03, [0, 0, 0, 0])
  }

  lemma PairAt(fs: seq<Field>, keys: seq<bytes>, i: nat)
    requires i < |keys| <= MAX_SEGMENTS && |fs| == 2 * |keys|
    requires fs[2 * i] == Field((2 * i + 1) % U16_SIZE, STRING_TYPE, keys[i])
    requires fs[2 * i + 1] == Field((2 * i + 2) % U16_SIZE, COUNT_TYPE, Le32(0))
    ensures SegmentPair(fs, keys, i)
  {
    BelowCount(2 * i + 1);
    BelowCount(2 * i + 2);
  }

  /** GETSEGMENTS round trip, with its exact limit: the client reads back every key once, in
      order, each followed by a zero count and numbered from 1, iff there are at most 32767. */
  lemma SegmentsRoundTrip(keys: seq<bytes>)
    requires KeysFit(keys)
    ensures |keys| <= MAX_SEGMENTS <==> ParsePayload(SegmentsPayload(keys)).Success?
    ensures |keys| <= MAX_SEGMENTS ==>
      var fs := ParsePayload(SegmentsPayload(keys)).fields;
      |fs| == 2 * |keys| && forall i :: 0 <= i < |keys| ==> SegmentPair(fs, keys, i)
  {
    SegmentFieldsFit(keys, 0);
    ParseSuccessIff(SegmentFields(keys, 0));
    if |keys| <= MAX_SEGMENTS {
      AllPairs(keys);
    }
  }

  lemma AllPairs(keys: seq<bytes>)
    requires |keys| <= MAX_SEGMENTS
    ensures forall i :: 0 <= i < |keys| ==> SegmentPair(SegmentFields(keys, 0), keys, i)
  {
    var fs := SegmentFields(keys, 0);
    forall i | 0 <= i < |keys| ensures SegmentPair(fs, keys, i) {
      SegmentFieldAt(keys, 0, i);
      PairAt(fs, keys, i);
    }
  }

  // ----- and nothing else -----

  /** The field macro, exactly: it reads a field where the encoding of one stands, to its end. */
  lemma ReadFieldIff(data: bytes, offset: nat, f: Field, next: nat)
    requires offset <= |data|
    ensures ReadField(data, offset) == Some((f, next)) <==>
              |f.data| < U32_SIZE && EncodeField(f) <= data[offset..] && next == offset + |EncodeField(f)|
  {
    if |f.data| < U32_SIZE && EncodeField(f) <= data[offset..] {
      ReadEncodedField(data, offset, f);
    }
    if ReadField(data, offset) == Some((f, next)) {
      ReadIsEncoded(data, offset, f, next);
    }
  }

  lemma Le16OfFromLe16(b: bytes)
    requires |b| == 2
    ensures Le16(FromLe16(b)) == b
  {
  }

  lemma ReadIsEncoded(data: bytes, offset: nat, f: Field, next: nat)
    requires offset <= |data| && ReadField(data, offset) == Some((f, next))
    ensures |f.data| < U32_SIZE && data[offset..next] == EncodeField(f) && EncodeField(f) <= data[offset..]
    ensures next == offset + |EncodeField(f)|
  {
    var e := data[offset..next];
    Le16OfFromLe16(data[offset..offset + 2]);
    Le32OfFromLe32(data[offset + 3..offset + 7]);
    assert e[..2] == Le16(f.id) && e[2] == f.typ && e[3..7] == Le32(|f.data|) && e[7..] == f.data;
    assert e == e[..2] + [e[2]] + e[3..7] + e[7..];
    assert data[offset..][..|e|] == e;
  }

  lemma EncodedBetween(data: bytes, offset: nat, next: nat, end: nat, fs: seq<Field>)
    requires offset <= next <= end <= |data| && fs != [] && |fs[0].data| < U32_SIZE && Encodable(fs[1..])
    requires data[offset..next] == EncodeField(fs[0]) && data[next..end] == EncodeFields(fs[1..])
    ensures Encodable(fs) && data[offset..end] == EncodeFields(fs)
  {
    assert data[offset..end] == data[offset..next] + data[next..end];
    forall i | 0 <= i < |fs| ensures |fs[i].data| < U32_SIZE {
      assert i > 0 ==> fs[i] == fs[1..][i - 1];
    }
  }

  lemma {:induction false} ReadAreEncoded(data: bytes, offset: nat, fs: seq<Field>, end: nat)
    requires offset <= |data| && ReadsAs(data, offset, fs, end)
    ensures Encodable(fs) && offset <= end <= |data| && data[offset..end] == EncodeFields(fs)
    decreases |fs|
  {
    if fs == [] {
    } else {
      var f, next := fs[0], ReadField(data, offset).value.1;
      assert ReadField(data, offset) == Some((f, next));
      ReadIsEncoded(data, offset, f, next);
      ReadAreEncoded(data, next, fs[1..], end);
      EncodedBetween(data, offset, next, end, fs);
    }
  }

  lemma {:induction false} ReadCount(data: bytes, offset: nat, count: nat)
    requires ReadFields(data, offset, count).Some?
    ensures |ReadFields(data, offset, count).value.0| == count
    decreases count
  {
    if count == 0 {
    } else {
      ReadCount(data, ReadField(data, offset).value.1, count - 1);
    }
  }

  lemma PayloadSplit(data: bytes)
    requires |data| >= 10 && data[0] == 7 && data[1..8] == SUCCESS
    ensures data == Counted(FromLe16(data[8..10]), data[10..])
  {
    assert |SUCCESS| == 7;
    Le16OfFromLe16(data[8..10]);
    assert data == [data[0]] + data[1..8] + data[8..10] + data[10..];
  }

  lemma SuccessSplit(data: bytes, fs: seq<Field>)
    requires ParsePayload(data) == Success(fs)
    ensures |data| >= 10 && data[0] == 7 && data[1..8] == SUCCESS
    ensures |fs| == FromLe16(data[8..10]) as int && ReadsAs(data, 10, fs, |data|)
  {
    assert |SUCCESS| == 7;
    var n := data[0] as int;
    assert |data[1..1 + n]| == n;
    ReadCount(data, 10, FromLe16(data[8..10]));
  }

  /** Which payloads parse: the serialisers' success payloads of fewer than 65536 fields, and no
      others. */
  lemma ParsesIff(data: bytes, fs: seq<Field>)
    ensures ParsePayload(data) == Success(fs) <==>
              Encodable(fs) && |fs| < U16_SIZE && data == SuccessPayload(fs)
  {
    if ParsePayload(data) == Success(fs) {
      SuccessSplit(data, fs);
      ReadAreEncoded(data, 10, fs, |data|);
      PayloadSplit(data);
      BelowCount(|fs|);
      assert data[10..|data|] == data[10..];
    }
    if Encodable(fs) && |fs| < U16_SIZE && data == SuccessPayload(fs) {
      ParseSuccessIff(fs);
    }
  }

  // ----- the error builder -----

  function ErrorText(code: byte): (t: bytes)
    ensures |t| == 3
  {
    match code
    case 1 => [52, 48, 52]
    case 2 => [53, 48, 51]
    case 3 => [52, 48, 56]
    case _ => [53, 48, 48]
  }

  const ERROR_PAYLOAD: bytes := [5, 69, 82, 82, 79, 82, 1, 0, 1, 0, 1, 4, 0, 0, 0]

  function ErrorPayload(code: byte): (p: bytes)
    ensures |p| == 22
  {
    ERROR_PAYLOAD + Le32(3) + ErrorText(code)
  }

  method BuildErrorResponse(clrid: u32, code: byte) returns (buf: bytes)
    ensures buf == Response(clrid, ErrorPayload(code))
    ensures ResponseFor(buf, clrid)
  {
    var text := ErrorText(code);
    var payloadLen := |ERROR_PAYLOAD| + 4 + |text|;
    buf := [SHARD_MAGIC];
    buf := buf + Le32(clrid);
    buf := buf + Le32(payloadLen);
    ghost var header := buf;
    buf := buf + ERROR_PAYLOAD;
    buf := buf + Le32(|text|);
    buf := buf + text;
    assert buf == header + ErrorPayload(code);
    ResponseFramedIff(clrid, ErrorPayload(code));
  }

  /** A message is extracted exactly when the first field is number 1, of type 1, and whole. */
  lemma ExtractsIff(data: bytes, count: u16, offset: nat, message: bytes)
    requires offset <= |data|
    ensures ExtractErrorMessage(data, count, offset) == Some(message) <==>
              count >= 1 && |message| < U32_SIZE && EncodeField(Field(1, 0x01, message)) <= data[offset..]
  {
    var f := Field(1, STRING_TYPE, message);
    var next := offset + 7 + |message|;
    ReadFieldIff(data, offset, f, next);
  }

  /** The error's only field covers a second length word and the text lies behind it: every
      error reaches the client as the message 3, 0, 0, 0, so it cannot tell them apart. */
  lemma ErrorTextOutsideField(code: byte)
    ensures ReadField(ErrorPayload(code), 8) == Some((Field(1, STRING_TYPE, Le32(3)), 19))
    ensures ExtractErrorMessage(ErrorPayload(code), 1, 8) == Some(Le32(3))
    ensures ParsePayload(ErrorPayload(code)) == Failure(Some(Le32(3)))
    ensures Le32(3) != ErrorText(code) && ErrorPayload(code)[19..] == ErrorText(code)
  {
    var d := ErrorPayload(code);
    assert d[0] == 5 && d[1..6] == [69, 82, 82, 79, 82] && |SUCCESS| == 7;
    assert d[6..8] == [1, 0] && d[8..10] == [1, 0] && d[11..15] == [4, 0, 0, 0];
    assert d[15..19] == Le32(3);
  }
}
