/** What a whole client stream means, independently of how it is buffered. */
module FrameStream {
  import opened Bytes
  import opened Protocol

  /** One request cut from the stream: its bytes and what the decoder said of them. */
  datatype Request = Request(bytes: bytes, info: RouterFrame)

  /** The one-shot reading of a stream: take a frame where one parses, else slide by one byte. */
  function DecodeAll(s: bytes): seq<Request>
    decreases |s|
  {
    match TryDecode(s)
    case NeedMore => []
    case Frame(f) => [Request(s[..f.frameLen], f)] + DecodeAll(s[f.frameLen..])
    case Bad(_) => DecodeAll(s[1..])
  }

  /** The longest front part of `rs` that holds no frame over the size limit. */
  function Accepted(rs: seq<Request>, maxFrame: nat): seq<Request> {
    if rs == [] || rs[0].info.frameLen > maxFrame then []
    else [rs[0]] + Accepted(rs[1..], maxFrame)
  }

  lemma {:induction false} AcceptedAppend(a: seq<Request>, b: seq<Request>, maxFrame: nat)
    requires forall r :: r in a ==> r.info.frameLen <= maxFrame
    ensures Accepted(a + b, maxFrame) == a + Accepted(b, maxFrame)
  {
    if a == [] {
      assert a + b == b;
    } else {
      assert (a + b)[1..] == a[1..] + b;
      AcceptedAppend(a[1..], b, maxFrame);
    }
  }

  /** Bytes that hold no magic can be skipped at any time. */
  lemma {:induction false} SkipGarbage(s: bytes, n: nat)
    requires n <= |s| && ROUTER_MAGIC !in s[..n]
    ensures DecodeAll(s) == DecodeAll(s[n..])
    decreases n
  {
    if n == 0 {
    } else {
      assert s[0] == s[..n][0];
      assert forall b :: b in s[1..][..n - 1] ==> b in s[..n];
      SkipGarbage(s[1..], n - 1);
      assert s[1..][n - 1..] == s[n..];
      if |s| < 5 {
        assert TryDecode(s) == NeedMore && TryDecode(s[n..]) == NeedMore;
      }
    }
  }

  /** Garbage alone, however it grows into a stream, yields nothing by itself. */
  lemma GarbageYieldsNothing(s: bytes)
    requires ROUTER_MAGIC !in s
    ensures DecodeAll(s) == []
  {
  }

  /** A byte string that is exactly one frame. */
  predicate WholeFrame(f: bytes) {
    TryDecode(f).Frame? && TryDecode(f).frame.frameLen == |f|
  }

  predicate AllFrames(fs: seq<bytes>) { forall i :: 0 <= i < |fs| ==> WholeFrame(fs[i]) }

  function AsRequest(f: bytes): Request
    requires WholeFrame(f)
  {
    Request(f, TryDecode(f).frame)
  }

  function RequestsOf(fs: seq<bytes>): seq<Request>
    requires AllFrames(fs)
  {
    if fs == [] then [] else FramesTail(fs); [AsRequest(fs[0])] + RequestsOf(fs[1..])
  }

  lemma FramesTail(fs: seq<bytes>)
    requires AllFrames(fs) && fs != []
    ensures WholeFrame(fs[0]) && AllFrames(fs[1..])
  {
  }

  lemma TakeFirst(f: bytes, more: bytes)
    requires WholeFrame(f)
    ensures DecodeAll(f + more) == [AsRequest(f)] + DecodeAll(more)
  {
    DecodeStable(f, more);
    assert (f + more)[..|f|] == f && (f + more)[|f|..] == more;
  }

  /** Frames laid out back to back, followed by an unfinished piece, are recovered in order. */
  lemma {:induction false} ConcatenationRecovered(fs: seq<bytes>, rest: bytes)
    requires AllFrames(fs)
    ensures DecodeAll(Flatten(fs) + rest) == RequestsOf(fs) + DecodeAll(rest)
  {
    if fs == [] {
      assert Flatten(fs) + rest == rest;
    } else {
      FramesTail(fs);
      ConcatAssoc(fs[0], Flatten(fs[1..]), rest);
      TakeFirst(fs[0], Flatten(fs[1..]) + rest);
      ConcatenationRecovered(fs[1..], rest);
      Prepended([AsRequest(fs[0])], RequestsOf(fs[1..]), DecodeAll(rest));
    }
  }

  lemma Prepended(a: seq<Request>, b: seq<Request>, c: seq<Request>)
    ensures a + (b + c) == a + b + c
  {
  }

  /** Bytes that are no frame and cannot become one: no magic byte at all, or one only in front of
      a header that is complete and wrong, or that announces too much or no more than is there. */
  predicate Malformed(b: bytes) {
    || 0xFE !in b
    || (&& |b| >= 5 && 0xFE !in b[1..] && !TryDecode(b).Frame?
        && (FromLe32(b[1..5]) > 16777216 || |b| >= 5 + FromLe32(b[1..5])))
  }

  /** Such a piece is passed over, whatever follows it. */
  lemma MalformedIsSkipped(b: bytes, more: bytes)
    requires Malformed(b)
    ensures DecodeAll(b + more) == DecodeAll(more)
  {
    if ROUTER_MAGIC !in b {
      assert (b + more)[..|b|] == b && (b + more)[|b|..] == more;
      SkipGarbage(b + more, |b|);
    } else {
      NeedMoreIff(b);
      DecodeStable(b, more);
      var rest := b[1..] + more;
      assert (b + more)[1..] == rest && rest[..|b| - 1] == b[1..] && rest[|b| - 1..] == more;
      SkipGarbage(rest, |b| - 1);
    }
  }

  predicate FramesAndGarbage(items: seq<bytes>) {
    forall i :: 0 <= i < |items| ==> WholeFrame(items[i]) || Malformed(items[i])
  }

  /** The requests of the items that are frames. */
  function RequestsAmong(items: seq<bytes>): seq<Request> {
    if items == [] then []
    else (if WholeFrame(items[0]) then [AsRequest(items[0])] else []) + RequestsAmong(items[1..])
  }

  /** Recovery: malformed pieces anywhere between frames cost no frame and bring none in. */
  lemma {:induction false} ResyncRecovers(items: seq<bytes>, rest: bytes)
    requires FramesAndGarbage(items)
    ensures DecodeAll(Flatten(items) + rest) == RequestsAmong(items) + DecodeAll(rest)
  {
    if items == [] {
      assert Flatten(items) + rest == rest;
    } else {
      var b, more := items[0], Flatten(items[1..]) + rest;
      ConcatAssoc(b, Flatten(items[1..]), rest);
      assert WholeFrame(b) || Malformed(b);
      ResyncRecovers(items[1..], rest);
      if WholeFrame(b) {
        TakeFirst(b, more);
        Prepended([AsRequest(b)], RequestsAmong(items[1..]), DecodeAll(rest));
      } else {
        MalformedIsSkipped(b, more);
        assert RequestsAmong(items) == RequestsAmong(items[1..]);
      }
    }
  }

  /** The shortest header that cannot be right: seven bytes, then any frame, give that frame. */
  lemma EmptyHeaderIsSkipped(f: bytes)
    requires WholeFrame(f)
    ensures DecodeAll([0xFE, 2, 0, 0, 0, 0, 0] + f) == [AsRequest(f)]
  {
    var b: bytes := [0xFE, 2, 0, 0, 0, 0, 0];
    assert b[1..5] == [2, 0, 0, 0];
    MalformedIsSkipped(b, f);
    assert f + [] == f && DecodeAll([]) == [];
    TakeFirst(f, []);
  }

  // ----- where every byte of a stream went -----

  datatype Piece = Taken(n: nat) | Rejected | Skipped(n: nat)

  function Size(p: Piece): nat {
    match p
    case Taken(n) => n
    case Rejected => 1
    case Skipped(n) => n
  }

  /** What may come off the front of `s`: a frame where one parses, one byte where the parse
      fails, and otherwise only bytes none of which is a magic byte. */
  predicate Fits(p: Piece, s: bytes) {
    match p
    case Taken(n) => TryDecode(s).Frame? && TryDecode(s).frame.frameLen == n
    case Rejected => TryDecode(s).Bad?
    case Skipped(n) => n <= |s| && ROUTER_MAGIC !in s[..n]
  }

  function TakenBy(p: Piece, s: bytes): seq<Request>
    requires Fits(p, s)
  {
    if p.Taken? then [Request(s[..p.n], TryDecode(s).frame)] else []
  }

  /** One piece loses no frame and invents none. */
  lemma PieceKeepsFrames(p: Piece, s: bytes)
    requires Fits(p, s)
    ensures Size(p) <= |s| && DecodeAll(s) == TakenBy(p, s) + DecodeAll(s[Size(p)..])
  {
    if p.Skipped? {
      SkipGarbage(s, p.n);
    }
  }

  /** `ledger` explains how the stream `s` was consumed down to `buf`. */
  ghost predicate Accounts(ledger: seq<Piece>, s: bytes, buf: bytes)
    decreases |ledger|
  {
    if ledger == [] then s == buf
    else
      && Fits(ledger[0], s) && Size(ledger[0]) <= |s|
      && Accounts(ledger[1..], s[Size(ledger[0])..], buf)
  }

  /** The frames a ledger took, in order. */
  ghost function TakenFrames(ledger: seq<Piece>, s: bytes, buf: bytes): seq<Request>
    requires Accounts(ledger, s, buf)
    decreases |ledger|
  {
    if ledger == [] then []
    else TakenBy(ledger[0], s) + TakenFrames(ledger[1..], s[Size(ledger[0])..], buf)
  }

  /** Consuming a stream piece by piece loses no frame and invents none. */
  lemma {:induction false} LedgerKeepsFrames(ledger: seq<Piece>, s: bytes, buf: bytes)
    requires Accounts(ledger, s, buf)
    ensures DecodeAll(s) == TakenFrames(ledger, s, buf) + DecodeAll(buf)
    decreases |ledger|
  {
    if ledger == [] {
    } else {
      var s' := s[Size(ledger[0])..];
      PieceKeepsFrames(ledger[0], s);
      LedgerKeepsFrames(ledger[1..], s', buf);
      Prepended(TakenBy(ledger[0], s), TakenFrames(ledger[1..], s', buf), DecodeAll(buf));
    }
  }

  lemma LedgerCons(p: Piece, ledger: seq<Piece>, s: bytes, buf: bytes)
    requires Fits(p, s) && Size(p) <= |s| && Accounts(ledger, s[Size(p)..], buf)
    ensures Accounts([p] + ledger, s, buf)
    ensures TakenFrames([p] + ledger, s, buf) == TakenBy(p, s) + TakenFrames(ledger, s[Size(p)..], buf)
  {
    var all := [p] + ledger;
    assert all[0] == p && all[1..] == ledger;
  }

  /** Another piece off `buf` may be appended to the ledger that led to `buf`. */
  lemma {:induction false} LedgerAppend(ledger: seq<Piece>, p: Piece, s: bytes, buf: bytes)
    requires Accounts(ledger, s, buf) && Fits(p, buf) && Size(p) <= |buf|
    ensures Accounts(ledger + [p], s, buf[Size(p)..])
    ensures TakenFrames(ledger + [p], s, buf[Size(p)..]) == TakenFrames(ledger, s, buf) + TakenBy(p, buf)
    decreases |ledger|
  {
    var end := buf[Size(p)..];
    if ledger == [] {
      LedgerCons(p, [], s, end);
      assert ledger + [p] == [p] + [];
    } else {
      var s', more := s[Size(ledger[0])..], ledger[1..];
      LedgerAppend(more, p, s', buf);
      LedgerCons(ledger[0], more + [p], s, end);
      assert ledger + [p] == [ledger[0]] + (more + [p]);
      Prepended(TakenBy(ledger[0], s), TakenFrames(more, s', buf), TakenBy(p, buf));
    }
  }

  /** Every byte is accounted for: taken, rejected, skipped or still buffered. */
  ghost function Consumed(ledger: seq<Piece>): nat {
    if ledger == [] then 0 else Size(ledger[0]) + Consumed(ledger[1..])
  }

  lemma {:induction false} LedgerConserves(ledger: seq<Piece>, s: bytes, buf: bytes)
    requires Accounts(ledger, s, buf)
    ensures |s| == Consumed(ledger) + |buf| && s[Consumed(ledger)..] == buf
    decreases |ledger|
  {
    if ledger == [] {
    } else {
      LedgerConserves(ledger[1..], s[Size(ledger[0])..], buf);
    }
  }
}
