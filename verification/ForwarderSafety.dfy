/** What every forwarded call guarantees, whatever the hops do. */
module ForwarderSafety {
  import opened Bytes
  import opened ShardStream
  import opened Forwarder
  import Protocol
  import Rotation

  /** Every visit of a call is some step of some attempt. */
  lemma {:induction false} TraceMember(c: Call, p: nat, k: nat, v: Visit)
    requires k <= |Hops(c, p)| && v in Trace(c, p, k)
    ensures exists a: nat, i: nat :: a <= p && i < |Hops(c, a)| && (a == p ==> i < k) && v == VisitAt(c, a, i)
    decreases p
  {
    if v in Pass(c, p, k) {
      var i :| 0 <= i < k && Pass(c, p, k)[i] == v;
    } else {
      TraceMember(c, p - 1, |Hops(c, p - 1)|, v);
    }
  }

  /** Across all retries, a frame that was sent is the client's frame but for the four CLRID
      bytes, which hold the id its waiter registered under. */
  lemma SentIsStamped(c: Call, p: nat, k: nat, v: Visit)
    requires k <= |Hops(c, p)| && v in Trace(c, p, k) && v.sent.Some?
    ensures var f, at := v.sent.value.frame, c.clridOffset;
            && |f| == |c.frame| && at + 4 <= |f| && FromLe32(f[at..at + 4]) == v.sent.value.id
            && forall j :: 0 <= j < |f| && !(at <= j < at + 4) ==> f[j] == c.frame[j]
  {
    TraceMember(c, p, k, v);
  }

  /** The client gets the hop's response with its own CLRID put back and nothing else changed. */
  lemma AnswerIsRestored(c: Call, res: Result, p: nat, k: nat)
    requires Explains(c, res, p, k) && AnswersOk(c.world) && res.Ok?
    ensures ResponseFor(res.response, c.clrid)
    ensures exists id, f :: k > 0 && c.world.slot(p, k - 1) == Ready(id, Answer(f)) && |res.response| == |f|
              && res.response[5..] == f[5..] && res.response[0] == f[0]
  {
  }

  /** For a frame the decoder produced the CLRID is always inside the frame. */
  lemma DecodedNeverTooShort(c: Call, res: Result, p: nat, k: nat, buf: bytes)
    requires Explains(c, res, p, k) && Protocol.TryDecode(buf).Frame?
    requires var f := Protocol.TryDecode(buf).frame; c.frame == buf[..f.frameLen] && c.clridOffset == f.clridOffset
    ensures OffsetOk(c) && res != Err(Internal)
  {
  }

  /** Writes: every send but the last found its connection closed; the first other error ends
      the call with Timeout. */
  lemma WritesStopAtFirstError(c: Call, res: Result, p: nat, k: nat, j: nat)
    requires Explains(c, res, p, k) && c.isWrite && j < |Trace(c, p, k)| && Trace(c, p, k)[j].sent.Some?
    ensures var s := Trace(c, p, k)[j].sent.value;
            && (j + 1 < |Trace(c, p, k)| ==> s.result == ConnectionClosed)
            && (s.result == OtherError ==> j + 1 == |Trace(c, p, k)| && res == Err(Timeout))
  {
    var a, i := TraceAt(c, p, k, j);
    if a < p {
      assert PassedBy(c, a) && !Ends(c, a, i);
    } else if i + 1 < k {
      assert !Ends(c, p, i);
    } else {
      assert Ends(c, p, i);
    }
  }

  /** Reads are retried after any error: they never end in Timeout. */
  lemma ReadsNeverTimeOut(c: Call, res: Result, p: nat, k: nat)
    requires Explains(c, res, p, k) && !c.isWrite
    ensures res != Err(Timeout)
  {
  }

  lemma {:induction false} TraceAt(c: Call, p: nat, k: nat, j: nat) returns (a: nat, i: nat)
    requires k <= |Hops(c, p)| && j < |Trace(c, p, k)|
    ensures a <= p && i < |Hops(c, a)| && Trace(c, p, k)[j] == VisitAt(c, a, i)
    ensures a == p ==> i < k && (i + 1 == k <==> j + 1 == |Trace(c, p, k)|)
    ensures a < p && k > 0 ==> j + 1 < |Trace(c, p, k)|
    decreases p
  {
    var front := |FullPasses(c, p)|;
    if j >= front {
      a, i := p, j - front;
    } else {
      a, i := TraceAt(c, p - 1, |Hops(c, p - 1)|, j);
    }
  }

  /** A complete attempt visits every hop of its snapshot exactly once, from `clrid mod n` on. */
  lemma PassVisitsAll(c: Call, a: nat, idx: nat)
    requires idx < |Hops(c, a)|
    ensures Pass(c, a, |Hops(c, a)|)[0].index == c.clrid % |Hops(c, a)|
    ensures exists i :: 0 <= i < |Hops(c, a)| && Pass(c, a, |Hops(c, a)|)[i].index == idx
              && Pass(c, a, |Hops(c, a)|)[i].hop == Hops(c, a)[idx]
              && forall j :: 0 <= j < |Hops(c, a)| && Pass(c, a, |Hops(c, a)|)[j].index == idx ==> j == i
  {
    var n, start := |Hops(c, a)|, c.clrid % |Hops(c, a)|;
    var pass := Pass(c, a, n);
    var i := Rotation.StepOf(start, n, idx);
    Rotation.RoundIsPermutation(start, n, idx, 0);
    assert pass[i].index == idx;
    forall j | 0 <= j < n && pass[j].index == idx ensures j == i {
      Rotation.RoundIsPermutation(start, n, idx, j);
    }
    Rotation.StepOfIndex(start, n, 0);
    Rotation.ModIs(start, n, 0, start);
  }

  lemma {:induction false} FullPassesLength(c: Call, p: nat)
    ensures |FullPasses(c, p)| == HopsTotal(c, p)
  {
    if p == 0 {
    } else {
      FullPassesLength(c, p - 1);
    }
  }

  /** NetworkError is returned exactly when every attempt was made in full; and no call makes
      more visits than the hops of the snapshots it loaded. */
  lemma RetriesAreBounded(c: Call, res: Result, p: nat, k: nat)
    requires Explains(c, res, p, k)
    ensures res == Err(NetworkError) <==> p == c.maxRetries
    ensures res == Err(NetworkError) ==> |Trace(c, p, k)| == HopsTotal(c, c.maxRetries)
    ensures p < c.maxRetries ==> |Trace(c, p, k)| <= HopsTotal(c, p + 1)
  {
    FullPassesLength(c, p);
  }

  /** The world determines the outcome: no call has two explanations. */
  lemma OutcomeIsDetermined(c: Call, r1: Result, p1: nat, k1: nat, r2: Result, p2: nat, k2: nat)
    requires Explains(c, r1, p1, k1) && Explains(c, r2, p2, k2)
    ensures r1 == r2 && p1 == p2 && k1 == k2
  {
    NotBefore(c, r1, p1, k1, r2, p2, k2);
    NotBefore(c, r2, p2, k2, r1, p1, k1);
    if p1 < c.maxRetries && Hops(c, p1) != [] {
      assert Ends(c, p1, k1 - 1) && Ends(c, p1, k2 - 1);
    }
  }

  lemma NotBefore(c: Call, r1: Result, p1: nat, k1: nat, r2: Result, p2: nat, k2: nat)
    requires Explains(c, r1, p1, k1) && Explains(c, r2, p2, k2)
    ensures p2 <= p1
  {
    if p1 < c.maxRetries {
      LastPassNotComplete(c, r1, p1, k1);
    }
  }

  lemma LastPassNotComplete(c: Call, res: Result, p: nat, k: nat)
    requires Explains(c, res, p, k) && p < c.maxRetries
    ensures !PassedBy(c, p)
  {
  }
}
