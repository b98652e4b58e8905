/** Why a caller is where it is, and where it can still get to: statements over whole runs of the
    multiplexer, on its actions. */
module MultiplexerRuns {
  import opened Bytes
  import opened ShardStream
  import opened Multiplexer
  import opened MultiplexerSafety

  lemma StepInv(s: State, a: Action)
    requires Inv(s) && Enabled(s, a)
    ensures Inv(Apply(s, a))
  {
    StepCore(s, a);
    StepIds(s, a);
  }

  /** A step of the caller's own. */
  predicate OwnStep(a: Action, t: Token) {
    a == CheckClosed(t) || a == Insert(t) || a == Enqueue(t, true) || a == Enqueue(t, false)
    || a == TimeOut(t) || a == Withdraw(t) || a == Resume(t)
  }

  /** Nobody else moves a caller. */
  lemma OthersDoNotMove(s: State, a: Action, t: Token)
    requires Enabled(s, a) && t < |s.callers| && !OwnStep(a, t)
    ensures AtPc(Apply(s, a), t, s.callers[t])
  {
    if a.Enqueue? {
      assert a == Enqueue(a.t, true) || a == Enqueue(a.t, false);
    }
  }

  // ----- a resolved waiter's caller -----

  /** The caller waits for an outcome that is there, or has returned with just that outcome. */
  predicate Settled(s: State, t: Token, v: Verdict) {
    && t < |s.callers| && t in s.verdicts && s.verdicts[t] == v
    && (s.callers[t] == Waiting
        || match v
           case Delivered(f) => s.callers[t] == Returned(Answer(f))
           case Failed => s.callers[t] == Returned(ConnectionClosed)
           case Withdrawn(_) => s.callers[t] == Returned(ConnectionClosed))
  }

  lemma OwnStepSettles(s: State, a: Action, t: Token, v: Verdict)
    requires Enabled(s, a) && OwnStep(a, t) && Settled(s, t, v)
    ensures a == Resume(t)
    ensures t < |Apply(s, a).callers| && Apply(s, a).callers[t] == Returned(ReplyTo(v))
  {
  }

  lemma SettledStep(s: State, a: Action, t: Token, v: Verdict)
    requires Inv(s) && Enabled(s, a) && Settled(s, t, v)
    ensures Settled(Apply(s, a), t, v)
    ensures a == Resume(t) ==> Apply(s, a).callers[t].Returned?
  {
    VerdictsStay(s, a);
    if OwnStep(a, t) {
      OwnStepSettles(s, a, t, v);
    } else {
      OthersDoNotMove(s, a, t);
    }
  }

  lemma {:induction false} SettledRun(s: State, acts: seq<Action>, t: Token, v: Verdict)
    requires Inv(s) && Legal(s, acts) && Settled(s, t, v)
    ensures Settled(After(s, acts), t, v)
    decreases |acts|
  {
    if acts == [] {
    } else {
      SettledStep(s, acts[0], t, v);
      StepInv(s, acts[0]);
      SettledRun(Apply(s, acts[0]), acts[1..], t, v);
    }
  }

  /** A delivered answer reaches its caller: in every run from there on the caller is still
      waiting or has returned with that very frame; a failed or withdrawn waiter's caller is told
      that the connection closed. And it need not wait: its own next step makes it return. */
  lemma ResolvedCallerGetsIt(s: State, acts: seq<Action>, t: Token)
    requires Reachable(s) && AtPc(s, t, Waiting) && t in s.verdicts && Legal(s, acts)
    ensures var s' := After(s, acts);
            && t < |s'.callers|
            && (s'.callers[t] == Waiting
                || match s.verdicts[t]
                   case Delivered(f) => s'.callers[t] == Returned(Answer(f))
                   case Failed => s'.callers[t] == Returned(ConnectionClosed)
                   case Withdrawn(_) => s'.callers[t] == Returned(ConnectionClosed))
            && (s'.callers[t] == Waiting ==>
                  Enabled(s', Resume(t)) && Apply(s', Resume(t)).callers[t].Returned?)
  {
    ReachableInv(s);
    SettledRun(s, acts, t, s.verdicts[t]);
  }

  lemma StepFirst(s: State, a: Action, more: seq<Action>)
    requires Enabled(s, a) && Legal(Apply(s, a), more)
    ensures Legal(s, [a] + more) && After(s, [a] + more) == After(Apply(s, a), more)
  {
    assert ([a] + more)[1..] == more;
  }

  /** A response read off the wire goes to the waiter registered under its id, and to nobody else. */
  lemma ResponseReachesItsWaiter(s: State, f: bytes, t: Token)
    requires s.reader.None? && InTable(s, t) && ResponseFor(f, s.ids[t])
    ensures Legal(s, [Receive(f), HandOver])
    ensures var s' := After(s, [Receive(f), HandOver]);
            && s'.verdicts == s.verdicts[t := Delivered(f)] && s'.table == s.table - {s.ids[t]}
            && s'.callers == s.callers && s'.reader.None?
  {
    var s1 := Apply(s, Receive(f));
    assert s1.reader == Some((t, f)) && Enabled(s1, HandOver);
    StepFirst(s1, HandOver, []);
    StepFirst(s, Receive(f), [HandOver]);
    assert [Receive(f)] + [HandOver] == [Receive(f), HandOver] && [HandOver] + [] == [HandOver];
  }

  lemma CallSteps(s: State, f: bytes, t: Token) returns (s1: State, s2: State, s3: State)
    requires s.reader.None? && AtPc(s, t, Registered) && InTable(s, t) && ResponseFor(f, s.ids[t])
    ensures Enabled(s, Enqueue(t, true)) && s1 == Apply(s, Enqueue(t, true))
    ensures Enabled(s1, Receive(f)) && s2 == Apply(s1, Receive(f))
    ensures Enabled(s2, HandOver) && s3 == Apply(s2, HandOver)
    ensures Enabled(s3, Resume(t)) && AtPc(Apply(s3, Resume(t)), t, Returned(Answer(f)))
  {
    s1 := Apply(s, Enqueue(t, true));
    s2 := Apply(s1, Receive(f));
    s3 := Apply(s2, HandOver);
  }

  /** So a call can go through: a registered caller whose frame is queued returns with the response
      to its id as soon as that is read, whatever else is pending. */
  lemma CallGoesThrough(s: State, f: bytes, t: Token)
    requires s.reader.None? && AtPc(s, t, Registered) && InTable(s, t) && ResponseFor(f, s.ids[t])
    ensures var acts := [Enqueue(t, true), Receive(f), HandOver, Resume(t)];
            Legal(s, acts) && AtPc(After(s, acts), t, Returned(Answer(f)))
  {
    var s1, s2, s3 := CallSteps(s, f, t);
    StepFirst(s3, Resume(t), []);
    StepFirst(s2, HandOver, [Resume(t)]);
    StepFirst(s1, Receive(f), [HandOver, Resume(t)]);
    StepFirst(s, Enqueue(t, true), [Receive(f), HandOver, Resume(t)]);
    assert [Enqueue(t, true)] + [Receive(f), HandOver, Resume(t)]
      == [Enqueue(t, true), Receive(f), HandOver, Resume(t)];
    assert [Receive(f)] + [HandOver, Resume(t)] == [Receive(f), HandOver, Resume(t)];
    assert [HandOver] + [Resume(t)] == [HandOver, Resume(t)] && [Resume(t)] + [] == [Resume(t)];
  }

  /** A response nobody waits for is dropped. */
  lemma StrayResponseIsDropped(s: State, f: bytes)
    requires Reachable(s) && Enabled(s, Receive(f)) && forall t: Token :: InTable(s, t) ==> !ResponseFor(f, s.ids[t])
    ensures Apply(s, Receive(f)) == s
  {
    ReachableInv(s);
    var id := FromLe32(f[1..5]);
    if id in s.table {
      assert InTable(s, s.table[id]);
    }
  }

  // ----- reasons -----

  /** The caller's own steps that led where it is. */
  ghost predicate CallerWhy(s: State, past: seq<Action>, t: Token) {
    t < |s.callers| ==>
      match s.callers[t]
      case Issued => true
      case Checked => CheckClosed(t) in past
      case Registered => Insert(t) in past
      case Waiting => Enqueue(t, true) in past
      case Withdrawing(r) => GaveUp(past, t, r)
      case Returned(r) => ReturnWhy(s, past, t, r)
  }

  predicate GaveUp(past: seq<Action>, t: Token, r: Reply) {
    (r == Timeout && TimeOut(t) in past) || (r == ConnectionClosed && Enqueue(t, false) in past)
  }

  predicate ReturnWhy(s: State, past: seq<Action>, t: Token, r: Reply) {
    match r
    case Answer(f) => Resume(t) in past && t in s.verdicts && s.verdicts[t] == Delivered(f)
    case Timeout => TimeOut(t) in past && Withdraw(t) in past
    case IdInUse => Insert(t) in past
    case ConnectionClosed =>
      || (Resume(t) in past && t in s.verdicts && (s.verdicts[t].Failed? || s.verdicts[t].Withdrawn?))
      || (Enqueue(t, false) in past && Withdraw(t) in past)
      || (CheckClosed(t) in past && s.closed)
  }

  lemma ReturnWhyStays(s: State, s': State, past: seq<Action>, a: Action, t: Token, r: Reply)
    requires ReturnWhy(s, past, t, r) && OutcomesKept(s, s')
    ensures ReturnWhy(s', past + [a], t, r)
  {
  }

  lemma OwnStepWhy(s: State, past: seq<Action>, a: Action, t: Token)
    requires t < |s.callers| && Enabled(s, a) && OwnStep(a, t) && CallerWhy(s, past, t)
    ensures CallerWhy(Apply(s, a), past + [a], t)
  {
    assert a in past + [a];
  }

  lemma CallerWhyStep(s: State, past: seq<Action>, a: Action, t: Token)
    requires Inv(s) && Enabled(s, a) && CallerWhy(s, past, t)
    ensures CallerWhy(Apply(s, a), past + [a], t)
  {
    if t < |s.callers| {
      if OwnStep(a, t) {
        OwnStepWhy(s, past, a, t);
      } else {
        OthersDoNotMove(s, a, t);
        if s.callers[t].Returned? {
          OutcomesStay(s, a);
          ReturnWhyStays(s, Apply(s, a), past, a, t, s.callers[t].reply);
        }
      }
    }
  }

  /** Whose step resolved a waiter, and from where its frame came. */
  ghost predicate OutcomeWhy(s: State, past: seq<Action>, t: Token) {
    && (s.reader.Some? && s.reader.value.0 == t ==> Receive(s.reader.value.1) in past)
    && (t in s.verdicts ==>
          match s.verdicts[t]
          case Delivered(f) => Receive(f) in past && HandOver in past
          case Failed => exists d :: FailOne(d, t) in past
          case Withdrawn(u) => Withdraw(u) in past)
  }

  lemma OutcomeWhyStep(s: State, past: seq<Action>, a: Action, t: Token)
    requires Inv(s) && Enabled(s, a) && OutcomeWhy(s, past, t)
    ensures OutcomeWhy(Apply(s, a), past + [a], t)
  {
    VerdictsStay(s, a);
    assert forall b <- past :: b in past + [a];
    assert a in past + [a];
    if t in s.verdicts && s.verdicts[t].Failed? {
      var d :| FailOne(d, t) in past;
      assert FailOne(d, t) in past + [a];
    }
    if a.FailOne? && a.u == t {
      assert FailOne(a.d, t) in past + [a];
    }
  }

  ghost predicate Why(s: State, past: seq<Action>, t: Token) {
    && CallerWhy(s, past, t) && OutcomeWhy(s, past, t)
    && (s.closed <==> Close in past)
  }

  lemma WhyStep(s: State, past: seq<Action>, a: Action, t: Token)
    requires Inv(s) && Enabled(s, a) && Why(s, past, t)
    ensures Why(Apply(s, a), past + [a], t)
  {
    CallerWhyStep(s, past, a, t);
    OutcomeWhyStep(s, past, a, t);
    ClosedStep(s, past, a);
  }

  lemma ClosedStep(s: State, past: seq<Action>, a: Action)
    requires Enabled(s, a) && (s.closed <==> Close in past)
    ensures Apply(s, a).closed <==> Close in past + [a]
  {
  }

  lemma {:induction false} WhyRun(s: State, past: seq<Action>, acts: seq<Action>, t: Token)
    requires Inv(s) && Legal(s, acts) && Why(s, past, t)
    ensures Why(After(s, acts), past + acts, t)
    decreases |acts|
  {
    if acts == [] {
      assert past + acts == past;
    } else {
      WhyStep(s, past, acts[0], t);
      StepInv(s, acts[0]);
      assert past + acts == past + [acts[0]] + acts[1..];
      WhyRun(Apply(s, acts[0]), past + [acts[0]], acts[1..], t);
    }
  }

  /** Every return has its reason in the run: a timeout was a timeout, a refusal was a
      registration, an answer was read off the wire and handed to this caller, and the connection
      was reported closed only after a close, a failed send, a fail_all or a withdrawal. */
  lemma ReturnsHaveReasons(n: nat, acts: seq<Action>, t: Token)
    requires n > 0 && Legal(Init(n), acts)
    requires var s := After(Init(n), acts); t < |s.callers| && s.callers[t].Returned?
    ensures var s := After(Init(n), acts);
            match s.callers[t].reply
            case Answer(f) => Receive(f) in acts && HandOver in acts && Resume(t) in acts
            case Timeout => TimeOut(t) in acts && Withdraw(t) in acts
            case IdInUse => Insert(t) in acts
            case ConnectionClosed =>
              || (CheckClosed(t) in acts && Close in acts)
              || (Enqueue(t, false) in acts && Withdraw(t) in acts)
              || (Resume(t) in acts && ((exists d :: FailOne(d, t) in acts) || exists u :: Withdraw(u) in acts))
  {
    InitInv(n);
    WhyRun(Init(n), [], acts, t);
    assert [] + acts == acts;
    var s := After(Init(n), acts);
    if t in s.verdicts && s.verdicts[t].Withdrawn? {
      assert Withdraw(s.verdicts[t].agent) in acts;
    }
  }

  /** A connection is closed exactly by a close. */
  lemma ClosedIff(n: nat, acts: seq<Action>)
    requires n > 0 && Legal(Init(n), acts)
    ensures After(Init(n), acts).closed <==> Close in acts
  {
    InitInv(n);
    WhyRun(Init(n), [], acts, 0);
    assert [] + acts == acts;
  }

  // ----- after a close -----

  /** Not past the check of `closed`. */
  predicate Outside(s: State, t: Token) {
    t < |s.callers| ==> s.callers[t] == Issued || s.callers[t] == Returned(ConnectionClosed)
  }

  lemma OutsideStep(s: State, a: Action, t: Token)
    requires Inv(s) && Enabled(s, a) && s.closed && Outside(s, t) && t !in s.registered
    ensures Outside(Apply(s, a), t) && t !in Apply(s, a).registered && Apply(s, a).closed
  {
    if t < |s.callers| && !OwnStep(a, t) {
      OthersDoNotMove(s, a, t);
    }
  }

  lemma {:induction false} OutsideRun(s: State, acts: seq<Action>, t: Token)
    requires Inv(s) && Legal(s, acts) && s.closed && Outside(s, t) && t !in s.registered
    ensures Outside(After(s, acts), t) && t !in After(s, acts).registered
    decreases |acts|
  {
    if acts == [] {
    } else {
      OutsideStep(s, acts[0], t);
      StepInv(s, acts[0]);
      OutsideRun(Apply(s, acts[0]), acts[1..], t);
    }
  }

  /** A closed connection admits nobody: who had not passed the check by then never registers, and
      can return with nothing but ConnectionClosed. */
  lemma ClosedAdmitsNobody(s: State, acts: seq<Action>, t: Token)
    requires Reachable(s) && s.closed && Legal(s, acts) && (t < |s.callers| ==> s.callers[t] == Issued)
    ensures t !in After(s, acts).registered && Outside(After(s, acts), t)
  {
    ReachableInv(s);
    OutsideRun(s, acts, t);
  }

  // ----- nobody is stuck -----

  function Rank(pc: Pc): nat {
    match pc
    case Issued => 4
    case Checked => 3
    case Registered => 2
    case Waiting => 2
    case Withdrawing(_) => 1
    case Returned(_) => 0
  }

  /** Some step of its own brings the caller nearer to its return. */
  lemma NextOwnStep(s: State, t: Token) returns (a: Action)
    requires Inv(s) && Live(s, t)
    ensures OwnStep(a, t) && Enabled(s, a)
    ensures t < |Apply(s, a).callers| && Rank(Apply(s, a).callers[t]) < Rank(s.callers[t])
  {
    match s.callers[t]
    case Issued => a := CheckClosed(t);
    case Checked => a := Insert(t);
    case Registered => a := Enqueue(t, false);
    case Waiting => a := if t in s.verdicts then Resume(t) else TimeOut(t);
    case Withdrawing(_) => a := Withdraw(t);
  }

  lemma {:induction false} ReturnsAlone(s: State, t: Token) returns (acts: seq<Action>)
    requires Inv(s) && t < |s.callers|
    ensures |acts| <= Rank(s.callers[t]) && (forall a <- acts :: OwnStep(a, t)) && Legal(s, acts)
    ensures t < |After(s, acts).callers| && After(s, acts).callers[t].Returned?
    decreases Rank(s.callers[t])
  {
    acts := [];
    if !s.callers[t].Returned? {
      var a := NextOwnStep(s, t);
      StepInv(s, a);
      var more := ReturnsAlone(Apply(s, a), t);
      acts := [a] + more;
      assert acts[0] == a && acts[1..] == more;
    }
  }

  /** Nobody waits for ever: from every state a run can reach, whatever the reader, the drains and
      the other callers are doing, four steps of its own are enough for a caller to return. */
  lemma NobodyIsStuck(s: State, t: Token)
    requires Reachable(s) && t < |s.callers|
    ensures exists acts :: |acts| <= 4 && (forall a <- acts :: OwnStep(a, t)) && Legal(s, acts)
              && t < |After(s, acts).callers| && After(s, acts).callers[t].Returned?
  {
    ReachableInv(s);
    var acts := ReturnsAlone(s, t);
  }

  // ----- a fail_all comes to its end -----

  predicate DrainStep(a: Action, d: nat) {
    a == DrainNext(d) || (a.FailOne? && a.d == d)
  }

  predicate Finished(s: State, d: nat) {
    d < |s.drains| && s.drains[d].pos == s.numShards && s.drains[d].held == {}
  }

  lemma {:induction false} FailsAllHeld(s: State, d: nat) returns (acts: seq<Action>)
    requires d < |s.drains| && s.drains[d].pos == s.numShards
    ensures (forall a <- acts :: DrainStep(a, d)) && Legal(s, acts) && Finished(After(s, acts), d)
    decreases |s.drains[d].held|
  {
    acts := [];
    if s.drains[d].held != {} {
      var u :| u in s.drains[d].held;
      var a := FailOne(d, u);
      var more := FailsAllHeld(Apply(s, a), d);
      acts := [a] + more;
      assert acts[0] == a && acts[1..] == more;
    }
  }

  lemma {:induction false} DrainsAlone(s: State, d: nat) returns (acts: seq<Action>)
    requires d < |s.drains| && s.drains[d].pos <= s.numShards
    ensures (forall a <- acts :: DrainStep(a, d)) && Legal(s, acts) && Finished(After(s, acts), d)
    decreases s.numShards - s.drains[d].pos
  {
    if s.drains[d].pos == s.numShards {
      acts := FailsAllHeld(s, d);
    } else {
      var a := DrainNext(d);
      var more := DrainsAlone(Apply(s, a), d);
      acts := [a] + more;
      assert acts[0] == a && acts[1..] == more;
    }
  }

  /** From every state a run can reach, a fail_all under way can drain its last shard and fail
      whoever it holds, by its own steps alone. */
  lemma FailAllCanFinish(s: State, d: nat)
    requires Reachable(s) && d < |s.drains|
    ensures exists acts :: (forall a <- acts :: DrainStep(a, d)) && Legal(s, acts) && Finished(After(s, acts), d)
  {
    ReachableInv(s);
    assert DrainOk(s, s.drains[d]);
    var acts := DrainsAlone(s, d);
  }

  lemma {:induction false} OwnDrainSpares(s: State, acts: seq<Action>, d: nat, t: Token)
    requires Legal(s, acts) && forall a <- acts :: DrainStep(a, d)
    ensures Spared(s, acts, d, t)
    decreases |acts|
  {
    if acts == [] {
    } else {
      assert acts[0] in acts && forall a <- acts[1..] :: a in acts;
      OwnDrainSpares(Apply(s, acts[0]), acts[1..], d, t);
    }
  }

  /** Run without interference, from any state a run can reach, a fail_all fails everyone who is in
      the table. */
  lemma FailAllAlone(s: State) returns (acts: seq<Action>)
    requires Reachable(s)
    ensures forall a <- acts :: DrainStep(a, |s.drains|)
    ensures Legal(Apply(s, BeginFailAll), acts) && Finished(After(Apply(s, BeginFailAll), acts), |s.drains|)
    ensures forall t: Token :: InTable(s, t) ==>
              t in After(Apply(s, BeginFailAll), acts).verdicts
              && After(Apply(s, BeginFailAll), acts).verdicts[t] == Failed
  {
    var s1, d := Apply(s, BeginFailAll), |s.drains|;
    acts := DrainsAlone(s1, d);
    var s2 := After(s1, acts);
    forall t: Token | InTable(s, t) ensures t in s2.verdicts && s2.verdicts[t] == Failed {
      OwnDrainSpares(s1, acts, d, t);
      FailAllFailsEveryone(s, acts, t);
    }
  }
}
