/** What the invariant of the multiplexer means for its callers, over every interleaving. */
module MultiplexerSafety {
  import opened Bytes
  import opened ShardStream
  import opened CorrelationIds
  import opened Multiplexer
  import Demux

  ghost predicate Reachable(s: State) {
    exists n: nat, acts: seq<Action> :: n > 0 && Legal(Init(n), acts) && s == After(Init(n), acts)
  }

  lemma ReachableInv(s: State)
    requires Reachable(s)
    ensures Inv(s)
  {
    var n: nat, acts: seq<Action> :| n > 0 && Legal(Init(n), acts) && s == After(Init(n), acts);
    InitInv(n);
    RunInv(Init(n), acts);
  }

  /** Each waiter is resolved at most once, for good; `closed` only rises; a caller's return is final. */
  lemma ResolvedOnce(s: State, a: Action)
    requires Reachable(s) && Enabled(s, a)
    ensures OutcomesKept(s, Apply(s, a))
  {
    ReachableInv(s);
    OutcomesStay(s, a);
  }

  ghost predicate OutcomesKept(s: State, s': State) {
    && (forall t :: t in s.verdicts ==> t in s'.verdicts && s'.verdicts[t] == s.verdicts[t])
    && (s.closed ==> s'.closed) && s.registered <= s'.registered
    && (forall t :: 0 <= t < |s.callers| && s.callers[t].Returned? ==> AtPc(s', t, s.callers[t]))
  }

  lemma OutcomesStay(s: State, a: Action)
    requires Inv(s) && Enabled(s, a)
    ensures OutcomesKept(s, Apply(s, a))
  {
    VerdictsStay(s, a);
    ReturnsStay(s, a);
  }

  lemma VerdictsStay(s: State, a: Action)
    requires Inv(s) && Enabled(s, a)
    ensures var s' := Apply(s, a);
            forall t :: t in s.verdicts ==> t in s'.verdicts && s'.verdicts[t] == s.verdicts[t]
  {
    match a
    case FailOne(d, u) => assert DrainOk(s, s.drains[d]);
    case Withdraw(t) =>
    case HandOver =>
    case _ =>
  }

  lemma ReturnsStay(s: State, a: Action)
    requires Enabled(s, a)
    ensures forall t :: 0 <= t < |s.callers| && s.callers[t].Returned? ==> AtPc(Apply(s, a), t, s.callers[t])
  {
  }

  /** A caller that gets an answer gets the frame that was delivered to it, and that frame is a
      whole response carrying the id the caller registered under. */
  lemma AnswerIsOwn(s: State, t: Token)
    requires Reachable(s) && t < |s.callers| && s.callers[t].Returned? && s.callers[t].reply.Answer?
    ensures t < |s.ids| && ResponseFor(s.callers[t].reply.frame, s.ids[t]) && s.ids[t] == IssuedId(t)
    ensures t in s.verdicts && s.verdicts[t] == Delivered(s.callers[t].reply.frame)
  {
    ReachableInv(s);
    assert CallerOk(s, t, s.callers[t]);
  }

  // ----- conservation -----

  function DeliveredSet(s: State): set<Token> { set t | t in s.verdicts && s.verdicts[t].Delivered? }
  function FailedSet(s: State): set<Token> { set t | t in s.verdicts && s.verdicts[t].Failed? }
  function WithdrawnSet(s: State): set<Token> { set t | t in s.verdicts && s.verdicts[t].Withdrawn? }

  /** Taken out of the table by the reader or a fail_all, not yet notified. */
  ghost function InFlight(s: State): set<Token> {
    set t | t in s.registered && (AtReader(s, t) || exists d :: Holds(s.drains, d, t))
  }

  lemma DisjointCount(a: set<Token>, b: set<Token>, c: set<Token>)
    requires a !! b && (a + b) !! c
    ensures |a + b + c| == |a| + |b| + |c|
  {
  }

  lemma VerdictCount(s: State)
    ensures s.verdicts.Keys == DeliveredSet(s) + FailedSet(s) + WithdrawnSet(s)
    ensures |s.verdicts.Keys| == |DeliveredSet(s)| + |FailedSet(s)| + |WithdrawnSet(s)|
  {
  }

  /** Every waiter ever registered is in exactly one place. */
  lemma Conservation(s: State)
    requires Reachable(s)
    ensures s.registered == s.table.Values + InFlight(s) + DeliveredSet(s) + FailedSet(s) + WithdrawnSet(s)
    ensures |s.registered| == |s.table| + |InFlight(s)| + |DeliveredSet(s)| + |FailedSet(s)| + |WithdrawnSet(s)|
  {
    ReachableInv(s);
    PlacesCount(s);
    VerdictCount(s);
  }

  lemma PlacesCount(s: State)
    requires Inv(s)
    ensures s.registered == s.table.Values + InFlight(s) + s.verdicts.Keys
    ensures |s.registered| == |s.table| + |InFlight(s)| + |s.verdicts.Keys|
  {
    PlacesDisjoint(s);
    PlacesCover(s);
    DisjointCount(s.table.Values, InFlight(s), s.verdicts.Keys);
    ValuesCount(s.table, s.ids);
  }

  lemma PlacesDisjoint(s: State)
    requires Inv(s)
    ensures s.table.Values !! InFlight(s) && (s.table.Values + InFlight(s)) !! s.verdicts.Keys
  {
  }

  lemma PlacesCover(s: State)
    requires Inv(s)
    ensures s.registered == s.table.Values + InFlight(s) + s.verdicts.Keys
  {
  }

  /** No two ids of the table share a waiter. */
  lemma ValuesCount(m: map<u32, Token>, ids: seq<u32>)
    requires forall id :: id in m ==> m[id] < |ids| && ids[m[id]] == id
    ensures |m.Values| == |m|
    decreases |m|
  {
    if m != map[] {
      var id :| id in m;
      var m' := m - {id};
      ValuesCount(m', ids);
      forall id' | id' in m' ensures m'[id'] != m[id] {
        assert ids[m[id']] == id';
      }
      forall v | v in m.Values ensures v in m'.Values + {m[id]} {
        var k :| k in m && m[k] == v;
        assert k != id ==> k in m';
      }
      assert m.Values == m'.Values + {m[id]};
    } else {
      assert m.Values == {};
    }
  }

  // ----- nobody is forgotten -----

  ghost predicate Live(s: State, t: Token) {
    t < |s.callers| && !s.callers[t].Returned?
  }

  /** An entry outlives its caller never. */
  lemma PendingIsLive(s: State, id: u32)
    requires Inv(s) && id in s.table
    ensures Live(s, s.table[id])
  {
  }

  /** Once every caller has returned the table is empty: no entry leaks. */
  lemma QuiescentIsEmpty(s: State)
    requires Reachable(s) && forall t :: 0 <= t < |s.callers| ==> s.callers[t].Returned?
    ensures s.table == map[]
    ensures InFlight(s) == {} ==> s.registered == s.verdicts.Keys
  {
    ReachableInv(s);
    forall id | id in s.table ensures Live(s, s.table[id]) {
      PendingIsLive(s, id);
    }
    assert s.table == map[];
    PlacesCover(s);
  }

  lemma {:induction false} PresentKept(s: State, acts: seq<Action>, d: nat)
    requires Legal(s, acts) && d < |s.drains|
    ensures d < |After(s, acts).drains| && After(s, acts).drains[d].present == s.drains[d].present
    ensures After(s, acts).numShards == s.numShards
    decreases |acts|
  {
    if acts == [] {
    } else {
      PresentKept(Apply(s, acts[0]), acts[1..], d);
    }
  }

  lemma {:induction false} RunAppend(s: State, acts: seq<Action>, more: seq<Action>)
    requires Legal(s, acts) && Legal(After(s, acts), more)
    ensures Legal(s, acts + more) && After(s, acts + more) == After(After(s, acts), more)
    decreases |acts|
  {
    if acts == [] {
      assert acts + more == more;
    } else {
      assert (acts + more)[0] == acts[0] && (acts + more)[1..] == acts[1..] + more;
      RunAppend(Apply(s, acts[0]), acts[1..], more);
    }
  }

  lemma ReachableAfter(s: State, acts: seq<Action>)
    requires Reachable(s) && Legal(s, acts)
    ensures Reachable(After(s, acts))
  {
    var n: nat, before: seq<Action> :| n > 0 && Legal(Init(n), before) && s == After(Init(n), before);
    RunAppend(Init(n), before, acts);
  }

  /** A fail_all that ran to its end, whatever happened between its shards, has taken every
      waiter that was there when it began out of the table. What is no longer held by a task
      has been notified. */
  lemma FailAllLeavesNobody(s: State, acts: seq<Action>, t: Token)
    requires Reachable(s) && InTable(s, t)
    requires Legal(Apply(s, BeginFailAll), acts)
    requires var s2 := After(Apply(s, BeginFailAll), acts);
             |s.drains| < |s2.drains| && s2.drains[|s.drains|].pos == s2.numShards
    ensures var s2 := After(Apply(s, BeginFailAll), acts);
            !InTable(s2, t) && (t in s2.verdicts || t in InFlight(s2))
  {
    var s1, d := Apply(s, BeginFailAll), |s.drains|;
    var s2 := After(s1, acts);
    ReachableInv(s);
    assert Enabled(s, BeginFailAll) && Legal(s, [BeginFailAll]) && After(s, [BeginFailAll]) == s1;
    ReachableAfter(s, [BeginFailAll]);
    ReachableAfter(s1, acts);
    ReachableInv(s2);
    PresentKept(s1, acts, d);
    assert t in s2.drains[d].present;
    assert DrainOk(s2, s2.drains[d]);
    assert t in s2.registered;
    assert Demux.Home(s2.ids[t], s2.numShards) < s2.numShards;
  }

  /** A step by which somebody else than drain `d` takes the waiter out of the table. */
  ghost predicate Snatches(s: State, a: Action, d: nat, t: Token)
    requires Enabled(s, a)
  {
    s.numShards > 0 && InTable(s, t) &&
    match a
    case Withdraw(u) => s.ids[u] == s.ids[t]
    case Receive(f) => FromLe32(f[1..5]) == s.ids[t]
    case DrainNext(e) => e != d && Demux.Home(s.ids[t], s.numShards) == s.drains[e].pos
    case _ => false
  }

  ghost predicate Spared(s: State, acts: seq<Action>, d: nat, t: Token)
    requires Legal(s, acts)
    decreases |acts|
  {
    acts != [] ==> !Snatches(s, acts[0], d, t) && Spared(Apply(s, acts[0]), acts[1..], d, t)
  }

  /** The waiter is still to be found by drain `d`, or in its hands, or failed. */
  ghost predicate Doomed(s: State, d: nat, t: Token) {
    InTable(s, t) || Holds(s.drains, d, t) || (t in s.verdicts && s.verdicts[t] == Failed)
  }

  lemma DoomedInTable(s: State, a: Action, d: nat, t: Token)
    requires Inv(s) && Enabled(s, a) && InTable(s, t) && !Snatches(s, a, d, t) && d < |s.drains|
    ensures Doomed(Apply(s, a), d, t)
  {
    if a.DrainNext? && !InTable(Apply(s, a), t) {
      assert s.ids[t] in InShard(s, s.drains[a.d].pos);
      assert a.d == d && t in Apply(s, a).drains[d].held;
    }
  }

  lemma DoomedElsewhere(s: State, a: Action, d: nat, t: Token)
    requires Inv(s) && Enabled(s, a) && !InTable(s, t) && Doomed(s, d, t)
    ensures Doomed(Apply(s, a), d, t)
  {
    var s' := Apply(s, a);
    OutcomesStay(s, a);
    if Holds(s.drains, d, t) && !Holds(s'.drains, d, t) {
      assert a == FailOne(d, t) && s'.verdicts[t] == Failed;
    }
  }

  lemma DoomedStep(s: State, a: Action, d: nat, t: Token)
    requires Inv(s) && Enabled(s, a) && d < |s.drains| && Doomed(s, d, t) && !Snatches(s, a, d, t)
    ensures Doomed(Apply(s, a), d, t) && d < |Apply(s, a).drains|
  {
    if InTable(s, t) {
      DoomedInTable(s, a, d, t);
    } else {
      DoomedElsewhere(s, a, d, t);
    }
  }

  lemma {:induction false} DoomedRun(s: State, acts: seq<Action>, d: nat, t: Token)
    requires Inv(s) && Legal(s, acts) && d < |s.drains| && Doomed(s, d, t) && Spared(s, acts, d, t)
    ensures Doomed(After(s, acts), d, t)
    decreases |acts|
  {
    if acts == [] {
    } else {
      DoomedStep(s, acts[0], d, t);
      StepCore(s, acts[0]);
      StepIds(s, acts[0]);
      DoomedRun(Apply(s, acts[0]), acts[1..], d, t);
    }
  }

  /** A fail_all that has drained every shard and notified everyone it found, whatever happened
      between its steps, has failed each waiter that was there when it began, unless a response,
      a withdrawal or another fail_all took that waiter first. */
  lemma FailAllFailsEveryone(s: State, acts: seq<Action>, t: Token)
    requires Reachable(s) && InTable(s, t)
    requires Legal(Apply(s, BeginFailAll), acts) && Spared(Apply(s, BeginFailAll), acts, |s.drains|, t)
    requires var s2 := After(Apply(s, BeginFailAll), acts);
             |s.drains| < |s2.drains| && s2.drains[|s.drains|].pos == s2.numShards && s2.drains[|s.drains|].held == {}
    ensures var s2 := After(Apply(s, BeginFailAll), acts); t in s2.verdicts && s2.verdicts[t] == Failed
  {
    var s1, d := Apply(s, BeginFailAll), |s.drains|;
    FailAllLeavesNobody(s, acts, t);
    ReachableInv(s);
    StepCore(s, BeginFailAll);
    StepIds(s, BeginFailAll);
    DoomedRun(s1, acts, d, t);
  }

  /** And whoever took it has it still, or has resolved it: a finished fail_all leaves no waiter
      that was there when it began without an outcome or somebody about to give it one. */
  lemma FailAllAccountsForEveryone(s: State, acts: seq<Action>, t: Token)
    requires Reachable(s) && InTable(s, t)
    requires Legal(Apply(s, BeginFailAll), acts)
    requires var s2 := After(Apply(s, BeginFailAll), acts);
             |s.drains| < |s2.drains| && s2.drains[|s.drains|].pos == s2.numShards && s2.drains[|s.drains|].held == {}
    ensures var s2 := After(Apply(s, BeginFailAll), acts);
            t in s2.verdicts || AtReader(s2, t) || exists e :: e != |s.drains| && Holds(s2.drains, e, t)
  {
    FailAllLeavesNobody(s, acts, t);
  }

  // ----- ids that wrap around -----

  /** Fewer than 2^32 - 1 ids were issued since any live caller's own. */
  ghost predicate Window(s: State) {
    forall t :: Live(s, t) ==> |s.ids| - t <= ID_COUNT
  }

  lemma WindowIdsDiffer(s: State, t: Token, u: Token)
    requires Inv(s) && Window(s) && Live(s, t) && Live(s, u) && t != u
    ensures s.ids[t] != s.ids[u]
  {
    if t < u {
      WindowDistinct(t, u);
    } else {
      WindowDistinct(u, t);
    }
  }

  /** Inside the window a fresh id is never rejected and a withdrawal takes only its own entry. */
  lemma WindowIsSafe(s: State, t: Token)
    requires Inv(s) && Window(s) && Live(s, t)
    ensures AtPc(s, t, Checked) ==> s.ids[t] !in s.table
    ensures s.ids[t] in s.table ==> s.table[s.ids[t]] == t
  {
    if s.ids[t] in s.table {
      var u := s.table[s.ids[t]];
      PendingIsLive(s, s.ids[t]);
      if u != t {
        WindowIdsDiffer(s, t, u);
      }
      assert CallerOk(s, t, s.callers[t]);
    }
  }

  ghost predicate WindowAlways(s: State, acts: seq<Action>)
    requires Legal(s, acts)
    decreases |acts|
  {
    Window(s) && (acts != [] ==> WindowAlways(Apply(s, acts[0]), acts[1..]))
  }

  /** Nobody was rejected, and nobody's entry was withdrawn by another caller. */
  ghost predicate OwnOnly(s: State) {
    && (forall t :: 0 <= t < |s.callers| ==> s.callers[t] != Returned(IdInUse))
    && (forall t :: t in s.verdicts && s.verdicts[t].Withdrawn? ==> s.verdicts[t].agent == t)
  }

  /** How many ids were issued between two callers' own. */
  function Apart(t: Token, u: Token): nat { if t <= u then u - t else t - u }

  /** Another caller's entry is in the table, issued a multiple of the id window away from `t`. */
  ghost predicate Collides(s: State, t: Token) {
    exists u: Token :: u != t && InTable(s, u) && Apart(t, u) % ID_COUNT == 0
  }

  lemma SameIdApart(s: State, t: Token, u: Token)
    requires Inv(s) && t < |s.ids| && u < |s.ids|
    ensures s.ids[t] == s.ids[u] <==> Apart(t, u) % ID_COUNT == 0
  {
    if t <= u {
      SameIdIff(t, u);
    } else {
      SameIdIff(u, t);
    }
  }

  /** The entry under a caller's id is another's exactly when the two collide. */
  lemma CollidesIff(s: State, t: Token)
    requires Inv(s) && t < |s.ids|
    ensures Collides(s, t) <==> s.ids[t] in s.table && s.table[s.ids[t]] != t
  {
    if s.ids[t] in s.table && s.table[s.ids[t]] != t {
      SameIdApart(s, t, s.table[s.ids[t]]);
      assert InTable(s, s.table[s.ids[t]]);
    }
    if Collides(s, t) {
      var u: Token :| u != t && InTable(s, u) && Apart(t, u) % ID_COUNT == 0;
      SameIdApart(s, t, u);
    }
  }

  /** A withdrawal resolves some other caller's waiter exactly when such an entry is there. */
  lemma WithdrawHitsAnotherIff(s: State, t: Token)
    requires Reachable(s) && Enabled(s, Withdraw(t))
    ensures (exists u: Token :: u != t && u !in s.verdicts && u in Apply(s, Withdraw(t)).verdicts) <==> Collides(s, t)
  {
    ReachableInv(s);
    CollidesIff(s, t);
    if Collides(s, t) {
      var u := s.table[s.ids[t]];
      assert u != t && u !in s.verdicts && u in Apply(s, Withdraw(t)).verdicts;
    }
  }

  /** A registration is refused exactly when such an entry is there. */
  lemma InsertRefusedIff(s: State, t: Token)
    requires Reachable(s) && Enabled(s, Insert(t))
    ensures AtPc(Apply(s, Insert(t)), t, Returned(IdInUse)) <==> Collides(s, t)
  {
    ReachableInv(s);
    CollidesIff(s, t);
    assert CallerOk(s, t, s.callers[t]);
  }

  /** The steps that go wrong. */
  ghost predicate Foreign(s: State, a: Action) {
    match a
    case Insert(t) => Collides(s, t)
    case Withdraw(t) => Collides(s, t)
    case _ => false
  }

  ghost predicate CollisionFree(s: State, acts: seq<Action>)
    requires Legal(s, acts)
    decreases |acts|
  {
    acts != [] ==> !Foreign(s, acts[0]) && CollisionFree(Apply(s, acts[0]), acts[1..])
  }

  lemma OwnInsertIff(s: State, t: Token)
    requires Inv(s) && OwnOnly(s) && Enabled(s, Insert(t))
    ensures OwnOnly(Apply(s, Insert(t))) <==> !Collides(s, t)
  {
    CollidesIff(s, t);
    assert CallerOk(s, t, s.callers[t]);
    if Collides(s, t) {
      assert Apply(s, Insert(t)).callers[t] == Returned(IdInUse);
    }
  }

  lemma OwnWithdrawIff(s: State, t: Token)
    requires Inv(s) && OwnOnly(s) && Enabled(s, Withdraw(t))
    ensures OwnOnly(Apply(s, Withdraw(t))) <==> !Collides(s, t)
  {
    CollidesIff(s, t);
    assert CallerOk(s, t, s.callers[t]);
    if Collides(s, t) {
      assert s.table[s.ids[t]] in Apply(s, Withdraw(t)).verdicts;
    }
  }

  lemma OwnOnlyStepIff(s: State, a: Action)
    requires Inv(s) && OwnOnly(s) && Enabled(s, a)
    ensures OwnOnly(Apply(s, a)) <==> !Foreign(s, a)
  {
    match a
    case Insert(t) => OwnInsertIff(s, t);
    case Withdraw(t) => OwnWithdrawIff(s, t);
    case _ =>
  }

  /** What went wrong once stays on record. */
  lemma ForeignStays(s: State, a: Action)
    requires Inv(s) && !OwnOnly(s) && Enabled(s, a)
    ensures !OwnOnly(Apply(s, a))
  {
    OutcomesStay(s, a);
    if t: Token :| t < |s.callers| && s.callers[t] == Returned(IdInUse) {
      assert AtPc(Apply(s, a), t, Returned(IdInUse));
    } else {
      var t :| t in s.verdicts && s.verdicts[t].Withdrawn? && s.verdicts[t].agent != t;
      assert t in Apply(s, a).verdicts;
    }
  }

  lemma {:induction false} OwnOnlyRunIff(s: State, acts: seq<Action>)
    requires Inv(s) && Legal(s, acts)
    ensures OwnOnly(After(s, acts)) <==> OwnOnly(s) && CollisionFree(s, acts)
    decreases |acts|
  {
    if acts == [] {
    } else {
      StepCore(s, acts[0]);
      StepIds(s, acts[0]);
      OwnOnlyRunIff(Apply(s, acts[0]), acts[1..]);
      if OwnOnly(s) {
        OwnOnlyStepIff(s, acts[0]);
      } else {
        ForeignStays(s, acts[0]);
      }
    }
  }

  /** Over whole runs: nobody was refused and every withdrawal was a caller's own exactly when
      no registration and no withdrawal met another caller's entry a multiple of 2^32 - 1 issues
      away. */
  lemma RunsAreOwnOnlyIff(n: nat, acts: seq<Action>)
    requires n > 0 && Legal(Init(n), acts)
    ensures OwnOnly(After(Init(n), acts)) <==> CollisionFree(Init(n), acts)
  {
    InitInv(n);
    OwnOnlyRunIff(Init(n), acts);
  }

  lemma {:induction false} WindowIsCollisionFree(s: State, acts: seq<Action>)
    requires Inv(s) && Legal(s, acts) && WindowAlways(s, acts)
    ensures CollisionFree(s, acts)
    decreases |acts|
  {
    if acts == [] {
    } else {
      var a := acts[0];
      if a.Insert? || a.Withdraw? {
        WindowIsSafe(s, a.t);
        CollidesIff(s, a.t);
      }
      StepCore(s, a);
      StepIds(s, a);
      WindowIsCollisionFree(Apply(s, a), acts[1..]);
    }
  }

  /** In every run that stays inside the window no fresh id is ever rejected and every
      withdrawal is a caller's own. */
  lemma WindowedRunsAreOwnOnly(n: nat, acts: seq<Action>)
    requires n > 0 && Legal(Init(n), acts) && WindowAlways(Init(n), acts)
    ensures OwnOnly(After(Init(n), acts))
  {
    InitInv(n);
    WindowIsCollisionFree(Init(n), acts);
    OwnOnlyRunIff(Init(n), acts);
  }

  // ----- the window is needed -----

  function Issues(k: nat): (acts: seq<Action>)
    ensures |acts| == k
  {
    seq(k, _ => Issue)
  }

  /** `s` after `k` more ids were issued and nothing else happened. */
  function Idle(s: State, k: nat): (r: State)
    ensures r.table == s.table && r.reader == s.reader && r.drains == s.drains && r.verdicts == s.verdicts
    ensures r.registered == s.registered && r.closed == s.closed && r.numShards == s.numShards
    ensures |r.callers| == |s.callers| + k && |r.ids| == |s.ids| + k
    ensures forall i :: 0 <= i < |s.callers| ==> r.callers[i] == s.callers[i]
    ensures forall i :: |s.callers| <= i < |s.callers| + k ==> r.callers[i] == Issued
    ensures forall i :: 0 <= i < |s.ids| ==> r.ids[i] == s.ids[i]
    decreases k
  {
    if k == 0 then s else Idle(Apply(s, Issue), k - 1)
  }

  lemma {:induction false} IdleRun(s: State, k: nat)
    ensures Legal(s, Issues(k)) && After(s, Issues(k)) == Idle(s, k)
    decreases k
  {
    if k == 0 {
    } else {
      assert Issues(k)[1..] == Issues(k - 1);
      IdleRun(Apply(s, Issue), k - 1);
    }
  }

  /** Caller 0 has timed out and its answer has been read, but it has not withdrawn yet. */
  predicate AboutToWithdraw(s: State) {
    s.table == map[] && s.callers == [Withdrawing(Timeout)] && s.ids == [1] && !s.closed && s.verdicts.Keys == {0}
  }

  lemma FirstCallerWaits(n: nat) returns (s: State)
    requires n > 0
    ensures Reachable(s) && s.numShards == n && s.table == map[1 := 0] && s.callers == [Waiting] && s.ids == [1]
    ensures !s.closed && s.verdicts == map[] && s.reader == None
  {
    s := Init(n);
    assert Legal(s, []) && After(s, []) == s;
    s := OneStep(s, Issue);
    s := OneStep(s, CheckClosed(0));
    s := OneStep(s, Insert(0));
    s := OneStep(s, Enqueue(0, true));
  }

  lemma TimedOutTooLate(n: nat, answer: bytes) returns (s: State)
    requires n > 0 && ResponseFor(answer, 1)
    ensures Reachable(s) && s.numShards == n && AboutToWithdraw(s)
  {
    s := FirstCallerWaits(n);
    s := OneStep(s, TimeOut(0));
    s := OneStep(s, Receive(answer));
    s := OneStep(s, HandOver);
  }

  lemma OneStep(s: State, a: Action) returns (s': State)
    requires Reachable(s) && Enabled(s, a)
    ensures s' == Apply(s, a) && Reachable(s')
  {
    s' := Apply(s, a);
    assert Legal(s', []) && Legal(s, [a]) && After(s, [a]) == s';
    ReachableAfter(s, [a]);
  }

  /** The k-th id issued after it belongs to the k-th next caller. */
  lemma IssuedLater(s: State, k: nat) returns (a: State)
    requires Reachable(s) && |s.ids| == 1 && k > 0
    ensures Reachable(a) && a == Idle(s, k) && a.ids[k] == IssuedId(k)
  {
    a := Idle(s, k);
    IdleRun(s, k);
    ReachableAfter(s, Issues(k));
    ReachableInv(a);
  }

  /** Outside the window it goes wrong: caller 0 times out, its answer arrives before it removes
      its entry, 2^32 - 1 ids later a caller registers under the same id, and caller 0's late
      withdrawal then takes that caller's entry away, whatever the number of shards. */
  lemma LateWithdrawalHitsAnother(n: nat, answer: bytes)
    requires n > 0 && ResponseFor(answer, 1)
    ensures exists s :: Reachable(s) && s.numShards == n && TakesAnothers(s, 0, ID_COUNT)
  {
    var s := TimedOutTooLate(n, answer);
    SameIdIff(0, ID_COUNT);
    s := RegisteredLater(s, ID_COUNT);
  }

  /** The k-th next caller registers, if its id is the first one. */
  lemma RegisteredLater(s: State, k: nat) returns (r: State)
    requires Reachable(s) && AboutToWithdraw(s) && k > 0 && IssuedId(k) == 1
    ensures Reachable(r) && r.numShards == s.numShards && TakesAnothers(r, 0, k)
  {
    var a := IssuedLater(s, k);
    var b := OneStep(a, CheckClosed(k));
    r := OneStep(b, Insert(k));
    assert r.table == map[1 := k] && r.ids[0] == 1 && r.ids[k] == 1;
    assert InTable(r, k) && AtPc(r, k, Registered) && Enabled(r, Withdraw(0));
  }

  /** `t` may withdraw now, and would remove the entry of `u`, who is still waiting for it. */
  ghost predicate TakesAnothers(s: State, t: Token, u: Token) {
    && t != u && Enabled(s, Withdraw(t)) && AtPc(s, u, Registered) && InTable(s, u)
    && u in Apply(s, Withdraw(t)).verdicts && Apply(s, Withdraw(t)).verdicts[u] == Withdrawn(t)
  }
}
