/** One connection shared by many callers: a transition system whose steps are the single
    lock acquisitions, channel operations and flag accesses of its tasks. The table is the
    plain map the sharded one stands for; SharedTable shows that the shards follow it. */
module Multiplexer {
  import opened Bytes
  import opened ShardStream
  import opened CorrelationIds
  import Demux

  /** A call of send_and_wait, named by the position of its id in the order of issue. */
  type Token = nat

  datatype Reply = Answer(frame: bytes) | ConnectionClosed | Timeout | IdInUse

  /** Where a caller is. `Withdrawing` has given up and is about to remove the entry under its id. */
  datatype Pc = Issued | Checked | Registered | Waiting | Withdrawing(reply: Reply) | Returned(reply: Reply)

  /** What became of a waiter's one-shot channel. */
  datatype Verdict = Delivered(frame: bytes) | Failed | Withdrawn(agent: Token)

  /** A fail_all under way: the next shard to drain, the waiters taken out and not yet failed,
      and (for the proofs) the waiters that were in the table when it began. */
  datatype Drain = Drain(pos: nat, held: set<Token>, present: set<Token>)

  datatype State = State(
    numShards: nat,
    counter: u32,
    ids: seq<u32>,
    callers: seq<Pc>,
    table: map<u32, Token>,
    reader: Option<(Token, bytes)>,
    drains: seq<Drain>,
    verdicts: map<Token, Verdict>,
    registered: set<Token>,
    closed: bool)

  datatype Action =
    | Issue
    | CheckClosed(t: Token)
    | Insert(t: Token)
    | Enqueue(t: Token, ok: bool)
    | TimeOut(t: Token)
    | Withdraw(t: Token)
    | Resume(t: Token)
    | Receive(frame: bytes)
    | HandOver
    | BeginFailAll
    | DrainNext(d: nat)
    | FailOne(d: nat, u: Token)
    | Close

  function Init(numShards: nat): State {
    State(numShards, 1, [], [], map[], None, [], map[], {}, false)
  }

  predicate AtPc(s: State, t: Token, pc: Pc) {
    t < |s.callers| && s.callers[t] == pc
  }

  predicate Enabled(s: State, a: Action) {
    match a
    case Issue => true
    case CheckClosed(t) => AtPc(s, t, Issued)
    case Insert(t) => AtPc(s, t, Checked) && t < |s.ids|
    case Enqueue(t, _) => AtPc(s, t, Registered)
    case TimeOut(t) => AtPc(s, t, Waiting) && t !in s.verdicts
    case Withdraw(t) => t < |s.callers| && s.callers[t].Withdrawing? && t < |s.ids|
    case Resume(t) => AtPc(s, t, Waiting) && t in s.verdicts
    case Receive(f) => s.reader.None? && WholeResponse(f)
    case HandOver => s.reader.Some?
    case BeginFailAll => true
    case DrainNext(d) => d < |s.drains| && s.drains[d].pos < s.numShards
    case FailOne(d, u) => d < |s.drains| && s.drains[d].pos == s.numShards && u in s.drains[d].held
    case Close => true
  }

  /** The skip loop of next_corr_id in one step: the id handed out and the counter left behind. */
  function NextId(counter: u32): (r: (u32, u32)) {
    if counter == 0 then (1, 2) else (counter, (counter + 1) % U32_SIZE)
  }

  function ReplyTo(v: Verdict): Reply {
    match v
    case Delivered(f) => Answer(f)
    case Failed => ConnectionClosed
    case Withdrawn(_) => ConnectionClosed
  }

  /** The waiters of the ids that live in one shard. */
  function InShard(s: State, h: nat): (here: map<u32, Token>)
    requires h < s.numShards
  {
    map id | id in s.table && Demux.Home(id, s.numShards) == h :: s.table[id]
  }

  function Apply(s: State, a: Action): State
    requires Enabled(s, a)
  {
    match a
    case Issue =>
      var (id, counter) := NextId(s.counter);
      s.(counter := counter, ids := s.ids + [id], callers := s.callers + [Issued])
    case CheckClosed(t) =>
      s.(callers := s.callers[t := if s.closed then Returned(ConnectionClosed) else Checked])
    case Insert(t) =>
      if s.ids[t] in s.table then s.(callers := s.callers[t := Returned(IdInUse)])
      else s.(table := s.table[s.ids[t] := t], callers := s.callers[t := Registered],
              registered := s.registered + {t})
    case Enqueue(t, ok) =>
      s.(callers := s.callers[t := if ok then Waiting else Withdrawing(ConnectionClosed)])
    case TimeOut(t) =>
      s.(callers := s.callers[t := Withdrawing(Timeout)])
    case Withdraw(t) =>
      var s' := s.(table := s.table - {s.ids[t]}, callers := s.callers[t := Returned(s.callers[t].reply)]);
      if s.ids[t] in s.table then s'.(verdicts := s.verdicts[s.table[s.ids[t]] := Withdrawn(t)]) else s'
    case Resume(t) =>
      s.(callers := s.callers[t := Returned(ReplyTo(s.verdicts[t]))])
    case Receive(f) =>
      var id := FromLe32(f[1..5]);
      if id in s.table then s.(table := s.table - {id}, reader := Some((s.table[id], f))) else s
    case HandOver =>
      s.(reader := None, verdicts := s.verdicts[s.reader.value.0 := Delivered(s.reader.value.1)])
    case BeginFailAll =>
      s.(drains := s.drains + [Drain(0, {}, s.table.Values)])
    case DrainNext(d) =>
      var dr := s.drains[d];
      var here := InShard(s, dr.pos);
      s.(table := s.table - here.Keys,
         drains := s.drains[d := Drain(dr.pos + 1, dr.held + here.Values, dr.present)])
    case FailOne(d, u) =>
      var dr := s.drains[d];
      s.(drains := s.drains[d := dr.(held := dr.held - {u})], verdicts := s.verdicts[u := Failed])
    case Close =>
      s.(closed := true)
  }

  // ----- runs -----

  predicate Legal(s: State, acts: seq<Action>)
    decreases |acts|
  {
    acts == [] || (Enabled(s, acts[0]) && Legal(Apply(s, acts[0]), acts[1..]))
  }

  function After(s: State, acts: seq<Action>): State
    requires Legal(s, acts)
    decreases |acts|
  {
    if acts == [] then s else After(Apply(s, acts[0]), acts[1..])
  }

  // ----- the invariant -----

  ghost predicate InTable(s: State, t: Token) {
    t < |s.ids| && s.ids[t] in s.table && s.table[s.ids[t]] == t
  }

  ghost predicate AtReader(s: State, t: Token) {
    s.reader.Some? && s.reader.value.0 == t
  }

  ghost predicate Holds(drains: seq<Drain>, d: nat, t: Token) {
    d < |drains| && t in drains[d].held
  }

  /** The table holds each waiter under the id it was issued. */
  ghost predicate TableOk(s: State) {
    forall id :: id in s.table ==>
      s.table[id] < |s.ids| && s.ids[s.table[id]] == id && s.table[id] in s.registered && s.table[id] !in s.verdicts
  }

  ghost predicate ReaderOk(s: State) {
    s.reader.Some? ==>
      var t := s.reader.value.0;
      && t < |s.ids| && t in s.registered && t !in s.verdicts && !InTable(s, t)
      && ResponseFor(s.reader.value.1, s.ids[t])
  }

  /** What a drain has taken out is nowhere else; what was there when it began is gone from
      the shards it has passed. */
  ghost predicate DrainOk(s: State, dr: Drain)
    requires s.numShards > 0
  {
    && dr.pos <= s.numShards
    && dr.present <= s.registered
    && (forall t :: t in dr.held ==>
          t < |s.ids| && t in s.registered && t !in s.verdicts && !InTable(s, t) && !AtReader(s, t))
    && (forall id :: id in s.table && s.table[id] in dr.present ==> Demux.Home(id, s.numShards) >= dr.pos)
  }

  ghost predicate DrainsOk(s: State) {
    && s.numShards > 0
    && (forall d :: 0 <= d < |s.drains| ==> DrainOk(s, s.drains[d]))
    && (forall d, e, t :: Holds(s.drains, d, t) && Holds(s.drains, e, t) ==> d == e)
  }

  /** Resolved waiters were registered, and an answer carries the waiter's own id. */
  ghost predicate VerdictsOk(s: State) {
    && s.verdicts.Keys <= s.registered
    && (forall t :: t in s.registered ==> t < |s.ids|)
    && (forall t :: t in s.verdicts && s.verdicts[t].Delivered? ==> ResponseFor(s.verdicts[t].frame, s.ids[t]))
  }

  /** No registered waiter is lost. */
  ghost predicate Covered(s: State) {
    forall t :: t in s.registered ==>
      InTable(s, t) || AtReader(s, t) || t in s.verdicts || exists d :: Holds(s.drains, d, t)
  }

  ghost predicate CallersOk(s: State) {
    && |s.callers| == |s.ids|
    && forall t :: 0 <= t < |s.callers| ==> CallerOk(s, t, s.callers[t])
  }

  ghost predicate CallerOk(s: State, t: Token, pc: Pc) {
    match pc
    case Issued => t !in s.registered
    case Checked => t !in s.registered
    case Registered => t in s.registered
    case Waiting => t in s.registered
    case Withdrawing(r) => t in s.registered && (r == ConnectionClosed || r == Timeout)
    case Returned(r) => !InTable(s, t) && (r.Answer? ==> t in s.verdicts && s.verdicts[t] == Delivered(r.frame))
  }

  ghost predicate IdsOk(s: State) {
    && s.counter == CounterAfter(|s.ids|)
    && forall t :: 0 <= t < |s.ids| ==> s.ids[t] == IssuedId(t)
  }

  /** Everything but the arithmetic of the ids. */
  ghost predicate Core(s: State) {
    TableOk(s) && ReaderOk(s) && DrainsOk(s) && VerdictsOk(s) && Covered(s) && CallersOk(s)
  }

  ghost predicate Inv(s: State) {
    Core(s) && IdsOk(s)
  }

  lemma InitInv(n: nat)
    requires n > 0
    ensures Inv(Init(n))
  {
  }

  // ----- every step keeps it -----

  /** Moving one caller on. */
  lemma SetCaller(s: State, t: Token, pc: Pc)
    requires Core(s) && t < |s.callers| && CallerOk(s, t, pc)
    ensures Core(s.(callers := s.callers[t := pc]))
  {
    var s' := s.(callers := s.callers[t := pc]);
    assert TableOk(s') && ReaderOk(s') && VerdictsOk(s') && Covered(s');
    forall d | 0 <= d < |s'.drains| ensures DrainOk(s', s'.drains[d]) {
      assert DrainOk(s, s.drains[d]);
    }
    forall u | 0 <= u < |s'.callers| ensures CallerOk(s', u, s'.callers[u]) {
      assert CallerOk(s, u, s.callers[u]);
    }
  }

  lemma StepIssue(s: State)
    requires Core(s) && Enabled(s, Issue)
    ensures Core(Apply(s, Issue))
  {
    var s' := Apply(s, Issue);
    assert TableOk(s') && ReaderOk(s') && VerdictsOk(s') && Covered(s');
    forall d | 0 <= d < |s.drains| ensures DrainOk(s', s'.drains[d]) {
      assert DrainOk(s, s.drains[d]);
    }
    forall u | 0 <= u < |s.callers| ensures CallerOk(s', u, s'.callers[u]) {
      assert CallerOk(s, u, s.callers[u]);
    }
  }

  lemma StepInsert(s: State, t: Token)
    requires Core(s) && Enabled(s, Insert(t))
    ensures Core(Apply(s, Insert(t)))
  {
    if s.ids[t] in s.table {
      SetCaller(s, t, Returned(IdInUse));
    } else {
      InsertDrains(s, t);
      InsertCovered(s, t);
    }
  }

  lemma InsertDrains(s: State, t: Token)
    requires Core(s) && Enabled(s, Insert(t)) && s.ids[t] !in s.table
    ensures DrainsOk(Apply(s, Insert(t)))
  {
  }

  lemma InsertCovered(s: State, t: Token)
    requires Core(s) && Enabled(s, Insert(t)) && s.ids[t] !in s.table
    ensures var s' := Apply(s, Insert(t));
            TableOk(s') && ReaderOk(s') && VerdictsOk(s') && Covered(s') && CallersOk(s')
  {
    var s' := Apply(s, Insert(t));
    assert TableOk(s') && ReaderOk(s') && VerdictsOk(s') && Covered(s');
    forall u | 0 <= u < |s.callers| ensures CallerOk(s', u, s'.callers[u]) {
      assert CallerOk(s, u, s.callers[u]);
    }
  }

  /** Taking an entry out of the table and dropping its sender. */
  lemma DropEntry(s: State, id: u32, v: Verdict)
    requires Core(s) && id in s.table && !v.Delivered?
    ensures Core(s.(table := s.table - {id}, verdicts := s.verdicts[s.table[id] := v]))
  {
    var s' := s.(table := s.table - {id}, verdicts := s.verdicts[s.table[id] := v]);
    assert TableOk(s') && ReaderOk(s') && VerdictsOk(s') && Covered(s');
    forall d | 0 <= d < |s.drains| ensures DrainOk(s', s'.drains[d]) {
      assert DrainOk(s, s.drains[d]);
    }
    forall u | 0 <= u < |s.callers| ensures CallerOk(s', u, s'.callers[u]) {
      assert CallerOk(s, u, s.callers[u]);
    }
  }

  lemma StepWithdraw(s: State, t: Token)
    requires Core(s) && Enabled(s, Withdraw(t))
    ensures Core(Apply(s, Withdraw(t)))
  {
    var id := s.ids[t];
    var s' := s;
    if id in s.table {
      s' := s.(table := s.table - {id}, verdicts := s.verdicts[s.table[id] := Withdrawn(t)]);
      DropEntry(s, id, Withdrawn(t));
    } else {
      assert s.table - {id} == s.table;
    }
    SetCaller(s', t, Returned(s.callers[t].reply));
  }

  lemma StepReceive(s: State, f: bytes)
    requires Core(s) && Enabled(s, Receive(f))
    ensures Core(Apply(s, Receive(f)))
  {
    var s' := Apply(s, Receive(f));
    assert TableOk(s') && ReaderOk(s') && VerdictsOk(s') && Covered(s');
    forall d | 0 <= d < |s.drains| ensures DrainOk(s', s'.drains[d]) {
      assert DrainOk(s, s.drains[d]);
    }
    forall u | 0 <= u < |s.callers| ensures CallerOk(s', u, s'.callers[u]) {
      assert CallerOk(s, u, s.callers[u]);
    }
  }

  lemma StepHandOver(s: State)
    requires Core(s) && Enabled(s, HandOver)
    ensures Core(Apply(s, HandOver))
  {
    var s' := Apply(s, HandOver);
    assert TableOk(s') && ReaderOk(s') && VerdictsOk(s') && Covered(s');
    forall d | 0 <= d < |s.drains| ensures DrainOk(s', s'.drains[d]) {
      assert DrainOk(s, s.drains[d]);
    }
    forall u | 0 <= u < |s.callers| ensures CallerOk(s', u, s'.callers[u]) {
      assert CallerOk(s, u, s.callers[u]);
    }
  }

  lemma StepBeginFailAll(s: State)
    requires Core(s) && Enabled(s, BeginFailAll)
    ensures Core(Apply(s, BeginFailAll))
  {
    var s' := Apply(s, BeginFailAll);
    forall d, t ensures Holds(s'.drains, d, t) <==> Holds(s.drains, d, t) {
    }
    assert DrainOk(s', s'.drains[|s.drains|]);
    assert DrainsOk(s');
    assert Covered(s');
  }

  lemma DrainNextTable(s: State, d: nat)
    requires Core(s) && Enabled(s, DrainNext(d))
    ensures var s', here := Apply(s, DrainNext(d)), InShard(s, s.drains[d].pos);
            && (forall t :: t in here.Values ==> InTable(s, t))
            && (forall t :: InTable(s', t) <==> InTable(s, t) && t !in here.Values)
            && (forall e, t :: Holds(s'.drains, e, t) <==> Holds(s.drains, e, t) || (e == d && t in here.Values))
  {
  }

  lemma DrainNextDrains(s: State, d: nat)
    requires Core(s) && Enabled(s, DrainNext(d))
    ensures DrainsOk(Apply(s, DrainNext(d)))
  {
    var s' := Apply(s, DrainNext(d));
    DrainNextTable(s, d);
    forall e | 0 <= e < |s.drains| ensures DrainOk(s', s'.drains[e]) {
      assert DrainOk(s, s.drains[e]);
    }
    forall e: nat, f: nat, t: Token | Holds(s'.drains, e, t) && Holds(s'.drains, f, t) ensures e == f {
      assert Holds(s.drains, e, t) ==> DrainOk(s, s.drains[e]);
      assert Holds(s.drains, f, t) ==> DrainOk(s, s.drains[f]);
    }
  }

  lemma StepDrainNext(s: State, d: nat)
    requires Core(s) && Enabled(s, DrainNext(d))
    ensures Core(Apply(s, DrainNext(d)))
  {
    DrainNextDrains(s, d);
    DrainNextCovered(s, d);
    DrainNextRest(s, d);
  }

  lemma DrainNextCovered(s: State, d: nat)
    requires Core(s) && Enabled(s, DrainNext(d))
    ensures Covered(Apply(s, DrainNext(d)))
  {
    var s', here := Apply(s, DrainNext(d)), InShard(s, s.drains[d].pos);
    DrainNextTable(s, d);
    forall t | t in s'.registered && !InTable(s', t) && !AtReader(s', t) && t !in s'.verdicts
      ensures exists e :: Holds(s'.drains, e, t)
    {
      if t in here.Values {
        assert Holds(s'.drains, d, t);
      } else {
        var e :| Holds(s.drains, e, t);
        assert Holds(s'.drains, e, t);
      }
    }
  }

  lemma DrainNextRest(s: State, d: nat)
    requires Core(s) && Enabled(s, DrainNext(d))
    ensures var s' := Apply(s, DrainNext(d)); TableOk(s') && ReaderOk(s') && VerdictsOk(s') && CallersOk(s')
  {
  }

  lemma FailOneDrains(s: State, d: nat, u: Token)
    requires Core(s) && Enabled(s, FailOne(d, u))
    ensures var s' := Apply(s, FailOne(d, u));
            && DrainsOk(s')
            && forall e, t :: Holds(s'.drains, e, t) <==> Holds(s.drains, e, t) && !(e == d && t == u)
  {
    var s' := Apply(s, FailOne(d, u));
    forall e, t ensures Holds(s'.drains, e, t) <==> Holds(s.drains, e, t) && !(e == d && t == u) {
    }
    assert Holds(s.drains, d, u);
    forall e | 0 <= e < |s.drains| ensures DrainOk(s', s'.drains[e]) {
      assert DrainOk(s, s.drains[e]);
      assert u in s.drains[e].held ==> Holds(s.drains, e, u);
    }
  }

  lemma StepFailOne(s: State, d: nat, u: Token)
    requires Core(s) && Enabled(s, FailOne(d, u))
    ensures Core(Apply(s, FailOne(d, u)))
  {
    var s' := Apply(s, FailOne(d, u));
    FailOneDrains(s, d, u);
    assert Holds(s.drains, d, u) && DrainOk(s, s.drains[d]);
    assert TableOk(s') && ReaderOk(s') && VerdictsOk(s');
    forall t | t in s'.registered && !InTable(s', t) && !AtReader(s', t) && t !in s'.verdicts
      ensures exists e :: Holds(s'.drains, e, t)
    {
      var e :| Holds(s.drains, e, t);
      assert Holds(s'.drains, e, t);
    }
    forall t | 0 <= t < |s.callers| ensures CallerOk(s', t, s'.callers[t]) {
      assert CallerOk(s, t, s.callers[t]);
    }
  }

  lemma StepCore(s: State, a: Action)
    requires Core(s) && Enabled(s, a)
    ensures Core(Apply(s, a))
  {
    match a
    case Issue => StepIssue(s);
    case CheckClosed(t) => SetCaller(s, t, if s.closed then Returned(ConnectionClosed) else Checked);
    case Insert(t) => StepInsert(s, t);
    case Enqueue(t, ok) => SetCaller(s, t, if ok then Waiting else Withdrawing(ConnectionClosed));
    case TimeOut(t) => SetCaller(s, t, Withdrawing(Timeout));
    case Withdraw(t) => StepWithdraw(s, t);
    case Resume(t) => SetCaller(s, t, Returned(ReplyTo(s.verdicts[t])));
    case Receive(f) => StepReceive(s, f);
    case HandOver => StepHandOver(s);
    case BeginFailAll => StepBeginFailAll(s);
    case DrainNext(d) => StepDrainNext(s, d);
    case FailOne(d, u) => StepFailOne(s, d, u);
    case Close =>
  }

  lemma StepIds(s: State, a: Action)
    requires IdsOk(s) && Enabled(s, a)
    ensures IdsOk(Apply(s, a))
  {
    if a == Issue {
      NextCounter(|s.ids|);
    }
  }

  /** The invariant holds in every state of every run. */
  lemma {:induction false} RunInv(s: State, acts: seq<Action>)
    requires Inv(s) && Legal(s, acts)
    ensures Inv(After(s, acts))
    decreases |acts|
  {
    if acts == [] {
    } else {
      StepCore(s, acts[0]);
      StepIds(s, acts[0]);
      RunInv(Apply(s, acts[0]), acts[1..]);
    }
  }
}
