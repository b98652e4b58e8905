/** The sharded table follows the multiplexer's plain one, step by step and over whole runs. */
module SharedTable {
  import opened Bytes
  import opened Multiplexer
  import opened Demux

  /** What a step does to the shards. It looks only into the shard it locks. */
  function ShardStep(shards: seq<map<u32, Token>>, s: State, a: Action): seq<map<u32, Token>>
    requires Enabled(s, a) && |shards| == s.numShards > 0
  {
    match a
    case Insert(t) =>
      if s.ids[t] in shards[Home(s.ids[t], |shards|)] then shards else Put(shards, s.ids[t], t)
    case Withdraw(t) => Demux.Drop(shards, s.ids[t])
    case Receive(f) => Demux.Drop(shards, FromLe32(f[1..5]))
    case DrainNext(d) => Demux.Drain(shards, s.drains[d].pos)
    case _ => shards
  }

  /** The shards stand for the table. */
  ghost predicate Follows(shards: seq<map<u32, Token>>, s: State) {
    |shards| == s.numShards > 0 && Placed(shards) && Flat(shards) == s.table
  }

  lemma ShardsFollow(shards: seq<map<u32, Token>>, s: State, a: Action)
    requires Follows(shards, s) && Enabled(s, a)
    ensures Follows(ShardStep(shards, s, a), Apply(s, a))
    ensures a.DrainNext? ==> shards[s.drains[a.d].pos] == InShard(s, s.drains[a.d].pos)
  {
    match a
    case Insert(t) => PutFlat(shards, s.ids[t], t);
    case Withdraw(t) => DropFlat(shards, s.ids[t]);
    case Receive(f) => DropFlat(shards, FromLe32(f[1..5]));
    case DrainNext(d) => DrainFlat(shards, s.drains[d].pos); DrainedIsShard(shards, s, s.drains[d].pos);
    case _ =>
  }

  lemma DrainedIsShard(shards: seq<map<u32, Token>>, s: State, h: nat)
    requires Follows(shards, s) && h < |shards|
    ensures shards[h] == InShard(s, h)
    ensures (map id | id in s.table && Home(id, s.numShards) != h :: s.table[id]) == s.table - InShard(s, h).Keys
  {
  }

  function ShardRun(shards: seq<map<u32, Token>>, s: State, acts: seq<Action>): seq<map<u32, Token>>
    requires |shards| == s.numShards > 0 && Legal(s, acts)
    decreases |acts|
  {
    if acts == [] then shards else ShardRun(ShardStep(shards, s, acts[0]), Apply(s, acts[0]), acts[1..])
  }

  /** For any positive shard count and any run, the shards stand for the table at the end. */
  lemma {:induction false} ShardRunFollows(shards: seq<map<u32, Token>>, s: State, acts: seq<Action>)
    requires Follows(shards, s) && Legal(s, acts)
    ensures Follows(ShardRun(shards, s, acts), After(s, acts))
    decreases |acts|
  {
    if acts == [] {
    } else {
      ShardsFollow(shards, s, acts[0]);
      ShardRunFollows(ShardStep(shards, s, acts[0]), Apply(s, acts[0]), acts[1..]);
    }
  }

  lemma InitFollows(n: nat)
    requires n > 0
    ensures Follows(seq(n, _ => map[]), Init(n))
  {
  }

  /** So in every run of a connection, from the empty table on. */
  lemma RunsFollow(n: nat, acts: seq<Action>)
    requires n > 0 && Legal(Init(n), acts)
    ensures Follows(ShardRun(seq(n, _ => map[]), Init(n), acts), After(Init(n), acts))
  {
    InitFollows(n);
    ShardRunFollows(seq(n, _ => map[]), Init(n), acts);
  }
}
