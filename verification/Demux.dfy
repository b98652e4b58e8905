/** The table of pending requests of one connection, split over shards. */
module Demux {
  import opened Bytes

  // ----- the sharded table as a value, and the one plain map it stands for -----

  function Home(id: u32, n: nat): (i: nat)
    requires n > 0
    ensures i < n
  {
    id % n
  }

  /** Keys live only in their home shard. */
  ghost predicate Placed<E>(shards: seq<map<u32, E>>)
    requires |shards| > 0
  {
    forall i, id :: 0 <= i < |shards| && id in shards[i] ==> Home(id, |shards|) == i
  }

  ghost function Keys<E>(shards: seq<map<u32, E>>): set<u32> {
    set i, id | 0 <= i < |shards| && id in shards[i] :: id
  }

  /** The plain map a placed table stands for. */
  ghost function Flat<E>(shards: seq<map<u32, E>>): (m: map<u32, E>)
    requires |shards| > 0 && Placed(shards)
    ensures forall id: u32 {:trigger id in m} :: id in m <==> id in shards[Home(id, |shards|)]
    ensures forall id: u32 {:trigger m[id]} :: id in m ==> m[id] == shards[Home(id, |shards|)][id]
  {
    map id | id in Keys(shards) :: shards[Home(id, |shards|)][id]
  }

  function Put<E>(shards: seq<map<u32, E>>, id: u32, e: E): seq<map<u32, E>>
    requires |shards| > 0
  {
    var h := Home(id, |shards|);
    var m: map<u32, E> := shards[h][id := e];
    shards[h := m]
  }

  function Drop<E>(shards: seq<map<u32, E>>, id: u32): seq<map<u32, E>>
    requires |shards| > 0
  {
    var h := Home(id, |shards|);
    var m: map<u32, E> := shards[h] - {id};
    shards[h := m]
  }

  function Drain<E>(shards: seq<map<u32, E>>, h: nat): seq<map<u32, E>>
    requires h < |shards|
  {
    shards[h := map[]]
  }

  /** Each shard operation is the plain map's operation. */
  lemma PutFlat<E>(shards: seq<map<u32, E>>, id: u32, e: E)
    requires |shards| > 0 && Placed(shards)
    ensures Placed(Put(shards, id, e)) && Flat(Put(shards, id, e)) == Flat(shards)[id := e]
  {
  }

  lemma DropFlat<E>(shards: seq<map<u32, E>>, id: u32)
    requires |shards| > 0 && Placed(shards)
    ensures Placed(Drop(shards, id)) && Flat(Drop(shards, id)) == Flat(shards) - {id}
  {
  }

  lemma DrainFlat<E>(shards: seq<map<u32, E>>, h: nat)
    requires h < |shards| && Placed(shards)
    ensures Placed(Drain(shards, h))
    ensures Flat(Drain(shards, h)) == map id | id in Flat(shards) && Home(id, |shards|) != h :: Flat(shards)[id]
  {
  }

  function TotalSize<E>(shards: seq<map<u32, E>>): nat {
    if shards == [] then 0 else TotalSize(shards[..|shards| - 1]) + |shards[|shards| - 1]|
  }

  /** Counting shard by shard counts the plain map. */
  lemma TotalSizeIsFlatSize<E>(shards: seq<map<u32, E>>)
    requires |shards| > 0 && Placed(shards)
    ensures TotalSize(shards) == |Flat(shards)|
  {
    CountKeys(shards, |shards|);
    assert shards[..|shards|] == shards;
    assert Keys(shards) == Flat(shards).Keys;
  }

  /** A shard's ids are in none of the shards before it. */
  lemma KeysApart<E>(shards: seq<map<u32, E>>, k: nat)
    requires k < |shards| && Placed(shards)
    ensures Keys(shards[..k]) !! shards[k].Keys
  {
    forall id | id in Keys(shards[..k]) ensures id !in shards[k] {
      var i :| 0 <= i < k && id in shards[..k][i];
      assert Home(id, |shards|) == i;
    }
  }

  lemma {:induction false} CountKeys<E>(shards: seq<map<u32, E>>, k: nat)
    requires 0 < |shards| && k <= |shards| && Placed(shards)
    ensures TotalSize(shards[..k]) == |Keys(shards[..k])|
  {
    if k == 0 {
      assert Keys(shards[..0]) == {};
    } else {
      var front, last := shards[..k - 1], shards[k - 1];
      CountKeys(shards, k - 1);
      KeysApart(shards, k - 1);
      KeysSnoc(front, last);
      SizeSnoc(front, last);
      DisjointSize(Keys(front), last.Keys);
      assert shards[..k] == front + [last];
    }
  }

  lemma SizeSnoc<E>(a: seq<map<u32, E>>, m: map<u32, E>)
    ensures TotalSize(a + [m]) == TotalSize(a) + |m|
  {
    assert (a + [m])[..|a|] == a;
  }

  lemma DisjointSize(a: set<u32>, b: set<u32>)
    requires a !! b
    ensures |a + b| == |a| + |b|
  {
  }

  lemma KeysSnoc<E>(a: seq<map<u32, E>>, m: map<u32, E>)
    ensures Keys(a + [m]) == Keys(a) + m.Keys
  {
    var all := a + [m];
    forall id | id in Keys(a) + m.Keys ensures id in Keys(all) {
      if id in m {
        assert id in all[|a|];
      } else {
        var i :| 0 <= i < |a| && id in a[i];
        assert id in all[i];
      }
    }
  }

  // ----- the table itself -----

  datatype Entry = Entry(tx: nat, sentAt: int)

  /** `log` resolves every entry of `m` exactly once, and nothing else. */
  ghost predicate ResolvesExactly(log: seq<(u32, nat)>, m: map<u32, Entry>) {
    && (forall i, j :: 0 <= i < j < |log| ==> log[i].0 != log[j].0)
    && (forall i :: 0 <= i < |log| ==> log[i].0 in m && log[i].1 == m[log[i].0].tx)
    && (forall id :: id in m ==> (id, m[id].tx) in log)
  }

  lemma ResolvesMerge(log: seq<(u32, nat)>, m: map<u32, Entry>, log': seq<(u32, nat)>, m': map<u32, Entry>)
    requires ResolvesExactly(log, m) && ResolvesExactly(log', m') && m.Keys !! m'.Keys
    ensures ResolvesExactly(log + log', m + m')
  {
    forall id | id in m + m' ensures (id, (m + m')[id].tx) in log + log' {
      if id in m {
        assert (id, m[id].tx) in log;
      } else {
        assert (id, m'[id].tx) in log';
      }
    }
  }

  /** Walks a shard's entries in some order. */
  method Enumerate(m: map<u32, Entry>) returns (es: seq<(u32, nat)>)
    ensures ResolvesExactly(es, m)
  {
    es := [];
    var todo := m.Keys;
    ghost var done: map<u32, Entry> := map[];
    while todo != {}
      invariant todo <= m.Keys && done == map id | id in m && id !in todo :: m[id]
      invariant ResolvesExactly(es, done)
      decreases todo
    {
      var id: u32 :| id in todo;
      ghost var one: map<u32, Entry> := map[id := m[id]];
      ResolvesMerge(es, done, [(id, m[id].tx)], one);
      es := es + [(id, m[id].tx)];
      todo := todo - {id};
      done := done + one;
    }
    assert done == m;
  }

  function Expired(m: map<u32, Entry>, threshold: int): map<u32, Entry> {
    map id | id in m && m[id].sentAt < threshold :: m[id]
  }

  /** The part of a table that lives in the first `k` shards. */
  ghost function Below(m: map<u32, Entry>, n: nat, k: nat): map<u32, Entry>
    requires n > 0
  {
    map id | id in m && Home(id, n) < k :: m[id]
  }

  ghost function At(m: map<u32, Entry>, n: nat, h: nat): map<u32, Entry>
    requires n > 0
  {
    map id | id in m && Home(id, n) == h :: m[id]
  }

  lemma ShardIsAt(shards: seq<map<u32, Entry>>, h: nat)
    requires h < |shards| && Placed(shards)
    ensures shards[h] == At(Flat(shards), |shards|, h)
  {
    var m := At(Flat(shards), |shards|, h);
    forall id | id in shards[h] ensures id in m {
      assert Home(id, |shards|) == h;
    }
    assert shards[h].Keys == m.Keys;
  }

  /** The part of a table that lives from shard `h` on. */
  ghost function From(m: map<u32, Entry>, n: nat, h: nat): map<u32, Entry>
    requires n > 0
  {
    map id | id in m && Home(id, n) >= h :: m[id]
  }

  ghost function Without(m: map<u32, Entry>, n: nat, h: nat): map<u32, Entry>
    requires n > 0
  {
    map id | id in m && Home(id, n) != h :: m[id]
  }

  lemma FromStep(m: map<u32, Entry>, n: nat, h: nat)
    requires n > 0
    ensures At(From(m, n, h), n, h) == At(m, n, h)
    ensures Without(From(m, n, h), n, h) == From(m, n, h + 1)
  {
  }

  lemma Ends(m: map<u32, Entry>, n: nat)
    requires n > 0
    ensures Below(m, n, 0) == map[] && From(m, n, 0) == m
    ensures Below(m, n, n) == m && From(m, n, n) == map[]
  {
  }

  lemma BelowStep(log: seq<(u32, nat)>, es: seq<(u32, nat)>, m: map<u32, Entry>, n: nat, h: nat)
    requires n > 0 && ResolvesExactly(log, Below(m, n, h)) && ResolvesExactly(es, At(m, n, h))
    ensures ResolvesExactly(log + es, Below(m, n, h + 1))
  {
    ResolvesMerge(log, Below(m, n, h), es, At(m, n, h));
    assert Below(m, n, h) + At(m, n, h) == Below(m, n, h + 1);
  }

  lemma ExpiredAt(m: map<u32, Entry>, n: nat, h: nat, threshold: int)
    requires n > 0
    ensures Expired(At(m, n, h), threshold) == At(Expired(m, threshold), n, h)
  {
  }

  ghost function FirstIds(log: seq<(u32, nat)>, k: nat): set<u32>
    requires k <= |log|
  {
    set j | 0 <= j < k :: log[j].0
  }

  lemma FirstIdsStep(log: seq<(u32, nat)>, k: nat, m: map<u32, Entry>)
    requires k < |log| && ResolvesExactly(log, m)
    ensures log[k].0 in m && log[k].1 == m[log[k].0].tx && log[k].0 !in FirstIds(log, k)
    ensures FirstIds(log, k + 1) == FirstIds(log, k) + {log[k].0}
  {
  }

  /** What the clean-up has done after `k` removals. */
  ghost predicate CleanedUp(before: map<u32, Entry>, found: seq<(u32, nat)>, k: nat, now: map<u32, Entry>,
                            log: seq<(u32, nat)>)
    requires k <= |found|
  {
    now == before - FirstIds(found, k) && log == found[..k]
  }

  lemma CleanupStep(before: map<u32, Entry>, found: seq<(u32, nat)>, k: nat, now: map<u32, Entry>, log: seq<(u32, nat)>,
                    threshold: int)
    requires k < |found| && ResolvesExactly(found, Expired(before, threshold)) && CleanedUp(before, found, k, now, log)
    ensures found[k].0 in now && now[found[k].0].tx == found[k].1
    ensures CleanedUp(before, found, k + 1, now - {found[k].0}, log + [found[k]])
  {
    FirstIdsStep(found, k, Expired(before, threshold));
    assert found[..k + 1] == found[..k] + [found[k]];
  }

  lemma AllIds(log: seq<(u32, nat)>, m: map<u32, Entry>)
    requires ResolvesExactly(log, m)
    ensures FirstIds(log, |log|) == m.Keys
  {
    forall id | id in m ensures id in FirstIds(log, |log|) {
      var j :| 0 <= j < |log| && log[j] == (id, m[id].tx);
    }
  }

  class DemuxTable {
    const shards: array<map<u32, Entry>>

    ghost predicate Valid() reads this, shards {
      shards.Length > 0 && Placed(shards[..])
    }

    ghost function Contents(): map<u32, Entry>
      requires Valid()
      reads this, shards
    {
      Flat(shards[..])
    }

    constructor (numShards: nat)
      requires numShards > 0
      ensures Valid() && fresh(shards) && shards.Length == numShards && Contents() == map[]
    {
      shards := new map<u32, Entry>[numShards](_ => map[]);
    }

    /** Registers a waiter unless its id is taken. */
    method Insert(id: u32, tx: nat, sentAt: int) returns (ok: bool)
      requires Valid()
      modifies shards
      ensures Valid()
      ensures ok == (id !in old(Contents()))
      ensures Contents() == if ok then old(Contents())[id := Entry(tx, sentAt)] else old(Contents())
    {
      var h := Home(id, shards.Length);
      if id in shards[h] {
        return false;
      }
      PutFlat(shards[..], id, Entry(tx, sentAt));
      ghost var after := Put(shards[..], id, Entry(tx, sentAt));
      shards[h] := shards[h][id := Entry(tx, sentAt)];
      assert shards[..] == after;
      ok := true;
    }

    /** Takes the waiter of an id out of the table. */
    method Remove(id: u32) returns (r: Option<nat>)
      requires Valid()
      modifies shards
      ensures Valid()
      ensures r == if id in old(Contents()) then Some(old(Contents())[id].tx) else None
      ensures Contents() == old(Contents()) - {id}
    {
      var h := Home(id, shards.Length);
      r := if id in shards[h] then Some(shards[h][id].tx) else None;
      DropFlat(shards[..], id);
      ghost var after := Drop(shards[..], id);
      shards[h] := shards[h] - {id};
      assert shards[..] == after;
    }

    /** One lock acquisition of `FailAll`: empties a shard. */
    method DrainShard(h: nat) returns (es: seq<(u32, nat)>)
      requires Valid() && h < shards.Length
      modifies shards
      ensures Valid()
      ensures ResolvesExactly(es, At(old(Contents()), shards.Length, h))
      ensures Contents() == Without(old(Contents()), shards.Length, h)
    {
      es := Enumerate(shards[h]);
      ShardIsAt(shards[..], h);
      DrainFlat(shards[..], h);
      ghost var after := Drain(shards[..], h);
      shards[h] := map[];
      assert shards[..] == after;
    }

    /** Drains every shard, then fails every waiter that was found. */
    method FailAll() returns (failed: seq<(u32, nat)>)
      requires Valid()
      modifies shards
      ensures Valid() && Contents() == map[]
      ensures ResolvesExactly(failed, old(Contents()))
    {
      ghost var before, n := Contents(), shards.Length;
      Ends(before, n);
      failed := [];
      for h := 0 to shards.Length
        invariant Valid() && ResolvesExactly(failed, Below(before, n, h))
        invariant Contents() == From(before, n, h)
      {
        FromStep(before, n, h);
        var es := DrainShard(h);
        BelowStep(failed, es, before, n, h);
        failed := failed + es;
      }
    }

    /** First half of the clean-up: collects the entries older than the threshold. */
    method FindExpired(threshold: int) returns (found: seq<(u32, nat)>)
      requires Valid()
      ensures ResolvesExactly(found, Expired(Contents(), threshold))
    {
      ghost var gone, n := Expired(Contents(), threshold), shards.Length;
      Ends(gone, n);
      found := [];
      for h := 0 to shards.Length
        invariant ResolvesExactly(found, Below(gone, n, h))
      {
        var es := Enumerate(Expired(shards[h], threshold));
        ShardIsAt(shards[..], h);
        ExpiredAt(Contents(), n, h, threshold);
        BelowStep(found, es, gone, n, h);
        found := found + es;
      }
    }

    /** Removes and times out the entries older than the threshold: run without interference,
        exactly those. */
    method Cleanup(threshold: int) returns (timedOut: seq<(u32, nat)>)
      requires Valid()
      modifies shards
      ensures Valid()
      ensures ResolvesExactly(timedOut, Expired(old(Contents()), threshold))
      ensures Contents() == old(Contents()) - Expired(old(Contents()), threshold).Keys
      ensures forall id :: id in Contents() <==> id in old(Contents()) && old(Contents())[id].sentAt >= threshold
    {
      ghost var before := Contents();
      var found := FindExpired(threshold);
      timedOut := [];
      for k := 0 to |found|
        invariant Valid() && CleanedUp(before, found, k, Contents(), timedOut)
      {
        CleanupStep(before, found, k, Contents(), timedOut, threshold);
        var r := Remove(found[k].0);
        timedOut := timedOut + (match r case None => [] case Some(tx) => [(found[k].0, tx)]);
      }
      AllIds(found, Expired(before, threshold));
    }

    method PendingCount() returns (total: nat)
      requires Valid()
      ensures total == |Contents()|
    {
      total := 0;
      for i := 0 to shards.Length
        invariant total == TotalSize(shards[..i])
      {
        assert shards[..i + 1][..i] == shards[..i];
        total := total + |shards[i]|;
      }
      assert shards[..shards.Length] == shards[..];
      TotalSizeIsFlatSize(shards[..]);
    }
  }
}
