/** Correlation ids of one connection: a wrapping 32-bit counter that skips 0. */
module CorrelationIds {
  import opened Bytes

  /** How many ids are issued before one repeats. */
  const ID_COUNT := U32_SIZE - 1

  /** The k-th id a connection issues, counting from 0. */
  function IssuedId(k: nat): (id: u32)
    ensures id != 0
  {
    1 + k % ID_COUNT
  }

  /** The atomic counter's value after `k` ids were issued. */
  function CounterAfter(k: nat): u32 {
    if k == 0 then 1 else (IssuedId(k - 1) + 1) % U32_SIZE
  }

  /** Ids repeat exactly when the distance between their issues is a multiple of the window. */
  lemma SameIdIff(i: nat, j: nat)
    requires i <= j
    ensures IssuedId(i) == IssuedId(j) <==> (j - i) % ID_COUNT == 0
  {
  }

  /** Within a window of `ID_COUNT` consecutive issues all ids differ. */
  lemma WindowDistinct(i: nat, j: nat)
    requires i < j < i + ID_COUNT
    ensures IssuedId(i) != IssuedId(j)
  {
    SameIdIff(i, j);
    assert (j - i) % ID_COUNT == j - i;
  }

  /** The counter field of a connection. */
  class IdSource {
    var counter: u32
    ghost var issued: nat

    ghost predicate Valid() reads this { counter == CounterAfter(issued) }

    constructor ()
      ensures Valid() && issued == 0
    {
      counter, issued := 1, 0;
    }

    /** Hands out the next id. The skip loop runs at most twice (`rounds`). */
    method NextCorrId() returns (id: u32, ghost rounds: nat)
      requires Valid()
      modifies this
      ensures Valid() && issued == old(issued) + 1
      ensures id == IssuedId(old(issued)) && id != 0
      ensures 1 <= rounds <= 2
    {
      NextCounter(issued);
      rounds := 0;
      while true
        invariant rounds <= 1 && issued == old(issued)
        invariant rounds == 0 ==> counter == CounterAfter(issued)
        invariant rounds == 1 ==> CounterAfter(issued) == 0 && counter == 1
        decreases 2 - rounds
      {
        id := counter;
        counter := (counter + 1) % U32_SIZE;
        rounds := rounds + 1;
        if id != 0 {
          issued := issued + 1;
          return;
        }
      }
    }
  }

  /** A nonzero counter is the next id; a zero counter means the next id is 1. */
  lemma NextCounter(k: nat)
    ensures CounterAfter(k) != 0 ==> IssuedId(k) == CounterAfter(k)
    ensures CounterAfter(k) == 0 ==> IssuedId(k) == 1
  {
  }
}
