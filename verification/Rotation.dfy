/** Round-robin order: the indices 0..n visited cyclically from a starting point. */
module Rotation {
  function At(start: nat, n: nat, k: nat): (i: nat)
    requires n > 0
    ensures i < n
  {
    (start + k) % n
  }

  /** The step at which an index is visited. */
  function StepOf(start: nat, n: nat, i: nat): (k: nat)
    requires i < n
    ensures k < n
  {
    (i + n - start % n) % n
  }

  /** A full round visits every index once: the two maps are inverse. */
  lemma RoundIsPermutation(start: nat, n: nat, i: nat, k: nat)
    requires i < n && k < n
    ensures At(start, n, StepOf(start, n, i)) == i
    ensures StepOf(start, n, At(start, n, k)) == k
  {
    IndexOfStep(start, n, i);
    StepOfIndex(start, n, k);
  }

  /** A round goes forward from its start, one place at a time and from the last place to the first. */
  lemma StepsForward(start: nat, n: nat, k: nat)
    requires n > 0
    ensures start < n ==> At(start, n, 0) == start
    ensures At(start, n, k + 1) == if At(start, n, k) + 1 == n then 0 else At(start, n, k) + 1
  {
    var q, r := (start + k) / n, (start + k) % n;
    if r + 1 == n {
      MulMonotone(q + 1, q + 1, n);
      ModIs(start + (k + 1), n, q + 1, 0);
    } else {
      ModIs(start + (k + 1), n, q, r + 1);
    }
    if start < n {
      ModIs(start, n, 0, start);
    }
  }

  lemma IndexOfStep(start: nat, n: nat, i: nat)
    requires i < n
    ensures At(start, n, StepOf(start, n, i)) == i
  {
    var q, r := start / n, start % n;
    if i >= r {
      ModIs(i + n - r, n, 1, i - r);
      ModIs(start + (i - r), n, q, i);
    } else {
      ModIs(i + n - r, n, 0, i + n - r);
      ModIs(start + (i + n - r), n, q + 1, i);
    }
  }

  lemma StepOfIndex(start: nat, n: nat, k: nat)
    requires k < n
    ensures StepOf(start, n, At(start, n, k)) == k
  {
    var q, r := start / n, start % n;
    if r + k < n {
      ModIs(start + k, n, q, r + k);
      ModIs(k + n, n, 1, k);
    } else {
      ModIs(start + k, n, q + 1, r + k - n);
      ModIs(k, n, 0, k);
    }
  }

  lemma ModIs(x: nat, n: nat, q: nat, r: nat)
    requires n > 0 && r < n && x == q * n + r
    ensures x % n == r
  {
    QuotientAtMost(x / n, x % n, q, r, n);
    QuotientAtMost(q, r, x / n, x % n, n);
  }

  lemma QuotientAtMost(p: nat, m: nat, q: nat, r: nat, n: nat)
    requires p * n + m == q * n + r && r < n
    ensures p <= q
  {
    if p > q {
      MulMonotone(q + 1, p, n);
      assert false;
    }
  }

  lemma MulMonotone(a: nat, b: nat, n: nat)
    requires a <= b
    ensures a * n <= b * n && a * n == (a - 1) * n + n
  {
  }
}
