/** The 12-bit sequence-number macros of net80211 and what they mean once
    sequence numbers are lifted to unbounded integers. */
module SeqArith {

  const SEQ_RANGE: nat := 4096
  const SEQ_BA_RANGE: nat := 2048

  function SeqAdd(a: nat, incr: nat): nat {
    (a + incr) % SEQ_RANGE
  }

  function SeqInc(a: nat): nat {
    SeqAdd(a, 1)
  }

  /** The macro's operands are 12-bit values, or one past them. */
  function SeqSub(a: nat, b: nat): nat
    requires b <= a + SEQ_RANGE
  {
    (a + SEQ_RANGE - b) % SEQ_RANGE
  }

  predicate BaBefore(a: nat, b: nat)
    requires a < SEQ_RANGE
  {
    SeqSub(b, a + 1) < SEQ_BA_RANGE - 1
  }

  /** The integer at or after `base` that the wire value `s` abbreviates. */
  function Lift(base: int, s: nat): int {
    base + (s - base) % SEQ_RANGE
  }

  lemma LiftIsFaithful(base: int, s: nat)
    requires s < SEQ_RANGE
    ensures base <= Lift(base, s) < base + SEQ_RANGE
    ensures Lift(base, s) % SEQ_RANGE == s
    ensures SeqSub(s, base % SEQ_RANGE) == Lift(base, s) - base
  {
  }

  lemma LiftOf(base: int, n: int)
    requires base <= n < base + SEQ_RANGE
    ensures Lift(base, n % SEQ_RANGE) == n
    ensures SeqSub(n % SEQ_RANGE, base % SEQ_RANGE) == n - base
  {
    assert (n % SEQ_RANGE - base) % SEQ_RANGE == (n - base) % SEQ_RANGE;
    LiftIsFaithful(base, n % SEQ_RANGE);
  }

  lemma AddLifts(base: int, i: nat)
    ensures SeqAdd(base % SEQ_RANGE, i) == (base + i) % SEQ_RANGE
  {
  }

  lemma SubLifts(n: int, k: nat)
    requires k <= SEQ_RANGE
    ensures SeqSub(n % SEQ_RANGE, k) == (n - k) % SEQ_RANGE
  {
  }

  lemma SubOfMods(x: int, y: int)
    ensures SeqSub(y % SEQ_RANGE, x % SEQ_RANGE + 1) == (y - x - 1) % SEQ_RANGE
  {
  }

  /** BA_BEFORE decides the order of lifted numbers less than half the range apart. */
  lemma BeforeLifts(x: int, y: int)
    requires x - SEQ_BA_RANGE <= y < x + SEQ_BA_RANGE
    ensures BaBefore(x % SEQ_RANGE, y % SEQ_RANGE) <==> x < y
  {
    SubOfMods(x, y);
    if x < y {
      assert (y - x - 1) % SEQ_RANGE == y - x - 1;
    } else {
      assert (y - x - 1) % SEQ_RANGE == y - x - 1 + SEQ_RANGE;
    }
  }
}
