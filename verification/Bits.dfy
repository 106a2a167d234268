/** The bits of a number. */
module Bits {
  import opened Octets

  /** Bit `i` of `v`. */
  predicate Bit(v: nat, i: nat) {
    if i == 0 then v % 2 == 1 else Bit(v / 2, i - 1)
  }

  /** The low `n` bits make up a number below 2^n. */
  lemma {:induction false} BitsTell(n: nat, a: nat, b: nat)
    requires a < Pow2(n) && b < Pow2(n) && forall i: nat :: i < n ==> (Bit(a, i) <==> Bit(b, i))
    ensures a == b
  {
    if n > 0 {
      forall i: nat | i < n - 1 ensures Bit(a / 2, i) <==> Bit(b / 2, i) {
        BitNext(a, i, i + 1);
        BitNext(b, i, i + 1);
      }
      BitsTell(n - 1, a / 2, b / 2);
      assert Bit(a, 0) <==> Bit(b, 0);
    }
  }

  lemma BitNext(v: nat, i: nat, j: nat)
    requires j == i + 1
    ensures Bit(v, j) <==> Bit(v / 2, i)
  {
  }

  /** Exclusive or, bit by bit. */
  lemma {:induction false} BitOfXor(n: nat, a: nat, b: nat, i: nat)
    requires i < n
    ensures Bit(XorBits(n, a, b), i) <==> (Bit(a, i) <==> !Bit(b, i))
    decreases n
  {
    var r := XorBits(n - 1, a / 2, b / 2);
    var x := (if a % 2 == b % 2 then 0 else 1) + 2 * r;
    assert x / 2 == r;
    if i > 0 {
      BitOfXor(n - 1, a / 2, b / 2, i - 1);
    }
  }

  lemma Halves(a: nat, k: nat, b: nat, p: nat, q: nat)
    requires k > 0 && p == Pow2(k) && q == Pow2(k - 1)
    ensures a * p == 2 * (a * q) && (a * p + b) / 2 == a * q + b / 2 && (a * p + b) % 2 == b % 2
  {
    assert p == 2 * q;
    assert a * p == 2 * (a * q);
  }

  /** The bits of `b` below bit `k`, and those of `a` from there on. */
  lemma {:induction false} BitJoined(a: nat, k: nat, b: nat, i: nat)
    requires b < Pow2(k)
    ensures Bit(a * Pow2(k) + b, i) <==> if i < k then Bit(b, i) else Bit(a, i - k)
    decreases k
  {
    if k == 0 {
      assert a * Pow2(0) + b == a;
    } else {
      Halves(a, k, b, Pow2(k), Pow2(k - 1));
      if i > 0 {
        BitJoined(a, k - 1, b / 2, i - 1);
      }
    }
  }

  /** A number cut in two before bit `k`. */
  lemma BitSplit(v: nat, k: nat, d: nat, h: nat, l: nat, i: nat)
    requires d == Pow2(k) && l < d && v == h * d + l
    ensures Bit(h, i) <==> Bit(v, k + i)
    ensures Bit(l, i) <==> i < k && Bit(v, i)
  {
    BitJoined(h, k, l, k + i);
    if i < k {
      BitJoined(h, k, l, i);
    } else {
      BitPast(k, l, i);
    }
  }

  lemma {:induction false} BitPast(k: nat, v: nat, i: nat)
    requires v < Pow2(k) && k <= i
    ensures !Bit(v, i)
    decreases k
  {
    if k == 0 {
      BitOfZero(i);
    } else {
      BitPast(k - 1, v / 2, i - 1);
    }
  }

  lemma {:induction false} BitOfZero(i: nat)
    ensures !Bit(0, i)
  {
    if i > 0 {
      BitOfZero(i - 1);
    }
  }

  /** Small powers of two. */
  lemma Powers()
    ensures Pow2(0) == 1 && Pow2(1) == 2 && Pow2(2) == 4 && Pow2(3) == 8 && Pow2(4) == 16 && Pow2(5) == 32
    ensures Pow2(6) == 64 && Pow2(7) == 128 && Pow2(8) == 256
  {
    assert Pow2(4) == 16;
    assert Pow2(8) == 256;
  }
}
