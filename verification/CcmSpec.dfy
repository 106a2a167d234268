/** CCM with an 8-octet tag and a 2-octet length (sections 2.2 and 2.3 of
    RFC 3610), the block cipher being any function from block to block. */
module CcmSpec {
  import opened Octets
  import opened Mbufs

  type Block = s: seq<Byte> | |s| == 16 witness [0, 0, 0, 0, 0, 0, 0, 0, 0, 0, 0, 0, 0, 0, 0, 0]

  type Xor2 = (Byte, Byte) -> Byte

  /** The block cipher, and exclusive or on octets. */
  datatype Cipher = Cipher(e: Block -> Block, x: Xor2)

  /** All that is asked of exclusive or. */
  ghost predicate Lawful(x: Xor2) {
    && (forall a, b :: x(a, b) == x(b, a))
    && (forall a: Byte :: x(a, 0) == a)
    && (forall a, b :: x(x(a, b), b) == a)
  }

  lemma XorIsLawful()
    ensures Lawful(Xor)
  {
    forall a, b ensures Xor(a, b) == Xor(b, a) && Xor(Xor(a, b), b) == a {
      XorCommutes(a, b);
      XorUndoes(a, b);
    }
    forall a: Byte ensures Xor(a, 0) == a {
      XorZero(a);
    }
  }

  /** Block `i` of the key stream, the cipher of counter block `i`. */
  type Counter = nat -> Block

  function Min(a: nat, b: nat): nat { if a <= b then a else b }

  /** Octet by octet, over the length of the first. */
  function XorSeq(x: Xor2, a: seq<Byte>, b: seq<Byte>): (r: seq<Byte>)
    requires |a| <= |b|
    ensures |r| == |a|
  {
    if a == [] then [] else XorSeq(x, a[..|a| - 1], b) + [x(a[|a| - 1], b[|a| - 1])]
  }

  lemma {:induction false} XorSeqAt(x: Xor2, a: seq<Byte>, b: seq<Byte>, i: nat)
    requires i < |a| <= |b|
    ensures XorSeq(x, a, b)[i] == x(a[i], b[i])
  {
    if i < |a| - 1 {
      XorSeqAt(x, a[..|a| - 1], b, i);
    }
  }

  /** A few octets added to a block from octet `at` on. */
  function Mixed(xor: Xor2, x: Block, at: nat, p: seq<Byte>): Block
    requires at + |p| <= 16
  {
    x[..at] + XorSeq(xor, p, x[at..]) + x[at + |p|..]
  }

  // ---- the reference ------------------------------------------------------

  /** Block `i` of a message filled up with zeros. */
  function MessageBlock(p: seq<Byte>, i: nat): Block
    requires 16 * i <= |p|
  {
    var q := p[16 * i..Min(16 * i + 16, |p|)];
    q + Zeros(16 - |q|)
  }

  function Zeros(n: nat): (s: seq<Byte>)
    ensures |s| == n && forall i :: 0 <= i < n ==> s[i] == 0
  {
    if n == 0 then [] else Zeros(n - 1) + [0]
  }

  function Blocks(len: nat): nat { (len + 15) / 16 }

  /** The chaining value after `k` blocks of message. */
  function Chained(c: Cipher, x: Block, p: seq<Byte>, k: nat): Block
    requires k <= Blocks(|p|)
  {
    if k == 0 then x
    else
      BlockStarts(|p|, k - 1);
      c.e(XorSeq(c.x, Chained(c, x, p, k - 1), MessageBlock(p, k - 1)))
  }

  lemma BlockStarts(len: nat, i: nat)
    requires i < Blocks(len)
    ensures 16 * i < len
  {
  }

  /** The message under the key stream, which starts with block 1. */
  function Enciphered(c: Cipher, s: Counter, p: seq<Byte>): (r: seq<Byte>)
    ensures |r| == |p|
  {
    if p == [] then []
    else
      var j := |p| - 1;
      Enciphered(c, s, p[..j]) + [c.x(p[j], s(j / 16 + 1)[j % 16])]
  }

  /** The tag that goes with it: eight octets of the last chaining value under block 0. */
  function Tag(c: Cipher, x: Block, s0: Block, p: seq<Byte>): seq<Byte> {
    XorSeq(c.x, Chained(c, x, p, Blocks(|p|))[..8], s0)
  }

  // ---- block by block -----------------------------------------------------

  /** What has been put out so far, and the chaining value. */
  datatype Work = Work(out: seq<Byte>, x: Block)

  /** Octets of block `i`. */
  function Part(p: seq<Byte>, i: nat): (q: seq<Byte>)
    requires 16 * i <= |p|
    ensures |q| == Min(16, |p| - 16 * i)
  {
    p[16 * i..Min(16 * i + 16, |p|)]
  }

  /** One block, or part of one at the end, encrypted. */
  function Seal(c: Cipher, k: Block, w: Work, q: seq<Byte>): Work
    requires |q| <= 16
  {
    Work(w.out + XorSeq(c.x, q, k), c.e(Mixed(c.x, w.x, 0, q)))
  }

  /** `k` blocks of message `p`. */
  function Sealed(c: Cipher, s: Counter, x: Block, p: seq<Byte>, k: nat): Work
    requires k <= Blocks(|p|)
  {
    if k == 0 then Work([], x)
    else
      BlockStarts(|p|, k - 1);
      Seal(c, s(k), Sealed(c, s, x, p, k - 1), Part(p, k - 1))
  }

  /** One block decrypted; the chaining value takes in the first `t` of its octets. */
  function Open(c: Cipher, k: Block, w: Work, q: seq<Byte>, t: nat): Work
    requires |q| <= 16
  {
    var r := XorSeq(c.x, q, k);
    Work(w.out + r, c.e(Mixed(c.x, w.x, 0, r[..Min(t, |r|)])))
  }

  /** How many octets of block `k` the chaining value takes in. */
  type Takes = nat -> nat

  function Opened(c: Cipher, s: Counter, t: Takes, x: Block, p: seq<Byte>, k: nat): Work
    requires k <= Blocks(|p|)
  {
    if k == 0 then Work([], x)
    else
      BlockStarts(|p|, k - 1);
      Open(c, s(k), Opened(c, s, t, x, p, k - 1), Part(p, k - 1), t(k))
  }

  // ---- block by block is the reference ------------------------------------

  /** Adding part of a block is adding the block filled up with zeros. */
  lemma MixedIsFilled(c: Cipher, x: Block, q: seq<Byte>, b: Block)
    requires Lawful(c.x) && |q| <= 16 && b == q + Zeros(16 - |q|)
    ensures Mixed(c.x, x, 0, q) == XorSeq(c.x, x, b)
  {
    var m, r := Mixed(c.x, x, 0, q), XorSeq(c.x, x, b);
    assert x[0..] == x;
    forall j | 0 <= j < 16 ensures m[j] == r[j] {
      XorSeqAt(c.x, x, b, j);
      if j < |q| {
        XorSeqAt(c.x, q, x, j);
        assert c.x(q[j], x[j]) == c.x(x[j], q[j]);
      } else {
        assert b[j] == 0 && c.x(x[j], 0) == x[j];
      }
    }
  }

  lemma MixedIsPadded(c: Cipher, x: Block, p: seq<Byte>, i: nat, q: seq<Byte>)
    requires Lawful(c.x) && 16 * i <= |p| && q == p[16 * i..Min(16 * i + 16, |p|)]
    ensures Mixed(c.x, x, 0, q) == XorSeq(c.x, x, MessageBlock(p, i))
  {
    MixedIsFilled(c, x, q, MessageBlock(p, i));
  }

  lemma InBlock(k: nat, r: nat)
    requires r < 16
    ensures (16 * k + r) / 16 == k && (16 * k + r) % 16 == r
  {
  }

  /** Whole blocks, then a block or part of one. */
  lemma {:induction false} EncipheredBlock(c: Cipher, s: Counter, p: seq<Byte>, k: nat, q: seq<Byte>)
    requires |p| == 16 * k && |q| <= 16
    ensures Enciphered(c, s, p + q) == Enciphered(c, s, p) + XorSeq(c.x, q, s(k + 1))
    decreases |q|
  {
    if q == [] {
      assert p + q == p;
    } else {
      var n := |q| - 1;
      EncipheredBlock(c, s, p, k, q[..n]);
      InBlock(k, n);
      assert (p + q)[..16 * k + n] == p + q[..n];
    }
  }

  /** Each octet under its own octet of key stream. */
  lemma {:induction false} EncipheredAt(c: Cipher, s: Counter, p: seq<Byte>, j: nat, k: nat, i: nat)
    requires j < |p| && j == 16 * k + i && i < 16
    ensures Enciphered(c, s, p)[j] == c.x(p[j], s(k + 1)[i])
    decreases |p|
  {
    InBlock(k, i);
    if j < |p| - 1 {
      EncipheredAt(c, s, p[..|p| - 1], j, k, i);
    }
  }

  lemma EncipheredSnoc(c: Cipher, s: Counter, p: seq<Byte>, q: seq<Byte>, b: Byte, j: nat)
    requires p == q + [b] && |q| == j
    ensures Enciphered(c, s, p) == Enciphered(c, s, q) + [c.x(b, s(j / 16 + 1)[j % 16])]
  {
    assert p[..|p| - 1] == q;
  }

  /** Enciphering is its own inverse. */
  lemma {:induction false} EncipheredBack(c: Cipher, s: Counter, p: seq<Byte>)
    requires Lawful(c.x)
    ensures Enciphered(c, s, Enciphered(c, s, p)) == p
    decreases |p|
  {
    if p != [] {
      var j := |p| - 1;
      var q, b, o := p[..j], p[j], s(j / 16 + 1)[j % 16];
      assert p == q + [b];
      EncipheredBack(c, s, q);
      EncipheredSnoc(c, s, p, q, b, j);
      EncipheredSnoc(c, s, Enciphered(c, s, p), Enciphered(c, s, q), c.x(b, o), j);
    }
  }

  function Upto(len: nat, k: nat): nat { Min(16 * k, len) }

  lemma UptoNext(len: nat, k: nat)
    requires k < Blocks(len)
    ensures Upto(len, k) == 16 * k && Upto(len, k + 1) == 16 * k + Min(16, len - 16 * k) && 16 * k < len
  {
    BlockStarts(len, k);
  }

  /** Whole blocks and the next one. */
  lemma PartNext(p: seq<Byte>, k: nat)
    requires k < Blocks(|p|)
    ensures 16 * k < |p| && p[..Upto(|p|, k + 1)] == p[..16 * k] + Part(p, k) && Upto(|p|, k) == 16 * k
  {
    UptoNext(|p|, k);
  }

  lemma OutNext(c: Cipher, s: Counter, p: seq<Byte>, k: nat, j: nat, out: seq<Byte>)
    requires k < Blocks(|p|) && j == k + 1 && out == Enciphered(c, s, p[..Upto(|p|, k)])
    ensures 16 * k <= |p| && out + XorSeq(c.x, Part(p, k), s(j)) == Enciphered(c, s, p[..Upto(|p|, j)])
  {
    PartNext(p, k);
    EncipheredBlock(c, s, p[..16 * k], k, Part(p, k));
  }

  /** Encrypting block by block enciphers the message. */
  lemma {:induction false} SealedOut(c: Cipher, s: Counter, x: Block, p: seq<Byte>, k: nat)
    requires k <= Blocks(|p|)
    ensures Sealed(c, s, x, p, k).out == Enciphered(c, s, p[..Upto(|p|, k)])
  {
    if k > 0 {
      SealedOut(c, s, x, p, k - 1);
      OutNext(c, s, p, k - 1, k, Sealed(c, s, x, p, k - 1).out);
    }
  }

  /** And chains it. */
  lemma {:induction false} SealedChains(c: Cipher, s: Counter, x: Block, p: seq<Byte>, k: nat)
    requires Lawful(c.x) && k <= Blocks(|p|)
    ensures Sealed(c, s, x, p, k).x == Chained(c, x, p, k)
  {
    if k > 0 {
      SealedChains(c, s, x, p, k - 1);
      BlockStarts(|p|, k - 1);
      MixedIsPadded(c, Chained(c, x, p, k - 1), p, k - 1, Part(p, k - 1));
    }
  }

  /** All blocks: the ciphertext and the last chaining value of the reference. */
  lemma SealedIs(c: Cipher, s: Counter, x: Block, p: seq<Byte>)
    requires Lawful(c.x)
    ensures Sealed(c, s, x, p, Blocks(|p|)) == Work(Enciphered(c, s, p), Chained(c, x, p, Blocks(|p|)))
  {
    SealedOut(c, s, x, p, Blocks(|p|));
    SealedChains(c, s, x, p, Blocks(|p|));
    assert p[..|p|] == p;
  }

  /** The chaining value a receiver gets that takes in `t(k)` octets of block `k` only. */
  function Shortened(c: Cipher, x: Block, p: seq<Byte>, t: Takes, k: nat): Block
    requires k <= Blocks(|p|)
  {
    if k == 0 then x
    else
      BlockStarts(|p|, k - 1);
      TakeIn(c, Shortened(c, x, p, t, k - 1), Part(p, k - 1), t(k))
  }

  /** The first `t` octets of a block taken in. */
  function TakeIn(c: Cipher, x: Block, q: seq<Byte>, t: nat): Block
    requires |q| <= 16
  {
    c.e(Mixed(c.x, x, 0, q[..Min(t, |q|)]))
  }

  /** Nothing is left out of any block. */
  ghost predicate TakesAll(t: Takes, len: nat) {
    forall k: nat :: 0 < k <= Blocks(len) ==> t(k) >= Min(16, len - 16 * (k - 1))
  }

  lemma {:induction false} ShortenedIs(c: Cipher, x: Block, p: seq<Byte>, t: Takes, k: nat)
    requires Lawful(c.x) && k <= Blocks(|p|) && TakesAll(t, |p|)
    ensures Shortened(c, x, p, t, k) == Chained(c, x, p, k)
  {
    if k > 0 {
      ShortenedIs(c, x, p, t, k - 1);
      BlockStarts(|p|, k - 1);
      var q := Part(p, k - 1);
      assert q[..Min(t(k), |q|)] == q;
      MixedIsPadded(c, Chained(c, x, p, k - 1), p, k - 1, q);
    }
  }

  lemma OpenedGrows(c: Cipher, s: Counter, t: Takes, x: Block, p: seq<Byte>, k: nat, j: nat)
    requires j == k + 1 <= Blocks(|p|)
    ensures 16 * k <= |p| && Opened(c, s, t, x, p, j).out == Opened(c, s, t, x, p, k).out + XorSeq(c.x, Part(p, k), s(j))
  {
    BlockStarts(|p|, k);
  }

  lemma {:induction false} OpenedOut(c: Cipher, s: Counter, t: Takes, x: Block, p: seq<Byte>, k: nat)
    requires k <= Blocks(|p|)
    ensures Opened(c, s, t, x, p, k).out == Enciphered(c, s, p[..Upto(|p|, k)])
  {
    if k > 0 {
      var j: nat := k - 1;
      OpenedOut(c, s, t, x, p, j);
      OpenedGrows(c, s, t, x, p, j, k);
      OutNext(c, s, p, j, k, Opened(c, s, t, x, p, j).out);
    }
  }

  /** A block of the ciphertext deciphered is that block of the message. */
  lemma PlainPart(c: Cipher, s: Counter, p: seq<Byte>, k: nat, e: seq<Byte>, b: Block)
    requires Lawful(c.x) && 16 * k <= |p| && e == Enciphered(c, s, p) && b == s(k + 1)
    ensures XorSeq(c.x, Part(e, k), b) == Part(p, k)
  {
    var q, d := Part(p, k), Part(e, k);
    var r := XorSeq(c.x, d, b);
    forall i | 0 <= i < |q| ensures r[i] == q[i] {
      PlainOctet(c, s, p, k, i, 16 * k + i);
      XorSeqAt(c.x, d, b, i);
    }
  }

  lemma PlainOctet(c: Cipher, s: Counter, p: seq<Byte>, k: nat, i: nat, j: nat)
    requires Lawful(c.x) && j == 16 * k + i < |p| && i < 16
    ensures i < |Part(Enciphered(c, s, p), k)| && i < |Part(p, k)|
    ensures c.x(Part(Enciphered(c, s, p), k)[i], s(k + 1)[i]) == Part(p, k)[i]
  {
    EncipheredAt(c, s, p, j, k, i);
    assert c.x(c.x(p[j], s(k + 1)[i]), s(k + 1)[i]) == p[j];
  }

  lemma OpenedNext(c: Cipher, s: Counter, t: Takes, x: Block, e: seq<Byte>, k: nat, j: nat, r: seq<Byte>)
    requires k < Blocks(|e|) && j == k + 1 && 16 * k <= |e| && r == XorSeq(c.x, Part(e, k), s(j))
    ensures Opened(c, s, t, x, e, j).x == TakeIn(c, Opened(c, s, t, x, e, k).x, r, t(j))
  {
  }

  lemma ShortenedNext(c: Cipher, x: Block, p: seq<Byte>, t: Takes, k: nat, j: nat)
    requires k < Blocks(|p|) && j == k + 1 && 16 * k <= |p|
    ensures Shortened(c, x, p, t, j) == TakeIn(c, Shortened(c, x, p, t, k), Part(p, k), t(j))
  {
  }

  lemma ChainsNext(c: Cipher, s: Counter, t: Takes, x: Block, p: seq<Byte>, e: seq<Byte>, k: nat, j: nat)
    requires |p| == |e| && k < Blocks(|p|) && j == k + 1 && 16 * k <= |p|
    requires Opened(c, s, t, x, e, k).x == Shortened(c, x, p, t, k)
    requires XorSeq(c.x, Part(e, k), s(j)) == Part(p, k)
    ensures Opened(c, s, t, x, e, j).x == Shortened(c, x, p, t, j)
  {
    OpenedNext(c, s, t, x, e, k, j, Part(p, k));
    ShortenedNext(c, x, p, t, k, j);
  }

  lemma {:induction false} OpenedChains(c: Cipher, s: Counter, t: Takes, x: Block, p: seq<Byte>, e: seq<Byte>, k: nat)
    requires Lawful(c.x) && k <= Blocks(|p|) && e == Enciphered(c, s, p)
    ensures Opened(c, s, t, x, e, k).x == Shortened(c, x, p, t, k)
  {
    if k > 0 {
      var j := k - 1;
      OpenedChains(c, s, t, x, p, e, j);
      BlockStarts(|p|, j);
      PlainPart(c, s, p, j, e, s(k));
      ChainsNext(c, s, t, x, p, e, j, k);
    }
  }

  /** Decrypting the ciphertext block by block gives the message back; what is
      chained depends on how much of each block is taken in. */
  lemma OpenedIs(c: Cipher, s: Counter, t: Takes, x: Block, p: seq<Byte>)
    requires Lawful(c.x)
    ensures Opened(c, s, t, x, Enciphered(c, s, p), Blocks(|p|)) == Work(p, Shortened(c, x, p, t, Blocks(|p|)))
  {
    var e := Enciphered(c, s, p);
    OpenedOut(c, s, t, x, e, Blocks(|p|));
    OpenedChains(c, s, t, x, p, e, Blocks(|p|));
    EncipheredBack(c, s, p);
    assert e[..|p|] == e;
  }
}
