/** What the code and the masking of CCM tell apart, under any block cipher that
    permutes the blocks. */
module CcmLaws {
  import opened Octets
  import opened CcmSpec

  /** No two blocks are enciphered alike, so the cipher permutes the blocks. */
  ghost predicate Permutes(c: Cipher) {
    forall a, b :: c.e(a) == c.e(b) ==> a == b
  }

  /** Eight octets of the last chaining value, masked with block 0. */
  lemma TagIs(c: Cipher, x: Block, s0: Block, p: seq<Byte>, j: nat)
    requires j < 8
    ensures |Tag(c, x, s0, p)| == 8 && Tag(c, x, s0, p)[j] == c.x(Chained(c, x, p, Blocks(|p|))[j], s0[j])
  {
    XorSeqAt(c.x, Chained(c, x, p, Blocks(|p|))[..8], s0, j);
  }

  lemma XorTells(x: Xor2, a: Block, b: Block, d: Block)
    requires Lawful(x) && (XorSeq(x, a, d) == XorSeq(x, b, d) || XorSeq(x, d, a) == XorSeq(x, d, b))
    ensures a == b
  {
    forall i | 0 <= i < 16 ensures a[i] == b[i] {
      XorSeqAt(x, a, d, i);
      XorSeqAt(x, b, d, i);
      XorSeqAt(x, d, a, i);
      XorSeqAt(x, d, b, i);
      assert x(d[i], a[i]) == x(a[i], d[i]) && x(d[i], b[i]) == x(b[i], d[i]);
      assert x(x(a[i], d[i]), d[i]) == a[i] && x(x(b[i], d[i]), d[i]) == b[i];
    }
  }

  /** The same blocks lead from different values to different ones. */
  lemma {:induction false} ChainTellsStart(c: Cipher, x: Block, y: Block, p: seq<Byte>, k: nat)
    requires Permutes(c) && Lawful(c.x) && k <= Blocks(|p|) && Chained(c, x, p, k) == Chained(c, y, p, k)
    ensures x == y
  {
    if k > 0 {
      BlockStarts(|p|, k - 1);
      XorTells(c.x, Chained(c, x, p, k - 1), Chained(c, y, p, k - 1), MessageBlock(p, k - 1));
      ChainTellsStart(c, x, y, p, k - 1);
    }
  }

  /** Two messages of one length agree in all blocks but block `w`. */
  ghost predicate AgreeBut(p: seq<Byte>, q: seq<Byte>, w: nat) {
    |p| == |q| && forall i: nat :: i != w && 16 * i < |p| ==> MessageBlock(p, i) == MessageBlock(q, i)
  }

  lemma {:induction false} ChainSame(c: Cipher, x: Block, p: seq<Byte>, q: seq<Byte>, w: nat, k: nat)
    requires AgreeBut(p, q, w) && k <= Blocks(|p|) && k <= w
    ensures Chained(c, x, p, k) == Chained(c, x, q, k)
  {
    if k > 0 {
      BlockStarts(|p|, k - 1);
      ChainSame(c, x, p, q, w, k - 1);
    }
  }

  /** Messages that differ in exactly one block have different codes, before the
      code is cut to eight octets. */
  lemma {:induction false} ChainTellsOne(c: Cipher, x: Block, p: seq<Byte>, q: seq<Byte>, w: nat, k: nat)
    requires Permutes(c) && Lawful(c.x) && AgreeBut(p, q, w) && w < k <= Blocks(|p|) && 16 * w < |p|
    requires MessageBlock(p, w) != MessageBlock(q, w)
    ensures Chained(c, x, p, k) != Chained(c, x, q, k)
    decreases k
  {
    var j: nat := k - 1;
    BlockStarts(|p|, j);
    var a, b := Chained(c, x, p, j), Chained(c, x, q, j);
    if w < j {
      ChainTellsOne(c, x, p, q, w, j);
      if c.e(XorSeq(c.x, a, MessageBlock(p, j))) == c.e(XorSeq(c.x, b, MessageBlock(q, j))) {
        XorTells(c.x, a, b, MessageBlock(p, j));
      }
    } else {
      ChainSame(c, x, p, q, w, j);
      if c.e(XorSeq(c.x, a, MessageBlock(p, j))) == c.e(XorSeq(c.x, b, MessageBlock(q, j))) {
        XorTells(c.x, MessageBlock(p, j), MessageBlock(q, j), a);
      }
    }
  }
}
