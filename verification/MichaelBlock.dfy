/** What Michael's operations on words do, that its block function loses nothing,
    and what that makes of the code. */
module MichaelBlock {
  import opened Octets
  import opened MichaelSpec
  import opened Widths
  import Michael

  // ---- words --------------------------------------------------------------

  /** The upper 17 bits go below the lower 15. */
  lemma Rotl17Is(v: bv32)
    ensures Rotl(v, 17) & 0x1_ffff == v >> 15 && Rotl(v, 17) >> 17 == v & 0x7fff
  {
  }

  lemma Rotl3Is(v: bv32)
    ensures Rotl(v, 3) & 7 == v >> 29 && Rotl(v, 3) >> 3 == v & 0x1fff_ffff
  {
  }

  /** To the left by 30 is to the right by 2. */
  lemma Rotl30Is(v: bv32)
    ensures Rotl(v, 30) & 0x3fff_ffff == v >> 2 && Rotl(v, 30) >> 30 == v & 3
  {
  }

  /** The octets of each half word change places. */
  lemma XswapIs(v: bv32)
    ensures Xswap(v) & 0xff == (v >> 8) & 0xff && (Xswap(v) >> 8) & 0xff == v & 0xff
    ensures (Xswap(v) >> 16) & 0xff == v >> 24 && Xswap(v) >> 24 == (v >> 16) & 0xff
  {
  }

  lemma Small(b: Byte)
    ensures b as bv32 <= 0xff
  {
  }

  /** Octets make a word, least significant first. */
  lemma WordOctets(b0: Byte, b1: Byte, b2: Byte, b3: Byte)
    ensures var v := Le32(b0, b1, b2, b3);
            && v & 0xff == b0 as bv32 && (v >> 8) & 0xff == b1 as bv32
            && (v >> 16) & 0xff == b2 as bv32 && v >> 24 == b3 as bv32
  {
    Small(b0);
    Small(b1);
    Small(b2);
    Small(b3);
    Placed(b0 as bv32, b1 as bv32, b2 as bv32, b3 as bv32);
  }

  lemma Placed(x0: bv32, x1: bv32, x2: bv32, x3: bv32)
    requires x0 <= 0xff && x1 <= 0xff && x2 <= 0xff && x3 <= 0xff
    ensures var v := x0 | (x1 << 8) | (x2 << 16) | (x3 << 24);
            v & 0xff == x0 && (v >> 8) & 0xff == x1 && (v >> 16) & 0xff == x2 && v >> 24 == x3
  {
  }

  // ---- the block function -------------------------------------------------

  /** Subtraction takes back what was added, exclusive or itself. */
  ghost predicate Undoes(o: Ops, sub: (bv32, bv32) -> bv32) {
    && (forall a, b :: sub(o.add(a, b), b) == a)
    && (forall a, b :: o.add(sub(a, b), b) == a)
    && (forall a, b :: o.xor(o.xor(a, b), b) == a)
  }

  function Difference(a: bv32, b: bv32): bv32 { a - b }

  lemma SumBack(a: bv32, b: bv32)
    ensures Difference(a + b, b) == a
  {
  }

  lemma DifferenceBack(a: bv32, b: bv32)
    ensures Sum(a - b, b) == a
  {
  }

  lemma SumUndone(a: bv32, b: bv32)
    ensures Difference(Sum(a, b), b) == a
  {
    SumBack(a, b);
  }

  lemma DifferenceUndone(a: bv32, b: bv32)
    ensures Sum(Difference(a, b), b) == a
  {
    DifferenceBack(a, b);
  }

  lemma XorUndone(a: bv32, b: bv32)
    ensures Xor32(Xor32(a, b), b) == a
  {
  }

  lemma WordsUndo()
    ensures Undoes(WORDS, Difference)
  {
    forall a: bv32, b: bv32
      ensures Difference(WORDS.add(a, b), b) == a && WORDS.add(Difference(a, b), b) == a
      ensures WORDS.xor(WORDS.xor(a, b), b) == a
    {
      SumUndone(a, b);
      DifferenceUndone(a, b);
      XorUndone(a, b);
    }
  }

  /** The block function backwards, last statement first. */
  function Unblock(o: Ops, sub: (bv32, bv32) -> bv32, m: Mic): Mic {
    var l := sub(m.l, m.r);
    var r := o.xor(m.r, o.right2(l));
    var l := sub(l, r);
    var r := o.xor(r, o.left3(l));
    var l := sub(l, r);
    var r := o.xor(r, o.swap(l));
    var l := sub(l, r);
    Mic(l, o.xor(r, o.left17(l)))
  }

  /** The block function permutes the states. */
  lemma BlockUndone(o: Ops, sub: (bv32, bv32) -> bv32, m: Mic)
    requires Undoes(o, sub)
    ensures Unblock(o, sub, Block(o, m)) == m && Block(o, Unblock(o, sub, m)) == m
  {
    var r1 := o.xor(m.r, o.left17(m.l));
    var l1 := o.add(m.l, r1);
    var r2 := o.xor(r1, o.swap(l1));
    var l2 := o.add(l1, r2);
    var r3 := o.xor(r2, o.left3(l2));
    var l3 := o.add(l2, r3);
    var r4 := o.xor(r3, o.right2(l3));
    var l4 := o.add(l3, r4);
    XorBack(o, sub, r3, o.right2(l3));
    XorBack(o, sub, r2, o.left3(l2));
    XorBack(o, sub, r1, o.swap(l1));
    XorBack(o, sub, m.r, o.left17(m.l));
    assert sub(l4, r4) == l3 && sub(l3, r3) == l2 && sub(l2, r2) == l1 && sub(l1, r1) == m.l;
    UnblockUndone(o, sub, m);
  }

  lemma XorBack(o: Ops, sub: (bv32, bv32) -> bv32, a: bv32, b: bv32)
    requires Undoes(o, sub)
    ensures o.xor(o.xor(a, b), b) == a
  {
  }

  lemma UnblockUndone(o: Ops, sub: (bv32, bv32) -> bv32, m: Mic)
    requires Undoes(o, sub)
    ensures Block(o, Unblock(o, sub, m)) == m
  {
    var l3 := sub(m.l, m.r);
    var r3 := o.xor(m.r, o.right2(l3));
    var l2 := sub(l3, r3);
    var r2 := o.xor(r3, o.left3(l2));
    var l1 := sub(l2, r2);
    var r1 := o.xor(r2, o.swap(l1));
    var l0 := sub(l1, r1);
    var r0 := o.xor(r1, o.left17(l0));
    XorBack(o, sub, r1, o.left17(l0));
    XorBack(o, sub, r2, o.swap(l1));
    XorBack(o, sub, r3, o.left3(l2));
    XorBack(o, sub, m.r, o.right2(l3));
    assert o.add(l0, r1) == l1 && o.add(l1, r2) == l2 && o.add(l2, r3) == l3 && o.add(l3, m.r) == m.l;
  }

  // ---- the code -----------------------------------------------------------

  /** A word is added without loss, and different words differently. */
  ghost predicate Lossless(h: Hash) {
    && (forall m, m' :: h.b(m) == h.b(m') ==> m == m')
    && (forall m, m', b0, b1, b2, b3 :: h.x(m, b0, b1, b2, b3) == h.x(m', b0, b1, b2, b3) ==> m == m')
    && (forall m, a0, a1, a2, a3, b0, b1, b2, b3 ::
          h.x(m, a0, a1, a2, a3) == h.x(m, b0, b1, b2, b3) ==> a0 == b0 && a1 == b1 && a2 == b2 && a3 == b3)
  }

  lemma XorTells(a: bv32, b: bv32, c: bv32)
    ensures a ^ b == a ^ c ==> b == c
    ensures a ^ c == b ^ c ==> a == b
  {
  }

  lemma WordTells(a0: Byte, a1: Byte, a2: Byte, a3: Byte, b0: Byte, b1: Byte, b2: Byte, b3: Byte)
    requires Le32(a0, a1, a2, a3) == Le32(b0, b1, b2, b3)
    ensures a0 == b0 && a1 == b1 && a2 == b2 && a3 == b3
  {
    WordOctets(a0, a1, a2, a3);
    WordOctets(b0, b1, b2, b3);
    OctetTells(a0, b0);
    OctetTells(a1, b1);
    OctetTells(a2, b2);
    OctetTells(a3, b3);
  }

  lemma MichaelIsLossless()
    ensures Lossless(MICHAEL)
  {
    WordsUndo();
    forall m, m' | Block(WORDS, m) == Block(WORDS, m') ensures m == m' {
      BlockUndone(WORDS, Difference, m);
      BlockUndone(WORDS, Difference, m');
    }
    forall m, m', b0, b1, b2, b3 | AddWord(m, b0, b1, b2, b3) == AddWord(m', b0, b1, b2, b3) ensures m == m' {
      XorTells(m.l, m'.l, Le32(b0, b1, b2, b3));
    }
    forall m, a0, a1, a2, a3, b0, b1, b2, b3 | AddWord(m, a0, a1, a2, a3) == AddWord(m, b0, b1, b2, b3)
      ensures a0 == b0 && a1 == b1 && a2 == b2 && a3 == b3
    {
      XorTells(m.l, Le32(a0, a1, a2, a3), Le32(b0, b1, b2, b3));
      WordTells(a0, a1, a2, a3, b0, b1, b2, b3);
    }
  }

  lemma BlockTells(h: Hash, m: Mic, m': Mic, s: seq<Byte>, t: seq<Byte>, i: nat)
    requires Lossless(h) && i + 4 <= |s| && i + 4 <= |t| && s[i..i + 4] == t[i..i + 4]
    requires Absorb(h, m, s, i) == Absorb(h, m', t, i)
    ensures m == m'
  {
    var u, v := s[i..i + 4], t[i..i + 4];
    assert s[i] == u[0] == v[0] == t[i] && s[i + 1] == u[1] == v[1] == t[i + 1];
    assert s[i + 2] == u[2] == v[2] == t[i + 2] && s[i + 3] == u[3] == v[3] == t[i + 3];
  }

  lemma WordInAbsorbs(h: Hash, m: Mic, s: seq<Byte>, t: seq<Byte>, i: nat)
    requires Lossless(h) && i + 4 <= |s| && i + 4 <= |t| && Absorb(h, m, s, i) == Absorb(h, m, t, i)
    ensures s[i..i + 4] == t[i..i + 4]
  {
    assert s[i..i + 4] == [s[i], s[i + 1], s[i + 2], s[i + 3]];
    assert t[i..i + 4] == [t[i], t[i + 1], t[i + 2], t[i + 3]];
  }

  /** Two strings agree in all words but word `w`. */
  ghost predicate AgreeBut(s: seq<Byte>, t: seq<Byte>, w: nat) {
    |s| == |t| && forall j: nat :: j != w && 4 * j + 4 <= |s| ==> s[4 * j..4 * j + 4] == t[4 * j..4 * j + 4]
  }

  /** From different states the same words lead to different states. */
  lemma {:induction false} WordsTellStart(h: Hash, m: Mic, m': Mic, s: seq<Byte>, k: nat)
    requires Lossless(h) && 4 * k <= |s| && Words(h, m, s, 0, k) == Words(h, m', s, 0, k)
    ensures m == m'
  {
    if k > 0 {
      BlockTells(h, Words(h, m, s, 0, k - 1), Words(h, m', s, 0, k - 1), s, s, 4 * (k - 1));
      WordsTellStart(h, m, m', s, k - 1);
    }
  }

  /** Words that agree lead to one state. */
  lemma {:induction false} WordsSame(h: Hash, m: Mic, s: seq<Byte>, t: seq<Byte>, w: nat, k: nat)
    requires AgreeBut(s, t, w) && 4 * k <= |s| && k <= w
    ensures Words(h, m, s, 0, k) == Words(h, m, t, 0, k)
  {
    if k > 0 {
      var i := 4 * (k - 1);
      WordsSame(h, m, s, t, w, k - 1);
      var u, v := s[i..i + 4], t[i..i + 4];
      assert s[i] == u[0] == v[0] == t[i] && s[i + 1] == u[1] == v[1] == t[i + 1];
      assert s[i + 2] == u[2] == v[2] == t[i + 2] && s[i + 3] == u[3] == v[3] == t[i + 3];
    }
  }

  /** One word that differs leads to different states. */
  lemma {:induction false} WordsTellOne(h: Hash, m: Mic, s: seq<Byte>, t: seq<Byte>, w: nat, k: nat)
    requires Lossless(h) && AgreeBut(s, t, w) && w < k && 4 * k <= |s| && s[4 * w..4 * w + 4] != t[4 * w..4 * w + 4]
    ensures Words(h, m, s, 0, k) != Words(h, m, t, 0, k)
    decreases k
  {
    var j: nat := k - 1;
    if w < j {
      WordsTellOne(h, m, s, t, w, j);
    } else {
      WordsSame(h, m, s, t, w, j);
    }
    LastTells(h, Words(h, m, s, 0, j), Words(h, m, t, 0, j), s, t, w, j, 4 * j);
  }

  lemma LastTells(h: Hash, a: Mic, b: Mic, s: seq<Byte>, t: seq<Byte>, w: nat, j: nat, i: nat)
    requires Lossless(h) && AgreeBut(s, t, w) && i == 4 * j && i + 4 <= |s|
    requires if w == j then a == b && s[i..i + 4] != t[i..i + 4] else a != b
    ensures Absorb(h, a, s, i) != Absorb(h, b, t, i)
  {
    if Absorb(h, a, s, i) == Absorb(h, b, t, i) {
      if w == j {
        WordInAbsorbs(h, a, s, t, i);
      } else {
        BlockTells(h, a, b, s, t, i);
      }
      assert false;
    }
  }

  /** The code's octets are the words', least significant first. */
  lemma CodeOctets(v: bv32, p: seq<Byte>)
    requires p == Michael.PutLe32(v)
    ensures |p| == 4 && p[0] as bv32 == v & 0xff && p[1] as bv32 == (v >> 8) & 0xff
    ensures p[2] as bv32 == (v >> 16) & 0xff && p[3] as bv32 == v >> 24
  {
    OctetBack(v & 0xff);
    OctetBack((v >> 8) & 0xff);
    OctetBack((v >> 16) & 0xff);
    OctetBack((v >> 24) & 0xff);
    assert (v >> 24) & 0xff == v >> 24;
  }

  lemma Rejoined(v: bv32)
    ensures v == (v & 0xff) | (((v >> 8) & 0xff) << 8) | (((v >> 16) & 0xff) << 16) | ((v >> 24) << 24)
  {
  }

  lemma PutTells(v: bv32, w: bv32, p: seq<Byte>)
    requires p == Michael.PutLe32(v) == Michael.PutLe32(w)
    ensures v == w
  {
    CodeOctets(v, p);
    CodeOctets(w, p);
    Rejoined(v);
    Rejoined(w);
  }

  lemma CodeTells(m: Mic, m': Mic)
    requires Michael.Code(m) == Michael.Code(m')
    ensures m == m'
  {
    HalvesTell(Michael.PutLe32(m.l), Michael.PutLe32(m.r), Michael.PutLe32(m'.l), Michael.PutLe32(m'.r));
    PutTells(m.l, m'.l, Michael.PutLe32(m.l));
    PutTells(m.r, m'.r, Michael.PutLe32(m.r));
  }

  lemma HalvesTell(a: seq<Byte>, b: seq<Byte>, c: seq<Byte>, d: seq<Byte>)
    requires |a| == |c| && a + b == c + d
    ensures a == c && b == d
  {
    assert (a + b)[..|a|] == a && (c + d)[..|a|] == c;
    assert (a + b)[|a|..] == b && (c + d)[|a|..] == d;
  }

  lemma KeyMicTells(key: seq<Byte>, key': seq<Byte>)
    requires |key| == |key'| == 8 && Michael.KeyMic(key) == Michael.KeyMic(key')
    ensures key == key'
  {
    WordTells(key[0], key[1], key[2], key[3], key'[0], key'[1], key'[2], key'[3]);
    WordTells(key[4], key[5], key[6], key[7], key'[4], key'[5], key'[6], key'[7]);
  }

  /** For one message, different keys give different codes. */
  lemma KeyTells(key: seq<Byte>, key': seq<Byte>, hdr: seq<Byte>, s: seq<Byte>)
    requires |key| == |key'| == 8 && |hdr| == 16 && Michael.MicOf(key, hdr, s) == Michael.MicOf(key', hdr, s)
    ensures key == key'
  {
    MichaelIsLossless();
    var h, k, k' := MICHAEL, Michael.KeyMic(key), Michael.KeyMic(key');
    CodeTells(Flattened(h, Words(h, k, hdr, 0, 4), s), Flattened(h, Words(h, k', hdr, 0, 4), s));
    WordsTellStart(h, Words(h, k, hdr, 0, 4), Words(h, k', hdr, 0, 4), Padded(s), |Padded(s)| / 4);
    WordsTellStart(h, k, k', hdr, 4);
    KeyMicTells(key, key');
  }

  /** No two messages are padded alike. */
  lemma PaddingTells(s: seq<Byte>, t: seq<Byte>)
    requires Padded(s) == Padded(t)
    ensures s == t
  {
    var p := Padded(s);
    assert p[|s|] == 0x5a && p[|t|] == 0x5a;
    assert forall i :: |s| < i < |p| ==> p[i] == 0;
    assert forall i :: |t| < i < |p| ==> p[i] == 0;
    assert p[..|s|] == s && p[..|t|] == t;
  }

  /** Under one key, messages that differ in exactly one word have different codes. */
  lemma OneWordTells(key: seq<Byte>, hdr: seq<Byte>, s: seq<Byte>, t: seq<Byte>, w: nat)
    requires |key| == 8 && |hdr| == 16 && AgreeBut(Padded(s), Padded(t), w) && 4 * w + 4 <= |Padded(s)|
    requires Padded(s)[4 * w..4 * w + 4] != Padded(t)[4 * w..4 * w + 4]
    ensures Michael.MicOf(key, hdr, s) != Michael.MicOf(key, hdr, t)
  {
    MichaelIsLossless();
    var h, m := MICHAEL, Words(MICHAEL, Michael.KeyMic(key), hdr, 0, 4);
    WordsTellOne(h, m, Padded(s), Padded(t), w, |Padded(s)| / 4);
    if Michael.Code(Flattened(h, m, s)) == Michael.Code(Flattened(h, m, t)) {
      CodeTells(Flattened(h, m, s), Flattened(h, m, t));
    }
  }
}
