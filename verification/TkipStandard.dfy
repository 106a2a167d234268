/** The two phases of TKIP key mixing written out over named words and octets,
    as in section 11.4.2.5 of IEEE Std 802.11-2012, and what the operations on
    words do to their bits. */
module TkipStandard {
  import opened Bits
  import opened TkipMixing
  import O = Octets
  import TkipCipher

  // ---- words, bit by bit --------------------------------------------------

  lemma WordPowers()
    ensures O.Pow2(1) == 2 && O.Pow2(5) == 32 && O.Pow2(7) == 128 && O.Pow2(8) == 256 && O.Pow2(15) == 0x8000
    ensures O.Pow2(16) == 0x1_0000
  {
    Powers();
    assert O.Pow2(12) == 0x1000;
    assert O.Pow2(16) == 0x1_0000;
  }

  /** Bit `i` of the word comes from bit `i + 1`, bit 15 from bit 0. */
  lemma RotateBits(v: Word, i: nat)
    requires i < 16
    ensures Bit(RotR1(v), i) <==> Bit(v, if i == 15 then 0 else i + 1)
  {
    WordPowers();
    assert RotR1(v) == v % 2 * 0x8000 + v / 2;
    BitJoined(v % 2, 15, v / 2, i);
    BitSplit(v, 1, 2, v / 2, v % 2, i);
    BitSplit(v, 1, 2, v / 2, v % 2, 0);
  }

  /** The upper octet's bits above the lower one's. */
  lemma Mk16Bits(hi: Byte, lo: Byte, i: nat)
    ensures Bit(Mk16(hi, lo), i) <==> if i < 8 then Bit(lo, i) else Bit(hi, i - 8)
  {
    WordPowers();
    assert Mk16(hi, lo) == hi * 256 + lo;
    BitJoined(hi, 8, lo, i);
  }

  lemma OctetBits(v: Word, i: nat)
    requires i < 8
    ensures Bit(Hi8(v), i) <==> Bit(v, 8 + i)
    ensures Bit(Lo8(v), i) <==> Bit(v, i)
  {
    WordPowers();
    BitSplit(v, 8, 256, v / 256, v % 256, i);
  }

  /** Exclusive or of words. */
  lemma XorBitsOfWords(a: Word, b: Word, i: nat)
    requires i < 16
    ensures Bit(Xor(a, b), i) <==> (Bit(a, i) <==> !Bit(b, i))
  {
    Mk16Bits(O.Xor(Hi8(a), Hi8(b)), O.Xor(Lo8(a), Lo8(b)), i);
    if i < 8 {
      BitOfXor(8, Lo8(a), Lo8(b), i);
      OctetBits(a, i);
      OctetBits(b, i);
    } else {
      BitOfXor(8, Hi8(a), Hi8(b), i - 8);
      OctetBits(a, i - 8);
      OctetBits(b, i - 8);
    }
  }

  /** The table's entry for the lower octet and, its octets exchanged, that for
      the upper one. */
  lemma SBits(sb: Sbox, v: Word, i: nat)
    requires i < 16
    ensures Bit(S(sb, v), i) <==> (Bit(sb[v % 256], i) <==> !Bit(sb[v / 256], if i < 8 then i + 8 else i - 8))
  {
    var t := sb[Hi8(v)];
    XorBitsOfWords(sb[Lo8(v)], Mk16(Lo8(t), Hi8(t)), i);
    Mk16Bits(Lo8(t), Hi8(t), i);
    OctetBits(t, if i < 8 then i else i - 8);
  }

  /** Adding 32 where bit 5 is clear sets it. */
  lemma SetFive(v: nat, h: nat, l: nat, i: nat)
    requires v == h * 64 + l && l < 32 && i < 7
    ensures Bit(v + 32, i) <==> i == 5 || Bit(v, i)
  {
    WordPowers();
    BitJoined(h, 6, l, i);
    BitJoined(h, 6, 32 + l, i);
    BitJoined(1, 5, l, i);
    assert 1 * 32 + l == 32 + l && Bit(1, 0);
  }

  lemma FiveSet(hi: Byte)
    requires hi / 32 % 2 == 1
    ensures Bit(hi, 5)
  {
    WordPowers();
    BitSplit(hi, 5, 32, hi / 32, hi % 32, 0);
  }

  lemma BitsBelow7(w: nat, i: nat)
    ensures Bit(w % 128, i) <==> i < 7 && Bit(w, i)
  {
    WordPowers();
    BitSplit(w, 7, 128, w / 128, w % 128, i);
  }

  /** Bit 5 is set and bit 7 cleared: `(hi | 0x20) & 0x7f`. */
  lemma Seed1Bits(hi: Byte, i: nat)
    requires i < 8
    ensures Bit(Seed1(hi), i) <==> i == 5 || (i != 7 && Bit(hi, i))
  {
    if hi / 32 % 2 == 1 {
      BitsBelow7(hi, i);
      FiveSet(hi);
    } else {
      BitsBelow7((hi as nat) + 32, i);
      if i < 7 {
        SetFive(hi, hi / 64, hi % 64, i);
      }
    }
  }

  // ---- the phases over named words -----------------------------------------

  /** The operations on words: the S-box, exclusive or, and the rotation. */
  datatype Ops = Ops(s: Word -> Word, xor: (Word, Word) -> Word, rot: Word -> Word)

  function OpsOf(sb: Sbox): Ops {
    Ops(v => S(sb, v), (a, b) => Xor(a, b), v => RotR1(v))
  }

  datatype Five = Five(t0: Word, t1: Word, t2: Word, t3: Word, t4: Word)

  /** One round of phase 1; `tk` is the temporal key's 16 octets. */
  function Round(o: Ops, tk: Key, i: nat, t: Five): Five {
    var j := 2 * (i % 2);
    var t0 := Add(t.t0, o.s(o.xor(t.t4, Mk16(tk[1 + j], tk[0 + j]))));
    var t1 := Add(t.t1, o.s(o.xor(t0, Mk16(tk[5 + j], tk[4 + j]))));
    var t2 := Add(t.t2, o.s(o.xor(t1, Mk16(tk[9 + j], tk[8 + j]))));
    var t3 := Add(t.t3, o.s(o.xor(t2, Mk16(tk[13 + j], tk[12 + j]))));
    var t4 := Add(t.t4, o.s(o.xor(t3, Mk16(tk[1 + j], tk[0 + j]))) + i);
    Five(t0, t1, t2, t3, t4)
  }

  function Rounds(o: Ops, tk: Key, n: nat, t: Five): Five {
    if n == 0 then t else Round(o, tk, n - 1, Rounds(o, tk, n - 1, t))
  }

  /** Phase 1: eight rounds from the high counter bits and the address. */
  function PhaseOne(sb: Sbox, tk: Key, ta: Addr, iv32: U32): Five {
    Rounds(OpsOf(sb), tk, 8, Five(iv32 % 0x1_0000, iv32 / 0x1_0000, Mk16(ta[1], ta[0]), Mk16(ta[3], ta[2]), Mk16(ta[5], ta[4])))
  }

  datatype Six = Six(p0: Word, p1: Word, p2: Word, p3: Word, p4: Word, p5: Word)

  /** Phase 2's second step, with the S-box. */
  function Substituted(o: Ops, tk: Key, p: Six): Six {
    var p0 := Add(p.p0, o.s(o.xor(p.p5, Mk16(tk[1], tk[0]))));
    var p1 := Add(p.p1, o.s(o.xor(p0, Mk16(tk[3], tk[2]))));
    var p2 := Add(p.p2, o.s(o.xor(p1, Mk16(tk[5], tk[4]))));
    var p3 := Add(p.p3, o.s(o.xor(p2, Mk16(tk[7], tk[6]))));
    var p4 := Add(p.p4, o.s(o.xor(p3, Mk16(tk[9], tk[8]))));
    var p5 := Add(p.p5, o.s(o.xor(p4, Mk16(tk[11], tk[10]))));
    Six(p0, p1, p2, p3, p4, p5)
  }

  /** And with rotations. */
  function Rotated(o: Ops, tk: Key, p: Six): Six {
    var p0 := Add(p.p0, o.rot(o.xor(p.p5, Mk16(tk[13], tk[12]))));
    var p1 := Add(p.p1, o.rot(o.xor(p0, Mk16(tk[15], tk[14]))));
    var p2 := Add(p.p2, o.rot(p1));
    var p3 := Add(p.p3, o.rot(p2));
    var p4 := Add(p.p4, o.rot(p3));
    var p5 := Add(p.p5, o.rot(p4));
    Six(p0, p1, p2, p3, p4, p5)
  }

  function PhaseTwo(o: Ops, tk: Key, t: Five, iv16: Word): Six {
    Rotated(o, tk, Substituted(o, tk, Six(t.t0, t.t1, t.t2, t.t3, t.t4, Add(t.t4, iv16))))
  }

  /** The 16 octets of the RC4 key. */
  function WepSeed(sb: Sbox, tk: Key, t: Five, iv16: Word): seq<Byte> {
    var p := PhaseTwo(OpsOf(sb), tk, t, iv16);
    [Hi8(iv16), Seed1(Hi8(iv16)), Lo8(iv16), Lo8(Xor(p.p5, Mk16(tk[1], tk[0])) / 2),
     Lo8(p.p0), Hi8(p.p0), Lo8(p.p1), Hi8(p.p1), Lo8(p.p2), Hi8(p.p2),
     Lo8(p.p3), Hi8(p.p3), Lo8(p.p4), Hi8(p.p4), Lo8(p.p5), Hi8(p.p5)]
  }

  // ---- the chains are the phases -------------------------------------------

  /** The mixer with this key and these operations. */
  ghost predicate Fits(m: Mixer, o: Ops, tk: Key) {
    && (forall v, k: nat :: k < 8 ==> m.x(v, k) == o.xor(v, Mk16(tk[2 * k + 1], tk[2 * k])))
    && (forall v :: m.s(v) == o.s(v)) && (forall v :: m.rot(v) == o.rot(v))
  }

  lemma MixerFits(sb: Sbox, tk: Key)
    ensures Fits(MixerOf(sb, tk), OpsOf(sb), tk)
  {
    var m, o := MixerOf(sb, tk), OpsOf(sb);
    forall v: Word, k: nat | k < 8 ensures m.x(v, k) == o.xor(v, Mk16(tk[2 * k + 1], tk[2 * k])) {
      assert k % 8 == k;
      assert m.x(v, k) == Xor(v, KeyWord(tk, k));
    }
  }

  function List5(t: Five): (x: State)
    ensures |x| == 5
  {
    [t.t0, t.t1, t.t2, t.t3, t.t4]
  }

  function List6(p: Six): (x: State)
    ensures |x| == 6
  {
    [p.p0, p.p1, p.p2, p.p3, p.p4, p.p5]
  }

  lemma RoundFits(m: Mixer, o: Ops, tk: Key, i: nat, t: Five)
    requires Fits(m, o, tk)
    ensures var x1 := TkipCipher.At1(m, i, 0, List5(t));
            var x2 := TkipCipher.At1(m, i, 1, x1);
            var x3 := TkipCipher.At1(m, i, 2, x2);
            var x4 := TkipCipher.At1(m, i, 3, x3);
            TkipCipher.At1(m, i, 4, x4) == List5(Round(o, tk, i, t))
  {
    var j := i % 2;
    var r := Round(o, tk, i, t);
    assert m.x(t.t4, j) == o.xor(t.t4, Mk16(tk[1 + 2 * j], tk[0 + 2 * j]));
    assert m.x(r.t0, j + 2) == o.xor(r.t0, Mk16(tk[5 + 2 * j], tk[4 + 2 * j]));
    assert m.x(r.t1, j + 4) == o.xor(r.t1, Mk16(tk[9 + 2 * j], tk[8 + 2 * j]));
    assert m.x(r.t2, j + 6) == o.xor(r.t2, Mk16(tk[13 + 2 * j], tk[12 + 2 * j]));
    assert m.x(r.t3, j) == o.xor(r.t3, Mk16(tk[1 + 2 * j], tk[0 + 2 * j]));
    var x1 := TkipCipher.At1(m, i, 0, List5(t));
    assert x1 == [r.t0, t.t1, t.t2, t.t3, t.t4];
    var x2 := TkipCipher.At1(m, i, 1, x1);
    assert x2 == [r.t0, r.t1, t.t2, t.t3, t.t4];
    var x3 := TkipCipher.At1(m, i, 2, x2);
    assert x3 == [r.t0, r.t1, r.t2, t.t3, t.t4];
    var x4 := TkipCipher.At1(m, i, 3, x3);
    assert x4 == [r.t0, r.t1, r.t2, r.t3, t.t4];
  }

  /** Five single steps. */
  lemma RoundSteps(m: Mixer, i: nat, x: State, k: nat, l: nat)
    requires |x| == 5 && k == 5 * i && l == k + 5
    ensures var x0 := Mix(Terms(m, One), One, k, x);
            var x1 := TkipCipher.At1(m, i, 0, x0);
            var x2 := TkipCipher.At1(m, i, 1, x1);
            var x3 := TkipCipher.At1(m, i, 2, x2);
            var x4 := TkipCipher.At1(m, i, 3, x3);
            Mix(Terms(m, One), One, l, x) == TkipCipher.At1(m, i, 4, x4)
  {
    TkipCipher.InRound(i, k);
    TkipCipher.MixAt1(m, i, 0, x, k, k + 1);
    TkipCipher.MixAt1(m, i, 1, x, k + 1, k + 2);
    TkipCipher.MixAt1(m, i, 2, x, k + 2, k + 3);
    TkipCipher.MixAt1(m, i, 3, x, k + 3, k + 4);
    TkipCipher.MixAt1(m, i, 4, x, k + 4, l);
  }

  lemma {:induction false} RoundsFit(m: Mixer, o: Ops, tk: Key, n: nat, t: Five, k: nat)
    requires Fits(m, o, tk) && k == 5 * n
    ensures Mix(Terms(m, One), One, k, List5(t)) == List5(Rounds(o, tk, n, t))
    decreases n
  {
    if n > 0 {
      var i := n - 1;
      RoundsFit(m, o, tk, i, t, k - 5);
      RoundSteps(m, i, List5(t), k - 5, k);
      assert Rounds(o, tk, n, t) == Round(o, tk, i, Rounds(o, tk, i, t));
      RoundFits(m, o, tk, i, Rounds(o, tk, i, t));
    }
  }

  /** Phase 1 is the standard's. */
  lemma TtakIsStandard(sb: Sbox, tk: Key, ta: Addr, iv32: U32)
    ensures Ttak(MixerOf(sb, tk), ta, iv32) == List5(PhaseOne(sb, tk, ta, iv32))
  {
    MixerFits(sb, tk);
    var t := Five(iv32 % 0x1_0000, iv32 / 0x1_0000, Mk16(ta[1], ta[0]), Mk16(ta[3], ta[2]), Mk16(ta[5], ta[4]));
    RoundsFit(MixerOf(sb, tk), OpsOf(sb), tk, 8, t, 40);
    assert Start(ta, iv32) == List5(t);
  }

  /** Six steps from step `k`, one after the other. */
  function SixSteps(m: Mixer, k: nat, x: State): State
    requires |x| == 6 && k <= 6
  {
    TkipCipher.At2(m, k + 5, TkipCipher.At2(m, k + 4, TkipCipher.At2(m, k + 3, TkipCipher.At2(m, k + 2,
      TkipCipher.At2(m, k + 1, TkipCipher.At2(m, k, x))))))
  }

  lemma MixOfSix(m: Mixer, x: State, k: nat, l: nat)
    requires |x| == 6 && k <= 6 && l == k + 6
    ensures Mix(Terms(m, Two), Two, l, x) == SixSteps(m, k, Mix(Terms(m, Two), Two, k, x))
  {
    TkipCipher.MixAt2(m, x, k, k + 1);
    TkipCipher.MixAt2(m, x, k + 1, k + 2);
    TkipCipher.MixAt2(m, x, k + 2, k + 3);
    TkipCipher.MixAt2(m, x, k + 3, k + 4);
    TkipCipher.MixAt2(m, x, k + 4, k + 5);
    TkipCipher.MixAt2(m, x, k + 5, l);
  }

  lemma SubstitutedFits(m: Mixer, o: Ops, tk: Key, p: Six)
    requires Fits(m, o, tk)
    ensures SixSteps(m, 0, List6(p)) == List6(Substituted(o, tk, p))
  {
    var r := Substituted(o, tk, p);
    var x1 := TkipCipher.At2(m, 0, List6(p));
    assert x1 == [r.p0, p.p1, p.p2, p.p3, p.p4, p.p5];
    var x2 := TkipCipher.At2(m, 1, x1);
    assert x2 == [r.p0, r.p1, p.p2, p.p3, p.p4, p.p5];
    var x3 := TkipCipher.At2(m, 2, x2);
    assert x3 == [r.p0, r.p1, r.p2, p.p3, p.p4, p.p5];
    var x4 := TkipCipher.At2(m, 3, x3);
    assert x4 == [r.p0, r.p1, r.p2, r.p3, p.p4, p.p5];
    var x5 := TkipCipher.At2(m, 4, x4);
    assert x5 == [r.p0, r.p1, r.p2, r.p3, r.p4, p.p5];
  }

  lemma RotatedFits(m: Mixer, o: Ops, tk: Key, p: Six)
    requires Fits(m, o, tk)
    ensures SixSteps(m, 6, List6(p)) == List6(Rotated(o, tk, p))
  {
    var r := Rotated(o, tk, p);
    var x1 := TkipCipher.At2(m, 6, List6(p));
    assert x1 == [r.p0, p.p1, p.p2, p.p3, p.p4, p.p5];
    var x2 := TkipCipher.At2(m, 7, x1);
    assert x2 == [r.p0, r.p1, p.p2, p.p3, p.p4, p.p5];
    var x3 := TkipCipher.At2(m, 8, x2);
    assert x3 == [r.p0, r.p1, r.p2, p.p3, p.p4, p.p5];
    var x4 := TkipCipher.At2(m, 9, x3);
    assert x4 == [r.p0, r.p1, r.p2, r.p3, p.p4, p.p5];
    var x5 := TkipCipher.At2(m, 10, x4);
    assert x5 == [r.p0, r.p1, r.p2, r.p3, r.p4, p.p5];
  }

  lemma PhaseTwoFits(m: Mixer, o: Ops, tk: Key, t: Five, iv16: Word)
    requires Fits(m, o, tk)
    ensures Ppk(m, List5(t), iv16) == List6(PhaseTwo(o, tk, t, iv16))
  {
    var p := Six(t.t0, t.t1, t.t2, t.t3, t.t4, Add(t.t4, iv16));
    assert List5(t) + [Add(t.t4, iv16)] == List6(p);
    MixOfSix(m, List6(p), 0, 6);
    SubstitutedFits(m, o, tk, p);
    MixOfSix(m, List6(p), 6, 12);
    RotatedFits(m, o, tk, Substituted(o, tk, p));
  }

  lemma LittleEndianOfSix(p: Six)
    ensures LittleEndian(List6(p)) == [Lo8(p.p0), Hi8(p.p0), Lo8(p.p1), Hi8(p.p1), Lo8(p.p2), Hi8(p.p2),
                                       Lo8(p.p3), Hi8(p.p3), Lo8(p.p4), Hi8(p.p4), Lo8(p.p5), Hi8(p.p5)]
  {
    PairFirst(p.p5, []);
    PairFirst(p.p4, [p.p5]);
    PairFirst(p.p3, [p.p4, p.p5]);
    PairFirst(p.p2, [p.p3, p.p4, p.p5]);
    PairFirst(p.p1, [p.p2, p.p3, p.p4, p.p5]);
    PairFirst(p.p0, [p.p1, p.p2, p.p3, p.p4, p.p5]);
  }

  lemma PairFirst(w: Word, rest: State)
    ensures LittleEndian([w] + rest) == [Lo8(w), Hi8(w)] + LittleEndian(rest)
  {
    assert ([w] + rest)[1..] == rest;
  }

  /** Phase 2 and the octets of the RC4 key are the standard's. */
  lemma SeedIsStandard(sb: Sbox, tk: Key, t: Five, iv16: Word)
    ensures Seed(MixerOf(sb, tk), List5(t), iv16) == WepSeed(sb, tk, t, iv16)
  {
    MixerFits(sb, tk);
    PhaseTwoFits(MixerOf(sb, tk), OpsOf(sb), tk, t, iv16);
    LittleEndianOfSix(PhaseTwo(OpsOf(sb), tk, t, iv16));
  }

  /** A packet's prescribed key is that of the standard's two phases. */
  lemma PacketKeyIsStandard(sb: Sbox, tk: Key, ta: Addr, tsc: nat)
    ensures PacketKey(MixerOf(sb, tk), ta, tsc)
         == WepSeed(sb, tk, PhaseOne(sb, tk, ta, tsc / 0x1_0000 % 0x1_0000_0000), tsc % 0x1_0000)
  {
    TtakIsStandard(sb, tk, ta, tsc / 0x1_0000 % 0x1_0000_0000);
    SeedIsStandard(sb, tk, PhaseOne(sb, tk, ta, tsc / 0x1_0000 % 0x1_0000_0000), tsc % 0x1_0000);
  }

  /** Sums of words drop what is carried out of bit 15. */
  lemma AddWraps(a: Word, d: nat)
    requires d < 0x1_0000
    ensures Add(a, d) == if a + d < 0x1_0000 then a + d else a + d - 0x1_0000
  {
  }
}
