/** The four octets sent for a checksum: what they are, and that a receiver who
    takes them in after the message ends at one remainder exactly when they are
    the right ones. */
module CrcTrailer {
  import opened Crc
  import opened WepSpec
  import opened Widths
  import Octets

  type Byte = Octets.Byte

  /** Four octets as a word, the first one least significant. */
  function Word(b0: bv8, b1: bv8, b2: bv8, b3: bv8): bv32 {
    Wide(b0) | (Wide(b1) << 8) | (Wide(b2) << 16) | (Wide(b3) << 24)
  }

  function WordOf(f: Four): bv32 {
    Word(f[0] as bv8, f[1] as bv8, f[2] as bv8, f[3] as bv8)
  }

  lemma OctetsOfWord(b0: bv8, b1: bv8, b2: bv8, b3: bv8)
    ensures var w := Word(b0, b1, b2, b3);
            && Low8(w) == b0 && Low8(Shift8(w)) == b1
            && Low8(Shift8(Shift8(w))) == b2 && Low8(Shift8(Shift8(Shift8(w)))) == b3
  {
  }

  lemma Rejoined(w: bv32)
    ensures Word(Low8(w), Low8(w >> 8), Low8(w >> 16), Low8(w >> 24)) == w
  {
  }

  lemma OctetIs(v: bv32)
    ensures Octet(v) as bv8 == Low8(v)
  {
    var w := v & 0xff;
    Below(w);
    OctetNarrow(w, Octet(v));
  }

  /** The octets sent for a remainder are those of its complement, and put
      together they are the complement. */
  lemma TrailerIs(r: Remainder)
    ensures WordOf(Trailer(r)) == !r.bits
  {
    var v := !r.bits;
    OctetIs(v);
    OctetIs(v >> 8);
    OctetIs(v >> 16);
    OctetIs(v >> 24);
    Rejoined(v);
  }

  lemma WordTells(f: Four, g: Four)
    requires WordOf(f) == WordOf(g)
    ensures f == g
  {
    OctetsOfWord(f[0] as bv8, f[1] as bv8, f[2] as bv8, f[3] as bv8);
    OctetsOfWord(g[0] as bv8, g[1] as bv8, g[2] as bv8, g[3] as bv8);
    forall k | 0 <= k < 4 ensures f[k] == g[k] {
      Narrow(f[k]);
      Narrow(g[k]);
    }
  }

  // ---- taking the octets in -----------------------------------------------

  lemma HalfTells(x: bv32, y: bv32)
    requires Half(x) == Half(y)
    ensures x == y
  {
  }

  lemma Half2Tells(x: bv32, y: bv32)
    requires Half2(x) == Half2(y)
    ensures x == y
  {
    HalfTells(Half(x), Half(y));
    HalfTells(x, y);
  }

  lemma Half8Tells(x: bv32, y: bv32)
    requires Half8(x) == Half8(y)
    ensures x == y
  {
    Half2Tells(Half2(Half4(x)), Half2(Half4(y)));
    Half2Tells(Half4(x), Half4(y));
    Half2Tells(Half2(x), Half2(y));
    Half2Tells(x, y);
  }

  lemma HighIs(w: bv32)
    ensures Shift8(High(w)) == Shift8(w)
  {
  }

  /** Taking in one octet of a word, the rest of it added later or at once. */
  lemma OctetIn(c: bv32, w: bv32)
    ensures Xor(Update(c, Low8(w)), Shift8(w)) == Half8(Xor(c, w))
  {
    SplitOctet(w);
    XorAssociates(c, Wide(Low8(w)), High(w));
    Half8IsLinear(Xor(c, Wide(Low8(w))), High(w));
    HighBitsShift(w);
    UpdateIsHalf8(c, Low8(w));
  }

  function TakeFour(c: bv32, b0: bv8, b1: bv8, b2: bv8, b3: bv8): bv32 {
    Update(Update(Update(Update(c, b0), b1), b2), b3)
  }

  function Half32(c: bv32): bv32 { Half8(Half8(Half8(Half8(c)))) }

  lemma ShiftedOut(w: bv32)
    ensures Shift8(Shift8(Shift8(Shift8(w)))) == 0
  {
  }

  lemma WordIn(c: bv32, w: bv32)
    ensures TakeFour(c, Low8(w), Low8(Shift8(w)), Low8(Shift8(Shift8(w))), Low8(Shift8(Shift8(Shift8(w))))) == Half32(Xor(c, w))
  {
    var w1 := Shift8(w);
    var w2 := Shift8(w1);
    var w3 := Shift8(w2);
    var c1 := Update(c, Low8(w));
    var c2 := Update(c1, Low8(w1));
    var c3 := Update(c2, Low8(w2));
    OctetIn(c, w);
    OctetIn(c1, w1);
    OctetIn(c2, w2);
    OctetIn(c3, w3);
    ShiftedOut(w);
    XorZero(Update(c3, Low8(w3)));
  }

  const RESIDUE: Remainder := Remainder(0xdebb20e3)

  lemma ResidueOf()
    ensures Half32(0xffff_ffff) == RESIDUE.bits
  {
    assert Half8(0xffff_ffff) == 0x2dfd_1072;
  }

  lemma NotIs(c: bv32)
    ensures Xor(0xffff_ffff, c) == !c
  {
  }

  lemma Complemented(c: bv32, w: bv32)
    ensures Xor(c, w) == 0xffff_ffff <==> w == !c
  {
    NotIs(c);
    XorUndoes(w, c);
    XorUndoes(0xffff_ffff, c);
    XorCommutes(w, c);
  }

  lemma FourIn(c: bv32, f: Four)
    ensures TakeFour(c, f[0] as bv8, f[1] as bv8, f[2] as bv8, f[3] as bv8) == Half32(Xor(c, WordOf(f)))
  {
    OctetsOfWord(f[0] as bv8, f[1] as bv8, f[2] as bv8, f[3] as bv8);
    WordIn(c, WordOf(f));
  }

  lemma RightFour(c: bv32, f: Four)
    ensures Half32(Xor(c, WordOf(f))) == RESIDUE.bits <==> WordOf(f) == !c
  {
    var x := Xor(c, WordOf(f));
    ResidueOf();
    Complemented(c, WordOf(f));
    if Half32(x) == RESIDUE.bits {
      Half8Tells(Half8(Half8(Half8(x))), Half8(Half8(Half8(0xffff_ffff))));
      Half8Tells(Half8(Half8(x)), Half8(Half8(0xffff_ffff)));
      Half8Tells(Half8(x), Half8(0xffff_ffff));
      Half8Tells(x, 0xffff_ffff);
    }
  }

  lemma RightOctets(r: Remainder, f: Four)
    ensures WordOf(f) == !r.bits <==> f == Trailer(r)
  {
    TrailerIs(r);
    if WordOf(f) == !r.bits {
      WordTells(f, Trailer(r));
    }
  }

  lemma SnocFour(c: Suite, r: Remainder, s: seq<Byte>, b0: Byte, b1: Byte, b2: Byte, b3: Byte)
    ensures Checksum(c, r, s + [b0, b1, b2, b3]) == c.u(c.u(c.u(c.u(Checksum(c, r, s), b0), b1), b2), b3)
  {
    var s1 := s + [b0];
    var s2 := s1 + [b1];
    var s3 := s2 + [b2];
    ChecksumSnoc(c, r, s, b0);
    ChecksumSnoc(c, r, s1, b1);
    ChecksumSnoc(c, r, s2, b2);
    ChecksumSnoc(c, r, s3, b3);
    assert s + [b0, b1, b2, b3] == s3 + [b3];
  }

  lemma ChecksumFour(s: seq<Byte>, f: Four)
    ensures Checksum(WEP, START, s + f).bits
         == TakeFour(Checksum(WEP, START, s).bits, f[0] as bv8, f[1] as bv8, f[2] as bv8, f[3] as bv8)
  {
    SnocFour(WEP, START, s, f[0], f[1], f[2], f[3]);
    assert f == [f[0], f[1], f[2], f[3]];
  }

  /** Whatever the message, four octets after it lead to the one remainder
      exactly when they are the ones sent for it. */
  lemma ResidueIff(s: seq<Byte>, f: Four)
    ensures Checksum(WEP, START, s + f) == RESIDUE <==> f == Icv(WEP, s)
  {
    var r := Checksum(WEP, START, s);
    ChecksumFour(s, f);
    FourIn(r.bits, f);
    RightFour(r.bits, f);
    RightOctets(r, f);
  }
}
