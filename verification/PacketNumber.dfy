/** The 48-bit packet number as it travels in TKIP and CCMP headers. */
module PacketNumber {

  import opened DivMod
  import opened Octets

  type U64 = x: nat | x < 0x1_0000_0000_0000_0000

  /** Octet `k` of a counter, least significant first. */
  function Octet(v: nat, k: nat): Byte
    requires k < 6
  {
    match k
    case 0 => v % 0x100
    case 1 => v / 0x100 % 0x100
    case 2 => v / 0x1_0000 % 0x100
    case 3 => v / 0x100_0000 % 0x100
    case 4 => v / 0x1_0000_0000 % 0x100
    case 5 => v / 0x100_0000_0000 % 0x100
  }

  /** The number a receiver puts together from six octets. */
  function Read6(b0: Byte, b1: Byte, b2: Byte, b3: Byte, b4: Byte, b5: Byte): nat {
    var iv32: nat := b0 + 0x100 * b1 + 0x1_0000 * b2 + 0x100_0000 * b3;
    var iv16: nat := b4 + 0x100 * b5;
    iv16 * 0x1_0000_0000 + iv32
  }

  lemma Low16(v: nat)
    ensures v % 0x1_0000 == v % 0x100 + 0x100 * (v / 0x100 % 0x100) && v / 0x1_0000 == v / 0x100 / 0x100
  {
    var h, l := v / 0x100, v % 0x100;
    Digits(v, 0x100, 0x100, h, l, h / 0x100, h % 0x100);
    Unique(v, 0x1_0000, h / 0x100, 0x100 * (h % 0x100) + l);
  }

  lemma Low32(v: nat)
    ensures v % 0x1_0000_0000 == v % 0x1_0000 + 0x1_0000 * (v / 0x1_0000 % 0x1_0000)
  {
    var h, l := v / 0x1_0000, v % 0x1_0000;
    Digits(v, 0x1_0000, 0x1_0000, h, l, h / 0x1_0000, h % 0x1_0000);
    Unique(v, 0x1_0000_0000, h / 0x1_0000, 0x1_0000 * (h % 0x1_0000) + l);
  }

  lemma Halves(v: nat)
    ensures v % 0x1_0000_0000_0000
         == v % 0x1_0000 + 0x1_0000 * (v / 0x1_0000 % 0x1_0000) + 0x1_0000_0000 * (v / 0x1_0000_0000 % 0x1_0000)
  {
    Low32(v);
    var h, l := v / 0x1_0000_0000, v % 0x1_0000_0000;
    Digits(v, 0x1_0000_0000, 0x1_0000, h, l, h / 0x1_0000, h % 0x1_0000);
    Unique(v, 0x1_0000_0000_0000, h / 0x1_0000, 0x1_0000_0000 * (h % 0x1_0000) + l);
  }

  lemma Pairs(v: nat)
    ensures Octet(v, 0) + 0x100 * Octet(v, 1) == v % 0x1_0000
    ensures Octet(v, 2) + 0x100 * Octet(v, 3) == v / 0x1_0000 % 0x1_0000
    ensures Octet(v, 4) + 0x100 * Octet(v, 5) == v / 0x1_0000_0000 % 0x1_0000
  {
    Low16(v);
    Low16(v / 0x1_0000);
    Low16(v / 0x1_0000_0000);
    Nested(v, 0x1_0000, 0x100, 0x100_0000);
    Nested(v, 0x1_0000_0000, 0x100, 0x100_0000_0000);
  }

  /** What is read back is the counter, up to its 48 bits on the wire. */
  lemma Read6OfOctets(v: nat)
    ensures Read6(Octet(v, 0), Octet(v, 1), Octet(v, 2), Octet(v, 3), Octet(v, 4), Octet(v, 5))
         == v % 0x1_0000_0000_0000
  {
    Pairs(v);
    Halves(v);
    SumUp(Octet(v, 0), Octet(v, 1), Octet(v, 2), Octet(v, 3), Octet(v, 4), Octet(v, 5));
  }

  lemma SumUp(b0: Byte, b1: Byte, b2: Byte, b3: Byte, b4: Byte, b5: Byte)
    ensures Read6(b0, b1, b2, b3, b4, b5)
         == (b0 + 0x100 * b1) + 0x1_0000 * (b2 + 0x100 * b3) + 0x1_0000_0000 * (b4 + 0x100 * b5)
  {
  }

  /** Reading back loses nothing a header or a nonce is made of. */
  lemma OctetsOfRead6(v: nat, k: nat)
    requires k < 6
    ensures Octet(v % 0x1_0000_0000_0000, k) == Octet(v, k)
  {
    var w := v % 0x1_0000_0000_0000;
    var q := v / 0x1_0000_0000_0000;
    match k
    case 0 => Cut(v, w, 1, 0x100_0000_0000 * q);
    case 1 => Cut(v, w, 0x100, 0x1_0000_0000 * q);
    case 2 => Cut(v, w, 0x1_0000, 0x100_0000 * q);
    case 3 => Cut(v, w, 0x100_0000, 0x1_0000 * q);
    case 4 => Cut(v, w, 0x1_0000_0000, 0x100 * q);
    case 5 => Cut(v, w, 0x100_0000_0000, q);
  }

  /** Multiples of `0x100 * d` do not change the digit at `d`. */
  lemma Cut(v: nat, w: nat, d: nat, t: nat)
    requires d > 0 && v == w + 0x100 * t * d
    ensures w / d % 0x100 == v / d % 0x100
  {
    var a, r := w / d, w % d;
    assert w == a * d + r;
    assert v == (a + 0x100 * t) * d + r;
    Unique(v, d, a + 0x100 * t, r);
    Unique(a + 0x100 * t, 0x100, a / 0x100 + t, a % 0x100);
  }
}
