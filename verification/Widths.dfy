/** Octets as numbers and as bit vectors. */
module Widths {
  import opened Octets

  lemma Narrow(b: Byte)
    ensures (b as bv8) as nat == b && (b as bv8) as bv32 == b as bv32
  {
  }

  lemma Widened(x: bv8, y: bv8)
    requires x as bv32 == y as bv32
    ensures x == y
  {
  }

  lemma OctetTells(a: Byte, b: Byte)
    requires a as bv32 == b as bv32
    ensures a == b
  {
    Narrow(a);
    Narrow(b);
    Widened(a as bv8, b as bv8);
  }

  lemma Below(w: bv32)
    requires w <= 0xff
    ensures w as int < 256
  {
  }

  lemma ThereAndBack(w: bv32)
    requires w <= 0xff && w as int < 256
    ensures (w as int) as bv32 == w
  {
  }

  lemma OctetBack(w: bv32)
    requires w <= 0xff
    ensures w as int < 256 && (w as int % 256) as bv32 == w
  {
    Below(w);
    ThereAndBack(w);
    assert w as int % 256 == w as int;
  }

  lemma Cut(w: bv32)
    requires w <= 0xff
    ensures (w as bv8) as bv32 == w
  {
  }

  /** The number in the low eight bits, as bits again. */
  lemma OctetNarrow(w: bv32, b: Byte)
    requires w <= 0xff && w as int < 256 && b == w as int % 256
    ensures b as bv8 == w as bv8
  {
    OctetBack(w);
    Narrow(b);
    Cut(w);
    Widened(b as bv8, w as bv8);
  }
}
