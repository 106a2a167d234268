/** What of a frame's header the tag protects: a frame sent again, or with other
    masked bits, is the same frame to the cipher, and any other change is not. */
module CcmpHeader {
  import opened Bits
  import opened Octets
  import opened Mbufs
  import opened CcmSpec
  import opened CcmpChain
  import opened CcmpDecrypt
  import opened Ccmp
  import opened Pieces
  import CcmLaws
  import PacketNumber

  // ---- the masks ----------------------------------------------------------

  /** Bits 4 to 6 are cleared (mask 0x8f). */
  lemma SubtypeBits(b: Byte, i: nat)
    requires i < 8
    ensures Bit(ClearSubtype(b), i) <==> Bit(b, i) && !(4 <= i <= 6)
  {
    Powers();
    BitJoined(b / 128, 7, b % 16, i);
    BitSplit(b, 4, 16, b / 16, b % 16, i);
    if i == 7 {
      BitSplit(b, 7, 128, b / 128, b % 128, 0);
    }
  }

  /** Bits 3 to 5 are: Retry, Power Management and More Data (mask 0xc7). */
  lemma FlagBits(b: Byte, i: nat)
    requires i < 8
    ensures Bit(ClearFlags(b), i) <==> Bit(b, i) && !(3 <= i <= 5)
  {
    Powers();
    BitJoined(b / 64, 6, b % 8, i);
    BitSplit(b, 3, 8, b / 8, b % 8, i);
    if i >= 6 {
      BitSplit(b, 6, 64, b / 64, b % 64, i - 6);
    }
  }

  /** Only the low 4 bits are kept. */
  lemma LowBits(b: Byte, i: nat)
    ensures Bit(b % 16, i) <==> Bit(b, i) && i < 4
  {
    Powers();
    BitSplit(b, 4, 16, b / 16, b % 16, i);
  }

  /** Two octets agree in all bits but those from `lo` to `hi`. */
  ghost predicate AgreeBut(a: Byte, b: Byte, lo: nat, hi: nat) {
    forall i: nat :: i < 8 && !(lo <= i <= hi) ==> (Bit(a, i) <==> Bit(b, i))
  }

  lemma SubtypeTells(a: Byte, b: Byte)
    ensures ClearSubtype(a) == ClearSubtype(b) <==> AgreeBut(a, b, 4, 6)
  {
    Powers();
    forall i: nat | i < 8
      ensures Bit(ClearSubtype(a), i) <==> Bit(a, i) && !(4 <= i <= 6)
      ensures Bit(ClearSubtype(b), i) <==> Bit(b, i) && !(4 <= i <= 6)
    {
      SubtypeBits(a, i);
      SubtypeBits(b, i);
    }
    if AgreeBut(a, b, 4, 6) {
      BitsTell(8, ClearSubtype(a), ClearSubtype(b));
    }
  }

  lemma FlagsTell(a: Byte, b: Byte)
    ensures ClearFlags(a) == ClearFlags(b) <==> AgreeBut(a, b, 3, 5)
  {
    Powers();
    forall i: nat | i < 8
      ensures Bit(ClearFlags(a), i) <==> Bit(a, i) && !(3 <= i <= 5)
      ensures Bit(ClearFlags(b), i) <==> Bit(b, i) && !(3 <= i <= 5)
    {
      FlagBits(a, i);
      FlagBits(b, i);
    }
    if AgreeBut(a, b, 3, 5) {
      BitsTell(8, ClearFlags(a), ClearFlags(b));
    }
  }

  lemma LowTells(a: Byte, b: Byte)
    ensures a % 16 == b % 16 <==> AgreeBut(a, b, 4, 7)
  {
    Powers();
    forall i: nat | i < 8
      ensures Bit(a % 16, i) <==> Bit(a, i) && i < 4
      ensures Bit(b % 16, i) <==> Bit(b, i) && i < 4
    {
      LowBits(a, i);
      LowBits(b, i);
    }
    if AgreeBut(a, b, 4, 7) {
      BitsTell(8, a % 16, b % 16);
    }
  }

  // ---- the header ---------------------------------------------------------

  /** The headers differ at most in bits 4 to 6 of the first octet of frame
      control and 3 to 5 of the second, in the sequence number, in a fourth
      address or QoS control that is not there, and in the upper half of one that is. */
  ghost predicate SameButMasked(h: Header, g: Header) {
    && AgreeBut(h.fc0, g.fc0, 4, 6) && AgreeBut(h.fc1, g.fc1, 3, 5) && AgreeBut(h.seq0, g.seq0, 4, 7)
    && h.a1 == g.a1 && h.a2 == g.a2 && h.a3 == g.a3
    && (FourAddresses(h) ==> h.a4 == g.a4)
    && (Qos(h) ==> AgreeBut(h.qos0, g.qos0, 4, 7))
  }

  /** To and from the distribution system: bits 0 and 1. */
  lemma FourIs(h: Header)
    ensures FourAddresses(h) <==> Bit(h.fc1, 0) && Bit(h.fc1, 1)
  {
    assert Bit(h.fc1, 1) <==> Bit(h.fc1 / 2, 0);
  }

  /** Type data, bits 2 and 3, and the QoS bit of the subtype. */
  lemma QosIs(h: Header)
    ensures Qos(h) <==> !Bit(h.fc0, 2) && Bit(h.fc0, 3) && Bit(h.fc0, 7)
  {
    Powers();
    var b := h.fc0;
    BitSplit(b, 2, 4, b / 4, b % 4, 0);
    BitSplit(b, 2, 4, b / 4, b % 4, 1);
    BitSplit(b, 7, 128, b / 128, b % 128, 0);
    assert Bit(b / 4, 1) <==> Bit(b / 4 / 2, 0);
    assert b / 128 < 2;
  }

  lemma ShapesSame(h: Header, g: Header)
    requires ClearSubtype(h.fc0) == ClearSubtype(g.fc0) && ClearFlags(h.fc1) == ClearFlags(g.fc1)
    ensures FourAddresses(h) == FourAddresses(g) && Qos(h) == Qos(g)
  {
    SubtypeTells(h.fc0, g.fc0);
    FlagsTell(h.fc1, g.fc1);
    FourIs(h);
    FourIs(g);
    QosIs(h);
    QosIs(g);
  }

  /** The fields as the masks leave them. */
  ghost predicate SameFields(h: Header, g: Header) {
    && ClearSubtype(h.fc0) == ClearSubtype(g.fc0) && ClearFlags(h.fc1) == ClearFlags(g.fc1)
    && h.seq0 % 16 == g.seq0 % 16 && h.a1 == g.a1 && h.a2 == g.a2 && h.a3 == g.a3
    && FourthAddress(h) == FourthAddress(g) && QosControl(h) == QosControl(g)
  }

  lemma FieldsIff(h: Header, g: Header)
    ensures SameFields(h, g) <==> SameButMasked(h, g)
  {
    SubtypeTells(h.fc0, g.fc0);
    FlagsTell(h.fc1, g.fc1);
    LowTells(h.seq0, g.seq0);
    LowTells(h.qos0, g.qos0);
    if ClearSubtype(h.fc0) == ClearSubtype(g.fc0) && ClearFlags(h.fc1) == ClearFlags(g.fc1) {
      ShapesSame(h, g);
      if Qos(h) {
        assert QosControl(h)[0] == h.qos0 % 16 && QosControl(g)[0] == g.qos0 % 16;
      }
    }
  }

  lemma HasTells(s: seq<Byte>, at: nat, x: seq<Byte>, y: seq<Byte>)
    requires Has(s, at, x) && Has(s, at, y) && |x| == |y|
    ensures x == y
  {
  }

  lemma AadTells(h: Header, g: Header)
    requires Aad(h) == Aad(g)
    ensures SameFields(h, g)
  {
    var s, n := AadBlocks(h), |Aad(h)|;
    var at, bt := 24 + |FourthAddress(h)|, 24 + |FourthAddress(g)|;
    AadParts(h, n, at);
    AadParts(g, n, bt);
    HasTells(s, 2, [ClearSubtype(h.fc0), ClearFlags(h.fc1)], [ClearSubtype(g.fc0), ClearFlags(g.fc1)]);
    assert [ClearSubtype(h.fc0), ClearFlags(h.fc1)][0] == [ClearSubtype(g.fc0), ClearFlags(g.fc1)][0];
    assert [ClearSubtype(h.fc0), ClearFlags(h.fc1)][1] == [ClearSubtype(g.fc0), ClearFlags(g.fc1)][1];
    ShapesSame(h, g);
    HasTells(s, 4, h.a1, g.a1);
    HasTells(s, 10, h.a2, g.a2);
    HasTells(s, 16, h.a3, g.a3);
    HasTells(s, 22, [h.seq0 % 16, 0], [g.seq0 % 16, 0]);
    assert [h.seq0 % 16, 0][0] == [g.seq0 % 16, 0][0];
    HasTells(s, 24, FourthAddress(h), FourthAddress(g));
    HasTells(s, at, QosControl(h), QosControl(g));
  }

  /** The additional data tells headers apart exactly when they differ in what is
      not masked. */
  lemma AadIff(h: Header, g: Header)
    ensures Aad(h) == Aad(g) <==> SameButMasked(h, g)
  {
    FieldsIff(h, g);
    if Aad(h) == Aad(g) {
      AadTells(h, g);
    }
  }

  /** Headers that differ only there give the same initial block and key stream. */
  lemma StartSame(c: Cipher, h: Header, g: Header, pn: nat, len: nat)
    requires SameButMasked(h, g)
    ensures StartValue(c, h, pn, len) == StartValue(c, g, pn, len) && KeyBlocks(c, h, pn) == KeyBlocks(c, g, pn)
  {
    AadIff(h, g);
    FieldsIff(h, g);
    if Qos(h) {
      assert QosControl(h)[0] == Priority(h) && QosControl(g)[0] == Priority(g);
    }
    ShapesSame(h, g);
    assert Nonce(h, pn) == Nonce(g, pn);
  }

  /** A frame sent under one header and received under another that differs only
      in masked bits is accepted and restored when no block crosses buffers. */
  lemma RetransmissionAccepted(c: Cipher, h: Header, g: Header, pn: nat, len: nat, chain: Chain, f: seq<Byte>, off: nat,
                               e: seq<Byte>, tag: seq<Byte>, r: seq<Byte>, roff: nat, d: seq<Byte>, ok: bool)
    requires Lawful(c.x) && SameButMasked(h, g) && off + len == |f|
    requires Sent(c, KeyBlocks(c, h, pn), StartValue(c, h, pn, len), f, off, e, tag)
    requires roff <= |r| && r[roff..] == e[off..] + tag && AllInOne(chain, roff, len)
    requires Received(c, KeyBlocks(c, g, pn), Rooms(chain, roff), StartValue(c, g, pn, len), r, roff, len, d, ok)
    ensures ok && d[..roff] == r[..roff] && d[roff..roff + len] == f[off..]
  {
    StartSame(c, h, g, pn, len);
    RoomsAreFirstParts(chain, roff);
    RoundTrip(c, KeyBlocks(c, h, pn), Rooms(chain, roff), chain, StartValue(c, h, pn, len), f, off, len, e, tag, r, roff, d, ok);
  }

  // ---- nonces and blocks ----------------------------------------------------

  lemma NumberTells(pn: nat, qn: nat)
    requires forall k: nat :: k < 6 ==> PacketNumber.Octet(pn, k) == PacketNumber.Octet(qn, k)
    ensures pn % 0x1_0000_0000_0000 == qn % 0x1_0000_0000_0000
  {
    PacketNumber.Read6OfOctets(pn);
    PacketNumber.Read6OfOctets(qn);
  }

  lemma NumberSame(pn: nat, qn: nat, k: nat)
    requires pn % 0x1_0000_0000_0000 == qn % 0x1_0000_0000_0000 && k < 6
    ensures PacketNumber.Octet(pn, k) == PacketNumber.Octet(qn, k)
  {
    PacketNumber.OctetsOfRead6(pn, k);
    PacketNumber.OctetsOfRead6(qn, k);
  }

  /** The nonce: the priority, the transmitter, and the packet number, most
      significant octet first. */
  lemma NonceParts(h: Header, pn: nat, k: nat)
    requires k < 6
    ensures var n := Nonce(h, pn); n[0] == Priority(h) && n[1..7] == h.a2 && n[12 - k] == PacketNumber.Octet(pn, k)
  {
  }

  /** Two nonces are equal exactly when priority, transmitter and packet number are. */
  lemma NonceIff(h: Header, g: Header, pn: nat, qn: nat)
    ensures Nonce(h, pn) == Nonce(g, qn)
       <==> Priority(h) == Priority(g) && h.a2 == g.a2 && pn % 0x1_0000_0000_0000 == qn % 0x1_0000_0000_0000
  {
    if Nonce(h, pn) == Nonce(g, qn) {
      forall k: nat | k < 6 ensures PacketNumber.Octet(pn, k) == PacketNumber.Octet(qn, k) {
        NonceParts(h, pn, k);
        NonceParts(g, qn, k);
      }
      NonceParts(h, pn, 0);
      NonceParts(g, qn, 0);
      NumberTells(pn, qn);
    }
    if pn % 0x1_0000_0000_0000 == qn % 0x1_0000_0000_0000 {
      forall k: nat | k < 6 ensures PacketNumber.Octet(pn, k) == PacketNumber.Octet(qn, k) {
        NumberSame(pn, qn, k);
      }
    }
  }

  lemma LengthIs(n: nat)
    ensures 0x100 * (Length2(n)[0] as nat) + (Length2(n)[1] as nat) == n % 0x1_0000
  {
    PacketNumber.Low16(n);
  }

  lemma LengthTells(n: nat, m: nat)
    ensures Length2(n) == Length2(m) <==> n % 0x1_0000 == m % 0x1_0000
  {
    LengthIs(n);
    LengthIs(m);
    if n % 0x1_0000 == m % 0x1_0000 {
      Digit(Length2(n)[0], Length2(n)[1], Length2(m)[0], Length2(m)[1]);
    }
  }

  lemma Digit(a: Byte, b: Byte, c: Byte, d: Byte)
    requires 0x100 * (a as nat) + (b as nat) == 0x100 * (c as nat) + (d as nat)
    ensures a == c && b == d
  {
  }

  /** A counter block is flags, nonce and counter; the first block has other flags. */
  lemma BlockParts(n: seq<Byte>, i: nat)
    requires |n| == 13
    ensures CounterBlock(n, i)[0] == 0x01 && CounterBlock(n, i)[1..14] == n && CounterBlock(n, i)[14..] == Length2(i)
    ensures FirstBlock(n, i)[0] == 0x59 && FirstBlock(n, i)[1..14] == n && FirstBlock(n, i)[14..] == Length2(i)
  {
  }

  /** Counter blocks are equal exactly when nonce and counter are, and none is
      the block a code begins with. */
  lemma BlocksApart(n: seq<Byte>, m: seq<Byte>, i: nat, j: nat)
    requires |n| == |m| == 13
    ensures CounterBlock(n, i) == CounterBlock(m, j) <==> n == m && i % 0x1_0000 == j % 0x1_0000
    ensures FirstBlock(n, i) == FirstBlock(m, j) <==> n == m && i % 0x1_0000 == j % 0x1_0000
    ensures FirstBlock(n, i) != CounterBlock(m, j)
  {
    BlockParts(n, i);
    BlockParts(m, j);
    LengthTells(i, j);
  }

  /** Under one key, two packets mask with the same block of key stream exactly
      when priority, transmitter, the 48 bits of the packet number and the block's
      number are the same; and no code begins with such a block. */
  lemma KeyBlocksApart(c: Cipher, h: Header, g: Header, pn: nat, qn: nat, i: nat, j: nat)
    requires CcmLaws.Permutes(c)
    ensures KeyBlocks(c, h, pn)(i) == KeyBlocks(c, g, qn)(j)
       <==> Priority(h) == Priority(g) && h.a2 == g.a2 && pn % 0x1_0000_0000_0000 == qn % 0x1_0000_0000_0000
            && i % 0x1_0000 == j % 0x1_0000
    ensures KeyBlocks(c, h, pn)(i) != c.e(FirstBlock(Nonce(g, qn), j))
  {
    NonceIff(h, g, pn, qn);
    BlocksApart(Nonce(h, pn), Nonce(g, qn), i, j);
    BlocksApart(Nonce(g, qn), Nonce(h, pn), j, i);
  }
}
