/** CCMP: the initial blocks of a frame, encryption and decryption of its
    payload, and what a receiver makes of what was sent. */
module Ccmp {
  import opened Octets
  import opened Mbufs
  import opened CcmSpec
  import opened CcmpChain
  import opened CcmpEncrypt
  import opened CcmpDecrypt
  import opened Pieces
  import PacketNumber

  // ---- what a frame says to the cipher ------------------------------------

  type Addr = s: seq<Byte> | |s| == 6 witness [0, 0, 0, 0, 0, 0]

  /** The header fields the cipher looks at. */
  datatype Header = Header(fc0: Byte, fc1: Byte, a1: Addr, a2: Addr, a3: Addr, seq0: Byte, a4: Addr, qos0: Byte)

  predicate FourAddresses(h: Header) { h.fc1 % 4 == 3 }

  predicate Qos(h: Header) { h.fc0 / 4 % 4 == 2 && h.fc0 / 128 == 1 }

  /** The octet with bits 4 to 6 cleared (0x8f), and with bits 3 to 5 cleared (0xc7). */
  function ClearSubtype(b: Byte): Byte { b % 16 + 128 * (b / 128) }

  function ClearFlags(b: Byte): Byte { b % 8 + 64 * (b / 64) }

  function Priority(h: Header): Byte { if Qos(h) then h.qos0 % 16 else 0 }

  /** The additional authenticated data (section 11.4.3.3.3 of IEEE Std 802.11-2012). */
  function Aad(h: Header): (a: seq<Byte>)
    ensures |a| == 22 + (if FourAddresses(h) then 6 else 0) + (if Qos(h) then 2 else 0)
  {
    [ClearSubtype(h.fc0), ClearFlags(h.fc1)] + h.a1 + h.a2 + h.a3 + [h.seq0 % 16, 0]
    + FourthAddress(h) + QosControl(h)
  }

  function Nonce(h: Header, pn: nat): (n: seq<Byte>)
    ensures |n| == 13
  {
    [Priority(h)] + h.a2
    + [PacketNumber.Octet(pn, 5), PacketNumber.Octet(pn, 4), PacketNumber.Octet(pn, 3), PacketNumber.Octet(pn, 2),
       PacketNumber.Octet(pn, 1), PacketNumber.Octet(pn, 0)]
  }

  // ---- the reference ------------------------------------------------------

  function Length2(n: nat): (s: seq<Byte>)
    ensures |s| == 2
  {
    [n / 256 % 256, n % 256]
  }

  /** B_0: flags for additional data, an 8-octet tag and a 2-octet length. */
  function FirstBlock(n: seq<Byte>, len: nat): Block
    requires |n| == 13
  {
    [64 + 8 * ((8 - 2) / 2) + (2 - 1)] + n + Length2(len)
  }

  /** A_i. */
  function CounterBlock(n: seq<Byte>, i: nat): Block
    requires |n| == 13
  {
    [2 - 1] + n + Length2(i)
  }

  /** The additional data with its length in front. */
  function Encoded(a: seq<Byte>): seq<Byte> { Length2(|a|) + a }

  /** The chaining value once the first block and the additional data are in. */
  function StartValue(c: Cipher, h: Header, pn: nat, len: nat): Block {
    var m := Encoded(Aad(h));
    Chained(c, c.e(FirstBlock(Nonce(h, pn), len)), m, Blocks(|m|))
  }

  function KeyBlock(c: Cipher, h: Header, pn: nat, i: nat): Block {
    c.e(CounterBlock(Nonce(h, pn), i))
  }

  /** The key stream of a nonce, block by block. */
  function KeyStream(c: Cipher, n: seq<Byte>): Counter
    requires |n| == 13
  {
    i => c.e(CounterBlock(n, i))
  }

  function KeyBlocks(c: Cipher, h: Header, pn: nat): Counter {
    KeyStream(c, Nonce(h, pn))
  }

  // ---- the initial blocks, as they are built ------------------------------

  method Store(a: array<Byte>, at: nat, v: seq<Byte>)
    requires at + |v| <= a.Length
    modifies a
    ensures Has(a[..], at, v)
    ensures forall k :: 0 <= k < a.Length && !(at <= k < at + |v|) ==> a[k] == old(a[k])
  {
    var i := 0;
    while i < |v|
      invariant i <= |v| && forall k :: 0 <= k < i ==> a[at + k] == v[k]
      invariant forall k :: 0 <= k < a.Length && !(at <= k < at + i) ==> a[k] == old(a[k])
    {
      a[at + i] := v[i];
      i := i + 1;
    }
  }

  /** The two blocks of additional data, zero-padded, their length in front. */
  function AadBlocks(h: Header): (s: seq<Byte>)
    ensures |s| == 32
  {
    Encoded(Aad(h)) + Zeros(30 - |Aad(h)|)
  }

  function FourthAddress(h: Header): seq<Byte> { if FourAddresses(h) then h.a4 else [] }

  function QosControl(h: Header): seq<Byte> { if Qos(h) then [Priority(h), 0] else [] }

  /** What the fixed part of the two blocks holds. */
  ghost predicate FixedPart(h: Header, s: seq<Byte>) {
    && |s| == 32 && s[0] == 0 && Has(s, 2, [ClearSubtype(h.fc0), ClearFlags(h.fc1)])
    && Has(s, 4, h.a1) && Has(s, 10, h.a2) && Has(s, 16, h.a3) && Has(s, 22, [h.seq0 % 16, 0])
  }

  /** What the rest holds: the fourth address and the QoS control, if any, from
      `at` and `to` on, and zeros. */
  ghost predicate VariablePart(h: Header, s: seq<Byte>, at: nat, to: nat) {
    && at == 24 + |FourthAddress(h)| && to == at + |QosControl(h)| && |s| == 32 && s[1] == to - 2
    && Has(s, 24, FourthAddress(h)) && Has(s, at, QosControl(h)) && Has(s, to, Zeros(32 - to))
  }

  lemma PeelAad(w: seq<Byte>, l: seq<Byte>, x: seq<Byte>, a1: seq<Byte>, a2: seq<Byte>, a3: seq<Byte>, sc: seq<Byte>,
                a4: seq<Byte>, qc: seq<Byte>, z: seq<Byte>, at: nat, to: nat)
    requires |l| == |x| == |sc| == 2 && |a1| == |a2| == |a3| == 6 && at == 24 + |a4| && to == at + |qc|
    requires w == (l + (x + a1 + a2 + a3 + sc + a4 + qc)) + z
    ensures Has(w, 0, l) && Has(w, 2, x) && Has(w, 4, a1) && Has(w, 10, a2) && Has(w, 16, a3) && Has(w, 22, sc)
    ensures Has(w, 24, a4) && Has(w, at, qc) && Has(w, to, z)
  {
    var x1 := x + a1;
    var x2 := x1 + a2;
    var x3 := x2 + a3;
    var x4 := x3 + sc;
    var x5 := x4 + a4;
    var x6 := x5 + qc;
    assert Has(w, 0, (l + x6) + z);
    HasBoth(w, 0, l + x6, z, to);
    HasBoth(w, 0, l, x6, 2);
    HasBoth(w, 2, x5, qc, at);
    HasBoth(w, 2, x4, a4, 24);
    HasBoth(w, 2, x3, sc, 22);
    HasBoth(w, 2, x2, a3, 16);
    HasBoth(w, 2, x1, a2, 10);
    HasBoth(w, 2, x, a1, 4);
  }

  lemma ShortLength(n: nat)
    requires n < 256
    ensures Length2(n) == [0, n]
  {
  }

  /** Where the parts of the additional data lie. */
  lemma AadParts(h: Header, n: nat, at: nat)
    requires n == |Aad(h)| && at == 24 + |FourthAddress(h)|
    ensures FixedPart(h, AadBlocks(h)) && VariablePart(h, AadBlocks(h), at, n + 2)
  {
    var x, sc, k, l := [ClearSubtype(h.fc0), ClearFlags(h.fc1)], [h.seq0 % 16, 0], 30 - n, Length2(n);
    assert 22 <= n <= 30 && n == 22 + |FourthAddress(h)| + |QosControl(h)|;
    ShortLength(n);
    assert AadBlocks(h) == (l + Aad(h)) + Zeros(k);
    PartsLie(h, AadBlocks(h), l, x, sc, FourthAddress(h), QosControl(h), k, Zeros(k), at, n + 2);
  }

  lemma PartsLie(h: Header, w: seq<Byte>, l: seq<Byte>, x: seq<Byte>, sc: seq<Byte>, a4: seq<Byte>, qc: seq<Byte>,
                 k: nat, z: seq<Byte>, at: nat, to: nat)
    requires l == [0, to - 2] && k == 32 - to && x == [ClearSubtype(h.fc0), ClearFlags(h.fc1)] && sc == [h.seq0 % 16, 0]
    requires a4 == FourthAddress(h) && qc == QosControl(h) && at == 24 + |a4| && to == at + |qc| && z == Zeros(k)
    requires w == (l + (x + h.a1 + h.a2 + h.a3 + sc + a4 + qc)) + z
    ensures FixedPart(h, w) && VariablePart(h, w, at, to)
  {
    PeelAad(w, l, x, h.a1, h.a2, h.a3, sc, a4, qc, z, at, to);
    HasOctet(w, 0, l, 0);
    HasOctet(w, 0, l, 1);
  }

  /** The variable part is in the octets from 24 on, and octet 1. */
  lemma VariableSame(h: Header, s: seq<Byte>, w: seq<Byte>, at: nat, to: nat)
    requires VariablePart(h, s, at, to) && |w| == 32 && w[1] == s[1] && w[24..] == s[24..]
    ensures VariablePart(h, w, at, to)
  {
    forall k | 24 <= k < 32 ensures w[k] == s[k] {
      assert w[24..][k - 24] == s[24..][k - 24];
    }
    HasSame(s, w, 24, FourthAddress(h));
    HasSame(s, w, at, QosControl(h));
    HasSame(s, w, to, Zeros(32 - to));
  }

  lemma SamePart(h: Header, s: seq<Byte>, w: seq<Byte>, at: nat, to: nat, k: nat)
    requires FixedPart(h, s) && FixedPart(h, w) && VariablePart(h, s, at, to) && VariablePart(h, w, at, to) && k < 32
    ensures s[k] == w[k]
  {
    if 2 <= k < 4 {
      SamePiece(s, w, 2, [ClearSubtype(h.fc0), ClearFlags(h.fc1)], k);
    } else if 4 <= k < 10 {
      SamePiece(s, w, 4, h.a1, k);
    } else if 10 <= k < 16 {
      SamePiece(s, w, 10, h.a2, k);
    } else if 16 <= k < 22 {
      SamePiece(s, w, 16, h.a3, k);
    } else if 22 <= k < 24 {
      SamePiece(s, w, 22, [h.seq0 % 16, 0], k);
    } else if 24 <= k < at {
      SamePiece(s, w, 24, FourthAddress(h), k);
    } else if at <= k < to {
      SamePiece(s, w, at, QosControl(h), k);
    } else if to <= k {
      SamePiece(s, w, to, Zeros(32 - to), k);
    }
  }

  /** The parts make up the two blocks. */
  lemma AadFromParts(h: Header, s: seq<Byte>, at: nat, to: nat)
    requires FixedPart(h, s) && VariablePart(h, s, at, to)
    ensures s == AadBlocks(h)
  {
    AadParts(h, |Aad(h)|, at);
    forall k | 0 <= k < 32 ensures s[k] == AadBlocks(h)[k] {
      SamePart(h, s, AadBlocks(h), at, to, k);
    }
  }

  /** Fills in the additional data. */
  method BuildAad(h: Header) returns (aad: array<Byte>, priority: Byte)
    ensures fresh(aad) && aad[..] == AadBlocks(h) && priority == Priority(h)
  {
    aad := new Byte[32];
    if FourAddresses(h) {
      priority := BuildFour(h, aad);
    } else {
      priority := BuildThree(h, aad);
    }
    ghost var at := 24 + |FourthAddress(h)|;
    ghost var to, s := at + |QosControl(h)|, aad[..];
    BuildFixed(h, aad);
    VariableSame(h, s, aad[..], at, to);
    AadFromParts(h, aad[..], at, to);
  }

  method BuildFour(h: Header, aad: array<Byte>) returns (priority: Byte)
    requires aad.Length == 32 && FourAddresses(h)
    modifies aad
    ensures priority == Priority(h) && VariablePart(h, aad[..], 30, 30 + |QosControl(h)|)
  {
    if Qos(h) {
      aad[30], aad[31] := h.qos0 % 16, 0;
      aad[1] := 22 + 6 + 2;
    } else {
      aad[30], aad[31] := 0, 0;
      aad[1] := 22 + 6;
    }
    priority := aad[30];
    Store(aad, 24, h.a4);
    TailIs(h, aad[..], 30);
  }

  method BuildThree(h: Header, aad: array<Byte>) returns (priority: Byte)
    requires aad.Length == 32 && !FourAddresses(h)
    modifies aad
    ensures priority == Priority(h) && VariablePart(h, aad[..], 24, 24 + |QosControl(h)|)
  {
    if Qos(h) {
      aad[24], aad[25] := h.qos0 % 16, 0;
      aad[1] := 22 + 2;
    } else {
      aad[24], aad[25] := 0, 0;
      aad[1] := 22;
    }
    priority := aad[24];
    aad[26], aad[27], aad[28], aad[29], aad[30], aad[31] := 0, 0, 0, 0, 0, 0;
    TailIs(h, aad[..], 24);
  }

  /** The QoS control or two zeros, and zeros. */
  lemma TailIs(h: Header, s: seq<Byte>, at: nat)
    requires |s| == 32 && at <= 30 && s[at] == (if Qos(h) then Priority(h) else 0)
    requires forall k :: at < k < 32 ==> s[k] == 0
    ensures Has(s, at, QosControl(h)) && Has(s, at + |QosControl(h)|, Zeros(32 - (at + |QosControl(h)|)))
  {
    HasEach(s, at, QosControl(h));
    HasEach(s, at + |QosControl(h)|, Zeros(32 - (at + |QosControl(h)|)));
  }

  method BuildFixed(h: Header, aad: array<Byte>)
    requires aad.Length == 32
    modifies aad
    ensures FixedPart(h, aad[..]) && aad[1] == old(aad[1]) && aad[24..] == old(aad[24..])
  {
    aad[0] := 0;
    aad[2] := ClearSubtype(h.fc0);
    aad[3] := ClearFlags(h.fc1);
    aad[22] := h.seq0 % 16;
    aad[23] := 0;
    Store(aad, 4, h.a1 + h.a2 + h.a3);
    HasBoth(aad[..], 4, h.a1 + h.a2, h.a3, 16);
    HasBoth(aad[..], 4, h.a1, h.a2, 10);
    HasEach(aad[..], 2, [ClearSubtype(h.fc0), ClearFlags(h.fc1)]);
    HasEach(aad[..], 22, [h.seq0 % 16, 0]);
  }

  lemma AadMessage(h: Header, s: seq<Byte>)
    requires s == AadBlocks(h)
    ensures var m := Encoded(Aad(h));
            Blocks(|m|) == 2 && MessageBlock(m, 0) == s[..16] && MessageBlock(m, 1) == s[16..]
  {
    var m := Encoded(Aad(h));
    assert m[0..16] == s[..16];
    assert m[16..|m|] + Zeros(30 - |Aad(h)|) == s[16..];
  }

  /** Two blocks of additional data, chained one after the other. */
  lemma StartIs(c: Cipher, h: Header, pn: nat, len: nat, s: seq<Byte>, x: Block, y: Block)
    requires s == AadBlocks(h) && x == c.e(FirstBlock(Nonce(h, pn), len))
    requires y == c.e(XorSeq(c.x, x, s[..16]))
    ensures StartValue(c, h, pn, len) == c.e(XorSeq(c.x, y, s[16..]))
  {
    AadMessage(h, s);
    var m := Encoded(Aad(h));
    assert Chained(c, x, m, 1) == y;
    assert Chained(c, x, m, 2) == c.e(XorSeq(c.x, y, s[16..]));
  }

  method BuildFirst(h: Header, pn: nat, dlen: nat, priority: Byte) returns (b0: Block)
    requires priority == Priority(h)
    ensures b0 == FirstBlock(Nonce(h, pn), dlen)
  {
    b0 := [0x59, priority] + h.a2
      + [PacketNumber.Octet(pn, 5), PacketNumber.Octet(pn, 4), PacketNumber.Octet(pn, 3), PacketNumber.Octet(pn, 2),
         PacketNumber.Octet(pn, 1), PacketNumber.Octet(pn, 0), dlen / 256 % 256, dlen % 256];
  }

  /** From the first block to counter block 0. */
  lemma CounterFrom(n: seq<Byte>, len: nat)
    requires |n| == 13
    ensures FirstBlock(n, len)[0 := FirstBlock(n, len)[0] % 8][14 := 0][15 := 0] == CounterBlock(n, 0)
  {
  }

  /** The first block, the chaining value after it and the additional data, and block 0 of the key stream. */
  method InitBlocks(c: Cipher, h: Header, pn: nat, dlen: nat) returns (auth: Block, s0: Block)
    ensures auth == StartValue(c, h, pn, dlen) && s0 == KeyBlock(c, h, pn, 0)
  {
    var aad, priority := BuildAad(h);
    var b0 := BuildFirst(h, pn, dlen, priority);
    auth := ChainAad(c, h, pn, dlen, b0, aad[..]);
    CounterFrom(Nonce(h, pn), dlen);
    s0 := c.e(b0[0 := b0[0] % 8][14 := 0][15 := 0]);
  }

  method ChainAad(c: Cipher, h: Header, pn: nat, dlen: nat, b0: Block, aad: seq<Byte>) returns (auth: Block)
    requires b0 == FirstBlock(Nonce(h, pn), dlen) && aad == AadBlocks(h)
    ensures auth == StartValue(c, h, pn, dlen)
  {
    var first := c.e(b0);
    var second := c.e(XorSeq(c.x, first, aad[..16]));
    StartIs(c, h, pn, dlen, aad, first, second);
    auth := c.e(XorSeq(c.x, second, aad[16..]));
  }

  // ---- frames -------------------------------------------------------------

  /** What encryption makes of packet `f`: everything from `off` on enciphered, and the tag of it. */
  ghost predicate Sent(c: Cipher, s: Counter, x: Block, f: seq<Byte>, off: nat, g: seq<Byte>, tag: seq<Byte>) {
    off <= |f| && g == Put(f, off, Enciphered(c, s, f[off..])) && tag == Tag(c, x, s(0), f[off..])
  }

  /** Encrypts the last `len` octets of the packet in place; the tag is to be appended. */
  method Encrypt(c: Cipher, h: Header, pn: nat, chain: Chain, off: nat, len: nat) returns (tag: seq<Byte>)
    requires Lawful(c.x) && Distinct(chain) && chain != [] && off <= chain[0].Length
    requires off + len == Offset(chain, |chain|) && AllInTwo(chain, off, len)
    modifies chain
    ensures Sent(c, KeyBlocks(c, h, pn), StartValue(c, h, pn, len), old(Packet(chain)), off, Packet(chain), tag)
  {
    var b, s0 := InitBlocks(c, h, pn, len);
    tag := EncryptAndTag(c, KeyBlocks(c, h, pn), chain, off, len, b, s0);
  }

  method EncryptAndTag(c: Cipher, s: Counter, chain: Chain, off: nat, len: nat, x: Block, s0: Block) returns (tag: seq<Byte>)
    requires Lawful(c.x) && Distinct(chain) && chain != [] && off <= chain[0].Length && s0 == s(0)
    requires off + len == Offset(chain, |chain|) && AllInTwo(chain, off, len)
    modifies chain
    ensures Sent(c, s, x, old(Packet(chain)), off, Packet(chain), tag)
  {
    ghost var cs0, cs := Bytes(chain), [];
    FlatSize(chain, cs0);
    var b;
    b, cs := EncryptData(c, s, chain, off, len, x, cs0);
    HoldsBytes(chain, cs);
    tag := XorSeq(c.x, b[..8], s0);
    SentIs(c, s, x, Flat(cs0), off, len, b);
  }

  lemma SentIs(c: Cipher, s: Counter, x: Block, f: seq<Byte>, off: nat, len: nat, b: Block)
    requires off + len == |f| && b == Chained(c, x, f[off..off + len], Blocks(len))
    ensures f[off..off + len] == f[off..] && Tag(c, x, s(0), f[off..]) == XorSeq(c.x, b[..8], s(0))
  {
    assert f[off..off + len] == f[off..];
  }

  lemma HoldsBytes(chain: Chain, cs: seq<seq<Byte>>)
    requires Holds(chain, cs)
    ensures Bytes(chain) == cs
  {
  }

  /** What decryption makes of packet `r`: `len` octets from `off` on
      deciphered, and accepted exactly when the 8 after them are the tag that
      the octets taken in give. */
  ghost predicate Received(c: Cipher, s: Counter, t: Takes, x: Block, r: seq<Byte>, off: nat, len: nat, g: seq<Byte>,
                           ok: bool)
  {
    && |r| == off + len + 8
    && var e := r[off..off + len];
    && g == Put(r, off, Enciphered(c, s, e))
    && ok == (XorSeq(c.x, r[off + len..], s(0)) == Opened(c, s, t, x, e, Blocks(len)).x[..8])
  }

  /** Copies the last 8 octets out of a packet (`m_copydata`). */
  method CopyTail(chain: Chain, ghost cs: seq<seq<Byte>>) returns (mic: seq<Byte>)
    requires Holds(chain, cs) && |Flat(cs)| >= 8
    ensures mic == Flat(cs)[|Flat(cs)| - 8..]
  {
    var n := |chain|;
    mic := [];
    ghost var from := |Flat(cs)|;
    assert cs[..n] == cs;
    while |mic| < 8
      invariant n <= |chain| && |mic| <= 8 && from + |mic| == |Flat(cs)| && mic == Flat(cs)[from..]
      invariant |mic| < 8 ==> At(cs, n) == from
      decreases n
    {
      assert n > 0;
      n := n - 1;
      AtNext(cs, n);
      var k := Min(8 - |mic|, chain[n].Length);
      var p := chain[n].Length - k;
      FlatPiece(cs, n, p, k);
      MoreTail(Flat(cs), At(cs, n) + p, k, from);
      mic, from := chain[n][p..p + k] + mic, from - k;
    }
  }

  lemma MoreTail(f: seq<Byte>, a: nat, k: nat, from: nat)
    requires a + k == from <= |f|
    ensures f[a..a + k] + f[from..] == f[a..]
  {
  }

  /** Decrypts the packet in place from `off` up to its 8-octet tag, and checks
      the tag. What a block has in the buffer it starts in is taken in. */
  method Decrypt(c: Cipher, h: Header, pn: nat, chain: Chain, off: nat, len: nat) returns (ok: bool)
    requires Distinct(chain) && chain != [] && off <= chain[0].Length
    requires off + len + 8 == Offset(chain, |chain|) && AllAdjacent(chain, off, len)
    modifies chain
    ensures Received(c, KeyBlocks(c, h, pn), Rooms(chain, off), StartValue(c, h, pn, len), old(Packet(chain)), off, len,
                     Packet(chain), ok)
  {
    var a, s0 := InitBlocks(c, h, pn, len);
    RoomsAreFirstParts(chain, off);
    ok := DecryptAndCheck(c, KeyBlocks(c, h, pn), Rooms(chain, off), chain, off, len, a, s0);
  }

  method DecryptAndCheck(c: Cipher, s: Counter, ghost t: Takes, chain: Chain, off: nat, len: nat, x: Block, s0: Block)
    returns (ok: bool)
    requires Distinct(chain) && chain != [] && off <= chain[0].Length && FirstParts(t, chain, off) && s0 == s(0)
    requires off + len + 8 == Offset(chain, |chain|) && AllAdjacent(chain, off, len)
    modifies chain
    ensures Received(c, s, t, x, old(Packet(chain)), off, len, Packet(chain), ok)
  {
    ghost var cs0, cs := Bytes(chain), [];
    FlatSize(chain, cs0);
    var mic := CopyTail(chain, cs0);
    mic := XorSeq(c.x, mic, s0);
    var a;
    a, cs := DecryptData(c, s, t, chain, off, len, x, cs0);
    HoldsBytes(chain, cs);
    ok := mic == a[..8];
  }

  // ---- what the receiver makes of what was sent ---------------------------

  /** Unmasking the tag gives the sender's chaining value. */
  lemma {:induction false} XorSeqTwice(x: Xor2, a: seq<Byte>, b: seq<Byte>)
    requires Lawful(x) && |a| <= |b|
    ensures XorSeq(x, XorSeq(x, a, b), b) == a
  {
    if a != [] {
      var n := |a| - 1;
      XorSeqTwice(x, a[..n], b);
      XorSeqSnoc(x, XorSeq(x, a[..n], b), x(a[n], b[n]), b);
      assert x(x(a[n], b[n]), b[n]) == a[n];
      assert a == a[..n] + [a[n]];
    }
  }

  /** The octets taken in give the first 8 octets of the sender's chaining value. */
  ghost predicate TagAgrees(c: Cipher, x: Block, t: Takes, p: seq<Byte>) {
    Shortened(c, x, p, t, Blocks(|p|))[..8] == Chained(c, x, p, Blocks(|p|))[..8]
  }

  /** A packet sent and received, cut into buffers anew: the payload is always
      restored, and the packet is accepted exactly when the octets taken in give
      the first 8 octets of the sender's chaining value. */
  lemma ReceivedIs(c: Cipher, s: Counter, t: Takes, x: Block, f: seq<Byte>, off: nat, p: seq<Byte>, len: nat, g: seq<Byte>,
                   tag: seq<Byte>, r: seq<Byte>, roff: nat, h: seq<Byte>, ok: bool)
    requires Lawful(c.x) && off <= |f| && p == f[off..] && |p| == len && Sent(c, s, x, f, off, g, tag)
    requires roff <= |r| && r[roff..] == g[off..] + tag
    requires Received(c, s, t, x, r, roff, len, h, ok)
    ensures h[..roff] == r[..roff] && h[roff..roff + len] == p && (ok <==> TagAgrees(c, x, t, p))
  {
    var e := Enciphered(c, s, p);
    Arrived(f, off, e, g, tag, r, roff, len);
    TagTells(c, s, t, x, p, e, len, tag, ok);
    PutHalves(r, roff, p, len);
  }

  /** What the tag tells about the octets taken in. */
  lemma TagTells(c: Cipher, s: Counter, t: Takes, x: Block, p: seq<Byte>, e: seq<Byte>, len: nat, tag: seq<Byte>, ok: bool)
    requires Lawful(c.x) && |p| == len && e == Enciphered(c, s, p) && tag == Tag(c, x, s(0), p)
    requires ok == (XorSeq(c.x, tag, s(0)) == Opened(c, s, t, x, e, Blocks(len)).x[..8])
    ensures Enciphered(c, s, e) == p && (ok <==> TagAgrees(c, x, t, p))
  {
    EncipheredBack(c, s, p);
    OpenedIs(c, s, t, x, p);
    XorSeqTwice(c.x, Chained(c, x, p, Blocks(|p|))[..8], s(0));
  }

  lemma Arrived(f: seq<Byte>, off: nat, e: seq<Byte>, g: seq<Byte>, tag: seq<Byte>, r: seq<Byte>, roff: nat, len: nat)
    requires off + len == |f| && |e| == len && g == Put(f, off, e) && roff <= |r| && r[roff..] == g[off..] + tag
    ensures roff + len <= |r| && r[roff..roff + len] == e && r[roff + len..] == tag
  {
    PutHalves(f, off, e, len);
    assert g[off..] == e;
    Halves(r, roff, e, tag);
  }

  lemma Halves(r: seq<Byte>, at: nat, d: seq<Byte>, tag: seq<Byte>)
    requires at <= |r| && r[at..] == d + tag
    ensures at + |d| <= |r| && r[at..at + |d|] == d && r[at + |d|..] == tag
  {
    assert r[at..at + |d|] == r[at..][..|d|];
    assert r[at + |d|..] == r[at..][|d|..];
  }

  lemma PutHalves(b: seq<Byte>, at: nat, d: seq<Byte>, n: nat)
    requires at + n <= |b| && |d| == n
    ensures Put(b, at, d)[..at] == b[..at] && Put(b, at, d)[at..at + n] == d
  {
  }

  /** Decryption undoes encryption when no block crosses from buffer to buffer. */
  lemma RoundTrip(c: Cipher, s: Counter, t: Takes, chain: Chain, x: Block, f: seq<Byte>, off: nat, len: nat, g: seq<Byte>,
                  tag: seq<Byte>, r: seq<Byte>, roff: nat, h: seq<Byte>, ok: bool)
    requires Lawful(c.x) && off + len == |f| && Sent(c, s, x, f, off, g, tag)
    requires roff <= |r| && r[roff..] == g[off..] + tag && AllInOne(chain, roff, len)
    requires FirstParts(t, chain, roff) && Received(c, s, t, x, r, roff, len, h, ok)
    ensures ok && h[..roff] == r[..roff] && h[roff..roff + len] == f[off..]
  {
    ReceivedIs(c, s, t, x, f, off, f[off..], len, g, tag, r, roff, h, ok);
    InOneTakesAll(t, chain, roff, len);
    ShortenedIs(c, x, f[off..], t, Blocks(len));
  }

  // ---- the packet number --------------------------------------------------

  /** A key's transmit counter. */
  class TxKey {
    const keyid: nat
    var keytsc: PacketNumber.U64

    constructor (keyid: nat)
      requires keyid < 4
      ensures this.keyid == keyid && keytsc == 0
    {
      this.keyid, keytsc := keyid, 0;
    }

    /** Counts the packet and writes its 8 octets of header. */
    method SetIv(ivp: array<Byte>)
      requires ivp.Length == 8 && keyid < 4
      modifies this`keytsc, ivp
      ensures keytsc == (old(keytsc) + 1) % 0x1_0000_0000_0000_0000
      ensures PacketNumber.Read6(ivp[0], ivp[1], ivp[4], ivp[5], ivp[6], ivp[7]) == keytsc % 0x1_0000_0000_0000
      ensures ivp[2] == 0 && ivp[3] == 64 * keyid + 0x20
    {
      keytsc := (keytsc + 1) % 0x1_0000_0000_0000_0000;
      ivp[0] := keytsc % 0x100;
      ivp[1] := keytsc / 0x100 % 0x100;
      ivp[2] := 0;
      ivp[3] := 64 * keyid + 0x20;
      ivp[4] := keytsc / 0x1_0000 % 0x100;
      ivp[5] := keytsc / 0x100_0000 % 0x100;
      ivp[6] := keytsc / 0x1_0000_0000 % 0x100;
      ivp[7] := keytsc / 0x100_0000_0000 % 0x100;
      PacketNumber.Read6OfOctets(keytsc);
    }
  }

  /** The receiver, which has 48 bits of the counter, makes the sender's nonce:
      its first block and key stream are the sender's too. */
  lemma SameNonce(c: Cipher, h: Header, pn: nat, len: nat, i: nat)
    ensures var got := pn % 0x1_0000_0000_0000;
            && Nonce(h, got) == Nonce(h, pn) && StartValue(c, h, got, len) == StartValue(c, h, pn, len)
            && KeyBlock(c, h, got, i) == KeyBlock(c, h, pn, i)
  {
    forall k | 0 <= k < 6 ensures PacketNumber.Octet(pn % 0x1_0000_0000_0000, k) == PacketNumber.Octet(pn, k) {
      PacketNumber.OctetsOfRead6(pn, k);
    }
  }
}
