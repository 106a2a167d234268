/** Where the fields of an HWMP element lie (sections 8.4.2.114 to 8.4.2.117 of
    IEEE Std 802.11-2012), numbers least significant octet first. */
module HwmpLayout {
  import opened Bits
  import opened HwmpCodec

  /** The number whose octets these are. */
  function Number(s: seq<Byte>): nat {
    if s == [] then 0 else (s[0] as nat) + 0x100 * Number(s[1..])
  }

  lemma Number2(s: seq<Byte>)
    requires |s| == 2
    ensures Number(s) == (s[0] as nat) + 0x100 * (s[1] as nat)
  {
    assert s[1..] == [s[1]] && [s[1]][1..] == [];
    assert Number([s[1]]) == s[1];
  }

  lemma Number4(s: seq<Byte>)
    requires |s| == 4
    ensures Number(s) == (s[0] as nat) + 0x100 * (s[1] as nat) + 0x1_0000 * (s[2] as nat) + 0x100_0000 * (s[3] as nat)
  {
    Number2(s[2..]);
    assert s[1..][1..] == s[2..];
    assert Number(s[1..]) == (s[1] as nat) + 0x100 * Number(s[2..]);
  }

  /** The four octets at `a` are those of `v`. */
  predicate Lies4(el: seq<Byte>, a: nat, v: nat) {
    a + 4 <= |el| && Number(el[a..a + 4]) == v
  }

  predicate Lies2(el: seq<Byte>, a: nat, v: nat) {
    a + 2 <= |el| && Number(el[a..a + 2]) == v
  }

  predicate LiesMac(el: seq<Byte>, a: nat, v: Mac) {
    a + 6 <= |el| && el[a..a + 6] == v
  }

  lemma Read4(el: seq<Byte>, a: nat)
    requires a + 4 <= |el|
    ensures Lies4(el, a, De32(el, a))
  {
    Number4(el[a..a + 4]);
  }

  lemma Read2(el: seq<Byte>, a: nat)
    requires a + 2 <= |el|
    ensures Lies2(el, a, De16(el, a))
  {
    Number2(el[a..a + 2]);
  }

  /** Bit 6 of the flags says that an external address follows. */
  function Extra(flags: Byte): nat { if Bit(flags, 6) then 6 else 0 }

  lemma ExtraIs(flags: Byte)
    ensures AeSize(flags) == Extra(flags)
  {
    Powers();
    BitSplit(flags, 6, 64, flags / 64, flags % 64, 0);
  }

  predicate TargetLies(el: seq<Byte>, a: nat, t: Target) {
    a < |el| && el[a] == t.flags && LiesMac(el, a + 1, t.addr) && Lies4(el, a + 7, t.seqno)
  }

  predicate DestLies(el: seq<Byte>, a: nat, d: Dest) {
    && a < |el| && el[a] == d.flags && LiesMac(el, a + 1, d.addr) && Lies4(el, a + 7, d.seqno)
    && (Bit(d.flags, 6) ==> LiesMac(el, a + 11, d.ext)) && Lies2(el, a + 11 + Extra(d.flags), d.rcode)
  }

  /** The destinations follow one another and fill the element. */
  predicate DestsLie(el: seq<Byte>, a: nat, ds: seq<Dest>)
    decreases |ds|
  {
    if ds == [] then a == |el|
    else DestLies(el, a, ds[0]) && DestsLie(el, a + 13 + Extra(ds[0].flags), ds[1..])
  }

  predicate HeadLies(el: seq<Byte>, id: Byte, flags: Byte, hopcount: Byte, ttl: Byte) {
    |el| >= 5 && el[0] == id && el[1] as nat == |el| - 2 && el[2] == flags && el[3] == hopcount && el[4] == ttl
  }

  /** Each field of the message lies in its place in the element. */
  predicate Lies(el: seq<Byte>, m: Elem) {
    match m
    case Preq(flags, hopcount, ttl, id, orig, origseq, ext, lifetime, metric, targets) =>
      var o := Extra(flags);
      && HeadLies(el, 130, flags, hopcount, ttl)
      && Lies4(el, 5, id) && LiesMac(el, 9, orig) && Lies4(el, 15, origseq)
      && (Bit(flags, 6) ==> LiesMac(el, 19, ext))
      && Lies4(el, 19 + o, lifetime) && Lies4(el, 23 + o, metric)
      && 27 + o < |el| == 28 + o + 11 * |targets| && el[27 + o] as nat == |targets|
      && forall i :: 0 <= i < |targets| ==> TargetLies(el, 28 + o + 11 * i, targets[i])
    case Prep(flags, hopcount, ttl, target, targetseq, ext, lifetime, metric, orig, origseq) =>
      var o := Extra(flags);
      && HeadLies(el, 131, flags, hopcount, ttl)
      && LiesMac(el, 5, target) && Lies4(el, 11, targetseq)
      && (Bit(flags, 6) ==> LiesMac(el, 15, ext))
      && Lies4(el, 15 + o, lifetime) && Lies4(el, 19 + o, metric)
      && LiesMac(el, 23 + o, orig) && Lies4(el, 29 + o, origseq) && |el| == 33 + o
    case Perr(ttl, dests) =>
      && |el| >= 4 && el[0] == 132 && el[1] as nat == |el| - 2 && el[2] == ttl && el[3] as nat == |dests|
      && DestsLie(el, 4, dests)
    case Rann(flags, hopcount, ttl, root, seqno, interval, metric) =>
      && HeadLies(el, 126, flags, hopcount, ttl)
      && LiesMac(el, 5, root) && Lies4(el, 11, seqno) && Lies4(el, 15, interval) && Lies4(el, 19, metric) && |el| == 23
  }

  lemma {:induction false} TargetsAtIs(s: seq<Byte>, a: nat, n: nat, i: nat)
    requires a + 11 * n <= |s| && i < n
    ensures TargetsAt(s, a, n)[i] == TargetAt(s, a + 11 * i)
  {
    if i < n - 1 {
      TargetsAtIs(s, a, n - 1, i);
    }
  }

  lemma TargetLiesAt(el: seq<Byte>, a: nat)
    requires a + 11 <= |el|
    ensures TargetLies(el, a, TargetAt(el, a))
  {
    Read4(el, a + 7);
  }

  lemma DestLiesAt(el: seq<Byte>, a: nat)
    requires a < |el| && a + DestSize(el[a]) <= |el|
    ensures DestLies(el, a, DestAt(el, a))
  {
    ExtraIs(el[a]);
    Read4(el, a + 7);
    Read2(el, a + 11 + AeSize(el[a]));
  }

  lemma {:induction false} DestsLieAt(el: seq<Byte>, a: nat, n: nat)
    requires WalkDests(el, a, n) == |el|
    ensures DestsLie(el, a, DestsAt(el, a, n))
    decreases n
  {
    if n > 0 {
      DestLiesAt(el, a);
      ExtraIs(el[a]);
      DestsLieAt(el, a + DestSize(el[a]), n - 1);
    }
  }

  lemma PreqLies(el: seq<Byte>, o: nat)
    requires 28 + o <= |el| && o == AeSize(el[2]) && 28 + o + 11 * (el[27 + o] as nat) == |el| && el[0] == 130 && el[1] as nat == |el| - 2
    ensures Lies(el, PreqAt(el, o))
  {
    ExtraIs(el[2]);
    Read4(el, 5);
    Read4(el, 15);
    Read4(el, 19 + o);
    Read4(el, 23 + o);
    var n := el[27 + o];
    forall i | 0 <= i < n ensures TargetLies(el, 28 + o + 11 * i, TargetsAt(el, 28 + o, n)[i]) {
      TargetsAtIs(el, 28 + o, n, i);
      TargetLiesAt(el, 28 + o + 11 * i);
    }
  }

  lemma PrepLies(el: seq<Byte>, o: nat)
    requires 33 + o == |el| && o == AeSize(el[2]) && el[0] == 131 && el[1] as nat == |el| - 2
    ensures Lies(el, PrepAt(el, o))
  {
    ExtraIs(el[2]);
    Read4(el, 11);
    Read4(el, 15 + o);
    Read4(el, 19 + o);
    Read4(el, 29 + o);
  }

  lemma RannLies(el: seq<Byte>)
    requires |el| == 23 && el[0] == 126 && el[1] == 21
    ensures Lies(el, RannAt(el))
  {
    Read4(el, 11);
    Read4(el, 15);
    Read4(el, 19);
  }

  /** What is parsed from an accepted element is what lies there. */
  lemma DecodeLies(el: seq<Byte>)
    requires |el| >= 2 && |el| == Size(el) && Accepted(el)
    ensures Lies(el, Decode(el))
  {
    if el[0] == ID_PREQ {
      PreqLies(el, AeSize(el[2]));
    } else if el[0] == ID_PREP {
      PrepLies(el, AeSize(el[2]));
    } else if el[0] == ID_PERR {
      DestsLieAt(el, 4, el[3]);
    } else {
      RannLies(el);
    }
  }

  /** And what is printed lies where it belongs. */
  lemma WireLies(m: Elem)
    requires Countable(m) && Fits(m) && Canonical(m)
    ensures Lies(Wire(m), m)
  {
    WireLength(m);
    AcceptedIffFits(m);
    DecodeWire(m);
    assert Wire(m)[..Size(Wire(m))] == Wire(m);
    DecodeLies(Wire(m));
  }
}
