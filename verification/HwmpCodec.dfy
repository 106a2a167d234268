/** The wire form of HWMP elements: the octet layout, the length checks, and
    what a received action frame is taken to say. */
module HwmpCodec {
  import opened DivMod
  import opened Pieces

  type Byte = x: nat | x < 0x100
  type U16 = x: nat | x < 0x1_0000
  type U32 = x: nat | x < 0x1_0000_0000
  type Mac = s: seq<Byte> | |s| == 6 witness [0, 0, 0, 0, 0, 0]

  const ID_RANN: Byte := 126
  const ID_PREQ: Byte := 130
  const ID_PREP: Byte := 131
  const ID_PERR: Byte := 132
  const NO_MAC: Mac := [0, 0, 0, 0, 0, 0]
  const MAXDEST: nat := 19
  const RANN_LEN: nat := 21

  datatype Target = Target(flags: Byte, addr: Mac, seqno: U32)

  datatype Dest = Dest(flags: Byte, addr: Mac, seqno: U32, ext: Mac, rcode: U16)

  datatype Elem =
    | Preq(flags: Byte, hopcount: Byte, ttl: Byte, id: U32, orig: Mac, origseq: U32, ext: Mac,
           lifetime: U32, metric: U32, targets: seq<Target>)
    | Prep(flags: Byte, hopcount: Byte, ttl: Byte, target: Mac, targetseq: U32, ext: Mac,
           lifetime: U32, metric: U32, orig: Mac, origseq: U32)
    | Perr(ttl: Byte, dests: seq<Dest>)
    | Rann(flags: Byte, hopcount: Byte, ttl: Byte, root: Mac, seqno: U32, interval: U32, metric: U32)

  /** The address-extension flag, 0x40. */
  predicate Ae(flags: Byte) {
    flags / 64 % 2 == 1
  }

  function AeSize(flags: Byte): nat {
    if Ae(flags) then 6 else 0
  }

  // ---- octets -------------------------------------------------------------

  function Le16(v: U16): (s: seq<Byte>) { [v % 256, v / 256] }

  function Le32(v: U32): (s: seq<Byte>) {
    [v % 256, v / 0x100 % 256, v / 0x1_0000 % 256, v / 0x100_0000]
  }

  function De16(s: seq<Byte>, a: nat): U16
    requires a + 2 <= |s|
  {
    (s[a] as nat) + 256 * (s[a + 1] as nat)
  }

  function De32(s: seq<Byte>, a: nat): U32
    requires a + 4 <= |s|
  {
    (s[a] as nat) + 0x100 * (s[a + 1] as nat) + 0x1_0000 * (s[a + 2] as nat) + 0x100_0000 * (s[a + 3] as nat)
  }

  function MacAt(s: seq<Byte>, a: nat): Mac
    requires a + 6 <= |s|
  {
    s[a..a + 6]
  }

  // ---- printing -----------------------------------------------------------

  /** What follows an address-extension flag. */
  function ExtWire(flags: Byte, ext: Mac): (s: seq<Byte>)
    ensures |s| == AeSize(flags)
  {
    if Ae(flags) then ext else []
  }

  function TargetWire(t: Target): (s: seq<Byte>)
    ensures |s| == 11
  {
    [t.flags] + t.addr + Le32(t.seqno)
  }

  function TargetsWire(ts: seq<Target>): (s: seq<Byte>)
    ensures |s| == 11 * |ts|
  {
    if ts == [] then [] else TargetsWire(ts[..|ts| - 1]) + TargetWire(ts[|ts| - 1])
  }

  function DestSize(flags: Byte): nat {
    13 + AeSize(flags)
  }

  function DestWire(d: Dest): (s: seq<Byte>)
    ensures |s| == DestSize(d.flags)
  {
    [d.flags] + d.addr + Le32(d.seqno) + ExtWire(d.flags, d.ext) + Le16(d.rcode)
  }

  function DestsWire(ds: seq<Dest>): seq<Byte> {
    if ds == [] then [] else DestWire(ds[0]) + DestsWire(ds[1..])
  }

  function Id(m: Elem): Byte {
    match m
    case Preq(_, _, _, _, _, _, _, _, _, _) => ID_PREQ
    case Prep(_, _, _, _, _, _, _, _, _, _) => ID_PREP
    case Perr(_, _) => ID_PERR
    case Rann(_, _, _, _, _, _, _) => ID_RANN
  }

  /** Counts are octets in the sender's own structures. */
  predicate Countable(m: Elem) {
    (m.Preq? ==> |m.targets| < 256) && (m.Perr? ==> |m.dests| < 256)
  }

  function DestsSize(ds: seq<Dest>): nat {
    if ds == [] then 0 else DestSize(ds[0].flags) + DestsSize(ds[1..])
  }

  /** The length the senders compute, before it is cut to an octet. */
  function Length(m: Elem): nat {
    match m
    case Preq(flags, _, _, _, _, _, _, _, _, targets) => 26 + AeSize(flags) + 11 * |targets|
    case Prep(flags, _, _, _, _, _, _, _, _, _) => 31 + AeSize(flags)
    case Perr(_, dests) => 2 + DestsSize(dests)
    case Rann(_, _, _, _, _, _, _) => RANN_LEN
  }

  function Wire(m: Elem): seq<Byte>
    requires Countable(m)
  {
    match m
    case Preq(flags, hopcount, ttl, id, orig, origseq, ext, lifetime, metric, targets) =>
      [ID_PREQ, Length(m) % 256, flags, hopcount, ttl] + Le32(id) + orig + Le32(origseq) + ExtWire(flags, ext)
      + Le32(lifetime) + Le32(metric) + [|targets|] + TargetsWire(targets)
    case Prep(flags, hopcount, ttl, target, targetseq, ext, lifetime, metric, orig, origseq) =>
      [ID_PREP, Length(m) % 256, flags, hopcount, ttl] + target + Le32(targetseq) + ExtWire(flags, ext)
      + Le32(lifetime) + Le32(metric) + orig + Le32(origseq)
    case Perr(ttl, dests) =>
      [ID_PERR, Length(m) % 256, ttl, |dests|] + DestsWire(dests)
    case Rann(flags, hopcount, ttl, root, seqno, interval, metric) =>
      [ID_RANN, RANN_LEN, flags, hopcount, ttl] + root + Le32(seqno) + Le32(interval) + Le32(metric)
  }

  lemma {:induction false} DestsLength(ds: seq<Dest>)
    ensures |DestsWire(ds)| == DestsSize(ds)
  {
    if ds != [] {
      DestsLength(ds[1..]);
    }
  }

  lemma WireLength(m: Elem)
    requires Countable(m)
    ensures |Wire(m)| == Length(m) + 2
  {
    if m.Perr? {
      DestsLength(m.dests);
    }
  }

  /** How many octets an element claims, its two header octets included. */
  function Size(el: seq<Byte>): nat
    requires |el| >= 2
  {
    2 + (el[1] as nat)
  }

  // ---- the length checks --------------------------------------------------

  /** Total size of `n` destinations read from offset `a` on, each by its own flag. */
  function WalkDests(s: seq<Byte>, a: nat, n: nat): (r: int)
    ensures r == -1 || a <= r <= |s|
    decreases n
  {
    if n == 0 then (if a <= |s| then a else -1)
    else if a >= |s| then -1
    else WalkDests(s, a + DestSize(s[a]), n - 1)
  }

  /** Does the element's own length agree with its contents? */
  predicate Accepted(el: seq<Byte>)
    requires |el| >= 2 && |el| == Size(el)
  {
    if el[0] == ID_PREQ then
      && |el| > 2
      && var at := 27 + AeSize(el[2]);
      at < |el| && Size(el) == at + 1 + 11 * (el[at] as nat)
    else if el[0] == ID_PREP then
      |el| > 2 && Size(el) == 33 + AeSize(el[2])
    else if el[0] == ID_PERR then
      |el| > 3 && el[3] <= MAXDEST && WalkDests(el, 4, el[3]) == |el|
    else
      el[0] == ID_RANN && el[1] == RANN_LEN
  }

  // ---- reading ------------------------------------------------------------

  function ExtAt(flags: Byte, s: seq<Byte>, a: nat): Mac
    requires a + AeSize(flags) <= |s|
  {
    if Ae(flags) then MacAt(s, a) else NO_MAC
  }

  function TargetAt(s: seq<Byte>, a: nat): Target
    requires a + 11 <= |s|
  {
    Target(s[a], MacAt(s, a + 1), De32(s, a + 7))
  }

  function TargetsAt(s: seq<Byte>, a: nat, n: nat): (ts: seq<Target>)
    requires a + 11 * n <= |s|
    ensures |ts| == n
  {
    if n == 0 then [] else TargetsAt(s, a, n - 1) + [TargetAt(s, a + 11 * (n - 1))]
  }

  function DestAt(s: seq<Byte>, a: nat): Dest
    requires a < |s| && a + DestSize(s[a]) <= |s|
  {
    var o := AeSize(s[a]);
    Dest(s[a], MacAt(s, a + 1), De32(s, a + 7), ExtAt(s[a], s, a + 11), De16(s, a + 11 + o))
  }

  function DestsAt(s: seq<Byte>, a: nat, n: nat): (ds: seq<Dest>)
    requires WalkDests(s, a, n) >= 0
    ensures |ds| == n
    decreases n
  {
    if n == 0 then []
    else
      assert WalkDests(s, a + DestSize(s[a]), n - 1) >= 0;
      [DestAt(s, a)] + DestsAt(s, a + DestSize(s[a]), n - 1)
  }

  function PreqAt(el: seq<Byte>, o: nat): Elem
    requires 28 + o <= |el| && o == AeSize(el[2]) && 28 + o + 11 * (el[27 + o] as nat) == |el|
  {
    Preq(el[2], el[3], el[4], De32(el, 5), MacAt(el, 9), De32(el, 15), ExtAt(el[2], el, 19),
         De32(el, 19 + o), De32(el, 23 + o), TargetsAt(el, 28 + o, el[27 + o]))
  }

  function PrepAt(el: seq<Byte>, o: nat): Elem
    requires 33 + o == |el| && o == AeSize(el[2])
  {
    Prep(el[2], el[3], el[4], MacAt(el, 5), De32(el, 11), ExtAt(el[2], el, 15),
         De32(el, 15 + o), De32(el, 19 + o), MacAt(el, 23 + o), De32(el, 29 + o))
  }

  function RannAt(el: seq<Byte>): Elem
    requires 23 == |el|
  {
    Rann(el[2], el[3], el[4], MacAt(el, 5), De32(el, 11), De32(el, 15), De32(el, 19))
  }

  function Decode(el: seq<Byte>): Elem
    requires |el| >= 2 && |el| == Size(el) && Accepted(el)
  {
    if el[0] == ID_PREQ then PreqAt(el, AeSize(el[2]))
    else if el[0] == ID_PREP then PrepAt(el, AeSize(el[2]))
    else if el[0] == ID_PERR then Perr(el[2], DestsAt(el, 4, el[3]))
    else RannAt(el)
  }

  /** The messages an action frame's elements say, up to the first that is cut
      short or is a root announcement of the wrong length. */
  function Elements(frm: seq<Byte>): seq<Elem> {
    if |frm| <= 1 || |frm| < Size(frm) then []
    else
      var el := frm[..Size(frm)];
      if el[0] == ID_RANN && el[1] != RANN_LEN then []
      else (if Accepted(el) then [Decode(el)] else []) + Elements(frm[Size(frm)..])
  }

  // ---- what is printed is read back ---------------------------------------

  /** The length fits its octet, and an error report names at most 19 destinations. */
  predicate Fits(m: Elem) {
    Length(m) < 256 && (m.Perr? ==> |m.dests| <= MAXDEST)
  }

  /** A message without an extension address holds none: the reader's structures start zeroed. */
  predicate Canonical(m: Elem) {
    match m
    case Preq(flags, _, _, _, _, _, ext, _, _, _) => Ae(flags) || ext == NO_MAC
    case Prep(flags, _, _, _, _, ext, _, _, _, _) => Ae(flags) || ext == NO_MAC
    case Perr(_, dests) => CanonicalDests(dests)
    case Rann(_, _, _, _, _, _, _) => true
  }

  predicate CanonicalDests(ds: seq<Dest>) {
    forall i :: 0 <= i < |ds| ==> Ae(ds[i].flags) || ds[i].ext == NO_MAC
  }

  lemma Octets32(v: U32)
    ensures v % 256 + 0x100 * (v / 0x100 % 256) + 0x1_0000 * (v / 0x1_0000 % 256) + 0x100_0000 * (v / 0x100_0000) == v
  {
    Nested(v, 0x100, 0x100, 0x1_0000);
    Nested(v, 0x1_0000, 0x100, 0x100_0000);
  }

  lemma HasHead(w: seq<Byte>, b0: Byte, b1: Byte, b2: Byte, b3: Byte, b4: Byte)
    requires Has(w, 0, [b0, b1, b2, b3, b4])
    ensures w[0] == b0 && w[1] == b1 && w[2] == b2 && w[3] == b3 && w[4] == b4
  {
    var h := [b0, b1, b2, b3, b4];
    HasOctet(w, 0, h, 0);
    HasOctet(w, 0, h, 1);
    HasOctet(w, 0, h, 2);
    HasOctet(w, 0, h, 3);
    HasOctet(w, 0, h, 4);
  }

  lemma De32OfLe32(s: seq<Byte>, a: nat, v: U32)
    requires Has(s, a, Le32(v))
    ensures De32(s, a) == v
  {
    var q := Le32(v);
    HasOctet(s, a, q, 0);
    HasOctet(s, a, q, 1);
    HasOctet(s, a, q, 2);
    HasOctet(s, a, q, 3);
    Octets32(v);
  }

  lemma De16OfLe16(s: seq<Byte>, a: nat, v: U16)
    requires Has(s, a, Le16(v))
    ensures De16(s, a) == v
  {
    HasOctet(s, a, Le16(v), 0);
    HasOctet(s, a, Le16(v), 1);
  }

  lemma ExtRead(flags: Byte, ext: Mac, s: seq<Byte>, a: nat)
    requires Has(s, a, ExtWire(flags, ext)) && (Ae(flags) || ext == NO_MAC)
    ensures ExtAt(flags, s, a) == ext
  {
  }

  /** Where the fields of a path request lie. */
  lemma PeelPreq(w: seq<Byte>, o: nat, h: seq<Byte>, a: seq<Byte>, b: seq<Byte>, c: seq<Byte>, e: seq<Byte>,
                 l: seq<Byte>, t: seq<Byte>, k: seq<Byte>, z: seq<Byte>)
    requires |h| == 5 && |a| == 4 && |b| == 6 && |c| == 4 && |e| == o && |l| == 4 && |t| == 4 && |k| == 1
    requires w == h + a + b + c + e + l + t + k + z
    ensures |w| == 28 + o + |z|
    ensures Has(w, 0, h) && Has(w, 5, a) && Has(w, 9, b) && Has(w, 15, c) && Has(w, 19, e)
    ensures Has(w, 19 + o, l) && Has(w, 23 + o, t) && Has(w, 27 + o, k) && Has(w, 28 + o, z)
  {
    var x1 := h + a;
    var x2 := x1 + b;
    var x3 := x2 + c;
    var x4 := x3 + e;
    var x5 := x4 + l;
    var x6 := x5 + t;
    var x7 := x6 + k;
    assert Has(w, 0, x7 + z);
    HasBoth(w, 0, x7, z, 28 + o);
    HasBoth(w, 0, x6, k, 27 + o);
    HasBoth(w, 0, x5, t, 23 + o);
    HasBoth(w, 0, x4, l, 19 + o);
    HasBoth(w, 0, x3, e, 19);
    HasBoth(w, 0, x2, c, 15);
    HasBoth(w, 0, x1, b, 9);
    HasBoth(w, 0, h, a, 5);
  }

  /** Where the fields of a path reply lie. */
  lemma PeelPrep(w: seq<Byte>, o: nat, h: seq<Byte>, a: seq<Byte>, b: seq<Byte>, e: seq<Byte>,
                 l: seq<Byte>, t: seq<Byte>, k: seq<Byte>, z: seq<Byte>)
    requires |h| == 5 && |a| == 6 && |b| == 4 && |e| == o && |l| == 4 && |t| == 4 && |k| == 6 && |z| == 4
    requires w == h + a + b + e + l + t + k + z
    ensures |w| == 33 + o
    ensures Has(w, 0, h) && Has(w, 5, a) && Has(w, 11, b) && Has(w, 15, e)
    ensures Has(w, 15 + o, l) && Has(w, 19 + o, t) && Has(w, 23 + o, k) && Has(w, 29 + o, z)
  {
    var x1 := h + a;
    var x2 := x1 + b;
    var x3 := x2 + e;
    var x4 := x3 + l;
    var x5 := x4 + t;
    var x6 := x5 + k;
    assert Has(w, 0, x6 + z);
    HasBoth(w, 0, x6, z, 29 + o);
    HasBoth(w, 0, x5, k, 23 + o);
    HasBoth(w, 0, x4, t, 19 + o);
    HasBoth(w, 0, x3, l, 15 + o);
    HasBoth(w, 0, x2, e, 15);
    HasBoth(w, 0, x1, b, 11);
    HasBoth(w, 0, h, a, 5);
  }

  /** Where the fields of a root announcement lie. */
  lemma PeelRann(w: seq<Byte>, h: seq<Byte>, a: seq<Byte>, b: seq<Byte>, c: seq<Byte>, z: seq<Byte>)
    requires |h| == 5 && |a| == 6 && |b| == 4 && |c| == 4 && |z| == 4 && w == h + a + b + c + z
    ensures |w| == 23 && Has(w, 0, h) && Has(w, 5, a) && Has(w, 11, b) && Has(w, 15, c) && Has(w, 19, z)
  {
    var x1 := h + a;
    var x2 := x1 + b;
    var x3 := x2 + c;
    assert Has(w, 0, x3 + z);
    HasBoth(w, 0, x3, z, 19);
    HasBoth(w, 0, x2, c, 15);
    HasBoth(w, 0, x1, b, 11);
    HasBoth(w, 0, h, a, 5);
  }

  lemma PreqOctets(m: Elem, w: seq<Byte>, o: nat)
    requires m.Preq? && Countable(m) && w == Wire(m) && o == AeSize(m.flags)
    ensures |w| == 28 + o + 11 * |m.targets|
    ensures w[0] == ID_PREQ && w[2] == m.flags && w[3] == m.hopcount && w[4] == m.ttl && w[27 + o] == |m.targets|
    ensures Has(w, 5, Le32(m.id)) && Has(w, 9, m.orig) && Has(w, 15, Le32(m.origseq))
    ensures Has(w, 19, ExtWire(m.flags, m.ext)) && Has(w, 19 + o, Le32(m.lifetime)) && Has(w, 23 + o, Le32(m.metric))
    ensures Has(w, 28 + o, TargetsWire(m.targets))
  {
    var len := Length(m) % 256;
    PeelPreq(w, o, [ID_PREQ, len, m.flags, m.hopcount, m.ttl], Le32(m.id), m.orig, Le32(m.origseq),
             ExtWire(m.flags, m.ext), Le32(m.lifetime), Le32(m.metric), [|m.targets|], TargetsWire(m.targets));
    HasHead(w, ID_PREQ, len, m.flags, m.hopcount, m.ttl);
    HasOctet(w, 27 + o, [|m.targets|], 0);
  }

  lemma PrepOctets(m: Elem, w: seq<Byte>, o: nat)
    requires m.Prep? && w == Wire(m) && o == AeSize(m.flags)
    ensures |w| == 33 + o && w[0] == ID_PREP && w[2] == m.flags && w[3] == m.hopcount && w[4] == m.ttl
    ensures Has(w, 5, m.target) && Has(w, 11, Le32(m.targetseq)) && Has(w, 15, ExtWire(m.flags, m.ext))
    ensures Has(w, 15 + o, Le32(m.lifetime)) && Has(w, 19 + o, Le32(m.metric))
    ensures Has(w, 23 + o, m.orig) && Has(w, 29 + o, Le32(m.origseq))
  {
    var len := Length(m) % 256;
    PeelPrep(w, o, [ID_PREP, len, m.flags, m.hopcount, m.ttl], m.target, Le32(m.targetseq), ExtWire(m.flags, m.ext),
             Le32(m.lifetime), Le32(m.metric), m.orig, Le32(m.origseq));
    HasHead(w, ID_PREP, len, m.flags, m.hopcount, m.ttl);
  }

  lemma RannOctets(m: Elem, w: seq<Byte>)
    requires m.Rann? && w == Wire(m)
    ensures |w| == 23 && w[0] == ID_RANN && w[1] == RANN_LEN
    ensures w[2] == m.flags && w[3] == m.hopcount && w[4] == m.ttl && Has(w, 5, m.root)
    ensures Has(w, 11, Le32(m.seqno)) && Has(w, 15, Le32(m.interval)) && Has(w, 19, Le32(m.metric))
  {
    PeelRann(w, [ID_RANN, RANN_LEN, m.flags, m.hopcount, m.ttl], m.root, Le32(m.seqno), Le32(m.interval), Le32(m.metric));
    HasHead(w, ID_RANN, RANN_LEN, m.flags, m.hopcount, m.ttl);
  }

  lemma PerrOctets(m: Elem, w: seq<Byte>)
    requires m.Perr? && Countable(m) && w == Wire(m)
    ensures |w| == 4 + |DestsWire(m.dests)| && w[0] == ID_PERR
    ensures w[2] == m.ttl && w[3] == |m.dests| && w[4..] == DestsWire(m.dests)
  {
  }

  lemma TargetsWireLast(ts: seq<Target>, front: seq<Target>, last: Target)
    requires ts == front + [last]
    ensures TargetsWire(ts) == TargetsWire(front) + TargetWire(last)
  {
    assert ts[..|ts| - 1] == front;
  }

  lemma {:induction false} TargetsRead(s: seq<Byte>, a: nat, ts: seq<Target>)
    requires Has(s, a, TargetsWire(ts))
    ensures TargetsAt(s, a, |ts|) == ts
  {
    if ts != [] {
      var n := |ts| - 1;
      var front, last := ts[..n], ts[n];
      assert ts == front + [last];
      TargetsWireLast(ts, front, last);
      HasBoth(s, a, TargetsWire(front), TargetWire(last), a + 11 * n);
      TargetsRead(s, a, front);
      TargetRead(s, a + 11 * n, last);
    }
  }

  lemma TargetRead(s: seq<Byte>, b: nat, t: Target)
    requires Has(s, b, TargetWire(t))
    ensures b + 11 <= |s| && TargetAt(s, b) == t
  {
    HasBoth(s, b, [t.flags] + t.addr, Le32(t.seqno), b + 7);
    HasBoth(s, b, [t.flags], t.addr, b + 1);
    HasOctet(s, b, [t.flags], 0);
    De32OfLe32(s, b + 7, t.seqno);
  }

  /** One destination at `a`, whatever follows it. */
  lemma DestRead(s: seq<Byte>, a: nat, d: Dest)
    requires Has(s, a, DestWire(d)) && (Ae(d.flags) || d.ext == NO_MAC)
    ensures s[a] == d.flags && a + DestSize(s[a]) <= |s| && DestAt(s, a) == d
  {
    var o := AeSize(d.flags);
    var x1 := [d.flags] + d.addr;
    var x2 := x1 + Le32(d.seqno);
    var x3 := x2 + ExtWire(d.flags, d.ext);
    HasBoth(s, a, x3, Le16(d.rcode), a + 11 + o);
    HasBoth(s, a, x2, ExtWire(d.flags, d.ext), a + 11);
    HasBoth(s, a, x1, Le32(d.seqno), a + 7);
    HasBoth(s, a, [d.flags], d.addr, a + 1);
    HasOctet(s, a, [d.flags], 0);
    De32OfLe32(s, a + 7, d.seqno);
    ExtRead(d.flags, d.ext, s, a + 11);
    De16OfLe16(s, a + 11 + o, d.rcode);
  }

  /** The destinations of a whole element are walked to its end; cut short, they are not. */
  lemma {:induction false} WalkPrefix(w: seq<Byte>, k: nat, a: nat, ds: seq<Dest>)
    requires a <= |w| && k <= |w| && w[a..] == DestsWire(ds)
    ensures WalkDests(w[..k], a, |ds|) == if k == |w| then k else -1
    decreases |ds|
  {
    if ds != [] && a < k {
      var d := DestSize(ds[0].flags);
      assert w[a] == w[a..][0] == ds[0].flags;
      assert w[a + d..] == w[a..][d..] == DestsWire(ds[1..]);
      WalkPrefix(w, k, a + d, ds[1..]);
    }
  }

  lemma CanonicalRest(ds: seq<Dest>)
    requires CanonicalDests(ds) && ds != []
    ensures CanonicalDests(ds[1..]) && (Ae(ds[0].flags) || ds[0].ext == NO_MAC) && ds == [ds[0]] + ds[1..]
  {
  }

  lemma {:induction false} DestsRead(w: seq<Byte>, a: nat, ds: seq<Dest>, n: nat)
    requires a <= |w| && n == |ds| && w[a..] == DestsWire(ds) && CanonicalDests(ds)
    requires WalkDests(w, a, n) >= 0
    ensures DestsAt(w, a, n) == ds
    decreases n
  {
    if n > 0 {
      CanonicalRest(ds);
      DestsReadFirst(w, a, ds);
      DestsAtStep(w, a, n);
      DestsRead(w, a + DestSize(w[a]), ds[1..], n - 1);
    }
  }

  lemma DestsAtStep(s: seq<Byte>, a: nat, n: nat)
    requires n > 0 && WalkDests(s, a, n) >= 0
    ensures a < |s| && a + DestSize(s[a]) <= |s| && WalkDests(s, a + DestSize(s[a]), n - 1) >= 0
    ensures DestsAt(s, a, n) == [DestAt(s, a)] + DestsAt(s, a + DestSize(s[a]), n - 1)
  {
  }

  lemma DestsReadFirst(w: seq<Byte>, a: nat, ds: seq<Dest>)
    requires a <= |w| && ds != [] && w[a..] == DestsWire(ds) && (Ae(ds[0].flags) || ds[0].ext == NO_MAC)
    ensures a < |w| && w[a] == ds[0].flags && a + DestSize(w[a]) <= |w|
    ensures DestAt(w, a) == ds[0] && w[a + DestSize(w[a])..] == DestsWire(ds[1..])
  {
    var d := DestSize(ds[0].flags);
    assert w[a..a + d] == w[a..][..d] == DestWire(ds[0]);
    assert Has(w, a, DestWire(ds[0]));
    DestRead(w, a, ds[0]);
    assert w[a + d..] == w[a..][d..] == DestsWire(ds[1..]);
  }

  /** The receiver's length check passes exactly the messages whose length fits. */
  lemma AcceptedIffFits(m: Elem)
    requires Countable(m)
    ensures |Wire(m)| >= Size(Wire(m))
    ensures Accepted(Wire(m)[..Size(Wire(m))]) <==> Fits(m)
  {
    WireLength(m);
    match m {
      case Preq(_, _, _, _, _, _, _, _, _, _) => AcceptedPreq(m, Wire(m), Wire(m)[..Size(Wire(m))]);
      case Prep(_, _, _, _, _, _, _, _, _, _) => AcceptedPrep(m, Wire(m), Wire(m)[..Size(Wire(m))]);
      case Perr(_, _) => AcceptedPerr(m, Wire(m), Size(Wire(m)));
      case Rann(_, _, _, _, _, _, _) => AcceptedRann(m, Wire(m), Wire(m)[..Size(Wire(m))]);
    }
  }

  lemma Cut256(n: nat)
    ensures n < 256 ==> n % 256 == n
    ensures n >= 256 ==> n % 256 <= n - 256
  {
  }

  lemma AcceptedPreq(m: Elem, w: seq<Byte>, el: seq<Byte>)
    requires m.Preq? && Countable(m) && w == Wire(m) && |w| == Length(m) + 2
    requires Size(w) <= |w| && el == w[..Size(w)]
    ensures Accepted(el) <==> Fits(m)
  {
    var o := AeSize(m.flags);
    PreqOctets(m, w, o);
    Cut256(Length(m));
    WireHead(m);
    if |el| > 2 {
      assert el[2] == m.flags;
      if 27 + o < |el| {
        assert el[27 + o] == |m.targets|;
      }
    }
  }

  lemma AcceptedPrep(m: Elem, w: seq<Byte>, el: seq<Byte>)
    requires m.Prep? && w == Wire(m) && |w| == Length(m) + 2
    requires Size(w) <= |w| && el == w[..Size(w)]
    ensures Accepted(el) <==> Fits(m)
  {
    PrepOctets(m, w, AeSize(m.flags));
  }

  lemma AcceptedRann(m: Elem, w: seq<Byte>, el: seq<Byte>)
    requires m.Rann? && w == Wire(m) && |w| == Length(m) + 2
    requires Size(w) <= |w| && el == w[..Size(w)]
    ensures Accepted(el) <==> Fits(m)
  {
    RannOctets(m, w);
  }

  lemma AcceptedPerr(m: Elem, w: seq<Byte>, k: nat)
    requires m.Perr? && Countable(m) && w == Wire(m) && |w| == Length(m) + 2 && k == Size(w) <= |w|
    ensures Accepted(w[..k]) <==> Fits(m)
  {
    PerrOctets(m, w);
    WalkPrefix(w, k, 4, m.dests);
  }

  lemma DecodePerr(m: Elem, w: seq<Byte>)
    requires m.Perr? && Countable(m) && Canonical(m) && w == Wire(m) && WalkDests(w, 4, |m.dests|) >= 0
    ensures Perr(w[2], DestsAt(w, 4, w[3])) == m
  {
    PerrOctets(m, w);
    DestsRead(w, 4, m.dests, |m.dests|);
  }

  lemma DecodeRann(m: Elem, w: seq<Byte>)
    requires m.Rann? && w == Wire(m)
    ensures |w| == 23 && RannAt(w) == m
  {
    RannOctets(m, w);
    De32OfLe32(w, 11, m.seqno);
    De32OfLe32(w, 15, m.interval);
    De32OfLe32(w, 19, m.metric);
  }

  lemma DecodePreq(m: Elem, w: seq<Byte>, o: nat)
    requires m.Preq? && Countable(m) && Canonical(m) && w == Wire(m) && o == AeSize(m.flags)
    ensures 28 + o <= |w| && o == AeSize(w[2]) && 28 + o + 11 * (w[27 + o] as nat) == |w| && PreqAt(w, o) == m
  {
    PreqOctets(m, w, o);
    De32OfLe32(w, 5, m.id);
    De32OfLe32(w, 15, m.origseq);
    ExtRead(m.flags, m.ext, w, 19);
    De32OfLe32(w, 19 + o, m.lifetime);
    De32OfLe32(w, 23 + o, m.metric);
    TargetsRead(w, 28 + o, m.targets);
  }

  lemma DecodePrep(m: Elem, w: seq<Byte>, o: nat)
    requires m.Prep? && Canonical(m) && w == Wire(m) && o == AeSize(m.flags)
    ensures 33 + o == |w| && o == AeSize(w[2]) && PrepAt(w, o) == m
  {
    PrepOctets(m, w, o);
    De32OfLe32(w, 11, m.targetseq);
    ExtRead(m.flags, m.ext, w, 15);
    De32OfLe32(w, 15 + o, m.lifetime);
    De32OfLe32(w, 19 + o, m.metric);
    De32OfLe32(w, 29 + o, m.origseq);
  }

  lemma WireHead(m: Elem)
    requires Countable(m)
    ensures |Wire(m)| >= 4 && Wire(m)[0] == Id(m) && Wire(m)[1] == Length(m) % 256
    ensures m.Perr? ==> Wire(m)[3] == |m.dests|
  {
  }

  /** Printing a message that fits and reading the octets gives the message back. */
  lemma DecodeWire(m: Elem)
    requires Countable(m) && Fits(m) && Canonical(m)
    ensures |Wire(m)| == Size(Wire(m)) && Accepted(Wire(m)) && Decode(Wire(m)) == m
  {
    var w := Wire(m);
    WireLength(m);
    WireHead(m);
    AcceptedIffFits(m);
    assert w[..Size(w)] == w;
    match m {
      case Preq(_, _, _, _, _, _, _, _, _, _) => DecodePreq(m, w, AeSize(m.flags));
      case Prep(_, _, _, _, _, _, _, _, _, _) => DecodePrep(m, w, AeSize(m.flags));
      case Perr(_, _) => DecodePerr(m, w);
      case Rann(_, _, _, _, _, _, _) => DecodeRann(m, w);
    }
  }

  // ---- what is read is what was printed -----------------------------------

  lemma OctetsOf32(b0: Byte, b1: Byte, b2: Byte, b3: Byte, v: nat)
    requires v == b0 + 0x100 * b1 + 0x1_0000 * b2 + 0x100_0000 * b3
    ensures v < 0x1_0000_0000 && Le32(v) == [b0, b1, b2, b3]
  {
    Unique(v, 0x100, b1 + 0x100 * b2 + 0x1_0000 * b3, b0);
    Unique(v / 0x100, 0x100, b2 + 0x100 * b3, b1);
    Unique(v / 0x100 / 0x100, 0x100, b3, b2);
    Nested(v, 0x100, 0x100, 0x1_0000);
    Nested(v, 0x1_0000, 0x100, 0x100_0000);
  }

  lemma Le32OfDe32(s: seq<Byte>, a: nat)
    requires a + 4 <= |s|
    ensures Le32(De32(s, a)) == s[a..a + 4]
  {
    OctetsOf32(s[a], s[a + 1], s[a + 2], s[a + 3], De32(s, a));
  }

  lemma Le16OfDe16(s: seq<Byte>, a: nat)
    requires a + 2 <= |s|
    ensures Le16(De16(s, a)) == s[a..a + 2]
  {
  }

  lemma TargetPrint(s: seq<Byte>, a: nat)
    requires a + 11 <= |s|
    ensures TargetWire(TargetAt(s, a)) == s[a..a + 11]
  {
    Le32OfDe32(s, a + 7);
  }

  lemma {:induction false} TargetsPrint(s: seq<Byte>, a: nat, n: nat)
    requires a + 11 * n <= |s|
    ensures TargetsWire(TargetsAt(s, a, n)) == s[a..a + 11 * n]
  {
    if n > 0 {
      var b := a + 11 * (n - 1);
      TargetsPrint(s, a, n - 1);
      TargetPrint(s, b);
      TargetsWireLast(TargetsAt(s, a, n), TargetsAt(s, a, n - 1), TargetAt(s, b));
      Join(s, a, b, b + 11);
    }
  }

  lemma DestPrint(s: seq<Byte>, a: nat)
    requires a < |s| && a + DestSize(s[a]) <= |s|
    ensures DestWire(DestAt(s, a)) == s[a..a + DestSize(s[a])]
  {
    var o := AeSize(s[a]);
    Le32OfDe32(s, a + 7);
    Le16OfDe16(s, a + 11 + o);
    var d := DestAt(s, a);
    assert s[a..a + 11] == [d.flags] + d.addr + Le32(d.seqno);
    assert s[a..a + 11 + o] == s[a..a + 11] + ExtWire(d.flags, d.ext);
  }

  lemma {:induction false} DestsPrint(s: seq<Byte>, a: nat, n: nat)
    requires WalkDests(s, a, n) >= 0
    ensures DestsWire(DestsAt(s, a, n)) == s[a..WalkDests(s, a, n)] && CanonicalDests(DestsAt(s, a, n))
    decreases n
  {
    if n > 0 {
      var b, d := a + DestSize(s[a]), DestAt(s, a);
      var ds := DestsAt(s, b, n - 1);
      DestPrint(s, a);
      DestsPrint(s, b, n - 1);
      DestsWireCons(d, ds);
      assert DestsAt(s, a, n) == [d] + ds && WalkDests(s, a, n) == WalkDests(s, b, n - 1);
      Join(s, a, b, WalkDests(s, b, n - 1));
    }
  }

  lemma Join(s: seq<Byte>, a: nat, b: nat, c: nat)
    requires a <= b <= c <= |s|
    ensures s[a..b] + s[b..c] == s[a..c]
  {
  }

  lemma DestsWireCons(d: Dest, ds: seq<Dest>)
    requires CanonicalDests(ds) && (Ae(d.flags) || d.ext == NO_MAC)
    ensures DestsWire([d] + ds) == DestWire(d) + DestsWire(ds) && CanonicalDests([d] + ds)
  {
    assert ([d] + ds)[1..] == ds;
  }

  lemma JoinFront(s: seq<Byte>, i: nat, j: nat)
    requires i <= j <= |s|
    ensures s[..i] + s[i..j] == s[..j]
  {
  }

  lemma Front(el: seq<Byte>)
    requires |el| >= 5
    ensures [el[0], el[1], el[2], el[3], el[4]] == el[..5]
  {
  }

  /** Fields that are the pieces of a path request's octets make up those octets. */
  lemma JoinPreq(el: seq<Byte>, o: nat, id: seq<Byte>, orig: seq<Byte>, origseq: seq<Byte>, ext: seq<Byte>,
                 lifetime: seq<Byte>, metric: seq<Byte>, targets: seq<Byte>)
    requires |el| >= 28 + o && id == el[5..9] && orig == el[9..15] && origseq == el[15..19]
    requires ext == el[19..19 + o] && lifetime == el[19 + o..23 + o] && metric == el[23 + o..27 + o]
    requires targets == el[28 + o..]
    ensures [el[0], el[1], el[2], el[3], el[4]] + id + orig + origseq + ext + lifetime + metric + [el[27 + o]] + targets == el
  {
    Front(el);
    JoinFront(el, 5, 9);
    JoinFront(el, 9, 15);
    JoinFront(el, 15, 19);
    JoinFront(el, 19, 19 + o);
    JoinFront(el, 19 + o, 23 + o);
    JoinFront(el, 23 + o, 27 + o);
    JoinFront(el, 27 + o, 28 + o);
    assert el[27 + o..28 + o] == [el[27 + o]];
    assert el[..28 + o] + el[28 + o..] == el;
  }

  lemma JoinPrep(el: seq<Byte>, o: nat, target: seq<Byte>, targetseq: seq<Byte>, ext: seq<Byte>,
                 lifetime: seq<Byte>, metric: seq<Byte>, orig: seq<Byte>, origseq: seq<Byte>)
    requires |el| == 33 + o && target == el[5..11] && targetseq == el[11..15]
    requires ext == el[15..15 + o] && lifetime == el[15 + o..19 + o] && metric == el[19 + o..23 + o]
    requires orig == el[23 + o..29 + o] && origseq == el[29 + o..33 + o]
    ensures [el[0], el[1], el[2], el[3], el[4]] + target + targetseq + ext + lifetime + metric + orig + origseq == el
  {
    Front(el);
    JoinFront(el, 5, 11);
    JoinFront(el, 11, 15);
    JoinFront(el, 15, 15 + o);
    JoinFront(el, 15 + o, 19 + o);
    JoinFront(el, 19 + o, 23 + o);
    JoinFront(el, 23 + o, 29 + o);
    JoinFront(el, 29 + o, 33 + o);
    assert el[..33 + o] == el;
  }

  lemma JoinRann(el: seq<Byte>, root: seq<Byte>, seqno: seq<Byte>, interval: seq<Byte>, metric: seq<Byte>)
    requires |el| == 23 && root == el[5..11] && seqno == el[11..15] && interval == el[15..19] && metric == el[19..23]
    ensures [el[0], el[1], el[2], el[3], el[4]] + root + seqno + interval + metric == el
  {
    Front(el);
    JoinFront(el, 5, 11);
    JoinFront(el, 11, 15);
    JoinFront(el, 15, 19);
    JoinFront(el, 19, 23);
    assert el[..23] == el;
  }

  lemma ExtPrint(flags: Byte, el: seq<Byte>, a: nat, o: nat)
    requires o == AeSize(flags) && a + o <= |el|
    ensures ExtWire(flags, ExtAt(flags, el, a)) == el[a..a + o] && (Ae(flags) || ExtAt(flags, el, a) == NO_MAC)
  {
  }

  lemma TargetsToEnd(el: seq<Byte>, a: nat, n: nat)
    requires a + 11 * n == |el|
    ensures TargetsWire(TargetsAt(el, a, n)) == el[a..]
  {
    TargetsPrint(el, a, n);
    assert el[a..] == el[a..|el|];
  }

  lemma PreqWire(m: Elem, len: Byte, n: Byte)
    requires m.Preq? && Length(m) == len && |m.targets| == n
    ensures Wire(m) == [ID_PREQ, len, m.flags, m.hopcount, m.ttl] + Le32(m.id) + m.orig + Le32(m.origseq)
      + ExtWire(m.flags, m.ext) + Le32(m.lifetime) + Le32(m.metric) + [n] + TargetsWire(m.targets)
  {
  }

  lemma PrepWire(m: Elem, len: Byte)
    requires m.Prep? && Length(m) == len
    ensures Wire(m) == [ID_PREP, len, m.flags, m.hopcount, m.ttl] + m.target + Le32(m.targetseq)
      + ExtWire(m.flags, m.ext) + Le32(m.lifetime) + Le32(m.metric) + m.orig + Le32(m.origseq)
  {
  }

  lemma PrintPreq(el: seq<Byte>, o: nat, m: Elem)
    requires 28 + o <= |el| && |el| == Size(el) && o == AeSize(el[2]) && 28 + o + 11 * (el[27 + o] as nat) == |el| && el[0] == ID_PREQ
    requires m == PreqAt(el, o)
    ensures Countable(m) && Canonical(m) && Fits(m) && Wire(m) == el
  {
    PreqWire(m, el[1], el[27 + o]);
    Le32OfDe32(el, 5);
    Le32OfDe32(el, 15);
    Le32OfDe32(el, 19 + o);
    Le32OfDe32(el, 23 + o);
    ExtPrint(el[2], el, 19, o);
    TargetsToEnd(el, 28 + o, el[27 + o]);
    JoinPreq(el, o, Le32(m.id), m.orig, Le32(m.origseq), ExtWire(m.flags, m.ext), Le32(m.lifetime), Le32(m.metric),
             TargetsWire(m.targets));
  }

  lemma PrintPrep(el: seq<Byte>, o: nat, m: Elem)
    requires 33 + o == |el| && |el| == Size(el) && o == AeSize(el[2]) && el[0] == ID_PREP
    requires m == PrepAt(el, o)
    ensures Canonical(m) && Fits(m) && Wire(m) == el
  {
    PrepWire(m, el[1]);
    Le32OfDe32(el, 11);
    Le32OfDe32(el, 15 + o);
    Le32OfDe32(el, 19 + o);
    Le32OfDe32(el, 29 + o);
    ExtPrint(el[2], el, 15, o);
    JoinPrep(el, o, m.target, Le32(m.targetseq), ExtWire(m.flags, m.ext), Le32(m.lifetime), Le32(m.metric), m.orig,
             Le32(m.origseq));
  }

  lemma Front4(el: seq<Byte>, d: seq<Byte>)
    requires |el| >= 4 && d == el[4..|el|]
    ensures [el[0], el[1], el[2], el[3]] + d == el
  {
  }

  lemma PerrWire(m: Elem, len: Byte, n: Byte)
    requires m.Perr? && Length(m) == len && |m.dests| == n
    ensures Wire(m) == [ID_PERR, len, m.ttl, n] + DestsWire(m.dests)
  {
  }

  lemma PerrFits(el: seq<Byte>, m: Elem)
    requires 4 <= |el| && |el| == Size(el) && el[3] <= MAXDEST && m.Perr? && |m.dests| == el[3]
    requires DestsWire(m.dests) == el[4..|el|]
    ensures Length(m) == el[1] && Fits(m)
  {
    DestsLength(m.dests);
  }

  lemma PrintPerr(el: seq<Byte>, m: Elem)
    requires 4 <= |el| && |el| == Size(el) && el[0] == ID_PERR && el[3] <= MAXDEST && WalkDests(el, 4, el[3]) == |el|
    requires m.Perr? && m.ttl == el[2] && m.dests == DestsAt(el, 4, el[3])
    ensures Countable(m) && Canonical(m) && Fits(m) && Wire(m) == el
  {
    DestsPrint(el, 4, el[3]);
    PerrFits(el, m);
    PerrWire(m, el[1], el[3]);
    Front4(el, DestsWire(m.dests));
  }

  lemma PrintRann(el: seq<Byte>, m: Elem)
    requires |el| == 23 && el[0] == ID_RANN && el[1] == RANN_LEN && m == RannAt(el)
    ensures Canonical(m) && Fits(m) && Wire(m) == el
  {
    Le32OfDe32(el, 11);
    Le32OfDe32(el, 15);
    Le32OfDe32(el, 19);
    JoinRann(el, m.root, Le32(m.seqno), Le32(m.interval), Le32(m.metric));
  }

  /** Every element the checks accept is the print of what is read from it: two
      different accepted elements never read alike. */
  lemma WireDecode(el: seq<Byte>)
    requires |el| >= 2 && |el| == Size(el) && Accepted(el)
    ensures Countable(Decode(el)) && Canonical(Decode(el)) && Fits(Decode(el)) && Wire(Decode(el)) == el
  {
    var m := Decode(el);
    if el[0] == ID_PREQ {
      PrintPreq(el, AeSize(el[2]), m);
    } else if el[0] == ID_PREP {
      PrintPrep(el, AeSize(el[2]), m);
    } else if el[0] == ID_PERR {
      PrintPerr(el, m);
    } else {
      PrintRann(el, m);
    }
  }

  // ---- whole frames -------------------------------------------------------

  predicate Sendable(ms: seq<Elem>) {
    forall i :: 0 <= i < |ms| ==> Countable(ms[i]) && Fits(ms[i]) && Canonical(ms[i])
  }

  function Wires(ms: seq<Elem>): seq<Byte>
    requires Sendable(ms)
  {
    if ms == [] then [] else Wire(ms[0]) + Wires(ms[1..])
  }

  /** Elements printed one after another are read as exactly those messages: the
      reader steps over each by its own length and no more. */
  lemma {:induction false} ElementsOfWires(ms: seq<Elem>)
    requires Sendable(ms)
    ensures Elements(Wires(ms)) == ms
  {
    if ms != [] {
      var w, rest := Wire(ms[0]), Wires(ms[1..]);
      DecodeWire(ms[0]);
      ElementsOfWires(ms[1..]);
      ElementsStep(w, rest);
      assert ms == [ms[0]] + ms[1..];
    }
  }

  lemma ElementsStep(w: seq<Byte>, rest: seq<Byte>)
    requires |w| >= 2 && |w| == Size(w) && Accepted(w)
    ensures Elements(w + rest) == [Decode(w)] + Elements(rest)
  {
    var frm := w + rest;
    assert frm[..Size(frm)] == w && frm[Size(frm)..] == rest;
  }
}