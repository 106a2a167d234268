/** Printing and parsing of path selection frames as the driver does it: a
    cursor moving over octets. */
module HwmpFrames {
  import opened HwmpCodec

  /** A frame under construction: the buffer and the cursor in it. */
  class Printer {
    const frm: array<Byte>
    ghost const before: seq<Byte>
    ghost const start: nat
    var at: nat
    ghost var out: seq<Byte>

    /** `out` has been printed at `start`; the rest of the buffer is as it was. */
    ghost predicate Valid()
      reads this, frm
    {
      && |before| == frm.Length && at == start + |out| && at <= frm.Length
      && frm[..] == before[..start] + out + before[at..]
    }

    ghost predicate Room(n: nat)
      reads this
    {
      at + n <= frm.Length
    }

    constructor (frm: array<Byte>, start: nat)
      requires start <= frm.Length
      ensures Valid() && out == [] && at == start && this.start == start && this.frm == frm && before == frm[..]
    {
      this.frm, this.start, this.at := frm, start, start;
      before, out := frm[..], [];
    }

    /** Stores one octet and steps past it. */
    method Octet(v: Byte)
      requires Valid() && Room(1)
      modifies this, frm
      ensures Valid() && out == old(out) + [v]
    {
      ghost var b := frm[..];
      frm[at] := v;
      assert frm[..] == b[at := v];
      at, out := at + 1, out + [v];
      assert before[at - 1..] == [before[at - 1]] + before[at..];
    }

    /** Copies octets to the cursor and steps past them. */
    method Put(v: seq<Byte>)
      requires Valid() && Room(|v|)
      modifies this, frm
      ensures Valid() && out == old(out) + v
    {
      var i := 0;
      while i < |v|
        invariant i <= |v| && Valid() && out == old(out) + v[..i]
      {
        Octet(v[i]);
        i := i + 1;
      }
    }

    method AddPreq(preq: Elem)
      requires Valid() && preq.Preq? && Countable(preq) && Room(Length(preq) + 2)
      modifies this, frm
      ensures Valid() && out == old(out) + Wire(preq)
    {
      var len := PreqLength(preq);
      Put([ID_PREQ, len, preq.flags, preq.hopcount, preq.ttl]);
      Put(Le32(preq.id));
      Put(preq.orig);
      Put(Le32(preq.origseq));
      PutExt(preq.flags, preq.ext);
      Put(Le32(preq.lifetime));
      Put(Le32(preq.metric));
      Put([|preq.targets|]);
      AddTargets(preq.targets);
      WholePreq(old(out), preq, out);
    }

    method PutExt(flags: Byte, ext: Mac)
      requires Valid() && Room(AeSize(flags))
      modifies this, frm
      ensures Valid() && out == old(out) + ExtWire(flags, ext)
    {
      if Ae(flags) {
        Put(ext);
      }
    }

    method AddPrep(prep: Elem)
      requires Valid() && prep.Prep? && Room(Length(prep) + 2)
      modifies this, frm
      ensures Valid() && out == old(out) + Wire(prep)
    {
      var len := PrepLength(prep);
      Put([ID_PREP, len, prep.flags, prep.hopcount, prep.ttl]);
      Put(prep.target);
      Put(Le32(prep.targetseq));
      PutExt(prep.flags, prep.ext);
      Put(Le32(prep.lifetime));
      Put(Le32(prep.metric));
      Put(prep.orig);
      Put(Le32(prep.origseq));
      WholePrep(old(out), prep, out);
    }

    method AddRann(rann: Elem)
      requires Valid() && rann.Rann? && Room(Length(rann) + 2)
      modifies this, frm
      ensures Valid() && out == old(out) + Wire(rann)
    {
      Put([ID_RANN, RANN_LEN, rann.flags, rann.hopcount, rann.ttl]);
      Put(rann.root);
      Put(Le32(rann.seqno));
      Put(Le32(rann.interval));
      Put(Le32(rann.metric));
      WholeRann(old(out), rann, out);
    }

    method AddPerr(perr: Elem)
      requires Valid() && perr.Perr? && Countable(perr) && Room(Length(perr) + 2)
      modifies this, frm
      ensures Valid() && out == old(out) + Wire(perr)
    {
      var len := PerrLength(perr);
      Put([ID_PERR, len, perr.ttl, |perr.dests|]);
      Assoc(old(out), [ID_PERR, len, perr.ttl, |perr.dests|], DestsWire(perr.dests));
      AddDests(perr.dests);
    }

    method AddDests(ds: seq<Dest>)
      requires Valid() && Room(DestsSize(ds))
      modifies this, frm
      ensures Valid() && out == old(out) + DestsWire(ds)
    {
      var i := 0;
      assert ds[0..] == ds;
      while i < |ds|
        invariant i <= |ds| && Valid() && Room(DestsSize(ds[i..]))
        invariant out + DestsWire(ds[i..]) == old(out) + DestsWire(ds)
      {
        DestsStep(ds, i, out);
        AddDest(ds[i]);
        i := i + 1;
      }
      assert out + [] == out;
    }

    method AddDest(d: Dest)
      requires Valid() && Room(DestSize(d.flags))
      modifies this, frm
      ensures Valid() && out == old(out) + DestWire(d)
    {
      Put([d.flags]);
      Put(d.addr);
      Put(Le32(d.seqno));
      PutExt(d.flags, d.ext);
      Put(Le16(d.rcode));
    }

    method AddTargets(ts: seq<Target>)
      requires Valid() && Room(11 * |ts|)
      modifies this, frm
      ensures Valid() && out == old(out) + TargetsWire(ts)
    {
      var i := 0;
      while i < |ts|
        invariant i <= |ts| && Valid() && out == old(out) + TargetsWire(ts[..i])
      {
        Put([ts[i].flags]);
        Put(ts[i].addr);
        Put(Le32(ts[i].seqno));
        i := i + 1;
        assert ts[..i][..i - 1] == ts[..i - 1];
      }
      assert ts[..i] == ts;
    }
  }

  lemma Assoc(s: seq<Byte>, x: seq<Byte>, y: seq<Byte>)
    ensures s + x + y == s + (x + y)
  {
  }

  /** What was printed piece by piece after `s` is `s` and then the whole. */
  lemma Chain(s: seq<Byte>, h: seq<Byte>, a: seq<Byte>, b: seq<Byte>, c: seq<Byte>, d: seq<Byte>, e: seq<Byte>,
              f: seq<Byte>, g: seq<Byte>)
    ensures s + h + a + b + c + d + e + f + g == s + (h + a + b + c + d + e + f + g)
  {
    var x1 := h + a;
    var x2 := x1 + b;
    var x3 := x2 + c;
    var x4 := x3 + d;
    var x5 := x4 + e;
    var x6 := x5 + f;
    Assoc(s, h, a);
    Assoc(s, x1, b);
    Assoc(s, x2, c);
    Assoc(s, x3, d);
    Assoc(s, x4, e);
    Assoc(s, x5, f);
    Assoc(s, x6, g);
  }

  lemma WholePreq(s: seq<Byte>, m: Elem, t: seq<Byte>)
    requires m.Preq? && Countable(m)
    requires t == s + [ID_PREQ, Length(m) % 256, m.flags, m.hopcount, m.ttl] + Le32(m.id) + m.orig + Le32(m.origseq)
      + ExtWire(m.flags, m.ext) + Le32(m.lifetime) + Le32(m.metric) + [|m.targets|] + TargetsWire(m.targets)
    ensures t == s + Wire(m)
  {
    var h := [ID_PREQ, Length(m) % 256, m.flags, m.hopcount, m.ttl];
    var x := h + Le32(m.id) + m.orig + Le32(m.origseq) + ExtWire(m.flags, m.ext) + Le32(m.lifetime) + Le32(m.metric)
      + [|m.targets|];
    Chain(s, h, Le32(m.id), m.orig, Le32(m.origseq), ExtWire(m.flags, m.ext), Le32(m.lifetime), Le32(m.metric),
          [|m.targets|]);
    Assoc(s, x, TargetsWire(m.targets));
  }

  lemma WholePrep(s: seq<Byte>, m: Elem, t: seq<Byte>)
    requires m.Prep?
    requires t == s + [ID_PREP, Length(m) % 256, m.flags, m.hopcount, m.ttl] + m.target + Le32(m.targetseq)
      + ExtWire(m.flags, m.ext) + Le32(m.lifetime) + Le32(m.metric) + m.orig + Le32(m.origseq)
    ensures t == s + Wire(m)
  {
    Chain(s, [ID_PREP, Length(m) % 256, m.flags, m.hopcount, m.ttl], m.target, Le32(m.targetseq),
          ExtWire(m.flags, m.ext), Le32(m.lifetime), Le32(m.metric), m.orig, Le32(m.origseq));
  }

  lemma WholeRann(s: seq<Byte>, m: Elem, t: seq<Byte>)
    requires m.Rann?
    requires t == s + [ID_RANN, RANN_LEN, m.flags, m.hopcount, m.ttl] + m.root + Le32(m.seqno) + Le32(m.interval)
      + Le32(m.metric)
    ensures t == s + Wire(m)
  {
    var x1 := [ID_RANN, RANN_LEN, m.flags, m.hopcount, m.ttl];
    var x2 := x1 + m.root;
    var x3 := x2 + Le32(m.seqno);
    Assoc(s, x1, m.root);
    Assoc(s, x2, Le32(m.seqno));
    Assoc(s, x3, Le32(m.interval));
    Assoc(s, x3 + Le32(m.interval), Le32(m.metric));
  }

  lemma DestsStep(ds: seq<Dest>, i: nat, s: seq<Byte>)
    requires i < |ds|
    ensures DestsSize(ds[i..]) == DestSize(ds[i].flags) + DestsSize(ds[i + 1..])
    ensures s + DestsWire(ds[i..]) == s + DestWire(ds[i]) + DestsWire(ds[i + 1..])
  {
    assert ds[i..][1..] == ds[i + 1..];
  }

  lemma WrapAdd(a: nat, b: nat, c: nat)
    ensures ((a + b) % 256 + c) % 256 == (a + (b + c)) % 256
  {
  }

  method PreqLength(preq: Elem) returns (len: Byte)
    requires preq.Preq? && Countable(preq)
    ensures len == Length(preq) % 256
  {
    var n := (if Ae(preq.flags) then 32 else 26) + 11 * |preq.targets|;
    len := n % 256;
  }

  method PrepLength(prep: Elem) returns (len: Byte)
    requires prep.Prep?
    ensures len == Length(prep) % 256
  {
    len := if Ae(prep.flags) then 37 else 31;
  }

  method PerrLength(perr: Elem) returns (len: Byte)
    requires perr.Perr?
    ensures len == Length(perr) % 256
  {
    len := 2;
    var i := 0;
    while i < |perr.dests|
      invariant i <= |perr.dests|
      invariant ((len as nat) + DestsSize(perr.dests[i..])) % 256 == Length(perr) % 256
    {
      DestsStep(perr.dests, i, []);
      var sz: nat := if Ae(perr.dests[i].flags) then 19 else 13;
      WrapAdd(len, sz, DestsSize(perr.dests[i + 1..]));
      len := ((len as nat) + sz) % 256;
      i := i + 1;
    }
  }

  // ---- the length checks --------------------------------------------------

  // The checks look at octets before they know how long the element is.

  /** The flag octets of `n` destinations starting at `a` are there to look at. */
  predicate Readable(ie: seq<Byte>, a: nat, n: nat)
    decreases n
  {
    n == 0 || (a < |ie| && Readable(ie, a + DestSize(ie[a]), n - 1))
  }

  /** All that the check of the element at the start of `ie` looks at is there. */
  predicate CanCheck(ie: seq<Byte>)
    requires |ie| >= 2
  {
    if ie[0] == ID_PREQ then |ie| > 2 && |ie| > 27 + AeSize(ie[2])
    else if ie[0] == ID_PREP then |ie| > 2
    else if ie[0] == ID_PERR then |ie| > 3 && (ie[3] > MAXDEST || Readable(ie, 4, ie[3]))
    else true
  }

  method VerifyPreqLen(ie: seq<Byte>) returns (ndest: int)
    requires |ie| >= 2 && |ie| >= Size(ie) && ie[0] == ID_PREQ && CanCheck(ie)
    ensures ndest == if Accepted(ie[..Size(ie)]) then ie[27 + AeSize(ie[2])] else -1
    ensures ndest >= 1 <==> Accepted(ie[..Size(ie)]) && ie[27 + AeSize(ie[2])] != 0
  {
    var size;
    if Ae(ie[2]) {
      size := 32;
      ndest := ie[33];
    } else {
      size := 26;
      ndest := ie[27];
    }
    size := size + ndest * 11;
    if ie[1] != size {
      ndest := -1;
    }
  }

  /** A request that names no target passes, though its handler looks at the first. */
  lemma EmptyRequestPasses(m: Elem)
    requires m.Preq? && m.targets == []
    ensures var w := Wire(m); |w| == Size(w) && Accepted(w) && w[27 + AeSize(m.flags)] == 0
  {
    WireLength(m);
    WireHead(m);
    AcceptedIffFits(m);
    PreqOctets(m, Wire(m), AeSize(m.flags));
    assert Wire(m)[..Size(Wire(m))] == Wire(m);
  }

  method VerifyPrepLen(ie: seq<Byte>) returns (ok: int)
    requires |ie| >= 2 && |ie| >= Size(ie) && ie[0] == ID_PREP && CanCheck(ie)
    ensures ok == if Accepted(ie[..Size(ie)]) then 1 else -1
  {
    var size := -1;
    if Ae(ie[2]) {
      if ie[1] == 37 {
        size := 37;
      }
    } else if ie[1] == 31 {
      size := 31;
    }
    ok := if size < 0 then -1 else 1;
  }

  /** Where `n` destinations starting at `a` end, read without looking at any length. */
  function Past(ie: seq<Byte>, a: nat, n: nat): (r: nat)
    requires Readable(ie, a, n)
    ensures a + 13 * n <= r <= a + 19 * n
    decreases n
  {
    if n == 0 then a else Past(ie, a + DestSize(ie[a]), n - 1)
  }

  lemma {:induction false} PastIsWalk(ie: seq<Byte>, a: nat, n: nat, k: nat)
    requires Readable(ie, a, n) && k <= |ie|
    ensures WalkDests(ie[..k], a, n) == k <==> Past(ie, a, n) == k
    decreases n
  {
    if n > 0 && a < k {
      PastIsWalk(ie, a + DestSize(ie[a]), n - 1, k);
    }
  }

  method VerifyPerrLen(ie: seq<Byte>) returns (ndest: int)
    requires |ie| >= 2 && |ie| >= Size(ie) && ie[0] == ID_PERR && CanCheck(ie)
    ensures ndest == if Accepted(ie[..Size(ie)]) then ie[3] else -1
  {
    ndest := ie[3];
    if ndest > MAXDEST {
      return -1;
    }
    var t: nat := 4;
    var i: nat := 0;
    while i < ndest
      invariant i <= ndest && Readable(ie, t, ndest - i)
      invariant Past(ie, t, ndest - i) == Past(ie, 4, ndest)
    {
      if Ae(ie[t]) {
        t := t + 19;
      } else {
        t := t + 13;
      }
      i := i + 1;
    }
    PastIsWalk(ie, 4, ndest, Size(ie));
    if t - 2 != ie[1] {
      ndest := -1;
    }
  }

  // ---- what lies past an element ------------------------------------------

  /** When the check of a whole element looks no further than the element. */
  lemma StaysWithinIff(el: seq<Byte>)
    requires |el| >= 2 && |el| == Size(el)
    ensures el[0] == ID_PREQ ==> (CanCheck(el) <==> el[1] >= 1 && el[1] >= 26 + AeSize(el[2]))
    ensures el[0] == ID_PREP ==> (CanCheck(el) <==> el[1] >= 1)
    ensures el[0] == ID_PERR ==>
      (CanCheck(el) <==> el[1] >= 2 && (el[3] == 0 || el[3] > MAXDEST
                                        || (Readable(el, 4, el[3] - 1) && Past(el, 4, el[3] - 1) < |el|)))
  {
    if el[0] == ID_PERR && el[1] >= 2 && el[3] > 0 {
      LastFlag(el, 4, el[3]);
    }
  }

  lemma {:induction false} LastFlag(el: seq<Byte>, a: nat, n: nat)
    requires n > 0
    ensures Readable(el, a, n) <==> Readable(el, a, n - 1) && Past(el, a, n - 1) < |el|
    decreases n
  {
    if n > 1 && a < |el| {
      LastFlag(el, a + DestSize(el[a]), n - 1);
    }
  }

  lemma {:induction false} WalkReads(el: seq<Byte>, a: nat, n: nat)
    requires WalkDests(el, a, n) >= 0
    ensures Readable(el, a, n)
    decreases n
  {
    if n > 0 {
      WalkReads(el, a + DestSize(el[a]), n - 1);
    }
  }

  /** Nothing past an element that is accepted is looked at. */
  lemma AcceptedStaysWithin(el: seq<Byte>)
    requires |el| >= 2 && |el| == Size(el) && Accepted(el)
    ensures CanCheck(el)
  {
    if el[0] == ID_PERR {
      WalkReads(el, 4, el[3]);
    }
  }

  lemma {:induction false} ReadableMore(ie: seq<Byte>, k: nat, a: nat, n: nat)
    requires k <= |ie| && Readable(ie[..k], a, n)
    ensures Readable(ie, a, n)
    decreases n
  {
    if n > 0 {
      ReadableMore(ie, k, a + DestSize(ie[a]), n - 1);
    }
  }

  /** More memory does no harm. */
  lemma CanCheckMore(ie: seq<Byte>, k: nat)
    requires 2 <= k <= |ie| && CanCheck(ie[..k])
    ensures CanCheck(ie)
  {
    if ie[0] == ID_PERR && ie[3] <= MAXDEST {
      ReadableMore(ie, k, 4, ie[3]);
    }
  }

  /** A request without an octet of its own is checked by what lies past it. */
  lemma LooksPast(rest: seq<Byte>)
    requires |rest| >= 32
    ensures var el := [ID_PREQ, 0];
            Size(el) == 2 && !CanCheck(el) && CanCheck(el + rest)
  {
  }

  /** All that the parser looks at while it reads the `len` octets of elements,
      from `a` on, is there. */
  predicate CanParse(mem: seq<Byte>, a: nat, len: nat)
    requires len <= |mem|
    decreases len - a
  {
    a + 1 < len && a + Size(mem[a..]) <= len && !(mem[a] == ID_RANN && mem[a + 1] != RANN_LEN) ==>
      CanCheck(mem[a..]) && CanParse(mem, a + Size(mem[a..]), len)
  }

  /** The elements reached have lengths that agree with their contents. */
  predicate AllAccepted(mem: seq<Byte>, a: nat, len: nat)
    requires len <= |mem|
    decreases len - a
  {
    a + 1 < len && a + Size(mem[a..]) <= len && !(mem[a] == ID_RANN && mem[a + 1] != RANN_LEN) ==>
      Accepted(mem[a..][..Size(mem[a..])]) && AllAccepted(mem, a + Size(mem[a..]), len)
  }

  /** A frame of such elements can end where memory does. */
  lemma {:induction false} AcceptedParse(mem: seq<Byte>, a: nat, len: nat)
    requires len <= |mem| && AllAccepted(mem, a, len)
    ensures CanParse(mem, a, len)
    decreases len - a
  {
    if a + 1 < len && a + Size(mem[a..]) <= len && !(mem[a] == ID_RANN && mem[a + 1] != RANN_LEN) {
      var ie := mem[a..];
      AcceptedStaysWithin(ie[..Size(ie)]);
      CanCheckMore(ie, Size(ie));
      AcceptedParse(mem, a + Size(ie), len);
    }
  }

  /** The most any check looks at, from the start of an element. */
  const REACH: nat := 4 + 19 * MAXDEST

  lemma {:induction false} FarEnough(ie: seq<Byte>, a: nat, n: nat)
    requires a + 19 * n <= |ie|
    ensures Readable(ie, a, n)
    decreases n
  {
    if n > 0 {
      FarEnough(ie, a + DestSize(ie[a]), n - 1);
    }
  }

  /** Any frame can be parsed with that much memory behind it. */
  lemma {:induction false} ReachIsEnough(mem: seq<Byte>, a: nat, len: nat)
    requires len + REACH <= |mem|
    ensures CanParse(mem, a, len)
    decreases len - a
  {
    if a + 1 < len && a + Size(mem[a..]) <= len {
      var ie := mem[a..];
      if ie[0] == ID_PERR && ie[3] <= MAXDEST {
        FarEnough(ie, 4, ie[3]);
      }
      ReachIsEnough(mem, a + Size(ie), len);
    }
  }

  // ---- parsing ------------------------------------------------------------

  method ReadTargets(el: seq<Byte>, base: nat, n: nat) returns (targets: seq<Target>)
    requires base + 11 * n <= |el|
    ensures targets == TargetsAt(el, base, n)
  {
    targets := [];
    var t, i := base, 0;
    while i < n
      invariant i <= n && t == base + 11 * i && targets == TargetsAt(el, base, i)
    {
      targets := targets + [Target(el[t], MacAt(el, t + 1), De32(el, t + 7))];
      t := t + 11;
      i := i + 1;
    }
  }

  method ReadPreq(el: seq<Byte>) returns (preq: Elem)
    requires |el| >= 2 && |el| == Size(el) && el[0] == ID_PREQ && Accepted(el)
    ensures preq == Decode(el)
  {
    var flags, hopcount, ttl := el[2], el[3], el[4];
    var id, orig, origseq := De32(el, 5), MacAt(el, 9), De32(el, 15);
    var t, ext := 19, NO_MAC;
    if Ae(flags) {
      ext := MacAt(el, t);
      t := t + 6;
    }
    var lifetime, metric, tcount: nat := De32(el, t), De32(el, t + 4), el[t + 8];
    t := t + 9;
    var targets := ReadTargets(el, t, tcount);
    preq := Preq(flags, hopcount, ttl, id, orig, origseq, ext, lifetime, metric, targets);
  }

  method ReadPrep(el: seq<Byte>) returns (prep: Elem)
    requires |el| >= 2 && |el| == Size(el) && el[0] == ID_PREP && Accepted(el)
    ensures prep == Decode(el)
  {
    var flags, hopcount, ttl := el[2], el[3], el[4];
    var target, targetseq := MacAt(el, 5), De32(el, 11);
    var t, ext := 15, NO_MAC;
    if Ae(flags) {
      ext := MacAt(el, t);
      t := t + 6;
    }
    prep := Prep(flags, hopcount, ttl, target, targetseq, ext, De32(el, t), De32(el, t + 4), MacAt(el, t + 8),
                 De32(el, t + 14));
  }

  method ReadDest(el: seq<Byte>, t: nat) returns (d: Dest, next: nat)
    requires t < |el| && t + DestSize(el[t]) <= |el|
    ensures d == DestAt(el, t) && next == t + DestSize(el[t])
  {
    var flags := el[t];
    var addr, seqno := MacAt(el, t + 1), De32(el, t + 7);
    var ext := NO_MAC;
    next := t + 11;
    if Ae(flags) {
      ext := MacAt(el, next);
      next := next + 6;
    }
    d := Dest(flags, addr, seqno, ext, De16(el, next));
    next := next + 2;
  }

  /** The first destination and the others. */
  lemma DestsSplit(el: seq<Byte>, t: nat, n: nat, ds: seq<Dest>)
    requires n > 0 && WalkDests(el, t, n) == |el|
    ensures t < |el| && t + DestSize(el[t]) <= |el| && WalkDests(el, t + DestSize(el[t]), n - 1) == |el|
    ensures ds + DestsAt(el, t, n) == (ds + [DestAt(el, t)]) + DestsAt(el, t + DestSize(el[t]), n - 1)
  {
    var rest := DestsAt(el, t + DestSize(el[t]), n - 1);
    assert ds + ([DestAt(el, t)] + rest) == (ds + [DestAt(el, t)]) + rest;
  }

  method ReadDests(el: seq<Byte>, a: nat, ndests: nat) returns (dests: seq<Dest>)
    requires WalkDests(el, a, ndests) == |el|
    ensures dests == DestsAt(el, a, ndests)
  {
    dests := [];
    var t, i := a, 0;
    while i < ndests
      invariant i <= ndests && WalkDests(el, t, ndests - i) == |el|
      invariant dests + DestsAt(el, t, ndests - i) == DestsAt(el, a, ndests)
    {
      DestsSplit(el, t, ndests - i, dests);
      var d;
      d, t := ReadDest(el, t);
      dests := dests + [d];
      i := i + 1;
    }
  }

  method ReadPerr(el: seq<Byte>) returns (perr: Elem)
    requires |el| >= 2 && |el| == Size(el) && el[0] == ID_PERR && Accepted(el)
    ensures perr == Decode(el)
  {
    var dests := ReadDests(el, 4, el[3]);
    perr := Perr(el[2], dests);
  }

  method ReadRann(el: seq<Byte>) returns (rann: Elem)
    requires |el| >= 2 && |el| == Size(el) && el[0] == ID_RANN && Accepted(el)
    ensures rann == Decode(el)
  {
    rann := Rann(el[2], el[3], el[4], MacAt(el, 5), De32(el, 11), De32(el, 15), De32(el, 19));
  }

  /** Reads one whole element, or rejects it. */
  method ReadElement(ie: seq<Byte>) returns (found: bool, m: Elem)
    requires |ie| >= 2 && |ie| >= Size(ie) && CanCheck(ie) && (ie[0] == ID_RANN ==> ie[1] == RANN_LEN)
    ensures found == Accepted(ie[..Size(ie)]) && (found ==> m == Decode(ie[..Size(ie)]))
  {
    found, m := false, Perr(0, []);
    var el := ie[..Size(ie)];
    if ie[0] == ID_PREQ {
      var ndest := VerifyPreqLen(ie);
      if ndest >= 0 {
        m := ReadPreq(el);
        found := true;
      }
    } else if ie[0] == ID_PREP {
      var ok := VerifyPrepLen(ie);
      if ok >= 0 {
        m := ReadPrep(el);
        found := true;
      }
    } else if ie[0] == ID_PERR {
      var ndest := VerifyPerrLen(ie);
      if ndest >= 0 {
        m := ReadPerr(el);
        found := true;
      }
    } else if ie[0] == ID_RANN {
      m := ReadRann(el);
      found := true;
    }
  }

  lemma ElementsStop(mem: seq<Byte>, a: nat, len: nat, msgs: seq<Elem>)
    requires a <= len <= |mem|
    requires len - a <= 1 || len - a < Size(mem[a..]) || (mem[a] == ID_RANN && mem[a + 1] != RANN_LEN)
    ensures msgs + Elements(mem[a..len]) == msgs
  {
    var frm := mem[a..len];
    if len - a > 1 {
      assert frm[0] == mem[a] && frm[1] == mem[a + 1];
    }
    assert Elements(frm) == [];
  }

  lemma ElementsSkip(mem: seq<Byte>, a: nat, len: nat, ie: seq<Byte>, el: seq<Byte>, next: nat, msgs: seq<Elem>)
    requires a + 1 < len <= |mem| && ie == mem[a..] && next == a + Size(ie) <= len && el == ie[..Size(ie)]
    requires ie[0] == ID_RANN ==> ie[1] == RANN_LEN
    ensures msgs + Elements(mem[a..len]) == (if Accepted(el) then msgs + [Decode(el)] else msgs) + Elements(mem[next..len])
  {
    var frm := mem[a..len];
    var rest := mem[next..len];
    assert frm[0] == ie[0] && frm[1] == ie[1];
    assert frm[..Size(frm)] == el;
    assert frm[Size(frm)..] == rest;
    ElementsPush(msgs, if Accepted(el) then [Decode(el)] else [], Elements(rest));
  }

  lemma ElementsPush(msgs: seq<Elem>, x: seq<Elem>, rest: seq<Elem>)
    ensures msgs + (x + rest) == (msgs + x) + rest && msgs + [] == msgs
  {
  }

  /** Reads the `len` octets of elements at the start of memory. What lies
      after them may be looked at, and makes no difference. */
  method RecvAction(mem: seq<Byte>, len: nat) returns (msgs: seq<Elem>)
    requires len <= |mem| && CanParse(mem, 0, len)
    ensures msgs == Elements(mem[..len])
  {
    msgs := [];
    var iefrm: nat := 0;
    assert mem[0..len] == mem[..len] && msgs + Elements(mem[..len]) == Elements(mem[..len]);
    while len - iefrm > 1
      invariant iefrm <= len && CanParse(mem, iefrm, len)
      invariant msgs + Elements(mem[iefrm..len]) == Elements(mem[..len])
    {
      var ie := mem[iefrm..];
      if len - iefrm < Size(ie) {
        break;
      }
      if ie[0] == ID_RANN && ie[1] != RANN_LEN {
        break;
      }
      var found, m := ReadElement(ie);
      var next: nat := iefrm + Size(ie);
      ElementsSkip(mem, iefrm, len, ie, ie[..Size(ie)], next, msgs);
      if found {
        msgs := msgs + [m];
      }
      iefrm := next;
    }
    ElementsStop(mem, iefrm, len, msgs);
  }
}
