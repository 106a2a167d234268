/** Michael over a chain of buffers, read where they lie. */
module Michael {
  import opened Octets
  import opened Mbufs
  import opened MichaelSpec

  type Bufs = seq<seq<Byte>>

  // ---- where words lie ----------------------------------------------------

  function Min(a: nat, b: nat): nat { if a <= b then a else b }

  /** `n` octets from `start` on lie in `k` buffers in a row. */
  ghost predicate Within(cs: Bufs, start: nat, n: nat, k: nat) {
    exists m: nat :: m < |cs| && At(cs, m) <= start && start + n <= At(cs, Min(m + k, |cs|))
  }

  /** There are `len` octets; no word of them touches more than two buffers, and
      a part word at the end lies in one. */
  ghost predicate Walkable(cs: Bufs, off: nat, len: nat) {
    && off + len <= |Flat(cs)|
    && (forall w: nat :: 4 * w + 4 <= len ==> Within(cs, off + 4 * w, 4, 2))
    && (len % 4 != 0 ==> Within(cs, off + (len - len % 4), len % 4, 1))
  }

  lemma {:induction false} AtGrows(cs: Bufs, m: nat, n: nat)
    requires m <= n <= |cs|
    ensures At(cs, m) <= At(cs, n)
  {
    if m < n {
      AtGrows(cs, m, n - 1);
      AtNext(cs, n - 1);
    }
  }

  lemma AtTotal(cs: Bufs)
    ensures At(cs, |cs|) == |Flat(cs)|
  {
    assert cs[..|cs|] == cs;
  }

  /** An octet of a buffer is that octet of the packet. */
  lemma FlatAt(cs: Bufs, m: nat, i: nat)
    requires m < |cs| && i < |cs[m]|
    ensures At(cs, m) + i < |Flat(cs)| && Flat(cs)[At(cs, m) + i] == cs[m][i]
  {
    FlatUpdate(cs, m, cs[m]);
    var a := At(cs, m);
    assert Flat(cs)[a..a + |cs[m]|][i] == cs[m][i];
  }

  /** A stretch that starts in buffer `m` lies in `k` buffers in a row exactly
      when it ends before the `k`th after. */
  lemma WithinFrom(cs: Bufs, m: nat, p: nat, n: nat, k: nat)
    requires m < |cs| && p < |cs[m]|
    ensures Within(cs, At(cs, m) + p, n, k) <==> At(cs, m) + p + n <= At(cs, Min(m + k, |cs|))
  {
    var start := At(cs, m) + p;
    if Within(cs, start, n, k) {
      var j: nat :| j < |cs| && At(cs, j) <= start && start + n <= At(cs, Min(j + k, |cs|));
      AtNext(cs, m);
      if j > m {
        AtGrows(cs, m + 1, j);
        assert false;
      }
      AtGrows(cs, Min(j + k, |cs|), Min(m + k, |cs|));
    }
  }

  // ---- the walk -----------------------------------------------------------

  /** `k` words from `off` on lie in at most two buffers each. */
  ghost predicate Fine(cs: Bufs, off: nat, k: nat) {
    k == 0 || (Fine(cs, off, k - 1) && Within(cs, off + 4 * (k - 1), 4, 2))
  }

  lemma {:induction false} FineEach(cs: Bufs, off: nat, k: nat)
    ensures Fine(cs, off, k) <==> forall w: nat :: w < k ==> Within(cs, off + 4 * w, 4, 2)
  {
    if k > 0 {
      FineEach(cs, off, k - 1);
    }
  }

  /** `k` words are hashed, and the next octet is at `p` in buffer `m`. */
  ghost predicate Reached(h: Hash, m0: Mic, cs: Bufs, off: nat, k: nat, m: nat, p: nat, mic: Mic) {
    && m < |cs| && p <= |cs[m]| && At(cs, m) + p == off + 4 * k && off + 4 * k <= |Flat(cs)|
    && mic == Words(h, m0, Flat(cs), off, k)
  }

  /** One more word, its octets found in one buffer or two. */
  lemma OneMore(h: Hash, m0: Mic, f: seq<Byte>, off: nat, k: nat, mic: Mic, i: nat, b0: Byte, b1: Byte, b2: Byte, b3: Byte)
    requires i == off + 4 * k && i + 4 <= |f| && mic == Words(h, m0, f, off, k)
    requires f[i] == b0 && f[i + 1] == b1 && f[i + 2] == b2 && f[i + 3] == b3
    ensures Words(h, m0, f, off, k + 1) == h.b(h.x(mic, b0, b1, b2, b3))
  {
  }

  lemma FineNext(cs: Bufs, off: nat, k: nat, m: nat, p: nat)
    requires Fine(cs, off, k) && m < |cs| && p < |cs[m]| && At(cs, m) + p == off + 4 * k
    requires At(cs, m) + p + 4 <= At(cs, Min(m + 2, |cs|))
    ensures Fine(cs, off, k + 1)
  {
    WithinFrom(cs, m, p, 4, 2);
  }

  lemma RoomHere(cs: Bufs, m: nat, p: nat)
    requires m < |cs| && p <= |cs[m]|
    ensures At(cs, m) + p <= At(cs, Min(m + 2, |cs|)) && At(cs, m) + p <= |Flat(cs)|
  {
    AtNext(cs, m);
    AtGrows(cs, m + 1, Min(m + 2, |cs|));
    AtGrows(cs, m + 1, |cs|);
    AtTotal(cs);
  }

  /** A word that lies in one buffer. */
  lemma OneHere(h: Hash, m0: Mic, cs: Bufs, off: nat, k: nat, m: nat, p: nat, mic: Mic)
    requires Reached(h, m0, cs, off, k, m, p, mic) && Fine(cs, off, k) && p + 4 <= |cs[m]|
    ensures Reached(h, m0, cs, off, k + 1, m, p + 4, h.b(h.x(mic, cs[m][p], cs[m][p + 1], cs[m][p + 2], cs[m][p + 3])))
    ensures Fine(cs, off, k + 1)
  {
    RoomHere(cs, m, p + 4);
    FlatAt(cs, m, p);
    FlatAt(cs, m, p + 1);
    FlatAt(cs, m, p + 2);
    FlatAt(cs, m, p + 3);
    OneMore(h, m0, Flat(cs), off, k, mic, At(cs, m) + p, cs[m][p], cs[m][p + 1], cs[m][p + 2], cs[m][p + 3]);
    FineNext(cs, off, k, m, p);
  }

  /** Octet `i` of a word that starts at `p` in one buffer and ends in the next. */
  function Across(d: seq<Byte>, p: nat, e: seq<Byte>, i: nat): Byte
    requires p <= |d| && p + i < |d| + |e|
  {
    if p + i < |d| then d[p + i] else e[p + i - |d|]
  }

  lemma AcrossIs(cs: Bufs, m: nat, p: nat, i: nat)
    requires m + 1 < |cs| && p <= |cs[m]| && p + i < |cs[m]| + |cs[m + 1]|
    ensures At(cs, m) + p + i < |Flat(cs)| && Flat(cs)[At(cs, m) + p + i] == Across(cs[m], p, cs[m + 1], i)
  {
    AtNext(cs, m);
    if p + i < |cs[m]| {
      FlatAt(cs, m, p + i);
    } else {
      FlatAt(cs, m + 1, p + i - |cs[m]|);
    }
  }

  /** A word that starts in one buffer and ends in the next. */
  lemma OneAcross(h: Hash, m0: Mic, cs: Bufs, off: nat, k: nat, m: nat, p: nat, mic: Mic, q: nat,
                  b0: Byte, b1: Byte, b2: Byte, b3: Byte)
    requires Reached(h, m0, cs, off, k, m, p, mic) && Fine(cs, off, k)
    requires m + 1 < |cs| && p < |cs[m]| && p + 4 == |cs[m]| + q && q <= |cs[m + 1]|
    requires var d, e := cs[m], cs[m + 1];
             b0 == Across(d, p, e, 0) && b1 == Across(d, p, e, 1) && b2 == Across(d, p, e, 2) && b3 == Across(d, p, e, 3)
    ensures Reached(h, m0, cs, off, k + 1, m + 1, q, h.b(h.x(mic, b0, b1, b2, b3))) && Fine(cs, off, k + 1)
  {
    AtNext(cs, m);
    AtNext(cs, m + 1);
    AcrossIs(cs, m, p, 0);
    AcrossIs(cs, m, p, 1);
    AcrossIs(cs, m, p, 2);
    AcrossIs(cs, m, p, 3);
    OneMore(h, m0, Flat(cs), off, k, mic, At(cs, m) + p, b0, b1, b2, b3);
    FineNext(cs, off, k, m, p);
  }

  /** Hashes the whole words that lie in one buffer. */
  method WordsHere(h: Hash, ghost m0: Mic, cs: Bufs, ghost off: nat, ghost k: nat, m: nat, p: nat, space: nat,
                   left: nat, mic: Mic)
    returns (at: nat, rest: nat, now: nat, out: Mic, ghost n: nat)
    requires Reached(h, m0, cs, off, k, m, p, mic) && Fine(cs, off, k) && p + space <= |cs[m]| && space <= left
    ensures rest < 4 && at + rest == p + space && 4 * n + now == 4 * k + left && now - rest == left - space
    ensures Reached(h, m0, cs, off, n, m, at, out) && Fine(cs, off, n)
  {
    at, rest, now, out, n := p, space, left, mic, k;
    while rest >= 4
      invariant at + rest == p + space && 4 * n + now == 4 * k + left && now - rest == left - space
      invariant Reached(h, m0, cs, off, n, m, at, out) && Fine(cs, off, n)
    {
      OneHere(h, m0, cs, off, n, m, at, out);
      out := h.b(h.x(out, cs[m][at], cs[m][at + 1], cs[m][at + 2], cs[m][at + 3]));
      at, rest, now, n := at + 4, rest - 4, now - 4, n + 1;
    }
  }

  /** Hashes the word that starts with the last `space` octets of one buffer and
      ends in the next. */
  method Straddle(h: Hash, ghost m0: Mic, cs: Bufs, ghost off: nat, ghost k: nat, m: nat, p: nat, space: nat, mic: Mic)
    returns (out: Mic)
    requires Reached(h, m0, cs, off, k, m, p, mic) && Fine(cs, off, k) && 0 < space < 4 && p + space == |cs[m]|
    requires m + 1 < |cs| && |cs[m + 1]| >= 4 - space
    ensures Reached(h, m0, cs, off, k + 1, m + 1, 4 - space, out) && Fine(cs, off, k + 1)
  {
    var d, e := cs[m], cs[m + 1];
    if space == 1 {
      OneAcross(h, m0, cs, off, k, m, p, mic, 3, d[p], e[0], e[1], e[2]);
      out := h.x(mic, d[p], e[0], e[1], e[2]);
    } else if space == 2 {
      OneAcross(h, m0, cs, off, k, m, p, mic, 2, d[p], d[p + 1], e[0], e[1]);
      out := h.x(mic, d[p], d[p + 1], e[0], e[1]);
    } else {
      OneAcross(h, m0, cs, off, k, m, p, mic, 1, d[p], d[p + 1], d[p + 2], e[0]);
      out := h.x(mic, d[p], d[p + 1], d[p + 2], e[0]);
    }
    out := h.b(out);
  }

  /** The last word and its padding, and the block function once more. */
  method Finish(h: Hash, mic: Mic, t: seq<Byte>) returns (out: Mic)
    requires |t| < 4
    ensures out == h.b(h.b(LastWord(h, mic, t)))
  {
    if |t| == 0 {
      out := h.x(mic, 0x5a, 0, 0, 0);
    } else if |t| == 1 {
      out := h.x(mic, t[0], 0x5a, 0, 0);
    } else if |t| == 2 {
      out := h.x(mic, t[0], t[1], 0x5a, 0);
    } else {
      out := h.x(mic, t[0], t[1], t[2], 0x5a);
    }
    out := h.b(out);
    out := h.b(out);
  }

  // ---- where the walk can fail --------------------------------------------

  lemma RunsOut(cs: Bufs, off: nat, len: nat, m: nat, p: nat, k: nat, space: nat)
    requires m + 1 == |cs| && At(cs, m) + p == off + 4 * k && p + space == |cs[m]| && 4 * k + space < len
    ensures !Walkable(cs, off, len)
  {
    AtNext(cs, m);
    AtTotal(cs);
  }

  lemma WordTooWide(cs: Bufs, off: nat, len: nat, m: nat, p: nat, k: nat, space: nat)
    requires m + 1 < |cs| && At(cs, m) + p == off + 4 * k && p + space == |cs[m]| && space > 0
    requires 4 * k + 4 <= len && |cs[m + 1]| < 4 - space
    ensures !Walkable(cs, off, len)
  {
    AtNext(cs, m);
    AtNext(cs, m + 1);
    WithinFrom(cs, m, p, 4, 2);
  }

  /** The part word at the end lies in this buffer, or the message is not walkable. */
  lemma EndWord(cs: Bufs, off: nat, len: nat, m: nat, p: nat, k: nat, space: nat, left: nat)
    requires m < |cs| && At(cs, m) + p == off + 4 * k && Fine(cs, off, k) && 4 * k + left == len && left < 4
    requires left == 0 || space > 0
    requires space <= left && p + space <= |cs[m]| && (space < left ==> p + space == |cs[m]|)
    ensures Walkable(cs, off, len) <==> left <= space
  {
    RoomHere(cs, m, p + space);
    WalkableIs(cs, off, len, k, left);
    if left > 0 {
      var next := Min(m + 1, |cs|);
      AtNext(cs, m);
      WithinFrom(cs, m, p, left, 1);
      assert At(cs, next) == At(cs, m) + |cs[m]|;
    }
  }

  /** All but the last few octets being hashed, what the rest must meet. */
  lemma WalkableIs(cs: Bufs, off: nat, len: nat, k: nat, left: nat)
    requires Fine(cs, off, k) && 4 * k + left == len && left < 4
    ensures Walkable(cs, off, len) <==> off + len <= |Flat(cs)| && (left == 0 || Within(cs, off + 4 * k, left, 1))
  {
    WholeWords(cs, off, len, k);
    assert len % 4 == left;
    if left > 0 {
      PartWord(cs, off, len, k, left);
    }
  }

  lemma WholeWords(cs: Bufs, off: nat, len: nat, k: nat)
    requires Fine(cs, off, k) && 4 * k <= len < 4 * k + 4
    ensures forall w: nat :: 4 * w + 4 <= len ==> Within(cs, off + 4 * w, 4, 2)
  {
    FineEach(cs, off, k);
  }

  lemma PartWord(cs: Bufs, off: nat, len: nat, k: nat, left: nat)
    requires 4 * k + left == len && 0 < left < 4
    ensures Within(cs, off + (len - len % 4), len % 4, 1) <==> Within(cs, off + 4 * k, left, 1)
  {
    assert len % 4 == left;
  }

  // ---- the whole message --------------------------------------------------

  /** Hashed up to here, with `left` of `len` octets to go. */
  ghost predicate Going(h: Hash, m0: Mic, cs: Bufs, off: nat, len: nat, k: nat, m: nat, p: nat, left: nat, mic: Mic) {
    Reached(h, m0, cs, off, k, m, p, mic) && Fine(cs, off, k) && 4 * k + left == len
  }

  /** From one buffer, whose words are hashed, to the next. */
  method Onward(h: Hash, ghost m0: Mic, cs: Bufs, ghost off: nat, ghost len: nat, ghost k: nat, m: nat, p: nat,
                space: nat, left: nat, mic: Mic)
    returns (ok: bool, to: nat, now: nat, out: Mic, ghost n: nat)
    requires Going(h, m0, cs, off, len, k, m, p, left, mic) && p + space == |cs[m]| && space < 4
    requires left > 0 && (left >= 4 || space == 0)
    ensures ok ==> m + 1 < |cs| && Going(h, m0, cs, off, len, n, m + 1, to, now, out)
    ensures !ok ==> !Walkable(cs, off, len)
  {
    ok, to, now, out, n := false, 0, left, mic, k;
    if m + 1 == |cs| {
      RunsOut(cs, off, len, m, p, k, space);
    } else if space == 0 {
      AtNext(cs, m);
      ok := true;
    } else if |cs[m + 1]| < 4 - space {
      WordTooWide(cs, off, len, m, p, k, space);
    } else {
      out := Straddle(h, m0, cs, off, k, m, p, space, mic);
      ok, to, now, n := true, 4 - space, left - 4, k + 1;
    }
  }

  /** All of a turn that happens in one buffer. */
  method Here(h: Hash, ghost m0: Mic, cs: Bufs, ghost off: nat, ghost len: nat, ghost k: nat, m: nat, p: nat,
              left: nat, mic: Mic)
    returns (at: nat, space: nat, now: nat, out: Mic, ghost n: nat)
    requires Going(h, m0, cs, off, len, k, m, p, left, mic)
    ensures Going(h, m0, cs, off, len, n, m, at, now, out) && space < 4
    ensures space <= now && at + space <= |cs[m]| && (space < now ==> at + space == |cs[m]|)
  {
    space := Min(|cs[m]| - p, left);
    at, space, now, out, n := WordsHere(h, m0, cs, off, k, m, p, space, left, mic);
  }

  method Tail(h: Hash, ghost m0: Mic, cs: Bufs, ghost off: nat, ghost len: nat, ghost k: nat, m: nat, p: nat,
              space: nat, left: nat, mic: Mic)
    returns (ok: bool, out: Mic)
    requires ZeroFree(h) && Going(h, m0, cs, off, len, k, m, p, left, mic)
    requires left < 4 && (left == 0 || space > 0)
    requires space <= left && p + space <= |cs[m]| && (space < left ==> p + space == |cs[m]|)
    ensures ok <==> Walkable(cs, off, len)
    ensures ok ==> out == Flattened(h, m0, Flat(cs)[off..off + len])
  {
    EndWord(cs, off, len, m, p, k, space, left);
    ok, out := left <= space, mic;
    if ok {
      var t := cs[m][p..p + left];
      FlatPiece(cs, m, p, left);
      WordsThenEnd(h, m0, Flat(cs), off, len, k, mic, t);
      out := Finish(h, mic, t);
    }
  }

  /** The code of `len` octets from `off` on. It is that of the flat message,
      and is computed exactly when the chain can be walked. */
  method Hashed(h: Hash, m0: Mic, cs: Bufs, off: nat, len: nat) returns (ok: bool, mic: Mic)
    requires ZeroFree(h) && cs != [] && off <= |cs[0]|
    ensures ok <==> Walkable(cs, off, len)
    ensures ok ==> mic == Flattened(h, m0, Flat(cs)[off..off + len])
  {
    RoomHere(cs, 0, off);
    var m: nat, p: nat, left: nat, space: nat := 0, off, len, 0;
    ghost var k: nat := 0;
    mic := m0;
    while true
      invariant Going(h, m0, cs, off, len, k, m, p, left, mic)
      decreases |cs| - m
    {
      p, space, left, mic, k := Here(h, m0, cs, off, len, k, m, p, left, mic);
      if left == 0 || (left < 4 && space != 0) {
        break;
      }
      ok, p, left, mic, k := Onward(h, m0, cs, off, len, k, m, p, space, left, mic);
      if !ok {
        return;
      }
      m := m + 1;
    }
    ok, mic := Tail(h, m0, cs, off, len, k, m, p, space, left, mic);
  }

  lemma WordsThenEnd(h: Hash, m0: Mic, f: seq<Byte>, off: nat, len: nat, k: nat, mic: Mic, t: seq<Byte>)
    requires ZeroFree(h) && off + len <= |f| && 4 * k + |t| == len && |t| < 4 && f[off + 4 * k..off + len] == t
    requires mic == Words(h, m0, f, off, k)
    ensures h.b(h.b(LastWord(h, mic, t))) == Flattened(h, m0, f[off..off + len])
  {
    var s := f[off..off + len];
    assert s[4 * k..] == t;
    FlattenedIs(h, m0, f, off, s, k);
  }

  // ---- the code on the wire -----------------------------------------------

  type Octets4 = s: seq<Byte> | |s| == 4 witness [0, 0, 0, 0]

  /** Least significant octet first; the outer remainders only restate the range. */
  function PutLe32(v: bv32): Octets4 {
    [((v & 0xff) as int) % 256, (((v >> 8) & 0xff) as int) % 256, (((v >> 16) & 0xff) as int) % 256,
     (((v >> 24) & 0xff) as int) % 256]
  }

  function Code(m: Mic): seq<Byte> { PutLe32(m.l) + PutLe32(m.r) }

  function KeyMic(key: seq<Byte>): Mic
    requires |key| == 8
  {
    Mic(Le32(key[0], key[1], key[2], key[3]), Le32(key[4], key[5], key[6], key[7]))
  }

  /** The code of a flat message under a key and a 16-octet pseudo header. */
  function MicOf(key: seq<Byte>, hdr: seq<Byte>, s: seq<Byte>): seq<Byte>
    requires |key| == 8 && |hdr| == 16
  {
    Code(Flattened(MICHAEL, Words(MICHAEL, KeyMic(key), hdr, 0, 4), s))
  }

  method Header(h: Hash, m0: Mic, hdr: seq<Byte>) returns (m: Mic)
    requires |hdr| == 16
    ensures m == Words(h, m0, hdr, 0, 4)
  {
    m := h.b(h.x(m0, hdr[0], hdr[1], hdr[2], hdr[3]));
    assert m == Words(h, m0, hdr, 0, 1);
    m := h.b(h.x(m, hdr[4], hdr[5], hdr[6], hdr[7]));
    assert m == Words(h, m0, hdr, 0, 2);
    m := h.b(h.x(m, hdr[8], hdr[9], hdr[10], hdr[11]));
    assert m == Words(h, m0, hdr, 0, 3);
    m := h.b(h.x(m, hdr[12], hdr[13], hdr[14], hdr[15]));
  }

  /** The 8-octet code of `len` octets of a packet from `off` on. */
  method MichaelMic(key: seq<Byte>, hdr: seq<Byte>, cs: Bufs, off: nat, len: nat) returns (ok: bool, mic: seq<Byte>)
    requires |key| == 8 && |hdr| == 16 && cs != [] && off <= |cs[0]|
    ensures ok <==> Walkable(cs, off, len)
    ensures ok ==> mic == MicOf(key, hdr, Flat(cs)[off..off + len])
  {
    MichaelZeroFree();
    var m := Header(MICHAEL, KeyMic(key), hdr);
    ok, m := Hashed(MICHAEL, m, cs, off, len);
    mic := Code(m);
  }
}
