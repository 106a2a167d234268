/** Encryption and decryption in place over a chain of buffers, as the WEP and
    TKIP ciphers do it. The two walk the chain alike; they differ in whether
    the checksum sees an octet before or after the key stream is laid on it. */
module WepCipher {
  import opened Octets
  import opened Mbufs
  import opened WepSpec
  import Rc4

  /** `ks` is what RC4 puts out from state `t0` on. */
  ghost predicate Streams(t0: Rc4.State, ks: Stream) {
    forall n: nat :: ks(n) == Output(t0, n)
  }

  /** The key stream has been drawn up to octet `n`. */
  ghost predicate Drawn(e: Rc4.Engine, t0: Rc4.State, n: nat)
    reads e, e.s
  {
    e.Valid() && e.Abs() == Rc4.After(t0, n)
  }

  lemma {:induction false} OutputAfter(t0: Rc4.State, n: nat)
    ensures Output(t0, n) == Rc4.Out(Rc4.After(t0, n + 1)) && Rc4.After(t0, n + 1) == Rc4.Step(Rc4.After(t0, n))
    decreases n
  {
    if n > 0 {
      OutputAfter(Rc4.Step(t0), n - 1);
    }
  }

  /** One octet of key stream, at its place. */
  method Draw(e: Rc4.Engine, ghost t0: Rc4.State, ghost ks: Stream, ghost n: nat) returns (o: Byte)
    requires Drawn(e, t0, n) && Streams(t0, ks)
    modifies e, e.s
    ensures Drawn(e, t0, n + 1) && o == ks(n)
  {
    OutputAfter(t0, n);
    o := e.Next();
  }

  // ---- the work on a string -----------------------------------------------

  /** A string being worked on, and the remainder so far. */
  datatype Work = Work(s: seq<Byte>, crc: Remainder)

  /** One octet: taken into the checksum and masked, or masked and taken in. */
  function Do(c: Suite, enc: bool, o: Byte, w: Work, i: nat): (v: Work)
    requires i < |w.s|
    ensures |v.s| == |w.s|
  {
    var y := c.x(w.s[i], o);
    Work(w.s[i := y], c.u(w.crc, if enc then w.s[i] else y))
  }

  /** `k` octets from `at` on, under the key stream from octet `n` on. */
  function Done(c: Suite, ks: Stream, enc: bool, n: nat, w: Work, at: nat, k: nat): (v: Work)
    requires at + k <= |w.s|
    ensures |v.s| == |w.s|
  {
    if k == 0 then w else Do(c, enc, ks(n + (k - 1)), Done(c, ks, enc, n, w, at, k - 1), at + (k - 1))
  }

  lemma DoneNext(c: Suite, ks: Stream, enc: bool, n: nat, w: Work, at: nat, k: nat, k': nat)
    requires at + k < |w.s| && k' == k + 1
    ensures Done(c, ks, enc, n, w, at, k') == Do(c, enc, ks(n + k), Done(c, ks, enc, n, w, at, k), at + k)
  {
  }

  // ---- one buffer ---------------------------------------------------------

  method CryptOctet(c: Suite, e: Rc4.Engine, enc: bool, ghost t0: Rc4.State, ghost ks: Stream, ghost n: nat, buf: array<Byte>, i: nat,
                    r: Remainder)
    returns (crc: Remainder)
    requires Drawn(e, t0, n) && Streams(t0, ks) && i < buf.Length && buf != e.s
    modifies e, e.s, buf
    ensures Drawn(e, t0, n + 1) && Work(buf[..], crc) == Do(c, enc, ks(n), Work(old(buf[..]), r), i)
  {
    crc := r;
    if enc {
      crc := c.u(crc, buf[i]);
    }
    var o := Draw(e, t0, ks, n);
    buf[i] := c.x(buf[i], o);
    if !enc {
      crc := c.u(crc, buf[i]);
    }
  }

  method CryptBuffer(c: Suite, e: Rc4.Engine, enc: bool, ghost t0: Rc4.State, ghost ks: Stream, ghost n: nat, buf: array<Byte>, at: nat,
                     len: nat, crc0: Remainder)
    returns (crc: Remainder)
    requires Drawn(e, t0, n) && Streams(t0, ks) && at + len <= buf.Length && buf != e.s
    modifies e, e.s, buf
    ensures Drawn(e, t0, n + len)
    ensures Work(buf[..], crc) == Done(c, ks, enc, n, Work(old(buf[..]), crc0), at, len)
  {
    crc := crc0;
    ghost var w := Work(buf[..], crc0);
    var k := 0;
    while k < len
      invariant k <= len && Drawn(e, t0, n + k)
      invariant Work(buf[..], crc) == Done(c, ks, enc, n, w, at, k)
    {
      DoneNext(c, ks, enc, n, w, at, k, k + 1);
      crc := CryptOctet(c, e, enc, t0, ks, n + k, buf, at + k, crc);
      k := k + 1;
    }
  }

  // ---- from a buffer to the packet ----------------------------------------

  lemma PutDo(c: Suite, enc: bool, o: Byte, s: seq<Byte>, start: nat, w: Work, i: nat)
    requires start + |w.s| <= |s| && i < |w.s|
    ensures Do(c, enc, o, Work(Put(s, start, w.s), w.crc), start + i)
         == var v := Do(c, enc, o, w, i); Work(Put(s, start, v.s), v.crc)
  {
    var y := c.x(w.s[i], o);
    assert Put(s, start, w.s)[start + i := y] == Put(s, start, w.s[i := y]);
  }

  /** Work on the stretch a buffer lends to the packet is work on the packet. */
  lemma {:induction false} PutDone(c: Suite, ks: Stream, enc: bool, n: nat, s: seq<Byte>, start: nat, w: Work, pos: nat,
                                   l: nat)
    requires start + |w.s| <= |s| && pos + l <= |w.s|
    ensures Done(c, ks, enc, n, Work(Put(s, start, w.s), w.crc), start + pos, l)
         == var v := Done(c, ks, enc, n, w, pos, l); Work(Put(s, start, v.s), v.crc)
  {
    if l > 0 {
      PutDone(c, ks, enc, n, s, start, w, pos, l - 1);
      var v := Done(c, ks, enc, n, w, pos, l - 1);
      PutDo(c, enc, ks(n + (l - 1)), s, start, v, pos + (l - 1));
    }
  }

  lemma {:induction false} DoneOn(c: Suite, ks: Stream, enc: bool, n: nat, w: Work, at: nat, k: nat, l: nat)
    requires at + k + l <= |w.s|
    ensures Done(c, ks, enc, n, w, at, k + l) == Done(c, ks, enc, n + k, Done(c, ks, enc, n, w, at, k), at + k, l)
  {
    if l > 0 {
      DoneOn(c, ks, enc, n, w, at, k, l - 1);
      DoneNext(c, ks, enc, n, w, at, k + (l - 1), k + l);
    }
  }

  /** The next stretch of payload, in the buffer where it lies and in the packet. */
  lemma Splice(c: Suite, ks: Stream, enc: bool, w0: Work, off: nat, done: nat, cs: seq<seq<Byte>>, crc: Remainder,
               m: nat, pos: nat, l: nat, now: nat, v: Work)
    requires now == done + l && off + done <= |w0.s| && m < |cs| && pos + l <= |cs[m]|
    requires Work(Flat(cs), crc) == Done(c, ks, enc, 0, w0, off, done)
    requires v == Done(c, ks, enc, done, Work(cs[m], crc), pos, l)
    requires l == 0 || At(cs, m) + pos == off + done
    ensures off + now <= |w0.s|
    ensures Work(Flat(cs[m := v.s]), v.crc) == Done(c, ks, enc, 0, w0, off, now)
  {
    FlatPut(cs, m, v.s);
    if l == 0 {
      assert v == Work(cs[m], crc);
    } else {
      SpliceSome(c, ks, enc, w0, off, done, Flat(cs), At(cs, m), Work(cs[m], crc), pos, l, now, v);
    }
  }

  lemma SpliceSome(c: Suite, ks: Stream, enc: bool, w0: Work, off: nat, done: nat, f: seq<Byte>, start: nat, w: Work,
                   pos: nat, l: nat, now: nat, v: Work)
    requires start + |w.s| <= |f| && f == Put(f, start, w.s) && pos + l <= |w.s|
    requires now == done + l && off + now <= |w0.s| && start + pos == off + done
    requires Work(f, w.crc) == Done(c, ks, enc, 0, w0, off, done) && v == Done(c, ks, enc, done, w, pos, l)
    ensures Work(Put(f, start, v.s), v.crc) == Done(c, ks, enc, 0, w0, off, now)
  {
    PutDone(c, ks, enc, done, f, start, w, pos, l);
    SpliceJoin(c, ks, enc, w0, off, done, Work(f, w.crc), l, now);
  }

  lemma SpliceJoin(c: Suite, ks: Stream, enc: bool, w0: Work, off: nat, done: nat, w: Work, l: nat, now: nat)
    requires now == done + l && off + now <= |w0.s| && w == Done(c, ks, enc, 0, w0, off, done)
    ensures Done(c, ks, enc, done, w, off + done, l) == Done(c, ks, enc, 0, w0, off, now)
  {
    DoneOn(c, ks, enc, 0, w0, off, done, l);
  }

  // ---- the chain ----------------------------------------------------------

  /** The next `l` octets of payload lie in one buffer. */
  method CryptStretch(c: Suite, e: Rc4.Engine, enc: bool, ghost t0: Rc4.State, ghost ks: Stream, ghost w0: Work, ghost off: nat,
                      ghost done: nat, chain: Chain, ghost cs: seq<seq<Byte>>, m: nat, pos: nat, l: nat, r: Remainder)
    returns (crc: Remainder, ghost ns: seq<seq<Byte>>)
    requires Distinct(chain) && e.s !in chain && m < |chain| && Holds(chain, cs) && pos + l <= chain[m].Length
    requires l == 0 || Offset(chain, m) + pos == off + done
    requires Drawn(e, t0, done) && Streams(t0, ks) && off + done <= |w0.s|
    requires Work(Flat(cs), r) == Done(c, ks, enc, 0, w0, off, done)
    modifies e, e.s, chain[m]
    ensures Holds(chain, ns) && Drawn(e, t0, done + l) && off + done + l <= |w0.s|
    ensures Work(Flat(ns), crc) == Done(c, ks, enc, 0, w0, off, done + l)
  {
    AtIsOffset(chain, cs, m);
    assert Sole(chain, m);
    crc := CryptBuffer(c, e, enc, t0, ks, done, chain[m], pos, l, r);
    ns := cs[m := chain[m][..]];
    Splice(c, ks, enc, w0, off, done, cs, r, m, pos, l, done + l, Work(chain[m][..], crc));
  }

  function Min(a: nat, b: nat): nat { if a <= b then a else b }

  /** Where the walk along the chain stands: `left` of `len` octets are to do,
      and unless none are, the next is at `pos` in buffer `m`. */
  ghost predicate Standing(chain: Chain, off: nat, len: nat, m: nat, pos: nat, left: nat) {
    && m < |chain| && pos <= chain[m].Length && left <= len && pos == (if m == 0 then off else 0)
    && Offset(chain, m) + pos >= off + (len - left)
    && (left == 0 || Offset(chain, m) + pos == off + (len - left))
    && off + (len - left) <= Offset(chain, |chain|)
  }

  lemma StandingAtFirst(chain: Chain, off: nat, len: nat)
    requires chain != [] && off <= chain[0].Length
    ensures Standing(chain, off, len, 0, off, len)
  {
    OffsetAtMost(chain, 1);
  }

  /** `len` octets of payload that leave exactly a trailer, which is all in the last buffer. */
  ghost predicate TrailerFits(chain: Chain, off: nat, len: nat)
    requires chain != []
  {
    && off + len + 4 == Offset(chain, |chain|)
    && chain[|chain| - 1].Length >= 4 + (if |chain| == 1 then off else 0)
  }

  /** What the last buffer leaves. */
  ghost predicate AtEnd(chain: Chain, off: nat, len: nat, left: nat, end: nat)
    requires chain != []
  {
    && off <= Offset(chain, |chain|) && left == len - Min(len, Offset(chain, |chain|) - off)
    && end <= chain[|chain| - 1].Length
    && (TrailerFits(chain, off, len) ==> end + 4 == chain[|chain| - 1].Length)
  }

  lemma OffsetNext(chain: Chain, m: nat, next: nat)
    requires m < |chain| && next == m + 1
    ensures Offset(chain, next) == Offset(chain, m) + chain[m].Length && Offset(chain, next) <= Offset(chain, |chain|)
  {
    OffsetAtMost(chain, next);
  }

  lemma StandingNext(chain: Chain, off: nat, len: nat, m: nat, next: nat, pos: nat, left: nat, l: nat)
    requires Standing(chain, off, len, m, pos, left) && l == Min(chain[m].Length - pos, left)
    requires next == m + 1 < |chain|
    ensures Standing(chain, off, len, next, 0, left - l)
  {
    OffsetNext(chain, m, next);
    InnerPart(Offset(chain, m), chain[m].Length, Offset(chain, next), off, len, pos, left, l);
  }

  lemma StandingEnds(chain: Chain, off: nat, len: nat, m: nat, next: nat, pos: nat, left: nat, l: nat)
    requires Standing(chain, off, len, m, pos, left) && l == Min(chain[m].Length - pos, left)
    requires next == m + 1 == |chain|
    ensures AtEnd(chain, off, len, left - l, pos + l)
  {
    OffsetNext(chain, m, next);
    LastPart(Offset(chain, m), chain[m].Length, Offset(chain, |chain|), off, len, pos, left, l);
  }

  lemma InnerPart(start: nat, size: nat, next: nat, off: nat, len: nat, pos: nat, left: nat, l: nat)
    requires start + size == next && pos <= size && left <= len && l == Min(size - pos, left)
    requires start + pos >= off + (len - left) && (left == 0 || start + pos == off + (len - left))
    ensures l <= left && next >= off + (len - (left - l)) && (left - l == 0 || next == off + (len - (left - l)))
  {
  }

  lemma LastPart(start: nat, size: nat, total: nat, off: nat, len: nat, pos: nat, left: nat, l: nat)
    requires start + size == total && pos <= size && left <= len && l == Min(size - pos, left) && off <= total
    requires start + pos >= off + (len - left) && (left == 0 || start + pos == off + (len - left))
    ensures left - l == len - Min(len, total - off)
    ensures off + len + 4 == total && size >= 4 + pos ==> pos + l + 4 == size
  {
  }

  /** The payload's part in one buffer. */
  method CryptPart(c: Suite, e: Rc4.Engine, enc: bool, ghost t0: Rc4.State, ghost ks: Stream, ghost w0: Work,
                   ghost off: nat, ghost done: nat, chain: Chain, ghost cs: seq<seq<Byte>>, m: nat, pos: nat, left: nat,
                   r: Remainder)
    returns (l: nat, ghost now: nat, crc: Remainder, ghost ns: seq<seq<Byte>>)
    requires Distinct(chain) && e.s !in chain && m < |chain| && Holds(chain, cs) && pos <= chain[m].Length
    requires Min(chain[m].Length - pos, left) == 0 || Offset(chain, m) + pos == off + done
    requires Drawn(e, t0, done) && Streams(t0, ks) && off + done <= |w0.s|
    requires Work(Flat(cs), r) == Done(c, ks, enc, 0, w0, off, done)
    modifies e, e.s, chain[m]
    ensures l == Min(chain[m].Length - pos, left) && now == done + l
    ensures Holds(chain, ns) && Drawn(e, t0, now) && off + now <= |w0.s|
    ensures Work(Flat(ns), crc) == Done(c, ks, enc, 0, w0, off, now)
  {
    l := chain[m].Length - pos;
    if l > left {
      l := left;
    }
    now := done + l;
    crc, ns := CryptStretch(c, e, enc, t0, ks, w0, off, done, chain, cs, m, pos, l, r);
  }

  /** Everything before buffer `m` is done. */
  ghost predicate Here(c: Suite, e: Rc4.Engine, enc: bool, t0: Rc4.State, ks: Stream, w0: Work, chain: Chain, off: nat,
                       len: nat, m: nat, pos: nat, left: nat, done: nat, cs: seq<seq<Byte>>, crc: Remainder)
    reads e, e.s, chain
  {
    && chain != [] && m <= |chain| && left <= len && done == len - left
    && (if m < |chain| then Standing(chain, off, len, m, pos, left) else AtEnd(chain, off, len, left, pos))
    && Holds(chain, cs) && Drawn(e, t0, done) && off + done <= |w0.s|
    && Work(Flat(cs), crc) == Done(c, ks, enc, 0, w0, off, done)
  }

  method CryptNext(c: Suite, e: Rc4.Engine, enc: bool, ghost t0: Rc4.State, ghost ks: Stream, ghost w0: Work,
                   ghost off: nat, ghost len: nat, ghost done: nat, chain: Chain, ghost cs: seq<seq<Byte>>, m: nat,
                   pos: nat, left: nat, r: Remainder)
    returns (to: nat, rest: nat, ghost now: nat, crc: Remainder, ghost ns: seq<seq<Byte>>)
    requires Distinct(chain) && e.s !in chain && Streams(t0, ks) && m < |chain|
    requires Here(c, e, enc, t0, ks, w0, chain, off, len, m, pos, left, done, cs, r)
    modifies e, e.s, chain[m]
    ensures Here(c, e, enc, t0, ks, w0, chain, off, len, m + 1, to, rest, now, ns, crc)
  {
    ghost var next := m + 1;
    if next < |chain| {
      StandingNext(chain, off, len, m, next, pos, left, Min(chain[m].Length - pos, left));
    } else {
      StandingEnds(chain, off, len, m, next, pos, left, Min(chain[m].Length - pos, left));
    }
    var l;
    l, now, crc, ns := CryptPart(c, e, enc, t0, ks, w0, off, done, chain, cs, m, pos, left, r);
    rest := left - l;
    to := if m + 1 < |chain| then 0 else pos + l;
  }

  /** Works `len` octets from `off` on, buffer by buffer, or as many as there
      are; `end` is where that stops in the last buffer. */
  method CryptPayload(c: Suite, e: Rc4.Engine, enc: bool, ghost t0: Rc4.State, ghost ks: Stream, chain: Chain, off: nat,
                      len: nat, ghost cs0: seq<seq<Byte>>)
    returns (left: nat, end: nat, ghost done: nat, crc: Remainder, ghost cs: seq<seq<Byte>>)
    requires Distinct(chain) && e.s !in chain && chain != [] && off <= chain[0].Length && Holds(chain, cs0)
    requires Drawn(e, t0, 0) && Streams(t0, ks) && off <= |Flat(cs0)|
    modifies e, e.s, chain
    ensures Here(c, e, enc, t0, ks, Work(Flat(cs0), START), chain, off, len, |chain|, end, left, done, cs, crc)
  {
    crc, left, end, done, cs := START, len, off, 0, cs0;
    StandingAtFirst(chain, off, len);
    var m := 0;
    while m < |chain|
      invariant m <= |chain|
      invariant Here(c, e, enc, t0, ks, Work(Flat(cs0), START), chain, off, len, m, end, left, done, cs, crc)
    {
      end, left, done, crc, cs := CryptNext(c, e, enc, t0, ks, Work(Flat(cs0), START), off, len, done, chain, cs, m,
                                            end, left, crc);
      m := m + 1;
    }
  }

  // ---- the two ciphers ----------------------------------------------------

  /** The plain octets of a stretch, whichever way it is going. */
  function Plain(c: Suite, ks: Stream, enc: bool, n: nat, s: seq<Byte>): seq<Byte> {
    if enc then s else Crypt(c, ks, n, s)
  }

  /** Octet by octet comes to the same as all at once, on the stretch `p`. */
  lemma {:induction false} DoneIs(c: Suite, ks: Stream, enc: bool, n: nat, w: Work, at: nat, k: nat, p: seq<Byte>)
    requires at + k <= |w.s| && p == w.s[at..at + k]
    ensures Done(c, ks, enc, n, w, at, k).s == Put(w.s, at, Crypt(c, ks, n, p))
    ensures Done(c, ks, enc, n, w, at, k).crc == Checksum(c, w.crc, Plain(c, ks, enc, n, p))
  {
    if k > 0 {
      var j := k - 1;
      var q, b := w.s[at..at + j], w.s[at + j];
      assert p == q + [b];
      DoneIs(c, ks, enc, n, w, at, j, q);
      DoneNext(c, ks, enc, n, w, at, j, k);
      DoneIsNext(c, ks, enc, n, w, at, j, Done(c, ks, enc, n, w, at, j), q, b);
    }
  }

  lemma DoneIsNext(c: Suite, ks: Stream, enc: bool, n: nat, w: Work, at: nat, k: nat, v: Work, p: seq<Byte>, b: Byte)
    requires at + k < |w.s| && |p| == k && w.s[at + k] == b && v.s == Put(w.s, at, Crypt(c, ks, n, p))
    requires v.crc == Checksum(c, w.crc, Plain(c, ks, enc, n, p))
    ensures var u, q := Do(c, enc, ks(n + k), v, at + k), p + [b];
            u.s == Put(w.s, at, Crypt(c, ks, n, q)) && u.crc == Checksum(c, w.crc, Plain(c, ks, enc, n, q))
  {
    PutNext(w.s, at, Crypt(c, ks, n, p), c.x(b, ks(n + k)));
    CryptSnoc(c, ks, n, p, b);
    ChecksumSnoc(c, w.crc, Plain(c, ks, enc, n, p), if enc then b else c.x(b, ks(n + k)));
  }

  lemma CryptNext4(c: Suite, ks: Stream, n: nat, s: Four, k: nat)
    requires k < 4
    ensures Crypt(c, ks, n, s[..k + 1]) == Crypt(c, ks, n, s[..k]) + [c.x(s[k], ks(n + k))]
  {
    assert s[..k + 1] == s[..k] + [s[k]];
    CryptSnoc(c, ks, n, s[..k], s[k]);
  }

  /** The checksum's four octets go out under the key stream too. */
  method EncryptTrailer(c: Suite, e: Rc4.Engine, ghost t0: Rc4.State, ghost ks: Stream, ghost n: nat, plain: Four)
    returns (icv: seq<Byte>)
    requires Drawn(e, t0, n) && Streams(t0, ks)
    modifies e, e.s
    ensures icv == Crypt(c, ks, n, plain)
  {
    icv := [];
    var k: nat := 0;
    while k < 4
      invariant k <= 4 && Drawn(e, t0, n + k) && icv == Crypt(c, ks, n, plain[..k])
    {
      CryptNext4(c, ks, n, plain, k);
      var o := Draw(e, t0, ks, n + k);
      icv := icv + [c.x(plain[k], o)];
      k := k + 1;
    }
    assert plain[..4] == plain;
  }

  /** The checksum's four octets, encrypted, are compared with what was received. */
  method CheckTrailer(c: Suite, e: Rc4.Engine, ghost t0: Rc4.State, ghost ks: Stream, ghost n: nat, plain: Four,
                      buf: array<Byte>, at: nat)
    returns (ok: bool)
    requires Drawn(e, t0, n) && Streams(t0, ks) && at + 4 <= buf.Length && buf != e.s
    modifies e, e.s
    ensures ok <==> buf[at..at + 4] == Crypt(c, ks, n, plain)
  {
    ghost var want := Crypt(c, ks, n, plain);
    ok := true;
    var k: nat := 0;
    while k < 4
      invariant k <= 4 && Drawn(e, t0, n + k) && buf[at..at + k] == Crypt(c, ks, n, plain[..k])
    {
      CryptNext4(c, ks, n, plain, k);
      CryptPrefix(c, ks, n, plain, k + 1);
      var o := Draw(e, t0, ks, n + k);
      if c.x(plain[k], o) != buf[at + k] {
        assert want[k] == Crypt(c, ks, n, plain[..k + 1])[k];
        assert buf[at..at + 4][k] != want[k];
        return false;
      }
      assert buf[at..at + (k + 1)] == buf[at..at + k] + [buf[at + k]];
      k := k + 1;
    }
    assert plain[..4] == plain;
  }

  lemma {:induction false} CryptPrefix(c: Suite, ks: Stream, n: nat, s: seq<Byte>, k: nat)
    requires k <= |s|
    ensures Crypt(c, ks, n, s)[..k] == Crypt(c, ks, n, s[..k])
    decreases |s|
  {
    if k == |s| {
      assert s[..k] == s;
    } else {
      CryptPrefix(c, ks, n, s[..|s| - 1], k);
      assert s[..|s| - 1][..k] == s[..k];
    }
  }

  lemma StreamsItself(t0: Rc4.State)
    ensures Streams(t0, StreamOf(t0))
  {
  }

  /** What encryption makes of packet `f`: `len` octets from `off` on under the
      key stream, and the checksum under what follows; with too few octets, all
      there are and no checksum. */
  ghost predicate Sent(c: Suite, ks: Stream, f: seq<Byte>, off: nat, len: nat, g: seq<Byte>, ok: bool, icv: seq<Byte>) {
    && off <= |f| && ok == (len <= |f| - off)
    && var n := Min(len, |f| - off);
    && g == Put(f, off, Crypt(c, ks, 0, f[off..off + n]))
    && (ok ==> icv == Crypt(c, ks, len, Icv(c, f[off..off + n])))
  }

  /** At the end of the chain all octets there are, up to `len`, are done. */
  lemma EndDone(c: Suite, e: Rc4.Engine, enc: bool, t0: Rc4.State, ks: Stream, chain: Chain, off: nat, len: nat,
                end: nat, left: nat, done: nat, cs0: seq<seq<Byte>>, cs: seq<seq<Byte>>, crc: Remainder)
    requires off <= |Flat(cs0)| == Offset(chain, |chain|)
    requires Here(c, e, enc, t0, ks, Work(Flat(cs0), START), chain, off, len, |chain|, end, left, done, cs, crc)
    ensures var f := Flat(cs0); var p := f[off..off + done];
            && done == Min(len, |f| - off) && left == len - done
            && Flat(cs) == Put(f, off, Crypt(c, ks, 0, p)) && crc == Checksum(c, START, Plain(c, ks, enc, 0, p))
    ensures TrailerFits(chain, off, len) ==> end + 4 == chain[|chain| - 1].Length
    ensures Drawn(e, t0, done) && Holds(chain, cs) && end <= chain[|chain| - 1].Length
  {
    var f := Flat(cs0);
    DoneIs(c, ks, enc, 0, Work(f, START), off, done, f[off..off + done]);
  }

  /** The checksum goes out after a payload that was all there. */
  method SendTrailer(c: Suite, e: Rc4.Engine, ghost t0: Rc4.State, ghost ks: Stream, chain: Chain, ghost f: seq<Byte>,
                     ghost off: nat, ghost len: nat, left: nat, ghost done: nat, crc: Remainder, ghost cs: seq<seq<Byte>>)
    returns (ok: bool, icv: seq<Byte>)
    requires e.s !in chain && Holds(chain, cs) && Drawn(e, t0, done) && Streams(t0, ks)
    requires off <= |f| && done == Min(len, |f| - off) && left == len - done
    requires Flat(cs) == Put(f, off, Crypt(c, ks, 0, f[off..off + done])) && crc == Checksum(c, START, f[off..off + done])
    modifies e, e.s
    ensures Holds(chain, cs) && Sent(c, ks, f, off, len, Flat(cs), ok, icv)
  {
    ok := left == 0;
    icv := [];
    if ok {
      icv := EncryptTrailer(c, e, t0, ks, done, c.icv(crc));
    }
  }

  method EncryptFrom(c: Suite, e: Rc4.Engine, ghost t0: Rc4.State, ghost ks: Stream, chain: Chain, off: nat, len: nat,
                     ghost cs0: seq<seq<Byte>>)
    returns (ok: bool, icv: seq<Byte>, ghost cs: seq<seq<Byte>>)
    requires Distinct(chain) && e.s !in chain && chain != [] && off <= chain[0].Length && Holds(chain, cs0)
    requires Drawn(e, t0, 0) && Streams(t0, ks) && off <= |Flat(cs0)|
    modifies e, e.s, chain
    ensures Holds(chain, cs) && Sent(c, ks, Flat(cs0), off, len, Flat(cs), ok, icv)
  {
    FlatSize(chain, cs0);
    var left, end, crc;
    ghost var done;
    left, end, done, crc, cs := CryptPayload(c, e, true, t0, ks, chain, off, len, cs0);
    EndDone(c, e, true, t0, ks, chain, off, len, end, left, done, cs0, cs, crc);
    ok, icv := SendTrailer(c, e, t0, ks, chain, Flat(cs0), off, len, left, done, crc, cs);
  }

  /** Encrypts in place `len` octets of the packet from `off` on and returns the
      encrypted checksum to append, unless the chain runs out of data. */
  method Encrypt(key: seq<Byte>, chain: Chain, off: nat, len: nat) returns (ok: bool, icv: seq<Byte>)
    requires key != [] && Distinct(chain) && chain != [] && off <= chain[0].Length
    modifies chain
    ensures Sent(WEP, StreamOf(Rc4.Init(key)), old(Packet(chain)), off, len, Packet(chain), ok, icv)
  {
    var e := new Rc4.Engine(key);
    ghost var cs0, cs := Bytes(chain), [];
    StreamsItself(Rc4.Init(key));
    FlatSize(chain, cs0);
    OffsetAtMost(chain, 1);
    ok, icv, cs := EncryptFrom(WEP, e, Rc4.Init(key), StreamOf(Rc4.Init(key)), chain, off, len, cs0);
    HoldsBytes(chain, cs);
  }

  lemma HoldsBytes(chain: Chain, cs: seq<seq<Byte>>)
    requires Holds(chain, cs)
    ensures Bytes(chain) == cs
  {
  }

  /** What decryption makes of packet `f`: the payload under the key stream
      again, accepted exactly when the four octets after it are the encrypted
      checksum of the result. */
  ghost predicate Received(c: Suite, ks: Stream, f: seq<Byte>, off: nat, len: nat, g: seq<Byte>, ok: bool) {
    && off <= |f|
    && var n := Min(len, |f| - off);
    && var p := Crypt(c, ks, 0, f[off..off + n]);
    && g == Put(f, off, p)
    && ok == (n == len && f[off + n..] == Crypt(c, ks, len, Icv(c, p)))
  }

  lemma ReceivedIs(c: Suite, ks: Stream, f: seq<Byte>, off: nat, len: nat, done: nat, p: seq<Byte>, t: seq<Byte>,
                   g: seq<Byte>, ok: bool)
    requires off <= |f| && done == Min(len, |f| - off) && p == Crypt(c, ks, 0, f[off..off + done])
    requires t == f[off + done..] && g == Put(f, off, p)
    requires ok == (done == len && t == Crypt(c, ks, done, Icv(c, p)))
    ensures Received(c, ks, f, off, len, g, ok)
  {
  }

  /** The checksum after a payload that was all there is compared. */
  method TakeTrailer(c: Suite, e: Rc4.Engine, ghost t0: Rc4.State, ghost ks: Stream, last: array<Byte>, ghost len: nat,
                     left: nat, end: nat, ghost done: nat, crc: Remainder, ghost p: seq<Byte>, ghost t: seq<Byte>)
    returns (ok: bool)
    requires e.s != last && Drawn(e, t0, done) && Streams(t0, ks) && left == len - done && crc == Checksum(c, START, p)
    requires left == 0 ==> end + 4 <= last.Length && last[end..end + 4] == t
    modifies e, e.s
    ensures ok == (done == len && t == Crypt(c, ks, done, Icv(c, p)))
  {
    ok := left == 0;
    if ok {
      ok := CheckTrailer(c, e, t0, ks, done, c.icv(crc), last, end);
    }
  }

  method Judge(c: Suite, e: Rc4.Engine, ghost t0: Rc4.State, ghost ks: Stream, chain: Chain, ghost f: seq<Byte>,
               ghost off: nat, ghost len: nat, left: nat, end: nat, ghost done: nat, crc: Remainder, ghost p: seq<Byte>,
               ghost cs: seq<seq<Byte>>)
    returns (ok: bool)
    requires e.s !in chain && chain != [] && Holds(chain, cs) && Drawn(e, t0, done) && Streams(t0, ks)
    requires off <= |f| && done == Min(len, |f| - off) && left == len - done && crc == Checksum(c, START, p)
    requires p == Crypt(c, ks, 0, f[off..off + done]) && Flat(cs) == Put(f, off, p)
    requires left == 0 ==> end + 4 <= chain[|chain| - 1].Length && chain[|chain| - 1][end..end + 4] == f[off + done..]
    modifies e, e.s
    ensures Holds(chain, cs) && Received(c, ks, f, off, len, Flat(cs), ok)
  {
    ok := TakeTrailer(c, e, t0, ks, chain[|chain| - 1], len, left, end, done, crc, p, f[off + done..]);
    ReceivedIs(c, ks, f, off, len, done, p, f[off + done..], Flat(cs), ok);
  }

  lemma TrailerLies(chain: Chain, cs: seq<seq<Byte>>, end: nat, f: seq<Byte>, off: nat, len: nat, done: nat, p: seq<Byte>)
    requires chain != [] && Holds(chain, cs) && off + |p| <= |f| == Offset(chain, |chain|) && Flat(cs) == Put(f, off, p)
    requires |p| == done == Min(len, |f| - off) && (TrailerFits(chain, off, len) || len > |f| - off)
    requires TrailerFits(chain, off, len) ==> end + 4 == chain[|chain| - 1].Length
    ensures done == len ==> end + 4 <= chain[|chain| - 1].Length && chain[|chain| - 1][end..end + 4] == f[off + done..]
  {
    if done == len {
      LastFour(cs, end, f, off, p);
      assert cs[|cs| - 1] == chain[|chain| - 1][..];
    }
  }

  method DecryptFrom(c: Suite, e: Rc4.Engine, ghost t0: Rc4.State, ghost ks: Stream, chain: Chain, off: nat, len: nat,
                     ghost cs0: seq<seq<Byte>>)
    returns (ok: bool, ghost cs: seq<seq<Byte>>)
    requires Distinct(chain) && e.s !in chain && chain != [] && off <= chain[0].Length && Holds(chain, cs0)
    requires Drawn(e, t0, 0) && Streams(t0, ks) && off <= |Flat(cs0)|
    requires TrailerFits(chain, off, len) || len > Offset(chain, |chain|) - off
    modifies e, e.s, chain
    ensures Holds(chain, cs) && Received(c, ks, Flat(cs0), off, len, Flat(cs), ok)
  {
    FlatSize(chain, cs0);
    var left, end, crc;
    ghost var done;
    left, end, done, crc, cs := CryptPayload(c, e, false, t0, ks, chain, off, len, cs0);
    EndDone(c, e, false, t0, ks, chain, off, len, end, left, done, cs0, cs, crc);
    ghost var f := Flat(cs0);
    ghost var p := Crypt(c, ks, 0, f[off..off + done]);
    TrailerLies(chain, cs, end, f, off, len, done, p);
    ok := Judge(c, e, t0, ks, chain, f, off, len, left, end, done, crc, p, cs);
  }

  /** The end of the last buffer is the end of the packet, and still what was received. */
  lemma LastFour(cs: seq<seq<Byte>>, end: nat, f: seq<Byte>, off: nat, p: seq<Byte>)
    requires cs != [] && end + 4 == |cs[|cs| - 1]| && off + |p| + 4 == |f| && Flat(cs) == Put(f, off, p)
    ensures cs[|cs| - 1][end..end + 4] == f[off + |p|..]
  {
    var last := cs[|cs| - 1];
    assert last[end..end + 4] == Flat(cs)[|f| - 4..];
  }

  /** Decrypts in place `len` octets from `off` on and checks the four after
      them, which must lie together in the last buffer. */
  method Decrypt(key: seq<Byte>, chain: Chain, off: nat, len: nat) returns (ok: bool)
    requires key != [] && Distinct(chain) && chain != [] && off <= chain[0].Length
    requires TrailerFits(chain, off, len) || len > Offset(chain, |chain|) - off
    modifies chain
    ensures Received(WEP, StreamOf(Rc4.Init(key)), old(Packet(chain)), off, len, Packet(chain), ok)
  {
    var e := new Rc4.Engine(key);
    ghost var cs0, cs := Bytes(chain), [];
    StreamsItself(Rc4.Init(key));
    FlatSize(chain, cs0);
    OffsetAtMost(chain, 1);
    ok, cs := DecryptFrom(WEP, e, Rc4.Init(key), StreamOf(Rc4.Init(key)), chain, off, len, cs0);
    HoldsBytes(chain, cs);
  }

  // ---- round trip ---------------------------------------------------------

  /** A packet encrypted, its checksum appended, cut into buffers anew and
      decrypted with the same key and IV is accepted and gives the payload back. */
  lemma RoundTrip(ks: Stream, f: seq<Byte>, off: nat, g: seq<Byte>, icv: seq<Byte>, ok: bool,
                  r: seq<Byte>, roff: nat, h: seq<Byte>, accepted: bool)
    requires off <= |f| && Sent(WEP, ks, f, off, |f| - off, g, ok, icv)
    requires roff <= |r| && r[roff..] == g[off..] + icv
    requires Received(WEP, ks, r, roff, |f| - off, h, accepted)
    ensures ok && accepted && h[..roff] == r[..roff] && h[roff..roff + (|f| - off)] == f[off..]
  {
    WepUndoes();
    RoundTripFor(WEP, ks, f, off, g, icv, ok, r, roff, h, accepted);
  }

  lemma SentParts(c: Suite, ks: Stream, f: seq<Byte>, off: nat, n: nat, p: seq<Byte>, g: seq<Byte>, ok: bool, icv: seq<Byte>)
    requires off <= |f| && n == |f| - off && p == f[off..] && Sent(c, ks, f, off, n, g, ok, icv)
    ensures ok && g == Put(f, off, Crypt(c, ks, 0, p)) && icv == Crypt(c, ks, n, Icv(c, p))
  {
    assert f[off..off + n] == p;
  }

  lemma ReceivedParts(c: Suite, ks: Stream, r: seq<Byte>, roff: nat, n: nat, d: seq<Byte>, t: seq<Byte>, h: seq<Byte>, ok: bool)
    requires roff <= |r| && n == |d| && r[roff..] == d + t && Received(c, ks, r, roff, n, h, ok)
    ensures roff + n <= |r| && h == Put(r, roff, Crypt(c, ks, 0, d))
    ensures ok == (t == Crypt(c, ks, n, Icv(c, Crypt(c, ks, 0, d))))
  {
    Parts(r, roff, d, t);
  }

  lemma RoundTripFor(c: Suite, ks: Stream, f: seq<Byte>, off: nat, g: seq<Byte>, icv: seq<Byte>, ok: bool,
                     r: seq<Byte>, roff: nat, h: seq<Byte>, accepted: bool)
    requires Undoes(c.x)
    requires off <= |f| && Sent(c, ks, f, off, |f| - off, g, ok, icv)
    requires roff <= |r| && r[roff..] == g[off..] + icv
    requires Received(c, ks, r, roff, |f| - off, h, accepted)
    ensures ok && accepted && h[..roff] == r[..roff] && h[roff..roff + (|f| - off)] == f[off..]
  {
    var n, p := |f| - off, f[off..];
    var d := Crypt(c, ks, 0, p);
    SentParts(c, ks, f, off, n, p, g, ok, icv);
    PutParts(f, off, d);
    ReceivedParts(c, ks, r, roff, n, d, icv, h, accepted);
    CryptTwice(c, ks, 0, p);
    PutParts(r, roff, p);
  }

  lemma PutParts(b: seq<Byte>, at: nat, d: seq<Byte>)
    requires at + |d| <= |b|
    ensures Put(b, at, d)[..at] == b[..at] && Put(b, at, d)[at..at + |d|] == d
    ensures at + |d| == |b| ==> Put(b, at, d)[at..] == d
  {
  }

  lemma Parts(r: seq<Byte>, at: nat, d: seq<Byte>, icv: seq<Byte>)
    requires at <= |r| && r[at..] == d + icv
    ensures at + |d| <= |r| && r[at..at + |d|] == d && r[at + |d|..] == icv
  {
    assert r[at..at + |d|] == r[at..][..|d|];
    assert r[at + |d|..] == r[at..][|d|..];
  }
}
