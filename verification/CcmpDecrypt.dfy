/** The decryption walk. A block that ends in the next buffer is decrypted
    whole, but only its first part is taken into the chaining value. */
module CcmpDecrypt {
  import opened Octets
  import opened Mbufs
  import opened CcmSpec
  import opened CcmpChain
  import opened CcmpEncrypt

  // ---- where blocks lie ---------------------------------------------------

  /** `n` octets from `start` on lie in one buffer or two in a row. */
  ghost predicate Adjacent(chain: Chain, start: nat, n: nat) {
    exists i: nat :: Spanned(chain, start, n, i)
  }

  ghost predicate Spanned(chain: Chain, start: nat, n: nat, i: nat) {
    i < |chain| && Offset(chain, i) <= start && start + n <= Offset(chain, Min(i + 2, |chain|))
  }

  ghost predicate AllAdjacent(chain: Chain, off: nat, len: nat) {
    forall k: nat :: k < Blocks(len) ==> Adjacent(chain, off + 16 * k, Min(16, len - 16 * k))
  }

  lemma RestNext(chain: Chain, m: nat, pos: nat, n: nat)
    requires m < |chain| && pos < chain[m].Length && Adjacent(chain, Offset(chain, m) + pos, n)
    requires pos + n > chain[m].Length
    ensures m + 1 < |chain| && pos + n <= chain[m].Length + chain[m + 1].Length
  {
    var start := Offset(chain, m) + pos;
    var i: nat :| Spanned(chain, start, n, i);
    if i > m {
      OffsetGrows(chain, m + 1, i);
      assert false;
    }
    OffsetGrows(chain, Min(i + 2, |chain|), Min(m + 2, |chain|));
  }

  /** How many octets the buffer that holds `start` has from there on. */
  ghost function Room(chain: Chain, start: nat, m: nat): nat
    requires m <= |chain|
    decreases |chain| - m
  {
    if m == |chain| then 0
    else if start < Offset(chain, m + 1) then Offset(chain, m + 1) - start
    else Room(chain, start, m + 1)
  }

  lemma {:induction false} RoomAt(chain: Chain, j: nat, m: nat, pos: nat)
    requires j <= m < |chain| && pos < chain[m].Length
    ensures Room(chain, Offset(chain, m) + pos, j) == chain[m].Length - pos
    decreases m - j
  {
    if j < m {
      OffsetGrows(chain, j + 1, m);
      RoomAt(chain, j + 1, m, pos);
    }
  }

  /** What the buffer that block `k` starts in has of it, and maybe more. */
  ghost function Taken(chain: Chain, off: nat, k: nat): nat {
    if k == 0 then 0 else Room(chain, off + 16 * (k - 1), 0)
  }

  /** `t` is what the first buffer of each block has of it. */
  ghost predicate FirstParts(t: Takes, chain: Chain, off: nat) {
    forall k: nat :: t(k) == Taken(chain, off, k)
  }

  ghost function Rooms(chain: Chain, off: nat): Takes {
    k => Taken(chain, off, k)
  }

  lemma RoomsAreFirstParts(chain: Chain, off: nat)
    ensures FirstParts(Rooms(chain, off), chain, off)
  {
  }

  /** When every block lies in one buffer, nothing is left out of any. */
  ghost predicate AllInOne(chain: Chain, off: nat, len: nat) {
    forall k: nat :: k < Blocks(len) ==> InOne(chain, off + 16 * k, Min(16, len - 16 * k))
  }

  ghost predicate InOne(chain: Chain, start: nat, n: nat) {
    exists i: nat :: i < |chain| && Offset(chain, i) <= start && start + n <= Offset(chain, i + 1)
  }

  lemma RoomInOne(chain: Chain, start: nat, n: nat)
    requires InOne(chain, start, n) && n > 0
    ensures Room(chain, start, 0) >= n
  {
    var i: nat :| i < |chain| && Offset(chain, i) <= start && start + n <= Offset(chain, i + 1);
    RoomAt(chain, 0, i, start - Offset(chain, i));
  }

  lemma InOneTakesAll(t: Takes, chain: Chain, off: nat, len: nat)
    requires FirstParts(t, chain, off) && AllInOne(chain, off, len)
    ensures TakesAll(t, len)
  {
    forall k: nat | 0 < k <= Blocks(len) ensures t(k) >= Min(16, len - 16 * (k - 1)) {
      BlockStarts(len, k - 1);
      assert t(k) == Taken(chain, off, k);
      RoomInOne(chain, off + 16 * (k - 1), Min(16, len - 16 * (k - 1)));
    }
  }

  // ---- one block ----------------------------------------------------------

  /** Decrypting the packet's next `n` octets, the first `t` taken in, takes `v` to `w`. */
  ghost predicate Opens(c: Cipher, k: Block, f: seq<Byte>, off: nat, n: nat, t: nat, v: Work, w: Work) {
    n <= 16 && off + |v.out| + n <= |f| && w == Open(c, k, v, f[off + |v.out|..off + |v.out| + n], t)
  }

  lemma PutStretch(b: seq<Byte>, pos: nat, r: seq<Byte>)
    requires pos + |r| <= |b|
    ensures Put(b, pos, r)[pos..pos + |r|] == r
  {
  }

  /** Decrypts octets of one buffer and takes them in. */
  method OpenBytes(c: Cipher, k: Block, buf: array<Byte>, pos: nat, n: nat, a: Block, ghost q: seq<Byte>) returns (out: Block)
    requires pos + n <= buf.Length && n <= 16 && q == buf[pos..pos + n]
    modifies buf
    ensures buf[..] == Put(old(buf[..]), pos, XorSeq(c.x, q, k)) && out == c.e(Mixed(c.x, a, 0, XorSeq(c.x, q, k)))
  {
    ghost var b := buf[..];
    XorBytes(c, buf, pos, n, k, 0);
    assert k[0..] == k;
    PutStretch(b, pos, XorSeq(c.x, q, k));
    out := c.e(Mixed(c.x, a, 0, buf[pos..pos + n]));
  }

  lemma HereDone(c: Cipher, k: Block, f: seq<Byte>, off: nat, v: Work, cs: seq<seq<Byte>>, m: nat, pos: nat, n: nat, t: nat,
                 q: seq<Byte>, w: Work)
    requires Standing(f, off, v, cs) && m < |cs| && pos + n <= |cs[m]| && n <= 16 && t >= n
    requires At(cs, m) + pos == off + |v.out| && q == cs[m][pos..pos + n] && w == Open(c, k, v, q, t)
    ensures Opens(c, k, f, off, n, t, v, w) && w.x == c.e(Mixed(c.x, v.x, 0, XorSeq(c.x, q, k)))
    ensures Standing(f, off, w, cs[m := Put(cs[m], pos, XorSeq(c.x, q, k))])
  {
    NextBlock(f, off, v, cs, m, pos, n);
    var r := XorSeq(c.x, q, k);
    assert r[..Min(t, |r|)] == r;
    PutOutHere(f, off, v, cs, m, pos, r, w);
  }

  method OpenHere(c: Cipher, k: Block, chain: Chain, m: nat, pos: nat, n: nat, a: Block, ghost t: nat,
                  ghost f: seq<Byte>, ghost off: nat, ghost v: Work, ghost cs: seq<seq<Byte>>)
    returns (out: Block, ghost w: Work, ghost ns: seq<seq<Byte>>)
    requires Distinct(chain) && Holds(chain, cs) && m < |chain| && pos + n <= chain[m].Length && n <= 16 && t >= n
    requires Standing(f, off, v, cs) && At(cs, m) + pos == off + |v.out| && a == v.x
    modifies chain[m]
    ensures Holds(chain, ns) && out == w.x && Standing(f, off, w, ns) && Opens(c, k, f, off, n, t, v, w)
  {
    assert Sole(chain, m);
    ghost var q := cs[m][pos..pos + n];
    w := Open(c, k, v, q, t);
    HereDone(c, k, f, off, v, cs, m, pos, n, t, q, w);
    out := OpenBytes(c, k, chain[m], pos, n, a, q);
    ns := cs[m := chain[m][..]];
  }

  lemma OverDone(c: Cipher, k: Block, f: seq<Byte>, off: nat, v: Work, cs: seq<seq<Byte>>, m: nat, pos: nat, space: nat,
                 j: nat, need: nat, len: nat, q: seq<Byte>, r: seq<Byte>, w: Work)
    requires Standing(f, off, v, cs) && j == m + 1 < |cs| && pos + space == |cs[m]| && need <= |cs[j]| && space + need == len <= 16
    requires At(cs, m) + pos == off + |v.out| && q == cs[m][pos..pos + space] && r == cs[j][0..need]
    requires w == Open(c, k, v, q + r, space)
    ensures Opens(c, k, f, off, len, space, v, w) && w.x == c.e(Mixed(c.x, v.x, 0, XorSeq(c.x, q, k)))
    ensures Standing(f, off, w, cs[m := Put(cs[m], pos, XorSeq(c.x, q, k))][j := Put(cs[j], 0, XorSeq(c.x, r, k[space..]))])
  {
    AtNext(cs, m);
    Joined(f, off, v, cs, m, pos, space, j, need, len);
    XorSeqAppend(c.x, q, r, k);
    var y, z := XorSeq(c.x, q, k), XorSeq(c.x, r, k[space..]);
    assert (y + z)[..space] == y;
    PutOutAcross(f, off, v, cs, m, pos, y, j, z, w);
  }

  /** A block that ends in the next buffer: all of it is decrypted, its first part taken in. */
  method OpenAcross(c: Cipher, k: Block, chain: Chain, m: nat, pos: nat, space: nat, need: nat, a: Block,
                    ghost f: seq<Byte>, ghost off: nat, ghost v: Work, ghost cs: seq<seq<Byte>>, ghost len: nat)
    returns (out: Block, ghost w: Work, ghost ns: seq<seq<Byte>>)
    requires Distinct(chain) && Holds(chain, cs) && m + 1 < |chain| && pos + space == chain[m].Length
    requires need <= chain[m + 1].Length && space + need == len <= 16
    requires Standing(f, off, v, cs) && At(cs, m) + pos == off + |v.out| && a == v.x
    modifies chain
    ensures Holds(chain, ns) && out == w.x && Standing(f, off, w, ns) && Opens(c, k, f, off, len, space, v, w)
  {
    ghost var j := m + 1;
    assert Sole(chain, m) && Sole(chain, j);
    ghost var q, r := cs[m][pos..pos + space], cs[j][0..need];
    w := Open(c, k, v, q + r, space);
    OverDone(c, k, f, off, v, cs, m, pos, space, j, need, len, q, r, w);
    out := OpenBytes(c, k, chain[m], pos, space, a, q);
    XorBytes(c, chain[m + 1], 0, need, k, space);
    ns := cs[m := chain[m][..]][j := chain[j][..]];
  }

  // ---- the walk -----------------------------------------------------------

  /** The first blocks of the payload are decrypted in place; `a` is the chaining value. */
  ghost predicate Opening(c: Cipher, s: Counter, t: Takes, job: Job, g: Stage, a: Block) {
    && Proper(job) && g.k <= Blocks(|job.p|) && g.v == Opened(c, s, t, job.x, job.p, g.k)
    && |g.v.out| == Upto(|job.p|, g.k) && a == g.v.x && Standing(job.f, job.off, g.v, g.cs)
  }

  lemma OpenedStep(c: Cipher, s: Counter, t: Takes, x: Block, p: seq<Byte>, k: nat, j: nat, v: Work, w: Work)
    requires k < Blocks(|p|) && 16 * k < |p| && j == k + 1 && v == Opened(c, s, t, x, p, k)
    requires w == Open(c, s(j), v, Part(p, k), t(j))
    ensures w == Opened(c, s, t, x, p, j) && |w.out| == |v.out| + Min(16, |p| - 16 * k)
  {
  }

  lemma OpeningNext(c: Cipher, s: Counter, t: Takes, job: Job, g: Stage, a: Block, left: nat, n: nat, i: nat, h: Stage,
                    out: Block)
    requires Opening(c, s, t, job, g, a) && g.k < Blocks(|job.p|) && h.k == i == g.k + 1
    requires left == |job.p| - 16 * g.k && n == Min(16, left) && Opens(c, s(i), job.f, job.off, n, t(i), g.v, h.v)
    requires out == h.v.x && Standing(job.f, job.off, h.v, h.cs)
    ensures Opening(c, s, t, job, h, out) && |h.v.out| == |g.v.out| + n
  {
    NextPart(job, g.k, i, g.v, left, n);
    OpenedStep(c, s, t, job.x, job.p, g.k, i, g.v, h.v);
  }

  /** Between blocks: `i` is the next block's number, `left` what is not decrypted yet. */
  ghost predicate Midway(c: Cipher, s: Counter, t: Takes, job: Job, chain: Chain, g: Stage, a: Block, m: nat, pos: nat,
                         i: nat, left: int)
    reads chain
  {
    && Opening(c, s, t, job, g, a) && At2(chain, job.off, g.v, m, pos) && Holds(chain, g.cs)
    && i == g.k + 1 && left == |job.p| - 16 * g.k && job.off + |job.p| <= Offset(chain, |chain|)
  }

  /** More to do at `pos` in buffer `m`, or all blocks are done. */
  ghost predicate MidwayOrDone(c: Cipher, s: Counter, t: Takes, job: Job, chain: Chain, g: Stage, a: Block, m: nat,
                               pos: nat, i: nat, left: int)
    reads chain
  {
    if left > 0 then Midway(c, s, t, job, chain, g, a, m, pos, i, left)
    else Holds(chain, g.cs) && Opening(c, s, t, job, g, a) && g.k == Blocks(|job.p|)
  }

  /** What the buffer has of the block that starts here. */
  lemma TakenHere(t: Takes, chain: Chain, job: Job, g: Stage, m: nat, pos: nat, i: nat)
    requires FirstParts(t, chain, job.off) && At2(chain, job.off, g.v, m, pos) && |g.v.out| == 16 * g.k && i == g.k + 1
    requires pos < chain[m].Length
    ensures t(i) == chain[m].Length - pos
  {
    assert t(i) == Taken(chain, job.off, i);
    RoomAt(chain, 0, m, pos);
  }

  method BlockOpen(c: Cipher, s: Counter, ghost t: Takes, chain: Chain, m: nat, pos: nat, n: nat, i: nat, a: Block,
                   ghost left: int, ghost job: Job, ghost g: Stage)
    returns (out: Block, ghost h: Stage)
    requires Distinct(chain) && FirstParts(t, chain, job.off) && Midway(c, s, t, job, chain, g, a, m, pos, i, left) && left > 0
    requires n == Min(16, left) && pos + n <= chain[m].Length
    modifies chain[m]
    ensures h.k == i && Holds(chain, h.cs) && Opening(c, s, t, job, h, out) && At2(chain, job.off, h.v, m, pos + n)
  {
    MoreBlocks(|job.p|, g.k);
    NextPart(job, g.k, i, g.v, left, n);
    AtIsOffset(chain, g.cs, m);
    TakenHere(t, chain, job, g, m, pos, i);
    ghost var v, cs;
    out, v, cs := OpenHere(c, s(i), chain, m, pos, n, a, t(i), job.f, job.off, g.v, g.cs);
    h := Stage(i, v, cs);
    OpeningNext(c, s, t, job, g, a, left, n, i, h, out);
  }

  method BlockOpenAcross(c: Cipher, s: Counter, ghost t: Takes, chain: Chain, m: nat, pos: nat, space: nat, need: nat,
                         i: nat, a: Block, ghost left: int, ghost job: Job, ghost g: Stage)
    returns (out: Block, ghost h: Stage)
    requires Distinct(chain) && FirstParts(t, chain, job.off) && Midway(c, s, t, job, chain, g, a, m, pos, i, left) && left > 0
    requires space + need == Min(16, left) && pos + space == chain[m].Length && space > 0 && need > 0
    requires m + 1 < |chain| && need <= chain[m + 1].Length
    modifies chain
    ensures h.k == i && Holds(chain, h.cs) && Opening(c, s, t, job, h, out) && At2(chain, job.off, h.v, m + 1, need)
  {
    ghost var n := space + need;
    MoreBlocks(|job.p|, g.k);
    NextPart(job, g.k, i, g.v, left, n);
    AtIsOffset(chain, g.cs, m);
    TakenHere(t, chain, job, g, m, pos, i);
    ghost var v, cs;
    out, v, cs := OpenAcross(c, s(i), chain, m, pos, space, need, a, job.f, job.off, g.v, g.cs, n);
    h := Stage(i, v, cs);
    OpeningNext(c, s, t, job, g, a, left, n, i, h, out);
  }

  /** The whole blocks of one buffer. */
  method BlocksOpen(c: Cipher, s: Counter, ghost t: Takes, chain: Chain, m: nat, pos0: nat, space0: nat, i0: nat,
                    left0: nat, a0: Block, ghost job: Job, ghost g0: Stage)
    returns (pos: nat, space: nat, i: nat, left: nat, a: Block, ghost g: Stage)
    requires Distinct(chain) && FirstParts(t, chain, job.off) && Midway(c, s, t, job, chain, g0, a0, m, pos0, i0, left0)
    requires space0 <= left0 && pos0 + space0 <= chain[m].Length
    modifies chain[m]
    ensures Midway(c, s, t, job, chain, g, a, m, pos, i, left)
    ensures space < 16 && pos + space == pos0 + space0 && left - space == left0 - space0
  {
    pos, space, i, left, a, g := pos0, space0, i0, left0, a0, g0;
    while space >= 16
      invariant Midway(c, s, t, job, chain, g, a, m, pos, i, left)
      invariant pos + space == pos0 + space0 && left - space == left0 - space0
    {
      a, g := BlockOpen(c, s, t, chain, m, pos, 16, i, a, left, job, g);
      pos, space, left, i := pos + 16, space - 16, left - 16, i + 1;
    }
  }

  /** The part block that ends the message, in one buffer. */
  method LastOpen(c: Cipher, s: Counter, ghost t: Takes, chain: Chain, m: nat, pos: nat, space: nat, i: nat, a: Block,
                  ghost job: Job, ghost g: Stage)
    returns (out: Block, ghost h: Stage)
    requires Distinct(chain) && FirstParts(t, chain, job.off) && Midway(c, s, t, job, chain, g, a, m, pos, i, space)
    requires 0 < space < 16 && pos + space <= chain[m].Length
    modifies chain[m]
    ensures Holds(chain, h.cs) && Opening(c, s, t, job, h, out) && h.k == Blocks(|job.p|)
  {
    out, h := BlockOpen(c, s, t, chain, m, pos, space, i, a, space, job, g);
    AllDone(|job.p|, i);
  }

  /** The block that `space` octets of one buffer start and the next buffer ends. */
  method OpenOver(c: Cipher, s: Counter, ghost t: Takes, chain: Chain, m: nat, ghost n: nat, pos: nat, space: nat, i: nat, left: nat,
                  a: Block, ghost job: Job, ghost g: Stage)
    returns (out: Block, to: nat, now: nat, ghost h: Stage)
    requires Distinct(chain) && FirstParts(t, chain, job.off) && Midway(c, s, t, job, chain, g, a, m, pos, i, left)
    requires 0 < space < 16 && space <= left && n == m + 1 < |chain| && pos + space <= chain[m].Length
    requires space == left || pos + space == chain[m].Length
    requires Adjacent(chain, job.off + 16 * g.k, Min(16, left))
    modifies chain
    ensures MidwayOrDone(c, s, t, job, chain, h, out, n, to, i + 1, now)
  {
    var len := Min(16, left);
    var need := len - space;
    now := left - len;
    if need == 0 {
      out, h := LastOpen(c, s, t, chain, m, pos, space, i, a, job, g);
      to := 0;
    } else {
      MoreBlocks(|job.p|, g.k);
      UptoNext(|job.p|, g.k);
      RestNext(chain, m, pos, len);
      assert chain[m + 1].Length >= need;
      out, h := BlockOpenAcross(c, s, t, chain, m, pos, space, need, i, a, left, job, g);
      to := need;
      if left <= 16 {
        AllDone(|job.p|, i);
      }
    }
  }

  /** From a buffer whose whole blocks are done, `space` octets being left in it, to the next. */
  method OpenNext(c: Cipher, s: Counter, ghost t: Takes, chain: Chain, m: nat, ghost n: nat, pos: nat, space: nat, i: nat, left: nat,
                  a0: Block, ghost job: Job, ghost g0: Stage)
    returns (to: nat, next: nat, now: nat, a: Block, ghost g: Stage)
    requires Distinct(chain) && FirstParts(t, chain, job.off) && Midway(c, s, t, job, chain, g0, a0, m, pos, i, left) && left > 0
    requires AllAdjacent(chain, job.off, |job.p|) && space < 16 && space <= left && pos + space <= chain[m].Length
    requires (pos + space == chain[m].Length || space == left) && n == m + 1 < |chain|
    modifies chain
    ensures MidwayOrDone(c, s, t, job, chain, g, a, n, to, next, now)
  {
    if space != 0 {
      MoreBlocks(|job.p|, g0.k);
      a, to, now, g := OpenOver(c, s, t, chain, m, n, pos, space, i, left, a0, job, g0);
      next := i + 1;
    } else {
      to, next, now, a, g := 0, i, left, a0, g0;
      NextBuffer(chain, job.off, g.v, m, n, pos);
    }
  }

  /** In the last buffer the message ends. */
  method OpenLast(c: Cipher, s: Counter, ghost t: Takes, chain: Chain, m: nat, pos: nat, space: nat, i: nat,
                  ghost left: nat, a0: Block, ghost job: Job, ghost g0: Stage)
    returns (a: Block, ghost g: Stage)
    requires Distinct(chain) && FirstParts(t, chain, job.off) && Midway(c, s, t, job, chain, g0, a0, m, pos, i, left) && left > 0
    requires m + 1 == |chain| && space < 16 && space <= left
    requires pos + space == chain[m].Length || (space == left && pos + space <= chain[m].Length)
    modifies chain[m]
    ensures MidwayOrDone(c, s, t, job, chain, g, a, m, 0, i, 0)
  {
    MoreBlocks(|job.p|, g0.k);
    UptoNext(|job.p|, g0.k);
    LeftOver(chain, m, m + 1, pos, job.off, |job.p|, 16 * g0.k, left);
    a, g := LastOpen(c, s, t, chain, m, pos, space, i, a0, job, g0);
  }

  /** After the whole blocks of a buffer: the end, or the next buffer. */
  method EndOrNext(c: Cipher, s: Counter, ghost t: Takes, chain: Chain, m: nat, pos: nat, space: nat, i: nat, left: nat,
                   a0: Block, ghost job: Job, ghost g0: Stage)
    returns (n: nat, to: nat, next: nat, now: nat, a: Block, ghost g: Stage)
    requires Distinct(chain) && FirstParts(t, chain, job.off) && Midway(c, s, t, job, chain, g0, a0, m, pos, i, left) && left > 0
    requires AllAdjacent(chain, job.off, |job.p|) && space < 16 && space <= left && pos + space <= chain[m].Length
    requires pos + space == chain[m].Length || space == left
    modifies chain
    ensures MidwayOrDone(c, s, t, job, chain, g, a, n, to, next, now) && (now > 0 ==> m < n)
  {
    if m + 1 == |chain| {
      a, g := OpenLast(c, s, t, chain, m, pos, space, i, left, a0, job, g0);
      n, to, next, now := m, 0, i, 0;
    } else {
      n := m + 1;
      to, next, now, a, g := OpenNext(c, s, t, chain, m, n, pos, space, i, left, a0, job, g0);
    }
  }

  /** One turn of the walk: the whole blocks of a buffer, and on to the next. */
  method TurnOpen(c: Cipher, s: Counter, ghost t: Takes, chain: Chain, m: nat, pos0: nat, i0: nat, left0: nat, a0: Block,
                  ghost job: Job, ghost g0: Stage)
    returns (n: nat, pos: nat, i: nat, left: nat, a: Block, ghost g: Stage)
    requires Distinct(chain) && FirstParts(t, chain, job.off) && Midway(c, s, t, job, chain, g0, a0, m, pos0, i0, left0) && left0 > 0
    requires AllAdjacent(chain, job.off, |job.p|)
    modifies chain
    ensures MidwayOrDone(c, s, t, job, chain, g, a, n, pos, i, left) && (left > 0 ==> m < n)
  {
    var space := chain[m].Length - pos0;
    if space > left0 {
      space := left0;
    }
    pos, space, i, left, a, g := BlocksOpen(c, s, t, chain, m, pos0, space, i0, left0, a0, job, g0);
    n := m;
    if left == 0 {
      AllDone(|job.p|, g.k);
    } else {
      n, pos, i, left, a, g := EndOrNext(c, s, t, chain, m, pos, space, i, left, a, job, g);
    }
  }

  /** Decrypts `len` octets from `off` on; `a` is the chaining value so far. */
  method DecryptData(c: Cipher, s: Counter, ghost t: Takes, chain: Chain, off: nat, len: nat, a0: Block,
                     ghost cs0: seq<seq<Byte>>)
    returns (a: Block, ghost cs: seq<seq<Byte>>)
    requires Distinct(chain) && Holds(chain, cs0) && chain != [] && off <= chain[0].Length
    requires off + len <= Offset(chain, |chain|) && AllAdjacent(chain, off, len) && FirstParts(t, chain, off)
    modifies chain
    ensures Holds(chain, cs) && off + len <= |Flat(cs0)|
    ensures var f := Flat(cs0);
            && Flat(cs) == Put(f, off, Enciphered(c, s, f[off..off + len]))
            && a == Opened(c, s, t, a0, f[off..off + len], Blocks(len)).x
  {
    FlatSize(chain, cs0);
    ghost var job := Job(a0, Flat(cs0), off, Flat(cs0)[off..off + len]);
    ghost var g := Stage(0, Work([], a0), cs0);
    var m: nat, pos: nat, i: nat, left: nat := 0, off, 1, len;
    a := a0;
    BeginOpen(c, s, t, job, chain, g, a);
    while left > 0
      invariant MidwayOrDone(c, s, t, job, chain, g, a, m, pos, i, left)
      decreases left > 0, |chain| - m
    {
      m, pos, i, left, a, g := TurnOpen(c, s, t, chain, m, pos, i, left, a, job, g);
    }
    cs := g.cs;
    AllOut(c, s, t, a0, job.p, len);
  }

  lemma AllOut(c: Cipher, s: Counter, t: Takes, x: Block, p: seq<Byte>, len: nat)
    requires |p| == len
    ensures Opened(c, s, t, x, p, Blocks(len)).out == Enciphered(c, s, p)
  {
    OpenedOut(c, s, t, x, p, Blocks(len));
    assert p[..len] == p;
  }

  lemma BeginOpen(c: Cipher, s: Counter, t: Takes, job: Job, chain: Chain, g: Stage, a: Block)
    requires Proper(job) && g == Stage(0, Work([], a), g.cs) && a == job.x && Flat(g.cs) == job.f && Holds(chain, g.cs)
    requires chain != [] && job.off <= chain[0].Length && job.off + |job.p| <= Offset(chain, |chain|)
    ensures MidwayOrDone(c, s, t, job, chain, g, a, 0, job.off, 1, |job.p|)
  {
    PutNothing(job.f, job.off);
    assert Opening(c, s, t, job, g, a) && At2(chain, job.off, g.v, 0, job.off);
    if |job.p| == 0 {
      AllDone(0, 0);
    }
  }
}
