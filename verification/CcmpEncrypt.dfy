/** The encryption walk: block by block along a chain, whatever its buffers. */
module CcmpEncrypt {
  import opened Octets
  import opened Mbufs
  import opened CcmSpec
  import opened CcmpChain

  /** The first blocks of the payload are encrypted in place; `b` is the chaining value. */
  ghost predicate Sealing(c: Cipher, s: Counter, job: Job, g: Stage, b: Block) {
    && Proper(job) && g.k <= Blocks(|job.p|) && g.v == Sealed(c, s, job.x, job.p, g.k)
    && |g.v.out| == Upto(|job.p|, g.k) && b == g.v.x && Standing(job.f, job.off, g.v, g.cs)
  }

  /** The next octet is at `pos` in buffer `m`. */
  ghost predicate At2(chain: Chain, off: nat, v: Work, m: nat, pos: nat) {
    m < |chain| && pos <= chain[m].Length && Offset(chain, m) + pos == off + |v.out|
  }

  /** The payload's next octets are its next block, of `n` octets. */
  lemma NextPart(job: Job, k: nat, j: nat, v: Work, left: nat, n: nat)
    requires Proper(job) && k < Blocks(|job.p|) && j == k + 1 && |v.out| == Upto(|job.p|, k)
    requires left == |job.p| - 16 * k && n == Min(16, left)
    ensures |v.out| == 16 * k && job.off + |v.out| + n <= |job.f| && Upto(|job.p|, j) == 16 * k + n
    ensures job.f[job.off + |v.out|..job.off + |v.out| + n] == Part(job.p, k)
  {
    UptoNext(|job.p|, k);
    SubPiece(job.f, job.off, job.p, 16 * k, n);
  }

  lemma SealedNext(c: Cipher, s: Counter, x: Block, p: seq<Byte>, k: nat, j: nat, v: Work, w: Work)
    requires k < Blocks(|p|) && j == k + 1 && 16 * k < |p| && v == Sealed(c, s, x, p, k) && w == Seal(c, s(j), v, Part(p, k))
    ensures w == Sealed(c, s, x, p, j) && |w.out| == |v.out| + Min(16, |p| - 16 * k)
  {
  }

  /** One more block, of `n` octets, is done. */
  lemma SealingNext(c: Cipher, s: Counter, job: Job, g: Stage, b: Block, left: nat, n: nat, i: nat, h: Stage, out: Block)
    requires Sealing(c, s, job, g, b) && g.k < Blocks(|job.p|) && h.k == i == g.k + 1
    requires left == |job.p| - 16 * g.k && n == Min(16, left) && Adds(c, s(i), job.f, job.off, n, g.v, h.v)
    requires out == h.v.x && Standing(job.f, job.off, h.v, h.cs)
    ensures Sealing(c, s, job, h, out) && |h.v.out| == |g.v.out| + n
  {
    NextPart(job, g.k, i, g.v, left, n);
    SealedNext(c, s, job.x, job.p, g.k, i, g.v, h.v);
  }

  /** Between blocks: `i` is the next block's number, `left` what is not encrypted yet. */
  ghost predicate Going(c: Cipher, s: Counter, job: Job, chain: Chain, g: Stage, b: Block, m: nat, pos: nat, i: nat,
                        left: int)
    reads chain
  {
    && Sealing(c, s, job, g, b) && At2(chain, job.off, g.v, m, pos) && Holds(chain, g.cs)
    && i == g.k + 1 && left == |job.p| - 16 * g.k && job.off + |job.p| <= Offset(chain, |chain|)
  }

  lemma MoreBlocks(len: nat, k: nat)
    requires 16 * k < len
    ensures k < Blocks(len)
  {
  }

  lemma AllDone(len: nat, k: nat)
    requires len <= 16 * k && (k == 0 || 16 * (k - 1) < len)
    ensures Blocks(len) == k
  {
  }

  /** A whole block, or the part block at the end, in one buffer. */
  method BlockHere(c: Cipher, s: Counter, chain: Chain, m: nat, pos: nat, n: nat, i: nat, b: Block, ghost left: int,
                   ghost job: Job, ghost g: Stage)
    returns (out: Block, ghost h: Stage)
    requires Distinct(chain) && Going(c, s, job, chain, g, b, m, pos, i, left) && left > 0
    requires n == Min(16, left) && pos + n <= chain[m].Length
    modifies chain[m]
    ensures h.k == i && Holds(chain, h.cs) && Sealing(c, s, job, h, out) && At2(chain, job.off, h.v, m, pos + n)
  {
    MoreBlocks(|job.p|, g.k);
    NextPart(job, g.k, i, g.v, left, n);
    AtIsOffset(chain, g.cs, m);
    ghost var v, cs;
    out, v, cs := SealHere(c, s(i), chain, m, pos, n, b, job.f, job.off, g.v, g.cs);
    h := Stage(i, v, cs);
    SealingNext(c, s, job, g, b, left, n, i, h, out);
  }

  /** A block that starts in one buffer and ends in the next that is not empty. */
  method BlockAcross(c: Cipher, s: Counter, chain: Chain, m: nat, pos: nat, space: nat, need: nat, i: nat, b: Block,
                     ghost left: int, ghost job: Job, ghost g: Stage)
    returns (out: Block, j: nat, ghost h: Stage)
    requires Distinct(chain) && Going(c, s, job, chain, g, b, m, pos, i, left) && left > 0
    requires space + need == Min(16, left) && pos + space == chain[m].Length && space > 0 && need > 0
    requires InTwo(chain, job.off + 16 * g.k, Min(16, left))
    modifies chain
    ensures h.k == i && Holds(chain, h.cs) && Sealing(c, s, job, h, out) && m < j && At2(chain, job.off, h.v, j, need)
  {
    ghost var n := space + need;
    MoreBlocks(|job.p|, g.k);
    NextPart(job, g.k, i, g.v, left, n);
    AtIsOffset(chain, g.cs, m);
    ghost var to := RestIn(chain, m, pos, n);
    ghost var v, cs;
    out, j, v, cs := SealAcross(c, s(i), chain, m, pos, space, need, b, job.f, job.off, g.v, g.cs, to, n);
    h := Stage(i, v, cs);
    SealingNext(c, s, job, g, b, left, n, i, h, out);
  }

  /** The whole blocks of one buffer. */
  method BlocksHere(c: Cipher, s: Counter, chain: Chain, m: nat, pos0: nat, space0: int, i0: nat, left0: int, b0: Block,
                    ghost job: Job, ghost g0: Stage)
    returns (pos: nat, space: int, i: nat, left: int, b: Block, ghost g: Stage)
    requires Distinct(chain) && Going(c, s, job, chain, g0, b0, m, pos0, i0, left0)
    requires space0 <= left0 && pos0 + space0 <= chain[m].Length
    modifies chain[m]
    ensures Going(c, s, job, chain, g, b, m, pos, i, left)
    ensures space < 16 && pos + space == pos0 + space0 && left - space == left0 - space0 && (left0 > 0 ==> left >= 0)
  {
    pos, space, i, left, b, g := pos0, space0, i0, left0, b0, g0;
    while space >= 16
      invariant Going(c, s, job, chain, g, b, m, pos, i, left)
      invariant pos + space == pos0 + space0 && left - space == left0 - space0 && (left0 > 0 ==> left >= 0)
    {
      b, g := BlockHere(c, s, chain, m, pos, 16, i, b, left, job, g);
      pos, space, left, i := pos + 16, space - 16, left - 16, i + 1;
    }
  }

  /** Between buffers: more to do at `pos` in buffer `m`, or all blocks are done. */
  ghost predicate Turning(c: Cipher, s: Counter, job: Job, chain: Chain, g: Stage, b: Block, m: nat, pos: nat, i: nat,
                          left: int)
    reads chain
  {
    if left > 0 then Going(c, s, job, chain, g, b, m, pos, i, left)
    else Holds(chain, g.cs) && Sealing(c, s, job, g, b) && g.k == Blocks(|job.p|)
  }

  /** The part block that ends the message, in one buffer. */
  method LastHere(c: Cipher, s: Counter, chain: Chain, m: nat, pos: nat, space: nat, i: nat, b: Block,
                  ghost job: Job, ghost g: Stage)
    returns (out: Block, ghost h: Stage)
    requires Distinct(chain) && Going(c, s, job, chain, g, b, m, pos, i, space)
    requires 0 < space < 16 && pos + space <= chain[m].Length
    modifies chain[m]
    ensures Holds(chain, h.cs) && Sealing(c, s, job, h, out) && h.k == Blocks(|job.p|)
  {
    out, h := BlockHere(c, s, chain, m, pos, space, i, b, space, job, g);
    AllDone(|job.p|, i);
  }

  /** The block that `space` octets of one buffer start, and the buffer it ends in. */
  method Across(c: Cipher, s: Counter, chain: Chain, m: nat, pos: nat, space: nat, i: nat, left: int, b: Block,
                ghost job: Job, ghost g: Stage)
    returns (out: Block, j: nat, to: nat, ghost h: Stage)
    requires Distinct(chain) && Going(c, s, job, chain, g, b, m, pos, i, left)
    requires 0 < space < 16 && space <= left && m + 1 < |chain| && pos + space <= chain[m].Length
    requires space == left || pos + space == chain[m].Length
    requires InTwo(chain, job.off + 16 * g.k, Min(16, left))
    modifies chain
    ensures m < j && Turning(c, s, job, chain, h, out, j, to, i + 1, left - 16)
  {
    var need := Min(left, 16) - space;
    if need == 0 {
      out, h := LastHere(c, s, chain, m, pos, space, i, b, job, g);
      j, to := m + 1, 0;
    } else {
      out, j, h := BlockAcross(c, s, chain, m, pos, space, need, i, b, left, job, g);
      to := need;
      if left <= 16 {
        AllDone(|job.p|, i);
      }
    }
  }

  /** No block touches more than two buffers, empty ones apart. */
  ghost predicate AllInTwo(chain: Chain, off: nat, len: nat) {
    forall k: nat :: k < Blocks(len) ==> InTwo(chain, off + 16 * k, Min(16, len - 16 * k))
  }

  /** From a buffer whose whole blocks are done, `space` octets being left in it, to the next. */
  method Leave(c: Cipher, s: Counter, chain: Chain, m: nat, pos: nat, space: int, i: nat, left: int, b0: Block,
               ghost job: Job, ghost g0: Stage)
    returns (n: nat, to: nat, next: nat, now: int, b: Block, ghost g: Stage)
    requires Distinct(chain) && Going(c, s, job, chain, g0, b0, m, pos, i, left) && left > 0
    requires AllInTwo(chain, job.off, |job.p|) && 0 <= space < 16 && space <= left && pos + space <= chain[m].Length
    requires (pos + space == chain[m].Length || space == left) && m + 1 < |chain|
    modifies chain
    ensures Turning(c, s, job, chain, g, b, n, to, next, now) && (now > 0 ==> m < n)
  {
    if space != 0 {
      MoreBlocks(|job.p|, g0.k);
      b, n, to, g := Across(c, s, chain, m, pos, space, i, left, b0, job, g0);
      next, now := i + 1, left - 16;
    } else {
      n, to, next, now, b, g := m + 1, 0, i, left, b0, g0;
      NextBuffer(chain, job.off, g.v, m, n, pos);
    }
  }

  lemma NextBuffer(chain: Chain, off: nat, v: Work, m: nat, n: nat, pos: nat)
    requires At2(chain, off, v, m, pos) && pos == chain[m].Length && n == m + 1 < |chain|
    ensures At2(chain, off, v, n, 0)
  {
  }

  lemma LeftOver(chain: Chain, m: nat, n: nat, pos: nat, off: nat, len: nat, done: nat, left: int)
    requires m < |chain| && Offset(chain, m) + pos == off + done && left == len - done
    requires off + len <= Offset(chain, |chain|) && n == m + 1 == |chain|
    ensures left <= chain[m].Length - pos
  {
  }

  /** In the last buffer the message ends. */
  method AtLast(c: Cipher, s: Counter, chain: Chain, m: nat, pos: nat, space: int, i: nat, ghost left: int, b0: Block,
                ghost job: Job, ghost g0: Stage)
    returns (b: Block, ghost g: Stage)
    requires Distinct(chain) && Going(c, s, job, chain, g0, b0, m, pos, i, left) && left > 0
    requires m + 1 == |chain| && 0 <= space < 16 && space <= left
    requires pos + space == chain[m].Length || (space == left && pos + space <= chain[m].Length)
    modifies chain[m]
    ensures Turning(c, s, job, chain, g, b, m, 0, i, 0)
  {
    MoreBlocks(|job.p|, g0.k);
    UptoNext(|job.p|, g0.k);
    LeftOver(chain, m, m + 1, pos, job.off, |job.p|, 16 * g0.k, left);
    b, g := LastHere(c, s, chain, m, pos, space, i, b0, job, g0);
  }

  method EndOrLeave(c: Cipher, s: Counter, chain: Chain, m: nat, pos: nat, space: int, i: nat, left: int, b0: Block,
                    ghost job: Job, ghost g0: Stage)
    returns (n: nat, to: nat, next: nat, now: int, b: Block, ghost g: Stage)
    requires Distinct(chain) && Going(c, s, job, chain, g0, b0, m, pos, i, left) && left > 0
    requires AllInTwo(chain, job.off, |job.p|) && 0 <= space < 16 && space <= left && pos + space <= chain[m].Length
    requires pos + space == chain[m].Length || space == left
    modifies chain
    ensures Turning(c, s, job, chain, g, b, n, to, next, now) && (now > 0 ==> m < n)
  {
    if m + 1 == |chain| {
      b, g := AtLast(c, s, chain, m, pos, space, i, left, b0, job, g0);
      n, to, next, now := m, 0, i, 0;
    } else {
      n, to, next, now, b, g := Leave(c, s, chain, m, pos, space, i, left, b0, job, g0);
    }
  }

  /** One turn of the walk: the whole blocks of a buffer, and on to the next. */
  method Turn(c: Cipher, s: Counter, chain: Chain, m: nat, pos0: nat, i0: nat, left0: int, b0: Block,
              ghost job: Job, ghost g0: Stage)
    returns (n: nat, pos: nat, i: nat, left: int, b: Block, ghost g: Stage)
    requires Distinct(chain) && Going(c, s, job, chain, g0, b0, m, pos0, i0, left0) && left0 > 0
    requires AllInTwo(chain, job.off, |job.p|)
    modifies chain
    ensures Turning(c, s, job, chain, g, b, n, pos, i, left) && (left > 0 ==> m < n)
  {
    var space: int := chain[m].Length - pos0;
    if space > left0 {
      space := left0;
    }
    pos, space, i, left, b, g := BlocksHere(c, s, chain, m, pos0, space, i0, left0, b0, job, g0);
    n := m;
    if left <= 0 {
      AllDone(|job.p|, g.k);
    } else {
      n, pos, i, left, b, g := EndOrLeave(c, s, chain, m, pos, space, i, left, b, job, g);
    }
  }

  /** Encrypts `len` octets from `off` on, the counter starting at 1; `b` is the
      chaining value so far. */
  method EncryptData(c: Cipher, s: Counter, chain: Chain, off: nat, len: nat, b0: Block, ghost cs0: seq<seq<Byte>>)
    returns (b: Block, ghost cs: seq<seq<Byte>>)
    requires Distinct(chain) && Holds(chain, cs0) && chain != [] && off <= chain[0].Length
    requires off + len == Offset(chain, |chain|) && AllInTwo(chain, off, len) && Lawful(c.x)
    modifies chain
    ensures Holds(chain, cs) && off + len == |Flat(cs0)|
    ensures var f := Flat(cs0);
            && Flat(cs) == Put(f, off, Enciphered(c, s, f[off..off + len]))
            && b == Chained(c, b0, f[off..off + len], Blocks(len))
  {
    FlatSize(chain, cs0);
    ghost var job := Job(b0, Flat(cs0), off, Flat(cs0)[off..off + len]);
    ghost var g := Stage(0, Work([], b0), cs0);
    var m: nat, pos: nat, i: nat, left: int := 0, off, 1, len;
    b := b0;
    Begin(c, s, job, chain, g, b);
    while left > 0
      invariant Turning(c, s, job, chain, g, b, m, pos, i, left)
      decreases left > 0, |chain| - m
    {
      m, pos, i, left, b, g := Turn(c, s, chain, m, pos, i, left, b, job, g);
    }
    cs := g.cs;
    SealedIs(c, s, b0, job.p);
  }

  lemma PutNothing(f: seq<Byte>, off: nat)
    requires off <= |f|
    ensures Put(f, off, []) == f
  {
  }

  lemma Begin(c: Cipher, s: Counter, job: Job, chain: Chain, g: Stage, b: Block)
    requires Proper(job) && g == Stage(0, Work([], b), g.cs) && b == job.x && Flat(g.cs) == job.f && Holds(chain, g.cs)
    requires chain != [] && job.off <= chain[0].Length && job.off + |job.p| <= Offset(chain, |chain|)
    ensures Turning(c, s, job, chain, g, b, 0, job.off, 1, |job.p|)
  {
    PutNothing(job.f, job.off);
    assert Sealing(c, s, job, g, b) && At2(chain, job.off, g.v, 0, job.off);
    if |job.p| == 0 {
      AllDone(0, 0);
    }
  }
}
