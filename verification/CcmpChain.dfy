/** CCMP encryption and decryption in place over a chain of buffers. */
module CcmpChain {
  import opened Octets
  import opened Mbufs
  import opened CcmSpec

  // ---- octets of a block --------------------------------------------------

  lemma {:induction false} XorSeqAppend(x: Xor2, a: seq<Byte>, b: seq<Byte>, k: seq<Byte>)
    requires |a| + |b| <= |k|
    ensures XorSeq(x, a + b, k) == XorSeq(x, a, k) + XorSeq(x, b, k[|a|..])
    decreases |b|
  {
    if b == [] {
      assert a + b == a;
    } else {
      var n := |b| - 1;
      XorSeqAppend(x, a, b[..n], k);
      assert (a + b)[..|a| + n] == a + b[..n];
    }
  }

  /** Adding the second part of a block and then the first adds the block. */
  lemma MixedTwice(x: Xor2, b: Block, p: seq<Byte>, q: seq<Byte>)
    requires |p| + |q| <= 16
    ensures Mixed(x, Mixed(x, b, |p|, q), 0, p) == Mixed(x, b, 0, p + q)
  {
    var y := Mixed(x, b, |p|, q);
    XorSeqAppend(x, p, q, b);
    XorSeqPrefix(x, p, y, b);
    assert b[0..] == b && y[0..] == y;
    assert y[|p|..] == XorSeq(x, q, b[|p|..]) + b[|p| + |q|..];
  }

  /** Only as much of the second string matters as the first is long. */
  lemma {:induction false} XorSeqPrefix(x: Xor2, p: seq<Byte>, a: seq<Byte>, b: seq<Byte>)
    requires |p| <= |a| && |p| <= |b| && a[..|p|] == b[..|p|]
    ensures XorSeq(x, p, a) == XorSeq(x, p, b)
  {
    if p != [] {
      var n := |p| - 1;
      assert a[..n] == a[..|p|][..n] == b[..n];
      XorSeqPrefix(x, p[..n], a, b);
      assert a[n] == a[..|p|][n] == b[n];
    }
  }

  /** Adds octets `from` and on of a block to `n` octets of a buffer. */
  method XorBytes(c: Cipher, buf: array<Byte>, at: nat, n: nat, k: Block, from: nat)
    requires at + n <= buf.Length && from + n <= 16
    modifies buf
    ensures buf[..] == Put(old(buf[..]), at, XorSeq(c.x, old(buf[..])[at..at + n], k[from..]))
  {
    ghost var b, d := buf[..], [];
    var i := 0;
    assert b[at..at] == [];
    while i < n
      invariant i <= n && |d| == i && buf[..] == Put(b, at, d) && d == XorSeq(c.x, b[at..at + i], k[from..])
    {
      ghost var y := c.x(b[at + i], k[from..][i]);
      PutNext(b, at, d, y);
      XorSeqStretch(c.x, b, at, i, k[from..], d, y);
      buf[at + i] := c.x(buf[at + i], k[from + i]);
      d, i := d + [y], i + 1;
    }
  }

  lemma XorSeqStretch(x: Xor2, b: seq<Byte>, at: nat, i: nat, k: seq<Byte>, d: seq<Byte>, y: Byte)
    requires at + i < |b| && i < |k| && d == XorSeq(x, b[at..at + i], k) && y == x(b[at + i], k[i])
    ensures XorSeq(x, b[at..at + (i + 1)], k) == d + [y]
  {
    StretchNext(b, at, i);
    XorSeqSnoc(x, b[at..at + i], b[at + i], k);
  }

  lemma StretchNext(b: seq<Byte>, at: nat, i: nat)
    requires at + i < |b|
    ensures b[at..at + (i + 1)] == b[at..at + i] + [b[at + i]]
  {
  }

  lemma XorSeqSnoc(x: Xor2, a: seq<Byte>, b: Byte, k: seq<Byte>)
    requires |a| < |k|
    ensures XorSeq(x, a + [b], k) == XorSeq(x, a, k) + [x(b, k[|a|])]
  {
    assert (a + [b])[..|a|] == a;
  }

  // ---- one block ----------------------------------------------------------

  /** A payload to work on: the chaining value it starts from, the packet as it
      was, and where in it the payload starts. */
  datatype Job = Job(x: Block, f: seq<Byte>, off: nat, p: seq<Byte>)

  predicate Proper(job: Job) {
    job.off + |job.p| <= |job.f| && job.p == job.f[job.off..job.off + |job.p|]
  }

  /** How far it has come: `k` blocks, what they gave, and what the buffers hold. */
  datatype Stage = Stage(k: nat, v: Work, cs: seq<seq<Byte>>)

  /** A packet so far: what `v` has put out stands at `off`, the rest is as it was. */
  ghost predicate Standing(f: seq<Byte>, off: nat, v: Work, cs: seq<seq<Byte>>) {
    off + |v.out| <= |f| && Flat(cs) == Put(f, off, v.out)
  }

  /** Encrypting the packet's next `n` octets takes `v` to `w`. */
  ghost predicate Adds(c: Cipher, k: Block, f: seq<Byte>, off: nat, n: nat, v: Work, w: Work) {
    n <= 16 && off + |v.out| + n <= |f| && w == Seal(c, k, v, f[off + |v.out|..off + |v.out| + n])
  }

  /** Where the next block is found, it is the message's. */
  lemma NextBlock(f: seq<Byte>, off: nat, v: Work, cs: seq<seq<Byte>>, m: nat, pos: nat, n: nat)
    requires Standing(f, off, v, cs) && m < |cs| && pos + n <= |cs[m]| && At(cs, m) + pos == off + |v.out|
    ensures off + |v.out| + n <= |f| && cs[m][pos..pos + n] == f[off + |v.out|..off + |v.out| + n]
  {
    FlatPiece(cs, m, pos, n);
    PutAhead(f, off, v.out, n);
  }

  /** A block rewritten in one buffer is put out. */
  lemma PutOutHere(f: seq<Byte>, off: nat, v: Work, cs: seq<seq<Byte>>, m: nat, pos: nat, y: seq<Byte>, v': Work)
    requires Standing(f, off, v, cs) && m < |cs| && pos + |y| <= |cs[m]| && At(cs, m) + pos == off + |v.out|
    requires v'.out == v.out + y
    ensures Standing(f, off, v', cs[m := Put(cs[m], pos, y)])
  {
    FlatPatch(cs, m, pos, y);
    PutOn(f, off, v.out, y);
  }

  /** A block rewritten in two buffers, with nothing between them, is put out. */
  lemma PutOutAcross(f: seq<Byte>, off: nat, v: Work, cs: seq<seq<Byte>>, m: nat, pos: nat, y: seq<Byte>,
                     j: nat, z: seq<Byte>, v': Work)
    requires Standing(f, off, v, cs) && m < j < |cs| && pos + |y| == |cs[m]| && |z| <= |cs[j]|
    requires At(cs, m) + pos == off + |v.out| && At(cs, j) == At(cs, m) + |cs[m]| && v'.out == v.out + (y + z)
    ensures Standing(f, off, v', cs[m := Put(cs[m], pos, y)][j := Put(cs[j], 0, z)])
  {
    var ds := cs[m := Put(cs[m], pos, y)];
    PutOutHere(f, off, v, cs, m, pos, y, Work(v.out + y, v.x));
    SameStarts(cs, ds, j);
    assert v'.out == v.out + y + z;
    PutOutHere(f, off, Work(v.out + y, v.x), ds, j, 0, z, v');
  }

  lemma {:induction false} SameStarts(cs: seq<seq<Byte>>, ds: seq<seq<Byte>>, m: nat)
    requires |cs| == |ds| && m <= |cs| && forall k :: 0 <= k < |cs| ==> |cs[k]| == |ds[k]|
    ensures At(cs, m) == At(ds, m)
  {
    if m > 0 {
      SameStarts(cs, ds, m - 1);
      AtNext(cs, m - 1);
      AtNext(ds, m - 1);
    }
  }

  /** A block, or part of one, that lies in one buffer is encrypted. */
  method SealHere(c: Cipher, k: Block, chain: Chain, m: nat, pos: nat, n: nat, b: Block,
                  ghost f: seq<Byte>, ghost off: nat, ghost v: Work, ghost cs: seq<seq<Byte>>)
    returns (out: Block, ghost v': Work, ghost ns: seq<seq<Byte>>)
    requires Distinct(chain) && Holds(chain, cs) && m < |chain| && pos + n <= chain[m].Length && n <= 16
    requires Standing(f, off, v, cs) && At(cs, m) + pos == off + |v.out| && b == v.x
    modifies chain[m]
    ensures Holds(chain, ns) && out == v'.x && Standing(f, off, v', ns) && Adds(c, k, f, off, n, v, v')
  {
    assert Sole(chain, m);
    NextBlock(f, off, v, cs, m, pos, n);
    ghost var q := cs[m][pos..pos + n];
    out := c.e(Mixed(c.x, b, 0, chain[m][pos..pos + n]));
    XorBytes(c, chain[m], pos, n, k, 0);
    assert k[0..] == k;
    v', ns := Seal(c, k, v, q), cs[m := chain[m][..]];
    PutOutHere(f, off, v, cs, m, pos, XorSeq(c.x, q, k), v');
  }

  // ---- blocks that touch two buffers --------------------------------------

  /** `n` octets from `start` on lie in one buffer or two, with no octets between them. */
  ghost predicate InTwo(chain: Chain, start: nat, n: nat) {
    exists i: nat, j: nat :: Bounds(chain, start, n, i, j)
  }

  ghost predicate Bounds(chain: Chain, start: nat, n: nat, i: nat, j: nat) {
    && i <= j < |chain| && Offset(chain, i) <= start && start + n <= Offset(chain, j + 1)
    && (i == j || Offset(chain, i + 1) == Offset(chain, j))
  }

  lemma {:induction false} OffsetGrows(chain: Chain, m: nat, n: nat)
    requires m <= n <= |chain|
    ensures Offset(chain, m) <= Offset(chain, n)
  {
    if m < n {
      OffsetGrows(chain, m, n - 1);
    }
  }

  /** The rest of a block that starts in buffer `m` is all in the next buffer
      that is not empty. */
  lemma RestIn(chain: Chain, m: nat, pos: nat, n: nat) returns (j: nat)
    requires m < |chain| && pos < chain[m].Length && InTwo(chain, Offset(chain, m) + pos, n)
    requires pos + n > chain[m].Length
    ensures m < j < |chain| && Offset(chain, j) == Offset(chain, m + 1) && pos + n <= chain[m].Length + chain[j].Length
  {
    var start := Offset(chain, m) + pos;
    var i: nat, k: nat :| Bounds(chain, start, n, i, k);
    j := k;
    if i > m {
      OffsetGrows(chain, m + 1, i);
      assert false;
    }
    if k <= m {
      OffsetGrows(chain, k + 1, m + 1);
      assert false;
    }
    if i < m {
      OffsetGrows(chain, i + 1, m);
      OffsetGrows(chain, m + 1, k);
      assert false;
    }
  }

  /** The first buffer after `m` that holds `need` octets. */
  method Rest(chain: Chain, m: nat, need: nat, ghost j: nat) returns (n: nat)
    requires m < j < |chain| && Offset(chain, j) == Offset(chain, m + 1) && need <= chain[j].Length && need > 0
    ensures n == j
  {
    n := m + 1;
    while chain[n].Length < need
      invariant m < n <= j
      decreases j - n
    {
      OffsetGrows(chain, m + 1, n);
      OffsetGrows(chain, n + 1, j);
      n := n + 1;
    }
    if n < j {
      OffsetGrows(chain, m + 1, n);
      OffsetGrows(chain, n + 1, j);
    }
  }

  /** The chaining value after a block gathered from two buffers. */
  method Gather(c: Cipher, b: Block, first: array<Byte>, pos: nat, space: nat, second: array<Byte>, need: nat)
    returns (out: Block)
    requires pos + space <= first.Length && need <= second.Length && space + need <= 16
    ensures out == c.e(Mixed(c.x, b, 0, first[pos..pos + space] + second[0..need]))
  {
    var x := Mixed(c.x, b, space, second[0..need]);
    MixedTwice(c.x, b, first[pos..pos + space], second[0..need]);
    out := c.e(Mixed(c.x, x, 0, first[pos..pos + space]));
  }

  lemma AcrossDone(c: Cipher, k: Block, f: seq<Byte>, off: nat, v: Work, cs: seq<seq<Byte>>, m: nat, pos: nat, space: nat,
                   j: nat, need: nat, len: nat, q: seq<Byte>, r: seq<Byte>, v': Work)
    requires Standing(f, off, v, cs) && m < j < |cs| && pos + space == |cs[m]| && need <= |cs[j]| && space + need == len <= 16
    requires At(cs, m) + pos == off + |v.out| && At(cs, j) == At(cs, m) + |cs[m]|
    requires q == cs[m][pos..pos + space] && r == cs[j][0..need] && v' == Seal(c, k, v, q + r)
    ensures Adds(c, k, f, off, len, v, v')
    ensures Standing(f, off, v', cs[m := Put(cs[m], pos, XorSeq(c.x, q, k))][j := Put(cs[j], 0, XorSeq(c.x, r, k[space..]))])
  {
    Joined(f, off, v, cs, m, pos, space, j, need, len);
    XorSeqAppend(c.x, q, r, k);
    PutOutAcross(f, off, v, cs, m, pos, XorSeq(c.x, q, k), j, XorSeq(c.x, r, k[space..]), v');
  }

  /** A block of key stream added to the octets that end one buffer and those that begin another. */
  method XorAcross(c: Cipher, k: Block, chain: Chain, m: nat, pos: nat, space: nat, need: nat,
                   ghost cs: seq<seq<Byte>>, ghost j: nat)
    returns (n: nat, ghost ns: seq<seq<Byte>>)
    requires Distinct(chain) && Holds(chain, cs) && m < j < |chain| && pos + space == chain[m].Length && space > 0
    requires Offset(chain, j) == Offset(chain, m + 1) && 0 < need <= chain[j].Length && space + need <= 16
    modifies chain
    ensures n == j && Holds(chain, ns)
    ensures ns == cs[m := Put(cs[m], pos, XorSeq(c.x, cs[m][pos..pos + space], k))]
                    [j := Put(cs[j], 0, XorSeq(c.x, cs[j][0..need], k[space..]))]
  {
    assert Sole(chain, m) && Sole(chain, j);
    XorBytes(c, chain[m], pos, space, k, 0);
    n := Rest(chain, m, need, j);
    XorBytes(c, chain[n], 0, need, k, space);
    assert k[0..] == k;
    ns := cs[m := chain[m][..]][j := chain[j][..]];
  }

  /** A block whose first octets end one buffer and whose others begin another is encrypted. */
  method SealAcross(c: Cipher, k: Block, chain: Chain, m: nat, pos: nat, space: nat, need: nat, b: Block,
                    ghost f: seq<Byte>, ghost off: nat, ghost v: Work, ghost cs: seq<seq<Byte>>, ghost j: nat,
                    ghost len: nat)
    returns (out: Block, n: nat, ghost v': Work, ghost ns: seq<seq<Byte>>)
    requires Distinct(chain) && Holds(chain, cs) && m < j < |chain| && pos + space == chain[m].Length && space > 0
    requires Offset(chain, j) == Offset(chain, m + 1) && 0 < need <= chain[j].Length && space + need == len <= 16
    requires Standing(f, off, v, cs) && At(cs, m) + pos == off + |v.out| && b == v.x
    modifies chain
    ensures n == j && Holds(chain, ns) && out == v'.x && Standing(f, off, v', ns) && Adds(c, k, f, off, len, v, v')
  {
    AtIsOffset(chain, cs, m);
    AtIsOffset(chain, cs, j);
    ghost var q, r := cs[m][pos..pos + space], cs[j][0..need];
    n := Rest(chain, m, need, j);
    out := Gather(c, b, chain[m], pos, space, chain[n], need);
    v' := Seal(c, k, v, q + r);
    AcrossDone(c, k, f, off, v, cs, m, pos, space, j, need, len, q, r, v');
    n, ns := XorAcross(c, k, chain, m, pos, space, need, cs, j);
  }

  lemma Adjoin(s: seq<Byte>, a: nat, b: nat, c: nat)
    requires a <= b <= c <= |s|
    ensures s[a..b] + s[b..c] == s[a..c]
  {
  }

  /** The two parts are the message's next octets. */
  lemma Joined(f: seq<Byte>, off: nat, v: Work, cs: seq<seq<Byte>>, m: nat, pos: nat, space: nat, j: nat, need: nat, len: nat)
    requires Standing(f, off, v, cs) && m < j < |cs| && pos + space == |cs[m]| && need <= |cs[j]| && space + need == len
    requires At(cs, m) + pos == off + |v.out| && At(cs, j) == At(cs, m) + |cs[m]|
    ensures off + |v.out| + len <= |f|
    ensures cs[m][pos..pos + space] + cs[j][0..need] == f[off + |v.out|..off + |v.out| + len]
  {
    NextBlock(f, off, v, cs, m, pos, space);
    FlatPiece(cs, j, 0, need);
    var s, a := Flat(cs), off + |v.out|;
    PutAhead(f, off, v.out, len);
    FlatPiece(cs, m, pos, space);
    Adjoin(s, a, a + space, a + len);
  }
}
