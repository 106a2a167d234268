/** Chains of buffers, as the driver's packets are stored. */
module Mbufs {

  import opened Octets

  type Chain = seq<array<Byte>>

  /** Buffer `m` occurs once. */
  predicate Sole(chain: Chain, m: nat)
    requires m < |chain|
  {
    forall k :: 0 <= k < |chain| && k != m ==> chain[k] != chain[m]
  }

  predicate Distinct(chain: Chain) {
    forall m: nat :: m < |chain| ==> Sole(chain, m)
  }

  /** What the buffers hold. */
  ghost function Bytes(chain: Chain): (c: seq<seq<Byte>>)
    reads chain
    ensures |c| == |chain| && forall k :: 0 <= k < |c| ==> c[k] == chain[k][..]
  {
    if chain == [] then [] else Bytes(chain[..|chain| - 1]) + [chain[|chain| - 1][..]]
  }

  ghost predicate Holds(chain: Chain, cs: seq<seq<Byte>>)
    reads chain
  {
    |cs| == |chain| && forall k :: 0 <= k < |cs| ==> cs[k] == chain[k][..]
  }

  /** The packet as one string of octets. */
  ghost function Flat(c: seq<seq<Byte>>): seq<Byte> {
    if c == [] then [] else Flat(c[..|c| - 1]) + c[|c| - 1]
  }

  ghost function Packet(chain: Chain): seq<Byte>
    reads chain
  {
    Flat(Bytes(chain))
  }

  /** Where buffer `m` starts in the packet. */
  ghost function At(c: seq<seq<Byte>>, m: nat): nat
    requires m <= |c|
  {
    |Flat(c[..m])|
  }

  /** Changing what one buffer holds changes that stretch of the packet. */
  lemma {:induction false} FlatUpdate(c: seq<seq<Byte>>, m: nat, b: seq<Byte>)
    requires m < |c| && |b| == |c[m]|
    ensures At(c, m) + |b| <= |Flat(c)|
    ensures Flat(c)[At(c, m)..At(c, m) + |b|] == c[m]
    ensures Flat(c[m := b]) == Flat(c)[..At(c, m)] + b + Flat(c)[At(c, m) + |b|..]
  {
    var n := |c| - 1;
    var init, last := c[..n], c[n];
    var d := c[m := b];
    if m == n {
      assert d[..n] == init && Flat(d) == Flat(init) + b;
    } else {
      FlatUpdate(init, m, b);
      assert init[..m] == c[..m] && d[..n] == init[m := b];
    }
  }

  lemma AtNext(c: seq<seq<Byte>>, m: nat)
    requires m < |c|
    ensures At(c, m + 1) == At(c, m) + |c[m]| && c[..|c|] == c
  {
    assert c[..m + 1][..m] == c[..m];
  }

  /** The same, counted in buffer sizes, which never change. */
  ghost function Offset(chain: Chain, m: nat): nat
    requires m <= |chain|
  {
    if m == 0 then 0 else Offset(chain, m - 1) + chain[m - 1].Length
  }

  lemma {:induction false} AtIsOffset(chain: Chain, cs: seq<seq<Byte>>, m: nat)
    requires m <= |chain| && Holds(chain, cs)
    ensures At(cs, m) == Offset(chain, m)
  {
    if m > 0 {
      AtIsOffset(chain, cs, m - 1);
      AtNext(cs, m - 1);
    }
  }

  lemma FlatSize(chain: Chain, cs: seq<seq<Byte>>)
    requires Holds(chain, cs)
    ensures |Flat(cs)| == Offset(chain, |chain|)
  {
    AtIsOffset(chain, cs, |chain|);
    assert cs[..|chain|] == cs;
  }

  lemma {:induction false} OffsetAtMost(chain: Chain, m: nat)
    requires m <= |chain|
    ensures Offset(chain, m) <= Offset(chain, |chain|)
    decreases |chain| - m
  {
    if m < |chain| {
      OffsetAtMost(chain, m + 1);
    }
  }

  /** `s` with the stretch from `start` on replaced. */
  function Put(s: seq<Byte>, start: nat, b: seq<Byte>): (r: seq<Byte>)
    requires start + |b| <= |s|
    ensures |r| == |s|
  {
    s[..start] + b + s[start + |b|..]
  }

  lemma FlatPut(cs: seq<seq<Byte>>, m: nat, b: seq<Byte>)
    requires m < |cs| && |b| == |cs[m]|
    ensures At(cs, m) + |b| <= |Flat(cs)|
    ensures Flat(cs[m := b]) == Put(Flat(cs), At(cs, m), b) && Flat(cs) == Put(Flat(cs), At(cs, m), cs[m])
  {
    FlatUpdate(cs, m, b);
    FlatUpdate(cs, m, cs[m]);
    assert cs[m := cs[m]] == cs;
  }

  lemma SubPiece(s: seq<Byte>, a: nat, b: seq<Byte>, p: nat, n: nat)
    requires a + |b| <= |s| && s[a..a + |b|] == b && p + n <= |b|
    ensures s[a + p..a + p + n] == b[p..p + n]
  {
    forall i | p <= i < p + n ensures s[a + i] == b[i] {
      assert b[i] == s[a..a + |b|][i];
    }
  }

  /** A stretch of a buffer is that stretch of the packet. */
  lemma FlatPiece(cs: seq<seq<Byte>>, m: nat, p: nat, n: nat)
    requires m < |cs| && p + n <= |cs[m]|
    ensures At(cs, m) + p + n <= |Flat(cs)|
    ensures Flat(cs)[At(cs, m) + p..At(cs, m) + p + n] == cs[m][p..p + n]
  {
    FlatUpdate(cs, m, cs[m]);
    SubPiece(Flat(cs), At(cs, m), cs[m], p, n);
  }

  lemma PutPut(s: seq<Byte>, a: nat, b: seq<Byte>, p: nat, y: seq<Byte>)
    requires a + |b| <= |s| && s[a..a + |b|] == b && p + |y| <= |b|
    ensures Put(s, a, Put(b, p, y)) == Put(s, a + p, y)
  {
    SubPiece(s, a, b, 0, p);
    SubPiece(s, a, b, p + |y|, |b| - p - |y|);
  }

  lemma Patch(s: seq<Byte>, a: nat, b: seq<Byte>, p: nat, y: seq<Byte>, nb: seq<Byte>)
    requires a + |b| <= |s| && s[a..a + |b|] == b && p + |y| <= |b| && nb == Put(b, p, y)
    ensures Put(s, a, nb) == Put(s, a + p, y)
  {
    PutPut(s, a, b, p, y);
  }

  lemma FlatWhole(cs: seq<seq<Byte>>, m: nat)
    requires m < |cs|
    ensures At(cs, m) + |cs[m]| <= |Flat(cs)| && Flat(cs)[At(cs, m)..At(cs, m) + |cs[m]|] == cs[m]
  {
    FlatUpdate(cs, m, cs[m]);
  }

  /** Changing a stretch of a buffer changes that stretch of the packet. */
  lemma FlatPatch(cs: seq<seq<Byte>>, m: nat, p: nat, y: seq<Byte>)
    requires m < |cs| && p + |y| <= |cs[m]|
    ensures At(cs, m) + p + |y| <= |Flat(cs)|
    ensures Flat(cs[m := Put(cs[m], p, y)]) == Put(Flat(cs), At(cs, m) + p, y)
  {
    FlatWhole(cs, m);
    FlatPut(cs, m, Put(cs[m], p, y));
    Patch(Flat(cs), At(cs, m), cs[m], p, y, Put(cs[m], p, y));
  }

  lemma PutOn(f: seq<Byte>, off: nat, a: seq<Byte>, b: seq<Byte>)
    requires off + |a| + |b| <= |f|
    ensures Put(Put(f, off, a), off + |a|, b) == Put(f, off, a + b)
  {
  }

  lemma PutAhead(f: seq<Byte>, off: nat, a: seq<Byte>, n: nat)
    requires off + |a| + n <= |f|
    ensures Put(f, off, a)[off + |a|..off + |a| + n] == f[off + |a|..off + |a| + n]
  {
  }

  lemma PutNext(b: seq<Byte>, at: nat, d: seq<Byte>, x: Byte)
    requires at + |d| < |b|
    ensures Put(b, at, d)[at + |d|] == b[at + |d|]
    ensures Put(b, at, d)[at + |d| := x] == Put(b, at, d + [x])
  {
  }
}
