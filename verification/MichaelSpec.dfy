/** The Michael message integrity code of a flat, padded message
    (section 11.4.2.3 of IEEE Std 802.11-2012). */
module MichaelSpec {
  import opened Octets

  datatype Mic = Mic(l: bv32, r: bv32)

  /** Adding four octets of message to the left half, and the block function. */
  datatype Hash = Hash(x: (Mic, Byte, Byte, Byte, Byte) -> Mic, b: Mic -> Mic)

  // ---- the function itself ------------------------------------------------

  function Le32(b0: Byte, b1: Byte, b2: Byte, b3: Byte): bv32 {
    (b0 as bv32) | ((b1 as bv32) << 8) | ((b2 as bv32) << 16) | ((b3 as bv32) << 24)
  }

  function Rotl(v: bv32, n: nat): bv32
    requires 0 < n < 32
  {
    (v << n) | (v >> (32 - n))
  }

  function Xswap(v: bv32): bv32 {
    ((v & 0x00ff_00ff) << 8) | ((v & 0xff00_ff00) >> 8)
  }

  /** The operations on words that the block function is made of. */
  datatype Ops = Ops(add: (bv32, bv32) -> bv32, xor: (bv32, bv32) -> bv32,
                     left17: bv32 -> bv32, left3: bv32 -> bv32, right2: bv32 -> bv32, swap: bv32 -> bv32)

  function Sum(a: bv32, b: bv32): bv32 { a + b }

  function Xor32(a: bv32, b: bv32): bv32 { a ^ b }

  const WORDS := Ops(Sum, Xor32, v => Rotl(v, 17), v => Rotl(v, 3), v => Rotl(v, 30), Xswap)

  function Block(o: Ops, m: Mic): Mic {
    var r := o.xor(m.r, o.left17(m.l));
    var l := o.add(m.l, r);
    var r := o.xor(r, o.swap(l));
    var l := o.add(l, r);
    var r := o.xor(r, o.left3(l));
    var l := o.add(l, r);
    var r := o.xor(r, o.right2(l));
    Mic(o.add(l, r), r)
  }

  function AddWord(m: Mic, b0: Byte, b1: Byte, b2: Byte, b3: Byte): Mic {
    Mic(m.l ^ Le32(b0, b1, b2, b3), m.r)
  }

  const MICHAEL := Hash(AddWord, m => Block(WORDS, m))

  /** A zero word adds nothing. */
  ghost predicate ZeroFree(h: Hash) {
    forall m :: h.x(m, 0, 0, 0, 0) == m
  }

  lemma MichaelZeroFree()
    ensures ZeroFree(MICHAEL)
  {
    forall m ensures AddWord(m, 0, 0, 0, 0) == m {
      ZeroWord(m.l);
    }
  }

  lemma ZeroWord(l: bv32)
    ensures l ^ Le32(0, 0, 0, 0) == l
  {
    assert l ^ 0 == l;
  }

  // ---- a message ----------------------------------------------------------

  /** One word of `s`, at `i`. */
  function Absorb(h: Hash, m: Mic, s: seq<Byte>, i: nat): Mic
    requires i + 4 <= |s|
  {
    h.b(h.x(m, s[i], s[i + 1], s[i + 2], s[i + 3]))
  }

  /** `k` words of `s` from `at` on. */
  function Words(h: Hash, m: Mic, s: seq<Byte>, at: nat, k: nat): Mic
    requires at + 4 * k <= |s|
  {
    if k == 0 then m else Absorb(h, Words(h, m, s, at, k - 1), s, at + 4 * (k - 1))
  }

  function Zeros(n: nat): (s: seq<Byte>)
    ensures |s| == n && forall i :: 0 <= i < n ==> s[i] == 0
  {
    if n == 0 then [] else Zeros(n - 1) + [0]
  }

  /** The message, the octet 0x5a, and four to seven zeros to make whole words. */
  function Padded(s: seq<Byte>): (p: seq<Byte>)
    ensures |p| % 4 == 0
  {
    PadSize(|s|);
    s + [0x5a] + Zeros(7 - |s| % 4)
  }

  lemma PadSize(n: nat)
    ensures (n + 1 + (7 - n % 4)) % 4 == 0
  {
  }

  function Flattened(h: Hash, m: Mic, s: seq<Byte>): Mic {
    Words(h, m, Padded(s), 0, |Padded(s)| / 4)
  }

  /** Words are the same wherever they stand. */
  lemma {:induction false} WordsMoved(h: Hash, m: Mic, s: seq<Byte>, at: nat, t: seq<Byte>, k: nat)
    requires at + 4 * k <= |s| && 4 * k <= |t| && s[at..at + 4 * k] == t[..4 * k]
    ensures Words(h, m, s, at, k) == Words(h, m, t, 0, k)
  {
    if k > 0 {
      var i := 4 * (k - 1);
      var u, v := s[at..at + 4 * k], t[..4 * k];
      assert s[at..at + i] == u[..i] && t[..i] == v[..i];
      WordsMoved(h, m, s, at, t, k - 1);
      assert s[at + i] == u[i] && s[at + i + 1] == u[i + 1] && s[at + i + 2] == u[i + 2] && s[at + i + 3] == u[i + 3];
      assert t[i] == v[i] && t[i + 1] == v[i + 1] && t[i + 2] == v[i + 2] && t[i + 3] == v[i + 3];
    }
  }

  /** The padded message after its whole words: what is left, 0x5a and zeros to
      fill a word, and a word of zeros. */
  lemma PaddedTail(s: seq<Byte>, k: nat)
    requires |s| / 4 == k
    ensures |Padded(s)| == 4 * k + 8 && Padded(s)[..4 * k] == s[..4 * k]
    ensures var p, i, n := Padded(s), 4 * k, |s| % 4;
            && p[i] == (if n > 0 then s[i] else 0x5a)
            && p[i + 1] == (if n > 1 then s[i + 1] else if n == 1 then 0x5a else 0)
            && p[i + 2] == (if n > 2 then s[i + 2] else if n == 2 then 0x5a else 0)
            && p[i + 3] == (if n == 3 then 0x5a else 0)
    ensures var p, i := Padded(s), 4 * k + 4; p[i] == 0 && p[i + 1] == 0 && p[i + 2] == 0 && p[i + 3] == 0
  {
    assert |s| == 4 * k + |s| % 4;
  }

  /** The last word as the code builds it, case by case. */
  function LastWord(h: Hash, m: Mic, t: seq<Byte>): Mic
    requires |t| < 4
  {
    if |t| == 0 then h.x(m, 0x5a, 0, 0, 0)
    else if |t| == 1 then h.x(m, t[0], 0x5a, 0, 0)
    else if |t| == 2 then h.x(m, t[0], t[1], 0x5a, 0)
    else h.x(m, t[0], t[1], t[2], 0x5a)
  }

  /** Whole words, then the last word, then the block function once more. */
  lemma FlattenedIs(h: Hash, m: Mic, f: seq<Byte>, off: nat, s: seq<Byte>, k: nat)
    requires ZeroFree(h) && off + |s| <= |f| && f[off..off + |s|] == s && k == |s| / 4
    ensures off + 4 * k <= |f| && |s| - 4 * k < 4
    ensures Flattened(h, m, s) == h.b(h.b(LastWord(h, Words(h, m, f, off, k), s[4 * k..])))
  {
    var p, i := Padded(s), 4 * k;
    PaddedTail(s, k);
    assert f[off..off + i] == s[..i];
    WordsMoved(h, m, f, off, p, k);
    var w := Words(h, m, p, 0, k);
    var v := Absorb(h, w, p, i);
    assert Words(h, m, p, 0, k + 1) == v;
    assert Words(h, m, p, 0, k + 2) == Absorb(h, v, p, i + 4);
    assert v == h.b(LastWord(h, w, s[i..]));
  }
}
