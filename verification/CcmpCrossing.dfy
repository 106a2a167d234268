/** A receiver that takes in only the first part of a block that crosses from
    buffer to buffer: exactly the chains without such a block accept all that
    was sent, whatever the cipher. */
module CcmpCrossing {
  import opened Octets
  import opened Mbufs
  import opened CcmLaws
  import opened CcmSpec
  import opened CcmpChain
  import opened CcmpEncrypt
  import opened CcmpDecrypt
  import opened Ccmp

  // ---- a cipher ------------------------------------------------------------

  /** Octets 1 and `i` change places when octet 0 is 1. */
  function Turned(b: Block, i: nat): (r: Block)
    requires 1 <= i < 16
    ensures r[0] == b[0]
    ensures forall j :: 0 <= j < 16 ==> r[j] == b[if b[0] == 1 && j == 1 then i else if b[0] == 1 && j == i then 1 else j]
  {
    if b[0] == 1 then b[1 := b[i]][i := b[1]] else b
  }

  function Turning(x: Xor2, i: nat): Cipher
    requires 1 <= i < 16
  {
    Cipher((b: Block) => Turned(b, i), x)
  }

  lemma TurnedTwice(b: Block, i: nat)
    requires 1 <= i < 16
    ensures Turned(Turned(b, i), i) == b
  {
    var r, s := Turned(b, i), Turned(Turned(b, i), i);
    forall j | 0 <= j < 16 ensures s[j] == b[j] {
    }
  }

  lemma TurningPermutes(x: Xor2, i: nat)
    requires 1 <= i < 16
    ensures Permutes(Turning(x, i))
  {
    var c := Turning(x, i);
    forall a, b | c.e(a) == c.e(b) ensures a == b {
      TurnedTwice(a, i);
      TurnedTwice(b, i);
    }
  }

  // ---- a payload -----------------------------------------------------------

  /** Whether block `j` is block `k`. */
  function Mark(j: int, k: nat): Byte {
    if j == k then 1 else 0
  }

  /** Octet 0 of the chaining value before block `j`. */
  function Lead(y: Byte, k: nat, j: nat): Byte {
    if j == 0 then y else Mark(j - 1, k)
  }

  /** Octet `r` of block `j`: in octet 0 what makes that of the sum a 1 in block
      `k` only, and a 1 in octet `i` of block `k`. */
  function Octet(x: Xor2, y: Byte, k: nat, i: nat, j: nat, r: nat): Byte {
    if r == 0 then x(Mark(j, k), Lead(y, k, j)) else if j == k && r == i then 1 else 0
  }

  function Payload(x: Xor2, y: Byte, k: nat, i: nat, len: nat): (p: seq<Byte>)
    ensures |p| == len
    ensures forall n :: 0 <= n < len ==> p[n] == Octet(x, y, k, i, n / 16, n % 16)
  {
    seq(len, n requires 0 <= n < len => Octet(x, y, k, i, n / 16, n % 16))
  }

  /** The octets of one block of it. */
  ghost predicate IsPart(x: Xor2, y: Byte, k: nat, i: nat, j: nat, q: seq<Byte>) {
    1 <= |q| <= 16 && forall r :: 0 <= r < |q| ==> q[r] == Octet(x, y, k, i, j, r)
  }

  lemma PartIs(x: Xor2, y: Byte, k: nat, i: nat, len: nat, j: nat)
    requires j < Blocks(len)
    ensures 16 * j < len && IsPart(x, y, k, i, j, Part(Payload(x, y, k, i, len), j))
  {
    BlockStarts(len, j);
    var p, q := Payload(x, y, k, i, len), Part(Payload(x, y, k, i, len), j);
    forall r | 0 <= r < |q| ensures q[r] == Octet(x, y, k, i, j, r) {
      InBlock(j, r);
      assert q[r] == p[16 * j + r];
    }
  }

  // ---- what becomes of octets 0, 1 and i -----------------------------------

  /** One block taken in by its first octets, at least one. */
  lemma TakenAt(c: Cipher, w: Block, q: seq<Byte>, u: nat, r: nat)
    requires |q| <= 16 && r < 16
    ensures Mixed(c.x, w, 0, q[..Min(u, |q|)])[r] == if r < |q| && r < u then c.x(q[r], w[r]) else w[r]
  {
    var m := Min(u, |q|);
    if r < m {
      XorSeqAt(c.x, q[..m], w[0..], r);
    }
  }

  /** Before block `k` only octet 0 is touched. */
  ghost predicate Quiet(y: Block, k: nat, j: nat, w: Block) {
    w[0] == Lead(y[0], k, j) && forall r :: 1 <= r < 16 ==> w[r] == y[r]
  }

  lemma QuietNext(x: Xor2, y: Block, k: nat, i: nat, j: nat, w: Block, q: seq<Byte>, u: nat)
    requires Lawful(x) && 1 <= i < 16 && j < k && IsPart(x, y[0], k, i, j, q) && 1 <= u && Quiet(y, k, j, w)
    ensures Quiet(y, k, j + 1, TakeIn(Turning(x, i), w, q, u))
  {
    var c := Turning(x, i);
    var z := Mixed(x, w, 0, q[..Min(u, |q|)]);
    forall r | 0 <= r < 16 ensures z[r] == if r == 0 then 0 else w[r] {
      TakenAt(c, w, q, u, r);
      assert x(0, w[r]) == x(w[r], 0);
    }
  }

  /** Block `k` brings octet `i` to octet 1, with what was taken in of it. */
  lemma Strike(x: Xor2, y: Block, k: nat, i: nat, w: Block, q: seq<Byte>, u: nat)
    requires Lawful(x) && 1 <= i < |q| && IsPart(x, y[0], k, i, k, q) && 1 <= u && Quiet(y, k, k, w)
    ensures Struck(x, y, i, u, k, k + 1, TakeIn(Turning(x, i), w, q, u))
  {
    var c := Turning(x, i);
    TakenAt(c, w, q, u, 0);
    TakenAt(c, w, q, u, i);
  }

  /** After block `k`: octet 1 tells whether octet `i` was taken in. */
  ghost predicate Struck(x: Xor2, y: Block, i: nat, u: nat, k: nat, j: nat, w: Block)
    requires 1 <= i < 16
  {
    j > 0 && w[0] == Mark(j - 1, k) && w[1] == if i < u then x(1, y[i]) else y[i]
  }

  lemma StruckNext(x: Xor2, y: Block, k: nat, i: nat, j: nat, w: Block, q: seq<Byte>, u: nat, v: nat)
    requires Lawful(x) && 1 <= i < 16 && k < j && IsPart(x, y[0], k, i, j, q) && 1 <= u && Struck(x, y, i, v, k, j, w)
    ensures Struck(x, y, i, v, k, j + 1, TakeIn(Turning(x, i), w, q, u))
  {
    var c := Turning(x, i);
    TakenAt(c, w, q, u, 0);
    TakenAt(c, w, q, u, 1);
    assert x(0, w[1]) == x(w[1], 0);
  }

  /** At least one octet of every block is taken in. */
  ghost predicate TakesSome(t: Takes, len: nat) {
    forall j: nat :: 0 < j <= Blocks(len) ==> t(j) >= 1
  }

  lemma {:induction false} Trace(x: Xor2, y: Block, k: nat, i: nat, len: nat, p: seq<Byte>, t: Takes, j: nat)
    requires Lawful(x) && 1 <= i < 16 && 16 * k + i < len && p == Payload(x, y[0], k, i, len)
    requires TakesSome(t, len) && j <= Blocks(len)
    ensures var w := Shortened(Turning(x, i), y, p, t, j);
            if j <= k then Quiet(y, k, j, w) else Struck(x, y, i, t(k + 1), k, j, w)
  {
    if j > 0 {
      var n, c := j - 1, Turning(x, i);
      Trace(x, y, k, i, len, p, t, n);
      PartIs(x, y[0], k, i, len, n);
      ShortenedNext(c, y, p, t, n, j);
      var w, q := Shortened(c, y, p, t, n), Part(p, n);
      if n < k {
        QuietNext(x, y, k, i, n, w, q, t(j));
      } else if n == k {
        Strike(x, y, k, i, w, q, t(j));
      } else {
        StruckNext(x, y, k, i, n, w, q, t(j), t(k + 1));
      }
    }
  }

  // ---- an octet the receiver does not take in ------------------------------

  /** Octet `i` of block `k` is part of the payload and not taken in. */
  ghost predicate Missed(t: Takes, len: nat, k: nat, i: nat) {
    1 <= i < 16 && 16 * k + i < len && t(k + 1) <= i && TakesSome(t, len)
  }

  lemma OneShows(x: Xor2, a: Byte)
    requires Lawful(x)
    ensures x(1, a) != a
  {
    assert x(x(1, a), a) == 1;
    assert x(0, a) == x(a, 0) && x(x(0, a), a) == 0;
  }

  /** The sender's tag tells of it, the receiver's does not. */
  lemma MissedShows(x: Xor2, y: Block, t: Takes, len: nat, k: nat, i: nat)
    requires Lawful(x) && Missed(t, len, k, i)
    ensures Turning(x, i).x == x && !TagAgrees(Turning(x, i), y, t, Payload(x, y[0], k, i, len))
  {
    var c, p, all, j := Turning(x, i), Payload(x, y[0], k, i, len), (n: nat) => 16, Blocks(len);
    MoreBlocks(len, k);
    ShortenedIs(c, y, p, all, j);
    Trace(x, y, k, i, len, p, t, j);
    Trace(x, y, k, i, len, p, all, j);
    OneShows(x, y[i]);
    var v, w := Shortened(c, y, p, t, j), Chained(c, y, p, j);
    assert v[..8][1] == v[1] && w[..8][1] == w[1];
  }

  // ---- which chains have such an octet ------------------------------------

  /** A stretch no longer than the room where it starts lies in one buffer. */
  lemma {:induction false} RoomFits(chain: Chain, start: nat, n: nat, m: nat)
    requires m <= |chain| && Offset(chain, m) <= start < Offset(chain, |chain|) && Room(chain, start, m) >= n
    ensures InOne(chain, start, n)
    decreases |chain| - m
  {
    var next := m + 1;
    if start < Offset(chain, next) {
      assert Offset(chain, m) <= start && start + n <= Offset(chain, next);
    } else {
      RoomFits(chain, start, n, next);
    }
  }

  lemma {:induction false} RoomIsSome(chain: Chain, start: nat, m: nat)
    requires m <= |chain| && Offset(chain, m) <= start < Offset(chain, |chain|)
    ensures Room(chain, start, m) >= 1
    decreases |chain| - m
  {
    var next := m + 1;
    if start >= Offset(chain, next) {
      RoomIsSome(chain, start, next);
    }
  }

  lemma RoomsTakeSome(chain: Chain, off: nat, len: nat)
    requires off + len <= Offset(chain, |chain|)
    ensures TakesSome(Rooms(chain, off), len)
  {
    forall j: nat | 0 < j <= Blocks(len) ensures Rooms(chain, off)(j) >= 1 {
      BlockStarts(len, j - 1);
      RoomIsSome(chain, off + 16 * (j - 1), 0);
    }
  }

  /** A chain some block crosses in: a block longer than the room where it starts. */
  lemma Crossing(chain: Chain, off: nat, len: nat) returns (k: nat, i: nat)
    requires off + len <= Offset(chain, |chain|) && !AllInOne(chain, off, len)
    ensures Missed(Rooms(chain, off), len, k, i)
  {
    k :| k < Blocks(len) && !InOne(chain, off + 16 * k, Min(16, len - 16 * k));
    BlockStarts(len, k);
    i := Taken(chain, off, k + 1);
    RoomsTakeSome(chain, off, len);
    assert Rooms(chain, off)(k + 1) == i >= 1;
    if i >= Min(16, len - 16 * k) {
      RoomFits(chain, off + 16 * k, Min(16, len - 16 * k), 0);
      assert false;
    }
  }

  // ---- the condition is exact ---------------------------------------------

  /** Whatever is sent from a payload of that length, under whatever block
      function and start value, the chain's receiver agrees with the sender's tag. */
  ghost predicate AlwaysAgrees(chain: Chain, off: nat, len: nat) {
    forall c: Cipher, x: Block, p: seq<Byte> :: Lawful(c.x) && |p| == len ==> TagAgrees(c, x, Rooms(chain, off), p)
  }

  /** The same under whatever permutation of blocks. */
  ghost predicate PermutationsAgree(chain: Chain, off: nat, len: nat) {
    forall c: Cipher, x: Block, p: seq<Byte> :: Lawful(c.x) && Permutes(c) && |p| == len ==>
      TagAgrees(c, x, Rooms(chain, off), p)
  }

  /** Both hold exactly when no block crosses from buffer to buffer. */
  lemma AgreesIff(chain: Chain, off: nat, len: nat)
    requires off + len <= Offset(chain, |chain|)
    ensures AlwaysAgrees(chain, off, len) <==> AllInOne(chain, off, len)
    ensures PermutationsAgree(chain, off, len) <==> AllInOne(chain, off, len)
  {
    if AllInOne(chain, off, len) {
      forall c: Cipher, x: Block, p: seq<Byte> | Lawful(c.x) && |p| == len ensures TagAgrees(c, x, Rooms(chain, off), p) {
        RoomsAreFirstParts(chain, off);
        InOneTakesAll(Rooms(chain, off), chain, off, len);
        ShortenedIs(c, x, p, Rooms(chain, off), Blocks(len));
      }
    } else {
      var k, i := Crossing(chain, off, len);
      XorIsLawful();
      MissedShows(Xor, Zeros(16), Rooms(chain, off), len, k, i);
      TurningPermutes(Xor, i);
    }
  }

  /** A frame sent as it should be, whatever its header and packet number, under
      some permutation of blocks, that a receiver holding it in such a chain rejects. */
  lemma CrossingRejected(chain: Chain, off: nat, len: nat, h: Header, pn: nat)
    returns (c: Cipher, p: seq<Byte>, g: seq<Byte>, tag: seq<Byte>, r: seq<Byte>, got: seq<Byte>)
    requires off + len + 8 == Offset(chain, |chain|) && AllAdjacent(chain, off, len) && !AllInOne(chain, off, len)
    ensures c.x == Xor && Permutes(c)
    ensures var s, x := KeyBlocks(c, h, pn), StartValue(c, h, pn, len);
            && |p| == len && Sent(c, s, x, p, 0, g, tag)
            && |r| == Offset(chain, |chain|) && r[off..] == g + tag
            && Received(c, s, Rooms(chain, off), x, r, off, len, got, false)
  {
    var k, i := Crossing(chain, off, len);
    XorIsLawful();
    c := Turning(Xor, i);
    TurningPermutes(Xor, i);
    var x := StartValue(c, h, pn, len);
    p := Payload(Xor, x[0], k, i, len);
    MissedShows(Xor, x, Rooms(chain, off), len, k, i);
    g, tag, r, got := RejectedFrame(c, KeyBlocks(c, h, pn), Rooms(chain, off), x, p, off, len);
  }

  /** A payload sent, and received behind `off` octets of header. */
  lemma RejectedFrame(c: Cipher, s: Counter, t: Takes, x: Block, p: seq<Byte>, off: nat, len: nat)
    returns (g: seq<Byte>, tag: seq<Byte>, r: seq<Byte>, got: seq<Byte>)
    requires Lawful(c.x) && |p| == len && !TagAgrees(c, x, t, p)
    ensures Sent(c, s, x, p, 0, g, tag) && |r| == off + len + 8 && r[off..] == g + tag
    ensures Received(c, s, t, x, r, off, len, got, false)
  {
    g, tag := Enciphered(c, s, p), Tag(c, x, s(0), p);
    WholeSent(c, s, x, p);
    r := Zeros(off) + (g + tag);
    assert r[off..] == g + tag;
    Halves(r, off, g, tag);
    got := Put(r, off, Enciphered(c, s, g));
    Judged(c, s, t, x, p, g, len, tag, r, off);
  }

  lemma WholeSent(c: Cipher, s: Counter, x: Block, p: seq<Byte>)
    ensures Sent(c, s, x, p, 0, Enciphered(c, s, p), Tag(c, x, s(0), p))
  {
    var e := Enciphered(c, s, p);
    assert p[0..] == p && Put(p, 0, e) == e;
  }

  lemma Judged(c: Cipher, s: Counter, t: Takes, x: Block, p: seq<Byte>, e: seq<Byte>, len: nat, tag: seq<Byte>,
               r: seq<Byte>, off: nat)
    requires Lawful(c.x) && |p| == len && e == Enciphered(c, s, p) && tag == Tag(c, x, s(0), p)
    requires |r| == off + len + 8 && r[off..off + len] == e && r[off + len..] == tag
    ensures Received(c, s, t, x, r, off, len, Put(r, off, Enciphered(c, s, e)), TagAgrees(c, x, t, p))
  {
    var ok := XorSeq(c.x, tag, s(0)) == Opened(c, s, t, x, e, Blocks(len)).x[..8];
    TagTells(c, s, t, x, p, e, len, tag, ok);
  }
}
