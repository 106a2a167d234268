/** WEP and TKIP encapsulation as string functions: a key stream over the
    payload and over its checksum. */
module WepSpec {
  import opened Octets
  import Crc
  import Rc4

  type Remainder = Crc.Remainder
  type Four = Crc.Four

  const START: Remainder := Crc.Remainder(0xffff_ffff)

  /** All the encapsulation asks of exclusive or and of the checksum: masking,
      taking one octet into the remainder, and the four octets sent for it. */
  datatype Suite = Suite(
    x: (Byte, Byte) -> Byte,
    u: (Remainder, Byte) -> Remainder,
    icv: Remainder -> Four)

  const WEP := Suite(Xor, Crc.TakeIn, Crc.Trailer)

  /** A key stream: octet `n`. */
  type Stream = nat -> Byte

  /** Octet `n` of RC4's output from a state on. */
  function Output(t: Rc4.State, n: nat): Byte
    decreases n
  {
    if n == 0 then Rc4.Out(Rc4.Step(t)) else Output(Rc4.Step(t), n - 1)
  }

  function StreamOf(t: Rc4.State): Stream {
    n => Output(t, n)
  }

  /** Masking twice is not masking. */
  ghost predicate Undoes(x: (Byte, Byte) -> Byte) {
    forall b, k :: x(x(b, k), k) == b
  }

  lemma WepUndoes()
    ensures Undoes(WEP.x)
  {
    forall b, k ensures Xor(Xor(b, k), k) == b {
      XorUndoes(b, k);
    }
  }

  /** A string under the key stream from octet `at` on. */
  function Crypt(c: Suite, k: Stream, at: nat, s: seq<Byte>): (r: seq<Byte>)
    ensures |r| == |s|
    decreases |s|
  {
    if s == [] then [] else Crypt(c, k, at, s[..|s| - 1]) + [c.x(s[|s| - 1], k(at + |s| - 1))]
  }

  function Checksum(c: Suite, r: Remainder, s: seq<Byte>): Remainder
    decreases |s|
  {
    if s == [] then r else c.u(Checksum(c, r, s[..|s| - 1]), s[|s| - 1])
  }

  function Icv(c: Suite, s: seq<Byte>): Four {
    c.icv(Checksum(c, START, s))
  }

  // ---- laws ---------------------------------------------------------------

  lemma CryptSnoc(c: Suite, k: Stream, at: nat, s: seq<Byte>, b: Byte)
    ensures Crypt(c, k, at, s + [b]) == Crypt(c, k, at, s) + [c.x(b, k(at + |s|))]
  {
    assert (s + [b])[..|s|] == s;
  }

  lemma ChecksumSnoc(c: Suite, r: Remainder, s: seq<Byte>, b: Byte)
    ensures Checksum(c, r, s + [b]) == c.u(Checksum(c, r, s), b)
  {
    assert (s + [b])[..|s|] == s;
  }

  /** Octet `i` of a string is masked with octet `at + i` of the stream. */
  lemma {:induction false} CryptAt(c: Suite, k: Stream, at: nat, s: seq<Byte>, i: nat)
    requires i < |s|
    ensures Crypt(c, k, at, s)[i] == c.x(s[i], k(at + i))
    decreases |s|
  {
    if i < |s| - 1 {
      CryptAt(c, k, at, s[..|s| - 1], i);
    }
  }

  /** Octet `n` of the stream is what the generator puts out once it has stepped
      `n + 1` times. */
  lemma {:induction false} OutputIs(t: Rc4.State, n: nat, m: nat)
    requires m == n + 1
    ensures Output(t, n) == Rc4.Out(Rc4.After(t, m))
    decreases n
  {
    if n > 0 {
      OutputIs(Rc4.Step(t), n - 1, n);
    }
  }

  lemma {:induction false} CryptTwice(c: Suite, k: Stream, at: nat, s: seq<Byte>)
    requires Undoes(c.x)
    ensures Crypt(c, k, at, Crypt(c, k, at, s)) == s
    decreases |s|
  {
    if s != [] {
      var n := |s| - 1;
      CryptTwice(c, k, at, s[..n]);
      TwiceSnoc(c, k, at, s[..n], s[n], k(at + n));
      assert s == s[..n] + [s[n]];
    }
  }

  lemma TwiceSnoc(c: Suite, k: Stream, at: nat, p: seq<Byte>, b: Byte, o: Byte)
    requires Undoes(c.x) && Crypt(c, k, at, Crypt(c, k, at, p)) == p && o == k(at + |p|)
    ensures Crypt(c, k, at, Crypt(c, k, at, p + [b])) == p + [b]
  {
    CryptSnoc(c, k, at, p, b);
    CryptSnoc(c, k, at, Crypt(c, k, at, p), c.x(b, o));
    assert c.x(c.x(b, o), o) == b;
  }

  /** The checksum is polynomial division of the whole string, bit by bit. */
  lemma {:induction false} ChecksumDivides(r: Remainder, s: seq<Byte>)
    ensures Checksum(WEP, r, s).bits == Crc.Divide(r.bits, Crc.MessageBits(s))
    decreases |s|
  {
    if s != [] {
      var n := |s| - 1;
      var q := Checksum(WEP, r, s[..n]);
      ChecksumDivides(r, s[..n]);
      Crc.UpdateDivides(q.bits, s[n] as bv8);
      Crc.DivideAppend(r.bits, Crc.MessageBits(s[..n]), Crc.BitsOf(s[n] as bv8));
    }
  }
}
