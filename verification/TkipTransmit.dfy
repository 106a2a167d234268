/** The TKIP transmit side over a run of packets: the counter, the phase 1
    cache, and the RC4 key each packet is encrypted with. */
module TkipTransmit {
  import opened TkipMixing
  import DivMod
  import TkipCipher
  import PacketNumber

  type U64 = PacketNumber.U64

  /** The counter of the last packet and the cached phase 1 output. */
  datatype Tx = Tx(tsc: U64, ttak: State)

  function High32(tsc: U64): U32 { tsc / 0x1_0000 % 0x1_0000_0000 }

  function Bump(tsc: U64): U64 { (tsc + 1) % 0x1_0000_0000_0000_0000 }

  /** The packets that recompute the cache. */
  predicate Refreshes(tsc: U64) { tsc % 0x1_0000 == 0 || tsc == 1 }

  /** One packet sent from address `ta`. */
  function Send(m: Mixer, s: Tx, ta: Addr): Tx
    requires |s.ttak| == 5
  {
    var tsc := Bump(s.tsc);
    Tx(tsc, if Refreshes(tsc) then Ttak(m, ta, High32(tsc)) else s.ttak)
  }

  /** A run of packets, given by their transmitter addresses. */
  function After(m: Mixer, s: Tx, tas: seq<Addr>): (t: Tx)
    requires |s.ttak| == 5
    ensures |t.ttak| == 5
  {
    if tas == [] then s else Send(m, After(m, s, tas[..|tas| - 1]), tas[|tas| - 1])
  }

  /** The RC4 key of the last packet of a run. */
  function UsedKey(m: Mixer, s: Tx, tas: seq<Addr>): Key
    requires |s.ttak| == 5 && tas != []
  {
    var t := After(m, s, tas);
    Seed(m, t.ttak, t.tsc % 0x1_0000)
  }

  /** The counter after `n` packets from `tsc`. */
  function Counter(tsc: U64, n: nat): U64 { (tsc + n) % 0x1_0000_0000_0000_0000 }

  /** The latest of the first `n` packets that recomputed the cache; 0 if none did. */
  function LastRefresh(tsc: U64, n: nat): (k: nat)
    ensures k <= n
  {
    if n == 0 || Refreshes(Counter(tsc, n)) then n else LastRefresh(tsc, n - 1)
  }

  lemma CounterNext(tsc: U64, n: nat)
    ensures Counter(tsc, n + 1) == Bump(Counter(tsc, n))
  {
  }

  /** Between refreshes the high counter bits do not change. */
  lemma HighStays(tsc: U64)
    requires !Refreshes(Bump(tsc))
    ensures High32(Bump(tsc)) == High32(tsc)
  {
    assert Bump(tsc) == tsc + 1;
  }

  /** What is in the cache: the phase 1 output for the current high counter bits
      and the address of the packet that last refreshed it. */
  lemma {:induction false} CacheHolds(m: Mixer, s: Tx, tas: seq<Addr>)
    requires |s.ttak| == 5
    ensures var n, k := |tas|, LastRefresh(s.tsc, |tas|);
            && After(m, s, tas).tsc == Counter(s.tsc, n)
            && (k == 0 ==> After(m, s, tas).ttak == s.ttak)
            && (k > 0 ==> After(m, s, tas).ttak == Ttak(m, tas[k - 1], High32(Counter(s.tsc, n))))
  {
    var n := |tas|;
    if n > 0 {
      var init := tas[..n - 1];
      CacheHolds(m, s, init);
      CounterNext(s.tsc, n - 1);
      if !Refreshes(Counter(s.tsc, n)) {
        HighStays(Counter(s.tsc, n - 1));
        var k := LastRefresh(s.tsc, n - 1);
        assert k > 0 ==> init[k - 1] == tas[k - 1];
      }
    }
  }

  /** A fresh key starts its counter at 0, so its first packet refreshes. */
  lemma {:induction false} FreshKeyRefreshes(n: nat)
    requires n > 0
    ensures LastRefresh(0, n) > 0
  {
    if n > 1 {
      FreshKeyRefreshes(n - 1);
    }
  }

  /** The RC4 keys of the packets of a run, in order. */
  ghost predicate KeysOf(m: Mixer, s: Tx, tas: seq<Addr>, keys: seq<Key>)
    requires |s.ttak| == 5
  {
    && |keys| == |tas|
    && forall n {:trigger tas[..n]} | 0 < n <= |tas| :: keys[n - 1] == UsedKey(m, s, tas[..n])
  }

  /** The keys the standard prescribes for them. */
  ghost predicate Prescribed(m: Mixer, s: Tx, tas: seq<Addr>, keys: seq<Key>)
    requires |s.ttak| == 5
  {
    && |keys| == |tas|
    && forall n {:trigger tas[..n]} | 0 < n <= |tas| ::
         keys[n - 1] == PacketKey(m, tas[n - 1], After(m, s, tas[..n]).tsc)
  }

  /** With one transmitter address the cache always agrees with recomputation. */
  lemma CacheAgrees(m: Mixer, s: Tx, ta: Addr, tas: seq<Addr>)
    requires |s.ttak| == 5 && s.tsc == 0 && tas != [] && forall i :: 0 <= i < |tas| ==> tas[i] == ta
    ensures After(m, s, tas).ttak == Ttak(m, ta, High32(After(m, s, tas).tsc))
  {
    CacheHolds(m, s, tas);
    FreshKeyRefreshes(|tas|);
  }

  /** And each packet gets the prescribed key, for the driver's S-box table and
      temporal key. */
  lemma CacheAgreesFor(sb: Sbox, tk: Key, s: Tx, ta: Addr, tas: seq<Addr>, keys: seq<Key>, right: seq<Key>)
    requires |s.ttak| == 5 && s.tsc == 0 && forall i :: 0 <= i < |tas| ==> tas[i] == ta
    requires KeysOf(MixerOf(sb, tk), s, tas, keys) && Prescribed(MixerOf(sb, tk), s, tas, right)
    ensures keys == right
    ensures tas != [] ==>
      var t := After(MixerOf(sb, tk), s, tas); t.ttak == Ttak(MixerOf(sb, tk), ta, High32(t.tsc))
  {
    var m := MixerOf(sb, tk);
    forall i | 0 <= i < |tas| ensures keys[i] == right[i] {
      KeyRightIff(m, s, tas, keys, right, i, i + 1);
    }
    if tas != [] {
      CacheAgrees(m, s, ta, tas);
    }
  }

  /** With several, a packet is keyed as prescribed exactly when its address is
      that of the packet that last refreshed the cache. */
  lemma KeyRightIff(m: Mixer, s: Tx, tas: seq<Addr>, keys: seq<Key>, right: seq<Key>, i: nat, n: nat)
    requires |s.ttak| == 5 && s.tsc == 0 && KeysOf(m, s, tas, keys) && Prescribed(m, s, tas, right)
    requires i < |tas| && n == i + 1
    ensures LastRefresh(0, n) > 0
    ensures keys[i] == right[i] <==> tas[i] == tas[LastRefresh(0, n) - 1]
  {
    var sent := tas[..n];
    CacheHolds(m, s, sent);
    FreshKeyRefreshes(n);
    var t := After(m, s, sent);
    var ta, tb := tas[i], tas[LastRefresh(0, n) - 1];
    assert keys[i] == UsedKey(m, s, sent) == PacketKey(m, tb, t.tsc);
    if PacketKey(m, tb, t.tsc) == PacketKey(m, ta, t.tsc) {
      PacketKeysNeverCollide(m, tb, t.tsc, ta, t.tsc);
    }
  }

  /** Two packets of a fresh key's run get the same RC4 key only 2^48 packets apart. */
  lemma KeysNeverRepeat(m: Mixer, s: Tx, tas: seq<Addr>, keys: seq<Key>, a: nat, b: nat)
    requires |s.ttak| == 5 && s.tsc == 0 && KeysOf(m, s, tas, keys)
    requires a < b < |tas| && keys[a] == keys[b]
    ensures b - a >= 0x1_0000_0000_0000
  {
    var to, on := tas[..a + 1], tas[..b + 1];
    CacheHolds(m, s, to);
    CacheHolds(m, s, on);
    FreshKeyRefreshes(a + 1);
    FreshKeyRefreshes(b + 1);
    var ta, tb := to[LastRefresh(0, a + 1) - 1], on[LastRefresh(0, b + 1) - 1];
    PacketKeysNeverCollide(m, ta, Counter(0, a + 1), tb, Counter(0, b + 1));
    CountersApart(a + 1, b + 1);
  }

  lemma Low48(a: nat)
    ensures Counter(0, a) % 0x1_0000_0000_0000 == a % 0x1_0000_0000_0000
  {
    var r := a % 0x1_0000_0000_0000_0000;
    DivMod.Unique(a, 0x1_0000_0000_0000, a / 0x1_0000_0000_0000_0000 * 0x1_0000 + r / 0x1_0000_0000_0000,
                  r % 0x1_0000_0000_0000);
  }

  lemma SameResidue(a: nat, b: nat, d: nat)
    requires d > 0 && a < b && a % d == b % d
    ensures b - a >= d
  {
    var p, q := a / d, b / d;
    assert a == p * d + a % d && b == q * d + b % d;
    if p < q {
      DivMod.Gap(p, q, d);
    }
  }

  lemma CountersApart(a: nat, b: nat)
    requires a < b && Counter(0, a) % 0x1_0000_0000_0000 == Counter(0, b) % 0x1_0000_0000_0000
    ensures b - a >= 0x1_0000_0000_0000
  {
    Low48(a);
    Low48(b);
    SameResidue(a, b, 0x1_0000_0000_0000);
  }

  // ---- the key structure --------------------------------------------------

  /** A key with its software transmit state. */
  class TxKey {
    const m: Mixer
    const keyid: nat
    const ttak: array<Word>
    const rc4key: array<Byte>
    var keytsc: U64

    ghost predicate Valid()
      reads this
    {
      ttak.Length == 5 && rc4key.Length == 16 && keyid < 4
    }

    ghost function Abs(): (s: Tx)
      requires Valid()
      reads this, ttak
    {
      Tx(keytsc, ttak[..])
    }

    constructor (sb: Sbox, tk: Key, keyid: nat)
      requires keyid < 4
      ensures Valid() && fresh(ttak) && fresh(rc4key) && keytsc == 0 && m == MixerOf(sb, tk) && this.keyid == keyid
    {
      this.m, this.keyid, keytsc := MixerOf(sb, tk), keyid, 0;
      ttak, rc4key := new Word[5], new Byte[16];
    }

    /** Counts the packet and writes its 8 octets of header. */
    method SetIv(ivp: array<Byte>)
      requires Valid() && ivp.Length == 8
      modifies this`keytsc, ivp
      ensures keytsc == Bump(old(keytsc))
      ensures PacketNumber.Read6(ivp[2], ivp[0], ivp[4], ivp[5], ivp[6], ivp[7]) == keytsc % 0x1_0000_0000_0000
      ensures ivp[0] == Hi8(keytsc % 0x1_0000) && ivp[1] == Seed1(ivp[0]) && ivp[2] == Lo8(keytsc % 0x1_0000)
      ensures ivp[3] == 64 * keyid + 0x20
    {
      keytsc := (keytsc + 1) % 0x1_0000_0000_0000_0000;
      ivp[0] := keytsc / 0x100 % 0x100;
      ivp[1] := Seed1(ivp[0]);
      ivp[2] := keytsc % 0x100;
      ivp[3] := 64 * keyid + 0x20;
      ivp[4] := keytsc / 0x1_0000 % 0x100;
      ivp[5] := keytsc / 0x100_0000 % 0x100;
      ivp[6] := keytsc / 0x1_0000_0000 % 0x100;
      ivp[7] := keytsc / 0x100_0000_0000 % 0x100;
      PacketNumber.Read6OfOctets(keytsc);
      PacketNumber.Low16(keytsc);
    }

    /** Makes the packet's RC4 key, recomputing phase 1 only when the counter says so. */
    method MixKeys(ta: Addr)
      requires Valid()
      modifies ttak, rc4key
      ensures ttak[..] == if Refreshes(keytsc) then Ttak(m, ta, High32(keytsc)) else old(ttak[..])
      ensures rc4key[..] == Seed(m, ttak[..], keytsc % 0x1_0000)
    {
      if keytsc % 0x1_0000 == 0 || keytsc == 1 {
        TkipCipher.Phase1(m, ttak, ta, keytsc / 0x1_0000 % 0x1_0000_0000);
      }
      TkipCipher.Phase2(m, rc4key, ttak, keytsc % 0x1_0000);
    }

    /** A packet goes out: its header, and the key that encrypts it. */
    method Encap(ta: Addr, ivp: array<Byte>)
      requires Valid() && ivp.Length == 8 && ivp != rc4key
      modifies this`keytsc, ttak, rc4key, ivp
      ensures Valid() && Abs() == Send(m, old(Abs()), ta)
      ensures rc4key[..] == Seed(m, Abs().ttak, Abs().tsc % 0x1_0000)
      ensures ivp[..3] == rc4key[..3]
      ensures PacketNumber.Read6(ivp[2], ivp[0], ivp[4], ivp[5], ivp[6], ivp[7]) == Abs().tsc % 0x1_0000_0000_0000
    {
      SetIv(ivp);
      MixKeys(ta);
    }
  }
}
