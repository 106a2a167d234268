/** The TKIP key mixing as computed in place, the transmit counter and its
    phase 1 cache, and which key each packet of a run gets. */
module TkipCipher {
  import opened TkipMixing

  // ---- the mixing, in place -----------------------------------------------

  method Phase1(m: Mixer, ttak: array<Word>, ta: Addr, iv32: U32)
    requires ttak.Length == 5
    modifies ttak
    ensures ttak[..] == Ttak(m, ta, iv32)
  {
    ttak[0] := iv32 % 0x1_0000;
    ttak[1] := iv32 / 0x1_0000;
    ttak[2] := Mk16(ta[1], ta[0]);
    ttak[3] := Mk16(ta[3], ta[2]);
    ttak[4] := Mk16(ta[5], ta[4]);
    assert ttak[..] == Start(ta, iv32);
    Rounds1(m, ttak);
  }

  function At1(m: Mixer, i: nat, j: nat, x: State): (y: State)
    requires |x| == 5 && j < 5
    ensures |y| == 5
  {
    x[j := Add(x[j], Term1(m, i, j, x[if j == 0 then 4 else j - 1]))]
  }

  predicate RoundOf(i: nat, j: nat, k: nat) { k / 5 == i && k % 5 == j }

  lemma MixAt1(m: Mixer, i: nat, j: nat, x: State, k: nat, k': nat)
    requires |x| == 5 && j < 5 && RoundOf(i, j, k) && k' == k + 1
    ensures Mix(Terms(m, One), One, k', x) == At1(m, i, j, Mix(Terms(m, One), One, k, x))
  {
  }

  /** One of the five statements of a phase 1 round. */
  method Add1(m: Mixer, ttak: array<Word>, ghost i: nat, j: nat, d: nat)
    requires ttak.Length == 5 && j < 5 && d == Term1(m, i, j, ttak[if j == 0 then 4 else j - 1])
    modifies ttak
    ensures ttak[..] == At1(m, i, j, old(ttak[..]))
  {
    ttak[j] := (ttak[j] + d) % 0x1_0000;
  }

  /** The same as step `k` of the chain. */
  method Bump1(m: Mixer, ttak: array<Word>, ghost i: nat, j: nat, d: nat, ghost k: nat, ghost k': nat, ghost x: State)
    requires ttak.Length == 5 && |x| == 5 && j < 5 && RoundOf(i, j, k) && k' == k + 1
    requires ttak[..] == Mix(Terms(m, One), One, k, x)
    requires d == Term1(m, i, j, ttak[if j == 0 then 4 else j - 1])
    modifies ttak
    ensures ttak[..] == Mix(Terms(m, One), One, k', x)
  {
    MixAt1(m, i, j, x, k, k');
    Add1(m, ttak, i, j, d);
  }

  method Round1(m: Mixer, ttak: array<Word>, i: nat, ghost k: nat, ghost k': nat, ghost x: State)
    requires ttak.Length == 5 && |x| == 5 && k == 5 * i && k' == k + 5 && ttak[..] == Mix(Terms(m, One), One, k, x)
    modifies ttak
    ensures ttak[..] == Mix(Terms(m, One), One, k', x)
  {
    InRound(i, k);
    ghost var k1, k2, k3, k4 := k + 1, k + 2, k + 3, k + 4;
    var j := i % 2;
    Bump1(m, ttak, i, 0, m.s(m.x(ttak[4], j)), k, k1, x);
    Bump1(m, ttak, i, 1, m.s(m.x(ttak[0], j + 2)), k1, k2, x);
    Bump1(m, ttak, i, 2, m.s(m.x(ttak[1], j + 4)), k2, k3, x);
    Bump1(m, ttak, i, 3, m.s(m.x(ttak[2], j + 6)), k3, k4, x);
    Bump1(m, ttak, i, 4, m.s(m.x(ttak[3], j)) + i, k4, k', x);
  }

  lemma InRound(i: nat, k: nat)
    requires k == 5 * i
    ensures RoundOf(i, 0, k) && RoundOf(i, 1, k + 1) && RoundOf(i, 2, k + 2) && RoundOf(i, 3, k + 3)
    ensures RoundOf(i, 4, k + 4)
  {
  }

  method Rounds1(m: Mixer, ttak: array<Word>)
    requires ttak.Length == 5
    modifies ttak
    ensures ttak[..] == Mix(Terms(m, One), One, 40, old(ttak[..]))
  {
    ghost var x := ttak[..];
    var i: nat := 0;
    ghost var k: nat := 0;
    while i < 8
      invariant i <= 8 && k == 5 * i && ttak[..] == Mix(Terms(m, One), One, k, x)
    {
      Round1(m, ttak, i, k, k + 5, x);
      i, k := i + 1, k + 5;
    }
  }

  // ---- phase 2 ------------------------------------------------------------

  function At2(m: Mixer, k: nat, x: State): (y: State)
    requires |x| == 6 && k < 12
    ensures |y| == 6
  {
    var j := k % 6;
    x[j := Add(x[j], Term2(m, k, x[if j == 0 then 5 else j - 1]))]
  }

  lemma MixAt2(m: Mixer, x: State, k: nat, k': nat)
    requires |x| == 6 && k < 12 && k' == k + 1
    ensures Mix(Terms(m, Two), Two, k', x) == At2(m, k, Mix(Terms(m, Two), Two, k, x))
  {
  }

  /** One of the twelve statements of phase 2's second step. */
  method Add2(m: Mixer, ppk: array<Word>, ghost k: nat, j: nat, d: nat)
    requires ppk.Length == 6 && k < 12 && j == k % 6 && d == Term2(m, k, ppk[if j == 0 then 5 else j - 1])
    modifies ppk
    ensures ppk[..] == At2(m, k, old(ppk[..]))
  {
    ppk[j] := (ppk[j] + d) % 0x1_0000;
  }

  /** The same as step `k` of the chain. */
  method Bump2(m: Mixer, ppk: array<Word>, ghost k: nat, j: nat, d: nat, ghost x: State)
    requires ppk.Length == 6 && |x| == 6 && k < 12 && j == k % 6
    requires ppk[..] == Mix(Terms(m, Two), Two, k, x)
    requires d == Term2(m, k, ppk[if j == 0 then 5 else j - 1])
    modifies ppk
    ensures ppk[..] == Mix(Terms(m, Two), Two, k + 1, x)
  {
    MixAt2(m, x, k, k + 1);
    Add2(m, ppk, k, j, d);
  }

  method Step2(m: Mixer, ppk: array<Word>)
    requires ppk.Length == 6
    modifies ppk
    ensures ppk[..] == Mix(Terms(m, Two), Two, 12, old(ppk[..]))
  {
    ghost var x := ppk[..];
    Bump2(m, ppk, 0, 0, m.s(m.x(ppk[5], 0)), x);
    Bump2(m, ppk, 1, 1, m.s(m.x(ppk[0], 1)), x);
    Bump2(m, ppk, 2, 2, m.s(m.x(ppk[1], 2)), x);
    Bump2(m, ppk, 3, 3, m.s(m.x(ppk[2], 3)), x);
    Bump2(m, ppk, 4, 4, m.s(m.x(ppk[3], 4)), x);
    Bump2(m, ppk, 5, 5, m.s(m.x(ppk[4], 5)), x);
    Bump2(m, ppk, 6, 0, m.rot(m.x(ppk[5], 6)), x);
    Bump2(m, ppk, 7, 1, m.rot(m.x(ppk[0], 7)), x);
    Bump2(m, ppk, 8, 2, m.rot(ppk[1]), x);
    Bump2(m, ppk, 9, 3, m.rot(ppk[2]), x);
    Bump2(m, ppk, 10, 4, m.rot(ppk[3]), x);
    Bump2(m, ppk, 11, 5, m.rot(ppk[4]), x);
  }

  /** Fills in the RC4 key for one packet. */
  method Phase2(m: Mixer, seed: array<Byte>, ttak: array<Word>, iv16: Word)
    requires seed.Length == 16 && ttak.Length == 5
    modifies seed
    ensures seed[..] == Seed(m, ttak[..], iv16)
  {
    var ppk := new Word[6];
    ppk[0], ppk[1], ppk[2], ppk[3], ppk[4] := ttak[0], ttak[1], ttak[2], ttak[3], ttak[4];
    ppk[5] := (ttak[4] + iv16) % 0x1_0000;
    assert ppk[..] == ttak[..] + [Add(ttak[4], iv16)];
    Step2(m, ppk);
    seed[0] := Hi8(iv16);
    seed[1] := Seed1(Hi8(iv16));
    seed[2] := Lo8(iv16);
    seed[3] := Lo8(m.x(ppk[5], 0) / 2);
    StoreWords(seed, ppk);
  }

  /** The words as they lie in memory on a little-endian host. */
  method StoreWords(seed: array<Byte>, ppk: array<Word>)
    requires seed.Length == 16 && ppk.Length == 6
    modifies seed
    ensures seed[..] == old(seed[..4]) + LittleEndian(ppk[..])
  {
    var i := 0;
    while i < 6
      invariant i <= 6
      invariant seed[..4 + 2 * i] + LittleEndian(ppk[i..]) == old(seed[..4]) + LittleEndian(ppk[..])
    {
      seed[4 + 2 * i] := Lo8(ppk[i]);
      seed[5 + 2 * i] := Hi8(ppk[i]);
      i := i + 1;
    }
  }
}
