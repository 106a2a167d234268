/** TKIP key mixing: phase 1 and phase 2, for any S-box table. Both are chains
    of steps, each adding to one word a number got from its predecessor. */
module TkipMixing {

  import DivMod
  import O = Octets

  type Byte = O.Byte
  type Word = x: nat | x < 0x1_0000
  type U32 = x: nat | x < 0x1_0000_0000
  type Sbox = s: seq<Word> | |s| == 256 witness seq(256, _ => 0)
  type Key = s: seq<Byte> | |s| == 16 witness seq(16, _ => 0)
  type Addr = s: seq<Byte> | |s| == 6 witness seq(6, _ => 0)

  // ---- words --------------------------------------------------------------

  function Mk16(hi: Byte, lo: Byte): Word {
    (lo as nat) + 256 * (hi as nat)
  }

  function Hi8(v: Word): Byte { v / 256 }

  function Lo8(v: Word): Byte { v % 256 }

  /** Exclusive or, octet by octet. */
  function Xor(a: Word, b: Word): Word {
    Mk16(O.Xor(Hi8(a), Hi8(b)), O.Xor(Lo8(a), Lo8(b)))
  }

  function RotR1(v: Word): Word { v / 2 + 0x8000 * (v % 2) }

  /** The 16-bit S-box made of the table and its byte-swapped copy. */
  function S(sb: Sbox, v: Word): Word {
    var t := sb[Hi8(v)];
    Xor(sb[Lo8(v)], Mk16(Lo8(t), Hi8(t)))
  }

  function KeyWord(tk: Key, k: nat): Word
    requires k < 8
  {
    Mk16(tk[2 * k + 1], tk[2 * k])
  }

  /** All the mixing asks of words, the table and the temporal key: the S-box, a
      word with the key's word `k` mixed in, and the rotation. */
  datatype Mixer = Mixer(s: Word -> Word, x: (Word, nat) -> Word, rot: Word -> Word)

  function MixerOf(sb: Sbox, tk: Key): Mixer {
    Mixer(v => S(sb, v), (v, k) => Xor(v, KeyWord(tk, k % 8)), v => RotR1(v))
  }

  function Add(a: Word, d: nat): Word { (a + d) % 0x1_0000 }

  function Sub(a: Word, d: nat): Word { (a - d) % 0x1_0000 }

  lemma AddSub(a: Word, d: nat)
    ensures Sub(Add(a, d), d) == a && Add(Sub(a, d), d) == a
  {
  }

  // ---- the chain ----------------------------------------------------------

  datatype Phase = One | Two

  function Width(p: Phase): nat { if p == One then 5 else 6 }

  /** The word step `k` changes, and the one before it, cyclically. */
  function Slot(p: Phase, k: nat): (j: nat)
    ensures j < Width(p)
  {
    if p == One then k % 5 else k % 6
  }

  function Prev(p: Phase, k: nat): (i: nat)
    ensures i < Width(p) && i != Slot(p, k)
  {
    if Slot(p, k) == 0 then Width(p) - 1 else Slot(p, k) - 1
  }

  type State = seq<Word>

  /** Step `k` of a chain whose additions are `f`. */
  function Step(f: (nat, Word) -> nat, p: Phase, k: nat, x: State): (y: State)
    requires |x| == Width(p)
    ensures |y| == |x|
  {
    var j := Slot(p, k);
    x[j := Add(x[j], f(k, x[Prev(p, k)]))]
  }

  function Unstep(f: (nat, Word) -> nat, p: Phase, k: nat, y: State): (x: State)
    requires |y| == Width(p)
    ensures |x| == |y|
  {
    var j := Slot(p, k);
    y[j := Sub(y[j], f(k, y[Prev(p, k)]))]
  }

  function Mix(f: (nat, Word) -> nat, p: Phase, k: nat, x: State): (y: State)
    requires |x| == Width(p)
    ensures |y| == |x|
  {
    if k == 0 then x else Step(f, p, k - 1, Mix(f, p, k - 1, x))
  }

  function Unmix(f: (nat, Word) -> nat, p: Phase, k: nat, y: State): (x: State)
    requires |y| == Width(p)
    ensures |x| == |y|
  {
    if k == 0 then y else Unmix(f, p, k - 1, Unstep(f, p, k - 1, y))
  }

  lemma StepUnstep(f: (nat, Word) -> nat, p: Phase, k: nat, x: State)
    requires |x| == Width(p)
    ensures Unstep(f, p, k, Step(f, p, k, x)) == x
    ensures Step(f, p, k, Unstep(f, p, k, x)) == x
  {
    AddSub(x[Slot(p, k)], f(k, x[Prev(p, k)]));
  }

  /** Mixing is a permutation of the states, whatever is added: unmixing undoes
      it, on either side. */
  lemma {:induction false} UnmixMix(f: (nat, Word) -> nat, p: Phase, k: nat, x: State)
    requires |x| == Width(p)
    ensures Unmix(f, p, k, Mix(f, p, k, x)) == x
  {
    if k > 0 {
      UnmixMix(f, p, k - 1, x);
      StepUnstep(f, p, k - 1, Mix(f, p, k - 1, x));
    }
  }

  lemma {:induction false} MixUnmix(f: (nat, Word) -> nat, p: Phase, k: nat, y: State)
    requires |y| == Width(p)
    ensures Mix(f, p, k, Unmix(f, p, k, y)) == y
  {
    if k > 0 {
      MixUnmix(f, p, k - 1, Unstep(f, p, k - 1, y));
      StepUnstep(f, p, k - 1, y);
    }
  }

  /** What phase 1 adds to word `j` in round `i`, given the word before it. */
  function Term1(m: Mixer, i: nat, j: nat, prev: Word): nat {
    if j == 0 then m.s(m.x(prev, i % 2))
    else if j == 1 then m.s(m.x(prev, i % 2 + 2))
    else if j == 2 then m.s(m.x(prev, i % 2 + 4))
    else if j == 3 then m.s(m.x(prev, i % 2 + 6))
    else m.s(m.x(prev, i % 2)) + i
  }

  /** What phase 2 adds at step `k`. */
  function Term2(m: Mixer, k: nat, prev: Word): nat {
    if k < 6 then m.s(m.x(prev, k))
    else if k < 8 then m.rot(m.x(prev, k))
    else m.rot(prev)
  }

  function Terms(m: Mixer, p: Phase): (nat, Word) -> nat {
    if p == One then (k, prev) => Term1(m, k / 5, k % 5, prev)
    else (k, prev) => Term2(m, k, prev)
  }

  // ---- the per-packet key -------------------------------------------------

  function Start(ta: Addr, iv32: U32): State {
    [iv32 % 0x1_0000, iv32 / 0x1_0000, Mk16(ta[1], ta[0]), Mk16(ta[3], ta[2]), Mk16(ta[5], ta[4])]
  }

  /** The phase 1 output for a transmitter address and the high counter bits. */
  function Ttak(m: Mixer, ta: Addr, iv32: U32): (t: State)
    ensures |t| == 5
  {
    Mix(Terms(m, One), One, 40, Start(ta, iv32))
  }

  function Ppk(m: Mixer, ttak: State, iv16: Word): (t: State)
    requires |ttak| == 5
    ensures |t| == 6
  {
    Mix(Terms(m, Two), Two, 12, ttak + [Add(ttak[4], iv16)])
  }

  /** The middle octet of the WEP IV, kept out of the weak-key range. */
  function Seed1(hi: Byte): Byte {
    (if hi / 32 % 2 == 1 then hi as nat else hi + 32) % 128
  }

  function LittleEndian(ws: seq<Word>): (s: seq<Byte>)
    ensures |s| == 2 * |ws|
  {
    if ws == [] then [] else [Lo8(ws[0]), Hi8(ws[0])] + LittleEndian(ws[1..])
  }

  /** The RC4 key: three octets of WEP IV, one of key bits, then phase 2's words. */
  function Seed(m: Mixer, ttak: State, iv16: Word): (key: Key)
    requires |ttak| == 5
  {
    var ppk := Ppk(m, ttak, iv16);
    [Hi8(iv16), Seed1(Hi8(iv16)), Lo8(iv16), Lo8(m.x(ppk[5], 0) / 2)] + LittleEndian(ppk)
  }

  /** The key the standard prescribes for a 48-bit packet number. */
  function PacketKey(m: Mixer, ta: Addr, tsc: nat): Key {
    Seed(m, Ttak(m, ta, tsc / 0x1_0000 % 0x1_0000_0000), tsc % 0x1_0000)
  }

  lemma StartTellsAll(ta: Addr, iv32: U32, ta': Addr, iv32': U32)
    requires Start(ta, iv32) == Start(ta', iv32')
    ensures ta == ta' && iv32 == iv32'
  {
    var s, t := Start(ta, iv32), Start(ta', iv32');
    assert forall i :: 0 <= i < 5 ==> s[i] == t[i];
    assert s[0] == iv32 % 0x1_0000 && s[1] == iv32 / 0x1_0000;
    Mk16TellsAll(ta[1], ta[0], ta'[1], ta'[0]);
    Mk16TellsAll(ta[3], ta[2], ta'[3], ta'[2]);
    Mk16TellsAll(ta[5], ta[4], ta'[5], ta'[4]);
    assert ta == [ta[0], ta[1], ta[2], ta[3], ta[4], ta[5]];
    assert ta' == [ta'[0], ta'[1], ta'[2], ta'[3], ta'[4], ta'[5]];
  }

  lemma Mk16TellsAll(hi: Byte, lo: Byte, hi': Byte, lo': Byte)
    ensures Mk16(hi, lo) == Mk16(hi', lo') ==> hi == hi' && lo == lo'
  {
  }

  /** Phase 1 never maps two (address, counter) pairs to one output. */
  lemma TtakTellsAll(m: Mixer, ta: Addr, iv32: U32, ta': Addr, iv32': U32)
    requires Ttak(m, ta, iv32) == Ttak(m, ta', iv32')
    ensures ta == ta' && iv32 == iv32'
  {
    UnmixMix(Terms(m, One), One, 40, Start(ta, iv32));
    UnmixMix(Terms(m, One), One, 40, Start(ta', iv32'));
    StartTellsAll(ta, iv32, ta', iv32');
  }

  lemma {:induction false} LittleEndianTellsAll(ws: seq<Word>, ws': seq<Word>)
    requires |ws| == |ws'| && LittleEndian(ws) == LittleEndian(ws')
    ensures ws == ws'
  {
    if ws != [] {
      var s, t := LittleEndian(ws), LittleEndian(ws');
      assert s[0] == t[0] && s[1] == t[1];
      assert LittleEndian(ws[1..]) == s[2..] == t[2..] == LittleEndian(ws'[1..]);
      LittleEndianTellsAll(ws[1..], ws'[1..]);
    }
  }

  /** Nor does phase 2, with the packet number's low bits. */
  lemma SeedTellsAll(m: Mixer, t: State, iv: Word, t': State, iv': Word)
    requires |t| == 5 && |t'| == 5
    requires Seed(m, t, iv) == Seed(m, t', iv')
    ensures t == t' && iv == iv'
  {
    var s, s' := Seed(m, t, iv), Seed(m, t', iv');
    assert s[0] == Hi8(iv) && s'[0] == Hi8(iv') && s[2] == Lo8(iv) && s'[2] == Lo8(iv');
    assert s[4..] == LittleEndian(Ppk(m, t, iv)) && s'[4..] == LittleEndian(Ppk(m, t', iv'));
    LittleEndianTellsAll(Ppk(m, t, iv), Ppk(m, t', iv'));
    var x, x' := t + [Add(t[4], iv)], t' + [Add(t'[4], iv')];
    UnmixMix(Terms(m, Two), Two, 12, x);
    UnmixMix(Terms(m, Two), Two, 12, x');
    assert t == x[..5] && t' == x'[..5];
  }

  /** Under one temporal key, equal RC4 keys mean the same transmitter and the
      same 48-bit packet number. */
  lemma PacketKeysNeverCollide(m: Mixer, ta: Addr, tsc: nat, ta': Addr, tsc': nat)
    requires PacketKey(m, ta, tsc) == PacketKey(m, ta', tsc')
    ensures ta == ta' && tsc % 0x1_0000_0000_0000 == tsc' % 0x1_0000_0000_0000
  {
    var v, v' := tsc / 0x1_0000 % 0x1_0000_0000, tsc' / 0x1_0000 % 0x1_0000_0000;
    SeedTellsAll(m, Ttak(m, ta, v), tsc % 0x1_0000, Ttak(m, ta', v'), tsc' % 0x1_0000);
    TtakTellsAll(m, ta, v, ta', v');
    Split48(tsc);
    Split48(tsc');
  }

  /** The same for the driver's S-box table and a temporal key. */
  lemma TemporalKeysNeverCollide(sb: Sbox, tk: Key, ta: Addr, tsc: nat, ta': Addr, tsc': nat)
    requires PacketKey(MixerOf(sb, tk), ta, tsc) == PacketKey(MixerOf(sb, tk), ta', tsc')
    ensures ta == ta' && tsc % 0x1_0000_0000_0000 == tsc' % 0x1_0000_0000_0000
  {
    PacketKeysNeverCollide(MixerOf(sb, tk), ta, tsc, ta', tsc');
  }

  lemma Split48(t: nat)
    ensures t % 0x1_0000_0000_0000 == t % 0x1_0000 + 0x1_0000 * (t / 0x1_0000 % 0x1_0000_0000)
  {
    var h, l := t / 0x1_0000, t % 0x1_0000;
    var q, r := h / 0x1_0000_0000, h % 0x1_0000_0000;
    DivMod.Digits(t, 0x1_0000, 0x1_0000_0000, h, l, q, r);
    DivMod.Unique(t, 0x1_0000_0000_0000, q, 0x1_0000 * r + l);
  }
}
