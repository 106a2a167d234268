/** RC4: the key schedule and the output generator. */
module Rc4 {

  import opened Octets

  type Table = s: seq<Byte> | |s| == 256 witness seq(256, _ => 0)

  datatype State = State(s: Table, i: Byte, j: Byte)

  function Swap(s: Table, a: Byte, b: Byte): Table {
    s[a := s[b]][b := s[a]]
  }

  /** `0, 1, ..., n - 1`. */
  function Upto(n: nat): (s: seq<nat>)
    ensures |s| == n && forall k :: 0 <= k < n ==> s[k] == k
  {
    if n == 0 then [] else Upto(n - 1) + [n - 1]
  }

  function Identity(): Table {
    Upto(256)
  }

  /** The table and the index `j` of the key schedule. */
  datatype Sched = Sched(s: Table, j: Byte)

  /** Step `k` of the key schedule, with key octet `o`. */
  function Scheduled(t: Sched, k: Byte, o: Byte): Sched {
    var j: Byte := ((t.j as nat) + (t.s[k] as nat) + (o as nat)) % 256;
    Sched(Swap(t.s, k, j), j)
  }

  /** After `n` steps of it. */
  function Schedule(key: seq<Byte>, n: nat): Sched
    requires key != [] && n <= 256
  {
    if n == 0 then Sched(Identity(), 0)
    else
      Scheduled(Schedule(key, n - 1), n - 1, key[(n - 1) % |key|])
  }

  lemma ScheduleStep(key: seq<Byte>, n: nat, n': nat)
    requires key != [] && n < 256 && n' == n + 1
    ensures Schedule(key, n') == Scheduled(Schedule(key, n), n, key[n % |key|])
  {
  }

  function Init(key: seq<Byte>): State
    requires key != []
  {
    State(Schedule(key, 256).s, 0, 0)
  }

  function Step(t: State): State {
    var i: Byte := (t.i + 1) % 256;
    var j: Byte := (t.j + t.s[i]) % 256;
    State(Swap(t.s, i, j), i, j)
  }

  /** The output octet of a state just reached. */
  function Out(t: State): Byte {
    t.s[((t.s[t.i] as nat) + (t.s[t.j] as nat)) % 256]
  }

  // ---- the table stays a permutation --------------------------------------

  predicate Permutation(s: Table) {
    forall a, b :: 0 <= a < b < 256 ==> s[a] != s[b]
  }

  lemma SwapPermutes(s: Table, a: Byte, b: Byte)
    requires Permutation(s)
    ensures Permutation(Swap(s, a, b))
  {
  }

  lemma {:induction false} SchedulePermutes(key: seq<Byte>, n: nat)
    requires key != [] && n <= 256
    ensures Permutation(Schedule(key, n).s)
  {
    if n > 0 {
      SchedulePermutes(key, n - 1);
      var t := Schedule(key, n - 1);
      SwapPermutes(t.s, n - 1, ((t.j as nat) + (t.s[n - 1] as nat) + (key[(n - 1) % |key|] as nat)) % 256);
    }
  }

  function After(t: State, n: nat): State
    decreases n
  {
    if n == 0 then t else After(Step(t), n - 1)
  }

  lemma {:induction false} AfterPermutes(t: State, n: nat)
    requires Permutation(t.s)
    ensures Permutation(After(t, n).s)
    decreases n
  {
    if n > 0 {
      var i: Byte := (t.i + 1) % 256;
      SwapPermutes(t.s, i, (t.j + t.s[i]) % 256);
      AfterPermutes(Step(t), n - 1);
    }
  }

  /** However many octets are drawn, the table holds every value once. */
  lemma TablePermutes(key: seq<Byte>, n: nat)
    requires key != []
    ensures Permutation(After(Init(key), n).s)
  {
    SchedulePermutes(key, 256);
    AfterPermutes(Init(key), n);
  }

  // ---- what one octet is ---------------------------------------------------

  /** A step of the key schedule exchanges entries `k` and `j`, where `j` has moved
      on by the entry at `k` and the key octet, and leaves the others. */
  lemma ScheduledIs(t: Sched, k: Byte, o: Byte)
    ensures var u := Scheduled(t, k, o);
            && (u.j - t.j - t.s[k] - o) % 256 == 0
            && u.s[k] == t.s[u.j] && u.s[u.j] == t.s[k]
            && forall n :: 0 <= n < 256 && n != k && n != u.j ==> u.s[n] == t.s[n]
  {
  }

  /** One octet: with `a` the entry after the last one used and `b` the entry `a`
      further on than the last index, the two are exchanged, and what goes out is
      the entry at `a + b` of the table so changed. */
  lemma DrawnIs(t: State, a: Byte, b: Byte)
    requires a == t.s[(t.i + 1) % 256] && b == t.s[(t.j + a) % 256]
    ensures var u, n := Step(t), (a + b) % 256;
            && u.i == (t.i + 1) % 256 && u.j == (t.j + a) % 256
            && Out(u) == (if n == u.i then b else if n == u.j then a else t.s[n])
            && (forall m :: 0 <= m < 256 && m != u.i && m != u.j ==> u.s[m] == t.s[m])
            && u.s[u.i] == b && u.s[u.j] == a
  {
    var u := Step(t);
    assert u.s[u.i] == b && u.s[u.j] == a;
  }

  /** The generator backwards. */
  function Unstep(t: State): State {
    var s := Swap(t.s, t.i, t.j);
    State(s, (t.i + 255) % 256, (t.j + 256 - s[t.i]) % 256)
  }

  lemma Wrapped(v: nat, x: Byte)
    requires v == x || v == x + 256
    ensures v % 256 == x
  {
  }

  lemma Forth(x: Byte, a: Byte, y: Byte)
    requires y == (x + a) % 256
    ensures (y + 256 - a) % 256 == x
  {
    Wrapped(y + 256 - a, x);
  }

  lemma Back(x: Byte, a: Byte, y: Byte)
    requires y == (x + 256 - a) % 256
    ensures (y + a) % 256 == x
  {
    Wrapped(y + a, x);
  }

  /** No state is reached from two, so different states never become one. */
  lemma StepUndone(t: State)
    ensures Unstep(Step(t)) == t && Step(Unstep(t)) == t
  {
    Undone(t, Step(t));
    var v := Unstep(t);
    SwapBack(t.s, t.i, t.j);
    Back(t.i, 1, v.i);
    Back(t.j, v.s[t.i], v.j);
  }

  lemma Undone(t: State, u: State)
    requires u == Step(t)
    ensures Unstep(u) == t
  {
    SwapBack(t.s, u.i, u.j);
    Forth(t.i, 1, u.i);
    Forth(t.j, t.s[u.i], u.j);
  }

  lemma SwapBack(s: Table, a: Byte, b: Byte)
    ensures Swap(Swap(s, a, b), a, b) == s && Swap(s, a, b)[a] == s[b] && Swap(s, a, b)[b] == s[a]
  {
  }

  lemma {:induction false} StatesTell(t: State, u: State, n: nat)
    requires After(t, n) == After(u, n)
    ensures t == u
    decreases n
  {
    if n > 0 {
      StatesTell(Step(t), Step(u), n - 1);
      StepUndone(t);
      StepUndone(u);
    }
  }

  // ---- in place -----------------------------------------------------------

  class Engine {
    const s: array<Byte>
    var i: Byte
    var j: Byte

    ghost predicate Valid() { s.Length == 256 }

    ghost function Abs(): State
      requires Valid()
      reads this, s
    {
      State(s[..], i, j)
    }

    constructor (key: seq<Byte>)
      requires key != []
      ensures Valid() && fresh(s) && Abs() == Init(key)
    {
      s := new Byte[256];
      i, j := 0, 0;
      new;
      Reset();
      ScheduleKey(key);
      i, j := 0, 0;
    }

    method Reset()
      requires Valid()
      modifies s
      ensures s[..] == Identity()
    {
      var k := 0;
      while k < 256
        invariant k <= 256 && forall n :: 0 <= n < k ==> s[n] == n
      {
        s[k] := k;
        k := k + 1;
      }
    }

    /** One step of the key schedule, with key octet `o`. */
    method Mix(k: Byte, o: Byte)
      requires Valid()
      modifies this, s
      ensures Sched(s[..], j) == Scheduled(Sched(old(s[..]), old(j)), k, o)
    {
      ghost var b := s[..];
      j := (j + s[k] + o) % 256;
      s[k], s[j] := s[j], s[k];
      assert s[..] == Swap(b, k, j);
    }

    method MixAll(key: seq<Byte>, n: nat)
      requires Valid() && key != [] && n <= 256 && j == 0 && Sched(s[..], j) == Schedule(key, 0)
      modifies this, s
      ensures Sched(s[..], j) == Schedule(key, n)
    {
      var k: nat := 0;
      while k < n
        invariant k <= n && Sched(s[..], j) == Schedule(key, k)
      {
        ScheduleStep(key, k, k + 1);
        Mix(k, key[k % |key|]);
        k := k + 1;
      }
    }

    method ScheduleKey(key: seq<Byte>)
      requires Valid() && key != [] && s[..] == Identity()
      modifies this, s
      ensures s[..] == Schedule(key, 256).s
    {
      j := 0;
      MixAll(key, 256);
    }

    /** Draws one octet. */
    method Next() returns (k: Byte)
      requires Valid()
      modifies this, s
      ensures Abs() == Step(old(Abs())) && k == Out(Abs())
    {
      ghost var b := s[..];
      i := (i + 1) % 256;
      j := (j + s[i]) % 256;
      s[i], s[j] := s[j], s[i];
      assert s[..] == Swap(b, i, j);
      k := s[((s[i] as nat) + (s[j] as nat)) % 256];
    }
  }
}
