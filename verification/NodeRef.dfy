/** The reference count of a node and the test for its last reference, as
    interleaved atomic steps on one 32-bit word. */
module NodeRef {
  import Tally

  const WORD := 0x1_0000_0000

  /** Where a thread is: without a reference; holding one; or between the two
      steps of giving one up. */
  datatype Phase = Idle | Holding | Dropped

  predicate Holds(p: Phase) {
    p.Holding?
  }

  predicate Pending(p: Phase) {
    p.Dropped?
  }

  /** `wins` counts the releases that were told theirs was the last reference. */
  datatype State = State(refcnt: nat, threads: seq<Phase>, wins: nat)

  /** One atomic step: a holder `t` takes a reference for `u`, subtracts one, or
      compares with zero and sets one. */
  datatype Step = Share(t: nat, u: nat) | Drop(t: nat) | Test(t: nat)

  predicate Enabled(s: State, e: Step) {
    && e.t < |s.threads|
    && match e
       case Share(t, u) => s.threads[t].Holding? && u < |s.threads| && s.threads[u].Idle?
       case Drop(t) => s.threads[t].Holding?
       case Test(t) => s.threads[t].Dropped?
  }

  function Next(s: State, e: Step): State {
    if !Enabled(s, e) then s
    else
      match e
      case Share(t, u) => State((s.refcnt + 1) % WORD, s.threads[u := Holding], s.wins)
      case Drop(t) => State((s.refcnt - 1) % WORD, s.threads[t := Dropped], s.wins)
      case Test(t) =>
        if s.refcnt == 0 then State(1, s.threads[t := Idle], s.wins + 1)
        else State(s.refcnt, s.threads[t := Idle], s.wins)
  }

  function Run(s: State, es: seq<Step>): State {
    if es == [] then s else Next(Run(s, es[..|es| - 1]), es[|es| - 1])
  }

  /** A new node has one reference, the first thread's. */
  function Start(n: nat): State {
    State(1, seq(n, i => if i == 0 then Holding else Idle), 0)
  }

  function Held(s: State): nat {
    Tally.Count(s.threads, Holds)
  }

  // ---- what every run keeps -----------------------------------------------

  /** At most one release is told it was the last, and then nobody holds a
      reference; and while none was told, somebody holds one or has still to ask. */
  predicate LastOnce(s: State) {
    && s.wins <= 1
    && (s.wins == 1 ==> Held(s) == 0)
    && (s.wins == 0 ==> Held(s) > 0 || Tally.Count(s.threads, Pending) > 0)
  }

  predicate Counted(s: State) {
    s.refcnt == (Held(s) + s.wins) % WORD
  }

  lemma Up(w: nat, h: nat)
    requires w == h % WORD
    ensures (w + 1) % WORD == (h + 1) % WORD
  {
  }

  lemma Down(w: nat, h: nat)
    requires w == h % WORD && h > 0
    ensures (w - 1) % WORD == (h - 1) % WORD
  {
  }

  lemma One(ts: seq<Phase>, f: Phase -> bool, t: nat)
    requires t < |ts| && f(ts[t])
    ensures Tally.Count(ts, f) > 0
  {
    Tally.Zero(ts, f);
  }

  /** A release sees zero exactly when no reference is left and none was told so. */
  lemma TestSees(s: State, t: nat)
    requires Counted(s) && LastOnce(s) && |s.threads| <= WORD && t < |s.threads| && s.threads[t].Dropped?
    ensures s.refcnt == 0 <==> Held(s) == 0 && s.wins == 0
  {
    Tally.Misses(s.threads, Holds, t);
  }

  lemma ShareKeeps(s: State, t: nat, u: nat)
    requires Counted(s) && LastOnce(s) && Enabled(s, Share(t, u))
    ensures Counted(Next(s, Share(t, u))) && LastOnce(Next(s, Share(t, u)))
  {
    One(s.threads, Holds, t);
    Up(s.refcnt, Held(s) + s.wins);
    Tally.Update(s.threads, Holds, u, Holding);
  }

  lemma DropKeeps(s: State, t: nat)
    requires Counted(s) && LastOnce(s) && Enabled(s, Drop(t))
    ensures Counted(Next(s, Drop(t))) && LastOnce(Next(s, Drop(t)))
  {
    One(s.threads, Holds, t);
    Down(s.refcnt, Held(s) + s.wins);
    Tally.Update(s.threads, Holds, t, Dropped);
    One(Next(s, Drop(t)).threads, Pending, t);
  }

  lemma TestKeeps(s: State, t: nat)
    requires Counted(s) && LastOnce(s) && |s.threads| <= WORD && Enabled(s, Test(t))
    ensures Counted(Next(s, Test(t))) && LastOnce(Next(s, Test(t)))
  {
    TestSees(s, t);
    Tally.Update(s.threads, Holds, t, Idle);
  }

  lemma NextKeeps(s: State, e: Step)
    requires Counted(s) && LastOnce(s) && |s.threads| <= WORD
    ensures Counted(Next(s, e)) && LastOnce(Next(s, e)) && |Next(s, e).threads| == |s.threads|
  {
    if Enabled(s, e) {
      match e
      case Share(t, u) => ShareKeeps(s, t, u);
      case Drop(t) => DropKeeps(s, t);
      case Test(t) => TestKeeps(s, t);
    }
  }

  lemma StartKeeps(n: nat)
    requires n > 0
    ensures Held(Start(n)) == 1 && Counted(Start(n)) && LastOnce(Start(n))
  {
    var ts := Start(n).threads;
    Tally.Update(ts, Holds, 0, Idle);
    Tally.Zero(ts[0 := Idle], Holds);
  }

  lemma {:induction false} RunKeeps(n: nat, es: seq<Step>)
    requires 0 < n <= WORD
    ensures var s := Run(Start(n), es);
            Counted(s) && LastOnce(s) && |s.threads| == n
  {
    if es == [] {
      StartKeeps(n);
    } else {
      RunKeeps(n, es[..|es| - 1]);
      NextKeeps(Run(Start(n), es[..|es| - 1]), es[|es| - 1]);
    }
  }

  predicate AllIdle(s: State) {
    forall t :: 0 <= t < |s.threads| ==> s.threads[t].Idle?
  }

  /** When every reference was given up and every release has asked, exactly one
      of them was told it was the last. */
  lemma QuietMeansOne(n: nat, es: seq<Step>)
    requires 0 < n <= WORD && AllIdle(Run(Start(n), es))
    ensures Run(Start(n), es).wins == 1
  {
    RunKeeps(n, es);
    var s := Run(Start(n), es);
    Tally.Zero(s.threads, Holds);
    Tally.Zero(s.threads, Pending);
  }

  // ---- too many threads ---------------------------------------------------

  /** Whoever is told theirs was the last reference is the only one told, and
      nobody holds one. */
  predicate OneLast(s: State) {
    s.wins <= 1 && (s.wins > 0 ==> forall t :: 0 <= t < |s.threads| ==> !s.threads[t].Holding?)
  }

  /** Threads 1 to `k` each get a reference from thread 0. */
  function Spread(k: nat): seq<Step> {
    if k == 0 then [] else Spread(k - 1) + [Share(0, k)]
  }

  function Shared(n: nat, k: nat): State {
    State((k + 1) % WORD, seq(n, i => if i <= k then Holding else Idle), 0)
  }

  lemma RunOne(s: State, es: seq<Step>, a: Step)
    ensures Run(s, es + [a]) == Next(Run(s, es), a)
  {
    assert (es + [a])[..|es|] == es;
  }

  lemma SpreadNone(n: nat)
    requires n > 0
    ensures Start(n) == Shared(n, 0)
  {
    assert Start(n).threads == Shared(n, 0).threads;
  }

  lemma SpreadNext(n: nat, j: nat, k: nat)
    requires k == j + 1 < n
    ensures Next(Shared(n, j), Share(0, k)) == Shared(n, k)
  {
    var s := Shared(n, j);
    Up(s.refcnt, k);
    assert s.threads[k := Holding] == Shared(n, k).threads;
  }

  lemma {:induction false} SpreadRuns(n: nat, k: nat)
    requires k < n
    ensures Run(Start(n), Spread(k)) == Shared(n, k)
  {
    if k == 0 {
      SpreadNone(n);
    } else {
      var j := k - 1;
      SpreadRuns(n, j);
      RunOne(Start(n), Spread(j), Share(0, k));
      SpreadNext(n, j, k);
    }
  }

  /** With more than 2^32 threads a release can be told it was the last while the
      others hold their references. */
  lemma LastTooSoon(n: nat) returns (es: seq<Step>)
    requires n > WORD
    ensures var s := Run(Start(n), es);
            s.wins == 1 && |s.threads| == n && s.threads[0].Holding?
  {
    var k := WORD;
    SpreadRuns(n, k);
    var g, a, b := Spread(k), Drop(k), Test(k);
    RunOne(Start(n), g, a);
    RunOne(Start(n), g + [a], b);
    es := g + [a] + [b];
    var s := Shared(n, k);
    assert s.refcnt == 1;
    var s1 := Next(s, a);
    assert s1 == State(0, s.threads[k := Dropped], 0);
    assert Next(s1, b) == State(1, s1.threads[k := Idle], 1);
  }

  lemma OneLastIff(n: nat)
    requires n > 0
    ensures (forall es: seq<Step> :: OneLast(Run(Start(n), es))) <==> n <= WORD
  {
    if n <= WORD {
      forall es: seq<Step> ensures OneLast(Run(Start(n), es)) {
        RunKeeps(n, es);
        Tally.Zero(Run(Start(n), es).threads, Holds);
      }
    } else {
      var es := LastTooSoon(n);
      assert Run(Start(n), es).threads[0].Holding?;
    }
  }

  // ---- the operations -----------------------------------------------------

  class Node {
    var refcnt: nat
    ghost var threads: seq<Phase>
    ghost var wins: nat

    ghost function Now(): State
      reads this
    {
      State(refcnt, threads, wins)
    }

    constructor (ghost n: nat)
      ensures Now() == Start(n)
    {
      refcnt := 1;
      threads := seq(n, i => if i == 0 then Holding else Idle);
      wins := 0;
    }

    method Incref(ghost t: nat, ghost u: nat)
      requires Enabled(Now(), Share(t, u))
      modifies this
      ensures Now() == Next(old(Now()), Share(t, u))
    {
      refcnt := (refcnt + 1) % WORD;
      threads := threads[u := Holding];
    }

    /** Dropping a reference, up to its first atomic step. */
    method DectestSubtract(ghost t: nat)
      requires Enabled(Now(), Drop(t))
      modifies this
      ensures Now() == Next(old(Now()), Drop(t))
    {
      refcnt := (refcnt - 1) % WORD;
      threads := threads[t := Dropped];
    }

    /** The rest of it: was that the last reference? */
    method DectestCompare(ghost t: nat) returns (last: bool)
      requires Enabled(Now(), Test(t)) && Counted(Now()) && LastOnce(Now()) && |threads| <= WORD
      modifies this
      ensures Now() == Next(old(Now()), Test(t))
      ensures last <==> old(wins == 0 && forall u :: 0 <= u < |threads| ==> !threads[u].Holding?)
    {
      TestSees(Now(), t);
      Tally.Zero(threads, Holds);
      last := refcnt == 0;
      if last {
        refcnt := 1;
        wins := wins + 1;
      }
      threads := threads[t := Idle];
    }
  }
}
