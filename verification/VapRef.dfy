/** The reference count of a virtual interface and its detach protocol, as
    interleaved atomic steps on one 32-bit word. */
module VapRef {
  import Tally

  // ---- the word -----------------------------------------------------------

  const REF_ADD := 2
  const REF_MAX := 0x7fff_ffff
  const WORD := 0x1_0000_0000

  /** Bit 0 of the word. */
  predicate IsDetached(w: nat) {
    w % 2 == 1
  }

  /** The other 31 bits. */
  function Refs(w: nat): nat {
    w / 2
  }

  /** Atomic addition wraps at 32 bits. */
  function Plus(w: nat, delta: int): nat {
    (w + delta) % WORD
  }

  function SetDetached(w: nat): nat {
    if IsDetached(w) then w else w + 1
  }

  // ---- the threads --------------------------------------------------------

  /** Where a thread is: outside; between the two steps of taking a reference,
      with the word it saw; holding one; waiting for the count to drop to zero;
      or past that. */
  datatype Phase = Idle | Added(seen: nat) | Holding | Waiting | Done

  predicate Refused(seen: nat) {
    IsDetached(seen) || Refs(seen) == REF_MAX
  }

  predicate Busy(p: Phase) {
    p.Added? || p.Holding?
  }

  datatype State = State(word: nat, threads: seq<Phase>)

  /** One atomic step of thread `t`; a thread that is elsewhere does nothing. */
  datatype Step = Acquire(t: nat) | Test(t: nat) | Release(t: nat) | Detach(t: nat) | Poll(t: nat)

  predicate Enabled(s: State, e: Step) {
    && e.t < |s.threads|
    && match e
       case Acquire(t) => s.threads[t].Idle?
       case Test(t) => s.threads[t].Added?
       case Release(t) => s.threads[t].Holding?
       case Detach(t) => s.threads[t].Idle?
       case Poll(t) => s.threads[t].Waiting?
  }

  function Next(s: State, e: Step): State {
    if !Enabled(s, e) then s
    else
      match e
      case Acquire(t) => State(Plus(s.word, REF_ADD), s.threads[t := Added(s.word)])
      case Test(t) =>
        if Refused(s.threads[t].seen) then State(Plus(s.word, -REF_ADD), s.threads[t := Idle])
        else s.(threads := s.threads[t := Holding])
      case Release(t) => State(Plus(s.word, -REF_ADD), s.threads[t := Idle])
      case Detach(t) => State(SetDetached(s.word), s.threads[t := Waiting])
      case Poll(t) => if Refs(s.word) == 0 then s.(threads := s.threads[t := Done]) else s
  }

  function Run(s: State, es: seq<Step>): State {
    if es == [] then s else Next(Run(s, es[..|es| - 1]), es[|es| - 1])
  }

  function Start(n: nat): State {
    State(0, seq(n, _ => Idle))
  }

  // ---- what every run keeps -----------------------------------------------

  function Users(s: State): nat {
    Tally.Count(s.threads, Busy)
  }

  predicate Detaching(s: State) {
    exists t :: 0 <= t < |s.threads| && (s.threads[t].Waiting? || s.threads[t].Done?)
  }

  /** The count is the number of holders plus adders in flight, modulo its
      width, and the flag is set once some thread has begun to detach. */
  predicate Counted(s: State) {
    && s.word < WORD
    && Refs(s.word) == Users(s) % (REF_MAX + 1)
    && (Detaching(s) <==> IsDetached(s.word))
  }

  lemma WordUp(w: nat, u: nat)
    requires w < WORD && Refs(w) == u % (REF_MAX + 1)
    ensures var w' := if w + 2 < WORD then w + 2 else w + 2 - WORD;
            Plus(w, REF_ADD) == w' && IsDetached(w') == IsDetached(w) && Refs(w') == (u + 1) % (REF_MAX + 1)
  {
  }

  lemma WordDown(w: nat, u: nat)
    requires w < WORD && u > 0 && Refs(w) == u % (REF_MAX + 1)
    ensures var w' := if w >= 2 then w - 2 else w - 2 + WORD;
            Plus(w, -REF_ADD) == w' && IsDetached(w') == IsDetached(w) && Refs(w') == (u - 1) % (REF_MAX + 1)
  {
    OneLess(u);
  }

  lemma OneLess(u: nat)
    requires u > 0
    ensures (u - 1) % (REF_MAX + 1) == if u % (REF_MAX + 1) == 0 then REF_MAX else u % (REF_MAX + 1) - 1
  {
  }

  lemma BusyCounts(ts: seq<Phase>, t: nat)
    requires t < |ts| && Busy(ts[t])
    ensures Tally.Count(ts, Busy) > 0
  {
    Tally.Zero(ts, Busy);
  }

  /** The word moves with the number of threads that are busy. */
  lemma NextWord(s: State, e: Step)
    requires Counted(s) && Enabled(s, e)
    ensures var s' := Next(s, e);
            && s'.word < WORD && Refs(s'.word) == Users(s') % (REF_MAX + 1)
            && IsDetached(s'.word) == (IsDetached(s.word) || e.Detach?)
  {
    var s' := Next(s, e);
    var u := Users(s);
    assert s.threads[e.t := s.threads[e.t]] == s.threads;
    Tally.Update(s.threads, Busy, e.t, s'.threads[e.t]);
    match e
    case Acquire(t) => WordUp(s.word, u);
    case Test(t) =>
      BusyCounts(s.threads, t);
      WordDown(s.word, u);
    case Release(t) =>
      BusyCounts(s.threads, t);
      WordDown(s.word, u);
    case Detach(t) =>
    case Poll(t) =>
  }

  lemma NextCounted(s: State, e: Step)
    requires Counted(s)
    ensures Counted(Next(s, e)) && |Next(s, e).threads| == |s.threads|
  {
    if Enabled(s, e) {
      NextWord(s, e);
      var s' := Next(s, e);
      assert Detaching(s') ==> e.Detach? || Detaching(s);
      if e.Detach? {
        assert s'.threads[e.t].Waiting?;
      } else if Detaching(s) {
        var t :| 0 <= t < |s.threads| && (s.threads[t].Waiting? || s.threads[t].Done?);
        assert s'.threads[t].Waiting? || s'.threads[t].Done?;
      }
    }
  }

  lemma {:induction false} RunCounted(n: nat, es: seq<Step>)
    ensures Counted(Run(Start(n), es)) && |Run(Start(n), es).threads| == n
  {
    if es == [] {
      Tally.Zero(Start(n).threads, Busy);
    } else {
      RunCounted(n, es[..|es| - 1]);
      NextCounted(Run(Start(n), es[..|es| - 1]), es[|es| - 1]);
    }
  }

  // ---- after the detach ---------------------------------------------------

  /** Thread `t` neither holds a reference nor can its attempt succeed. */
  predicate Shut(p: Phase) {
    !p.Holding? && (p.Added? ==> Refused(p.seen))
  }

  predicate Detached(s: State) {
    exists t :: 0 <= t < |s.threads| && s.threads[t].Done?
  }

  /** Once the detach is over nobody has a reference or can still get one. */
  predicate Drained(s: State) {
    Detached(s) ==> forall t :: 0 <= t < |s.threads| ==> Shut(s.threads[t])
  }

  /** With few enough threads a waiting one sees zero exactly when nobody is busy. */
  lemma PollSeesUsers(s: State, t: nat)
    requires Counted(s) && |s.threads| <= REF_MAX + 1 && t < |s.threads| && s.threads[t].Waiting?
    ensures Next(s, Poll(t)).threads[t].Done? <==> Users(s) == 0
  {
    Tally.Misses(s.threads, Busy, t);
  }

  lemma NextDrained(s: State, e: Step)
    requires Counted(s) && Drained(s) && |s.threads| <= REF_MAX + 1
    ensures Drained(Next(s, e))
  {
    var s' := Next(s, e);
    if Enabled(s, e) && Detached(s') {
      if e.Poll? && !Detached(s) {
        PollSeesUsers(s, e.t);
        Tally.Zero(s.threads, Busy);
      } else {
        assert Detached(s);
        assert Detaching(s);
      }
      forall t | 0 <= t < |s'.threads| ensures Shut(s'.threads[t]) {
        assert t != e.t ==> s'.threads[t] == s.threads[t];
        assert Detached(s) ==> Shut(s.threads[t]);
        assert !Detached(s) ==> !Busy(s.threads[t]);
      }
    }
  }

  lemma {:induction false} RunDrained(n: nat, es: seq<Step>)
    requires n <= REF_MAX + 1
    ensures Drained(Run(Start(n), es))
  {
    if es != [] {
      RunDrained(n, es[..|es| - 1]);
      RunCounted(n, es[..|es| - 1]);
      NextDrained(Run(Start(n), es[..|es| - 1]), es[|es| - 1]);
    }
  }

  // ---- too many threads ---------------------------------------------------

  /** The first `k` threads take a reference each. */
  function Grab(k: nat): seq<Step> {
    if k == 0 then [] else Grab(k - 1) + [Acquire(k - 1), Test(k - 1)]
  }

  function Grabbed(n: nat, k: nat): State {
    State(2 * k, seq(n, i => if i < k then Holding else Idle))
  }

  lemma RunTwo(s: State, es: seq<Step>, a: Step, b: Step)
    ensures Run(s, es + [a, b]) == Next(Next(Run(s, es), a), b)
  {
    var all := es + [a, b];
    assert all[..|all| - 1] == es + [a];
    assert (es + [a])[..|es|] == es;
  }

  lemma GrabNext(n: nat, k: nat, k': nat)
    requires k' == k + 1 <= n && k < REF_MAX
    ensures Next(Next(Grabbed(n, k), Acquire(k)), Test(k)) == Grabbed(n, k')
  {
    var s := Grabbed(n, k);
    var s1 := Next(s, Acquire(k));
    assert s1 == State(2 * k + 2, s.threads[k := Added(2 * k)]);
    var s2 := Next(s1, Test(k));
    assert s2 == State(2 * k + 2, s1.threads[k := Holding]);
    assert s2.threads == Grabbed(n, k').threads;
  }

  lemma GrabNone(n: nat)
    ensures Start(n) == Grabbed(n, 0)
  {
    assert Start(n).threads == Grabbed(n, 0).threads;
  }

  lemma {:induction false} GrabRuns(n: nat, k: nat)
    requires k <= n && k <= REF_MAX
    ensures Run(Start(n), Grab(k)) == Grabbed(n, k)
  {
    if k == 0 {
      GrabNone(n);
    } else {
      var j := k - 1;
      GrabRuns(n, j);
      RunTwo(Start(n), Grab(j), Acquire(j), Test(j));
      GrabNext(n, j, k);
    }
  }

  lemma RunOne(s: State, es: seq<Step>, a: Step)
    ensures Run(s, es + [a]) == Next(Run(s, es), a)
  {
    assert (es + [a])[..|es|] == es;
  }

  /** One thread more than the count can tell apart brings the count back to zero. */
  lemma GrabWraps(n: nat) returns (es: seq<Step>)
    requires n > REF_MAX
    ensures var s := Run(Start(n), es);
            && s.word == 0 && |s.threads| == n && s.threads[0].Holding?
            && s.threads[REF_MAX] == Added(2 * REF_MAX)
            && (n > REF_MAX + 1 ==> s.threads[n - 1].Idle?)
  {
    var k := REF_MAX;
    GrabRuns(n, k);
    var s := Grabbed(n, k);
    var g := Grab(k);
    es := g + [Acquire(k)];
    RunOne(Start(n), g, Acquire(k));
    assert Next(s, Acquire(k)) == State(0, s.threads[k := Added(2 * k)]);
  }

  /** With two more a detach can return while a reference is held. */
  lemma DetachTooSoon(n: nat) returns (es: seq<Step>)
    requires n > REF_MAX + 1
    ensures var s := Run(Start(n), es);
            Detached(s) && |s.threads| == n && s.threads[0].Holding?
  {
    var gs := GrabWraps(n);
    var s := Run(Start(n), gs);
    var d := n - 1;
    var a, b := Detach(d), Poll(d);
    RunTwo(Start(n), gs, a, b);
    es := gs + [a, b];
    var s1 := Next(s, a);
    assert s1 == State(1, s.threads[d := Waiting]);
    var s2 := Next(s1, b);
    assert s2 == State(1, s1.threads[d := Done]);
    assert s2.threads[d].Done?;
  }

  /** A detach that has returned is safe in every run exactly when there are at
      most 2^31 threads. */
  lemma DrainedIff(n: nat)
    ensures (forall es: seq<Step> :: Drained(Run(Start(n), es))) <==> n <= REF_MAX + 1
  {
    if n <= REF_MAX + 1 {
      forall es: seq<Step> ensures Drained(Run(Start(n), es)) {
        RunDrained(n, es);
      }
    } else {
      var es := DetachTooSoon(n);
      assert !Shut(Run(Start(n), es).threads[0]);
    }
  }

  // ---- underflow and overflow ---------------------------------------------

  /** No release would find the count at zero, and no thread saw it full. */
  predicate Fits(s: State) {
    forall t :: 0 <= t < |s.threads| ==>
      (s.threads[t].Holding? ==> Refs(s.word) != 0) && (s.threads[t].Added? ==> Refs(s.threads[t].seen) != REF_MAX)
  }

  lemma HolderSeesCount(s: State, t: nat)
    requires Counted(s) && |s.threads| <= REF_MAX && t < |s.threads| && s.threads[t].Holding?
    ensures Refs(s.word) != 0
  {
    BusyCounts(s.threads, t);
  }

  lemma NextFits(s: State, e: Step)
    requires Counted(s) && Fits(s) && |s.threads| <= REF_MAX
    ensures Fits(Next(s, e))
  {
    var s' := Next(s, e);
    NextCounted(s, e);
    if Enabled(s, e) && e.Acquire? {
      Tally.Misses(s.threads, Busy, e.t);
      assert Refs(s.word) != REF_MAX;
    }
    forall t | 0 <= t < |s'.threads|
      ensures (s'.threads[t].Holding? ==> Refs(s'.word) != 0) && (s'.threads[t].Added? ==> Refs(s'.threads[t].seen) != REF_MAX)
    {
      assert !Enabled(s, e) || t != e.t ==> s'.threads[t] == s.threads[t];
      if s'.threads[t].Holding? {
        HolderSeesCount(s', t);
      }
    }
  }

  lemma {:induction false} RunFits(n: nat, es: seq<Step>)
    requires n <= REF_MAX
    ensures Fits(Run(Start(n), es))
  {
    if es != [] {
      RunFits(n, es[..|es| - 1]);
      RunCounted(n, es[..|es| - 1]);
      NextFits(Run(Start(n), es[..|es| - 1]), es[|es| - 1]);
    }
  }

  /** The underflow assertion can never fail, and taking a reference never
      reports overflow, exactly when there are fewer than 2^31 threads. */
  lemma FitsIff(n: nat)
    ensures (forall es: seq<Step> :: Fits(Run(Start(n), es))) <==> n <= REF_MAX
  {
    if n <= REF_MAX {
      forall es: seq<Step> ensures Fits(Run(Start(n), es)) {
        RunFits(n, es);
      }
    } else {
      var es := GrabWraps(n);
      var s := Run(Start(n), es);
      assert s.threads[0].Holding? && Refs(s.word) == 0;
    }
  }

  // ---- the operations -----------------------------------------------------

  datatype Errno = None | ENETDOWN | EOVERFLOW

  class Vap {
    var comState: nat
    ghost var threads: seq<Phase>

    ghost function Now(): State
      reads this
    {
      State(comState, threads)
    }

    constructor (ghost n: nat)
      ensures Now() == Start(n)
    {
      comState := 0;
      threads := seq(n, _ => Idle);
    }

    method FetchAdd(delta: int) returns (ostate: nat)
      modifies `comState
      ensures ostate == old(comState) && comState == Plus(ostate, delta)
    {
      ostate := comState;
      comState := (comState + delta) % WORD;
    }

    /** Taking a reference, up to its first atomic step. */
    method VincrefAdd(ghost t: nat) returns (ostate: nat)
      requires Enabled(Now(), Acquire(t))
      modifies this
      ensures Now() == Next(old(Now()), Acquire(t)) && threads[t] == Added(ostate)
    {
      ostate := FetchAdd(REF_ADD);
      threads := threads[t := Added(ostate)];
    }

    /** The rest of it: gives the reference back when it may not be had. */
    method VincrefTest(ghost t: nat, ostate: nat) returns (err: Errno)
      requires Enabled(Now(), Test(t)) && threads[t] == Added(ostate)
      modifies this
      ensures Now() == Next(old(Now()), Test(t))
      ensures err == None <==> threads[t].Holding?
      ensures err == ENETDOWN <==> IsDetached(ostate)
    {
      if IsDetached(ostate) {
        var _ := FetchAdd(-REF_ADD);
        err := ENETDOWN;
      } else if Refs(ostate) == REF_MAX {
        var _ := FetchAdd(-REF_ADD);
        err := EOVERFLOW;
      } else {
        err := None;
      }
      threads := threads[t := if err == None then Holding else Idle];
    }

    method Vdecref(ghost t: nat)
      requires Enabled(Now(), Release(t)) && Fits(Now())
      modifies this
      ensures Now() == Next(old(Now()), Release(t))
    {
      var ostate := FetchAdd(-REF_ADD);
      assert Refs(ostate) != 0;
      threads := threads[t := Idle];
    }

    method VdetachSet(ghost t: nat)
      requires Enabled(Now(), Detach(t))
      modifies this
      ensures Now() == Next(old(Now()), Detach(t))
    {
      comState := SetDetached(comState);
      threads := threads[t := Waiting];
    }

    /** One turn of the waiting loop. */
    method VdetachPoll(ghost t: nat) returns (done: bool)
      requires Enabled(Now(), Poll(t))
      modifies this
      ensures Now() == Next(old(Now()), Poll(t)) && done == threads[t].Done?
    {
      done := Refs(comState) == 0;
      if done {
        threads := threads[t := Done];
      }
    }
  }
}
