/** The age queue: a linked list of frames, each with an age relative to the head's. */
module AgeQueue {
  import opened Tally

  /** A packet with its queue link. */
  class Mbuf {
    const rcvif: nat
    var age: int
    var next: Mbuf?

    constructor (rcvif: nat)
      ensures this.rcvif == rcvif && next == null
    {
      this.rcvif, age, next := rcvif, 0, null;
    }
  }

  /** Which frames to take: all, or those of one node. */
  datatype Match = All | Of(node: nat)

  predicate Matches(w: Match, m: Mbuf) {
    w.All? || m.rcvif == w.node
  }

  // ---- lists --------------------------------------------------------------

  /** Frame `i` occurs once. */
  predicate Sole(s: seq<Mbuf>, i: nat)
    requires i < |s|
  {
    forall k :: 0 <= k < |s| && k != i ==> s[k] != s[i]
  }

  predicate Distinct(s: seq<Mbuf>) {
    forall i: nat :: i < |s| ==> Sole(s, i)
  }

  /** The frames that match, or those that do not, in order. */
  function Filter(w: Match, yes: bool, s: seq<Mbuf>): seq<Mbuf> {
    if s == [] then []
    else
      var n := |s| - 1;
      Filter(w, yes, s[..n]) + (if Matches(w, s[n]) == yes then [s[n]] else [])
  }

  lemma {:induction false} InFilter(w: Match, yes: bool, s: seq<Mbuf>, m: Mbuf)
    ensures m in Filter(w, yes, s) <==> m in s && Matches(w, m) == yes
  {
    if s != [] {
      var n := |s| - 1;
      assert s == s[..n] + [s[n]];
      InFilter(w, yes, s[..n], m);
    }
  }

  lemma FilterNext(w: Match, yes: bool, s: seq<Mbuf>, i: nat)
    requires i < |s|
    ensures Filter(w, yes, s[..i + 1]) == Filter(w, yes, s[..i]) + (if Matches(w, s[i]) == yes then [s[i]] else [])
  {
    assert s[..i + 1][..i] == s[..i];
  }

  /** A frame not reached yet is in neither list. */
  lemma NotYet(w: Match, yes: bool, s: seq<Mbuf>, i: nat, j: nat)
    requires Distinct(s) && i <= j < |s|
    ensures s[j] !in Filter(w, yes, s[..i])
  {
    InFilter(w, yes, s[..i], s[j]);
    assert Sole(s, j);
  }

  lemma Snoc(s: seq<Mbuf>, m: Mbuf)
    requires Distinct(s) && m !in s
    ensures Distinct(s + [m])
  {
    forall i: nat | i < |s| + 1 ensures Sole(s + [m], i) {
      if i < |s| {
        assert Sole(s, i);
      }
    }
  }

  lemma {:induction false} FilterDistinct(w: Match, yes: bool, s: seq<Mbuf>, i: nat)
    requires Distinct(s) && i <= |s|
    ensures Distinct(Filter(w, yes, s[..i]))
  {
    if i > 0 {
      FilterDistinct(w, yes, s, i - 1);
      FilterNext(w, yes, s, i - 1);
      var f := Filter(w, yes, s[..i - 1]);
      if Matches(w, s[i - 1]) == yes {
        NotYet(w, yes, s, i - 1, i - 1);
        Snoc(f, s[i - 1]);
      } else {
        assert f + [] == f;
      }
    }
  }

  /** Frame `m` is the first that does not match. */
  predicate Heads(w: Match, m: Mbuf, s: seq<Mbuf>) {
    var kept := Filter(w, false, s);
    kept != [] && m == kept[0]
  }

  lemma Ends(w: Match, s: seq<Mbuf>)
    requires Distinct(s)
    ensures var kept, taken := Filter(w, false, s), Filter(w, true, s);
            && Distinct(kept) && (taken != [] ==> Last(taken) !in kept && Last(taken) in s && Sole(taken, |taken| - 1))
            && (kept != [] ==> kept[0] in s)
            && (s != [] ==> (taken != [] && taken[0] == s[0] <==> Matches(w, s[0])))
  {
    assert s[..|s|] == s;
    FilterDistinct(w, false, s, |s|);
    FilterDistinct(w, true, s, |s|);
    Within(w, false, s, |s|);
    Within(w, true, s, |s|);
    var taken := Filter(w, true, s);
    if taken != [] {
      assert taken[|taken| - 1] == Last(taken);
      InFilter(w, true, s, Last(taken));
      InFilter(w, false, s, Last(taken));
    }
    if s != [] {
      FirstFilter(w, s);
    }
  }

  lemma {:induction false} FirstFilter(w: Match, s: seq<Mbuf>)
    requires s != []
    ensures var taken := Filter(w, true, s);
            Matches(w, s[0]) ==> taken != [] && taken[0] == s[0]
    ensures !Matches(w, s[0]) ==> s[0] !in Filter(w, true, s)
  {
    InFilter(w, true, s, s[0]);
    if |s| > 1 {
      FirstFilter(w, s[..|s| - 1]);
    } else {
      assert s[..0] == [];
    }
  }

  /** The two lists and the frames to come have nothing in common. */
  lemma Apart(w: Match, s: seq<Mbuf>, i: nat)
    requires Distinct(s) && i < |s|
    ensures var kept, taken, rest := Filter(w, false, s[..i]), Filter(w, true, s[..i]), s[i + 1..];
            && s[i] !in kept && s[i] !in taken && s[i] !in rest
            && (kept != [] ==> Sole(kept, |kept| - 1) && Last(kept) !in taken && Last(kept) !in rest)
            && (taken != [] ==> Sole(taken, |taken| - 1) && Last(taken) !in kept && Last(taken) !in rest)
            && (forall x :: x in kept || x in taken ==> x in s)
  {
    NotYet(w, false, s, i, i);
    NotYet(w, true, s, i, i);
    assert Sole(s, i);
    FilterDistinct(w, false, s, i);
    FilterDistinct(w, true, s, i);
    LastApart(w, false, s, i);
    LastApart(w, true, s, i);
    Within(w, false, s, i);
    Within(w, true, s, i);
  }

  lemma Within(w: Match, yes: bool, s: seq<Mbuf>, i: nat)
    requires i <= |s|
    ensures forall x :: x in Filter(w, yes, s[..i]) ==> x in s
  {
    forall x | x in Filter(w, yes, s[..i]) ensures x in s {
      InFilter(w, yes, s[..i], x);
    }
  }

  lemma Split(w: Match, s: seq<Mbuf>, i: nat, m: Mbuf)
    requires i < |s| && s[i] == m
    ensures s[i..] == [m] + s[i + 1..]
    ensures Filter(w, Matches(w, m), s[..i + 1]) == Filter(w, Matches(w, m), s[..i]) + [m]
    ensures Filter(w, !Matches(w, m), s[..i + 1]) == Filter(w, !Matches(w, m), s[..i])
  {
    FilterNext(w, true, s, i);
    FilterNext(w, false, s, i);
    var f := Filter(w, !Matches(w, m), s[..i]);
    assert f + [] == f;
  }

  lemma LastApart(w: Match, yes: bool, s: seq<Mbuf>, i: nat)
    requires Distinct(s) && i < |s|
    ensures var f := Filter(w, yes, s[..i]);
            f != [] ==> Last(f) !in Filter(w, !yes, s[..i]) && Last(f) !in s[i + 1..]
  {
    var f := Filter(w, yes, s[..i]);
    if f != [] {
      var m := Last(f);
      assert f[|f| - 1] == m;
      InFilter(w, yes, s[..i], m);
      InFilter(w, !yes, s[..i], m);
      var j :| 0 <= j < i && s[j] == m;
      assert Sole(s, j);
    }
  }

  /** `first` heads a list of exactly `s`, whose last link is `last`. */
  ghost predicate Linked(s: seq<Mbuf>, first: Mbuf?, last: Mbuf?)
    reads s
  {
    && first == (if s == [] then last else s[0])
    && forall i :: 0 <= i < |s| ==> s[i].next == Following(s, i, last)
  }

  /** What comes after frame `i` of a list. */
  function Following(s: seq<Mbuf>, i: int, last: Mbuf?): Mbuf?
    requires 0 <= i < |s|
  {
    if i + 1 < |s| then s[i + 1] else last
  }

  /** Frame `i` of the first `n`, if there is one. */
  function Nth(s: seq<Mbuf>, i: int, n: nat): Mbuf?
    requires n <= |s|
  {
    if 0 <= i < n then s[i] else null
  }

  /** The last frame, if there is one. */
  function Last(s: seq<Mbuf>): Mbuf? {
    if s == [] then null else s[|s| - 1]
  }

  /** The frames' stored ages. */
  ghost predicate Aged(s: seq<Mbuf>, ages: seq<int>)
    reads s`age
  {
    |ages| == |s| && forall i :: 0 <= i < |s| ==> s[i].age == ages[i]
  }

  /** How many frames at the front are younger than `quanta`. */
  function Young(ages: seq<int>, quanta: int): nat {
    if ages == [] || ages[0] >= quanta then 0 else 1 + Young(ages[1..], quanta)
  }

  lemma {:induction false} YoungIsMaximal(ages: seq<int>, quanta: int, k: nat)
    requires k <= |ages| && (forall i :: 0 <= i < k ==> ages[i] < quanta) && (k < |ages| ==> ages[k] >= quanta)
    ensures Young(ages, quanta) == k
  {
    if k > 0 {
      YoungIsMaximal(ages[1..], quanta, k - 1);
    }
  }

  lemma LinkedTail(m: Mbuf, rest: seq<Mbuf>)
    requires Linked([m] + rest, m, null)
    ensures Linked(rest, m.next, null)
    ensures Last([m] + rest) == if rest == [] then m else Last(rest)
  {
    var s := [m] + rest;
    assert s[0].next == Following(s, 0, null);
    forall i | 0 <= i < |rest| ensures rest[i].next == Following(rest, i, null) {
      assert s[i + 1].next == Following(s, i + 1, null);
    }
  }

  lemma DistinctRest(s: seq<Mbuf>, k: nat)
    requires Distinct(s) && k <= |s|
    ensures Distinct(s[k..]) && Distinct(s[..k])
  {
    forall i: nat | i < |s| - k ensures Sole(s[k..], i) {
      assert Sole(s, k + i);
    }
    forall i: nat | i < k ensures Sole(s[..k], i) {
      assert Sole(s, i);
    }
  }

  // ---- what one call does to the frames ------------------------------------

  datatype Event = Offer(m: Mbuf) | Expire(k: nat) | Take(w: Match)

  /** The queue after a call. */
  function Left(maxlen: nat, q: seq<Mbuf>, e: Event): seq<Mbuf> {
    match e
    case Offer(m) => if |q| < maxlen then q + [m] else q
    case Expire(k) => if k <= |q| then q[k..] else []
    case Take(w) => Filter(w, false, q)
  }

  /** The frames a call hands back. */
  function Out(maxlen: nat, q: seq<Mbuf>, e: Event): seq<Mbuf> {
    match e
    case Offer(m) => []
    case Expire(k) => if k <= |q| then q[..k] else q
    case Take(w) => Filter(w, true, q)
  }

  /** The frames a call frees. */
  function Lost(maxlen: nat, q: seq<Mbuf>, e: Event): seq<Mbuf> {
    if e.Offer? && |q| >= maxlen then [e.m] else []
  }

  function Offered(es: seq<Event>): seq<Mbuf> {
    if es == [] then []
    else
      var e := es[|es| - 1];
      Offered(es[..|es| - 1]) + if e.Offer? then [e.m] else []
  }

  /** Everything handed back, or freed, and the queue at the end of a run. */
  function RunLeft(maxlen: nat, q: seq<Mbuf>, es: seq<Event>): seq<Mbuf> {
    if es == [] then q else Left(maxlen, RunLeft(maxlen, q, es[..|es| - 1]), es[|es| - 1])
  }

  function RunOut(maxlen: nat, q: seq<Mbuf>, es: seq<Event>): seq<Mbuf> {
    if es == [] then []
    else RunOut(maxlen, q, es[..|es| - 1]) + Out(maxlen, RunLeft(maxlen, q, es[..|es| - 1]), es[|es| - 1])
  }

  function RunLost(maxlen: nat, q: seq<Mbuf>, es: seq<Event>): seq<Mbuf> {
    if es == [] then []
    else RunLost(maxlen, q, es[..|es| - 1]) + Lost(maxlen, RunLeft(maxlen, q, es[..|es| - 1]), es[|es| - 1])
  }

  lemma {:induction false} FilterSplits(w: Match, s: seq<Mbuf>, m: Mbuf)
    ensures Times(s, m) == Times(Filter(w, true, s), m) + Times(Filter(w, false, s), m)
  {
    if s != [] {
      var n := |s| - 1;
      FilterSplits(w, s[..n], m);
      assert s == s[..n] + [s[n]];
      TimesPlus(s[..n], [s[n]], m);
      TimesPlus(Filter(w, true, s[..n]), if Matches(w, s[n]) then [s[n]] else [], m);
      TimesPlus(Filter(w, false, s[..n]), if Matches(w, s[n]) then [] else [s[n]], m);
    }
  }

  /** Each call accounts for every frame. */
  lemma CallAccounts(maxlen: nat, q: seq<Mbuf>, e: Event, m: Mbuf)
    ensures Times(q, m) + (if e.Offer? then Times([e.m], m) else 0)
         == Times(Left(maxlen, q, e), m) + Times(Out(maxlen, q, e), m) + Times(Lost(maxlen, q, e), m)
  {
    match e
    case Offer(x) =>
      TimesPlus(q, [x], m);
    case Expire(k) =>
      if k <= |q| {
        assert q == q[..k] + q[k..];
        TimesPlus(q[..k], q[k..], m);
      }
    case Take(w) =>
      FilterSplits(w, q, m);
  }

  /** Over any run each frame queued at the start or offered is exactly as often
      in the queue, handed back or freed. */
  lemma {:induction false} RunAccounts(maxlen: nat, q: seq<Mbuf>, es: seq<Event>, m: Mbuf)
    ensures Times(q, m) + Times(Offered(es), m)
         == Times(RunLeft(maxlen, q, es), m) + Times(RunOut(maxlen, q, es), m) + Times(RunLost(maxlen, q, es), m)
  {
    if es != [] {
      var before, e := es[..|es| - 1], es[|es| - 1];
      RunAccounts(maxlen, q, before, m);
      var mid := RunLeft(maxlen, q, before);
      CallAccounts(maxlen, mid, e, m);
      TimesPlus(Offered(before), if e.Offer? then [e.m] else [], m);
      TimesPlus(RunOut(maxlen, q, before), Out(maxlen, mid, e), m);
      TimesPlus(RunLost(maxlen, q, before), Lost(maxlen, mid, e), m);
    }
  }

  /** `s` is `t` with frames left out. */
  predicate InOrder(s: seq<Mbuf>, t: seq<Mbuf>) {
    || s == []
    || (t != [] && (InOrder(s, t[..|t| - 1]) || (s[|s| - 1] == t[|t| - 1] && InOrder(s[..|s| - 1], t[..|t| - 1]))))
  }

  lemma {:induction false} InOrderSelf(s: seq<Mbuf>)
    ensures InOrder(s, s)
  {
    if s != [] {
      InOrderSelf(s[..|s| - 1]);
    }
  }

  lemma {:induction false} InOrderFilter(w: Match, s: seq<Mbuf>)
    ensures InOrder(Filter(w, false, s), s)
  {
    if s != [] {
      var n := |s| - 1;
      InOrderFilter(w, s[..n]);
      var f := Filter(w, false, s[..n]);
      assert (f + [s[n]])[..|f|] == f && f + [] == f;
    }
  }

  lemma {:induction false} InOrderDrop(s: seq<Mbuf>, k: nat)
    requires k <= |s|
    ensures InOrder(s[k..], s)
  {
    if k < |s| {
      var n := |s| - 1;
      InOrderDrop(s[..n], k);
      assert s[k..][..n - k] == s[..n][k..];
    }
  }

  lemma {:induction false} InOrderTrans(s: seq<Mbuf>, t: seq<Mbuf>, u: seq<Mbuf>)
    requires InOrder(s, t) && InOrder(t, u)
    ensures InOrder(s, u)
    decreases |u|, |t|
  {
    if s != [] {
      var u' := u[..|u| - 1];
      if InOrder(t, u') {
        InOrderTrans(s, t, u');
      } else {
        var t' := t[..|t| - 1];
        if InOrder(s, t') {
          InOrderTrans(s, t', u');
        } else {
          InOrderTrans(s[..|s| - 1], t', u');
        }
      }
    }
  }

  lemma InOrderSnoc(s: seq<Mbuf>, t: seq<Mbuf>, m: Mbuf)
    requires InOrder(s, t)
    ensures InOrder(s + [m], t + [m]) && InOrder(s, t + [m])
  {
    assert (s + [m])[..|s|] == s && (t + [m])[..|t|] == t;
  }

  /** A call leaves the queue in order within what was queued and offered. */
  lemma CallInOrder(maxlen: nat, q: seq<Mbuf>, e: Event, all: seq<Mbuf>, all': seq<Mbuf>)
    requires InOrder(q, all) && all' == all + (if e.Offer? then [e.m] else [])
    ensures InOrder(Left(maxlen, q, e), all')
    ensures |q| <= maxlen ==> |Left(maxlen, q, e)| <= maxlen
  {
    match e
    case Offer(m) => InOrderSnoc(q, all, m);
    case Expire(k) =>
      assert all' == all;
      if k <= |q| {
        InOrderDrop(q, k);
        InOrderTrans(q[k..], q, all);
      }
    case Take(w) =>
      assert all' == all;
      InOrderFilter(w, q);
      InOrderTrans(Filter(w, false, q), q, all);
      FilterShrinks(w, q);
  }

  /** At any time the queue holds what was offered, in the order offered, and
      never more than it may. */
  lemma {:induction false} RunInOrder(maxlen: nat, q: seq<Mbuf>, es: seq<Event>)
    ensures InOrder(RunLeft(maxlen, q, es), q + Offered(es))
    ensures |q| <= maxlen ==> |RunLeft(maxlen, q, es)| <= maxlen
  {
    if es == [] {
      InOrderSelf(q);
      assert q + [] == q;
    } else {
      var before, e := es[..|es| - 1], es[|es| - 1];
      RunInOrder(maxlen, q, before);
      var one := if e.Offer? then [e.m] else [];
      assert q + (Offered(before) + one) == (q + Offered(before)) + one;
      CallInOrder(maxlen, RunLeft(maxlen, q, before), e, q + Offered(before), q + Offered(es));
    }
  }

  lemma {:induction false} FilterShrinks(w: Match, s: seq<Mbuf>)
    ensures |Filter(w, false, s)| <= |s|
  {
    if s != [] {
      FilterShrinks(w, s[..|s| - 1]);
    }
  }

  // ---- stored ages ---------------------------------------------------------

  /** A frame queued with an age, time passing, or the frames at `kept` (in
      order) being the ones that stay. */
  datatype Change = Put(age: int) | Pass(quanta: int) | Sift(kept: seq<nat>)

  /** The assertion on ages, for a frame of age `age`. */
  predicate MayPut(ages: seq<int>, age: int) {
    age >= if ages == [] then 0 else ages[0]
  }

  predicate CanHappen(ages: seq<int>, c: Change) {
    c.Sift? ==> forall i :: 0 <= i < |c.kept| ==> c.kept[i] < |ages|
  }

  function SiftedAge(ages: seq<int>, kept: seq<nat>, i: nat): int
    requires i < |kept| && CanHappen(ages, Sift(kept))
  {
    assert kept[0] < |ages| && kept[i] < |ages|;
    if i == 0 then ages[0] else ages[kept[i]]
  }

  /** The stored ages after a call; whoever heads the queue after a removal has
      the old head's age. */
  function AgesNext(ages: seq<int>, c: Change): seq<int>
    requires CanHappen(ages, c)
  {
    match c
    case Put(age) => ages + [if ages == [] then age else age - ages[0]]
    case Pass(quanta) =>
      var k := Young(ages, quanta);
      if k >= |ages| then [] else [ages[k] - quanta] + ages[k + 1..]
    case Sift(kept) =>
      seq(|kept|, i requires 0 <= i < |kept| && CanHappen(ages, c) => SiftedAge(ages, kept, i))
  }

  predicate Bounded(ages: seq<int>, a: int) {
    forall i :: 0 <= i < |ages| ==> 0 <= ages[i] <= a
  }

  lemma {:induction false} YoungStops(ages: seq<int>, quanta: int)
    ensures Young(ages, quanta) < |ages| ==> ages[Young(ages, quanta)] >= quanta
    ensures Young(ages, quanta) <= |ages|
  {
    if ages != [] && ages[0] < quanta {
      YoungStops(ages[1..], quanta);
    }
  }

  /** Time does not go back, and no frame is queued with an age below `a`. */
  predicate Steady(a: int, c: Change) {
    (c.Put? ==> a <= c.age) && (c.Pass? ==> 0 <= c.quanta)
  }

  function LastPut(a: int, c: Change): int {
    if c.Put? then c.age else a
  }

  /** While no frame is queued with an age below an earlier one's, stored ages
      stay between 0 and the last age, so the next frame may be put. */
  lemma AgesStayWithin(ages: seq<int>, a: int, c: Change)
    requires Bounded(ages, a) && 0 <= a && CanHappen(ages, c) && Steady(a, c)
    ensures Bounded(AgesNext(ages, c), LastPut(a, c))
    ensures c.Put? ==> MayPut(ages, c.age)
  {
    if c.Pass? {
      YoungStops(ages, c.quanta);
    }
  }

  /** A run of calls, from the stored ages `ages` to `last`. */
  ghost predicate AgesLead(ages: seq<int>, cs: seq<Change>, last: seq<int>)
    decreases |cs|
  {
    if cs == [] then last == ages
    else CanHappen(ages, cs[0]) && AgesLead(AgesNext(ages, cs[0]), cs[1..], last)
  }

  /** Frames are queued with ages that never go down. */
  predicate Rising(a: int, cs: seq<Change>)
    decreases |cs|
  {
    cs != [] ==> Steady(a, cs[0]) && Rising(LastPut(a, cs[0]), cs[1..])
  }

  /** The assertion holds whenever a frame is queued. */
  ghost predicate NeverFails(ages: seq<int>, cs: seq<Change>)
    decreases |cs|
  {
    cs != [] ==>
      && (cs[0].Put? ==> MayPut(ages, cs[0].age))
      && CanHappen(ages, cs[0])
      && NeverFails(AgesNext(ages, cs[0]), cs[1..])
  }

  /** In every run in which ages never go down the assertion on them holds. */
  lemma {:induction false} RisingNeverFails(ages: seq<int>, a: int, cs: seq<Change>, last: seq<int>)
    requires Bounded(ages, a) && 0 <= a && Rising(a, cs) && AgesLead(ages, cs, last)
    ensures NeverFails(ages, cs) && forall i :: 0 <= i < |last| ==> 0 <= last[i]
    decreases |cs|
  {
    if cs != [] {
      AgesStayWithin(ages, a, cs[0]);
      RisingNeverFails(AgesNext(ages, cs[0]), LastPut(a, cs[0]), cs[1..], last);
    }
  }

  // ---- the ages each call leaves -------------------------------------------

  /** Where the frames that do not match are. */
  function Places(w: Match, s: seq<Mbuf>): seq<nat> {
    if s == [] then []
    else
      var n := |s| - 1;
      Places(w, s[..n]) + (if Matches(w, s[n]) then [] else [n])
  }

  lemma {:induction false} PlacesOf(w: Match, s: seq<Mbuf>)
    ensures |Places(w, s)| == |Filter(w, false, s)|
    ensures forall i :: 0 <= i < |Places(w, s)| ==> Places(w, s)[i] < |s| && Filter(w, false, s)[i] == s[Places(w, s)[i]]
    ensures s != [] && !Matches(w, s[0]) ==> Places(w, s) != [] && Places(w, s)[0] == 0
  {
    if s != [] {
      PlacesOf(w, s[..|s| - 1]);
    }
  }

  lemma PutAges(s: seq<Mbuf>, m: Mbuf, ages: seq<int>, age: int)
    requires Aged(s, ages) && m.age == age - if ages == [] then 0 else ages[0]
    ensures Aged(s + [m], AgesNext(ages, Put(age)))
  {
  }

  lemma LinkedSnoc(s: seq<Mbuf>, m: Mbuf, first: Mbuf?)
    requires Linked(s, first, m) && m.next == null
    ensures Linked(s + [m], first, null) && Last(s + [m]) == m
  {
  }

  /** The youngest frames gone from the front and the new head made younger. */
  lemma PassAges(all: seq<Mbuf>, ages: seq<int>, k: nat, quanta: int)
    requires |ages| == |all| && k <= |all| && k == Young(ages, quanta)
    requires forall i :: 0 <= i < |all| ==> all[i].age == ages[i] - (if i == k then quanta else 0)
    ensures Aged(all[k..], AgesNext(ages, Pass(quanta)))
  {
    var rest := all[k..];
    forall i | 0 <= i < |rest| ensures rest[i].age == AgesNext(ages, Pass(quanta))[i] {
      assert rest[i] == all[k + i];
    }
  }

  /** The first frame that does not match has the old head's age. */
  ghost predicate Regiven(w: Match, all: seq<Mbuf>, ages: seq<int>)
    reads all`age
  {
    |ages| == |all| && forall i :: 0 <= i < |all| ==>
      all[i].age == if Matches(w, all[0]) && Heads(w, all[i], all) then ages[0] else ages[i]
  }

  /** The matching frames gone and the new head given the old one's age. */
  lemma SiftAges(w: Match, all: seq<Mbuf>, kept: seq<Mbuf>, ages: seq<int>)
    requires Distinct(all) && kept == Filter(w, false, all) && Regiven(w, all, ages)
    ensures CanHappen(ages, Sift(Places(w, all)))
    ensures Aged(kept, AgesNext(ages, Sift(Places(w, all))))
  {
    PlacesOf(w, all);
    var places := Places(w, all);
    assert all[..|all|] == all;
    FilterDistinct(w, false, all, |all|);
    forall i | 0 <= i < |kept| ensures kept[i].age == AgesNext(ages, Sift(places))[i] {
      assert kept[i] == all[places[i]];
      if i > 0 {
        assert Sole(kept, i);
      }
    }
  }

  class AgeQ {
    const maxlen: nat
    var head: Mbuf?
    var tail: Mbuf?
    var len: nat
    var drops: nat
    ghost var nodes: seq<Mbuf>
    ghost var ages: seq<int>

    ghost predicate Valid()
      reads this, nodes
    {
      && Distinct(nodes) && Linked(nodes, head, null) && len == |nodes|
      && tail == Last(nodes) && Aged(nodes, ages)
    }

    constructor (maxlen: nat)
      ensures Valid() && nodes == [] && ages == [] && this.maxlen == maxlen && drops == 0
    {
      this.maxlen, head, tail, len, drops := maxlen, null, null, 0, 0;
      nodes, ages := [], [];
    }

    /** Queues a frame at the end with its age relative to the head's. */
    method Enqueue(m: Mbuf, age: int)
      requires Valid() && m !in nodes
      modifies `head, `tail, `len, `nodes, `ages, m, nodes`next
      ensures Valid() && nodes == old(nodes) + [m] && ages == AgesNext(old(ages), Put(age))
      ensures m.age == age - if old(nodes) == [] then 0 else old(nodes[0].age)
    {
      var rel := age;
      if tail == null {
        head := m;
      } else {
        tail.next := m;
        rel := rel - head.age;
      }
      m.age := rel;
      m.next := null;
      tail := m;
      len := len + 1;
      Snoc(nodes, m);
      LinkedSnoc(nodes, m, head);
      PutAges(nodes, m, ages, age);
      nodes, ages := nodes + [m], AgesNext(ages, Put(age));
    }

    /** Queues a frame, or drops it when the queue is full; the assertion on ages
        is whether the age is at least the head's. */
    method Append(m: Mbuf, age: int) returns (ok: bool)
      requires Valid() && m !in nodes
      modifies this, nodes, m
      ensures Valid() && ok == (|old(nodes)| < maxlen)
      ensures nodes == Left(maxlen, old(nodes), Offer(m)) && Out(maxlen, old(nodes), Offer(m)) == []
      ensures Lost(maxlen, old(nodes), Offer(m)) == if ok then [] else [m]
      ensures ok ==> nodes == old(nodes) + [m] && ages == AgesNext(old(ages), Put(age))
      ensures ok ==> drops == old(drops) && (m.age >= 0 <==> MayPut(old(ages), age))
      ensures !ok ==> nodes == old(nodes) && ages == old(ages) && drops == old(drops) + 1
      ensures forall x :: x in old(nodes) ==> x.age == old(x.age)
    {
      if len < maxlen {
        Enqueue(m, age);
        ok := true;
      } else {
        drops := drops + 1;
        ok := false;
      }
    }

    // ---- ageing -----------------------------------------------------------

    /** The queue while its first `k` frames have moved to a private list, which
        still runs into what is left. */
    ghost predicate Taking(all: seq<Mbuf>, k: nat, list: Mbuf?, at: Mbuf?)
      reads this, all
    {
      && k <= |all| && len == |all| - k && list == Nth(all, 0, k) && at == Nth(all, k - 1, k)
      && head == Nth(all, k, |all|) && tail == (if k < |all| then Last(all) else null)
      && Linked(all, Nth(all, 0, |all|), null)
    }

    ghost predicate Younger(all: seq<Mbuf>, k: nat, quanta: int)
      reads all
    {
      k <= |all| && forall i :: 0 <= i < k ==> all[i].age < quanta
    }

    method TakeHead(list: Mbuf?, at: Mbuf?, ghost all: seq<Mbuf>, ghost k: nat, ghost k': nat)
      returns (list': Mbuf?, at': Mbuf?)
      requires Taking(all, k, list, at) && head != null && k' == k + 1 && Distinct(all)
      modifies `head, `tail, `len, all`next
      ensures drops == old(drops)
      ensures Taking(all, k', list', at')
    {
      var m := head;
      assert m.next == Following(all, k, null);
      head := m.next;
      if head == null {
        tail := null;
      }
      assert len > 0;
      len := len - 1;
      if at == null {
        list' := m;
      } else {
        assert at.next == Following(all, k - 1, null) == m;
        list' := list;
        at.next := m;
      }
      at' := m;
    }

    method TakeYoung(quanta: int, ghost all: seq<Mbuf>) returns (list: Mbuf?, at: Mbuf?, ghost k: nat)
      requires Valid() && all == nodes
      modifies `head, `tail, `len, all`next
      ensures drops == old(drops)
      ensures Taking(all, k, list, at)
      ensures Younger(all, k, quanta)
      ensures head != null ==> head.age >= quanta
    {
      list, at, k := null, null, 0;
      while head != null && head.age < quanta
        invariant Taking(all, k, list, at) && drops == old(drops)
        invariant Younger(all, k, quanta)
        decreases |all| - k
      {
        list, at := TakeHead(list, at, all, k, k + 1);
        k := k + 1;
      }
    }

    /** Takes the time passed off the new head's age. */
    method MakeYounger(quanta: int, list: Mbuf?, at: Mbuf?, ghost all: seq<Mbuf>, ghost k: nat, ghost ages: seq<int>)
      requires Taking(all, k, list, at) && Distinct(all) && Aged(all, ages) && k == Young(ages, quanta)
      modifies all`age
      ensures drops == old(drops)
      ensures Taking(all, k, list, at)
      ensures forall i :: 0 <= i < |all| ==> all[i].age == ages[i] - (if i == k then quanta else 0)
      ensures Aged(all[k..], AgesNext(ages, Pass(quanta)))
    {
      if head != null {
        assert Sole(all, k);
        head.age := head.age - quanta;
      }
      PassAges(all, ages, k, quanta);
    }

    /** Cuts the private list off. */
    method Cut(at: Mbuf?, list: Mbuf?, ghost all: seq<Mbuf>, ghost k: nat, ghost left: seq<int>)
      requires Taking(all, k, list, at) && Distinct(all) && Aged(all[k..], left)
      modifies `nodes, `ages, all`next
      ensures drops == old(drops)
      ensures Valid() && ages == left && nodes == all[k..] && Linked(all[..k], list, null)
    {
      if at != null {
        assert Sole(all, k - 1);
        at.next := null;
      }
      DistinctRest(all, k);
      nodes, ages := all[k..], left;
    }

    /** Returns the longest run of frames at the front younger than `quanta`, and
        makes the new head that much younger. */
    method Age(quanta: int) returns (list: Mbuf?)
      requires Valid()
      modifies this, nodes
      ensures Valid() && drops == old(drops)
      ensures ages == AgesNext(old(ages), Pass(quanta))
      ensures var k := Young(old(ages), quanta);
              && k <= |old(nodes)| && nodes == Left(maxlen, old(nodes), Expire(k)) == old(nodes)[k..]
              && Linked(Out(maxlen, old(nodes), Expire(k)), list, null)
              && forall i :: 0 <= i < |old(nodes)| ==>
                   old(nodes)[i].age == old(nodes[i].age) - (if i == k then quanta else 0)
    {
      ghost var all := nodes;
      var at;
      ghost var k;
      list, at, k := TakeYoung(quanta, all);
      YoungIsMaximal(ages, quanta, k);
      MakeYounger(quanta, list, at, all, k, ages);
      Cut(at, list, all, k, AgesNext(ages, Pass(quanta)));
    }

    // ---- removal ----------------------------------------------------------

    /** The queue while frames are sorted into kept and taken, with `rest` still
        to come. */
    ghost predicate Sorting(kept: seq<Mbuf>, taken: seq<Mbuf>, rest: seq<Mbuf>, prev: Mbuf?, m: Mbuf?, list: Mbuf?, at: Mbuf?)
      reads this, kept, taken, rest
    {
      && Linked(kept, head, m) && Linked(rest, m, null) && prev == Last(kept) && at == Last(taken)
      && Linked(taken, list, if at == null then null else at.next)
      && len == |kept| + |rest| && tail == (if rest == [] then prev else Last(rest))
    }

    method TakeFrame(m: Mbuf, prev: Mbuf?, list: Mbuf?, at: Mbuf?, ghost all: seq<Mbuf>,
                     ghost kept: seq<Mbuf>, ghost taken: seq<Mbuf>, ghost rest: seq<Mbuf>)
      returns (list': Mbuf?)
      requires Sorting(kept, taken, [m] + rest, prev, m, list, at)
      requires m !in kept && m !in taken && m !in rest
      requires kept != [] ==> Sole(kept, |kept| - 1) && Last(kept) !in taken && Last(kept) !in rest && Last(kept) in all
      requires taken != [] ==> Sole(taken, |taken| - 1) && Last(taken) !in kept && Last(taken) !in rest && Last(taken) in all
      modifies `head, `tail, `len, all`next
      ensures drops == old(drops)
      ensures Sorting(kept, taken + [m], rest, prev, m.next, list', m) && m.next == old(m.next)
    {
      LinkedTail(m, rest);
      assert len > 0;
      len := len - 1;
      if tail == m {
        assert m.next == null;
        if head == m {
          assert len == 0;
          tail := null;
        } else {
          tail := prev;
        }
      }
      if prev == null {
        head := m.next;
      } else {
        prev.next := m.next;
      }
      if at == null {
        list' := m;
      } else {
        list' := list;
        at.next := m;
      }
    }

    lemma PassFrame(m: Mbuf, prev: Mbuf?, list: Mbuf?, at: Mbuf?, kept: seq<Mbuf>, taken: seq<Mbuf>, rest: seq<Mbuf>)
      requires Sorting(kept, taken, [m] + rest, prev, m, list, at)
      ensures Sorting(kept + [m], taken, rest, m, m.next, list, at)
    {
      LinkedTail(m, rest);
    }

    /** The queue after its first `i` frames were looked at. */
    ghost predicate SortingAt(w: Match, all: seq<Mbuf>, i: nat, prev: Mbuf?, m: Mbuf?, list: Mbuf?, at: Mbuf?)
      reads this, all, Filter(w, false, all[..i]), Filter(w, true, all[..i])
      requires i <= |all|
    {
      Sorting(Filter(w, false, all[..i]), Filter(w, true, all[..i]), all[i..], prev, m, list, at)
    }

    lemma StartAt(w: Match, all: seq<Mbuf>)
      requires Valid() && all == nodes
      ensures SortingAt(w, all, 0, null, head, null, null)
    {
      assert all[..0] == [] && all[0..] == all;
    }

    /** The frame to look at next. */
    lemma HeadAt(w: Match, all: seq<Mbuf>, i: nat, prev: Mbuf?, m: Mbuf?, list: Mbuf?, at: Mbuf?)
      requires i <= |all| && SortingAt(w, all, i, prev, m, list, at)
      ensures m == Nth(all, i, |all|)
    {
    }

    lemma PassAt(w: Match, m: Mbuf, prev: Mbuf?, list: Mbuf?, at: Mbuf?, all: seq<Mbuf>, i: nat, i': nat)
      requires i < i' == i + 1 <= |all| && SortingAt(w, all, i, prev, m, list, at) && !Matches(w, m)
      ensures SortingAt(w, all, i', m, m.next, list, at)
    {
      Split(w, all, i, m);
      PassFrame(m, prev, list, at, Filter(w, false, all[..i]), Filter(w, true, all[..i]), all[i + 1..]);
    }

    method TakeAt(w: Match, m: Mbuf, prev: Mbuf?, list: Mbuf?, at: Mbuf?, ghost all: seq<Mbuf>, ghost i: nat, ghost i': nat)
      returns (list': Mbuf?)
      requires i < i' == i + 1 <= |all| && SortingAt(w, all, i, prev, m, list, at) && Matches(w, m) && Distinct(all)
      modifies `head, `tail, `len, all`next
      ensures drops == old(drops)
      ensures SortingAt(w, all, i', prev, m.next, list', m)
    {
      Split(w, all, i, m);
      Apart(w, all, i);
      list' := TakeFrame(m, prev, list, at, all, Filter(w, false, all[..i]), Filter(w, true, all[..i]), all[i + 1..]);
    }

    method SortFrames(w: Match, ghost all: seq<Mbuf>) returns (list: Mbuf?, at: Mbuf?, ghost prev: Mbuf?)
      requires Valid() && all == nodes
      modifies `head, `tail, `len, all`next
      ensures drops == old(drops)
      ensures SortingAt(w, all, |all|, prev, null, list, at)
    {
      var before: Mbuf?, m := null, head;
      list, at := null, null;
      ghost var i := 0;
      StartAt(w, all);
      while m != null
        invariant i <= |all|
        invariant SortingAt(w, all, i, before, m, list, at) && drops == old(drops)
        decreases |all| - i
      {
        HeadAt(w, all, i, before, m, list, at);
        if !Matches(w, m) {
          PassAt(w, m, before, list, at, all, i, i + 1);
          before, m := m, m.next;
        } else {
          list := TakeAt(w, m, before, list, at, all, i, i + 1);
          at, m := m, m.next;
        }
        i := i + 1;
      }
      HeadAt(w, all, i, before, m, list, at);
      prev := before;
    }

    /** Cuts off the list of the frames taken and settles on those kept. */
    method Settle(w: Match, at: Mbuf?, list: Mbuf?, ghost prev: Mbuf?, ghost all: seq<Mbuf>, ghost kept: seq<Mbuf>, ghost taken: seq<Mbuf>, ghost left: seq<int>)
      requires Sorting(kept, taken, [], prev, null, list, at) && Distinct(all) && Aged(kept, left)
      requires kept == Filter(w, false, all) && taken == Filter(w, true, all)
      modifies `nodes, `ages, all`next
      ensures drops == old(drops)
      ensures Valid() && ages == left && nodes == kept && Linked(taken, list, null)
    {
      Ends(w, all);
      if at != null {
        at.next := null;
      }
      nodes, ages := kept, left;
    }

    /** A new head takes over the age of the old one. */
    method Reage(w: Match, ohead: Mbuf?, list: Mbuf?, at: Mbuf?, ghost prev: Mbuf?, ghost all: seq<Mbuf>, ghost kept: seq<Mbuf>, ghost taken: seq<Mbuf>, ghost ages: seq<int>)
      requires Sorting(kept, taken, [], prev, null, list, at) && Distinct(all) && Aged(all, ages)
      requires kept == Filter(w, false, all) && taken == Filter(w, true, all) && ohead == Nth(all, 0, |all|)
      modifies all`age
      ensures drops == old(drops)
      ensures Sorting(kept, taken, [], prev, null, list, at)
      ensures Regiven(w, all, ages)
      ensures CanHappen(ages, Sift(Places(w, all)))
      ensures Aged(kept, AgesNext(ages, Sift(Places(w, all))))
    {
      Ends(w, all);
      if list == ohead && head != null {
        head.age := list.age;
      }
      SiftAges(w, all, kept, ages);
    }

    /** Returns exactly the matching frames, in order, and leaves the others in
        order; a new head takes over the age of the old one. */
    method Remove(w: Match) returns (list: Mbuf?)
      requires Valid()
      modifies this, nodes
      ensures Valid() && drops == old(drops)
      ensures nodes == Filter(w, false, old(nodes)) && Linked(Filter(w, true, old(nodes)), list, null)
      ensures forall x :: x in old(nodes) ==>
                x.age == old(if Matches(w, nodes[0]) && Heads(w, x, nodes) then nodes[0].age else x.age)
      ensures CanHappen(old(ages), Sift(Places(w, old(nodes))))
      ensures ages == AgesNext(old(ages), Sift(Places(w, old(nodes))))
    {
      ghost var all := nodes;
      var ohead := head;
      var at;
      ghost var prev;
      list, at, prev := SortFrames(w, all);
      assert all[..|all|] == all && all[|all|..] == [];
      ghost var kept, taken := Filter(w, false, all), Filter(w, true, all);
      Reage(w, ohead, list, at, prev, all, kept, taken, ages);
      Settle(w, at, list, prev, all, kept, taken, AgesNext(ages, Sift(Places(w, all))));
    }
  }
}
