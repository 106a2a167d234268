/** What reordering guarantees over whole runs of data frames, BARs, age
    sweeps and session changes. */
module ReorderRuns {
  import opened SeqArith
  import opened ReorderSpec

  // ---- behind the window --------------------------------------------------

  ghost predicate Labelled(n: int, f: Frame) {
    n % SEQ_RANGE == f.seqctl / 16 % SEQ_RANGE
  }

  /** Increasing numbers below `hi`, each the one its frame carries. */
  ghost predicate Before(items: seq<Item>, hi: int) {
    && (forall i, j | 0 <= i < j < |items| :: items[i].n < items[j].n)
    && (forall i | 0 <= i < |items| :: items[i].n < hi && Labelled(items[i].n, items[i].f))
  }

  ghost predicate From(items: seq<Item>, lo: int) {
    forall i | 0 <= i < |items| :: lo <= items[i].n
  }

  ghost predicate Labels(buf: map<int, Frame>) {
    forall n <- buf :: Labelled(n, buf[n])
  }

  /** What the current session has delivered is increasing and lies before the
      window, and every number is the one its frame carries. */
  ghost predicate Behind(s: Session) {
    && s.mark <= |s.out|
    && Before(s.out[s.mark..], s.win.base)
    && Labels(s.win.buf)
  }

  lemma Join(a: seq<Item>, b: seq<Item>, mid: int, hi: int)
    requires Before(a, mid) && From(b, mid) && mid <= hi
    ensures Before(a + b, hi) <==> Before(b, hi)
  {
    if Before(a + b, hi) {
      forall i, j | 0 <= i < j < |b| ensures b[i].n < b[j].n {
        assert (a + b)[|a| + i].n < (a + b)[|a| + j].n;
      }
      forall i | 0 <= i < |b| ensures b[i].n < hi && Labelled(b[i].n, b[i].f) {
        assert (a + b)[|a| + i] == b[i];
      }
    }
  }

  lemma DrainFits(buf: map<int, Frame>, lo: int, hi: int)
    requires Labels(buf)
    ensures Before(Drain(buf, lo, hi), hi) && From(Drain(buf, lo, hi), lo)
  {
    DrainItems(buf, lo, hi);
  }

  lemma {:induction false} InDrain(buf: map<int, Frame>, lo: int, hi: int, m: int)
    requires lo <= m < hi && m in buf
    ensures exists i | 0 <= i < |Drain(buf, lo, hi)| :: Drain(buf, lo, hi)[i].n == m
    decreases hi - lo
  {
    var d := Drain(buf, lo, hi);
    if m == hi - 1 {
      assert d[|d| - 1].n == m;
    } else {
      InDrain(buf, lo, hi - 1, m);
      var i :| 0 <= i < |Drain(buf, lo, hi - 1)| && Drain(buf, lo, hi - 1)[i].n == m;
      assert d[i].n == m;
    }
  }

  lemma AdvanceFits(w: Win, t: int)
    requires Labels(w.buf) && w.base <= t
    ensures Before(Advance(w, t).out, Advance(w, t).win.base) && From(Advance(w, t).out, w.base)
    ensures Labels(Advance(w, t).win.buf)
  {
    DrainFits(w.buf, w.base, Advance(w, t).win.base);
  }

  lemma FlushFits(w: Win, n: int, f: Frame)
    requires WinOk(w) && Labels(w.buf) && Labelled(n, f) && w.base < n < w.base + w.wnd
    ensures From(Waiting(w) + [Item(n, f)], w.base)
    ensures Before(Waiting(w) + [Item(n, f)], n + 1) <==> forall m <- w.buf :: m < n
  {
    var d := Waiting(w);
    DrainItems(w.buf, w.base, w.base + w.wnd);
    if m :| m in w.buf && n <= m {
      InDrain(w.buf, w.base, w.base + w.wnd, m);
      var i :| 0 <= i < |d| && d[i].n == m;
      var e := d + [Item(n, f)];
      assert e[i].n == m && e[|d|].n == n;
    }
  }

  /** An age flush by frame `n` while some buffered frame is not numbered before it. */
  ghost predicate FlushesPast(w: Win, n: int, now: int, limit: int) {
    n != w.base && Stale(w, now, limit) && exists m <- w.buf :: n <= m
  }

  lemma PlaceFits(w: Win, n: int, f: Frame, now: int, limit: int)
    requires WinOk(w) && Labels(w.buf) && Labelled(n, f) && w.base <= n < w.base + w.wnd
    ensures var p := Place(w, n, f, now, limit);
            && Labels(p.win.buf) && w.base <= p.win.base && From(p.out, w.base)
            && (Before(p.out, p.win.base) <==> !FlushesPast(w, n, now, limit))
  {
    if n == w.base {
      var w1 := w.(base := n + 1);
      AdvanceFits(w1, n + 1);
      Join([Item(n, f)], Advance(w1, n + 1).out, n + 1, Advance(w1, n + 1).win.base);
    } else if Stale(w, now, limit) {
      FlushFits(w, n, f);
    }
  }

  lemma AcceptFits(w: Win, n: int, f: Frame, now: int, limit: int)
    requires WinOk(w) && 1 <= w.wnd && Labels(w.buf) && Labelled(n, f) && w.base <= n
    ensures var p := Accept(w, n, f, now, limit);
            && Labels(p.win.buf) && w.base <= p.win.base && From(p.out, w.base)
            && (Before(p.out, p.win.base) <==> !FlushesPast(Slide(w, n).win, n, now, limit))
  {
    var slid := Slide(w, n);
    AcceptOk(w, n, f, now, limit);
    if n >= w.base + w.wnd {
      AdvanceFits(w, n - w.wnd + 1);
    }
    var placed := Place(slid.win, n, f, now, limit);
    PlaceFits(slid.win, n, f, now, limit);
    Join(slid.out, placed.out, slid.win.base, placed.win.base);
  }

  lemma ExtendOut(s: Session, w: Win, items: seq<Item>)
    requires Behind(s) && From(items, s.win.base) && s.win.base <= w.base && Labels(w.buf)
    ensures Behind(s.(win := w, out := s.out + items)) <==> Before(items, w.base)
  {
    assert (s.out + items)[s.mark..] == s.out[s.mark..] + items;
    Join(s.out[s.mark..], items, s.win.base, w.base);
  }

  /** The event is an age flush that delivers a frame at or past the window start
      it leaves: for a data frame, when a buffered frame is not numbered before
      it; for the timer sweep, always. */
  ghost predicate GetsAhead(s: Session, e: Event, limit: int) {
    match e
    case Data(f, now) =>
      && Numbered(s, f)
      && var n := NumberOf(s.win, f);
      var w := Settle(s, n).win;
      n - w.base < SEQ_BA_RANGE && FlushesPast(Slide(w, n).win, n, now, limit)
    case AgeOut(now) => s.running && Stale(s.win, now, limit)
    case _ => false
  }

  lemma DataBehind(s: Session, f: Frame, now: int, limit: int)
    requires Ok(s) && Behind(s)
    ensures Behind(Receive(s, f, now, limit)) <==> !GetsAhead(s, Data(f, now), limit)
  {
    if Numbered(s, f) {
      var n := NumberOf(s.win, f);
      LiftIsFaithful(s.win.base, f.seqctl / 16 % SEQ_RANGE);
      var s1 := Settle(s, n);
      if n - s1.win.base < SEQ_BA_RANGE {
        AcceptFits(s1.win, n, f, now, limit);
        var a := Accept(s1.win, n, f, now, limit);
        ExtendOut(s1, a.win, a.out);
      }
    }
  }

  lemma SomeKey(buf: map<int, Frame>) returns (m: int)
    requires buf != map[]
    ensures m in buf
  {
    assert |buf.Items| != 0;
    var k :| k in buf.Items; m := k.0;
  }

  lemma SweepGetsAhead(s: Session)
    requires Ok(s) && s.win.buf != map[]
    ensures !Behind(Flush(s))
  {
    var m := SomeKey(s.win.buf);
    InDrain(s.win.buf, s.win.base, s.win.base + s.win.wnd, m);
    var d := Waiting(s.win);
    var i :| 0 <= i < |d| && d[i].n == m;
    assert Flush(s).out[s.mark..][|s.out| - s.mark + i] == d[i];
  }

  /** One event keeps delivery behind the window exactly when it is not such a flush. */
  lemma NextBehind(s: Session, e: Event, limit: int)
    requires Ok(s) && Behind(s)
    ensures Behind(Next(s, e, limit)) <==> !GetsAhead(s, e, limit)
  {
    match e
    case Data(f, now) => DataBehind(s, f, now, limit);
    case Bar(seqno) =>
      var n := Lift(s.win.base, seqno % SEQ_RANGE);
      AdvanceFits(s.win, n);
      ExtendOut(s, Advance(s.win, n).win, Advance(s.win, n).out);
    case AgeOut(now) =>
      if s.running && Stale(s.win, now, limit) {
        SweepGetsAhead(s);
      }
    case _ =>
  }

  /** Delivery is behind the window after every event of a run. */
  ghost predicate AlwaysBehind(s: Session, es: seq<Event>, limit: int) {
    Behind(Run(s, es, limit)) && (es != [] ==> AlwaysBehind(s, es[..|es| - 1], limit))
  }

  /** No event of a run is an age flush that gets ahead of the window. */
  ghost predicate NothingGetsAhead(s: Session, es: seq<Event>, limit: int) {
    es != [] ==>
      && NothingGetsAhead(s, es[..|es| - 1], limit)
      && !GetsAhead(Run(s, es[..|es| - 1], limit), es[|es| - 1], limit)
  }

  /** Delivery stays behind the window through a whole run exactly when no event gets ahead. */
  lemma {:induction false} RunBehind(s: Session, es: seq<Event>, limit: int)
    requires Ok(s) && Behind(s)
    ensures AlwaysBehind(s, es, limit) <==> NothingGetsAhead(s, es, limit)
  {
    if es != [] {
      var p := es[..|es| - 1];
      RunBehind(s, p, limit);
      RunOk(s, p, limit);
      if Behind(Run(s, p, limit)) {
        NextBehind(Run(s, p, limit), es[|es| - 1], limit);
      }
    }
  }

  lemma RunLast(s: Session, es: seq<Event>, e: Event, limit: int)
    ensures Run(s, es + [e], limit) == Next(Run(s, es, limit), e, limit)
  {
    assert (es + [e])[..|es|] == es;
  }

  lemma RunFour(e0: Event, e1: Event, e2: Event, e3: Event, limit: int)
    ensures Run(Fresh, [] + [e0] + [e1] + [e2] + [e3], limit)
         == Next(Next(Next(Next(Fresh, e0, limit), e1, limit), e2, limit), e3, limit)
  {
    RunLast(Fresh, [], e0, limit);
    RunLast(Fresh, [] + [e0], e1, limit);
    RunLast(Fresh, [] + [e0] + [e1], e2, limit);
    RunLast(Fresh, [] + [e0] + [e1] + [e2], e3, limit);
  }

  /** A frame that arrives one early, an age sweep, and then the missing frame:
      the two go up in the wrong order. */
  lemma SweepSwaps(f0: Frame, f1: Frame, limit: nat) returns (es: seq<Event>)
    requires f0.qosData && !f0.multicast && f0.seqctl == 0 && f1.qosData && !f1.multicast && f1.seqctl == 16
    ensures Run(Fresh, es, limit).out == [Item(1, f1), Item(0, f0)]
  {
    var e0, e1, e2, e3 := Start(0, 0), Data(f1, 0), AgeOut(limit + 1), Data(f0, limit + 1);
    es := [] + [e0] + [e1] + [e2] + [e3];
    RunFour(e0, e1, e2, e3, limit);
    var s1 := Fresh.(win := Win(0, BAWMAX, map[], 0), running := true);
    StartsEmpty(limit);
    StoredEarly(s1, f1, limit);
    SweptOut(s1, f1, limit);
    NothingWaits(s1.(out := [Item(1, f1)]), f0, limit + 1, limit);
  }

  lemma StartsEmpty(limit: int)
    ensures Next(Fresh, Start(0, 0), limit) == Fresh.(win := Win(0, BAWMAX, map[], 0), running := true)
  {
  }

  lemma SweptOut(s: Session, f: Frame, limit: nat)
    requires s.running && s.out == [] && s.win == Win(0, BAWMAX, map[], 0)
    ensures Next(s.(win := Win(0, BAWMAX, map[1 := f], 0)), AgeOut(limit + 1), limit) == s.(out := [Item(1, f)])
  {
    OnlyOne(f);
    assert 1 in map[1 := f];
    assert [] + [Item(1, f)] == [Item(1, f)];
  }

  lemma StoredEarly(s: Session, f: Frame, limit: int)
    requires s.win == Win(0, BAWMAX, map[], 0) && s.running && !s.waitrx && Numbered(s, f) && f.seqctl == 16
    ensures Next(s, Data(f, 0), limit) == s.(win := Win(0, BAWMAX, map[1 := f], 0))
  {
    assert NumberOf(s.win, f) == 1;
    assert s.out + ([] + []) == s.out;
  }

  lemma OnlyOne(f: Frame)
    ensures Waiting(Win(0, BAWMAX, map[1 := f], 0)) == [Item(1, f)]
  {
    var b := map[1 := f];
    DrainSplit(b, 0, 2, BAWMAX);
    DrainNothing(b, 2, BAWMAX);
    assert Drain(b, 0, 1) == Drain(b, 0, 0) == [];
    assert Drain(b, 0, 2) == [Item(1, f)];
  }

  lemma NothingWaits(s: Session, f: Frame, now: int, limit: int)
    requires s.win.base == 0 && s.win.wnd == BAWMAX && s.win.buf == map[] && s.running && !s.waitrx && Numbered(s, f) && f.seqctl == 0
    ensures Next(s, Data(f, now), limit).out == s.out + [Item(0, f)]
  {
    assert NumberOf(s.win, f) == 0;
    var w := s.win.(base := 1);
    assert Advance(w, 1) == Effect(w, [], false) by {
      assert Keep(map[], 1) == map[];
    }
    assert [Item(0, f)] + [] == [Item(0, f)] && [] + [Item(0, f)] == [Item(0, f)];
  }

  // ---- exactly once -------------------------------------------------------

  function Times(items: seq<Item>, x: Frame): nat {
    if items == [] then 0
    else Times(items[..|items| - 1], x) + (if items[|items| - 1].f == x then 1 else 0)
  }

  function BufTimes(buf: map<int, Frame>, lo: int, hi: int, x: Frame): nat
    decreases hi - lo
  {
    if lo >= hi then 0
    else BufTimes(buf, lo, hi - 1, x) + (if hi - 1 in buf && buf[hi - 1] == x then 1 else 0)
  }

  function HeldTimes(w: Win, x: Frame): nat {
    BufTimes(w.buf, w.base, w.base + w.wnd, x)
  }

  /** How often frame `x` is among the delivered, freed, bypassed and buffered ones. */
  function Accounted(s: Session, x: Frame): nat {
    Times(s.out, x) + s.tossed[x] + s.passed[x] + HeldTimes(s.win, x)
  }

  function Fed(e: Event, x: Frame): nat {
    if e.Data? && e.f == x then 1 else 0
  }

  function HandedIn(es: seq<Event>, x: Frame): nat {
    if es == [] then 0 else HandedIn(es[..|es| - 1], x) + Fed(es[|es| - 1], x)
  }

  lemma {:induction false} TimesOfSum(a: seq<Item>, b: seq<Item>, x: Frame)
    ensures Times(a + b, x) == Times(a, x) + Times(b, x)
  {
    if b == [] {
      assert a + b == a;
    } else {
      assert (a + b)[..|a + b| - 1] == a + b[..|b| - 1];
      TimesOfSum(a, b[..|b| - 1], x);
    }
  }

  lemma TimesOfOne(n: int, f: Frame, x: Frame)
    ensures Times([Item(n, f)], x) == if f == x then 1 else 0
  {
    assert [Item(n, f)][..0] == [];
  }

  lemma {:induction false} DrainTimes(buf: map<int, Frame>, lo: int, hi: int, x: Frame)
    ensures Times(Drain(buf, lo, hi), x) == BufTimes(buf, lo, hi, x)
    decreases hi - lo
  {
    if lo < hi {
      DrainTimes(buf, lo, hi - 1, x);
      var d := Drain(buf, lo, hi - 1);
      if hi - 1 in buf {
        TimesOfSum(d, [Item(hi - 1, buf[hi - 1])], x);
        TimesOfOne(hi - 1, buf[hi - 1], x);
      } else {
        assert d + [] == d;
      }
    }
  }

  lemma {:induction false} TossTimes(freed: multiset<Frame>, buf: map<int, Frame>, lo: int, hi: int, x: Frame)
    ensures Toss(freed, buf, lo, hi)[x] == freed[x] + BufTimes(buf, lo, hi, x)
    decreases hi - lo
  {
    if lo < hi {
      TossTimes(freed, buf, lo, hi - 1, x);
    }
  }

  lemma {:induction false} BufSplit(buf: map<int, Frame>, lo: int, mid: int, hi: int, x: Frame)
    requires lo <= mid <= hi
    ensures BufTimes(buf, lo, hi, x) == BufTimes(buf, lo, mid, x) + BufTimes(buf, mid, hi, x)
    decreases hi - mid
  {
    if mid < hi {
      BufSplit(buf, lo, mid, hi - 1, x);
    }
  }

  lemma {:induction false} BufAgrees(a: map<int, Frame>, b: map<int, Frame>, lo: int, hi: int, x: Frame)
    requires forall n | lo <= n < hi :: (n in a <==> n in b) && (n in a ==> a[n] == b[n])
    ensures BufTimes(a, lo, hi, x) == BufTimes(b, lo, hi, x)
    decreases hi - lo
  {
    if lo < hi {
      BufAgrees(a, b, lo, hi - 1, x);
    }
  }

  lemma {:induction false} BufNothing(buf: map<int, Frame>, lo: int, hi: int, x: Frame)
    requires forall n | lo <= n < hi :: n !in buf
    ensures BufTimes(buf, lo, hi, x) == 0
    decreases hi - lo
  {
    if lo < hi {
      BufNothing(buf, lo, hi - 1, x);
    }
  }

  lemma {:induction false} BufInsert(buf: map<int, Frame>, lo: int, hi: int, n: int, f: Frame, x: Frame)
    requires lo <= n < hi && n !in buf
    ensures BufTimes(buf[n := f], lo, hi, x) == BufTimes(buf, lo, hi, x) + (if f == x then 1 else 0)
    decreases hi - lo
  {
    if n == hi - 1 {
      BufAgrees(buf, buf[n := f], lo, hi - 1, x);
    } else {
      BufInsert(buf, lo, hi - 1, n, f, x);
    }
  }

  /** `buf` holds nothing outside lo..hi-1. */
  ghost predicate Within(buf: map<int, Frame>, lo: int, hi: int) {
    forall n <- buf :: lo <= n < hi
  }

  lemma AdvanceTimes(w: Win, t: int, x: Frame)
    requires Within(w.buf, w.base, w.base + w.wnd) && w.base <= t
    ensures Times(Advance(w, t).out, x) + HeldTimes(Advance(w, t).win, x) == HeldTimes(w, x)
  {
    var w' := Advance(w, t).win;
    var g := w'.base;
    var hi := g + w.wnd;
    DrainTimes(w.buf, w.base, g, x);
    BufSplit(w.buf, w.base, w.base + w.wnd, hi, x);
    BufNothing(w.buf, w.base + w.wnd, hi, x);
    BufSplit(w.buf, w.base, g, hi, x);
    BufAgrees(w.buf, w'.buf, g, hi, x);
  }

  lemma FirstTimes(w: Win, f: Frame, x: Frame)
    requires WinOk(w)
    ensures var moved := Advance(w.(base := w.base + 1), w.base + 1);
            Times([Item(w.base, f)] + moved.out, x) + HeldTimes(moved.win, x)
            == HeldTimes(w, x) + (if f == x then 1 else 0)
  {
    var n := w.base;
    var w1 := w.(base := n + 1);
    TimesOfOne(n, f, x);
    AdvanceTimes(w1, n + 1, x);
    TimesOfSum([Item(n, f)], Advance(w1, n + 1).out, x);
    ShiftTimes(w.buf, n, n + 1, n + w.wnd, n + 1 + w.wnd, x);
  }

  /** Nothing is held just below or just past the range. */
  lemma ShiftTimes(buf: map<int, Frame>, lo: int, lo': int, hi: int, hi': int, x: Frame)
    requires lo <= lo' <= hi' && lo <= hi <= hi' && forall n <- buf :: lo' <= n < hi
    ensures BufTimes(buf, lo', hi', x) == BufTimes(buf, lo, hi, x)
  {
    BufSplit(buf, lo, lo', hi', x);
    BufSplit(buf, lo, hi, hi', x);
    BufNothing(buf, lo, lo', x);
    BufNothing(buf, hi, hi', x);
  }

  lemma FlushTimes(w: Win, n: int, f: Frame, x: Frame)
    ensures Times(Waiting(w) + [Item(n, f)], x) == HeldTimes(w, x) + (if f == x then 1 else 0)
    ensures HeldTimes(w.(base := n + 1, buf := map[]), x) == 0
  {
    TimesOfOne(n, f, x);
    DrainTimes(w.buf, w.base, w.base + w.wnd, x);
    TimesOfSum(Waiting(w), [Item(n, f)], x);
    BufNothing(map[], n + 1, n + 1 + w.wnd, x);
  }

  lemma PlaceTimes(w: Win, n: int, f: Frame, now: int, limit: int, x: Frame)
    requires WinOk(w) && w.base <= n < w.base + w.wnd
    ensures var p := Place(w, n, f, now, limit);
            Times(p.out, x) + HeldTimes(p.win, x) + (if p.freed && f == x then 1 else 0)
            == HeldTimes(w, x) + (if f == x then 1 else 0)
  {
    if n == w.base {
      FirstTimes(w, f, x);
    } else if Stale(w, now, limit) {
      FlushTimes(w, n, f, x);
    } else if n !in w.buf {
      BufInsert(w.buf, w.base, w.base + w.wnd, n, f, x);
    }
  }

  lemma AcceptTimes(w: Win, n: int, f: Frame, now: int, limit: int, x: Frame)
    requires WinOk(w) && 1 <= w.wnd && w.base <= n
    ensures var p := Accept(w, n, f, now, limit);
            Times(p.out, x) + HeldTimes(p.win, x) + (if p.freed && f == x then 1 else 0)
            == HeldTimes(w, x) + (if f == x then 1 else 0)
  {
    AcceptOk(w, n, f, now, limit);
    var slid := Slide(w, n);
    if n >= w.base + w.wnd {
      AdvanceTimes(w, n - w.wnd + 1, x);
    }
    PlaceTimes(slid.win, n, f, now, limit, x);
    TimesOfSum(slid.out, Place(slid.win, n, f, now, limit).out, x);
  }

  lemma NumberedAccounts(s: Session, n: int, f: Frame, now: int, limit: int, x: Frame)
    requires Ok(s) && s.running && s.win.base <= n
    ensures Accounted(Apply(s, f, Accept(s.win, n, f, now, limit)), x) == Accounted(s, x) + (if f == x then 1 else 0)
  {
    AcceptTimes(s.win, n, f, now, limit, x);
    TimesOfSum(s.out, Accept(s.win, n, f, now, limit).out, x);
  }

  lemma SettleAccounts(s: Session, n: int, x: Frame)
    requires Ok(s)
    ensures Accounted(Settle(s, n), x) == Accounted(s, x)
  {
    if s.waitrx {
      BufNothing(map[], n, n + s.win.wnd, x);
      BufNothing(map[], s.win.base, s.win.base + s.win.wnd, x);
    }
  }

  lemma DataAccounts(s: Session, f: Frame, now: int, limit: int, x: Frame)
    requires Ok(s)
    ensures Accounted(Receive(s, f, now, limit), x) == Accounted(s, x) + (if f == x then 1 else 0)
  {
    if Numbered(s, f) {
      var n := NumberOf(s.win, f);
      SettleAccounts(s, n, x);
      var s1 := Settle(s, n);
      if n - s1.win.base < SEQ_BA_RANGE {
        NumberedAccounts(s1, n, f, now, limit, x);
      }
    }
  }

  lemma BarAccounts(s: Session, seqno: nat, x: Frame)
    requires Ok(s)
    ensures Accounted(RecvBar(s, seqno), x) == Accounted(s, x)
  {
    var n := Lift(s.win.base, seqno % SEQ_RANGE);
    AdvanceTimes(s.win, n, x);
    TimesOfSum(s.out, Advance(s.win, n).out, x);
  }

  lemma EmptiedAccounts(s: Session, base: int, wnd: nat, x: Frame)
    requires Ok(s)
    ensures Times(s.out + Waiting(s.win), x) == Times(s.out, x) + HeldTimes(s.win, x)
    ensures Purge(s).tossed[x] == s.tossed[x] + HeldTimes(s.win, x)
    ensures BufTimes(map[], base, base + wnd, x) == 0
  {
    DrainTimes(s.win.buf, s.win.base, s.win.base + s.win.wnd, x);
    TossTimes(s.tossed, s.win.buf, s.win.base, s.win.base + s.win.wnd, x);
    TimesOfSum(s.out, Waiting(s.win), x);
    BufNothing(map[], base, base + wnd, x);
  }

  lemma OpenAccounts(s: Session, wnd: nat, base: int, waitrx: bool, x: Frame)
    requires Ok(s)
    ensures Accounted(Open(s, wnd, base, waitrx), x) == Accounted(s, x)
  {
    EmptiedAccounts(s, base, wnd, x);
  }

  /** One event: what was accounted for still is, and a new frame joins it once. */
  lemma NextAccounts(s: Session, e: Event, limit: int, x: Frame)
    requires Ok(s)
    ensures Accounted(Next(s, e, limit), x) == Accounted(s, x) + Fed(e, x)
  {
    match e
    case Data(f, now) => DataAccounts(s, f, now, limit, x);
    case Bar(seqno) => BarAccounts(s, seqno, x);
    case AgeOut(now) => EmptiedAccounts(s, s.win.base, s.win.wnd, x);
    case Start(bufsiz, seqno) => OpenAccounts(s, Window(bufsiz), seqno % SEQ_RANGE, false, x);
    case StartExt(baw, first) =>
      OpenAccounts(s, Window(baw), if first == -1 then 0 else first % SEQ_RANGE, first == -1, x);
    case Stop => EmptiedAccounts(s, s.win.base, s.win.wnd, x);
  }

  /** Over any run, every frame is among the delivered, freed, bypassed and
      still buffered ones exactly as often as it was handed in. */
  lemma {:induction false} RunAccounts(es: seq<Event>, limit: int, x: Frame)
    ensures Accounted(Run(Fresh, es, limit), x) == HandedIn(es, x)
  {
    if es != [] {
      var p := es[..|es| - 1];
      RunAccounts(p, limit, x);
      RunOk(Fresh, p, limit);
      NextAccounts(Run(Fresh, p, limit), es[|es| - 1], limit, x);
    }
  }
}
