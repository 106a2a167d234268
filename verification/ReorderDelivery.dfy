/** The order of delivery itself: which events hand a frame up after one with
    a greater number. */
module ReorderDelivery {
  import opened SeqArith
  import opened ReorderSpec
  import opened ReorderRuns

  ghost predicate Increasing(items: seq<Item>) {
    forall i, j | 0 <= i < j < |items| :: items[i].n < items[j].n
  }

  /** The current session has delivered frames in the order of their numbers, each once. */
  ghost predicate InOrder(s: Session) {
    s.mark <= |s.out| && Increasing(s.out[s.mark..])
  }

  /** Number `m` or one past it has gone up in this session. */
  ghost predicate Late(s: Session, m: int) {
    exists i | s.mark <= i < |s.out| :: m <= s.out[i].n
  }

  ghost predicate LateBetween(s: Session, buf: map<int, Frame>, lo: int, hi: int) {
    exists m <- buf :: lo <= m < hi && Late(s, m)
  }

  ghost predicate LateAmong(s: Session, buf: map<int, Frame>) {
    exists m <- buf :: Late(s, m)
  }

  /** A data frame numbered `n` inside the window: it is next but late, or it
      flushes what waits too long and that is late or numbered past it. */
  ghost predicate PlaceBreaks(s: Session, w: Win, n: int, now: int, limit: int) {
    if n == w.base then Late(s, n)
    else Stale(w, now, limit) && (Late(s, n) || LateAmong(s, w.buf) || exists m <- w.buf :: n <= m)
  }

  /** The event delivers a late frame, or flushes past a buffered one. */
  ghost predicate Breaks(s: Session, e: Event, limit: int) {
    match e
    case Data(f, now) =>
      && Numbered(s, f)
      && var n := NumberOf(s.win, f);
      var w := Settle(s, n).win;
      var w' := Slide(w, n).win;
      n - w.base < SEQ_BA_RANGE && (LateBetween(s, w.buf, w.base, w'.base) || PlaceBreaks(s, w', n, now, limit))
    case Bar(seqno) =>
      && s.running
      && var n := Lift(s.win.base, seqno % SEQ_RANGE);
      n != s.win.base && n - s.win.base < SEQ_BA_RANGE
      && LateBetween(s, s.win.buf, s.win.base, Advance(s.win, n).win.base)
    case AgeOut(now) => s.running && Stale(s.win, now, limit) && LateAmong(s, s.win.buf)
    case _ => false
  }

  // ---- what goes up -------------------------------------------------------

  ghost predicate Timely(s: Session, items: seq<Item>) {
    forall i | 0 <= i < |items| :: !Late(s, items[i].n)
  }

  lemma LateBelow(s: Session, m: int, n: int)
    requires Late(s, n) && m <= n
    ensures Late(s, m)
  {
  }

  lemma JoinIncreasing(a: seq<Item>, b: seq<Item>)
    requires Increasing(a) && forall i, j | 0 <= i < |a| && 0 <= j < |b| :: a[i].n < b[j].n
    ensures Increasing(a + b) <==> Increasing(b)
  {
    if Increasing(a + b) {
      forall i, j | 0 <= i < j < |b| ensures b[i].n < b[j].n {
        assert (a + b)[|a| + i] == b[i] && (a + b)[|a| + j] == b[j];
      }
    }
  }

  lemma JoinTimely(s: Session, a: seq<Item>, b: seq<Item>)
    ensures Timely(s, a + b) <==> Timely(s, a) && Timely(s, b)
  {
    if Timely(s, a + b) {
      forall i | 0 <= i < |a| ensures !Late(s, a[i].n) {
        assert (a + b)[i] == a[i];
      }
      forall i | 0 <= i < |b| ensures !Late(s, b[i].n) {
        assert (a + b)[|a| + i] == b[i];
      }
    }
  }

  lemma DrainTimely(s: Session, buf: map<int, Frame>, lo: int, hi: int)
    ensures Timely(s, Drain(buf, lo, hi)) <==> !LateBetween(s, buf, lo, hi)
    ensures Increasing(Drain(buf, lo, hi)) && From(Drain(buf, lo, hi), lo)
    ensures forall i | 0 <= i < |Drain(buf, lo, hi)| :: Drain(buf, lo, hi)[i].n < hi
  {
    var d := Drain(buf, lo, hi);
    DrainItems(buf, lo, hi);
    if m :| m in buf && lo <= m < hi && Late(s, m) {
      InDrain(buf, lo, hi, m);
      var i :| 0 <= i < |d| && d[i].n == m;
    }
  }

  lemma NextTimely(s: Session, w: Win, n: int, f: Frame)
    requires n == w.base
    ensures var up := [Item(n, f)] + Advance(w.(base := n + 1), n + 1).out;
            Increasing(up) && From(up, n) && (Timely(s, up) <==> !Late(s, n))
  {
    var rest := Advance(w.(base := n + 1), n + 1);
    var up := [Item(n, f)] + rest.out;
    DrainTimely(s, w.buf, n + 1, rest.win.base);
    JoinIncreasing([Item(n, f)], rest.out);
    JoinTimely(s, [Item(n, f)], rest.out);
    if Timely(s, up) {
      assert up[0].n == n;
    } else {
      var i :| 0 <= i < |up| && Late(s, up[i].n);
      LateBelow(s, n, up[i].n);
    }
  }

  /** One more item after a drained buffer. */
  lemma DrainThen(buf: map<int, Frame>, lo: int, hi: int, d: seq<Item>, x: Item)
    requires d == Drain(buf, lo, hi)
    ensures Increasing(d + [x]) <==> forall m <- buf | lo <= m < hi :: m < x.n
  {
    DrainItems(buf, lo, hi);
    var up, k := d + [x], |d|;
    assert up[k] == x;
    if Increasing(up) {
      forall m | m in buf && lo <= m < hi ensures m < x.n {
        InDrain(buf, lo, hi, m);
        var i :| 0 <= i < k && d[i].n == m;
        assert up[i] == d[i];
      }
    }
  }

  lemma FlushTimely(s: Session, w: Win, n: int, f: Frame)
    requires WinOk(w) && w.base < n < w.base + w.wnd
    ensures var up := Waiting(w) + [Item(n, f)];
            && From(up, w.base)
            && (Increasing(up) <==> forall m <- w.buf :: m < n)
            && (Timely(s, up) <==> !Late(s, n) && !LateAmong(s, w.buf))
  {
    var d, one := Waiting(w), [Item(n, f)];
    DrainTimely(s, w.buf, w.base, w.base + w.wnd);
    DrainThen(w.buf, w.base, w.base + w.wnd, d, Item(n, f));
    JoinTimely(s, d, one);
    assert one[0].n == n;
  }

  lemma PlaceOrders(s: Session, w: Win, n: int, f: Frame, now: int, limit: int)
    requires WinOk(w) && w.base <= n < w.base + w.wnd
    ensures var up := Place(w, n, f, now, limit).out;
            From(up, w.base) && (Increasing(up) && Timely(s, up) <==> !PlaceBreaks(s, w, n, now, limit))
  {
    if n == w.base {
      NextTimely(s, w, n, f);
    } else if Stale(w, now, limit) {
      FlushTimely(s, w, n, f);
    }
  }

  lemma AcceptOrders(s: Session, w: Win, n: int, f: Frame, now: int, limit: int)
    requires WinOk(w) && 1 <= w.wnd && w.base <= n
    ensures var w', up := Slide(w, n).win, Accept(w, n, f, now, limit).out;
            Increasing(up) && Timely(s, up) <==>
            !LateBetween(s, w.buf, w.base, w'.base) && !PlaceBreaks(s, w', n, now, limit)
  {
    var slid := Slide(w, n);
    var placed := Place(slid.win, n, f, now, limit).out;
    AcceptOk(w, n, f, now, limit);
    DrainTimely(s, w.buf, w.base, slid.win.base);
    assert slid.out == Drain(w.buf, w.base, slid.win.base);
    PlaceOrders(s, slid.win, n, f, now, limit);
    JoinIncreasing(slid.out, placed);
    JoinTimely(s, slid.out, placed);
  }

  /** What goes up next keeps the order exactly when it is itself in order and not late. */
  lemma Extends(s: Session, w: Win, items: seq<Item>)
    requires InOrder(s)
    ensures InOrder(s.(win := w, out := s.out + items)) <==> Increasing(items) && Timely(s, items)
  {
    var a := s.out[s.mark..];
    assert (s.out + items)[s.mark..] == a + items;
    if Timely(s, items) {
      forall i, j | 0 <= i < |a| && 0 <= j < |items| ensures a[i].n < items[j].n {
        assert a[i] == s.out[s.mark + i];
      }
      JoinIncreasing(a, items);
    } else {
      var j :| 0 <= j < |items| && Late(s, items[j].n);
      var i :| s.mark <= i < |s.out| && items[j].n <= s.out[i].n;
      assert (a + items)[i - s.mark] == s.out[i] && (a + items)[|a| + j] == items[j];
    }
  }

  lemma DataInOrder(s: Session, f: Frame, now: int, limit: int)
    requires Ok(s) && InOrder(s)
    ensures InOrder(Receive(s, f, now, limit)) <==> !Breaks(s, Data(f, now), limit)
  {
    if Numbered(s, f) {
      var n := NumberOf(s.win, f);
      var s1 := Settle(s, n);
      if n - s1.win.base < SEQ_BA_RANGE {
        var a := Accept(s1.win, n, f, now, limit);
        AcceptOrders(s, s1.win, n, f, now, limit);
        Extends(s, a.win, a.out);
      }
    }
  }

  /** One event keeps delivery in order exactly when it delivers no late frame
      and does not flush past a buffered one. */
  lemma NextInOrder(s: Session, e: Event, limit: int)
    requires Ok(s) && InOrder(s)
    ensures InOrder(Next(s, e, limit)) <==> !Breaks(s, e, limit)
  {
    match e
    case Data(f, now) => DataInOrder(s, f, now, limit);
    case Bar(seqno) =>
      var moved := Advance(s.win, Lift(s.win.base, seqno % SEQ_RANGE));
      DrainTimely(s, s.win.buf, s.win.base, moved.win.base);
      Extends(s, moved.win, moved.out);
    case AgeOut(now) =>
      DrainTimely(s, s.win.buf, s.win.base, s.win.base + s.win.wnd);
      Extends(s, s.win.(buf := map[]), Waiting(s.win));
    case _ =>
  }

  /** Delivery is in order after every event of a run. */
  ghost predicate AlwaysInOrder(s: Session, es: seq<Event>, limit: int) {
    InOrder(Run(s, es, limit)) && (es != [] ==> AlwaysInOrder(s, es[..|es| - 1], limit))
  }

  ghost predicate NothingBreaks(s: Session, es: seq<Event>, limit: int) {
    es != [] ==>
      && NothingBreaks(s, es[..|es| - 1], limit)
      && !Breaks(Run(s, es[..|es| - 1], limit), es[|es| - 1], limit)
  }

  /** Delivery stays in order through a whole run exactly when no event of it breaks the order. */
  lemma {:induction false} RunInOrder(s: Session, es: seq<Event>, limit: int)
    requires Ok(s) && InOrder(s)
    ensures AlwaysInOrder(s, es, limit) <==> NothingBreaks(s, es, limit)
  {
    if es != [] {
      var p := es[..|es| - 1];
      RunInOrder(s, p, limit);
      RunOk(s, p, limit);
      if InOrder(Run(s, p, limit)) {
        NextInOrder(Run(s, p, limit), es[|es| - 1], limit);
      }
    }
  }

  // ---- late frames need a flush -------------------------------------------

  /** Behind the window nothing is late, and only an age flush breaks the order. */
  lemma BehindBreaks(s: Session, e: Event, limit: int)
    requires Ok(s) && Behind(s) && Breaks(s, e, limit)
    ensures GetsAhead(s, e, limit)
  {
    forall m | s.win.base <= m ensures !Late(s, m) {
      forall i | s.mark <= i < |s.out| ensures s.out[i].n < m {
        assert s.out[s.mark..][i - s.mark] == s.out[i];
      }
    }
  }

  // ---- right numbers ------------------------------------------------------

  ghost predicate AllLabelled(items: seq<Item>) {
    forall i | 0 <= i < |items| :: Labelled(items[i].n, items[i].f)
  }

  ghost predicate RightlyNumbered(s: Session) {
    AllLabelled(s.out) && Labels(s.win.buf)
  }

  lemma AcceptLabels(w: Win, n: int, f: Frame, now: int, limit: int)
    requires WinOk(w) && 1 <= w.wnd && w.base <= n && Labels(w.buf) && Labelled(n, f)
    ensures var p := Accept(w, n, f, now, limit);
            AllLabelled(p.out) && Labels(p.win.buf)
  {
    var slid := Slide(w, n);
    DrainItems(w.buf, w.base, slid.win.base);
    assert slid.out == Drain(w.buf, w.base, slid.win.base) by {
      DrainItems(w.buf, w.base, w.base);
    }
    PlaceLabels(slid.win, n, f, now, limit);
  }

  lemma PlaceLabels(w: Win, n: int, f: Frame, now: int, limit: int)
    requires Labels(w.buf) && Labelled(n, f)
    ensures var p := Place(w, n, f, now, limit);
            AllLabelled(p.out) && Labels(p.win.buf)
  {
    if n == w.base {
      DrainItems(w.buf, n + 1, Advance(w.(base := n + 1), n + 1).win.base);
    } else {
      DrainItems(w.buf, w.base, w.base + w.wnd);
    }
  }

  lemma NextLabels(s: Session, e: Event, limit: int)
    requires Ok(s) && RightlyNumbered(s)
    ensures RightlyNumbered(Next(s, e, limit))
  {
    match e
    case Data(f, now) =>
      if Numbered(s, f) {
        var n := NumberOf(s.win, f);
        LiftIsFaithful(s.win.base, f.seqctl / 16 % SEQ_RANGE);
        AcceptLabels(Settle(s, n).win, n, f, now, limit);
      }
    case Bar(seqno) =>
      DrainItems(s.win.buf, s.win.base, Advance(s.win, Lift(s.win.base, seqno % SEQ_RANGE)).win.base);
    case AgeOut(now) =>
      DrainItems(s.win.buf, s.win.base, s.win.base + s.win.wnd);
    case _ =>
  }

  /** In every run, flushes included, each frame goes up under a number whose
      12 bits it carries. */
  lemma {:induction false} RunLabels(s: Session, es: seq<Event>, limit: int)
    requires Ok(s) && RightlyNumbered(s)
    ensures RightlyNumbered(Run(s, es, limit))
  {
    if es != [] {
      var p := es[..|es| - 1];
      RunLabels(s, p, limit);
      RunOk(s, p, limit);
      NextLabels(Run(s, p, limit), es[|es| - 1], limit);
    }
  }
}
