/** What becomes of frames that do not go up in order: which bypass reordering,
    which are freed, and since when the others have been waiting. */
module ReorderFates {
  import opened SeqArith
  import opened ReorderSpec
  import opened ReorderRuns

  // ---- bypassed and freed -------------------------------------------------

  /** A data frame that reordering drops: a fragment, one half the sequence space
      or more ahead, or one whose number is waiting already. */
  predicate Drops(s: Session, f: Frame, now: int, limit: int) {
    && f.qosData && !f.multicast && s.running
    && (f.seqctl % 16 != 0 ||
        var n := NumberOf(s.win, f);
        var w := Settle(s, n).win;
        n - w.base >= SEQ_BA_RANGE || Repeats(Slide(w, n).win, n, now, limit))
  }

  predicate Repeats(w: Win, n: int, now: int, limit: int) {
    n in w.buf && n != w.base && !Stale(w, now, limit)
  }

  lemma DataFate(s: Session, f: Frame, now: int, limit: int)
    requires Ok(s)
    ensures var t := Receive(s, f, now, limit);
            && t.passed == s.passed + (if Bypasses(s, f) then multiset{f} else multiset{})
            && t.tossed == s.tossed + (if Drops(s, f, now, limit) then multiset{f} else multiset{})
  {
  }

  lemma DataCounts(s: Session, f: Frame, now: int, limit: int, x: Frame)
    requires Ok(s)
    ensures var t := Receive(s, f, now, limit);
            && t.passed[x] == s.passed[x] + (if f == x && Bypasses(s, x) then 1 else 0)
            && t.tossed[x] == s.tossed[x] + (if f == x && Drops(s, x, now, limit) then 1 else 0)
  {
    DataFate(s, f, now, limit);
  }

  /** The events that end a session free what it still holds. */
  predicate Ends(e: Event) {
    e.Start? || e.StartExt? || e.Stop?
  }

  function Passes(s: Session, e: Event, x: Frame): nat {
    if e.Data? && e.f == x && Bypasses(s, x) then 1 else 0
  }

  function Frees(s: Session, e: Event, limit: int, x: Frame): nat {
    if Ends(e) then HeldTimes(s.win, x)
    else if e.Data? && e.f == x && Drops(s, x, e.now, limit) then 1 else 0
  }

  lemma NextFates(s: Session, e: Event, limit: int, x: Frame)
    requires Ok(s)
    ensures Next(s, e, limit).passed[x] == s.passed[x] + Passes(s, e, x)
    ensures Next(s, e, limit).tossed[x] == s.tossed[x] + Frees(s, e, limit, x)
  {
    if e.Data? {
      DataCounts(s, e.f, e.now, limit, x);
    } else if Ends(e) {
      TossTimes(s.tossed, s.win.buf, s.win.base, s.win.base + s.win.wnd, x);
    }
  }

  /** How often frame `x` came past reordering in a run, and how often it was freed. */
  function PassedIn(es: seq<Event>, limit: int, x: Frame): nat {
    if es == [] then 0
    else
      var p := es[..|es| - 1];
      PassedIn(p, limit, x) + Passes(Run(Fresh, p, limit), es[|es| - 1], x)
  }

  function FreedIn(es: seq<Event>, limit: int, x: Frame): nat {
    if es == [] then 0
    else
      var p := es[..|es| - 1];
      FreedIn(p, limit, x) + Frees(Run(Fresh, p, limit), es[|es| - 1], limit, x)
  }

  /** In every run a frame bypasses reordering exactly as often as it comes without
      being unicast QoS data of a running session, and is freed exactly as often
      as it comes as a fragment, too far ahead or a second time, or a session
      ends that holds it. */
  lemma {:induction false} RunFates(es: seq<Event>, limit: int, x: Frame)
    ensures Run(Fresh, es, limit).passed[x] == PassedIn(es, limit, x)
    ensures Run(Fresh, es, limit).tossed[x] == FreedIn(es, limit, x)
  {
    if es != [] {
      var p := es[..|es| - 1];
      RunFates(p, limit, x);
      RunOk(Fresh, p, limit);
      NextFates(Run(Fresh, p, limit), es[|es| - 1], limit, x);
    }
  }

  // ---- waiting ------------------------------------------------------------

  /** Nothing but frame `f` is buffered. */
  ghost predicate Alone(w: Win, f: Frame) {
    exists n :: w.buf == map[n := f]
  }

  lemma PlaceAge(w: Win, n: int, f: Frame, now: int, limit: int)
    requires WinOk(w)
    ensures var w' := Place(w, n, f, now, limit).win;
            w'.buf != map[] ==> if w.buf == map[] then w'.age == now && Alone(w', f) else w'.age == w.age
  {
    if n != w.base && !Stale(w, now, limit) && w.buf == map[] {
      assert w.buf[n := f] == map[n := f];
    }
    if n == w.base && w.buf == map[] {
      assert Keep(w.buf, Advance(w.(base := n + 1), n + 1).win.base) == map[];
    }
  }

  lemma SlideAge(w: Win, n: int)
    ensures Slide(w, n).win.age == w.age && (w.buf == map[] ==> Slide(w, n).win.buf == map[])
  {
  }

  /** After an event what is buffered was so before, with the same age, or is this
      event's frame alone. */
  lemma NextAge(s: Session, e: Event, limit: int)
    requires Ok(s) && Next(s, e, limit).win.buf != map[]
    ensures var w := Next(s, e, limit).win;
            || (s.win.buf != map[] && w.age == s.win.age)
            || (e.Data? && w.age == e.now && Alone(w, e.f))
  {
    match e
    case Data(f, now) =>
      if Numbered(s, f) {
        var n := NumberOf(s.win, f);
        var w := Settle(s, n).win;
        if n - w.base < SEQ_BA_RANGE {
          SlideAge(w, n);
          AcceptOk(w, n, f, now, limit);
          PlaceAge(Slide(w, n).win, n, f, now, limit);
        }
      }
    case Bar(seqno) => SlideAge(s.win, 0);
    case _ =>
  }

  ghost predicate Buffers(es: seq<Event>, limit: int, q: int) {
    0 <= q <= |es| && Run(Fresh, es[..q], limit).win.buf != map[]
  }

  /** Event `p` brought a frame that was then buffered alone, and there has been
      something buffered ever since. */
  ghost predicate WaitsFrom(es: seq<Event>, limit: int, p: int) {
    && 0 <= p < |es| && es[p].Data? && Alone(Run(Fresh, es[..p + 1], limit).win, es[p].f)
    && forall q | p < q <= |es| :: Buffers(es, limit, q)
  }

  lemma WaitsOn(es: seq<Event>, e: Event, limit: int, p: int)
    requires WaitsFrom(es, limit, p) && Run(Fresh, es + [e], limit).win.buf != map[]
    ensures WaitsFrom(es + [e], limit, p) && (es + [e])[p] == es[p]
  {
    var es' := es + [e];
    assert es'[..p + 1] == es[..p + 1];
    forall q | p < q <= |es'| ensures Buffers(es', limit, q) {
      if q <= |es| {
        assert Buffers(es, limit, q);
        assert es'[..q] == es[..q];
      } else {
        assert es'[..q] == es';
      }
    }
  }

  lemma WaitsNow(es: seq<Event>, e: Event, limit: int, n: nat)
    requires e.Data? && Alone(Run(Fresh, es + [e], limit).win, e.f) && n == |es|
    ensures WaitsFrom(es + [e], limit, n) && (es + [e])[n] == e
  {
    var es' := es + [e];
    assert es'[..n + 1] == es';
    var m :| Run(Fresh, es', limit).win.buf == map[m := e.f];
    assert m in Run(Fresh, es', limit).win.buf;
    forall q | n < q <= |es'| ensures Buffers(es', limit, q) {
      assert es'[..q] == es';
    }
  }

  /** In every run the age is that of a frame which was once buffered alone, since
      when there has always been something buffered. */
  lemma {:induction false} RunAge(es: seq<Event>, limit: int) returns (p: nat)
    requires Run(Fresh, es, limit).win.buf != map[]
    ensures WaitsFrom(es, limit, p) && es[p].now == Run(Fresh, es, limit).win.age
  {
    var before, e := es[..|es| - 1], es[|es| - 1];
    assert es == before + [e];
    var s := Run(Fresh, before, limit);
    RunOk(Fresh, before, limit);
    NextAge(s, e, limit);
    if s.win.buf != map[] && Run(Fresh, es, limit).win.age == s.win.age {
      p := RunAge(before, limit);
      WaitsOn(before, e, limit, p);
    } else {
      p := |before|;
      WaitsNow(before, e, limit, p);
    }
  }

  /** A sweep of a running session empties the buffer, in order, exactly when its
      age is past the limit; otherwise nothing happens. */
  lemma SweepIff(s: Session, now: int, limit: int)
    requires Ok(s) && s.running && s.win.buf != map[]
    ensures var t := Next(s, AgeOut(now), limit);
            && (t.win.buf == map[] <==> now - s.win.age > limit)
            && t.out == s.out + (if t.win.buf == map[] then Drain(s.win.buf, s.win.base, s.win.base + s.win.wnd) else [])
            && t.win.base == s.win.base && t.passed == s.passed && t.tossed == s.tossed
  {
  }
}
