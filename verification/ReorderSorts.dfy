/** Receive reordering sorts: consecutively numbered frames, however many, that
    arrive in any order that never runs a window ahead, none waiting too long,
    go up in order, each once. */
module ReorderSorts {
  import opened SeqArith
  import opened ReorderSpec
  import opened ReorderRuns

  /** Distinctly numbered frames of the session in an order that never runs a
      window ahead; when more than the limit passes between two arrivals, nothing
      was missing at some moment between them. */
  ghost predicate Shuffled(s: Session, frames: map<int, Frame>, order: seq<int>, times: seq<int>, limit: int) {
    && |order| == |times|
    && (forall i, j | 0 <= i < j < |order| :: order[i] != order[j])
    && (forall i | 0 <= i < |order| :: Expected(s.win, order[i], frames) && NotAhead(s.win, order, i))
    && (forall i, j | 0 <= i < j < |times| && times[j] - times[i] > limit :: Caught(s.win.base, order, i, j))
  }

  ghost predicate Expected(w: Win, n: int, frames: map<int, Frame>) {
    && w.base <= n && n in frames && Labelled(n, frames[n])
    && frames[n].qosData && !frames[n].multicast && frames[n].seqctl % 16 == 0
  }

  /** Everything a window or more before the `i`th frame has arrived before it. */
  ghost predicate NotAhead(w: Win, order: seq<int>, i: int)
    requires 0 <= i < |order|
  {
    forall k | w.base <= k <= order[i] - w.wnd :: k in order[..i]
  }

  /** The numbers from `b` on, none missing. */
  ghost predicate Whole(b: int, seen: seq<int>) {
    forall n :: n in seen <==> b <= n < b + |seen|
  }

  /** At some moment after the `i`th arrival and before the `j`th none was missing. */
  ghost predicate Caught(b: int, order: seq<int>, i: int, j: int)
    requires 0 <= i < j < |order|
  {
    exists k | i < k <= j :: Whole(b, order[..k])
  }

  /** What is buffered has been waiting since the `i`th arrival. */
  ghost predicate WaitsSince(b: int, seen: seq<int>, times: seq<int>, age: int, i: int) {
    0 <= i < |seen| && |seen| == |times| && times[i] == age && forall k | i < k <= |seen| :: !Whole(b, seen[..k])
  }

  ghost predicate Waits(b: int, seen: seq<int>, times: seq<int>, age: int) {
    exists i :: WaitsSince(b, seen, times, age, i)
  }

  function Arrivals(frames: map<int, Frame>, order: seq<int>, times: seq<int>): seq<Event>
    requires |order| == |times| && forall i | 0 <= i < |order| :: order[i] in frames
  {
    if order == [] then []
    else
      var k := |order| - 1;
      Arrivals(frames, order[..k], times[..k]) + [Data(frames[order[k]], times[k])]
  }

  /** After the frames `seen`: those of the run from `b` are gone, the rest wait. */
  ghost predicate Sorting(w: Win, b: int, frames: map<int, Frame>, seen: seq<int>) {
    && b <= w.base && w.base !in seen
    && (forall n | b <= n < w.base :: n in seen)
    && (forall n :: n in w.buf <==> n in seen && w.base <= n)
    && (forall n <- w.buf :: n in frames && w.buf[n] == frames[n])
  }

  ghost predicate Aging(w: Win, b: int, seen: seq<int>, times: seq<int>) {
    w.buf != map[] ==> Waits(b, seen, times, w.age)
  }

  ghost predicate PartlySorted(s0: Session, s: Session, frames: map<int, Frame>, seen: seq<int>, times: seq<int>) {
    && Sorting(s.win, s0.win.base, frames, seen)
    && Aging(s.win, s0.win.base, seen, times)
    && s.win.wnd == s0.win.wnd
    && s == s0.(win := s.win, out := s0.out + Drain(frames, s0.win.base, s.win.base))
  }

  // ---- how long frames wait -----------------------------------------------

  /** While something is buffered something is missing. */
  lemma NotWhole(w: Win, b: int, frames: map<int, Frame>, seen: seq<int>)
    requires Sorting(w, b, frames, seen) && w.buf != map[]
    ensures !Whole(b, seen)
  {
    var m := SomeKey(w.buf);
    assert m in seen && w.base !in seen && b <= w.base <= m;
  }

  lemma WaitsOn(b: int, seen: seq<int>, times: seq<int>, age: int, n: int, now: int)
    requires Waits(b, seen, times, age) && !Whole(b, seen + [n])
    ensures Waits(b, seen + [n], times + [now], age)
  {
    var i :| WaitsSince(b, seen, times, age, i);
    var seen' := seen + [n];
    forall k | i < k <= |seen'| ensures !Whole(b, seen'[..k]) {
      if k <= |seen| {
        assert seen'[..k] == seen[..k];
      } else {
        assert seen'[..k] == seen';
      }
    }
    assert WaitsSince(b, seen', times + [now], age, i);
  }

  lemma WaitsNow(b: int, seen: seq<int>, times: seq<int>, n: int, now: int)
    requires |seen| == |times| && !Whole(b, seen + [n])
    ensures Waits(b, seen + [n], times + [now], now)
  {
    var seen' := seen + [n];
    assert seen'[..|seen'|] == seen';
    assert WaitsSince(b, seen', times + [now], now, |seen|);
  }

  /** A frame is not stored for too long. */
  lemma NotStale(b: int, order: seq<int>, times: seq<int>, j: int, age: int, limit: int)
    requires 0 <= j < |order| == |times| && Waits(b, order[..j], times[..j], age)
    requires forall i | 0 <= i < j && times[j] - times[i] > limit :: Caught(b, order, i, j)
    ensures times[j] - age <= limit
  {
    var seen := order[..j];
    var i :| WaitsSince(b, seen, times[..j], age, i);
    forall k | i < k <= j ensures !Whole(b, order[..k]) {
      assert seen[..k] == order[..k];
    }
    assert !Caught(b, order, i, j);
  }

  // ---- one arrival --------------------------------------------------------

  lemma SortFirst(w: Win, b: int, frames: map<int, Frame>, seen: seq<int>)
    requires WinOk(w) && Sorting(w, b, frames, seen)
    ensures Sorting(Advance(w.(base := w.base + 1), w.base + 1).win, b, frames, seen + [w.base])
  {
  }

  lemma FirstOut(w: Win, b: int, frames: map<int, Frame>)
    requires b <= w.base && w.base in frames
    requires forall n <- w.buf :: n in frames && w.buf[n] == frames[n]
    ensures var n := w.base;
            var moved := Advance(w.(base := n + 1), n + 1);
            Drain(frames, b, moved.win.base) == Drain(frames, b, n) + ([Item(n, frames[n])] + moved.out)
  {
    var n := w.base;
    var g := Advance(w.(base := n + 1), n + 1).win.base;
    DrainSplit(frames, b, n, g);
    DrainSplit(frames, n, n + 1, g);
    assert Drain(frames, n, n) == [];
    DrainAgrees(frames, w.buf, n + 1, g);
  }

  lemma SortLater(w: Win, b: int, frames: map<int, Frame>, seen: seq<int>, n: int, age: int)
    requires Sorting(w, b, frames, seen) && n in frames && w.base < n && n !in seen
    ensures Sorting(w.(buf := w.buf[n := frames[n]], age := age), b, frames, seen + [n])
  {
  }

  lemma InWindow(s: Session, n: int, f: Frame, now: int, limit: int)
    requires Ok(s) && Numbered(s, f) && !s.waitrx && Labelled(n, f)
    requires s.win.base <= n < s.win.base + s.win.wnd
    ensures Receive(s, f, now, limit) == Apply(s, f, Place(s.win, n, f, now, limit))
  {
    assert NumberOf(s.win, f) == n;
    var p := Place(s.win, n, f, now, limit);
    assert [] + p.out == p.out;
  }

  lemma PlaceSorts(w: Win, b: int, frames: map<int, Frame>, seen: seq<int>, n: int, now: int, limit: int)
    requires WinOk(w) && Sorting(w, b, frames, seen) && !Stale(w, now, limit)
    requires n !in seen && w.base <= n && n in frames
    ensures var p := Place(w, n, frames[n], now, limit);
            && !p.freed && p.win.wnd == w.wnd && Sorting(p.win, b, frames, seen + [n])
            && Drain(frames, b, p.win.base) == Drain(frames, b, w.base) + p.out
            && (p.win.buf != map[] ==> p.win.age == if w.buf == map[] then now else w.age)
  {
    if n == w.base {
      SortFirst(w, b, frames, seen);
      FirstOut(w, b, frames);
    } else {
      SortLater(w, b, frames, seen, n, if w.buf == map[] then now else w.age);
      assert Drain(frames, b, w.base) + [] == Drain(frames, b, w.base);
    }
  }

  lemma PlaceAges(w: Win, w': Win, b: int, frames: map<int, Frame>, seen: seq<int>, times: seq<int>, n: int, now: int)
    requires |seen| == |times| && Aging(w, b, seen, times) && Sorting(w', b, frames, seen + [n])
    requires w'.buf != map[] ==> w'.age == if w.buf == map[] then now else w.age
    ensures Aging(w', b, seen + [n], times + [now])
  {
    if w'.buf != map[] {
      NotWhole(w', b, frames, seen + [n]);
      if w.buf == map[] {
        WaitsNow(b, seen, times, n, now);
      } else {
        WaitsOn(b, seen, times, w.age, n, now);
      }
    }
  }

  lemma PartlyApplied(s0: Session, s: Session, p: Effect, f: Frame, frames: map<int, Frame>,
                      seen: seq<int>, times: seq<int>, n: int, now: int)
    requires PartlySorted(s0, s, frames, seen, times) && !p.freed && p.win.wnd == s.win.wnd
    requires Sorting(p.win, s0.win.base, frames, seen + [n]) && Aging(p.win, s0.win.base, seen + [n], times + [now])
    requires Drain(frames, s0.win.base, p.win.base) == Drain(frames, s0.win.base, s.win.base) + p.out
    ensures PartlySorted(s0, Apply(s, f, p), frames, seen + [n], times + [now])
  {
    var d := Drain(frames, s0.win.base, s.win.base);
    assert s0.out + d + p.out == s0.out + (d + p.out);
  }

  lemma SortOne(s0: Session, s: Session, frames: map<int, Frame>, seen: seq<int>, times: seq<int>,
                n: int, now: int, limit: int)
    requires Ok(s) && s.running && !s.waitrx && PartlySorted(s0, s, frames, seen, times) && |seen| == |times|
    requires n !in seen && Expected(s0.win, n, frames) && !Stale(s.win, now, limit)
    requires forall k | s0.win.base <= k <= n - s0.win.wnd :: k in seen
    ensures PartlySorted(s0, Receive(s, frames[n], now, limit), frames, seen + [n], times + [now])
  {
    assert s.win.base <= n;
    assert n < s.win.base + s.win.wnd;
    InWindow(s, n, frames[n], now, limit);
    PlaceSorts(s.win, s0.win.base, frames, seen, n, now, limit);
    var p := Place(s.win, n, frames[n], now, limit);
    PlaceAges(s.win, p.win, s0.win.base, frames, seen, times, n, now);
    PartlyApplied(s0, s, p, frames[n], frames, seen, times, n, now);
  }

  lemma ShuffledFront(s: Session, frames: map<int, Frame>, order: seq<int>, times: seq<int>, limit: int, n: nat)
    requires Shuffled(s, frames, order, times, limit) && |order| == n + 1
    ensures Shuffled(s, frames, order[..n], times[..n], limit)
    ensures order[n] !in order[..n] && order == order[..n] + [order[n]] && times == times[..n] + [times[n]]
  {
    var order', times' := order[..n], times[..n];
    forall i | 0 <= i < n ensures Expected(s.win, order'[i], frames) && NotAhead(s.win, order', i) {
      assert Expected(s.win, order[i], frames) && NotAhead(s.win, order, i);
      assert order'[..i] == order[..i];
    }
    forall i, j | 0 <= i < j < n && times'[j] - times'[i] > limit ensures Caught(s.win.base, order', i, j) {
      assert times[j] - times[i] > limit;
      assert Caught(s.win.base, order, i, j);
      var k :| i < k <= j && Whole(s.win.base, order[..k]);
      assert order'[..k] == order[..k];
    }
  }

  lemma {:induction false} SortAll(s: Session, frames: map<int, Frame>, order: seq<int>, times: seq<int>, limit: int)
    requires Ok(s) && s.running && !s.waitrx && s.win.buf == map[]
    requires Shuffled(s, frames, order, times, limit)
    ensures PartlySorted(s, Run(s, Arrivals(frames, order, times), limit), frames, order, times)
    decreases |order|
  {
    if order == [] {
      assert s.out + [] == s.out;
    } else {
      var n := |order| - 1;
      var seen, past := order[..n], times[..n];
      ShuffledFront(s, frames, order, times, limit, n);
      SortAll(s, frames, seen, past, limit);
      SortLast(s, frames, order, times, limit, n, seen, past);
    }
  }

  lemma SortLast(s: Session, frames: map<int, Frame>, order: seq<int>, times: seq<int>, limit: int,
                 n: nat, seen: seq<int>, past: seq<int>)
    requires Ok(s) && s.running && !s.waitrx
    requires Shuffled(s, frames, order, times, limit) && |order| == n + 1 && seen == order[..n] && past == times[..n]
    requires PartlySorted(s, Run(s, Arrivals(frames, seen, past), limit), frames, seen, past)
    ensures PartlySorted(s, Run(s, Arrivals(frames, order, times), limit), frames, order, times)
  {
    var es, e := Arrivals(frames, seen, past), Data(frames[order[n]], times[n]);
    var t := Run(s, es, limit);
    ShuffledFront(s, frames, order, times, limit, n);
    assert Arrivals(frames, order, times) == es + [e];
    RunLast(s, es, e, limit);
    RunOk(s, es, limit);
    assert Expected(s.win, order[n], frames) && NotAhead(s.win, order, n);
    if t.win.buf != map[] {
      NotStale(s.win.base, order, times, n, t.win.age, limit);
    }
    SortOne(s, t, frames, seen, past, order[n], times[n], limit);
  }

  lemma AllSorted(w: Win, b: int, frames: map<int, Frame>, order: seq<int>)
    requires Sorting(w, b, frames, order)
    requires forall n :: b <= n < b + |order| <==> n in order
    ensures w.base == b + |order| && w.buf == map[]
  {
    assert b + |order| !in order;
    assert w.base <= b + |order|;
    assert forall n :: n !in w.buf;
  }

  lemma Finished(s: Session, t: Session, frames: map<int, Frame>, order: seq<int>, times: seq<int>)
    requires PartlySorted(s, t, frames, order, times)
    requires forall n :: s.win.base <= n < s.win.base + |order| <==> n in order
    ensures t.out == s.out + Drain(frames, s.win.base, s.win.base + |order|)
    ensures t.win.base == s.win.base + |order| && t.win.buf == map[]
    ensures t.tossed == s.tossed && t.passed == s.passed
  {
    AllSorted(t.win, s.win.base, frames, order);
  }

  /** Shuffled frames without a gap come out sorted, once each, with nothing left
      behind. */
  lemma Sorts(s: Session, frames: map<int, Frame>, order: seq<int>, times: seq<int>, limit: int)
    requires Ok(s) && s.running && !s.waitrx && s.win.buf == map[]
    requires Shuffled(s, frames, order, times, limit)
    requires forall n :: s.win.base <= n < s.win.base + |order| <==> n in order
    ensures var t := Run(s, Arrivals(frames, order, times), limit);
            var b := s.win.base;
            && t.out == s.out + Drain(frames, b, b + |order|)
            && t.win.base == b + |order| && t.win.buf == map[]
            && t.tossed == s.tossed && t.passed == s.passed
  {
    SortAll(s, frames, order, times, limit);
    Finished(s, Run(s, Arrivals(frames, order, times), limit), frames, order, times);
  }
}
