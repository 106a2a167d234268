/** The receive reorder buffer of one TID: 64 slot queues, a 12-bit window
    start and two counters, updated in place. */
module RxAmpdu {
  import DivMod
  import opened SeqArith
  import opened ReorderSpec

  type Queue = seq<Frame>

  datatype Verdict = Process | Consumed

  // ---- slot sums ----------------------------------------------------------

  function QueueBytes(q: Queue): nat {
    if q == [] then 0 else q[0].len + QueueBytes(q[1..])
  }

  function Count(mq: seq<Queue>): nat {
    if mq == [] then 0 else |mq[0]| + Count(mq[1..])
  }

  function Bytes(mq: seq<Queue>): nat {
    if mq == [] then 0 else QueueBytes(mq[0]) + Bytes(mq[1..])
  }

  lemma {:induction false} SumUpdate(mq: seq<Queue>, i: nat, q: Queue)
    requires i < |mq|
    ensures Count(mq[i := q]) == Count(mq) - |mq[i]| + |q|
    ensures Bytes(mq[i := q]) == Bytes(mq) - QueueBytes(mq[i]) + QueueBytes(q)
  {
    if i == 0 {
      assert mq[i := q][1..] == mq[1..];
    } else {
      assert mq[i := q][1..] == mq[1..][i - 1 := q];
      SumUpdate(mq[1..], i - 1, q);
    }
  }

  lemma {:induction false} SumEmpty(mq: seq<Queue>)
    ensures Count(mq) == 0 <==> forall k | 0 <= k < |mq| :: mq[k] == []
    ensures Count(mq) == 0 ==> Bytes(mq) == 0
  {
    if mq != [] {
      SumEmpty(mq[1..]);
      assert forall k | 0 < k < |mq| :: mq[k] == mq[1..][k - 1];
    }
  }

  lemma {:induction false} SumSplit(a: seq<Queue>, b: seq<Queue>)
    ensures Count(a + b) == Count(a) + Count(b)
    ensures Bytes(a + b) == Bytes(a) + Bytes(b)
  {
    if a == [] {
      assert a + b == b;
    } else {
      assert (a + b)[1..] == a[1..] + b;
      SumSplit(a[1..], b);
    }
  }

  /** Slots moved down by `i`; what falls off the front was empty. */
  ghost predicate Shifted(a: seq<Queue>, i: nat, b: seq<Queue>) {
    && |a| == |b| && i <= |a|
    && (forall k {:trigger b[k]} | 0 <= k < |b| :: b[k] == if k + i < |a| then a[k + i] else [])
  }

  lemma SumShift(a: seq<Queue>, i: nat, b: seq<Queue>)
    requires Shifted(a, i, b) && forall k | 0 <= k < i :: a[k] == []
    ensures Count(b) == Count(a) && Bytes(b) == Bytes(a)
  {
    assert a == a[..i] + a[i..];
    assert b == a[i..] + b[|a| - i..];
    SumSplit(a[..i], a[i..]);
    SumSplit(a[i..], b[|a| - i..]);
    SumEmpty(a[..i]);
    SumEmpty(b[|a| - i..]);
  }

  /** Half way through moving slots down: those below `j` are done. */
  ghost predicate Sliding(a: seq<Queue>, i: nat, j: nat, b: seq<Queue>) {
    && |a| == |b| && j <= |a|
    && (forall k | j <= k < |a| :: b[k] == a[k])
    && (forall k {:trigger b[k]} | 0 <= k < j :: b[k] == if k + i < j then a[k + i] else [])
  }

  lemma SlidingStarts(a: seq<Queue>, i: nat)
    requires i < |a| && forall k | 0 <= k <= i :: a[k] == []
    ensures Sliding(a, i, i + 1, a) && Count(a) == Count(a[i + 1..])
  {
    SumSplit(a[..i + 1], a[i + 1..]);
    SumEmpty(a[..i + 1]);
    assert a[..i + 1] + a[i + 1..] == a;
  }

  lemma SlidingStep(a: seq<Queue>, i: nat, j: nat, b: seq<Queue>)
    requires Sliding(a, i, j, b) && 1 <= i < j < |a|
    ensures b[j] == a[j]
    ensures Count(a[j..]) == |a[j]| + Count(a[j + 1..])
    ensures Sliding(a, i, j + 1, b[j - i := b[j - i] + b[j]][j := []])
    ensures b[j] == [] ==> Sliding(a, i, j + 1, b)
  {
    assert a[j..] == [a[j]] + a[j + 1..];
    assert b[j - i] == [] && b[j] == a[j];
  }

  lemma SlidingEnds(a: seq<Queue>, i: nat, j: nat, b: seq<Queue>)
    requires Sliding(a, i, j, b) && i < j <= |a| && forall k | 0 <= k <= i :: a[k] == []
    requires Count(a[j..]) == 0 || forall k | j <= k < |a| :: a[k] == []
    ensures Count(a[j..]) == 0 && Shifted(a, i, b)
  {
    SumEmpty(a[j..]);
    assert forall k | j <= k < |a| :: a[k] == a[j..][k - j];
  }

  /** Slots up to `i` and from `wnd` on are empty. */
  ghost predicate Hollow(b: seq<Queue>, i: nat, wnd: nat) {
    forall k | 0 <= k < |b| :: k <= i || wnd <= k ==> b[k] == []
  }

  // ---- the record ---------------------------------------------------------

  /** What slot `i` holds: the frame numbered base+i, if there is one. */
  function SlotOf(w: Win, i: nat): Queue {
    if w.base + i in w.buf then [w.buf[w.base + i]] else []
  }

  ghost predicate Filled(mq: seq<Queue>, w: Win) {
    |mq| == BAWMAX && forall i | 0 <= i < BAWMAX :: mq[i] == SlotOf(w, i)
  }

  lemma SlotFilled(mq: seq<Queue>, w: Win, n: int)
    requires Filled(mq, w) && WinOk(w) && n in w.buf
    ensures exists i :: 0 <= i < |mq| && mq[i] != []
  {
    var i := n - w.base;
    assert mq[i] == SlotOf(w, i);
  }

  lemma FilledCount(mq: seq<Queue>, w: Win)
    requires Filled(mq, w) && WinOk(w)
    ensures Count(mq) == 0 <==> w.buf == map[]
  {
    SumEmpty(mq);
    if n :| n in w.buf {
      SlotFilled(mq, w, n);
    } else {
      assert forall n :: n !in w.buf;
      assert w.buf == map[];
      forall i | 0 <= i < |mq| ensures mq[i] == [] {
        assert mq[i] == SlotOf(w, i);
      }
    }
  }

  /** Slots below `i` emptied, the others as in `a`. */
  ghost predicate Cleared(a: seq<Queue>, i: nat, b: seq<Queue>) {
    && |a| == |b|
    && (forall k | i <= k < |a| :: b[k] == a[k])
    && (forall k | 0 <= k < i && k < |a| :: b[k] == [])
  }

  lemma ClearOne(a: seq<Queue>, i: nat, b: seq<Queue>)
    requires Cleared(a, i, b) && i < |a|
    ensures Cleared(a, i + 1, b[i := []])
    ensures a[i] == [] ==> Cleared(a, i + 1, b)
  {
  }

  lemma ClearedLess(a: seq<Queue>, i: nat, i': nat, b: seq<Queue>)
    requires Cleared(a, i', b) && i' == i + 1 <= |a| && a[i] == []
    ensures Cleared(a, i, b)
  {
  }

  /** The items of slot `i`, as the next piece of the drained run. */
  function SlotItems(w: Win, i: nat): seq<Item> {
    if w.base + i in w.buf then [Item(w.base + i, w.buf[w.base + i])] else []
  }

  lemma DrainNext(w: Win, lo: int, i: nat, out: seq<Item>)
    requires lo <= w.base + i
    ensures out + Drain(w.buf, lo, w.base + i + 1) == out + Drain(w.buf, lo, w.base + i) + SlotItems(w, i)
  {
    var d := Drain(w.buf, lo, w.base + i);
    assert Drain(w.buf, lo, w.base + i + 1) == d + SlotItems(w, i);
    assert out + (d + SlotItems(w, i)) == out + d + SlotItems(w, i);
  }

  /** Every number from `lo` to before `hi` is buffered. */
  ghost predicate Full(buf: map<int, Frame>, lo: int, hi: int) {
    forall m | lo <= m < hi :: m in buf
  }

  lemma FullNext(buf: map<int, Frame>, lo: int, hi: int, hi': int)
    requires Full(buf, lo, hi) && hi' == hi + 1 && (lo <= hi ==> hi in buf)
    ensures Full(buf, lo, hi')
  {
  }

  lemma DrainGap(w: Win, lo: int, i: nat, i': nat)
    requires lo <= w.base + i && w.base + i !in w.buf && i' == i + 1
    ensures Drain(w.buf, lo, w.base + i') == Drain(w.buf, lo, w.base + i)
  {
  }

  lemma ClearedHollow(a: seq<Queue>, w: Win, i: nat, b: seq<Queue>)
    requires Filled(a, w) && WinOk(w) && Cleared(a, i, b) && w.base + i !in w.buf
    ensures Hollow(b, i, w.wnd)
  {
    forall k | 0 <= k < |b| && (k == i || (i < k && w.wnd <= k)) ensures b[k] == [] {
      assert b[k] == a[k] == SlotOf(w, k);
    }
  }

  lemma FilledShift(a: seq<Queue>, w: Win, i: nat, b: seq<Queue>, c: seq<Queue>, w': Win)
    requires Filled(a, w) && WinOk(w) && Cleared(a, i, b) && Shifted(b, i, c)
    requires w.base + i !in w.buf && w' == w.(base := w.base + i, buf := Keep(w.buf, w.base + i))
    ensures Filled(c, w') && WinOk(w')
  {
  }

  lemma GapIs(buf: map<int, Frame>, t: int, hi: int, g: int)
    requires t <= g <= hi && g !in buf && forall m | t <= m < g :: m in buf
    ensures Gap(buf, t, hi) == g
  {
  }

  /** The window moves one slot count at a time, at most to its far end. */
  function Reach(w: Win, t: int): int {
    if t < w.base + w.wnd then t else w.base + w.wnd
  }

  lemma RunAdvance(w: Win, i: nat)
    requires WinOk(w) && 1 <= i <= w.wnd && w.base + i !in w.buf
    requires Full(w.buf, w.base + 1, w.base + i)
    ensures Advance(w.(base := w.base + 1), w.base + 1)
            == Effect(w.(base := w.base + i, buf := Keep(w.buf, w.base + i)), Drain(w.buf, w.base + 1, w.base + i), false)
  {
    GapIs(w.buf, w.base + 1, w.base + 1 + w.wnd, w.base + i);
  }

  lemma FlushAdvance(w: Win, i: nat, t: int)
    requires WinOk(w) && i <= w.wnd && w.base < t && w.base + i !in w.buf
    requires Full(w.buf, t, w.base + i)
    requires i == w.wnd || t <= w.base + i
    ensures Advance(w, Reach(w, t))
            == Effect(w.(base := w.base + i, buf := Keep(w.buf, w.base + i)), Drain(w.buf, w.base, w.base + i), false)
  {
    GapIs(w.buf, Reach(w, t), w.base + w.wnd, w.base + i);
  }

  /** Once nothing is counted, the rest of the window drains to nothing. */
  lemma DrainedOut(freed: multiset<Frame>, mq: seq<Queue>, w: Win, a: seq<Queue>, i: nat)
    requires Filled(a, w) && WinOk(w) && Cleared(a, i, mq) && i <= w.wnd
    requires Count(mq) == 0 || i == w.wnd
    ensures Drain(w.buf, w.base, w.base + i) == Waiting(w)
    ensures Toss(freed, w.buf, w.base, w.base + i) == Toss(freed, w.buf, w.base, w.base + w.wnd)
    ensures Count(mq) == 0 && Bytes(mq) == 0 && Filled(mq, w.(buf := map[]))
  {
    NoneLeft(mq, w, a, i);
    DrainSplit(w.buf, w.base, w.base + i, w.base + w.wnd);
    DrainNothing(w.buf, w.base + i, w.base + w.wnd);
    TossNothing(freed, w.buf, w.base, w.base + i, w.base + w.wnd);
  }

  /** Nothing is in the slots from `i` on, nor numbered from there on. */
  lemma NoneLeft(mq: seq<Queue>, w: Win, a: seq<Queue>, i: nat)
    requires Filled(a, w) && WinOk(w) && Cleared(a, i, mq) && i <= w.wnd
    requires Count(mq) == 0 || i == w.wnd
    ensures forall n | w.base + i <= n < w.base + w.wnd :: n !in w.buf
    ensures Count(mq) == 0 && Bytes(mq) == 0 && Filled(mq, w.(buf := map[]))
  {
    SumEmpty(mq);
    forall n | w.base + i <= n < w.base + w.wnd ensures n !in w.buf {
      assert a[n - w.base] == SlotOf(w, n - w.base) && mq[n - w.base] == a[n - w.base];
    }
    forall k | i <= k < BAWMAX ensures mq[k] == [] {
      assert a[k] == SlotOf(w, k);
    }
  }

  lemma {:induction false} TossNothing(freed: multiset<Frame>, buf: map<int, Frame>, lo: int, mid: int, hi: int)
    requires lo <= mid <= hi && forall n | mid <= n < hi :: n !in buf
    ensures Toss(freed, buf, lo, hi) == Toss(freed, buf, lo, mid)
    decreases hi - mid
  {
    if mid < hi {
      TossNothing(freed, buf, lo, mid, hi - 1);
    }
  }

  lemma EmptyAdvance(w: Win)
    requires w.buf == map[]
    ensures Advance(w.(base := w.base + 1), w.base + 1) == Effect(w.(base := w.base + 1), [], false)
  {
  }

  /** What remains to slide once a window move has begun. */
  ghost predicate Leaves(w: Win, n: int, moved: Effect) {
    && w.base < moved.win.base <= n
    && moved.win.base <= w.base + w.wnd
    && WinOk(moved.win) && moved.win.wnd == w.wnd && moved.win.age == w.age
    && Slide(w, n).win == Slide(moved.win, n).win
    && Slide(w, n).out == moved.out + Slide(moved.win, n).out
  }

  /** One trip round the window-move loop leaves the rest of the slide to do. */
  lemma SlideStep(w: Win, n: int)
    requires WinOk(w) && 1 <= w.wnd && w.base + w.wnd <= n
    ensures Leaves(w, n, Advance(w, Reach(w, n - w.wnd + 1)))
  {
    var t := n - w.wnd + 1;
    if t < w.base + w.wnd {
      SlideNear(w, n, t);
    } else {
      SlideFar(w, n, t);
    }
  }

  lemma SlideNear(w: Win, n: int, t: int)
    requires WinOk(w) && w.base < t < w.base + w.wnd && t == n - w.wnd + 1
    ensures Leaves(w, n, Advance(w, t))
  {
    var moved := Advance(w, t);
    assert moved == Slide(w, n);
    assert moved.out + [] == moved.out;
  }

  lemma SlideFar(w: Win, n: int, t: int)
    requires WinOk(w) && 1 <= w.wnd && w.base + w.wnd <= t && t == n - w.wnd + 1
    ensures Leaves(w, n, Advance(w, w.base + w.wnd))
  {
    var moved := Advance(w, w.base + w.wnd);
    FarAdvance(w, t);
    assert moved.win.buf == map[];
    DrainNothing(moved.win.buf, moved.win.base, t);
    assert moved.out + [] == moved.out;
  }

  /** A target past the window: everything goes up and nothing is left. */
  lemma FarAdvance(w: Win, t: int)
    requires WinOk(w) && w.base + w.wnd <= t
    ensures Advance(w, t) == Effect(w.(base := t, buf := map[]), Waiting(w), false)
    ensures Advance(w, w.base + w.wnd) == Effect(w.(base := w.base + w.wnd, buf := map[]), Waiting(w), false)
  {
    DrainSplit(w.buf, w.base, w.base + w.wnd, t);
    DrainNothing(w.buf, w.base + w.wnd, t);
    assert Keep(w.buf, t) == map[] && Keep(w.buf, w.base + w.wnd) == map[];
  }

  lemma Regroup(a: seq<Item>, b: seq<Item>, c: seq<Item>)
    ensures a + (b + c) == a + b + c
  {
  }

  /** Sliding from `w` to admit `n` has got as far as `v`, having delivered up to `out'`. */
  ghost predicate Slides(w: Win, out: seq<Item>, v: Win, out': seq<Item>, n: int) {
    && Slide(w, n).win == Slide(v, n).win
    && out + Slide(w, n).out == out' + Slide(v, n).out
  }

  lemma StepSlides(w: Win, out: seq<Item>, moved: Effect, n: int)
    requires WinOk(w) && 1 <= w.wnd && w.base + w.wnd <= n && moved == Advance(w, Reach(w, n - w.wnd + 1))
    ensures w.base < moved.win.base <= n && moved.win.base <= w.base + w.wnd
    ensures Slides(w, out, moved.win, out + moved.out, n)
  {
    SlideStep(w, n);
    Regroup(out, moved.out, Slide(moved.win, n).out);
  }

  lemma AcceptIs(s: Session, t: Session, n: int, f: Frame, now: int, limit: int)
    requires Slides(s.win, s.out, t.win, t.out, n) && n < t.win.base + t.win.wnd
    requires t == s.(win := t.win, out := t.out)
    ensures Apply(s, f, Accept(s.win, n, f, now, limit)) == Apply(t, f, Place(t.win, n, f, now, limit))
  {
    var placed := Place(t.win, n, f, now, limit);
    assert t.out + [] == t.out;
    Regroup(s.out, Slide(s.win, n).out, placed.out);
  }

  lemma FirstPlace(s: Session, f: Frame, now: int, limit: int)
    ensures var n := s.win.base;
            var moved := Advance(s.win.(base := n + 1), n + 1);
            && Apply(s, f, Place(s.win, n, f, now, limit))
               == s.(win := moved.win, out := s.out + ([Item(n, f)] + moved.out))
            && (moved.out == [] ==> [Item(n, f)] + moved.out == [Item(n, f)])
  {
  }

  lemma NumberedReceive(s: Session, f: Frame, now: int, limit: int)
    requires Ok(s) && ReorderSpec.Numbered(s, f) && f.seqctl < 0x10000
    ensures var n := NumberOf(s.win, f);
            var s1 := Settle(s, n);
            && n == Lift(s.win.base, f.seqctl / 16) && (s.waitrx ==> n == Lift(n, f.seqctl / 16))
            && Receive(s, f, now, limit)
               == (if n - s1.win.base < SEQ_BA_RANGE then Apply(s1, f, Accept(s1.win, n, f, now, limit))
                   else s1.(tossed := s1.tossed + multiset{f}))
            && Ok(Receive(s, f, now, limit))
  {
    NextOk(s, Data(f, now), limit);
    LiftIsFaithful(s.win.base, f.seqctl / 16);
  }

  lemma NothingFilled(mq: seq<Queue>, w: Win)
    requires |mq| == BAWMAX && w.buf == map[] && forall i | 0 <= i < BAWMAX :: mq[i] == []
    ensures Filled(mq, w) && (WinOk(w) <==> w.wnd <= BAWMAX)
  {
  }

  /** 16 bits are a sequence number exactly when they are the low 12. */
  lemma StartWraps(first: int, start: nat, low: nat)
    requires start == first % 0x1_0000 && low == first % SEQ_RANGE
    ensures start < SEQ_RANGE <==> start == low
  {
    if start < SEQ_RANGE {
      DivMod.Unique(first, SEQ_RANGE, 16 * (first / 0x1_0000), start);
    }
  }

  /** Deliveries went on from `out` to `out'`, and what was handed up here with them. */
  ghost predicate Alike(out: seq<Item>, out': seq<Item>, up: seq<Item>, up': seq<Item>) {
    out <= out' && up' == up + out'[|out|..]
  }

  /** The same, but for the last, which is left to the caller exactly if it is to process it. */
  ghost predicate Handed(out: seq<Item>, out': seq<Item>, up: seq<Item>, up': seq<Item>, r: Verdict, it: Item) {
    if r.Process? then |out| < |out'| && out'[|out'| - 1] == it && Alike(out, out'[..|out'| - 1], up, up')
    else Alike(out, out', up, up')
  }

  lemma AlikeBy(out: seq<Item>, up: seq<Item>, d: seq<Item>)
    ensures Alike(out, out + d, up, up + d)
  {
  }

  lemma AlikeOn(a: seq<Item>, b: seq<Item>, c: seq<Item>, u: seq<Item>, v: seq<Item>, w: seq<Item>)
    requires Alike(a, b, u, v) && Alike(b, c, v, w)
    ensures Alike(a, c, u, w)
  {
    assert c[|a|..] == b[|a|..] + c[|b|..];
    assert u + (b[|a|..] + c[|b|..]) == u + b[|a|..] + c[|b|..];
  }

  lemma HandedOn(a: seq<Item>, b: seq<Item>, c: seq<Item>, u: seq<Item>, v: seq<Item>, w: seq<Item>, r: Verdict, it: Item)
    requires Alike(a, b, u, v) && Handed(b, c, v, w, r, it)
    ensures Handed(a, c, u, w, r, it)
  {
    AlikeOn(a, b, if r.Process? then c[..|c| - 1] else c, u, v, w);
  }

  /** All but the last handed up here. */
  lemma HandedBut(out: seq<Item>, up: seq<Item>, d: seq<Item>, it: Item)
    ensures Handed(out, out + (d + [it]), up, up + d, Process, it)
  {
    assert (out + (d + [it]))[..|out + d|] == out + d;
    AlikeBy(out, up, d);
  }

  lemma BarIs(s: Session, seqno: nat, n: int)
    requires Ok(s) && s.running && seqno < SEQ_RANGE && n == Lift(s.win.base, seqno)
    requires s.win.base < n < s.win.base + SEQ_BA_RANGE
    ensures var moved := Advance(s.win, n);
            var t := s.(win := moved.win, out := s.out + moved.out);
            ReorderSpec.RecvBar(s, seqno) == t && Ok(t)
  {
    NextOk(s, Bar(seqno), 0);
  }

  class RxAmpdu {
    var running: bool
    var xchgpend: bool
    var waitrx: bool
    var start: nat
    var wnd: nat
    var qframes: int
    var qbytes: int
    var age: int
    const mq: array<Queue>
    const ampduAge: int

    /** The abstract record, and the log of what was delivered, freed and bypassed. */
    ghost var s: Session

    /** What was handed to the input path here, and not by the caller. */
    ghost var up: seq<Item>

    ghost predicate Counted()
      reads this, mq
    {
      mq.Length == BAWMAX && qframes == Count(mq[..]) && qbytes == Bytes(mq[..])
    }

    /** The queues and counters represent window `s.win`. */
    ghost predicate Holds()
      reads this, mq
    {
      && Counted() && Filled(mq[..], s.win) && WinOk(s.win)
      && start == s.win.base % SEQ_RANGE && wnd == s.win.wnd && age == s.win.age
    }

    ghost predicate Valid()
      reads this, mq
    {
      && Holds() && Ok(s)
      && running == xchgpend == s.running && waitrx == s.waitrx
    }

    constructor (ampduAge: int)
      ensures Valid() && s == Fresh && up == [] && fresh(mq) && this.ampduAge == ampduAge
    {
      this.ampduAge := ampduAge;
      running, xchgpend, waitrx, start, wnd, qframes, qbytes, age := false, false, false, 0, 0, 0, 0, 0;
      mq := new Queue[BAWMAX](_ => []);
      s, up := Fresh, [];
      new;
      SumEmpty(mq[..]);
    }

    /** Hands a frame to the input path (`ampdu_dispatch`). */
    method Dispatch(m: Frame, ghost n: int)
      modifies this`up
      ensures up == old(up) + [Item(n, m)]
    {
      up := up + [Item(n, m)];
    }

    /** Pop slot `i`, handing its frame to the input path. */
    method DispatchSlot(i: nat) returns (n: nat)
      requires Counted() && i < BAWMAX && |mq[i]| <= 1
      modifies this`qframes, this`qbytes, this`s, this`up, mq
      ensures Counted() && n == |old(mq[i])|
      ensures mq[..] == old(mq[..])[i := []]
      ensures var d := if old(mq[i]) == [] then [] else [Item(old(s.win.base) + i, old(mq[i])[0])];
              s == old(s).(out := old(s.out) + d) && up == old(up) + d
    {
      n := 0;
      while mq[i] != []
        invariant Counted() && |mq[i]| <= 1 && n + |mq[i]| == |old(mq[i])|
        invariant mq[..] == old(mq[..])[i := mq[i]]
        invariant mq[i] != [] ==> mq[i] == old(mq[i]) && s == old(s) && up == old(up)
        invariant mq[i] == [] && old(mq[i]) != [] ==>
          var d := [Item(old(s.win.base) + i, old(mq[i])[0])];
          s == old(s).(out := old(s.out) + d) && up == old(up) + d
        invariant old(mq[i]) == [] ==> s == old(s) && up == old(up)
        decreases |mq[i]|
      {
        SumUpdate(mq[..], i, mq[i][1..]);
        var m := mq[i][0];
        mq[i] := mq[i][1..];
        n := n + 1;
        qbytes := qbytes - m.len;
        qframes := qframes - 1;
        Dispatch(m, s.win.base + i);
        s := s.(out := s.out + [Item(s.win.base + i, m)]);
      }
    }

    /** Move slot `j` down by `i`; `n` counts the frames from it on. */
    method ShiftSlot(i: nat, j: nat, j': nat, n: int, ghost a: seq<Queue>) returns (n': int)
      requires mq.Length == BAWMAX && 1 <= i < j < BAWMAX && j' == j + 1
      requires Sliding(a, i, j, mq[..]) && n == Count(a[j..])
      modifies mq
      ensures Sliding(a, i, j', mq[..]) && n' == Count(a[j'..])
    {
      ghost var b := mq[..];
      SlidingStep(a, i, j, b);
      n' := n;
      if |mq[j]| != 0 {
        n' := n - |mq[j]|;
        mq[j - i], mq[j] := mq[j - i] + mq[j], [];
        assert mq[..] == b[j - i := b[j - i] + b[j]][j := []];
        assert n' >= 0;
      }
    }

    /** Move what remains down by `i` slots. */
    method MoveUp(i: nat)
      requires Counted() && wnd <= BAWMAX && 1 <= i <= BAWMAX
      requires Hollow(mq[..], i, wnd)
      modifies mq
      ensures Counted() && Shifted(old(mq[..]), i, mq[..])
    {
      ghost var a := mq[..];
      SumEmpty(a);
      if qframes != 0 {
        var n := qframes;
        SlidingStarts(a, i);
        var j := i + 1;
        while j < wnd
          invariant i + 1 <= j <= wnd
          invariant n == Count(a[j..]) && Sliding(a, i, j, mq[..])
        {
          var here := |mq[j]|;
          n := ShiftSlot(i, j, j + 1, n, a);
          j := j + 1;
          if here != 0 && n == 0 {
            break;
          }
        }
        SlidingEnds(a, i, j, mq[..]);
        assert n == 0;
      }
      SumShift(a, i, mq[..]);
    }

    /** Since `s0` and `up0` nothing happened but that `d` was handed up. */
    ghost predicate Delivered(s0: Session, up0: seq<Item>, d: seq<Item>)
      reads this
    {
      s == s0.(out := s0.out + d) && up == up0 + d
    }

    /** Pop slot `i` of a buffer that represents window `w` from slot `i` on. */
    method DispatchNext(i: nat, i': nat, ghost w: Win, ghost a: seq<Queue>, ghost lo: int, ghost s0: Session, ghost up0: seq<Item>)
      returns (n: nat)
      requires Counted() && i < BAWMAX && i' == i + 1 && Filled(a, w) && Cleared(a, i, mq[..]) && s.win == w
      requires lo <= w.base + i && Delivered(s0, up0, Drain(w.buf, lo, w.base + i))
      modifies this`qframes, this`qbytes, this`s, this`up, mq
      ensures Counted() && Cleared(a, i', mq[..]) && s.win == w
      ensures n == 0 <==> w.base + i !in w.buf
      ensures Delivered(s0, up0, Drain(w.buf, lo, w.base + i'))
    {
      assert mq[i] == SlotOf(w, i);
      ClearOne(a, i, mq[..]);
      DrainNext(w, lo, i, s0.out);
      DrainNext(w, lo, i, up0);
      n := DispatchSlot(i);
    }

    /** Move the slots from `i` on to the front: they represent the window moved by `i`. */
    method MoveUpTo(i: nat, ghost w: Win, ghost a: seq<Queue>, ghost w': Win)
      requires Counted() && Filled(a, w) && WinOk(w) && Cleared(a, i, mq[..])
      requires 1 <= i <= wnd && wnd == w.wnd && w.base + i !in w.buf
      requires w' == w.(base := w.base + i, buf := Keep(w.buf, w.base + i))
      modifies mq
      ensures Counted() && Filled(mq[..], w') && WinOk(w')
    {
      ghost var b := mq[..];
      ClearedHollow(a, w, i, b);
      MoveUp(i);
      FilledShift(a, w, i, b, mq[..], w');
    }

    /** Slots below `i` are empty and so is slot `i`: move the window by `i`. */
    method Slip(i: nat, newstart: nat, ghost w: Win, ghost a: seq<Queue>)
      requires Counted() && Filled(a, w) && WinOk(w) && Cleared(a, i, mq[..])
      requires 1 <= i <= wnd && wnd == w.wnd && age == w.age && w.base + i !in w.buf
      requires newstart == (w.base + i) % SEQ_RANGE
      modifies this`start, this`s, mq
      ensures Holds()
      ensures s == old(s).(win := w.(base := w.base + i, buf := Keep(w.buf, w.base + i)))
    {
      ghost var w' := w.(base := w.base + i, buf := Keep(w.buf, w.base + i));
      MoveUpTo(i, w, a, w');
      start := newstart;
      s := s.(win := w');
    }

    /** Hand up the run of frames that starts at slot 1; `i` is where it ends. */
    method DispatchRun(ghost w: Win, ghost a: seq<Queue>) returns (i: nat)
      requires Holds() && 1 <= wnd && w == s.win && a == mq[..]
      modifies this`qframes, this`qbytes, this`s, this`up, mq
      ensures Counted() && 1 <= i <= wnd && Cleared(a, i, mq[..]) && w.base + i !in w.buf
      ensures Full(w.buf, w.base + 1, w.base + i)
      ensures Delivered(old(s), old(up), Drain(w.buf, w.base + 1, w.base + i))
    {
      i := 1;
      ghost var s0, up0 := s, up;
      assert Drain(w.buf, w.base + 1, w.base + 1) == [] && a[0] == SlotOf(w, 0);
      while i < wnd
        invariant 1 <= i <= wnd == w.wnd && Counted() && Cleared(a, i, mq[..])
        invariant Delivered(s0, up0, Drain(w.buf, w.base + 1, w.base + i))
        invariant Full(w.buf, w.base + 1, w.base + i)
      {
        var i' := i + 1;
        var r := DispatchNext(i, i', w, a, w.base + 1, s0, up0);
        if r == 0 {
          DrainGap(w, w.base + 1, i, i');
          ClearedLess(a, i, i', mq[..]);
          break;
        }
        FullNext(w.buf, w.base + 1, w.base + i, w.base + i');
        i := i';
      }
    }

    /** Hand up that run, slot 0's frame having gone up already, and move the
        window past it. */
    method RxDispatch()
      requires Holds() && 1 <= wnd
      modifies this`qframes, this`qbytes, this`start, this`s, this`up, mq
      ensures Holds()
      ensures var w := old(s.win);
              var moved := Advance(w.(base := w.base + 1), w.base + 1);
              s == old(s).(win := moved.win, out := old(s.out) + moved.out) && up == old(up) + moved.out
    {
      ghost var w, a := s.win, mq[..];
      var i := DispatchRun(w, a);
      RunAdvance(w, i);
      AddLifts(w.base, i);
      Slip(i, SeqAdd(start, i), w, a);
    }

    /** Hand up slot `i`, or stop at a gap that is not before `winstart`. */
    method FlushSlot(i: nat, i': nat, seqno: nat, winstart: nat, ghost w: Win, ghost a: seq<Queue>, ghost t: int,
                     ghost s0: Session, ghost up0: seq<Item>)
      returns (more: bool)
      requires Counted() && i < BAWMAX && i' == i + 1 && Filled(a, w) && Cleared(a, i, mq[..]) && s.win == w
      requires w.base < t < w.base + SEQ_BA_RANGE && seqno == (w.base + i) % SEQ_RANGE && winstart == t % SEQ_RANGE
      requires Delivered(s0, up0, Drain(w.buf, w.base, w.base + i)) && Full(w.buf, t, w.base + i)
      modifies this`qframes, this`qbytes, this`s, this`up, mq
      ensures Counted() && s.win == w
      ensures !more ==> w.base + i !in w.buf && t <= w.base + i && Cleared(a, i, mq[..])
                        && Delivered(s0, up0, Drain(w.buf, w.base, w.base + i))
      ensures more ==> Cleared(a, i', mq[..]) && Full(w.buf, t, w.base + i')
                       && Delivered(s0, up0, Drain(w.buf, w.base, w.base + i'))
    {
      BeforeLifts(w.base + i, t);
      assert mq[i] == SlotOf(w, i);
      ClearOne(a, i, mq[..]);
      more := true;
      if |mq[i]| != 0 {
        var r := DispatchNext(i, i', w, a, w.base, s0, up0);
      } else if !BaBefore(seqno, winstart) {
        more := false;
      } else {
        DrainGap(w, w.base, i, i');
      }
    }

    /** Hand up everything before `winstart`, then the run found there, and
        move the window: to the first gap, or to its own far end. */
    method FlushUpto(winstart: nat, ghost t: int)
      requires Holds() && 1 <= wnd
      requires s.win.base < t < s.win.base + SEQ_BA_RANGE && winstart == t % SEQ_RANGE
      modifies this`qframes, this`qbytes, this`start, this`s, this`up, mq
      ensures Holds()
      ensures var moved := Advance(old(s.win), Reach(old(s.win), t));
              s == old(s).(win := moved.win, out := old(s.out) + moved.out) && up == old(up) + moved.out
    {
      ghost var w, a := s.win, mq[..];
      var seqno := start;
      var i := 0;
      assert Drain(w.buf, w.base, w.base) == [] && Cleared(a, 0, a);
      while i < wnd
        invariant 0 <= i <= wnd == w.wnd && Counted() && Cleared(a, i, mq[..]) && s.win == w
        invariant seqno == (w.base + i) % SEQ_RANGE
        invariant Delivered(old(s), old(up), Drain(w.buf, w.base, w.base + i)) && Full(w.buf, t, w.base + i)
      {
        var i' := i + 1;
        var more := FlushSlot(i, i', seqno, winstart, w, a, t, old(s), old(up));
        if !more {
          break;
        }
        AddLifts(w.base + i, 1);
        seqno := SeqInc(seqno);
        i := i';
      }
      FlushAdvance(w, i, t);
      Slip(i, seqno, w, a);
    }

    /** Hand up every buffered frame, leaving the window where it is. */
    method FlushAll()
      requires Holds()
      modifies this`qframes, this`qbytes, this`s, this`up, mq
      ensures Holds() && s == Flush(old(s)) && up == old(up) + Waiting(old(s.win)) && qframes == 0
    {
      ghost var w, a := s.win, mq[..];
      assert Drain(w.buf, w.base, w.base) == [] && Cleared(a, 0, a);
      var i := 0;
      while i < wnd
        invariant 0 <= i <= wnd == w.wnd && Counted() && Cleared(a, i, mq[..])
        invariant Delivered(old(s), old(up), Drain(w.buf, w.base, w.base + i))
      {
        var r := DispatchNext(i, i + 1, w, a, w.base, old(s), old(up));
        i := i + 1;
        if r != 0 && qframes == 0 {
          break;
        }
      }
      DrainedOut(s.tossed, mq[..], w, a, i);
      s := s.(win := w.(buf := map[]));
    }

    /** Free the frame of slot `i`. */
    method PurgeSlot(i: nat)
      requires Counted() && i < BAWMAX && |mq[i]| <= 1
      modifies this`qframes, this`qbytes, this`s, mq
      ensures Counted() && mq[..] == old(mq[..])[i := []]
      ensures s == old(s).(tossed := if old(mq[i]) == [] then old(s.tossed) else old(s.tossed) + multiset{old(mq[i])[0]})
    {
      while mq[i] != []
        invariant Counted() && |mq[i]| <= 1
        invariant mq[..] == old(mq[..])[i := mq[i]]
        invariant mq[i] != [] ==> mq[i] == old(mq[i]) && s == old(s)
        invariant mq[i] == [] && old(mq[i]) != [] ==> s == old(s).(tossed := old(s.tossed) + multiset{old(mq[i])[0]})
        invariant old(mq[i]) == [] ==> s == old(s)
        decreases |mq[i]|
      {
        SumUpdate(mq[..], i, mq[i][1..]);
        var m := mq[i][0];
        mq[i] := mq[i][1..];
        qbytes := qbytes - m.len;
        qframes := qframes - 1;
        s := s.(tossed := s.tossed + multiset{m});
      }
    }

    /** Free slot `i` of a buffer that represents window `w` from slot `i` on. */
    method PurgeNext(i: nat, ghost w: Win, ghost a: seq<Queue>, ghost tossed: multiset<Frame>)
      requires Counted() && i < BAWMAX && Filled(a, w) && Cleared(a, i, mq[..])
      requires s.tossed == Toss(tossed, w.buf, w.base, w.base + i)
      modifies this`qframes, this`qbytes, this`s, mq
      ensures Counted() && Cleared(a, i + 1, mq[..])
      ensures s == old(s).(tossed := Toss(tossed, w.buf, w.base, w.base + i + 1))
    {
      assert mq[i] == SlotOf(w, i);
      ClearOne(a, i, mq[..]);
      PurgeSlot(i);
    }

    /** Free slots until nothing is counted any more. */
    method PurgeSlots(ghost w: Win, ghost a: seq<Queue>) returns (i: nat)
      requires Counted() && Filled(a, w) && mq[..] == a && wnd == w.wnd <= BAWMAX
      modifies this`qframes, this`qbytes, this`s, mq
      ensures Counted() && i <= wnd && Cleared(a, i, mq[..]) && (qframes == 0 || i == wnd)
      ensures s == old(s).(tossed := Toss(old(s.tossed), w.buf, w.base, w.base + i))
    {
      i := 0;
      while i < wnd
        invariant 0 <= i <= wnd && Counted() && Cleared(a, i, mq[..])
        invariant s == old(s).(tossed := Toss(old(s.tossed), w.buf, w.base, w.base + i))
      {
        PurgeNext(i, w, a, old(s.tossed));
        i := i + 1;
        if qframes == 0 {
          break;
        }
      }
    }

    /** Free every buffered frame; the counters must come out at zero. */
    method PurgeAll()
      requires Holds()
      modifies this`qframes, this`qbytes, this`s, mq
      ensures Holds() && s == Purge(old(s)) && qframes == 0 && qbytes == 0
    {
      ghost var a := mq[..];
      var i := PurgeSlots(s.win, a);
      DrainedOut(old(s.tossed), mq[..], s.win, a, i);
      assert qbytes == 0 && qframes == 0;
      s := s.(win := s.win.(buf := map[]));
    }

    /** Store a frame, or free it when its slot is taken. */
    method AddSlot(off: nat, f: Frame)
      requires Holds() && 0 < off < wnd
      modifies this`qframes, this`qbytes, this`s, mq
      ensures Holds()
      ensures var n := old(s.win.base) + off;
              s == if n in old(s.win.buf) then old(s).(tossed := old(s.tossed) + multiset{f})
                   else old(s).(win := old(s.win).(buf := old(s.win.buf)[n := f]))
    {
      assert mq[off] == SlotOf(s.win, off);
      if mq[off] == [] {
        SumUpdate(mq[..], off, [f]);
        assert QueueBytes([f]) == f.len;
        mq[off] := [f];
        qframes := qframes + 1;
        qbytes := qbytes + f.len;
        s := s.(win := s.win.(buf := s.win.buf[s.win.base + off := f]));
      } else {
        s := s.(tossed := s.tossed + multiset{f});
      }
    }

    /** The frame at the window start and what it completes. */
    method FirstAndRest(f: Frame)
      requires Holds() && 1 <= wnd
      modifies this`start, this`qframes, this`qbytes, this`s, this`up, mq
      ensures Holds()
      ensures var w := old(s.win);
              var moved := Advance(w.(base := w.base + 1), w.base + 1);
              var d := [Item(w.base, f)] + moved.out;
              s == old(s).(win := moved.win, out := old(s.out) + d) && up == old(up) + d
    {
      ghost var w, first := s.win, [Item(s.win.base, f)];
      ghost var moved := Advance(w.(base := w.base + 1), w.base + 1);
      Dispatch(f, w.base);
      s := s.(out := s.out + first);
      RxDispatch();
      Regroup(old(s.out), first, moved.out);
      Regroup(old(up), first, moved.out);
    }

    /** The frame at the window start: hand up what it completes, or leave the
        frame to the caller when nothing waits behind it. */
    method FirstInWindow(f: Frame, rxseq: nat, ghost now: int) returns (r: Verdict)
      requires Holds() && 1 <= wnd && rxseq == start
      modifies this`start, this`qframes, this`qbytes, this`s, this`up, mq
      ensures Holds()
      ensures s == Apply(old(s), f, Place(old(s.win), old(s.win.base), f, now, ampduAge))
      ensures Handed(old(s.out), s.out, old(up), up, r, Item(old(s.win.base), f))
      ensures r.Process? <==> CallersTurn(old(s.win), old(s.win.base), now, ampduAge)
    {
      ghost var w, out, up0 := s.win, s.out, up;
      FirstPlace(s, f, now, ampduAge);
      FilledCount(mq[..], w);
      if qframes != 0 {
        assert mq[0] == SlotOf(w, 0) == [];
        FirstAndRest(f);
        AlikeBy(out, up0, [Item(w.base, f)] + Advance(w.(base := w.base + 1), w.base + 1).out);
        r := Consumed;
      } else {
        EmptyAdvance(w);
        FirstAlone(f, rxseq);
        r := Process;
      }
    }

    /** The frame at the start of an empty window, left to the caller. */
    method FirstAlone(f: Frame, rxseq: nat)
      requires Holds() && s.win.buf == map[] && rxseq == start
      modifies this`start, this`s
      ensures Holds() && Handed(old(s.out), s.out, up, up, Process, Item(old(s.win.base), f))
      ensures s == old(s).(win := old(s.win).(base := old(s.win.base) + 1), out := old(s.out) + [Item(old(s.win.base), f)])
    {
      ghost var w, out := s.win, s.out;
      AddLifts(w.base, 1);
      HandedBut(out, up, [], Item(w.base, f));
      assert out + ([] + [Item(w.base, f)]) == out + [Item(w.base, f)] && up + [] == up;
      start := SeqInc(rxseq);
      s := s.(win := w.(base := w.base + 1), out := out + [Item(w.base, f)]);
    }

    /** Hand up what waits too long; the frame, left to the caller, is then last. */
    method FlushFor(f: Frame, off: nat, rxseq: nat)
      requires Holds() && 0 < off < wnd && rxseq == (s.win.base + off) % SEQ_RANGE
      modifies this`start, this`qframes, this`qbytes, this`s, this`up, mq
      ensures Holds()
      ensures var w, n := old(s.win), old(s.win.base) + off;
              s == old(s).(win := w.(base := n + 1, buf := map[]), out := old(s.out) + (Waiting(w) + [Item(n, f)]))
              && Handed(old(s.out), s.out, old(up), up, Process, Item(n, f))
    {
      ghost var w, n, out := s.win, s.win.base + off, s.out;
      FlushAll();
      assert out + Waiting(w) + [Item(n, f)] == out + (Waiting(w) + [Item(n, f)]);
      AddLifts(n, 1);
      start := SeqInc(rxseq);
      s := s.(win := s.win.(base := n + 1), out := s.out + [Item(n, f)]);
      HandedBut(out, old(up), Waiting(w), Item(n, f));
    }

    /** A frame past the window start, inside the window: age out what waits
        too long, or store it. */
    method OutOfOrder(f: Frame, off: nat, rxseq: nat, now: int) returns (r: Verdict)
      requires Holds() && 0 < off < wnd && rxseq == (s.win.base + off) % SEQ_RANGE
      modifies this`start, this`qframes, this`qbytes, this`age, this`s, this`up, mq
      ensures Holds()
      ensures var n := old(s.win.base) + off;
              && s == Apply(old(s), f, Place(old(s.win), n, f, now, ampduAge))
              && Handed(old(s.out), s.out, old(up), up, r, Item(n, f))
              && (r.Process? <==> CallersTurn(old(s.win), n, now, ampduAge))
    {
      FilledCount(mq[..], s.win);
      if qframes != 0 {
        if now - age > ampduAge {
          FlushFor(f, off, rxseq);
          return Process;
        }
      } else {
        Begin(now);
      }
      assert s.out + [] == s.out;
      AddSlot(off, f);
      return Consumed;
    }

    /** The buffer's age is counted from its first frame. */
    method Begin(now: int)
      requires Holds()
      modifies this`age, this`s
      ensures Holds() && s == old(s).(win := old(s.win).(age := now))
    {
      age := now;
      s := s.(win := s.win.(age := now));
    }

    /** One trip round the window-move loop. */
    method MoveTowards(rxseq: nat, ghost n: int)
      requires Holds() && 1 <= wnd
      requires s.win.base + s.win.wnd <= n < s.win.base + SEQ_BA_RANGE && rxseq == n % SEQ_RANGE
      modifies this`start, this`qframes, this`qbytes, this`s, this`up, mq
      ensures Holds()
      ensures old(s.win.base) < s.win.base <= n && s.win.base <= old(s.win.base) + wnd
      ensures s == old(s).(win := s.win, out := s.out)
      ensures Slides(old(s.win), old(s.out), s.win, s.out, n) && Alike(old(s.out), s.out, old(up), up)
    {
      SubLifts(n, wnd - 1);
      StepSlides(s.win, s.out, Advance(s.win, Reach(s.win, n - wnd + 1)), n);
      FlushUpto(SeqSub(rxseq, wnd - 1), n - wnd + 1);
    }

    /** A frame inside the window. */
    method InWindow(f: Frame, rxseq: nat, now: int, ghost n: int) returns (r: Verdict)
      requires Holds() && 1 <= wnd
      requires s.win.base <= n < s.win.base + s.win.wnd && rxseq == n % SEQ_RANGE
      modifies this`start, this`qframes, this`qbytes, this`age, this`s, this`up, mq
      ensures Holds()
      ensures s == Apply(old(s), f, Place(old(s.win), n, f, now, ampduAge))
      ensures Handed(old(s.out), s.out, old(up), up, r, Item(n, f))
      ensures r.Process? <==> CallersTurn(old(s.win), n, now, ampduAge)
    {
      LiftOf(s.win.base, n);
      if rxseq == start {
        r := FirstInWindow(f, rxseq, now);
      } else {
        r := OutOfOrder(f, SeqSub(rxseq, start), rxseq, now);
      }
    }

    /** The window-move loop: on exit the frame lies in the window. */
    method MoveWindow(rxseq: nat, ghost n: int)
      requires Holds() && 1 <= wnd
      requires s.win.base <= n < s.win.base + SEQ_BA_RANGE && rxseq == n % SEQ_RANGE
      modifies this`start, this`qframes, this`qbytes, this`s, this`up, mq
      ensures Holds() && s.win.base <= n < s.win.base + s.win.wnd
      ensures s == old(s).(win := s.win, out := s.out)
      ensures Slides(old(s.win), old(s.out), s.win, s.out, n) && Alike(old(s.out), s.out, old(up), up)
    {
      LiftOf(s.win.base, n);
      var off := SeqSub(rxseq, start);
      while off >= wnd
        invariant Holds() && 1 <= wnd && off == n - s.win.base < SEQ_BA_RANGE
        invariant s == old(s).(win := s.win, out := s.out)
        invariant Slides(old(s.win), old(s.out), s.win, s.out, n) && Alike(old(s.out), s.out, old(up), up)
        decreases off
      {
        MoveTowards(rxseq, n);
        LiftOf(s.win.base, n);
        off := SeqSub(rxseq, start);
      }
    }

    /** A numbered frame, `rxseq` its sequence number: within half the sequence
        space past the window start it is placed, otherwise freed. */
    method ReorderNumbered(f: Frame, rxseq: nat, now: int, ghost n: int) returns (r: Verdict)
      requires Holds() && 1 <= wnd && rxseq < SEQ_RANGE && n == Lift(s.win.base, rxseq)
      modifies this`start, this`qframes, this`qbytes, this`age, this`s, this`up, mq
      ensures Holds()
      ensures s == if n - old(s.win.base) < SEQ_BA_RANGE then Apply(old(s), f, Accept(old(s.win), n, f, now, ampduAge))
                   else old(s).(tossed := old(s.tossed) + multiset{f})
      ensures Handed(old(s.out), s.out, old(up), up, r, Item(n, f))
      ensures r.Process? <==> n - old(s.win.base) < SEQ_BA_RANGE && CallersTurn(Slide(old(s.win), n).win, n, now, ampduAge)
    {
      LiftIsFaithful(s.win.base, rxseq);
      if SeqSub(rxseq, start) >= SEQ_BA_RANGE {
        s := s.(tossed := s.tossed + multiset{f});
        return Consumed;
      }
      MoveWindow(rxseq, n);
      AcceptIs(old(s), s, n, f, now, ampduAge);
      ghost var out, up0 := s.out, up;
      r := InWindow(f, rxseq, now, n);
      HandedOn(old(s.out), out, s.out, old(up), up0, up, r, Item(n, f));
    }

    /** A data frame of this TID. `Process` leaves it to the caller, who hands
        it up at once: it then comes last, or bypasses reordering. */
    method Reorder(f: Frame, now: int) returns (r: Verdict)
      requires Valid() && f.seqctl < 0x10000
      modifies this, mq
      ensures Valid() && s == Receive(old(s), f, now, ampduAge)
      ensures r.Process? <==> ForCaller(old(s), f, now, ampduAge)
      ensures if Bypasses(old(s), f) then up == old(up)
              else Handed(old(s.out), s.out, old(up), up, r, Item(NumberOf(old(s.win), f), f))
    {
      if !f.qosData || f.multicast || !xchgpend {
        s := s.(passed := s.passed + multiset{f});
        return Process;
      }
      if f.seqctl % 16 != 0 {
        s := s.(tossed := s.tossed + multiset{f});
        return Consumed;
      }
      r := ReorderWhole(f, now, NumberOf(s.win, f));
    }

    /** A data frame that is numbered and whole. */
    method ReorderWhole(f: Frame, now: int, ghost n: int) returns (r: Verdict)
      requires Valid() && f.seqctl < 0x10000 && Numbered(s, f) && n == NumberOf(s.win, f)
      modifies this, mq
      ensures Valid() && s == Receive(old(s), f, now, ampduAge)
      ensures r.Process? <==> ForCaller(old(s), f, now, ampduAge)
      ensures Handed(old(s.out), s.out, old(up), up, r, Item(n, f))
    {
      NumberedReceive(s, f, now, ampduAge);
      var rxseq := f.seqctl / 16;
      if waitrx {
        SettleAt(rxseq, n);
      }
      r := ReorderNumbered(f, rxseq, now, n);
    }

    /** The first frame of a session that waits for one defines the window start. */
    method SettleAt(rxseq: nat, ghost n: int)
      requires Valid() && waitrx && rxseq < SEQ_RANGE && n == Lift(s.win.base, rxseq)
      modifies this`waitrx, this`start, this`s
      ensures Holds() && !waitrx && s == Settle(old(s), n)
    {
      LiftIsFaithful(s.win.base, rxseq);
      waitrx := false;
      start := rxseq;
      s := s.(waitrx := false, win := s.win.(base := n));
    }

    /** A BAR control frame with starting sequence control `seqctl`. */
    method RecvBar(enabled: bool, seqctl: nat)
      requires Valid() && seqctl < 0x10000
      modifies this, mq
      ensures Valid() && s == if enabled then ReorderSpec.RecvBar(old(s), seqctl / 16) else old(s)
      ensures enabled && s.running && Lift(old(s.win.base), seqctl / 16) - old(s.win.base) < SEQ_BA_RANGE ==>
                Lift(old(s.win.base), seqctl / 16) <= s.win.base
      ensures Alike(old(s.out), s.out, old(up), up)
    {
      if !enabled || !xchgpend {
        return;
      }
      var rxseq := seqctl / 16;
      ghost var n := Lift(s.win.base, rxseq);
      LiftIsFaithful(s.win.base, rxseq);
      if rxseq == start {
        return;
      }
      var off := SeqSub(rxseq, start);
      if off < SEQ_BA_RANGE {
        BarIs(s, rxseq, n);
        MoveTo(rxseq, off, n);
      }
    }

    /** Hand up everything before `n` and move the window there, or past the run found there. */
    method MoveTo(rxseq: nat, off: nat, ghost n: int)
      requires Holds() && 1 <= wnd && rxseq == n % SEQ_RANGE
      requires s.win.base < n < s.win.base + SEQ_BA_RANGE && off == n - s.win.base
      modifies this`start, this`qframes, this`qbytes, this`s, this`up, mq
      ensures Holds() && n <= s.win.base
      ensures var moved := Advance(old(s.win), n);
              s == old(s).(win := moved.win, out := old(s.out) + moved.out)
      ensures Alike(old(s.out), s.out, old(up), up)
    {
      ghost var w := s.win;
      FlushUpto(rxseq, n);
      if off >= wnd {
        FarAdvance(w, n);
        JumpTo(rxseq, n);
      }
    }

    /** Moves the start of an empty window. */
    method JumpTo(rxseq: nat, ghost n: int)
      requires Holds() && s.win.buf == map[] && rxseq == n % SEQ_RANGE
      modifies this`start, this`s
      ensures Holds() && s == old(s).(win := old(s.win).(base := n))
    {
      start := rxseq;
      s := s.(win := s.win.(base := n));
    }

    /** The node's age sweep. */
    method AgeSweep(now: int)
      requires Valid()
      modifies this, mq
      ensures Valid() && s == AgeFlush(old(s), now, ampduAge) && Alike(old(s.out), s.out, old(up), up)
    {
      FilledCount(mq[..], s.win);
      if !xchgpend || qframes == 0 {
        return;
      }
      if now - age > ampduAge {
        FlushAll();
      }
    }

    /** Empty every slot and zero the counters. */
    method Wipe()
      requires mq.Length == BAWMAX
      modifies this`qframes, this`qbytes, this`age, mq
      ensures Counted() && age == 0 && forall i | 0 <= i < BAWMAX :: mq[i] == []
    {
      forall i | 0 <= i < BAWMAX {
        mq[i] := [];
      }
      SumEmpty(mq[..]);
      qframes, qbytes, age := 0, 0, 0;
    }

    /** Purge a running session. */
    method PurgeRunning()
      requires Valid()
      modifies this`qframes, this`qbytes, this`s, mq
      ensures s == Purge(old(s)) && mq.Length == BAWMAX
    {
      if running {
        PurgeAll();
      } else {
        TossNothing(s.tossed, s.win.buf, s.win.base, s.win.base, s.win.base + s.win.wnd);
        assert s == Purge(s);
      }
    }

    /** Set up a session over an emptied record; window and start are stored in
        16 bits. It is sound exactly when the window is 1 to 64 frames and the
        start a sequence number. */
    method Setup(size: int, first: int, wait: bool)
      requires Valid() && (wait ==> first == 0)
      modifies this, mq
      ensures wnd == (if size == 0 || size > BAWMAX then BAWMAX as int else size) % 0x1_0000 && start == first % 0x1_0000
      ensures s == Open(old(s), Window(wnd), first % SEQ_RANGE, wait)
      ensures Valid() <==> 1 <= wnd <= BAWMAX && start < SEQ_RANGE
    {
      PurgeRunning();
      Initialise(size, first, wait);
    }

    method Initialise(size: int, first: int, wait: bool)
      requires mq.Length == BAWMAX && s.mark <= |s.out|
      modifies this, mq
      ensures wnd == (if size == 0 || size > BAWMAX then BAWMAX as int else size) % 0x1_0000 && start == first % 0x1_0000
      ensures s == old(s).(win := Win(first % SEQ_RANGE, Window(wnd), map[], 0), running := true, waitrx := wait,
                           mark := |old(s.out)|)
      ensures Valid() <==> 1 <= wnd <= BAWMAX && start < SEQ_RANGE
    {
      Wipe();
      ghost var low := first % SEQ_RANGE;
      wnd := (if size == 0 then BAWMAX as int else if size < BAWMAX then size else BAWMAX) % 0x1_0000;
      start := first % 0x1_0000;
      waitrx, running, xchgpend := wait, true, true;
      StartWraps(first, start, low);
      OpensOver(wnd, low, wait);
    }

    /** A purged session opened anew. */
    ghost method OpensOver(wnd: nat, base: nat, wait: bool)
      requires mq.Length == BAWMAX && forall i | 0 <= i < BAWMAX :: mq[i] == []
      modifies this`s
      ensures s == old(s).(win := Win(base, Window(wnd), map[], 0), running := true, waitrx := wait, mark := |old(s.out)|)
      ensures Filled(mq[..], s.win) && (wnd == Window(wnd) ==> Ok(s) && WinOk(s.win))
    {
      s := s.(win := Win(base, Window(wnd), map[], 0), running := true, waitrx := wait, mark := |s.out|);
      NothingFilled(mq[..], s.win);
    }

    /** ADDBA: block-ack parameter set and starting sequence control. */
    method Start(baparamset: nat, baseqctl: nat)
      requires Valid()
      modifies this, mq
      ensures Valid() && s == Next(old(s), ReorderSpec.Start(baparamset / 64 % 1024, baseqctl / 16 % SEQ_RANGE), ampduAge)
    {
      Setup(baparamset / 64 % 1024, baseqctl / 16 % SEQ_RANGE, false);
    }

    /** Set up by a driver; sequence -1 means the first frame decides. Nothing is
        checked: the record is sound exactly when what is stored fits. */
    method StartExt(seqno: int, baw: int)
      requires Valid()
      modifies this, mq
      ensures wnd == (if baw == 0 || baw > BAWMAX then BAWMAX as int else baw) % 0x1_0000
      ensures start == (if seqno == -1 then 0 else seqno) % 0x1_0000
      ensures s == Next(old(s), ReorderSpec.StartExt(wnd, seqno), ampduAge)
      ensures Valid() <==> 1 <= wnd <= BAWMAX && start < SEQ_RANGE
    {
      Setup(baw, if seqno == -1 then 0 else seqno, seqno == -1);
    }

    method Stop()
      requires Valid()
      modifies this, mq
      ensures Valid() && s == Close(old(s))
    {
      PurgeAll();
      running, xchgpend, waitrx := false, false, false;
      s := s.(running := false, waitrx := false);
    }
  }
}
