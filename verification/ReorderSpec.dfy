/** Receive reordering of sections 9.10.7.6.2 and 9.10.7.6.3 of IEEE Std
    802.11n-2009, over lifted sequence numbers: the window start is an integer
    and the buffer a map from number to frame. */
module ReorderSpec {
  import opened SeqArith

  const BAWMAX: nat := 64

  datatype Frame = Frame(id: nat, qosData: bool, multicast: bool, seqctl: nat, len: nat)

  /** A frame handed up, with its lifted number. */
  datatype Item = Item(n: int, f: Frame)

  datatype Win = Win(base: int, wnd: nat, buf: map<int, Frame>, age: int)

  /** Everything known of one reordering record: `out` is what went up the
      stack in order, `mark` where the current session's part of it begins,
      `tossed` what was freed and `passed` what bypassed reordering. */
  datatype Session = Session(
    win: Win,
    running: bool,
    waitrx: bool,
    mark: nat,
    out: seq<Item>,
    tossed: multiset<Frame>,
    passed: multiset<Frame>)

  datatype Event =
    | Data(f: Frame, now: int)
    | Bar(seqno: nat)
    | AgeOut(now: int)
    | Start(bufsiz: nat, seqno: nat)
    | StartExt(baw: nat, first: int)
    | Stop

  ghost predicate WinOk(w: Win) {
    && w.wnd <= BAWMAX
    && forall n <- w.buf :: w.base < n < w.base + w.wnd
  }

  ghost predicate Ok(s: Session) {
    && WinOk(s.win)
    && (s.running ==> 1 <= s.win.wnd)
    && (!s.running || s.waitrx ==> s.win.buf == map[])
    && s.mark <= |s.out|
    && (s.waitrx ==> s.mark == |s.out|)
  }

  // ---- one window move ----------------------------------------------------

  /** The first number at or after `t` that is not buffered. */
  function Gap(buf: map<int, Frame>, t: int, hi: int): (g: int)
    ensures t <= g
    ensures t <= hi ==> g <= hi
    ensures forall m | t <= m < g :: m in buf
    ensures g < hi ==> g !in buf
    decreases hi - t
  {
    if t >= hi || t !in buf then t else Gap(buf, t + 1, hi)
  }

  /** The buffered frames numbered lo..hi-1, in order. */
  function Drain(buf: map<int, Frame>, lo: int, hi: int): seq<Item>
    decreases hi - lo
  {
    if lo >= hi then []
    else Drain(buf, lo, hi - 1) + (if hi - 1 in buf then [Item(hi - 1, buf[hi - 1])] else [])
  }

  function Waiting(w: Win): seq<Item> {
    Drain(w.buf, w.base, w.base + w.wnd)
  }

  function Keep(buf: map<int, Frame>, lo: int): map<int, Frame> {
    map n <- buf | lo <= n :: buf[n]
  }

  /** What one frame or window move does: the new window, what it delivers in
      order, and whether the frame that caused it is freed. */
  datatype Effect = Effect(win: Win, out: seq<Item>, freed: bool)

  /** Deliver everything before `t` and then the run that starts at `t`. */
  function Advance(w: Win, t: int): Effect {
    var g := Gap(w.buf, t, w.base + w.wnd);
    Effect(w.(base := g, buf := Keep(w.buf, g)), Drain(w.buf, w.base, g), false)
  }

  /** Make room for number `n`: beyond the window, move it so that `n` is its last entry. */
  function Slide(w: Win, n: int): Effect {
    if n < w.base + w.wnd then Effect(w, [], false) else Advance(w, n - w.wnd + 1)
  }

  predicate Stale(w: Win, now: int, limit: int) {
    w.buf != map[] && now - w.age > limit
  }

  /** A frame numbered `n` inside the window. */
  function Place(w: Win, n: int, f: Frame, now: int, limit: int): Effect {
    if n == w.base then
      var moved := Advance(w.(base := n + 1), n + 1);
      moved.(out := [Item(n, f)] + moved.out)
    else if Stale(w, now, limit) then
      Effect(w.(base := n + 1, buf := map[]), Waiting(w) + [Item(n, f)], false)
    else if n in w.buf then
      Effect(w, [], true)
    else
      Effect(w.(buf := w.buf[n := f], age := if w.buf == map[] then now else w.age), [], false)
  }

  /** A frame numbered `n`, less than half the sequence space past the window start. */
  function Accept(w: Win, n: int, f: Frame, now: int, limit: int): Effect {
    var slid := Slide(w, n);
    var placed := Place(slid.win, n, f, now, limit);
    placed.(out := slid.out + placed.out)
  }

  // ---- one event ----------------------------------------------------------

  /** Add the frames numbered lo..hi-1 to those freed before. */
  function Toss(freed: multiset<Frame>, buf: map<int, Frame>, lo: int, hi: int): multiset<Frame>
    decreases hi - lo
  {
    if lo >= hi then freed
    else if hi - 1 in buf then Toss(freed, buf, lo, hi - 1) + multiset{buf[hi - 1]}
    else Toss(freed, buf, lo, hi - 1)
  }

  /** The number a sequence-control field stands for. */
  function NumberOf(w: Win, f: Frame): int {
    Lift(w.base, f.seqctl / 16 % SEQ_RANGE)
  }

  predicate Numbered(s: Session, f: Frame) {
    f.qosData && !f.multicast && s.running && f.seqctl % 16 == 0
  }

  /** The first frame of a session that waits for one defines the window start. */
  function Settle(s: Session, n: int): Session {
    if s.waitrx then s.(waitrx := false, win := s.win.(base := n)) else s
  }

  function Apply(s: Session, f: Frame, e: Effect): Session {
    s.(win := e.win, out := s.out + e.out, tossed := if e.freed then s.tossed + multiset{f} else s.tossed)
  }

  function Receive(s: Session, f: Frame, now: int, limit: int): Session {
    if !f.qosData || f.multicast || !s.running then
      s.(passed := s.passed + multiset{f})
    else if f.seqctl % 16 != 0 then
      s.(tossed := s.tossed + multiset{f})
    else
      var n := NumberOf(s.win, f);
      var s1 := Settle(s, n);
      if n - s1.win.base < SEQ_BA_RANGE then Apply(s1, f, Accept(s1.win, n, f, now, limit))
      else s1.(tossed := s1.tossed + multiset{f})
  }

  /** A data frame that reordering does not touch. */
  predicate Bypasses(s: Session, f: Frame) {
    !f.qosData || f.multicast || !s.running
  }

  /** Whether a frame numbered `n` inside the window is left to the caller to
      hand up: it is next and nothing waits, or what waits has waited too long. */
  predicate CallersTurn(w: Win, n: int, now: int, limit: int) {
    if n == w.base then w.buf == map[] else Stale(w, now, limit)
  }

  /** Whether the caller is to process a data frame. */
  predicate ForCaller(s: Session, f: Frame, now: int, limit: int) {
    || Bypasses(s, f)
    || (&& Numbered(s, f)
        && var n := NumberOf(s.win, f);
        var w := Settle(s, n).win;
        n - w.base < SEQ_BA_RANGE && CallersTurn(Slide(w, n).win, n, now, limit))
  }

  function RecvBar(s: Session, seqno: nat): Session {
    var n := Lift(s.win.base, seqno % SEQ_RANGE);
    if !s.running || n == s.win.base || n - s.win.base >= SEQ_BA_RANGE then s
    else
      var moved := Advance(s.win, n);
      s.(win := moved.win, out := s.out + moved.out)
  }

  function Flush(s: Session): Session {
    s.(win := s.win.(buf := map[]), out := s.out + Waiting(s.win))
  }

  function AgeFlush(s: Session, now: int, limit: int): Session {
    if s.running && Stale(s.win, now, limit) then Flush(s) else s
  }

  /** Free whatever is buffered. */
  function Purge(s: Session): Session {
    s.(win := s.win.(buf := map[]),
       tossed := Toss(s.tossed, s.win.buf, s.win.base, s.win.base + s.win.wnd))
  }

  function Open(s: Session, wnd: nat, base: int, waitrx: bool): Session {
    Purge(s).(win := Win(base, wnd, map[], 0), running := true, waitrx := waitrx, mark := |s.out|)
  }

  function Window(size: nat): nat {
    if size == 0 || size > BAWMAX then BAWMAX else size
  }

  function Close(s: Session): Session {
    Purge(s).(running := false, waitrx := false)
  }

  function Next(s: Session, e: Event, limit: int): Session {
    match e
    case Data(f, now) => Receive(s, f, now, limit)
    case Bar(seqno) => RecvBar(s, seqno)
    case AgeOut(now) => AgeFlush(s, now, limit)
    case Start(bufsiz, seqno) => Open(s, Window(bufsiz), seqno % SEQ_RANGE, false)
    case StartExt(baw, first) =>
      if first == -1 then Open(s, Window(baw), 0, true) else Open(s, Window(baw), first % SEQ_RANGE, false)
    case Stop => Close(s)
  }

  function Run(s: Session, es: seq<Event>, limit: int): Session {
    if es == [] then s else Next(Run(s, es[..|es| - 1], limit), es[|es| - 1], limit)
  }

  const Fresh: Session := Session(Win(0, 0, map[], 0), false, false, 0, [], multiset{}, multiset{})

  // ---- what the pieces do -------------------------------------------------

  lemma {:induction false} DrainItems(buf: map<int, Frame>, lo: int, hi: int)
    ensures forall i | 0 <= i < |Drain(buf, lo, hi)| ::
      var it := Drain(buf, lo, hi)[i]; lo <= it.n < hi && it.n in buf && it.f == buf[it.n]
    ensures forall i, j | 0 <= i < j < |Drain(buf, lo, hi)| ::
      Drain(buf, lo, hi)[i].n < Drain(buf, lo, hi)[j].n
    decreases hi - lo
  {
    if lo < hi {
      DrainItems(buf, lo, hi - 1);
    }
  }

  lemma {:induction false} DrainSplit(buf: map<int, Frame>, lo: int, mid: int, hi: int)
    requires lo <= mid <= hi
    ensures Drain(buf, lo, hi) == Drain(buf, lo, mid) + Drain(buf, mid, hi)
    decreases hi - mid
  {
    if mid < hi {
      DrainSplit(buf, lo, mid, hi - 1);
    }
  }

  lemma {:induction false} DrainAgrees(a: map<int, Frame>, b: map<int, Frame>, lo: int, hi: int)
    requires forall n | lo <= n < hi :: (n in a <==> n in b) && (n in a ==> a[n] == b[n])
    ensures Drain(a, lo, hi) == Drain(b, lo, hi)
    decreases hi - lo
  {
    if lo < hi {
      DrainAgrees(a, b, lo, hi - 1);
    }
  }

  lemma {:induction false} DrainNothing(buf: map<int, Frame>, lo: int, hi: int)
    requires forall n | lo <= n < hi :: n !in buf
    ensures Drain(buf, lo, hi) == []
    decreases hi - lo
  {
    if lo < hi {
      DrainNothing(buf, lo, hi - 1);
    }
  }

  // ---- representation invariant over every run -----------------------------

  lemma AcceptOk(w: Win, n: int, f: Frame, now: int, limit: int)
    requires WinOk(w) && 1 <= w.wnd && w.base <= n
    ensures WinOk(Slide(w, n).win) && Slide(w, n).win.wnd == w.wnd
    ensures Slide(w, n).win.base <= n < Slide(w, n).win.base + w.wnd
    ensures WinOk(Accept(w, n, f, now, limit).win) && Accept(w, n, f, now, limit).win.wnd == w.wnd
  {
  }

  lemma NextOk(s: Session, e: Event, limit: int)
    requires Ok(s)
    ensures Ok(Next(s, e, limit))
  {
    match e
    case Data(f, now) =>
      if Numbered(s, f) {
        var n := NumberOf(s.win, f);
        AcceptOk(Settle(s, n).win, n, f, now, limit);
      }
    case Bar(seqno) =>
      if s.waitrx {
        DrainNothing(s.win.buf, s.win.base, Lift(s.win.base, seqno % SEQ_RANGE));
      }
    case _ =>
  }

  lemma {:induction false} RunOk(s: Session, es: seq<Event>, limit: int)
    requires Ok(s)
    ensures Ok(Run(s, es, limit))
  {
    if es != [] {
      RunOk(s, es[..|es| - 1], limit);
      NextOk(Run(s, es[..|es| - 1], limit), es[|es| - 1], limit);
    }
  }
}
