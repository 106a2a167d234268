/** What the radar handlers do to the channel table, and what every run keeps. */
module DfsSpec {

  datatype Option<T> = None | Some(value: T)

  /** A channel table entry with its state bits and its last radar event. */
  datatype Entry = Entry(freq: nat, radar: bool, cacDone: bool, noRadar: bool, event: int)

  datatype State = State(table: seq<Entry>, timer: Option<int>, clock: int, nol: nat)

  /** `k` indexes the entry a handler is called for. */
  datatype Event =
    | Radar(k: nat, now: int)
    | CacExpire(k: nat, now: int)
    | CacClear(k: nat, now: int)
    | Timeout(now: int)
    | Reset(now: int)

  predicate Enabled(s: State, e: Event) {
    && s.clock <= e.now
    && (e.Radar? || e.CacExpire? || e.CacClear? ==> e.k < |s.table|)
    && (e.Timeout? ==> s.timer.Some? && s.timer.value <= e.now)
  }

  // ---- one entry ----------------------------------------------------------

  /** The mark is as old as the non-occupancy period. */
  predicate Expired(x: Entry, now: int, nol: nat) {
    now >= x.event + nol
  }

  function Struck(x: Entry, freq: nat, here: bool, now: int): Entry {
    if x.freq != freq then x
    else Entry(x.freq, true, false, x.noRadar || here, now)
  }

  function Cleared(x: Entry, freq: nat): Entry {
    if x.freq == freq then x.(cacDone := false) else x
  }

  function Checked(x: Entry, freq: nat, radar: bool): Entry {
    if x.freq == freq && !radar then x.(cacDone := true) else x
  }

  function Aged(x: Entry, now: int, nol: nat): Entry {
    if x.radar && Expired(x, now, nol) then x.(radar := false, noRadar := false) else x
  }

  function Wiped(x: Entry): Entry {
    x.(radar := false, cacDone := false, noRadar := false)
  }

  function After(s: State, e: Event, i: nat): Entry
    requires i < |s.table| && Enabled(s, e)
  {
    var x := s.table[i];
    match e
    case Radar(k, now) => Struck(x, s.table[k].freq, i == k, now)
    case CacExpire(k, now) => Checked(x, s.table[k].freq, s.table[k].radar)
    case CacClear(k, now) => Cleared(x, s.table[k].freq)
    case Timeout(now) => Aged(x, now, s.nol)
    case Reset(now) => Wiped(x)
  }

  // ---- the timer ----------------------------------------------------------

  /** Still marked after a timeout at `now`. */
  predicate Remains(x: Entry, now: int, nol: nat) {
    x.radar && !Expired(x, now, nol)
  }

  /** The earliest event before `now` that remains, or `now`. */
  function Oldest(t: seq<Entry>, now: int, nol: nat): int {
    if t == [] then now
    else
      var x := t[|t| - 1];
      var o := Oldest(t[..|t| - 1], now, nol);
      if Remains(x, now, nol) && x.event < o then x.event else o
  }

  function TimerAfter(s: State, e: Event): Option<int> {
    match e
    case Radar(k, now) => if s.timer.None? then Some(now + s.nol) else s.timer
    case Timeout(now) =>
      var o := Oldest(s.table, now, s.nol);
      if o != now then Some(o + s.nol) else None
    case Reset(now) => None
    case CacExpire(k, now) => s.timer
    case CacClear(k, now) => s.timer
  }

  /** A handler that cannot run now does nothing. */
  function Next(s: State, e: Event): State {
    if !Enabled(s, e) then s
    else State(seq(|s.table|, i requires 0 <= i < |s.table| => After(s, e, i)), TimerAfter(s, e), e.now, s.nol)
  }

  // ---- what every run keeps -----------------------------------------------

  predicate Same(x: Entry, y: Entry) {
    x.freq == y.freq ==>
      x.radar == y.radar && x.cacDone == y.cacDone && (x.radar ==> x.event == y.event)
  }

  /** Entries with equal frequency agree. */
  predicate Agree(t: seq<Entry>) {
    forall i, j :: 0 <= i < |t| && 0 <= j < |t| ==> Same(t[i], t[j])
  }

  /** Never both radar and checked; a promise to notify only with a mark; no
      event from the future. */
  predicate Sound(x: Entry, clock: int) {
    !(x.radar && x.cacDone) && (x.noRadar ==> x.radar) && (x.radar ==> x.event <= clock)
  }

  predicate AllSound(t: seq<Entry>, clock: int) {
    forall i :: 0 <= i < |t| ==> Sound(t[i], clock)
  }

  /** Some entry of that frequency promises to notify. */
  predicate Promised(t: seq<Entry>, x: Entry) {
    exists j :: 0 <= j < |t| && t[j].freq == x.freq && t[j].noRadar
  }

  predicate AllPromised(t: seq<Entry>) {
    forall i :: 0 <= i < |t| && t[i].radar ==> Promised(t, t[i])
  }

  predicate Consistent(s: State) {
    && Agree(s.table) && AllSound(s.table, s.clock) && AllPromised(s.table)
    && (s.timer.Some? ==> s.timer.value <= s.clock + s.nol)
  }

  lemma NextAgree(s: State, e: Event)
    requires Consistent(s) && Enabled(s, e)
    ensures Agree(Next(s, e).table)
  {
    var t := Next(s, e).table;
    forall i, j | 0 <= i < |t| && 0 <= j < |t| ensures Same(t[i], t[j]) {
      assert Same(s.table[i], s.table[j]);
    }
  }

  lemma NextSound(s: State, e: Event)
    requires Consistent(s) && Enabled(s, e)
    ensures AllSound(Next(s, e).table, e.now)
  {
    var t := Next(s, e).table;
    forall i | 0 <= i < |t| ensures Sound(t[i], e.now) {
      assert Sound(s.table[i], s.clock);
      if e.CacExpire? {
        assert Same(s.table[i], s.table[e.k]);
      }
    }
  }

  lemma NextPromised(s: State, e: Event)
    requires Consistent(s) && Enabled(s, e)
    ensures AllPromised(Next(s, e).table)
  {
    var t := Next(s, e).table;
    forall i | 0 <= i < |t| && t[i].radar ensures Promised(t, t[i]) {
      if e.Radar? && s.table[i].freq == s.table[e.k].freq {
        assert t[e.k].noRadar;
      } else {
        assert s.table[i].radar;
        var j :| 0 <= j < |t| && s.table[j].freq == s.table[i].freq && s.table[j].noRadar;
        assert Sound(s.table[j], s.clock) && Same(s.table[i], s.table[j]);
        assert t[j].freq == t[i].freq && t[j].noRadar;
      }
    }
  }

  lemma {:induction false} OldestIs(t: seq<Entry>, now: int, nol: nat)
    ensures var o := Oldest(t, now, nol);
            && o <= now
            && (forall i :: 0 <= i < |t| && Remains(t[i], now, nol) ==> o <= t[i].event)
            && (o < now ==> exists i :: 0 <= i < |t| && Remains(t[i], now, nol) && t[i].event == o)
  {
    if t != [] {
      OldestIs(t[..|t| - 1], now, nol);
    }
  }

  lemma NextConsistent(s: State, e: Event)
    requires Consistent(s) && Enabled(s, e)
    ensures Consistent(Next(s, e))
  {
    NextAgree(s, e);
    NextSound(s, e);
    NextPromised(s, e);
    if e.Timeout? {
      OldestIs(s.table, e.now, s.nol);
    }
  }

  // ---- runs ---------------------------------------------------------------

  function Run(s: State, es: seq<Event>): State {
    if es == [] then s else Next(Run(s, es[..|es| - 1]), es[|es| - 1])
  }

  /** No marks, no checks, no timer. */
  predicate Fresh(s: State) {
    s.timer.None? && forall i :: 0 <= i < |s.table| ==> s.table[i] == Wiped(s.table[i])
  }

  lemma {:induction false} RunConsistent(s: State, es: seq<Event>)
    requires Fresh(s)
    ensures Consistent(Run(s, es)) && |Run(s, es).table| == |s.table|
  {
    if es != [] {
      RunConsistent(s, es[..|es| - 1]);
      var mid := Run(s, es[..|es| - 1]);
      if Enabled(mid, es[|es| - 1]) {
        NextConsistent(mid, es[|es| - 1]);
      }
    }
  }

  // ---- no mark is cleared early -------------------------------------------

  /** Entry `i` is still marked, by an event no older than `event`. */
  predicate Marked(s: State, i: nat, event: int) {
    i < |s.table| && s.table[i].radar && s.table[i].event >= event
  }

  lemma MarkStaysOnce(s: State, e: Event, i: nat, event: int)
    requires Consistent(s) && Marked(s, i, event) && !e.Reset?
    ensures Marked(Next(s, e), i, event) || Next(s, e).clock >= event + s.nol
  {
    if Enabled(s, e) {
      assert Sound(s.table[i], s.clock);
    }
  }

  lemma {:induction false} ClockGrows(s: State, es: seq<Event>)
    ensures Run(s, es).clock >= s.clock && Run(s, es).nol == s.nol
  {
    if es != [] {
      ClockGrows(s, es[..|es| - 1]);
    }
  }

  /** In any run without a reset a mark outlives its non-occupancy period. */
  lemma {:induction false} MarkStays(s: State, es: seq<Event>, i: nat)
    requires Consistent(s) && i < |s.table| && s.table[i].radar
    requires forall k :: 0 <= k < |es| ==> !es[k].Reset?
    ensures Consistent(Run(s, es))
    ensures Marked(Run(s, es), i, s.table[i].event) || Run(s, es).clock >= s.table[i].event + s.nol
  {
    if es != [] {
      var front, e := es[..|es| - 1], es[|es| - 1];
      MarkStays(s, front, i);
      ClockGrows(s, front);
      var mid := Run(s, front);
      if Enabled(mid, e) {
        NextConsistent(mid, e);
      }
      if Marked(mid, i, s.table[i].event) {
        MarkStaysOnce(mid, e, i, s.table[i].event);
      }
    }
  }

  // ---- the timer and the oldest mark --------------------------------------

  /** While a mark exists the timer is set, no later than the mark's expiry. */
  predicate Armed(s: State) {
    forall i :: 0 <= i < |s.table| && s.table[i].radar ==>
      s.timer.Some? && s.timer.value <= s.table[i].event + s.nol
  }

  /** Not every mark left after a timeout is from the tick of the timeout. */
  predicate Lucky(t: seq<Entry>, now: int, nol: nat) {
    (forall i :: 0 <= i < |t| ==> !Remains(t[i], now, nol)) || HasOlder(t, now, nol)
  }

  predicate HasOlder(t: seq<Entry>, now: int, nol: nat) {
    exists i :: 0 <= i < |t| && Remains(t[i], now, nol) && t[i].event < now
  }

  /** A timeout leaves the timer as it must be exactly when it is lucky. */
  lemma TimeoutArmsIff(s: State, now: int)
    requires Consistent(s) && Enabled(s, Timeout(now))
    ensures Armed(Next(s, Timeout(now))) <==> Lucky(s.table, now, s.nol)
  {
    var s' := Next(s, Timeout(now));
    OldestIs(s.table, now, s.nol);
    if Lucky(s.table, now, s.nol) {
      LuckyArms(s, now);
    } else {
      var i :| 0 <= i < |s.table| && Remains(s.table[i], now, s.nol);
      assert s'.table[i].radar && s'.timer.None?;
    }
  }

  lemma LuckyArms(s: State, now: int)
    requires Consistent(s) && Enabled(s, Timeout(now)) && Lucky(s.table, now, s.nol)
    ensures Armed(Next(s, Timeout(now)))
  {
    var s' := Next(s, Timeout(now));
    OldestIs(s.table, now, s.nol);
    forall i | 0 <= i < |s'.table| && s'.table[i].radar
      ensures s'.timer.Some? && s'.timer.value <= s'.table[i].event + s.nol
    {
      assert Remains(s.table[i], now, s.nol);
    }
  }

  lemma NextArmed(s: State, e: Event)
    requires Consistent(s) && Armed(s) && Enabled(s, e)
    requires e.Timeout? ==> Lucky(s.table, e.now, s.nol)
    ensures Armed(Next(s, e))
  {
    if e.Timeout? {
      TimeoutArmsIff(s, e.now);
    } else {
      var s' := Next(s, e);
      forall i | 0 <= i < |s'.table| && s'.table[i].radar
        ensures s'.timer.Some? && s'.timer.value <= s'.table[i].event + s.nol
      {
        assert s.table[i].radar || e.Radar?;
      }
    }
  }

  /** Every timeout of a run is lucky. */
  predicate LuckyRun(s: State, es: seq<Event>) {
    es != [] ==>
      && LuckyRun(s, es[..|es| - 1])
      && LuckyNext(Run(s, es[..|es| - 1]), es[|es| - 1])
  }

  predicate LuckyNext(s: State, e: Event) {
    e.Timeout? && Enabled(s, e) ==> Lucky(s.table, e.now, s.nol)
  }

  /** The timer is as it must be after every event of a run. */
  predicate AlwaysArmed(s: State, es: seq<Event>) {
    Armed(Run(s, es)) && (es != [] ==> AlwaysArmed(s, es[..|es| - 1]))
  }

  /** It is exactly in the lucky runs. */
  lemma {:induction false} RunArmedIff(s: State, es: seq<Event>)
    requires Fresh(s)
    ensures AlwaysArmed(s, es) <==> LuckyRun(s, es)
  {
    if es != [] {
      var front, e := es[..|es| - 1], es[|es| - 1];
      RunArmedIff(s, front);
      RunConsistent(s, front);
      var mid := Run(s, front);
      if Enabled(mid, e) && Armed(mid) {
        if e.Timeout? {
          TimeoutArmsIff(mid, e.now);
        } else {
          NextArmed(mid, e);
        }
      }
      if AlwaysArmed(s, front) {
        ArmedNow(s, front);
      }
    }
  }

  lemma ArmedNow(s: State, es: seq<Event>)
    requires AlwaysArmed(s, es)
    ensures Armed(Run(s, es))
  {
  }

  /** A mark with the timer off stays until the next radar event, whatever else
      happens and however long. */
  lemma {:induction false} StuckMark(s: State, es: seq<Event>, i: nat)
    requires i < |s.table| && s.table[i].radar && s.timer.None?
    requires forall k :: 0 <= k < |es| ==> !es[k].Reset? && !es[k].Radar?
    ensures Marked(Run(s, es), i, s.table[i].event) && Run(s, es).timer.None?
  {
    if es != [] {
      StuckMark(s, es[..|es| - 1], i);
    }
  }

  lemma RunLast(s: State, es: seq<Event>, e: Event)
    ensures Run(s, es + [e]) == Next(Run(s, es), e)
  {
    assert (es + [e])[..|es|] == es;
  }

  /** Radar on a second channel at the very tick the first one's period ends. */
  lemma TimerLost() returns (s: State, es: seq<Event>)
    ensures Fresh(s) && |es| == 3 && !Armed(Run(s, es)) && Run(s, es).timer.None?
  {
    var a, b := Entry(5500, false, false, false, 0), Entry(5520, false, false, false, 0);
    s := State([a, b], None, 0, 100);
    var e0, e1, e2 := Radar(0, 0), Radar(1, 100), Timeout(100);
    es := [] + [e0] + [e1] + [e2];
    RunLast(s, [], e0);
    RunLast(s, [] + [e0], e1);
    RunLast(s, [] + [e0] + [e1], e2);
    var s1 := Next(s, e0);
    assert s1.table == [Struck(a, 5500, true, 0), b];
    var s2 := Next(s1, e1);
    assert s2.table == [s1.table[0], Struck(b, 5520, true, 100)];
    var s3 := Next(s2, e2);
    assert Run(s, es) == s3;
    assert !Lucky(s2.table, 100, 100) by {
      assert Remains(s2.table[1], 100, 100);
    }
    OldestIs(s2.table, 100, 100);
    assert s3.table[1].radar;
  }

  // ---- who is told --------------------------------------------------------

  /** The entries a timeout notifies about. */
  function Notified(t: seq<Entry>, now: int, nol: nat): seq<nat> {
    if t == [] then []
    else
      var n := |t| - 1;
      Notified(t[..n], now, nol) + if t[n].radar && Expired(t[n], now, nol) && t[n].noRadar then [n] else []
  }

  lemma {:induction false} InNotified(t: seq<Entry>, now: int, nol: nat, i: nat)
    ensures i in Notified(t, now, nol) <==> i < |t| && t[i].radar && Expired(t[i], now, nol) && t[i].noRadar
  {
    if t != [] {
      InNotified(t[..|t| - 1], now, nol, i);
    }
  }

  /** Every frequency whose mark is cleared is notified about. */
  lemma ClearedIsNotified(s: State, now: int, i: nat) returns (j: nat)
    requires Consistent(s) && i < |s.table| && s.table[i].radar && Expired(s.table[i], now, s.nol)
    ensures j in Notified(s.table, now, s.nol) && j < |s.table| && s.table[j].freq == s.table[i].freq
  {
    assert Promised(s.table, s.table[i]);
    j :| 0 <= j < |s.table| && s.table[j].freq == s.table[i].freq && s.table[j].noRadar;
    assert Same(s.table[i], s.table[j]);
    InNotified(s.table, now, s.nol, j);
  }

  // ---- how often ----------------------------------------------------------

  /** `a` alone has property `p`. */
  ghost predicate Only(p: nat -> bool, a: nat) {
    p(a) && forall b: nat :: p(b) ==> b == a
  }

  ghost predicate JustOne(p: nat -> bool) {
    exists a: nat :: Only(p, a)
  }

  lemma SameOne(p: nat -> bool, q: nat -> bool)
    requires forall a: nat :: p(a) <==> q(a)
    ensures JustOne(p) <==> JustOne(q)
  {
    if a: nat :| Only(p, a) {
      assert Only(q, a);
    }
    if a: nat :| Only(q, a) {
      assert Only(p, a);
    }
  }

  /** The places of `told` whose member has property `p`. */
  function At(told: seq<nat>, p: nat -> bool): nat -> bool {
    (k: nat) => k < |told| && p(told[k])
  }

  predicate Rising(told: seq<nat>) {
    forall k, l :: 0 <= k < l < |told| ==> told[k] < told[l]
  }

  /** A list without repetition has one place per member. */
  lemma OnePlace(told: seq<nat>, p: nat -> bool)
    requires forall a: nat :: p(a) ==> a in told
    requires Rising(told)
    ensures JustOne(At(told, p)) <==> JustOne(p)
  {
    if a: nat :| Only(p, a) {
      var k: nat :| k < |told| && told[k] == a;
      OnlyPlace(told, p, k);
    }
    if k: nat :| Only(At(told, p), k) {
      OnlyPlace(told, p, k);
    }
  }

  lemma OnlyPlace(told: seq<nat>, p: nat -> bool, k: nat)
    requires forall a: nat :: p(a) ==> a in told
    requires Rising(told)
    requires k < |told|
    ensures Only(At(told, p), k) <==> Only(p, told[k])
  {
    if Only(At(told, p), k) {
      forall b: nat | p(b) ensures b == told[k] {
        var l: nat :| l < |told| && told[l] == b;
        assert At(told, p)(l);
      }
    }
  }

  /** The entries of frequency `freq` among those told of. */
  ghost predicate ToldOnce(t: seq<Entry>, told: seq<nat>, freq: nat) {
    JustOne(At(told, (j: nat) => j < |t| && t[j].freq == freq))
  }

  /** A notification is pending on entry `i`, of frequency `freq`. */
  predicate Pending(t: seq<Entry>, freq: nat, i: nat) {
    i < |t| && t[i].freq == freq && t[i].noRadar
  }

  /** No entry is named twice. */
  lemma {:induction false} NotifiedOnceEach(t: seq<Entry>, now: int, nol: nat)
    ensures Rising(Notified(t, now, nol)) && forall k <- Notified(t, now, nol) :: k < |t|
  {
    if t != [] {
      var n := |t| - 1;
      NotifiedOnceEach(t[..n], now, nol);
      var told := Notified(t[..n], now, nol);
      forall k | 0 <= k < |told| ensures told[k] < n {
        InNotified(t[..n], now, nol, told[k]);
      }
    }
  }

  /** Clearing a frequency's mark names exactly its entries with a notification pending. */
  lemma ToldArePending(s: State, now: int, i: nat, j: nat)
    requires Consistent(s) && i < |s.table| && s.table[i].radar && Expired(s.table[i], now, s.nol)
    requires j < |s.table| && s.table[j].freq == s.table[i].freq
    ensures j in Notified(s.table, now, s.nol) <==> Pending(s.table, s.table[i].freq, j)
  {
    InNotified(s.table, now, s.nol, j);
    assert Same(s.table[i], s.table[j]);
  }

  /** It is told of once exactly when one entry has. */
  lemma ToldOnceIff(s: State, now: int, i: nat)
    requires Consistent(s) && i < |s.table| && s.table[i].radar && Expired(s.table[i], now, s.nol)
    ensures var freq := s.table[i].freq;
            ToldOnce(s.table, Notified(s.table, now, s.nol), freq) <==> JustOne((a: nat) => Pending(s.table, freq, a))
  {
    var t, freq, told := s.table, s.table[i].freq, Notified(s.table, now, s.nol);
    var p, q := (a: nat) => Pending(t, freq, a), (j: nat) => j < |t| && t[j].freq == freq;
    NotifiedOnceEach(t, now, s.nol);
    forall j: nat | q(j) ensures j in told <==> p(j) {
      ToldArePending(s, now, i, j);
    }
    forall a: nat | p(a) ensures a in told {
      assert q(a);
    }
    forall k: nat ensures At(told, p)(k) <==> At(told, q)(k) {
      if k < |told| {
        assert told[k] in told;
      }
    }
    SameOne(At(told, p), At(told, q));
    OnePlace(told, p);
  }

  /** After the first `q` events entry `i` is marked. */
  ghost predicate MarkedAt(s: State, es: seq<Event>, i: nat, q: int) {
    0 <= q <= |es| && i < |Run(s, es[..q]).table| && Run(s, es[..q]).table[i].radar
  }

  /** Event `p` reported radar on entry `i`, which has been marked ever since. */
  ghost predicate ReportedBy(s: State, es: seq<Event>, i: nat, p: int) {
    && 0 <= p < |es| && es[p].Radar? && es[p].k == i && Enabled(Run(s, es[..p]), es[p])
    && forall q :: p < q <= |es| ==> MarkedAt(s, es, i, q)
  }

  ghost predicate Reported(s: State, es: seq<Event>, i: nat) {
    exists p :: ReportedBy(s, es, i, p)
  }

  /** What was reported by then still is, if the mark outlives one event more. */
  lemma ReportedStill(s: State, es: seq<Event>, e: Event, i: nat)
    requires Reported(s, es, i) && i < |Run(s, es + [e]).table| && Run(s, es + [e]).table[i].radar
    ensures Reported(s, es + [e], i)
  {
    var es' := es + [e];
    var p :| ReportedBy(s, es, i, p);
    assert es'[..p] == es[..p];
    forall q | p < q <= |es'| ensures MarkedAt(s, es', i, q) {
      if q <= |es| {
        assert MarkedAt(s, es, i, q);
        assert es'[..q] == es[..q];
      } else {
        assert es'[..q] == es';
      }
    }
    assert ReportedBy(s, es', i, p);
  }

  /** What is reported after an event was before, unless this is the report. */
  lemma ReportedBefore(s: State, es: seq<Event>, e: Event, i: nat)
    requires Reported(s, es + [e], i) && !(e.Radar? && e.k == i && Enabled(Run(s, es), e))
    ensures Reported(s, es, i)
  {
    var es' := es + [e];
    var p :| ReportedBy(s, es', i, p);
    assert p < |es| by {
      assert es'[..|es|] == es;
    }
    assert es'[..p] == es[..p];
    forall q | p < q <= |es| ensures MarkedAt(s, es, i, q) {
      assert MarkedAt(s, es', i, q);
      assert es'[..q] == es[..q];
    }
    assert ReportedBy(s, es, i, p);
  }

  lemma ReportedIsMarked(s: State, es: seq<Event>, i: nat)
    requires Reported(s, es, i)
    ensures i < |Run(s, es).table| && Run(s, es).table[i].radar
  {
    var p :| ReportedBy(s, es, i, p);
    assert MarkedAt(s, es, i, |es|);
    assert es[..|es|] == es;
  }

  lemma RadarMarks(s: State, e: Event)
    requires e.Radar? && Enabled(s, e)
    ensures e.k < |Next(s, e).table| && Next(s, e).table[e.k].radar
  {
  }

  /** A report just made. */
  lemma ReportedNow(s: State, es: seq<Event>, e: Event)
    requires e.Radar? && Enabled(Run(s, es), e)
    ensures Reported(s, es + [e], e.k)
  {
    var es', n := es + [e], |es|;
    RunLast(s, es, e);
    RadarMarks(Run(s, es), e);
    assert es'[..n] == es;
    forall q | n < q <= |es'| ensures MarkedAt(s, es', e.k, q) {
      assert es'[..q] == es';
    }
    assert ReportedBy(s, es', e.k, n);
  }

  /** In every run a notification is pending on an entry exactly when radar was
      reported on that very entry and its mark has stood ever since. */
  lemma {:induction false} PendingIffReported(s: State, es: seq<Event>, i: nat)
    requires Fresh(s) && i < |s.table|
    ensures |Run(s, es).table| == |s.table| && Run(s, es).table[i].freq == s.table[i].freq
    ensures Run(s, es).table[i].noRadar <==> Reported(s, es, i)
  {
    if es != [] {
      var front, e := es[..|es| - 1], es[|es| - 1];
      assert es == front + [e];
      PendingIffReported(s, front, i);
      RunConsistent(s, front);
      RunConsistent(s, es);
      var x, y := Run(s, front).table[i], Run(s, es).table[i];
      assert Sound(x, Run(s, front).clock) && Sound(y, Run(s, es).clock);
      if e.Radar? && e.k == i && Enabled(Run(s, front), e) {
        ReportedNow(s, front, e);
      } else if Reported(s, es, i) {
        ReportedBefore(s, front, e, i);
        ReportedIsMarked(s, es, i);
      } else if y.noRadar {
        ReportedStill(s, front, e, i);
      }
    }
  }

  /** Radar was reported on entry `i`, of frequency `freq`, since it was last clear. */
  ghost predicate Reporter(s: State, es: seq<Event>, freq: nat, i: nat) {
    i < |s.table| && s.table[i].freq == freq && Reported(s, es, i)
  }

  /** After any run, clearing a frequency's mark is announced once exactly when
      radar was reported on one of its entries since it was last clear. */
  lemma AnnouncedOnceIff(s: State, es: seq<Event>, now: int, i: nat)
    requires Fresh(s) && i < |s.table| && i < |Run(s, es).table|
    requires Run(s, es).table[i].radar && Expired(Run(s, es).table[i], now, Run(s, es).nol)
    ensures var mid, freq := Run(s, es), s.table[i].freq;
            ToldOnce(mid.table, Notified(mid.table, now, mid.nol), freq) <==> JustOne((a: nat) => Reporter(s, es, freq, a))
  {
    var mid, freq := Run(s, es), s.table[i].freq;
    RunConsistent(s, es);
    PendingIffReported(s, es, i);
    ToldOnceIff(mid, now, i);
    var p, q := (a: nat) => Pending(mid.table, freq, a), (a: nat) => Reporter(s, es, freq, a);
    forall a: nat ensures p(a) <==> q(a) {
      if a < |s.table| {
        PendingIffReported(s, es, a);
      }
    }
    SameOne(p, q);
  }

  lemma BothTold(x: Entry, now: int, nol: nat)
    requires x.radar && x.noRadar && Expired(x, now, nol)
    ensures Notified([x, x], now, nol) == [0, 1]
  {
    var one, two := [x], [x, x];
    assert two[..1] == one && one[..0] == [];
    assert Notified(one, now, nol) == [] + [0];
  }

  /** Radar on two entries of one frequency, and two messages when it is cleared. */
  lemma ToldTwice() returns (s: State, es: seq<Event>)
    ensures Fresh(s) && |s.table| == 2 && s.table[0].freq == s.table[1].freq
    ensures Enabled(Run(s, es), Timeout(100)) && Notified(Run(s, es).table, 100, Run(s, es).nol) == [0, 1]
  {
    var a := Entry(5500, false, false, false, 0);
    s := State([a, a], None, 0, 100);
    es := [] + [Radar(0, 0)] + [Radar(1, 0)];
    RunLast(s, [], Radar(0, 0));
    RunLast(s, [] + [Radar(0, 0)], Radar(1, 0));
    var x, y := Struck(a, 5500, true, 0), Struck(a, 5500, false, 0);
    var s1 := Next(s, Radar(0, 0));
    assert s1.table == [x, y];
    var s2 := Next(s1, Radar(1, 0));
    assert s2.table == [x, x];
    assert Run(s, es) == s2;
    BothTold(x, 100, 100);
  }
}
