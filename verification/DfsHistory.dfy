/** What the state bits of a channel say about the events that came before. */
module DfsHistory {
  import opened DfsSpec

  /** Event `q` of a run took place, and was not one that could not run then. */
  ghost predicate Happened(s: State, es: seq<Event>, q: int) {
    0 <= q < |es| && Enabled(Run(s, es[..q]), es[q])
  }

  /** The event is for a channel of frequency `freq`. */
  predicate For(t: seq<Entry>, e: Event, freq: nat) {
    (e.Radar? || e.CacExpire? || e.CacClear?) && e.k < |t| && t[e.k].freq == freq
  }

  lemma HappenedBefore(s: State, es: seq<Event>, e: Event, q: int)
    requires 0 <= q < |es|
    ensures (es + [e])[q] == es[q] && (es + [e])[..q] == es[..q]
    ensures Happened(s, es + [e], q) <==> Happened(s, es, q)
  {
  }

  lemma HappenedLast(s: State, es: seq<Event>, e: Event, n: nat)
    requires n == |es|
    ensures (es + [e])[n] == e && (es + [e])[..n] == es
    ensures Happened(s, es + [e], n) <==> Enabled(Run(s, es), e)
    ensures Run(s, es + [e]) == Next(Run(s, es), e)
  {
    assert (es + [e])[..n] == es;
    RunLast(s, es, e);
  }

  lemma {:induction false} SameFreqs(s: State, es: seq<Event>, i: nat)
    requires i < |s.table|
    ensures |Run(s, es).table| == |s.table| && Run(s, es).table[i].freq == s.table[i].freq
    ensures Run(s, es).nol == s.nol
  {
    if es != [] {
      SameFreqs(s, es[..|es| - 1], i);
    }
  }

  // ---- one event ----------------------------------------------------------

  /** A check that expires without radar marks every entry of its frequency as
      checked, and nothing else changes; with radar nothing does. */
  lemma ExpiryChecks(s: State, k: nat, now: int, i: nat)
    requires Enabled(s, CacExpire(k, now)) && i < |s.table|
    ensures var x, y, t := s.table[i], s.table[k], Next(s, CacExpire(k, now)).table;
            && |t| == |s.table|
            && (y.radar || x.freq != y.freq ==> t[i] == x)
            && (!y.radar && x.freq == y.freq ==>
                  t[i].cacDone && t[i].radar == x.radar && t[i].noRadar == x.noRadar && t[i].event == x.event
                  && t[i].freq == x.freq)
  {
  }

  // ---- checked ------------------------------------------------------------

  /** Event `q` undoes a check of frequency `freq`. */
  ghost predicate Unchecks(s: State, es: seq<Event>, freq: nat, q: int) {
    Happened(s, es, q) && (es[q].Reset? || ((es[q].Radar? || es[q].CacClear?) && For(s.table, es[q], freq)))
  }

  /** Event `p` was the expiry of a check of frequency `freq` that found no radar. */
  ghost predicate Passes(s: State, es: seq<Event>, freq: nat, p: int) {
    && Happened(s, es, p) && es[p].CacExpire? && For(s.table, es[p], freq)
    && es[p].k < |Run(s, es[..p]).table| && !Run(s, es[..p]).table[es[p].k].radar
  }

  ghost predicate CheckedBy(s: State, es: seq<Event>, freq: nat, p: int) {
    Passes(s, es, freq, p) && forall q | p < q < |es| :: !Unchecks(s, es, freq, q)
  }

  ghost predicate EverChecked(s: State, es: seq<Event>, freq: nat) {
    exists p :: CheckedBy(s, es, freq, p)
  }

  lemma CheckGrows(s: State, es: seq<Event>, e: Event, freq: nat, n: nat)
    requires n == |es|
    ensures EverChecked(s, es + [e], freq)
       <==> Passes(s, es + [e], freq, n) || (EverChecked(s, es, freq) && !Unchecks(s, es + [e], freq, n))
  {
    var es' := es + [e];
    HappenedLast(s, es, e, n);
    forall q | 0 <= q < n
      ensures Passes(s, es', freq, q) <==> Passes(s, es, freq, q)
      ensures Unchecks(s, es', freq, q) <==> Unchecks(s, es, freq, q)
    {
      HappenedBefore(s, es, e, q);
    }
    if p :| CheckedBy(s, es', freq, p) {
      if p < n {
        assert CheckedBy(s, es, freq, p);
      }
    }
    if p :| CheckedBy(s, es, freq, p) && !Unchecks(s, es', freq, n) {
      assert CheckedBy(s, es', freq, p);
    }
    if Passes(s, es', freq, n) {
      assert CheckedBy(s, es', freq, n);
    }
  }

  lemma CheckedNext(s: State, mid: State, e: Event, i: nat)
    requires Enabled(mid, e) && i < |mid.table| == |s.table|
    requires forall j: nat :: j < |s.table| ==> s.table[j].freq == mid.table[j].freq
    ensures var x, freq := Next(mid, e).table[i], mid.table[i].freq;
            if e.CacExpire? && For(s.table, e, freq) && !mid.table[e.k].radar then x.cacDone
            else if e.Reset? || ((e.Radar? || e.CacClear?) && For(s.table, e, freq)) then !x.cacDone
            else x.cacDone == mid.table[i].cacDone
  {
  }

  /** In every run a channel counts as checked exactly when a check of its frequency
      expired without radar and no radar, clear or reset came for it since. */
  lemma {:induction false} CheckedIff(s: State, es: seq<Event>, i: nat)
    requires Fresh(s) && i < |s.table|
    ensures i < |Run(s, es).table|
    ensures Run(s, es).table[i].cacDone <==> EverChecked(s, es, s.table[i].freq)
  {
    SameFreqs(s, es, i);
    if es != [] {
      var front, e, n := es[..|es| - 1], es[|es| - 1], |es| - 1;
      var freq, mid := s.table[i].freq, Run(s, front);
      assert es == front + [e];
      CheckedIff(s, front, i);
      CheckGrows(s, front, e, freq, n);
      HappenedLast(s, front, e, n);
      forall j: nat | j < |s.table| ensures |mid.table| == |s.table| && s.table[j].freq == mid.table[j].freq {
        SameFreqs(s, front, j);
      }
      if Enabled(mid, e) {
        CheckedNext(s, mid, e, i);
      }
    }
  }

  // ---- marked -------------------------------------------------------------

  /** Event `p` was radar on frequency `freq`. */
  ghost predicate Strikes(s: State, es: seq<Event>, freq: nat, p: int) {
    Happened(s, es, p) && es[p].Radar? && For(s.table, es[p], freq)
  }

  /** Event `q` takes away the mark of a radar event at time `t`, or renews it. */
  ghost predicate Unmarks(s: State, es: seq<Event>, freq: nat, t: int, q: int) {
    Strikes(s, es, freq, q)
    || (Happened(s, es, q) && (es[q].Reset? || (es[q].Timeout? && es[q].now >= t + s.nol)))
  }

  /** Event `p` was the last radar on the frequency, and its mark has not run out. */
  ghost predicate MarkedBy(s: State, es: seq<Event>, freq: nat, p: int) {
    Strikes(s, es, freq, p) && forall q | p < q < |es| :: !Unmarks(s, es, freq, es[p].now, q)
  }

  /** The mark is of the time of such an event. */
  ghost predicate MarkedAt(s: State, es: seq<Event>, freq: nat, t: int) {
    exists p :: MarkedBy(s, es, freq, p) && es[p].now == t
  }

  lemma MarkGrows(s: State, es: seq<Event>, e: Event, freq: nat, n: nat, t: int)
    requires n == |es|
    ensures MarkedAt(s, es + [e], freq, t)
       <==> (Strikes(s, es + [e], freq, n) && e.now == t) || (MarkedAt(s, es, freq, t) && !Unmarks(s, es + [e], freq, t, n))
  {
    var es' := es + [e];
    HappenedLast(s, es, e, n);
    forall q | 0 <= q < n
      ensures es'[q] == es[q]
      ensures Strikes(s, es', freq, q) <==> Strikes(s, es, freq, q)
      ensures Unmarks(s, es', freq, t, q) <==> Unmarks(s, es, freq, t, q)
    {
      HappenedBefore(s, es, e, q);
    }
    if p :| MarkedBy(s, es', freq, p) && es'[p].now == t {
      if p < n {
        assert MarkedBy(s, es, freq, p);
      }
    }
    if p :| MarkedBy(s, es, freq, p) && es[p].now == t && !Unmarks(s, es', freq, t, n) {
      assert MarkedBy(s, es', freq, p);
    }
    if Strikes(s, es', freq, n) && e.now == t {
      assert MarkedBy(s, es', freq, n);
    }
  }

  lemma MarkedNext(s: State, mid: State, e: Event, i: nat)
    requires Enabled(mid, e) && i < |mid.table| == |s.table| && mid.nol == s.nol
    requires forall j: nat :: j < |s.table| ==> s.table[j].freq == mid.table[j].freq
    ensures var x, y := Next(mid, e).table[i], mid.table[i];
            if e.Radar? && For(s.table, e, y.freq) then x.radar && x.event == e.now
            else if e.Reset? || (e.Timeout? && e.now >= y.event + s.nol) then !x.radar
            else x.radar == y.radar && x.event == y.event
  {
  }

  /** In every run a channel is marked exactly when radar came for its frequency,
      and neither a reset nor a timeout one period later came since; its event is
      the time of the last such radar. */
  lemma {:induction false} MarkedIff(s: State, es: seq<Event>, i: nat)
    requires Fresh(s) && i < |s.table|
    ensures i < |Run(s, es).table|
    ensures var x := Run(s, es).table[i];
            && (x.radar ==> MarkedAt(s, es, s.table[i].freq, x.event))
            && (forall t :: MarkedAt(s, es, s.table[i].freq, t) ==> x.radar && x.event == t)
  {
    SameFreqs(s, es, i);
    if es != [] {
      var front, e, n := es[..|es| - 1], es[|es| - 1], |es| - 1;
      var freq, mid := s.table[i].freq, Run(s, front);
      assert es == front + [e];
      MarkedIff(s, front, i);
      HappenedLast(s, front, e, n);
      forall j: nat | j < |s.table| ensures |mid.table| == |s.table| && s.table[j].freq == mid.table[j].freq {
        SameFreqs(s, front, j);
      }
      if Enabled(mid, e) {
        MarkedNext(s, mid, e, i);
      }
      MarkGrows(s, front, e, freq, n, Run(s, es).table[i].event);
      forall t | MarkedAt(s, es, freq, t) ensures Run(s, es).table[i].radar && Run(s, es).table[i].event == t {
        MarkGrows(s, front, e, freq, n, t);
      }
    }
  }

  // ---- the timer ----------------------------------------------------------

  /** Event `p` was radar, one period before `v`. */
  ghost predicate Starts(s: State, es: seq<Event>, v: int, p: int) {
    Happened(s, es, p) && es[p].Radar? && v == es[p].now + s.nol
  }

  /** In every run the timer is due exactly one period after some radar event. */
  lemma {:induction false} RunTimer(s: State, es: seq<Event>) returns (p: nat)
    requires Fresh(s) && Run(s, es).timer.Some?
    ensures Starts(s, es, Run(s, es).timer.value, p)
  {
    var front, e, n := es[..|es| - 1], es[|es| - 1], |es| - 1;
    var mid := Run(s, front);
    assert es == front + [e];
    HappenedLast(s, front, e, n);
    RunConsistent(s, front);
    if |s.table| > 0 {
      SameFreqs(s, front, 0);
    }
    if Enabled(mid, e) && e.Timeout? {
      OldestIs(mid.table, e.now, mid.nol);
      var i: nat :| i < |mid.table| && Remains(mid.table[i], e.now, mid.nol)
                    && mid.table[i].event == Oldest(mid.table, e.now, mid.nol);
      MarkedIff(s, front, i);
      var q :| MarkedBy(s, front, s.table[i].freq, q) && front[q].now == mid.table[i].event;
      HappenedBefore(s, front, e, q);
      p := q;
    } else if Enabled(mid, e) && e.Radar? && mid.timer.None? {
      p := n;
    } else {
      p := RunTimer(s, front);
      HappenedBefore(s, front, e, p);
    }
  }
}
