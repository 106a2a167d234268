/** Reassembly of fragmented frames, one at a time per sender. */
module Defrag {
  import opened Tally

  /** A fragment as it arrives: sequence control, flags, addresses, payload. */
  datatype Frag = Frag(seqno: nat, more: bool, prot: bool, addr1: nat, addr2: nat, body: seq<nat>)

  /** The low 4 bits number the fragments of a frame. */
  function FragNo(f: Frag): nat {
    f.seqno % 16
  }

  /** The high 12 bits number the frame. */
  function FrameNo(f: Frag): nat {
    f.seqno / 16
  }

  /** `f` may follow the fragments `p`. */
  predicate Joins(p: seq<Frag>, f: Frag)
    requires p != []
  {
    && f.seqno == p[|p| - 1].seqno + 1
    && f.addr1 == p[0].addr1 && f.addr2 == p[0].addr2 && f.prot == p[0].prot
  }

  /** What becomes of the fragments: still pending, released as one frame, freed. */
  datatype Fate = Fate(pending: seq<Frag>, released: seq<Frag>, freed: seq<Frag>)

  function Keep(p: seq<Frag>, more: bool, freed: seq<Frag>): Fate {
    if more then Fate(p, [], freed) else Fate([], p, freed)
  }

  /** A node no longer in its table accepts only what needs no reassembly. */
  function Receive(p: seq<Frag>, f: Frag, orphan: bool): Fate {
    if !f.more && FragNo(f) == 0 && p == [] then Fate([], [f], [])
    else if orphan then Fate(p, [], [f])
    else if p != [] && Joins(p, f) then Keep(p + [f], f.more, [])
    else if FragNo(f) != 0 then Fate([], [], p + [f])
    else Keep([f], f.more, p)
  }

  // ---- what is released ---------------------------------------------------

  /** Fragment `i` of `p` follows the ones before it. */
  predicate Follows(p: seq<Frag>, i: nat)
    requires i < |p|
  {
    && p[i].seqno == p[0].seqno + i && p[i].prot == p[0].prot
    && p[i].addr1 == p[0].addr1 && p[i].addr2 == p[0].addr2
    && (i + 1 < |p| ==> p[i].more)
  }

  /** Fragment 0 of a frame and fragments that follow, all but the last with more
      to come. */
  predicate Chained(p: seq<Frag>) {
    p != [] && FragNo(p[0]) == 0 && forall i :: 0 <= i < |p| ==> Follows(p, i)
  }

  function Last(p: seq<Frag>): Frag
    requires p != []
  {
    p[|p| - 1]
  }

  predicate Open(p: seq<Frag>) {
    p != [] ==> Chained(p) && Last(p).more
  }

  predicate Whole(p: seq<Frag>) {
    Chained(p) && !Last(p).more
  }

  lemma ChainedPlus(p: seq<Frag>, f: Frag)
    requires p != [] && Open(p) && Joins(p, f)
    ensures Chained(p + [f])
  {
    var q := p + [f];
    forall i | 0 <= i < |q| ensures Follows(q, i) {
      assert Follows(p, if i < |p| then i else |p| - 1);
    }
  }

  /** A pending list stays open and only whole frames are released. */
  lemma ReceiveKeeps(p: seq<Frag>, f: Frag, orphan: bool)
    requires Open(p)
    ensures Open(Receive(p, f, orphan).pending)
    ensures Receive(p, f, orphan).released != [] ==> Whole(Receive(p, f, orphan).released)
  {
    if p != [] && Joins(p, f) {
      ChainedPlus(p, f);
    }
    assert FragNo(f) == 0 ==> Chained([f]);
  }

  /** The fragments of a released frame have one frame number exactly when there
      are at most 16. */
  lemma OneNumberIff(p: seq<Frag>)
    requires Chained(p)
    ensures (forall i :: 0 <= i < |p| ==> FrameNo(p[i]) == FrameNo(p[0])) <==> |p| <= 16
  {
    forall i | 0 <= i < |p| ensures p[i].seqno == p[0].seqno + i {
      assert Follows(p, i);
    }
    if |p| > 16 {
      assert FrameNo(p[16]) == FrameNo(p[0]) + 1;
    }
  }

  // ---- runs ---------------------------------------------------------------

  /** A frame arrives, or the timer reaps what is pending. */
  datatype Event = Arrives(f: Frag, orphan: bool) | Reaped

  function Next(p: seq<Frag>, e: Event): Fate {
    match e
    case Arrives(f, orphan) => Receive(p, f, orphan)
    case Reaped => Fate([], [], p)
  }

  /** The pending list, and all that was released or freed so far. */
  function Run(p: seq<Frag>, es: seq<Event>): Fate {
    if es == [] then Fate(p, [], [])
    else
      var before := Run(p, es[..|es| - 1]);
      var now := Next(before.pending, es[|es| - 1]);
      Fate(now.pending, before.released + now.released, before.freed + now.freed)
  }

  function Arrived(es: seq<Event>): seq<Frag> {
    if es == [] then []
    else
      var e := es[|es| - 1];
      Arrived(es[..|es| - 1]) + if e.Arrives? then [e.f] else []
  }

  lemma {:induction false} RunOpen(p: seq<Frag>, es: seq<Event>)
    requires Open(p)
    ensures Open(Run(p, es).pending)
  {
    if es != [] {
      RunOpen(p, es[..|es| - 1]);
      var e := es[|es| - 1];
      if e.Arrives? {
        ReceiveKeeps(Run(p, es[..|es| - 1]).pending, e.f, e.orphan);
      }
    }
  }

  /** Whatever a run releases is a whole frame. */
  lemma ReleasedIsWhole(es: seq<Event>, f: Frag, orphan: bool)
    ensures var r := Receive(Run([], es).pending, f, orphan).released;
            r != [] ==> Whole(r)
  {
    RunOpen([], es);
    ReceiveKeeps(Run([], es).pending, f, orphan);
  }

  lemma NextAccounts(p: seq<Frag>, e: Event, x: Frag)
    ensures Times(p, x) + (if e.Arrives? then Times([e.f], x) else 0)
         == Times(Next(p, e).pending, x) + Times(Next(p, e).released, x) + Times(Next(p, e).freed, x)
  {
    if e.Arrives? {
      TimesPlus(p, [e.f], x);
    }
  }

  /** Over any run each fragment is exactly as often pending, released or freed
      as it arrived. */
  lemma {:induction false} RunAccounts(p: seq<Frag>, es: seq<Event>, x: Frag)
    ensures var r := Run(p, es);
            Times(p, x) + Times(Arrived(es), x) == Times(r.pending, x) + Times(r.released, x) + Times(r.freed, x)
  {
    if es != [] {
      var front, e := es[..|es| - 1], es[|es| - 1];
      RunAccounts(p, front, x);
      var before := Run(p, front);
      var now := Next(before.pending, e);
      NextAccounts(before.pending, e, x);
      TimesPlus(Arrived(front), if e.Arrives? then [e.f] else [], x);
      TimesPlus(before.released, now.released, x);
      TimesPlus(before.freed, now.freed, x);
    }
  }

  /** The fragments `p` arriving in order, nothing else between them. */
  function InTurn(p: seq<Frag>): seq<Event> {
    if p == [] then [] else InTurn(p[..|p| - 1]) + [Arrives(p[|p| - 1], false)]
  }

  lemma RunLast(p: seq<Frag>, es: seq<Event>, e: Event)
    ensures Run(p, es + [e]).pending == Next(Run(p, es).pending, e).pending
    ensures Run(p, es + [e]).released == Run(p, es).released + Next(Run(p, es).pending, e).released
    ensures Run(p, es + [e]).freed == Run(p, es).freed + Next(Run(p, es).pending, e).freed
  {
    assert (es + [e])[..|es|] == es;
  }

  /** Whether `f` continues what is pending. */
  predicate Continues(p: seq<Frag>, f: Frag) {
    p != [] && Joins(p, f)
  }

  /** A fragment that continues nothing drops what is pending unless it is of a
      node no longer in its table: a first one takes its place, another goes too. */
  lemma StrayDrops(p: seq<Frag>, f: Frag)
    requires !Continues(p, f)
    ensures var r := Receive(p, f, false);
            && r.freed == p + (if FragNo(f) != 0 then [f] else [])
            && r.pending == (if FragNo(f) == 0 && f.more then [f] else [])
            && r.released == (if FragNo(f) == 0 && !f.more then [f] else [])
  {
  }

  /** A fragment that continues what is pending is never dropped. */
  lemma ContinuationJoins(p: seq<Frag>, f: Frag)
    requires Continues(p, f)
    ensures var r := Receive(p, f, false);
            && r.freed == []
            && r.pending == (if f.more then p + [f] else [])
            && r.released == (if f.more then [] else p + [f])
  {
  }

  /** For such a node only a frame in one piece, with nothing pending, is released;
      anything else is freed and what is pending stays. */
  lemma OrphanFate(p: seq<Frag>, f: Frag)
    ensures var r := Receive(p, f, true);
            if p == [] && FragNo(f) == 0 && !f.more then r == Fate([], [f], []) else r == Fate(p, [], [f])
  {
  }

  /** A first fragment, or one that follows, is taken in. */
  lemma Accepts(p: seq<Frag>, f: Frag)
    requires if p == [] then FragNo(f) == 0 else Joins(p, f)
    ensures Receive(p, f, false) == Keep(p + [f], f.more, [])
  {
    assert p == [] ==> p + [f] == [f];
  }

  /** What of `p` the frame `q` is joined to, and what of it is freed. */
  function Joined(p: seq<Frag>, q: seq<Frag>): seq<Frag>
    requires q != []
  {
    if Continues(p, q[0]) then p else []
  }

  function Dropped(p: seq<Frag>, q: seq<Frag>): seq<Frag>
    requires q != []
  {
    if Continues(p, q[0]) then [] else p
  }

  lemma FirstTaken(p: seq<Frag>, q: seq<Frag>)
    requires Chained(q)
    ensures Receive(p, q[0], false) == Keep(Joined(p, q) + [q[0]], q[0].more, Dropped(p, q))
  {
    assert [] + [q[0]] == [q[0]];
  }

  lemma NextJoins(p: seq<Frag>, q: seq<Frag>, j: nat, c: seq<Frag>)
    requires Chained(q) && 0 < j < |q| && c == Joined(p, q) + q[..j]
    ensures c != [] && Joins(c, q[j]) && c + [q[j]] == Joined(p, q) + q[..j + 1] && q[j - 1].more
  {
    assert Follows(q, j) && Follows(q, j - 1);
    assert c[|c| - 1] == q[j - 1];
    assert c[0] == if Continues(p, q[0]) then p[0] else q[0];
    assert q[..j + 1] == q[..j] + [q[j]];
  }

  lemma {:induction false} PrefixPends(p: seq<Frag>, q: seq<Frag>, n: nat)
    requires Chained(q) && 0 < n < |q|
    ensures Run(p, InTurn(q[..n])) == Fate(Joined(p, q) + q[..n], [], Dropped(p, q))
    decreases n
  {
    var j := n - 1;
    assert q[..n][..j] == q[..j];
    assert Follows(q, j);
    if j == 0 {
      FirstTaken(p, q);
      RunLast(p, [], Arrives(q[0], false));
      assert q[..1] == [q[0]];
    } else {
      var c := Joined(p, q) + q[..j];
      PrefixPends(p, q, j);
      NextJoins(p, q, j, c);
      Accepts(c, q[j]);
      RunLast(p, InTurn(q[..j]), Arrives(q[j], false));
    }
  }

  lemma OnePiece(p: seq<Frag>, q: seq<Frag>)
    requires Whole(q) && |q| == 1
    ensures Run(p, InTurn(q)) == Fate([], Joined(p, q) + q, Dropped(p, q))
  {
    assert q[..0] == [] && q == [q[0]];
    FirstTaken(p, q);
    RunLast(p, [], Arrives(q[0], false));
  }

  lemma LastPiece(p: seq<Frag>, q: seq<Frag>, j: nat)
    requires Whole(q) && 0 < j && |q| == j + 1
    ensures Run(p, InTurn(q)) == Fate([], Joined(p, q) + q, Dropped(p, q))
  {
    var c := Joined(p, q) + q[..j];
    assert q[..j + 1] == q;
    PrefixPends(p, q, j);
    NextJoins(p, q, j, c);
    Accepts(c, q[j]);
    RunLast(p, InTurn(q[..j]), Arrives(q[j], false));
  }

  /** Whatever was pending, a whole frame whose fragments arrive in turn is
      released and what was pending freed, or, when its first fragment continues
      that, both are released as one. */
  lemma WholeIsReleased(p: seq<Frag>, q: seq<Frag>)
    requires Whole(q)
    ensures Run(p, InTurn(q)) == if Continues(p, q[0]) then Fate([], p + q, []) else Fate([], q, p)
  {
    if |q| == 1 {
      OnePiece(p, q);
    } else {
      LastPiece(p, q, |q| - 1);
    }
    assert [] + q == q;
  }

  // ---- the operation ------------------------------------------------------

  function Bodies(p: seq<Frag>): seq<nat> {
    if p == [] then [] else Bodies(p[..|p| - 1]) + p[|p| - 1].body
  }

  /** A received frame: the header fields that matter and what follows the header. */
  class Frame {
    const addr1: nat
    const addr2: nat
    var seqno: nat
    var more: bool
    var prot: bool
    var body: seq<nat>

    constructor (f: Frag)
      ensures Value() == f
    {
      addr1, addr2, seqno, more, prot, body := f.addr1, f.addr2, f.seqno, f.more, f.prot, f.body;
    }

    function Value(): Frag
      reads this
    {
      Frag(seqno, more, prot, addr1, addr2, body)
    }
  }

  /** The fragments `p` as one frame: the first one's header with the last one's
      sequence control. */
  function Merged(p: seq<Frag>): Frag
    requires p != []
  {
    p[0].(seqno := Last(p).seqno, body := Bodies(p))
  }

  lemma MergedOne(f: Frag)
    ensures Merged([f]) == f
  {
    assert Bodies([f]) == Bodies([]) + f.body;
  }

  lemma MergedPlus(p: seq<Frag>, f: Frag)
    requires p != []
    ensures Merged(p + [f]) == Merged(p).(seqno := f.seqno, body := Merged(p).body + f.body)
  {
    assert (p + [f])[..|p|] == p;
  }

  lemma BodiesPlus(p: seq<Frag>, f: Frag)
    ensures Bodies(p + [f]) == Bodies(p) + f.body
  {
    assert (p + [f])[..|p|] == p;
  }

  lemma Regroup<T>(a: seq<T>, b: seq<T>, c: seq<T>)
    ensures a + (b + c) == a + b + c
  {
  }

  /** Payloads are put together in the order of the fragments. */
  lemma {:induction false} BodiesJoin(p: seq<Frag>, q: seq<Frag>, n: nat)
    requires n == |q|
    ensures Bodies(p + q) == Bodies(p) + Bodies(q)
    decreases n
  {
    if n == 0 {
      assert p + q == p && Bodies(q) == [];
    } else {
      BodiesJoin(p, q[..n - 1], n - 1);
      JoinOne(p, q[..n - 1], q[n - 1], q);
    }
  }

  lemma JoinOne(p: seq<Frag>, front: seq<Frag>, f: Frag, q: seq<Frag>)
    requires q == front + [f] && Bodies(p + front) == Bodies(p) + Bodies(front)
    ensures Bodies(p + q) == Bodies(p) + Bodies(q)
  {
    BodiesPlus(front, f);
    BodiesPlus(p + front, f);
    Regroup(p, front, [f]);
    Regroup(Bodies(p), Bodies(front), f.body);
  }

  /** A released frame has the addresses and protection its fragments share, the
      last one's sequence control, and each fragment's payload where those of the
      ones before it end. */
  lemma MergedIs(p: seq<Frag>, i: nat)
    requires Whole(p) && i < |p|
    ensures var m, at := Merged(p), |Bodies(p[..i])|;
            && m.addr1 == p[i].addr1 && m.addr2 == p[i].addr2 && m.prot == p[i].prot && m.seqno == p[|p| - 1].seqno
            && at + |p[i].body| <= |m.body| && m.body[at..at + |p[i].body|] == p[i].body
            && (i == |p| - 1 ==> at + |p[i].body| == |m.body|)
  {
    assert Follows(p, i);
    assert p[..i + 1][..i] == p[..i] && p == p[..i + 1] + p[i + 1..];
    BodiesJoin(p[..i + 1], p[i + 1..], |p| - i - 1);
  }

  class Node {
    var rxfrag: Frame?
    var stamp: int
    ghost var pending: seq<Frag>

    ghost predicate Valid()
      reads this, rxfrag
    {
      if pending == [] then rxfrag == null
      else rxfrag != null && rxfrag.Value() == Merged(pending) && Open(pending)
    }

    constructor ()
      ensures Valid() && pending == []
    {
      rxfrag, stamp, pending := null, 0, [];
    }

    /** Joins `m` to what is pending, or else frees that and starts again. */
    method Combine(m: Frame, now: int) returns (r: Frame?)
      requires Valid() && m != rxfrag
      modifies this, rxfrag, m
      ensures Valid()
      ensures var fate := Receive(old(pending), old(m.Value()), false);
              && pending == fate.pending && (fate.released == [] <==> r == null)
              && (r != null ==> r.Value() == Merged(fate.released).(prot := false))
      ensures pending != [] ==> stamp == now
    {
      ghost var f := m.Value();
      var moreFrag := m.more;
      var frag := rxfrag;
      rxfrag := null;
      if frag != null && m.seqno == frag.seqno + 1 && m.addr1 == frag.addr1 && m.addr2 == frag.addr2 && m.prot == frag.prot {
        ChainedPlus(pending, f);
        MergedPlus(pending, f);
        frag.seqno := m.seqno;
        frag.body := frag.body + m.body;
        pending := pending + [f];
      } else if m.seqno % 16 != 0 {
        pending := [];
        return null;
      } else {
        MergedOne(f);
        assert Chained([f]);
        frag := m;
        pending := [f];
      }
      if moreFrag {
        stamp := now;
        rxfrag := frag;
        r := null;
      } else {
        pending := [];
        frag.prot := false;
        r := frag;
      }
    }

    /** Takes a fragment in; returns a frame once it is whole. */
    method Defrag(m: Frame, decrypted: bool, orphan: bool, now: int) returns (r: Frame?)
      requires Valid() && m != rxfrag
      modifies this, rxfrag, m
      ensures Valid()
      ensures var f := old(m.Value()).(prot := old(m.prot) || decrypted);
              var fate := Receive(old(pending), f, orphan);
              && pending == fate.pending && (fate.released == [] <==> r == null)
              && (r != null ==> r.Value() == Merged(fate.released).(prot := r.prot))
              && (r != null ==> (r.prot <==> old(m.prot) && !f.more && FragNo(f) == 0 && old(pending) == []))
      ensures pending != [] && !orphan ==> stamp == now
    {
      if !m.more && m.seqno % 16 == 0 && rxfrag == null {
        MergedOne(m.Value().(prot := m.prot || decrypted));
        return m;
      }
      if decrypted {
        m.prot := true;
      }
      if orphan {
        return null;
      }
      r := Combine(m, now);
    }

    /** The timer gives up on what is pending for more than a second. */
    method Reap(now: int, hz: int)
      requires Valid()
      modifies this
      ensures Valid()
      ensures pending == if old(pending) != [] && now > old(stamp) + hz then [] else old(pending)
    {
      if rxfrag != null && now > stamp + hz {
        rxfrag := null;
        pending := [];
      }
    }
  }
}
