/** HWMP path selection at one station: the route table and what the handlers
    of path requests and replies do to it. */
module HwmpSpec {

  type Addr = nat

  const BROADCAST: Addr := 0xffff_ffff_ffff
  const WORD: nat := 0x1_0000_0000
  const HALF: nat := 0x8000_0000

  predicate Multicast(a: Addr) {
    a / 0x100_0000_0000 % 2 == 1
  }

  // ---- 32-bit sequence numbers and metrics --------------------------------

  function Signed(x: int): int {
    var r := x % WORD;
    if r < HALF then r else r - WORD
  }

  predicate SeqLt(a: nat, b: nat) { Signed(a - b) < 0 }
  predicate SeqLeq(a: nat, b: nat) { Signed(a - b) <= 0 }
  predicate SeqEq(a: nat, b: nat) { Signed(a - b) == 0 }
  predicate SeqGt(a: nat, b: nat) { Signed(a - b) > 0 }

  function SeqMax(a: nat, b: nat): nat { if a > b then a else b }

  function Inc32(a: nat): nat { (a + 1) % WORD }

  function MetricAdd(a: nat, b: nat): nat { (a + b) % WORD }

  /** The wrapped comparisons are the plain ones below half the number space. */
  lemma SeqOrder(a: nat, b: nat)
    requires a < HALF && b < HALF
    ensures SeqLt(a, b) <==> a < b
    ensures SeqLeq(a, b) <==> a <= b
    ensures SeqEq(a, b) <==> a == b
    ensures SeqGt(a, b) <==> a > b
  {
  }

  /** A positive link metric makes a path longer exactly when the 32-bit sum does not wrap. */
  lemma MetricGrows(m: nat, link: nat)
    requires m < WORD && 0 < link < WORD
    ensures m < MetricAdd(m, link) <==> m + link < WORD
  {
  }

  // ---- state --------------------------------------------------------------

  datatype Route = Route(
    valid: bool, discover: bool, gate: bool,
    nexthop: Addr, metric: nat, nhops: nat,
    seqno: nat, preqid: nat, origseq: nat,
    retries: nat, lastdiscovery: int, timer: bool)

  const NEW_ROUTE: Route := Route(false, false, false, 0, 0, 0, 0, 0, 0, 0, 0, false)

  datatype Config = Config(
    fwd: bool, gateRole: bool, proactive: bool, targetOnly: bool,
    ttl: nat, maxhops: nat, maxRetries: nat, traversal: int, lifetime: nat)

  datatype Station = Station(me: Addr, cfg: Config, seqno: nat, preqid: nat, routes: map<Addr, Route>)

  datatype Preq = Preq(
    gate: bool, am: bool, pp: bool,
    hopcount: nat, ttl: nat, id: nat,
    orig: Addr, origseq: nat, lifetime: nat, metric: nat,
    tcount: nat, to: bool, usn: bool, taddr: Addr, tseq: nat)

  datatype Prep = Prep(
    hopcount: nat, ttl: nat,
    target: Addr, targetseq: nat, lifetime: nat, metric: nat,
    orig: Addr, origseq: nat)

  datatype Body = Request(preq: Preq) | Reply(prep: Prep)

  /** A frame in the air: who transmitted it, to whom, and what it carries. */
  datatype Frame = Frame(src: Addr, dst: Addr, body: Body)

  datatype Out = Out(st: Station, frames: seq<Frame>)

  // ---- table operations ---------------------------------------------------

  function Entry(st: Station, a: Addr): Route {
    if a in st.routes then st.routes[a] else NEW_ROUTE
  }

  function Put(st: Station, a: Addr, rt: Route): Station {
    st.(routes := st.routes[a := rt])
  }

  /** Forwarding information to the transmitter, if invalid or improved. */
  function Neighbour(rt: Route, ta: Addr, link: nat): Route {
    if !rt.valid || rt.metric > link then
      rt.(nexthop := ta, metric := link, nhops := 1, valid := true, discover := false, gate := false)
    else rt
  }

  function UpdateTransmitter(st: Station, ta: Addr, link: nat): Station {
    Put(st, ta, Neighbour(Entry(st, ta), ta, link))
  }

  // ---- path requests ------------------------------------------------------

  predicate Fresher(rt: Route, seqno: nat, metric: nat) {
    SeqGt(seqno, rt.seqno) || (SeqEq(seqno, rt.seqno) && metric < rt.metric)
  }

  predicate PreqAcceptable(st: Station, p: Preq) {
    && st.me != p.orig
    && (st.cfg.fwd || (st.me == p.taddr && Multicast(p.taddr)))
    && !(p.am && p.taddr !in st.routes && st.me != p.taddr)
  }

  /** The originator's entry once the request has been looked at. */
  function OrigRoute(rt: Route, ta: Addr, link: nat, p: Preq): Route {
    var metric := MetricAdd(p.metric, link);
    var seen := rt.(preqid := SeqMax(rt.preqid, p.id));
    if Fresher(rt, p.origseq, metric) then
      seen.(seqno := p.origseq, nexthop := ta, metric := metric, nhops := p.hopcount + 1,
            valid := true, discover := false, gate := false)
    else seen
  }

  predicate PreqStale(st: Station, link: nat, p: Preq) {
    var rt := Entry(st, p.orig);
    && !Fresher(rt, p.origseq, MetricAdd(p.metric, link))
    && (|| (p.taddr in st.routes && !SeqEq(st.routes[p.taddr].seqno, p.tseq))
        || (rt.valid && rt.preqid >= p.id))
  }

  function ReplyFrame(st: Station, dst: Addr, p: Prep): Frame {
    Frame(st.me, dst, Reply(p))
  }

  /** The reply a station sends for itself, under sequence number `seqno`. */
  function OwnPrep(st: Station, p: Preq, seqno: nat): Prep {
    Prep(0, st.cfg.ttl, st.me, seqno, p.lifetime, 0, p.orig, p.origseq)
  }

  /** Answering a request addressed to this station. */
  function Answer(st: Station, ta: Addr, p: Preq): Out {
    var seqno := (SeqMax(st.seqno, p.tseq) + 1) % WORD;
    var st' := st.(seqno := seqno);
    Out(st', [ReplyFrame(st', ta, OwnPrep(st', p, seqno))])
  }

  /** A proactive request: mark gates, and reply to the root when asked to. */
  function Proactive(st: Station, p: Preq): Out
    requires p.orig in st.routes
  {
    if p.taddr == BROADCAST && p.to then
      var st1 := if p.gate then Put(st, p.orig, st.routes[p.orig].(gate := true)) else st;
      var rt := st1.routes[p.orig];
      if !rt.valid || p.pp then
        var seqno := Inc32(st1.seqno);
        var st2 := st1.(seqno := seqno);
        Out(st2, [ReplyFrame(st2, rt.nexthop, OwnPrep(st2, p, seqno))])
      else Out(st1, [])
    else Out(st, [])
  }

  predicate RepliesFor(st: Station, known: bool, p: Preq) {
    known && Entry(st, p.taddr).valid && !p.to && p.taddr != BROADCAST
  }

  /** Forward the request, after an intermediate reply when the target is known. */
  function Forward(st: Station, known: bool, link: nat, p: Preq): seq<Frame>
    requires p.orig in st.routes
  {
    if p.tcount == 1 && p.ttl > 1 && st.cfg.fwd then
      var rt, targ := st.routes[p.orig], Entry(st, p.taddr);
      var replies := RepliesFor(st, known, p);
      var reply := Prep(targ.nhops % 256, st.cfg.ttl, p.taddr, targ.seqno, p.lifetime, targ.metric, p.orig, rt.seqno);
      var next := p.(to := p.to || replies, hopcount := (p.hopcount + 1) % 256, ttl := p.ttl - 1,
                     metric := MetricAdd(p.metric, link));
      (if replies then [ReplyFrame(st, rt.nexthop, reply)] else [])
      + [Frame(st.me, BROADCAST, Request(next))]
    else []
  }

  function RecvPreq(st: Station, ta: Addr, link: nat, p: Preq): Out {
    if !PreqAcceptable(st, p) then Out(st, [])
    else
      var known := p.taddr in st.routes;
      var st1 := Put(st, p.orig, OrigRoute(Entry(st, p.orig), ta, link, p));
      if PreqStale(st, link, p) then Out(st1, [])
      else
        var st2 := UpdateTransmitter(st1, ta, link);
        if st.me == p.taddr then Answer(st2, ta, p)
        else
          var pro := Proactive(st2, p);
          Out(pro.st, pro.frames + Forward(pro.st, known, link, p))
  }

  /** With forwarding off, a station with an individual address ignores every
      path request, one for itself included. */
  lemma NonForwarderIsDeaf(st: Station, ta: Addr, link: nat, p: Preq)
    requires !st.cfg.fwd && !Multicast(st.me)
    ensures RecvPreq(st, ta, link, p) == Out(st, [])
  {
  }

  /** What a station says for itself: the reply goes to the neighbour the request
      came from, and its sequence number is past the one asked after and its own. */
  predicate IsAnswer(st: Station, ta: Addr, p: Preq, f: Frame) {
    && f.src == st.me && f.dst == ta && f.body.Reply?
    && var r := f.body.prep;
    && r.target == st.me && r.hopcount == 0 && r.metric == 0
    && r.orig == p.orig && r.origseq == p.origseq && r.lifetime == p.lifetime
    && (st.seqno < WORD - 1 && p.tseq < WORD - 1 ==> st.seqno < r.targetseq && p.tseq < r.targetseq)
  }

  /** A request for a station with an individual address, from another one, is
      accepted exactly when the station forwards, and answered, by one reply,
      exactly when it also brings something new. */
  lemma AnswersIff(st: Station, ta: Addr, link: nat, p: Preq)
    requires p.taddr == st.me && !Multicast(st.me) && p.orig != st.me
    ensures PreqAcceptable(st, p) <==> st.cfg.fwd
    ensures var out := RecvPreq(st, ta, link, p);
            if st.cfg.fwd && !PreqStale(st, link, p) then
              && |out.frames| == 1 && IsAnswer(st, ta, p, out.frames[0])
              && out.st.seqno == out.frames[0].body.prep.targetseq
            else out.frames == [] && out.st.seqno == st.seqno
    ensures !st.cfg.fwd ==> RecvPreq(st, ta, link, p) == Out(st, [])
  {
  }

  // ---- path replies -------------------------------------------------------

  predicate PrepStale(rt: Route, link: nat, p: Prep) {
    && rt.valid
    && (|| SeqLt(p.targetseq, rt.seqno)
        || (SeqLeq(p.targetseq, rt.seqno) && MetricAdd(p.metric, link) > rt.metric))
  }

  function TargetRoute(rt: Route, ta: Addr, link: nat, p: Prep): Route {
    rt.(seqno := p.targetseq, retries := 0, nexthop := ta, metric := MetricAdd(p.metric, link),
        nhops := p.hopcount + 1, discover := false, valid := true)
  }

  function Propagate(st: Station, known: bool, link: nat, p: Prep): seq<Frame> {
    if st.me != p.orig && p.ttl > 1 && p.hopcount < st.cfg.maxhops && known then
      [ReplyFrame(st, Entry(st, p.orig).nexthop,
                  p.(hopcount := (p.hopcount + 1) % 256, ttl := p.ttl - 1, metric := MetricAdd(p.metric, link)))]
    else []
  }

  function RecvPrep(st: Station, ta: Addr, link: nat, p: Prep): Out {
    var rt := Entry(st, p.target);
    if (st.me != p.orig && !st.cfg.fwd) || PrepStale(rt, link, p) then Out(st, [])
    else
      var st1 := Put(st, p.target, TargetRoute(rt, ta, link, p));
      var st2 := UpdateTransmitter(st1, ta, link);
      Out(st2, Propagate(st2, p.orig in st.routes, link, p))
  }

  function Recv(st: Station, f: Frame, link: nat): Out {
    match f.body
    case Request(p) => RecvPreq(st, f.src, link, p)
    case Reply(p) => RecvPrep(st, f.src, link, p)
  }

  // ---- discovery ----------------------------------------------------------

  function DiscoveryPreq(st: Station, dest: Addr, origseq: nat): Preq {
    Preq(false, false, false, 0, st.cfg.ttl, st.preqid, st.me, origseq, st.cfg.lifetime, 0,
         1, st.cfg.targetOnly, true, dest, 0)
  }

  predicate MayDiscover(st: Station, rt: Route, now: int) {
    && !rt.discover && !rt.valid
    && !(rt.lastdiscovery != 0 && now - rt.lastdiscovery < 2 * st.cfg.traversal)
  }

  /** Path discovery for `dest`; `rate` says whether the rate limit lets the request out. */
  function Discover(st: Station, dest: Addr, now: int, rate: bool): Out {
    var rt := Entry(st, dest);
    if !MayDiscover(st, rt, now) then Out(Put(st, dest, rt), [])
    else if rt.retries >= st.cfg.maxRetries then Out(Put(st, dest, rt.(lastdiscovery := now)), [])
    else
      var st1 := st.(seqno := if rt.origseq == 0 then Inc32(st.seqno) else st.seqno, preqid := Inc32(st.preqid));
      var origseq := if rt.origseq == 0 then st1.seqno else rt.origseq;
      var rt1 := rt.(lastdiscovery := now, discover := true, gate := false, retries := rt.retries + 1,
                     origseq := origseq, metric := 0, timer := true);
      Out(Put(st1, dest, rt1),
          if rate then [Frame(st.me, BROADCAST, Request(DiscoveryPreq(st1, dest, origseq)))] else [])
  }

  /** The discovery timer of an entry. */
  function Rediscover(st: Station, dest: Addr, rate: bool): Out {
    var rt := Entry(st, dest);
    if !rt.timer || dest !in st.routes then Out(st, [])
    else if rt.valid || rt.retries >= st.cfg.maxRetries then Out(Put(st, dest, rt.(timer := false)), [])
    else
      var st1 := st.(preqid := Inc32(st.preqid));
      Out(Put(st1, dest, rt.(retries := rt.retries + 1)),
          if rate then [Frame(st.me, BROADCAST, Request(DiscoveryPreq(st1, dest, rt.origseq)))] else [])
  }

  /** The periodic request of a root station. */
  function RootRequest(st: Station): Out {
    var st1 := st.(seqno := Inc32(st.seqno), preqid := Inc32(st.preqid));
    Out(st1, [Frame(st.me, BROADCAST, Request(
      Preq(st.cfg.gateRole, false, st.cfg.proactive, 0, st.cfg.ttl, st1.preqid, st.me, st1.seqno, st.cfg.lifetime, 0,
           1, true, true, BROADCAST, 0)))])
  }
}
