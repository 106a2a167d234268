/** Loop freedom of HWMP over every run of a mesh whose frames may be lost,
    duplicated and reordered. */
module HwmpLoops {
  import opened HwmpSpec

  // ---- one station --------------------------------------------------------

  /** Path (seqno, metric) is at least as good as (s, m): fresher, or as fresh and no longer. */
  predicate NoWorse(seqno: nat, metric: nat, s: nat, m: nat) {
    seqno > s || (seqno == s && metric <= m)
  }

  predicate Better(seqno: nat, metric: nat, s: nat, m: nat) {
    seqno > s || (seqno == s && metric < m)
  }

  predicate HasRoute(st: Station, d: Addr) {
    d in st.routes && st.routes[d].valid
  }

  /** The station is `d`, or has a path to it no worse than (s, m). */
  ghost predicate Vouches(st: Station, d: Addr, s: nat, m: nat) {
    d == st.me || (HasRoute(st, d) && NoWorse(st.routes[d].seqno, st.routes[d].metric, s, m))
  }

  ghost predicate Ahead(st: Station, d: Addr, s: nat, m: nat) {
    d == st.me || (HasRoute(st, d) && Better(st.routes[d].seqno, st.routes[d].metric, s, m))
  }

  ghost predicate RouteOk(rt: Route) {
    && rt.seqno < HALF && rt.metric < WORD && rt.origseq < HALF
    && (!rt.valid ==> rt.seqno == 0)
    && (rt.timer ==> 1 <= rt.origseq)
  }

  ghost predicate StationOk(st: Station) {
    && st.seqno < HALF
    && forall d <- st.routes :: RouteOk(st.routes[d])
  }

  /** A frame promises only what its transmitter has. */
  ghost predicate Honest(st: Station, f: Frame) {
    && f.src == st.me
    && match f.body
       case Request(p) => 1 <= p.origseq < HALF && p.metric < WORD && p.tseq < HALF && Vouches(st, p.orig, p.origseq, p.metric)
       case Reply(p) => p.targetseq < HALF && p.metric < WORD && Vouches(st, p.target, p.targetseq, p.metric)
  }

  /** Valid routes stay valid and only improve. */
  ghost predicate Improves(st: Station, st': Station) {
    && st'.me == st.me
    && forall d | HasRoute(st, d) ::
         HasRoute(st', d) && NoWorse(st'.routes[d].seqno, st'.routes[d].metric, st.routes[d].seqno, st.routes[d].metric)
  }

  /** Every valid route of `st'` is one of `st`, or leads through neighbour `ta`,
      which is `d` itself or vouches for less than the route claims. */
  ghost predicate RoutesVia(st: Station, st': Station, ta: Station) {
    forall d | HasRoute(st', d) && d != st.me ::
      var rt' := st'.routes[d];
      || (HasRoute(st, d) && st.routes[d].nexthop == rt'.nexthop
          && st.routes[d].seqno == rt'.seqno && st.routes[d].metric == rt'.metric)
      || (rt'.nexthop == ta.me && Ahead(ta, d, rt'.seqno, rt'.metric))
  }

  lemma VouchesKept(st: Station, st': Station, d: Addr, s: nat, m: nat)
    requires Improves(st, st')
    ensures Vouches(st, d, s, m) ==> Vouches(st', d, s, m)
    ensures Ahead(st, d, s, m) ==> Ahead(st', d, s, m)
  {
  }

  lemma ImprovesTrans(a: Station, b: Station, c: Station)
    requires Improves(a, b) && Improves(b, c)
    ensures Improves(a, c)
  {
  }

  lemma ViaTrans(a: Station, b: Station, c: Station, ta: Station)
    requires RoutesVia(a, b, ta) && RoutesVia(b, c, ta) && a.me == b.me
    ensures RoutesVia(a, c, ta)
  {
  }

  /** One entry written: improved, and through `ta` if changed. */
  lemma PutImproves(st: Station, a: Addr, rt: Route, ta: Station)
    requires StationOk(st) && RouteOk(rt)
    requires var o := Entry(st, a);
             || (rt.valid == o.valid && rt.nexthop == o.nexthop && rt.seqno == o.seqno && rt.metric == o.metric)
             || (rt.valid && (o.valid ==> NoWorse(rt.seqno, rt.metric, o.seqno, o.metric))
                 && (a != st.me ==> rt.nexthop == ta.me && Ahead(ta, a, rt.seqno, rt.metric)))
             || (!rt.valid && !o.valid)
    ensures StationOk(Put(st, a, rt)) && Improves(st, Put(st, a, rt)) && RoutesVia(st, Put(st, a, rt), ta)
  {
  }

  /** What one handler must guarantee, given the neighbour it heard from. */
  ghost predicate Handled(st: Station, out: Out, ta: Station) {
    && StationOk(out.st) && Improves(st, out.st) && RoutesVia(st, out.st, ta)
    && out.st.cfg == st.cfg
    && forall f <- out.frames :: Honest(out.st, f)
  }

  lemma NeighbourHandled(st: Station, ta: Station, link: nat)
    requires StationOk(st) && 0 < link < WORD
    ensures var st' := UpdateTransmitter(st, ta.me, link);
            StationOk(st') && Improves(st, st') && RoutesVia(st, st', ta)
  {
    var rt := Entry(st, ta.me);
    assert RouteOk(rt);
    PutImproves(st, ta.me, Neighbour(rt, ta.me, link), ta);
  }

  lemma OrigHandled(st: Station, ta: Station, link: nat, p: Preq)
    requires StationOk(st) && 0 < link && p.metric + link < WORD && 1 <= p.origseq < HALF
    requires Vouches(ta, p.orig, p.origseq, p.metric)
    ensures var st1 := Put(st, p.orig, OrigRoute(Entry(st, p.orig), ta.me, link, p));
            && StationOk(st1) && Improves(st, st1) && RoutesVia(st, st1, ta)
            && Vouches(st1, p.orig, p.origseq, p.metric + link)
  {
    var rt := Entry(st, p.orig);
    assert RouteOk(rt);
    SeqOrder(p.origseq, rt.seqno);
    PutImproves(st, p.orig, OrigRoute(rt, ta.me, link, p), ta);
  }

  lemma TargetHandled(st: Station, ta: Station, link: nat, p: Prep)
    requires StationOk(st) && 0 < link && p.metric + link < WORD && p.targetseq < HALF
    requires Vouches(ta, p.target, p.targetseq, p.metric) && !PrepStale(Entry(st, p.target), link, p)
    ensures var st1 := Put(st, p.target, TargetRoute(Entry(st, p.target), ta.me, link, p));
            && StationOk(st1) && Improves(st, st1) && RoutesVia(st, st1, ta)
            && Vouches(st1, p.target, p.targetseq, p.metric + link)
  {
    var rt := Entry(st, p.target);
    assert RouteOk(rt);
    SeqOrder(p.targetseq, rt.seqno);
    PutImproves(st, p.target, TargetRoute(rt, ta.me, link, p), ta);
  }

  /** Only the station's own counters differ. */
  lemma CountersHandled(st: Station, st': Station, ta: Station)
    requires StationOk(st) && st' == st.(seqno := st'.seqno, preqid := st'.preqid) && st'.seqno < HALF
    ensures StationOk(st') && Improves(st, st') && RoutesVia(st, st', ta)
  {
  }

  lemma AnswerHandled(st: Station, ta: Station, p: Preq)
    requires StationOk(st) && Answer(st, ta.me, p).st.seqno < HALF
    ensures Handled(st, Answer(st, ta.me, p), ta)
  {
    CountersHandled(st, Answer(st, ta.me, p).st, ta);
  }

  lemma ProactiveHandled(st: Station, ta: Station, p: Preq)
    requires StationOk(st) && p.orig in st.routes && Proactive(st, p).st.seqno < HALF
    ensures Handled(st, Proactive(st, p), ta)
    ensures p.orig in Proactive(st, p).st.routes
  {
    if p.taddr == BROADCAST && p.to {
      var rt := st.routes[p.orig];
      assert RouteOk(rt);
      var st1 := if p.gate then Put(st, p.orig, rt.(gate := true)) else st;
      PutImproves(st, p.orig, rt.(gate := true), ta);
      CountersHandled(st1, Proactive(st, p).st, ta);
      ImprovesTrans(st, st1, Proactive(st, p).st);
      ViaTrans(st, st1, Proactive(st, p).st, ta);
    }
  }

  lemma ForwardHonest(st: Station, known: bool, link: nat, p: Preq)
    requires StationOk(st) && p.orig in st.routes
    requires 1 <= p.origseq < HALF && p.tseq < HALF && p.metric + link < WORD
    requires Vouches(st, p.orig, p.origseq, p.metric + link)
    ensures forall f <- Forward(st, known, link, p) :: Honest(st, f)
  {
    assert RouteOk(Entry(st, p.taddr));
  }

  lemma Compose(a: Station, b: Station, c: Station, ta: Station)
    requires Improves(a, b) && RoutesVia(a, b, ta) && Improves(b, c) && RoutesVia(b, c, ta)
    ensures Improves(a, c) && RoutesVia(a, c, ta)
  {
    ImprovesTrans(a, b, c);
    ViaTrans(a, b, c, ta);
  }

  /** A request that gets past the sequence-number checks. */
  lemma FreshPreqHandled(st: Station, st2: Station, ta: Station, known: bool, link: nat, p: Preq)
    requires StationOk(st2) && Improves(st, st2) && RoutesVia(st, st2, ta) && st2.cfg == st.cfg
    requires 1 <= p.origseq < HALF && p.tseq < HALF && p.metric + link < WORD && p.orig != st.me
    requires p.orig in st2.routes && Vouches(st2, p.orig, p.origseq, p.metric + link)
    requires Proactive(st2, p).st.seqno < HALF
    ensures var pro := Proactive(st2, p);
            Handled(st, Out(pro.st, pro.frames + Forward(pro.st, known, link, p)), ta)
  {
    var pro := Proactive(st2, p);
    ProactiveHandled(st2, ta, p);
    Compose(st, st2, pro.st, ta);
    VouchesKept(st2, pro.st, p.orig, p.origseq, p.metric + link);
    ForwardHonest(pro.st, known, link, p);
  }

  lemma RecvPreqHandled(st: Station, ta: Station, dst: Addr, link: nat, p: Preq)
    requires StationOk(st) && 0 < link && p.metric + link < WORD
    requires Honest(ta, Frame(ta.me, dst, Request(p)))
    requires RecvPreq(st, ta.me, link, p).st.seqno < HALF
    ensures Handled(st, RecvPreq(st, ta.me, link, p), ta)
  {
    if PreqAcceptable(st, p) {
      var st1 := Put(st, p.orig, OrigRoute(Entry(st, p.orig), ta.me, link, p));
      OrigHandled(st, ta, link, p);
      if !PreqStale(st, link, p) {
        var st2 := UpdateTransmitter(st1, ta.me, link);
        NeighbourHandled(st1, ta, link);
        VouchesKept(st1, st2, p.orig, p.origseq, p.metric + link);
        Compose(st, st1, st2, ta);
        if st.me == p.taddr {
          AnswerHandled(st2, ta, p);
          Compose(st, st2, Answer(st2, ta.me, p).st, ta);
        } else {
          FreshPreqHandled(st, st2, ta, p.taddr in st.routes, link, p);
        }
      }
    }
  }

  lemma RecvPrepHandled(st: Station, ta: Station, dst: Addr, link: nat, p: Prep)
    requires StationOk(st) && 0 < link && p.metric + link < WORD
    requires Honest(ta, Frame(ta.me, dst, Reply(p)))
    ensures Handled(st, RecvPrep(st, ta.me, link, p), ta)
  {
    var rt := Entry(st, p.target);
    if !((st.me != p.orig && !st.cfg.fwd) || PrepStale(rt, link, p)) {
      var st1 := Put(st, p.target, TargetRoute(rt, ta.me, link, p));
      TargetHandled(st, ta, link, p);
      var st2 := UpdateTransmitter(st1, ta.me, link);
      NeighbourHandled(st1, ta, link);
      VouchesKept(st1, st2, p.target, p.targetseq, p.metric + link);
      Compose(st, st1, st2, ta);
    }
  }

  lemma RecvHandled(st: Station, ta: Station, f: Frame, link: nat)
    requires StationOk(st) && 0 < link && Honest(ta, f)
    requires (match f.body case Request(p) => p.metric case Reply(p) => p.metric) + link < WORD
    requires Recv(st, f, link).st.seqno < HALF
    ensures Handled(st, Recv(st, f, link), ta)
  {
    match f.body
    case Request(p) => RecvPreqHandled(st, ta, f.dst, link, p);
    case Reply(p) => RecvPrepHandled(st, ta, f.dst, link, p);
  }

  /** Starting a discovery changes no usable route, whoever `ta` is. */
  lemma DiscoverHandled(st: Station, dest: Addr, now: int, rate: bool, ta: Station)
    requires StationOk(st) && Discover(st, dest, now, rate).st.seqno < HALF
    ensures Handled(st, Discover(st, dest, now, rate), ta)
  {
    var rt := Entry(st, dest);
    assert RouteOk(rt);
    var st' := Discover(st, dest, now, rate).st;
    if MayDiscover(st, rt, now) && rt.retries < st.cfg.maxRetries {
      var st1 := st.(seqno := st'.seqno, preqid := st'.preqid);
      CountersHandled(st, st1, ta);
      PutImproves(st1, dest, st'.routes[dest], ta);
      Compose(st, st1, st', ta);
    } else {
      PutImproves(st, dest, st'.routes[dest], ta);
    }
  }

  lemma RediscoverHandled(st: Station, dest: Addr, rate: bool, ta: Station)
    requires StationOk(st)
    ensures Handled(st, Rediscover(st, dest, rate), ta)
  {
    var rt := Entry(st, dest);
    if dest in st.routes && rt.timer {
      assert RouteOk(rt);
      var st' := Rediscover(st, dest, rate).st;
      var st1 := st.(preqid := st'.preqid);
      CountersHandled(st, st1, ta);
      PutImproves(st1, dest, st'.routes[dest], ta);
      Compose(st, st1, st', ta);
    }
  }

  lemma RootHandled(st: Station, ta: Station)
    requires StationOk(st) && RootRequest(st).st.seqno < HALF
    ensures Handled(st, RootRequest(st), ta)
  {
    CountersHandled(st, RootRequest(st).st, ta);
  }
}
