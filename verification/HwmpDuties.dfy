/** What a station does with what it hears, in terms of the frame and of what it
    knew: when it passes a reply or a request on, when it answers for another
    station or the root, when it asks, and how often. */
module HwmpDuties {
  import opened HwmpSpec
  import opened HwmpLoops

  /** `a` comes before `b` in the 32-bit circle. */
  predicate Behind(a: nat, b: nat) { HALF <= (a - b) % WORD }

  predicate Equal(a: nat, b: nat) { (a - b) % WORD == 0 }

  lemma SeqIs(a: nat, b: nat)
    ensures SeqLt(a, b) <==> Behind(a, b)
    ensures SeqLeq(a, b) <==> Behind(a, b) || Equal(a, b)
    ensures SeqEq(a, b) <==> Equal(a, b)
    ensures SeqGt(a, b) <==> !Behind(a, b) && !Equal(a, b)
  {
  }

  // ---- replies --------------------------------------------------------------

  /** The station has a fresher path to the target, or one as fresh and shorter. */
  predicate Outdated(st: Station, link: nat, p: Prep) {
    && HasRoute(st, p.target)
    && var rt := st.routes[p.target];
       Behind(p.targetseq, rt.seqno) || (Equal(p.targetseq, rt.seqno) && rt.metric < (p.metric + link) % WORD)
  }

  predicate Taken(st: Station, link: nat, p: Prep) {
    (st.me == p.orig || st.cfg.fwd) && !Outdated(st, link, p)
  }

  /** One hop on: three fields change. */
  predicate OneHopOn(p: Prep, link: nat, q: Prep) {
    && q.hopcount == (p.hopcount + 1) % 256 && q.ttl == p.ttl - 1 && q.metric == (p.metric + link) % WORD
    && q.target == p.target && q.targetseq == p.targetseq && q.lifetime == p.lifetime
    && q.orig == p.orig && q.origseq == p.origseq
  }

  /** A reply is passed on, in one frame to the next hop for its originator,
      exactly when it is taken by another station than the originator, may go
      further, and the originator is known. */
  lemma RepliesPassedIff(st: Station, ta: Addr, link: nat, p: Prep)
    ensures var out := RecvPrep(st, ta, link, p);
            && (!Taken(st, link, p) ==> out == Out(st, []))
            && (out.frames != [] <==>
                  Taken(st, link, p) && st.me != p.orig && 1 < p.ttl && p.hopcount < st.cfg.maxhops && p.orig in st.routes)
            && (out.frames != [] ==>
                  && |out.frames| == 1 && out.frames[0].src == st.me
                  && p.orig in out.st.routes && out.frames[0].dst == out.st.routes[p.orig].nexthop
                  && (p.orig != p.target && p.orig != ta ==> out.frames[0].dst == st.routes[p.orig].nexthop)
                  && out.frames[0].body.Reply? && OneHopOn(p, link, out.frames[0].body.prep))
  {
    SeqIs(p.targetseq, Entry(st, p.target).seqno);
  }

  /** The neighbour a frame came from is one hop away, unless a path no longer than
      this link is known, which is then kept. */
  predicate NeighbourKnown(st: Station, st': Station, ta: Addr, link: nat) {
    && ta in st'.routes
    && if HasRoute(st, ta) && st.routes[ta].metric <= link then st'.routes[ta] == st.routes[ta]
       else
         && HasRoute(st', ta) && st'.routes[ta].nexthop == ta && st'.routes[ta].metric == link && st'.routes[ta].nhops == 1
         && !st'.routes[ta].discover && !st'.routes[ta].gate
  }

  /** What a reply teaches: the path to its target, unless the neighbour it came
      from is the target; and that neighbour, over this link or a shorter way. */
  lemma ReplyTeaches(st: Station, ta: Addr, link: nat, p: Prep)
    requires Taken(st, link, p)
    ensures var st' := RecvPrep(st, ta, link, p).st;
            && HasRoute(st', ta) && st'.routes[ta].metric <= link
            && HasRoute(st', p.target) && st'.routes[p.target].nexthop == ta && st'.routes[p.target].seqno == p.targetseq
            && (ta != p.target ==>
                  && st'.routes[p.target].metric == (p.metric + link) % WORD && st'.routes[p.target].nhops == p.hopcount + 1
                  && NeighbourKnown(st, st', ta, link))
            && !st'.routes[p.target].discover && st'.routes[p.target].retries == 0
            && forall d :: d != ta && d != p.target ==>
                 (d in st'.routes <==> d in st.routes) && (d in st.routes ==> st'.routes[d] == st.routes[d])
  {
    SeqIs(p.targetseq, Entry(st, p.target).seqno);
  }

  // ---- requests -------------------------------------------------------------

  /** The request offers a fresher path to its originator, or one as fresh and shorter. */
  predicate Offers(st: Station, link: nat, p: Preq) {
    var rt := Entry(st, p.orig);
    || (!Behind(p.origseq, rt.seqno) && !Equal(p.origseq, rt.seqno))
    || (Equal(p.origseq, rt.seqno) && (p.metric + link) % WORD < rt.metric)
  }

  /** Of a request for another station: it is looked at, and it is news. */
  predicate Heeded(st: Station, link: nat, p: Preq) {
    && st.me != p.orig && st.cfg.fwd && (p.am ==> p.taddr in st.routes)
    && (|| Offers(st, link, p)
        || ((p.taddr in st.routes ==> Equal(st.routes[p.taddr].seqno, p.tseq))
            && !(HasRoute(st, p.orig) && p.id <= st.routes[p.orig].preqid)))
  }

  /** The request one hop on; a station that answered it asks the others to pass it only. */
  predicate RequestOn(p: Preq, link: nat, answered: bool, q: Preq) {
    && q == p.(hopcount := q.hopcount, ttl := q.ttl, metric := q.metric, to := q.to)
    && q.hopcount == (p.hopcount + 1) % 256 && q.ttl == p.ttl - 1 && q.metric == (p.metric + link) % WORD
    && (q.to <==> p.to || answered)
  }

  /** An answer for another station: its number, and as long a path as the station has. */
  predicate AnswersFor(st: Station, p: Preq, f: Frame) {
    && p.orig in st.routes && p.taddr in st.routes
    && f.src == st.me && f.dst == st.routes[p.orig].nexthop && f.body.Reply?
    && var r, rt := f.body.prep, st.routes[p.taddr];
    && r.target == p.taddr && r.targetseq == rt.seqno && r.metric == rt.metric && r.hopcount == rt.nhops % 256
    && r.ttl == st.cfg.ttl && r.lifetime == p.lifetime && r.orig == p.orig && r.origseq == st.routes[p.orig].seqno
  }

  /** A request for another station goes on, to all neighbours, exactly when it is
      heeded, may go further and names one target; and the station answers it too
      exactly when it knew the target before, has a path to it and may. */
  lemma RequestsPassedIff(st: Station, ta: Addr, link: nat, p: Preq)
    requires p.taddr != st.me && p.taddr != BROADCAST
    ensures var out := RecvPreq(st, ta, link, p);
            var goesOn := Heeded(st, link, p) && p.tcount == 1 && 1 < p.ttl;
            var answered := goesOn && p.taddr in st.routes && HasRoute(out.st, p.taddr) && !p.to;
            && |out.frames| == (if answered then 2 else if goesOn then 1 else 0)
            && (goesOn ==> PassedOn(st, link, p, answered, out.frames[|out.frames| - 1]))
            && (answered ==> AnswersFor(out.st, p, out.frames[0]))
  {
    HeedsIff(st, link, p);
  }

  /** To all neighbours, one hop on. */
  predicate PassedOn(st: Station, link: nat, p: Preq, answered: bool, f: Frame) {
    f.src == st.me && f.dst == BROADCAST && f.body.Request? && RequestOn(p, link, answered, f.body.preq)
  }

  lemma HeedsIff(st: Station, link: nat, p: Preq)
    requires p.taddr != st.me
    ensures Heeded(st, link, p) <==> PreqAcceptable(st, p) && !PreqStale(st, link, p)
  {
    SeqIs(p.origseq, Entry(st, p.orig).seqno);
    if p.taddr in st.routes {
      SeqIs(st.routes[p.taddr].seqno, p.tseq);
    }
  }

  /** The station's reply to a root, under its next number. */
  predicate AnswersRoot(st: Station, st': Station, p: Preq, f: Frame) {
    && p.orig in st'.routes && st'.seqno == (st.seqno + 1) % WORD
    && f.src == st.me && f.dst == st'.routes[p.orig].nexthop && f.body.Reply?
    && f.body.prep == Prep(0, st.cfg.ttl, st.me, st'.seqno, p.lifetime, 0, p.orig, p.origseq)
  }

  /** A root's request goes on in the same way; the root is answered exactly when
      it asks for that or the station has no valid path to it, and it is taken
      for a gate when it says so. */
  lemma RootsHeardIff(st: Station, ta: Addr, link: nat, p: Preq)
    requires p.taddr == BROADCAST != st.me && p.to
    ensures var out := RecvPreq(st, ta, link, p);
            var heeded := Heeded(st, link, p);
            var goesOn := heeded && p.tcount == 1 && 1 < p.ttl;
            var answered := heeded && (p.pp || !HasRoute(out.st, p.orig));
            && |out.frames| == (if answered then 1 else 0) + (if goesOn then 1 else 0)
            && (goesOn ==> PassedOn(st, link, p, false, out.frames[|out.frames| - 1]))
            && (answered ==> AnswersRoot(st, out.st, p, out.frames[0]))
            && (!answered ==> out.st.seqno == st.seqno)
            && (heeded && p.gate ==> out.st.routes[p.orig].gate)
            && (heeded && !p.gate && Offers(st, link, p) ==> !out.st.routes[p.orig].gate)
  {
    HeedsIff(st, link, p);
    SeqIs(p.origseq, Entry(st, p.orig).seqno);
  }

  /** What a heeded request teaches: its originator, the better of the path it
      brought and the one known; and the neighbour it came from. */
  lemma RequestTeaches(st: Station, ta: Addr, link: nat, p: Preq)
    requires p.taddr != st.me && Heeded(st, link, p)
    ensures var st' := RecvPreq(st, ta, link, p).st;
            && HasRoute(st', ta) && st'.routes[ta].metric <= link
            && p.orig in st'.routes
            && (Offers(st, link, p) ==>
                  && HasRoute(st', p.orig) && st'.routes[p.orig].nexthop == ta && st'.routes[p.orig].seqno == p.origseq
                  && (ta != p.orig ==>
                        st'.routes[p.orig].metric == (p.metric + link) % WORD && st'.routes[p.orig].nhops == p.hopcount + 1))
            && (ta != p.orig ==> NeighbourKnown(st, st', ta, link))
            && st'.routes[p.orig].preqid == (if Entry(st, p.orig).preqid > p.id then Entry(st, p.orig).preqid else p.id)
            && (!Offers(st, link, p) && ta != p.orig && p.orig in st.routes ==>
                  && st'.routes[p.orig].nexthop == st.routes[p.orig].nexthop
                  && st'.routes[p.orig].metric == st.routes[p.orig].metric
                  && st'.routes[p.orig].valid == st.routes[p.orig].valid)
  {
    HeedsIff(st, link, p);
    SeqIs(p.origseq, Entry(st, p.orig).seqno);
  }

  /** Heard again, over a path no shorter, the same request is dropped: it goes
      around a mesh once. */
  lemma HeardAgain(st: Station, ta: Addr, link: nat, p: Preq, ta': Addr, link': nat)
    requires p.taddr != st.me && Heeded(st, link, p)
    requires var st' := RecvPreq(st, ta, link, p).st; HasRoute(st', p.orig) && !Offers(st', link', p)
    ensures RecvPreq(RecvPreq(st, ta, link, p).st, ta', link', p).frames == []
  {
    var st' := RecvPreq(st, ta, link, p).st;
    HeedsIff(st, link, p);
    assert p.id <= st'.routes[p.orig].preqid;
    SeqIs(p.origseq, st'.routes[p.orig].seqno);
  }

  // ---- asking ---------------------------------------------------------------

  /** A station's own request for `dest`: nothing behind it, one target. */
  predicate Asks(st: Station, st': Station, dest: Addr, f: Frame) {
    && f.src == st.me && f.dst == BROADCAST && f.body.Request? && dest in st'.routes
    && st'.preqid == (st.preqid + 1) % WORD
    && f.body.preq == Preq(false, false, false, 0, st.cfg.ttl, st'.preqid, st.me, st'.routes[dest].origseq, st.cfg.lifetime,
                           0, 1, st.cfg.targetOnly, true, dest, 0)
  }

  /** A discovery sends its request exactly when none is under way, no valid path
      is known, the last attempt is long enough ago, tries are left and the rate
      limit allows. */
  lemma DiscoveryAsksIff(st: Station, dest: Addr, now: int, rate: bool)
    ensures var out, rt := Discover(st, dest, now, rate), Entry(st, dest);
            var starts := !rt.discover && !rt.valid && (rt.lastdiscovery == 0 || 2 * st.cfg.traversal <= now - rt.lastdiscovery)
                          && rt.retries < st.cfg.maxRetries;
            && |out.frames| == (if starts && rate then 1 else 0)
            && (starts && rate ==> Asks(st, out.st, dest, out.frames[0]))
            && (starts ==> var rt' := out.st.routes[dest];
                  && rt'.discover && rt'.timer && rt'.retries == rt.retries + 1 && rt'.lastdiscovery == now
                  && rt'.origseq == (if rt.origseq == 0 then out.st.seqno else rt.origseq))
            && (!starts ==> out.st.seqno == st.seqno && out.st.preqid == st.preqid)
  {
  }

  /** A root's periodic request: to all, for no station in particular, under the
      next sequence number and identifier, and with what the root is. */
  lemma RootAsks(st: Station)
    ensures var out := RootRequest(st);
            && |out.frames| == 1 && out.st == st.(seqno := out.st.seqno, preqid := out.st.preqid)
            && out.st.seqno == (st.seqno + 1) % WORD && out.st.preqid == (st.preqid + 1) % WORD
            && var f := out.frames[0];
               && f.src == st.me && f.dst == BROADCAST && f.body.Request?
               && var q := f.body.preq;
                  && q.gate == st.cfg.gateRole && q.pp == st.cfg.proactive && !q.am && q.to && q.usn && q.taddr == BROADCAST
                  && q.orig == st.me && q.origseq == out.st.seqno && q.id == out.st.preqid && q.tcount == 1 && q.tseq == 0
                  && q.hopcount == 0 && q.metric == 0 && q.ttl == st.cfg.ttl && q.lifetime == st.cfg.lifetime
  {
  }

  /** The timer of `dest` fires `n` times and nothing else happens. */
  function Fires(st: Station, dest: Addr, n: nat): Out
    decreases n
  {
    if n == 0 then Out(st, [])
    else
      var out := Rediscover(st, dest, true);
      var rest := Fires(out.st, dest, n - 1);
      Out(rest.st, out.frames + rest.frames)
  }

  /** A station that gets no answer asks again each time its timer fires, until
      the tries are used up, and then the timer is off. */
  lemma {:induction false} TriesUsedUp(st: Station, dest: Addr, n: nat)
    requires dest in st.routes && !st.routes[dest].valid && st.routes[dest].timer && st.routes[dest].retries <= st.cfg.maxRetries
    ensures var out, left := Fires(st, dest, n), st.cfg.maxRetries - st.routes[dest].retries;
            && |out.frames| == (if n <= left then n else left)
            && dest in out.st.routes && (out.st.routes[dest].timer <==> n <= left)
            && out.st.routes[dest].retries == st.routes[dest].retries + |out.frames|
    decreases n
  {
    if n > 0 {
      var out := Rediscover(st, dest, true);
      if st.routes[dest].retries < st.cfg.maxRetries {
        TriesUsedUp(out.st, dest, n - 1);
      } else {
        TimerOff(out.st, dest, n - 1);
      }
    }
  }

  lemma {:induction false} TimerOff(st: Station, dest: Addr, n: nat)
    requires dest in st.routes && !st.routes[dest].timer
    ensures Fires(st, dest, n) == Out(st, [])
    decreases n
  {
    if n > 0 {
      TimerOff(st, dest, n - 1);
    }
  }

  /** Each of those is the station's own request. */
  lemma RetryAsksIff(st: Station, dest: Addr, rate: bool)
    requires dest in st.routes && st.routes[dest].timer
    ensures var out, rt := Rediscover(st, dest, rate), st.routes[dest];
            var again := !rt.valid && rt.retries < st.cfg.maxRetries;
            && |out.frames| == (if again && rate then 1 else 0)
            && (again && rate ==> Asks(st, out.st, dest, out.frames[0]))
            && out.st.routes[dest] == rt.(timer := again, retries := if again then rt.retries + 1 else rt.retries)
  {
  }
}
