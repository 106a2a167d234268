/** The HWMP handlers of one mesh station, updating its route table in place. */
module HwmpStation {
  import opened HwmpSpec

  class MeshVap {
    const me: Addr
    const cfg: Config
    var seqno: nat
    var preqid: nat
    var routes: map<Addr, Route>

    function State(): Station
      reads this
    {
      Station(me, cfg, seqno, preqid, routes)
    }

    constructor (me: Addr, cfg: Config)
      ensures State() == Station(me, cfg, 0, 0, map[])
    {
      this.me, this.cfg := me, cfg;
      seqno, preqid, routes := 0, 0, map[];
    }

    /** Find an entry, adding a zeroed one when there is none. */
    method FindOrAdd(a: Addr) returns (rt: Route)
      modifies this`routes
      ensures rt == Entry(old(State()), a) && State() == Put(old(State()), a, rt)
    {
      if a !in routes {
        routes := routes[a := NEW_ROUTE];
      }
      rt := routes[a];
      assert routes == old(routes)[a := rt];
    }

    method UpdateTransmitter(ta: Addr, link: nat)
      modifies this`routes
      ensures State() == HwmpSpec.UpdateTransmitter(old(State()), ta, link)
    {
      var rt := FindOrAdd(ta);
      if !rt.valid || rt.metric > link {
        routes := routes[ta := rt.(nexthop := ta, metric := link, nhops := 1, valid := true, discover := false, gate := false)];
      }
    }

    /** Update the originator's entry; `false` discards the request. */
    method UpdateOriginator(ta: Addr, link: nat, p: Preq) returns (go: bool)
      modifies this`routes
      ensures State() == Put(old(State()), p.orig, OrigRoute(Entry(old(State()), p.orig), ta, link, p))
      ensures go == !PreqStale(old(State()), link, p)
    {
      var known := p.taddr in routes;
      var rt := FindOrAdd(p.orig);
      var seen := rt.preqid;
      rt := rt.(preqid := SeqMax(rt.preqid, p.id));
      var metric := MetricAdd(p.metric, link);
      go := true;
      if SeqGt(p.origseq, rt.seqno) || (SeqEq(p.origseq, rt.seqno) && metric < rt.metric) {
        rt := rt.(seqno := p.origseq, nexthop := ta, metric := metric, nhops := p.hopcount + 1);
        rt := rt.(valid := true, discover := false, gate := false);
      } else if (known && !SeqEq(routes[p.taddr].seqno, p.tseq)) || (rt.valid && seen >= p.id) {
        go := false;
      }
      routes := routes[p.orig := rt];
    }

    /** A path request heard from `ta` over a link of metric `link`. */
    method RecvPreq(ta: Addr, link: nat, p: Preq) returns (sent: seq<Frame>)
      modifies this
      ensures Out(State(), sent) == HwmpSpec.RecvPreq(old(State()), ta, link, p)
    {
      sent := [];
      if me == p.orig {
        return;
      }
      if !cfg.fwd && (me != p.taddr || !Multicast(p.taddr)) {
        return;
      }
      var known := p.taddr in routes;
      if p.am && !known && me != p.taddr {
        return;
      }
      var go := UpdateOriginator(ta, link, p);
      if !go {
        return;
      }
      UpdateTransmitter(ta, link);
      if me == p.taddr {
        seqno := (SeqMax(seqno, p.tseq) + 1) % WORD;
        sent := [Frame(me, ta, Reply(Prep(0, cfg.ttl, me, seqno, p.lifetime, 0, p.orig, p.origseq)))];
        return;
      }
      sent := ProactiveReply(p);
      var more := ForwardPreq(known, link, p);
      sent := sent + more;
    }

    method ProactiveReply(p: Preq) returns (sent: seq<Frame>)
      requires p.orig in routes
      modifies this
      ensures Out(State(), sent) == Proactive(old(State()), p)
    {
      sent := [];
      if p.taddr == BROADCAST && p.to {
        if p.gate {
          routes := routes[p.orig := routes[p.orig].(gate := true)];
        }
        var rt := routes[p.orig];
        if !rt.valid || p.pp {
          seqno := Inc32(seqno);
          sent := [Frame(me, rt.nexthop, Reply(Prep(0, cfg.ttl, me, seqno, p.lifetime, 0, p.orig, p.origseq)))];
        }
      }
    }

    method ForwardPreq(known: bool, link: nat, p: Preq) returns (sent: seq<Frame>)
      requires p.orig in routes
      ensures sent == Forward(State(), known, link, p)
    {
      sent := [];
      if p.tcount == 1 && p.ttl > 1 && cfg.fwd {
        var next := p;
        var targ := Entry(State(), p.taddr);
        if known && targ.valid {
          if !p.to && p.taddr != BROADCAST {
            var rt := routes[p.orig];
            var reply := Prep(targ.nhops % 256, cfg.ttl, p.taddr, targ.seqno, p.lifetime, targ.metric, p.orig, rt.seqno);
            sent := [Frame(me, rt.nexthop, Reply(reply))];
            next := next.(to := true);
          }
        }
        next := next.(hopcount := (next.hopcount + 1) % 256, ttl := next.ttl - 1, metric := MetricAdd(next.metric, link));
        sent := sent + [Frame(me, BROADCAST, Request(next))];
      }
    }

    /** A path reply heard from `ta` over a link of metric `link`. */
    method RecvPrep(ta: Addr, link: nat, p: Prep) returns (sent: seq<Frame>)
      modifies this`routes
      ensures Out(State(), sent) == HwmpSpec.RecvPrep(old(State()), ta, link, p)
    {
      sent := [];
      var known := p.orig in routes;
      if me != p.orig && !cfg.fwd {
        return;
      }
      var rt := Entry(State(), p.target);
      var metric := MetricAdd(p.metric, link);
      if rt.valid {
        if SeqLt(p.targetseq, rt.seqno) {
          return;
        } else if SeqLeq(p.targetseq, rt.seqno) && metric > rt.metric {
          return;
        }
      }
      rt := rt.(seqno := p.targetseq, retries := 0, nexthop := ta, metric := metric, nhops := p.hopcount + 1);
      rt := rt.(discover := false, valid := true);
      routes := routes[p.target := rt];
      UpdateTransmitter(ta, link);
      if me != p.orig && p.ttl > 1 && p.hopcount < cfg.maxhops {
        if !known {
          return;
        }
        var next := p.(hopcount := (p.hopcount + 1) % 256, ttl := p.ttl - 1, metric := metric);
        sent := [Frame(me, Entry(State(), p.orig).nexthop, Reply(next))];
      }
    }

    /** Start looking for a path to `dest`. */
    method Discover(dest: Addr, now: int, rate: bool) returns (sent: seq<Frame>)
      requires dest != me && !Multicast(dest)
      modifies this
      ensures Out(State(), sent) == HwmpSpec.Discover(old(State()), dest, now, rate)
    {
      sent := [];
      var rt := FindOrAdd(dest);
      if rt.discover {
        return;
      }
      if !rt.valid {
        if rt.lastdiscovery != 0 && now - rt.lastdiscovery < 2 * cfg.traversal {
          return;
        }
        rt := rt.(lastdiscovery := now);
        if rt.retries >= cfg.maxRetries {
          routes := routes[dest := rt];
          return;
        }
        rt := rt.(discover := true, gate := false, retries := rt.retries + 1);
        if rt.origseq == 0 {
          seqno := Inc32(seqno);
          rt := rt.(origseq := seqno);
        }
        preqid := Inc32(preqid);
        rt := rt.(metric := 0, timer := true);
        routes := routes[dest := rt];
        if rate {
          sent := [Frame(me, BROADCAST, Request(DiscoveryPreq(State(), dest, rt.origseq)))];
        }
      }
    }

    /** The discovery timer of the entry for `dest` fires. */
    method Rediscover(dest: Addr, rate: bool) returns (sent: seq<Frame>)
      requires dest in routes && routes[dest].timer
      modifies this
      ensures Out(State(), sent) == HwmpSpec.Rediscover(old(State()), dest, rate)
    {
      sent := [];
      var rt := routes[dest].(timer := false);
      if !rt.valid && rt.retries < cfg.maxRetries {
        rt := rt.(retries := rt.retries + 1, timer := true);
        preqid := Inc32(preqid);
        if rate {
          sent := [Frame(me, BROADCAST, Request(DiscoveryPreq(State(), dest, rt.origseq)))];
        }
      }
      routes := routes[dest := rt];
    }

    /** The periodic request of a root station goes out. */
    method RootRequest() returns (sent: seq<Frame>)
      modifies this
      ensures Out(State(), sent) == HwmpSpec.RootRequest(old(State()))
    {
      preqid := Inc32(preqid);
      seqno := Inc32(seqno);
      sent := [Frame(me, BROADCAST, Request(
        Preq(cfg.gateRole, false, cfg.proactive, 0, cfg.ttl, preqid, me, seqno, cfg.lifetime, 0,
             1, true, true, BROADCAST, 0)))];
    }
  }
}
