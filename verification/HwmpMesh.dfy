/** A mesh of HWMP stations. Every frame ever sent stays available, so that it
    may be received late, repeatedly, out of order, by any other station, or
    never. Link metrics are positive and may differ at every reception. */
module HwmpMesh {
  import opened HwmpSpec
  import opened HwmpLoops

  datatype Net = Net(stations: map<Addr, Station>, sent: set<Frame>)

  datatype Action =
    | Receive(at: Addr, f: Frame, link: nat)
    | Discovery(at: Addr, dest: Addr, now: int, rate: bool)
    | Retry(at: Addr, dest: Addr, rate: bool)
    | RootTick(at: Addr)

  function Metric(f: Frame): nat {
    match f.body case Request(p) => p.metric case Reply(p) => p.metric
  }

  /** When an action can happen. */
  predicate Possible(net: Net, a: Action) {
    && a.at in net.stations
    && match a
       case Receive(at, f, link) => f in net.sent && f.src != at && 0 < link < WORD
       case Discovery(at, dest, _, _) => dest != at && !Multicast(dest)
       case Retry(_, _, _) => true
       case RootTick(_) => true
  }

  /** And forms no path metric that wraps. */
  predicate Enabled(net: Net, a: Action) {
    Possible(net, a) && (a.Receive? ==> Metric(a.f) + a.link < WORD)
  }

  function Handle(st: Station, a: Action): Out {
    match a
    case Receive(_, f, link) => Recv(st, f, link)
    case Discovery(_, dest, now, rate) => Discover(st, dest, now, rate)
    case Retry(_, dest, rate) => Rediscover(st, dest, rate)
    case RootTick(_) => RootRequest(st)
  }

  function Act(net: Net, a: Action): Net
    requires a.at in net.stations
  {
    var out := Handle(net.stations[a.at], a);
    Net(net.stations[a.at := out.st], net.sent + set f <- out.frames)
  }

  ghost predicate Initial(net: Net) {
    && net.sent == {}
    && forall x <- net.stations ::
         var st := net.stations[x];
         st.me == x && st.seqno == 0 && st.preqid == 0 && st.routes == map[]
  }

  /** No station's sequence number has passed half its space. */
  ghost predicate Unwrapped(net: Net) {
    forall x <- net.stations :: net.stations[x].seqno < HALF
  }

  /** A run: actions enabled one after the other, sequence numbers never wrapping. */
  ghost predicate IsRun(net: Net, actions: seq<Action>, last: Net)
    decreases |actions|
  {
    if actions == [] then last == net
    else
      && Enabled(net, actions[0])
      && Unwrapped(Act(net, actions[0]))
      && IsRun(Act(net, actions[0]), actions[1..], last)
  }

  // ---- the invariant ------------------------------------------------------

  /** The next hop of a route is its destination or has a strictly better route. */
  ghost predicate Grounded(net: Net, x: Addr, d: Addr)
    requires x in net.stations && d in net.stations[x].routes
  {
    var rt := net.stations[x].routes[d];
    rt.nexthop in net.stations && Ahead(net.stations[rt.nexthop], d, rt.seqno, rt.metric)
  }

  ghost predicate Inv(net: Net) {
    && (forall x <- net.stations :: net.stations[x].me == x && StationOk(net.stations[x]))
    && (forall x, d | x in net.stations && HasRoute(net.stations[x], d) && d != x :: Grounded(net, x, d))
    && (forall f <- net.sent :: f.src in net.stations && Honest(net.stations[f.src], f))
  }

  /** The neighbour an action learns from; one of the station's own teaches it nothing. */
  function Teacher(net: Net, a: Action): Station
    requires Enabled(net, a) && (a.Receive? ==> a.f.src in net.stations)
  {
    if a.Receive? then net.stations[a.f.src] else Handle(net.stations[a.at], a).st
  }

  lemma HandleHandled(net: Net, a: Action)
    requires Inv(net) && Enabled(net, a) && Unwrapped(Act(net, a))
    ensures Handled(net.stations[a.at], Handle(net.stations[a.at], a), Teacher(net, a))
  {
    var st := net.stations[a.at];
    assert Act(net, a).stations[a.at] == Handle(st, a).st;
    match a
    case Receive(_, f, link) => RecvHandled(st, net.stations[f.src], f, link);
    case Discovery(_, dest, now, rate) => DiscoverHandled(st, dest, now, rate, Teacher(net, a));
    case Retry(_, dest, rate) => RediscoverHandled(st, dest, rate, Teacher(net, a));
    case RootTick(_) => RootHandled(st, Teacher(net, a));
  }

  /** A station replaced by an improved self: what was grounded or honest stays so. */
  lemma ReplaceKeeps(net: Net, x: Addr, st': Station, ta: Addr)
    requires Inv(net) && x in net.stations && ta in net.stations
    requires StationOk(st') && Improves(net.stations[x], st')
    requires RoutesVia(net.stations[x], st', if ta == x then st' else net.stations[ta])
    ensures Inv(Net(net.stations[x := st'], net.sent))
  {
    var st := net.stations[x];
    var net' := Net(net.stations[x := st'], net.sent);
    forall z, d | z in net'.stations && HasRoute(net'.stations[z], d) && d != z
      ensures Grounded(net', z, d)
    {
      var rt := net'.stations[z].routes[d];
      assert HasRoute(net.stations[z], d) ==> Grounded(net, z, d);
      VouchesKept(st, st', d, rt.seqno, rt.metric);
    }
    forall f | f in net'.sent
      ensures f.src in net'.stations && Honest(net'.stations[f.src], f)
    {
      match f.body
      case Request(p) => VouchesKept(st, st', p.orig, p.origseq, p.metric);
      case Reply(p) => VouchesKept(st, st', p.target, p.targetseq, p.metric);
    }
  }

  /** Every action keeps the invariant. */
  lemma ActKeeps(net: Net, a: Action)
    requires Inv(net) && Enabled(net, a) && Unwrapped(Act(net, a))
    ensures Inv(Act(net, a))
  {
    HandleHandled(net, a);
    ReplaceKeeps(net, a.at, Handle(net.stations[a.at], a).st, if a.Receive? then a.f.src else a.at);
  }

  lemma {:induction false} RunKeeps(net: Net, actions: seq<Action>, last: Net)
    requires Inv(net) && IsRun(net, actions, last)
    ensures Inv(last)
    decreases |actions|
  {
    if actions != [] {
      ActKeeps(net, actions[0]);
      RunKeeps(Act(net, actions[0]), actions[1..], last);
    }
  }

  // ---- following next hops ------------------------------------------------

  /** Where station `x` sends a frame for `d`; it keeps what it cannot forward. */
  function Hop(net: Net, x: Addr, d: Addr): Addr {
    if x != d && x in net.stations && HasRoute(net.stations[x], d) then net.stations[x].routes[d].nexthop else x
  }

  function Hops(net: Net, x: Addr, d: Addr, k: nat): Addr
    decreases k
  {
    if k == 0 then x else Hops(net, Hop(net, x, d), d, k - 1)
  }

  /** The stations that have a strictly better route to `d` than `x` does. */
  function Nearer(net: Net, x: Addr, d: Addr): set<Addr>
    requires x in net.stations && HasRoute(net.stations[x], d)
  {
    var rt := net.stations[x].routes[d];
    set y <- net.stations | y != d && HasRoute(net.stations[y], d)
      && Better(net.stations[y].routes[d].seqno, net.stations[y].routes[d].metric, rt.seqno, rt.metric)
  }

  lemma HopIsNearer(net: Net, x: Addr, d: Addr)
    requires Inv(net) && x in net.stations && HasRoute(net.stations[x], d) && x != d
    requires net.stations[x].routes[d].nexthop != d
    ensures var y := net.stations[x].routes[d].nexthop;
            && y in net.stations && HasRoute(net.stations[y], d) && y in Nearer(net, x, d)
            && |Nearer(net, y, d)| < |Nearer(net, x, d)|
  {
    assert Grounded(net, x, d);
    var y := net.stations[x].routes[d].nexthop;
    Smaller(Nearer(net, y, d), Nearer(net, x, d), y);
  }

  lemma HopsNext(net: Net, x: Addr, d: Addr, j: nat, k: nat)
    requires k == j + 1
    ensures Hops(net, x, d, k) == Hops(net, Hop(net, x, d), d, j)
  {
  }

  lemma {:induction false} Arrives(net: Net, x: Addr, d: Addr) returns (k: nat)
    requires Inv(net) && x in net.stations && HasRoute(net.stations[x], d) && x != d
    ensures k <= |Nearer(net, x, d)| + 1 && Hops(net, x, d, k) == d
    decreases |Nearer(net, x, d)|
  {
    var y := Hop(net, x, d);
    if y == d {
      k := 1;
      HopsNext(net, x, d, 0, k);
    } else {
      HopIsNearer(net, x, d);
      var j := Arrives(net, y, d);
      k := j + 1;
      HopsNext(net, x, d, j, k);
    }
  }

  lemma Smaller(a: set<Addr>, b: set<Addr>, y: Addr)
    requires a <= b && y in b && y !in a
    ensures |a| < |b|
  {
    assert a <= b - {y};
    Subset(a, b - {y});
  }

  lemma {:induction false} Subset(a: set<Addr>, b: set<Addr>)
    requires a <= b
    ensures |a| <= |b|
  {
    if a != {} {
      var x :| x in a;
      Subset(a - {x}, b - {x});
    }
  }

  /** Wherever next hops lead from `x` short of `d`, the route there is better. */
  lemma {:induction false} HopsImprove(net: Net, x: Addr, d: Addr, k: nat)
    requires Inv(net) && x in net.stations && HasRoute(net.stations[x], d) && x != d && 1 <= k
    ensures Hops(net, x, d, k) == d || Hops(net, x, d, k) in Nearer(net, x, d)
    decreases k
  {
    assert Grounded(net, x, d);
    var y := Hop(net, x, d);
    if y == d {
      StaysHome(net, d, k - 1);
    } else if 1 < k {
      HopsImprove(net, y, d, k - 1);
    }
  }

  lemma {:induction false} StaysHome(net: Net, d: Addr, k: nat)
    ensures Hops(net, d, d, k) == d
    decreases k
  {
    if 0 < k {
      StaysHome(net, d, k - 1);
    }
  }

  /** Loop freedom. After any run from a fresh mesh, following next hops from a
      station with a valid route reaches the destination within as many hops as
      there are stations, never returning to the station it left. */
  lemma LoopFree(net: Net, actions: seq<Action>, last: Net, x: Addr, d: Addr)
    requires Initial(net) && IsRun(net, actions, last)
    requires x in last.stations && HasRoute(last.stations[x], d) && x != d
    ensures exists k: nat :: k <= |last.stations| && Hops(last, x, d, k) == d
    ensures forall k: nat | 1 <= k :: Hops(last, x, d, k) != x
  {
    RunKeeps(net, actions, last);
    var k := Arrives(last, x, d);
    Smaller(Nearer(last, x, d), last.stations.Keys, x);
    assert |last.stations.Keys| == |last.stations|;
    forall j: nat | 1 <= j ensures Hops(last, x, d, j) != x {
      HopsImprove(last, x, d, j);
    }
  }
}
