/** What loop freedom needs: one path metric that wraps, whatever the metrics,
    or one route that expires is enough for a loop, so loops are ruled out
    exactly when neither may happen. */
module HwmpExact {
  import opened HwmpSpec
  import opened HwmpLoops
  import opened HwmpMesh

  /** Which pairs of path and link metric may be added up although the sum
      wraps, and whether routes expire. */
  datatype Hazards = Hazards(wraps: (nat, nat) -> bool, expiry: bool)

  datatype Step = Do(a: Action) | Expire(at: Addr, dest: Addr)

  /** The action can happen, what is received is addressed to the receiver, and
      no path metric wraps except where it may; the cleaner deletes a route that
      is not being discovered. */
  predicate CanStep(h: Hazards, net: Net, s: Step) {
    match s
    case Do(a) =>
      && Possible(net, a)
      && (a.Receive? ==>
            && (a.f.dst == a.at || a.f.dst == BROADCAST)
            && (Metric(a.f) + a.link < WORD || h.wraps(Metric(a.f), a.link)))
    case Expire(at, dest) =>
      h.expiry && at in net.stations && dest in net.stations[at].routes && !net.stations[at].routes[dest].discover
  }

  function Forget(st: Station, dest: Addr): Station {
    st.(routes := st.routes - {dest})
  }

  function After(h: Hazards, net: Net, s: Step): Net
    requires CanStep(h, net, s)
  {
    match s
    case Do(a) => Act(net, a)
    case Expire(at, dest) => net.(stations := net.stations[at := Forget(net.stations[at], dest)])
  }

  ghost predicate Leads(h: Hazards, net: Net, steps: seq<Step>, last: Net)
    decreases |steps|
  {
    if steps == [] then last == net
    else
      && CanStep(h, net, steps[0])
      && Unwrapped(After(h, net, steps[0]))
      && Leads(h, After(h, net, steps[0]), steps[1..], last)
  }

  /** No station's frames for `d` come back to it. */
  ghost predicate LoopsNowhere(net: Net) {
    forall x, d, k: nat | x in net.stations && HasRoute(net.stations[x], d) && x != d && 1 <= k ::
      Hops(net, x, d, k) != x
  }

  /** No run from a fresh mesh makes a loop. */
  ghost predicate Safe(h: Hazards) {
    forall net, steps, last | Initial(net) && Leads(h, net, steps, last) :: LoopsNowhere(last)
  }

  // ---- without hazards ----------------------------------------------------

  ghost predicate NoHazard(h: Hazards) {
    !h.expiry && forall m, link | m < WORD && 0 < link < WORD && WORD <= m + link :: !h.wraps(m, link)
  }

  lemma StepIsEnabled(h: Hazards, net: Net, a: Action)
    requires NoHazard(h) && Inv(net) && CanStep(h, net, Do(a))
    ensures Enabled(net, a)
  {
    if a.Receive? {
      assert Honest(net.stations[a.f.src], a.f);
      assert Metric(a.f) < WORD;
    }
  }

  lemma {:induction false} LeadsIsRun(h: Hazards, net: Net, steps: seq<Step>, last: Net) returns (actions: seq<Action>)
    requires NoHazard(h) && Inv(net) && Leads(h, net, steps, last)
    ensures IsRun(net, actions, last)
    decreases |steps|
  {
    if steps == [] {
      actions := [];
    } else {
      var a := steps[0].a;
      StepIsEnabled(h, net, a);
      ActKeeps(net, a);
      var rest := LeadsIsRun(h, Act(net, a), steps[1..], last);
      actions := [a] + rest;
      assert actions[1..] == rest;
    }
  }

  lemma NoneIsSafe(h: Hazards)
    requires NoHazard(h)
    ensures Safe(h)
  {
    forall net, steps, last | Initial(net) && Leads(h, net, steps, last)
      ensures LoopsNowhere(last)
    {
      var actions := LeadsIsRun(h, net, steps, last);
      forall x, d, k: nat | x in last.stations && HasRoute(last.stations[x], d) && x != d && 1 <= k
        ensures Hops(last, x, d, k) != x
      {
        LoopFree(net, actions, last, x, d);
      }
    }
  }

  // ---- three stations -----------------------------------------------------

  const ROOT: Addr := 4
  const NEAR: Addr := 6
  const FAR: Addr := 8

  const CFG := Config(true, false, false, false, 31, 31, 3, 100, 5000)

  function Silent(a: Addr): Station {
    Station(a, CFG, 0, 0, map[])
  }

  /** The root's request after some hops. */
  function RootPreq(hops: nat, metric: nat): Preq {
    Preq(false, false, false, hops, if hops <= 31 then 31 - hops else 0, 1, ROOT, 1, 5000, metric, 1, true, true, BROADCAST, 0)
  }

  function RootFrame(src: Addr, hops: nat, metric: nat): Frame {
    Frame(src, BROADCAST, Request(RootPreq(hops, metric)))
  }

  /** The near station's search for the root. */
  const SEARCH := Preq(false, false, false, 0, 31, 1, NEAR, 1, 5000, 0, 1, false, true, ROOT, 0)
  const SEARCH_FRAME := Frame(NEAR, BROADCAST, Request(SEARCH))

  /** A station at work that has not heard of the root in this sequence number. */
  predicate Listening(st: Station, a: Addr) {
    && st.me == a && st.cfg == CFG && st.seqno < HALF && BROADCAST !in st.routes
    && a != ROOT && a != BROADCAST && Entry(st, ROOT).seqno == 0
  }

  /** A station that has: its route to the root. */
  predicate Knows(st: Station, a: Addr, via: Addr, metric: nat) {
    && st.me == a && st.cfg == CFG && st.seqno < HALF && HasRoute(st, ROOT)
    && st.routes[ROOT].nexthop == via && st.routes[ROOT].metric == metric && st.routes[ROOT].seqno == 1
    && !st.routes[ROOT].discover && BROADCAST !in st.routes
  }

  lemma RootAsks()
    ensures RootRequest(Silent(ROOT)).frames == [RootFrame(ROOT, 0, 0)]
    ensures RootRequest(Silent(ROOT)).st.seqno == 1
  {
  }

  lemma NearSearches()
    ensures var out := Discover(Silent(NEAR), ROOT, 0, true);
            out.frames == [SEARCH_FRAME] && Listening(out.st, NEAR)
  {
  }

  /** Hearing the root's request: the route is taken and the request passed on. */
  lemma HearsRoot(st: Station, a: Addr, via: Addr, link: nat, hops: nat, metric: nat, sum: nat)
    requires Listening(st, a) && via != BROADCAST && hops < 29
    requires sum == MetricAdd(metric, link) && (via == ROOT ==> sum <= link)
    ensures var out := RecvPreq(st, via, link, RootPreq(hops, metric));
            && out.frames == [RootFrame(a, hops + 1, sum)]
            && Knows(out.st, a, via, sum)
            && (via != ROOT ==> Entry(out.st, via).seqno == Entry(st, via).seqno)
  {
    var p := RootPreq(hops, metric);
    var st1 := Put(st, ROOT, OrigRoute(Entry(st, ROOT), via, link, p));
    var st2 := UpdateTransmitter(st1, via, link);
    assert st2.routes[ROOT] == st1.routes[ROOT];
    assert Proactive(st2, p) == Out(st2, []);
    assert Forward(st2, false, link, p) == [RootFrame(a, hops + 1, sum)];
    assert RecvPreq(st, via, link, p) == Out(st2, [] + Forward(st2, false, link, p));
  }

  function Hopped(hops: nat, metric: nat): Prep {
    Prep(hops, 31, ROOT, 1, 5000, metric, NEAR, 1)
  }

  /** The far station answers the search from what it knows. */
  lemma AnswersSearch(st: Station, metric: nat) returns (hops: nat)
    requires Knows(st, FAR, NEAR, metric) && Entry(st, NEAR).seqno == 0
    ensures var out := RecvPreq(st, NEAR, 1, SEARCH);
            && Knows(out.st, FAR, NEAR, metric)
            && |out.frames| == 2 && out.frames[0] == Frame(FAR, NEAR, Reply(Hopped(hops, metric)))
  {
    var p := SEARCH;
    hops := st.routes[ROOT].nhops % 256;
    var st1 := Put(st, NEAR, OrigRoute(Entry(st, NEAR), NEAR, 1, p));
    assert !PreqStale(st, 1, p);
    var st2 := UpdateTransmitter(st1, NEAR, 1);
    assert st2.routes[ROOT] == st.routes[ROOT];
    assert st2.routes[NEAR].nexthop == NEAR;
    assert Proactive(st2, p) == Out(st2, []);
    assert RecvPreq(st, NEAR, 1, p) == Out(st2, [] + Forward(st2, true, 1, p));
  }

  /** The near station takes the answer: its sum is no greater than what it has. */
  lemma TakesAnswer(st: Station, hops: nat, metric: nat, link: nat, sum: nat)
    requires Knows(st, NEAR, ROOT, sum) && metric + link == sum < WORD
    ensures Knows(RecvPrep(st, FAR, link, Hopped(hops, metric)).st, NEAR, FAR, sum)
  {
  }

  // ---- the runs -----------------------------------------------------------

  lemma {:induction false} LeadsOn(h: Hazards, net: Net, steps: seq<Step>, mid: Net, s: Step)
    requires Leads(h, net, steps, mid) && CanStep(h, mid, s) && Unwrapped(After(h, mid, s))
    ensures Leads(h, net, steps + [s], After(h, mid, s))
    decreases |steps|
  {
    if steps == [] {
      assert [] + [s] == [s];
    } else {
      LeadsOn(h, After(h, net, steps[0]), steps[1..], mid, s);
      assert (steps + [s])[1..] == steps[1..] + [s];
    }
  }

  function Mesh(root: Station, near: Station, far: Station): map<Addr, Station> {
    map[ROOT := root, NEAR := near, FAR := far]
  }

  lemma Replaced(root: Station, near: Station, far: Station, st: Station)
    ensures Mesh(root, near, far)[ROOT := st] == Mesh(st, near, far)
    ensures Mesh(root, near, far)[NEAR := st] == Mesh(root, st, far)
    ensures Mesh(root, near, far)[FAR := st] == Mesh(root, near, st)
  {
  }

  /** A run from a fresh mesh to one of three stations. */
  ghost predicate Reached(h: Hazards, net: Net, steps: seq<Step>, mid: Net, root: Station, near: Station, far: Station) {
    && Initial(net) && Leads(h, net, steps, mid)
    && mid.stations == Mesh(root, near, far)
    && root.seqno < HALF && near.seqno < HALF && far.seqno < HALF
  }

  lemma Begin(h: Hazards) returns (net: Net)
    ensures Reached(h, net, [], net, Silent(ROOT), Silent(NEAR), Silent(FAR))
  {
    net := Net(Mesh(Silent(ROOT), Silent(NEAR), Silent(FAR)), {});
  }

  /** One more action; the frames it sends join those sent before. */
  lemma Acts(h: Hazards, net: Net, steps: seq<Step>, mid: Net, root: Station, near: Station, far: Station, a: Action, out: Out)
    returns (next: Net)
    requires Reached(h, net, steps, mid, root, near, far) && CanStep(h, mid, Do(a))
    requires out == Handle(mid.stations[a.at], a) && out.st.seqno < HALF
    ensures mid.sent <= next.sent && forall f <- out.frames :: f in next.sent
    ensures a.at == ROOT ==> Reached(h, net, steps + [Do(a)], next, out.st, near, far)
    ensures a.at == NEAR ==> Reached(h, net, steps + [Do(a)], next, root, out.st, far)
    ensures a.at == FAR ==> Reached(h, net, steps + [Do(a)], next, root, near, out.st)
  {
    next := Act(mid, a);
    Replaced(root, near, far, out.st);
    assert Unwrapped(next);
    LeadsOn(h, net, steps, mid, Do(a));
  }

  /** The near station's route to the root expires. */
  lemma Expires(h: Hazards, net: Net, steps: seq<Step>, mid: Net, root: Station, near: Station, far: Station)
    returns (next: Net)
    requires Reached(h, net, steps, mid, root, near, far) && h.expiry && ROOT in near.routes && !near.routes[ROOT].discover
    ensures next.sent == mid.sent
    ensures Reached(h, net, steps + [Expire(NEAR, ROOT)], next, root, Forget(near, ROOT), far)
  {
    var s := Expire(NEAR, ROOT);
    next := After(h, mid, s);
    Replaced(root, near, far, Forget(near, ROOT));
    assert Unwrapped(next);
    LeadsOn(h, net, steps, mid, s);
  }

  /** The near station searches for the root. */
  lemma Searching(h: Hazards) returns (net: Net, steps: seq<Step>, mid: Net, near: Station)
    ensures Reached(h, net, steps, mid, Silent(ROOT), near, Silent(FAR))
    ensures Listening(near, NEAR) && SEARCH_FRAME in mid.sent
  {
    net := Begin(h);
    var a := Discovery(NEAR, ROOT, 0, true);
    NearSearches();
    var out := Discover(Silent(NEAR), ROOT, 0, true);
    mid := Acts(h, net, [], net, Silent(ROOT), Silent(NEAR), Silent(FAR), a, out);
    steps, near := [] + [Do(a)], out.st;
  }

  /** The root asks. */
  lemma Asking(h: Hazards, net: Net, before: seq<Step>, at: Net, near: Station)
    returns (steps: seq<Step>, mid: Net, root: Station)
    requires Reached(h, net, before, at, Silent(ROOT), near, Silent(FAR))
    ensures Reached(h, net, steps, mid, root, near, Silent(FAR))
    ensures at.sent <= mid.sent && RootFrame(ROOT, 0, 0) in mid.sent
  {
    RootAsks();
    var out := RootRequest(Silent(ROOT));
    mid := Acts(h, net, before, at, Silent(ROOT), near, Silent(FAR), RootTick(ROOT), out);
    steps, root := before + [Do(RootTick(ROOT))], out.st;
  }

  /** The near station hears of the root from `via`. */
  lemma HearingNear(h: Hazards, net: Net, before: seq<Step>, at: Net, root: Station, near: Station, far: Station,
                    via: Addr, link: nat, hops: nat, metric: nat, sum: nat)
    returns (steps: seq<Step>, mid: Net, near': Station)
    requires Reached(h, net, before, at, root, near, far) && Listening(near, NEAR) && via != NEAR && via != BROADCAST
    requires RootFrame(via, hops, metric) in at.sent && hops < 29 && 0 < link && sum == metric + link < WORD
    requires via == ROOT ==> sum <= link
    ensures Reached(h, net, steps, mid, root, near', far) && Knows(near', NEAR, via, sum)
    ensures at.sent <= mid.sent && RootFrame(NEAR, hops + 1, sum) in mid.sent
  {
    var f := RootFrame(via, hops, metric);
    var a := Receive(NEAR, f, link);
    HearsRoot(near, NEAR, via, link, hops, metric, sum);
    var out := Recv(near, f, link);
    mid := Acts(h, net, before, at, root, near, far, a, out);
    steps, near' := before + [Do(a)], out.st;
  }

  /** The far station hears of it from the near one. */
  lemma HearingFar(h: Hazards, net: Net, before: seq<Step>, at: Net, root: Station, near: Station, m: nat, link: nat, sum: nat)
    returns (steps: seq<Step>, mid: Net, far: Station)
    requires Reached(h, net, before, at, root, near, Silent(FAR)) && RootFrame(NEAR, 1, m) in at.sent
    requires 0 < link < WORD && sum == MetricAdd(m, link) && (m + link < WORD || h.wraps(m, link))
    ensures Reached(h, net, steps, mid, root, near, far) && at.sent <= mid.sent && RootFrame(FAR, 2, sum) in mid.sent
    ensures Knows(far, FAR, NEAR, sum) && Entry(far, NEAR).seqno == 0
  {
    var f := RootFrame(NEAR, 1, m);
    var a := Receive(FAR, f, link);
    HearsRoot(Silent(FAR), FAR, NEAR, link, 1, m, sum);
    var out := Recv(Silent(FAR), f, link);
    mid := Acts(h, net, before, at, root, near, Silent(FAR), a, out);
    steps, far := before + [Do(a)], out.st;
  }

  /** The far station answers the search with its wrapped metric. */
  lemma Answering(h: Hazards, net: Net, before: seq<Step>, at: Net, root: Station, near: Station, far: Station, sum: nat)
    returns (steps: seq<Step>, mid: Net, far': Station, hops: nat)
    requires Reached(h, net, before, at, root, near, far) && SEARCH_FRAME in at.sent
    requires Knows(far, FAR, NEAR, sum) && Entry(far, NEAR).seqno == 0
    ensures Reached(h, net, steps, mid, root, near, far') && Knows(far', FAR, NEAR, sum)
    ensures ReplyFrame(far', NEAR, Hopped(hops, sum)) in mid.sent
  {
    var a := Receive(FAR, SEARCH_FRAME, 1);
    hops := AnswersSearch(far, sum);
    var out := Recv(far, SEARCH_FRAME, 1);
    mid := Acts(h, net, before, at, root, near, far, a, out);
    assert out.frames[0] in out.frames;
    steps, far' := before + [Do(a)], out.st;
  }

  /** The near station takes that path, of the same sum as its own, for the better one. */
  lemma Taking(h: Hazards, net: Net, before: seq<Step>, at: Net, root: Station, near: Station, far: Station,
               hops: nat, m: nat, sum: nat)
    returns (steps: seq<Step>, last: Net, near': Station)
    requires Reached(h, net, before, at, root, near, far) && ReplyFrame(far, NEAR, Hopped(hops, sum)) in at.sent
    requires Knows(near, NEAR, ROOT, m) && far.me == FAR && sum < m < WORD
    ensures Reached(h, net, steps, last, root, near', far) && Knows(near', NEAR, FAR, m)
  {
    var f := ReplyFrame(far, NEAR, Hopped(hops, sum));
    var a := Receive(NEAR, f, m - sum);
    TakesAnswer(near, hops, sum, m - sum, m);
    var out := Recv(near, f, m - sum);
    last := Acts(h, net, before, at, root, near, far, a, out);
    steps, near' := before + [Do(a)], out.st;
  }

  /** Whatever pair may wrap, there is a run of frames really sent, in which no
      other sum wraps, that ends with two stations as each other's next hop. */
  lemma WrapLoops(h: Hazards, m: nat, link: nat) returns (net: Net, steps: seq<Step>, last: Net)
    requires m < WORD && 0 < link < WORD && WORD <= m + link && h.wraps(m, link)
    ensures Initial(net) && Leads(h, net, steps, last)
    ensures NEAR in last.stations && HasRoute(last.stations[NEAR], ROOT)
    ensures Hop(last, NEAR, ROOT) == FAR && Hop(last, FAR, ROOT) == NEAR
  {
    var sum := MetricAdd(m, link);
    var mid, root, near, far, hops;
    net, steps, mid, near := Searching(h);
    steps, mid, root := Asking(h, net, steps, mid, near);
    steps, mid, near := HearingNear(h, net, steps, mid, root, near, Silent(FAR), ROOT, m, 0, 0, m);
    steps, mid, far := HearingFar(h, net, steps, mid, root, near, m, link, sum);
    steps, mid, far, hops := Answering(h, net, steps, mid, root, near, far, sum);
    steps, last, near := Taking(h, net, steps, mid, root, near, far, hops, m, sum);
  }

  /** A route that expires takes its sequence number with it: the station then
      believes the one it leads. */
  lemma ExpiryLoops(h: Hazards) returns (net: Net, steps: seq<Step>, last: Net)
    requires h.expiry
    ensures Initial(net) && Leads(h, net, steps, last)
    ensures NEAR in last.stations && HasRoute(last.stations[NEAR], ROOT)
    ensures Hop(last, NEAR, ROOT) == FAR && Hop(last, FAR, ROOT) == NEAR
  {
    var mid, root, near, far;
    net := Begin(h);
    steps, mid, root := Asking(h, net, [], net, Silent(NEAR));
    steps, mid, near := HearingNear(h, net, steps, mid, root, Silent(NEAR), Silent(FAR), ROOT, 1, 0, 0, 1);
    steps, mid, far := HearingFar(h, net, steps, mid, root, near, 1, 1, 2);
    mid := Expires(h, net, steps, mid, root, near, far);
    steps, near := steps + [Expire(NEAR, ROOT)], Forget(near, ROOT);
    steps, last, near := HearingNear(h, net, steps, mid, root, near, far, FAR, 1, 2, 2, 3);
  }

  lemma LoopIsLoop(net: Net)
    requires NEAR in net.stations && HasRoute(net.stations[NEAR], ROOT)
    requires Hop(net, NEAR, ROOT) == FAR && Hop(net, FAR, ROOT) == NEAR
    ensures !LoopsNowhere(net)
  {
    assert Hops(net, NEAR, ROOT, 2) == Hops(net, FAR, ROOT, 1) == Hops(net, NEAR, ROOT, 0);
  }

  /** Loops are ruled out exactly when no pair that wraps may be added up and no
      route expires. */
  lemma SafeIff(h: Hazards)
    ensures Safe(h) <==> NoHazard(h)
  {
    if NoHazard(h) {
      NoneIsSafe(h);
    } else {
      var net, steps, last;
      if h.expiry {
        net, steps, last := ExpiryLoops(h);
      } else {
        var m, link :| m < WORD && 0 < link < WORD && WORD <= m + link && h.wraps(m, link);
        net, steps, last := WrapLoops(h, m, link);
      }
      LoopIsLoop(last);
    }
  }
}
