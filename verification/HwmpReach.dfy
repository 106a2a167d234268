/** Path discovery works: along a chain of forwarding stations of any length the
    originator's request goes out, the target's reply comes back, and both then
    have the path. */
module HwmpReach {
  import opened HwmpSpec
  import opened HwmpLoops
  import opened HwmpMesh
  import opened HwmpExact

  /** The stations on the way; `there[i]` is how long the way from the originator
      to `at[i]` is, `back[i]` how long it is from there to the target. What a
      reception adds is the difference, so any positive link metrics will do. */
  datatype Path = Path(at: seq<Addr>, there: seq<nat>, back: seq<nat>) {
    function Orig(): Addr requires at != [] { at[0] }
    function Dest(): Addr requires at != [] { at[|at| - 1] }
  }

  // ---- what each station does ----------------------------------------------

  /** The originator's request after some hops. */
  function Search(c: Config, orig: Addr, dest: Addr, hops: nat, metric: nat): Preq {
    Preq(false, false, false, hops % 256, if hops <= c.ttl then c.ttl - hops else 0, 1, orig, 1, c.lifetime, metric,
         1, c.targetOnly, true, dest, 0)
  }

  function SearchFrame(src: Addr, c: Config, orig: Addr, dest: Addr, hops: nat, metric: nat): Frame {
    Frame(src, BROADCAST, Request(Search(c, orig, dest, hops, metric)))
  }

  /** The target's reply after some hops; `c` is the target's configuration. */
  function Found(c: Config, lifetime: nat, orig: Addr, dest: Addr, hops: nat, metric: nat): Prep {
    Prep(hops % 256, if hops <= c.ttl then c.ttl - hops else 0, dest, 1, lifetime, metric, orig, 1)
  }

  predicate Fresh(st: Station) {
    st.seqno == 0 && st.preqid == 0 && st.routes == map[]
  }

  /** A valid route through `via`. */
  predicate Via(st: Station, d: Addr, via: Addr) {
    HasRoute(st, d) && st.routes[d].nexthop == via
  }

  /** Has passed the request on, and knows no route to the target yet. */
  predicate Waits(st: Station, orig: Addr, dest: Addr, prev: Addr) {
    Via(st, orig, prev) && dest !in st.routes && st.seqno < HALF
  }

  predicate IsSelf(st: Station, was: Station) {
    st.me == was.me && st.cfg == was.cfg
  }

  lemma Asks(st: Station, dest: Addr, now: int)
    requires Fresh(st) && 0 < st.cfg.maxRetries
    ensures var out := Discover(st, dest, now, true);
            && out.frames == [SearchFrame(st.me, st.cfg, st.me, dest, 0, 0)]
            && IsSelf(out.st, st) && out.st.seqno == 1 && !Entry(out.st, dest).valid
  {
  }

  /** What a station about to hear the request is, and what it will hear. */
  ghost predicate MayPass(st: Station, ta: Addr, link: nat, c: Config, orig: Addr, dest: Addr, hops: nat, metric: nat, n: nat, sum: nat) {
    && Fresh(st) && st.cfg.fwd && st.me != orig && st.me != dest && ta != dest && ta != st.me && orig != dest
    && dest != BROADCAST && n == hops + 1 < c.ttl && metric + link == sum < WORD && 0 < link
  }

  lemma OneMoreHop(hops: nat, n: nat)
    requires n == hops + 1
    ensures (hops % 256 + 1) % 256 == n % 256 && hops % 256 <= hops
  {
  }

  lemma PassesRequest(st: Station, ta: Addr, link: nat, c: Config, orig: Addr, dest: Addr, hops: nat, metric: nat, n: nat, sum: nat)
    requires MayPass(st, ta, link, c, orig, dest, hops, metric, n, sum)
    ensures var out := RecvPreq(st, ta, link, Search(c, orig, dest, hops, metric));
            && out.frames == [SearchFrame(st.me, c, orig, dest, n, sum)]
            && IsSelf(out.st, st) && Waits(out.st, orig, dest, ta)
  {
    OneMoreHop(hops, n);
    var p := Search(c, orig, dest, hops, metric);
    var st1 := Put(st, orig, OrigRoute(Entry(st, orig), ta, link, p));
    var st2 := UpdateTransmitter(st1, ta, link);
    assert Proactive(st2, p) == Out(st2, []);
    assert Forward(st2, false, link, p) == [SearchFrame(st.me, c, orig, dest, n, sum)];
    assert RecvPreq(st, ta, link, p) == Out(st2, [] + Forward(st2, false, link, p));
  }

  lemma AnswersRequest(st: Station, ta: Addr, link: nat, c: Config, orig: Addr, hops: nat, metric: nat)
    requires Fresh(st) && st.cfg.fwd && st.me != orig && metric + link < WORD
    ensures var out := RecvPreq(st, ta, link, Search(c, orig, st.me, hops, metric));
            && out.frames == [ReplyFrame(st, ta, Found(st.cfg, c.lifetime, orig, st.me, 0, 0))]
            && IsSelf(out.st, st) && Via(out.st, orig, ta) && out.st.seqno == 1
  {
  }

  /** The same for the reply; `prev` is where the station sends for the originator. */
  ghost predicate MayReturn(st: Station, prev: Addr, ta: Addr, link: nat, c: Config, orig: Addr, dest: Addr, hops: nat, metric: nat,
                            n: nat, sum: nat) {
    && Waits(st, orig, dest, prev) && st.cfg.fwd && st.me != orig && ta != orig && ta != st.me && orig != dest
    && n == hops + 1 < c.ttl && hops < st.cfg.maxhops && metric + link == sum < WORD && 0 < link && (ta == dest ==> metric == 0)
  }

  lemma PassesReply(st: Station, prev: Addr, ta: Addr, link: nat, c: Config, lifetime: nat, orig: Addr, dest: Addr, hops: nat, metric: nat,
                    n: nat, sum: nat)
    requires MayReturn(st, prev, ta, link, c, orig, dest, hops, metric, n, sum)
    ensures var out := RecvPrep(st, ta, link, Found(c, lifetime, orig, dest, hops, metric));
            && out.frames == [ReplyFrame(st, prev, Found(c, lifetime, orig, dest, n, sum))]
            && IsSelf(out.st, st) && out.st.seqno == st.seqno && Via(out.st, orig, prev)
            && Via(out.st, dest, ta) && out.st.routes[dest].metric == sum
  {
    OneMoreHop(hops, n);
  }

  lemma TakesReply(st: Station, ta: Addr, link: nat, c: Config, lifetime: nat, dest: Addr, hops: nat, metric: nat)
    requires !Entry(st, dest).valid && metric + link < WORD && (ta == dest ==> metric == 0)
    ensures var out := RecvPrep(st, ta, link, Found(c, lifetime, st.me, dest, hops, metric));
            && IsSelf(out.st, st) && out.st.seqno == st.seqno
            && Via(out.st, dest, ta) && out.st.routes[dest].metric == metric + link
  {
  }

  // ---- the run --------------------------------------------------------------

  ghost predicate Distinct(at: seq<Addr>) {
    forall i, k :: 0 <= i < k < |at| ==> at[i] != at[k]
  }

  /** The metrics grow by every hop, without wrapping. */
  ghost predicate Measured(p: Path) {
    var n := |p.at|;
    && 2 <= n == |p.there| == |p.back|
    && p.there[0] == 0 && p.back[n - 1] == 0
    && (forall i :: 0 <= i < n ==> p.there[i] < WORD && p.back[i] < WORD)
    && (forall i :: 0 < i < n ==> p.there[i - 1] < p.there[i] && p.back[i] < p.back[i - 1])
  }

  /** A fresh mesh with this chain of stations in it: they forward, and the two
      ends allow the hops there are and so do those between. */
  ghost predicate Ready(net: Net, p: Path) {
    var n := |p.at|;
    && Initial(net) && Measured(p) && Distinct(p.at) && !Multicast(p.Dest())
    && (forall i :: 0 <= i < n ==> p.at[i] in net.stations)
    && (forall i :: 0 < i < n ==> net.stations[p.at[i]].cfg.fwd)
    && 0 < net.stations[p.Orig()].cfg.maxRetries
    && n - 1 <= net.stations[p.Orig()].cfg.ttl && n - 1 <= net.stations[p.Dest()].cfg.ttl
    && (forall i :: 0 < i < n - 1 ==> n - 2 - i < net.stations[p.at[i]].cfg.maxhops)
  }

  /** The station that stands at `i` now. */
  function At(net: Net, p: Path, i: nat): Station
    requires i < |p.at| && p.at[i] in net.stations
  {
    net.stations[p.at[i]]
  }

  /** A run so far. */
  ghost predicate Stage(h: Hazards, net: Net, p: Path, steps: seq<Step>, mid: Net) {
    && Ready(net, p) && Leads(h, net, steps, mid) && Unwrapped(mid)
    && (forall i :: 0 <= i < |p.at| ==> p.at[i] in mid.stations && IsSelf(At(mid, p, i), At(net, p, i)))
  }

  /** The request has come as far as station `j - 1`. */
  ghost predicate There(h: Hazards, net: Net, p: Path, steps: seq<Step>, mid: Net, j: nat) {
    && Stage(h, net, p, steps, mid) && 0 < j < |p.at|
    && !Entry(At(mid, p, 0), p.Dest()).valid
    && (forall i :: 0 < i < j ==> Waits(At(mid, p, i), p.Orig(), p.Dest(), p.at[i - 1]))
    && (forall i :: j <= i < |p.at| ==> At(mid, p, i) == At(net, p, i))
    && SearchFrame(p.at[j - 1], At(net, p, 0).cfg, p.Orig(), p.Dest(), j - 1, p.there[j - 1]) in mid.sent
  }

  /** The path to the target, from station `i` on. */
  ghost predicate Onward(mid: Net, p: Path, i: nat)
    requires i < |p.at| - 1 && |p.at| == |p.back| && p.at[i] in mid.stations
  {
    Via(At(mid, p, i), p.Dest(), p.at[i + 1]) && At(mid, p, i).routes[p.Dest()].metric == p.back[i]
  }

  /** The reply sent on by station `j`, after `n` hops. */
  function FoundFrame(net: Net, p: Path, j: nat, n: nat): Frame
    requires 0 < j < |p.at| == |p.back| && p.Orig() in net.stations && p.Dest() in net.stations
  {
    Frame(p.at[j], p.at[j - 1],
          Reply(Found(net.stations[p.Dest()].cfg, net.stations[p.Orig()].cfg.lifetime, p.Orig(), p.Dest(), n, p.back[j])))
  }

  /** Stations `j` on have both paths, those before it one. */
  ghost predicate Joining(mid: Net, p: Path, j: nat) {
    && (forall i :: 0 <= i < |p.at| ==> p.at[i] in mid.stations)
    && 0 < j < |p.at| == |p.back| && !Entry(At(mid, p, 0), p.Dest()).valid
    && (forall i :: 0 < i < j ==> Waits(At(mid, p, i), p.Orig(), p.Dest(), p.at[i - 1]))
    && (forall i :: j <= i < |p.at| ==> Via(At(mid, p, i), p.Orig(), p.at[i - 1]))
    && (forall i :: j <= i < |p.at| - 1 ==> Onward(mid, p, i))
  }

  /** The reply has come back as far as station `j`, in `n` hops. */
  ghost predicate Back(h: Hazards, net: Net, p: Path, steps: seq<Step>, mid: Net, j: nat, n: nat) {
    && Stage(h, net, p, steps, mid) && Joining(mid, p, j) && n + j == |p.at| - 1
    && FoundFrame(net, p, j, n) in mid.sent
  }

  /** One more action, at station `j` of the chain; the others stay as they are. */
  lemma Took(h: Hazards, net: Net, p: Path, steps: seq<Step>, mid: Net, j: nat, a: Action, out: Out) returns (next: Net)
    requires Stage(h, net, p, steps, mid) && j < |p.at| && a.at == p.at[j] && CanStep(h, mid, Do(a))
    requires out == Handle(mid.stations[a.at], a) && out.st.seqno < HALF && IsSelf(out.st, At(net, p, j))
    ensures Stage(h, net, p, steps + [Do(a)], next)
    ensures At(next, p, j) == out.st
    ensures forall i :: 0 <= i < |p.at| && i != j ==> At(next, p, i) == At(mid, p, i)
    ensures mid.sent <= next.sent && forall f <- out.frames :: f in next.sent
  {
    next := Act(mid, a);
    assert next.stations == mid.stations[p.at[j] := out.st];
    LeadsOn(h, net, steps, mid, Do(a));
  }

  lemma Setting(h: Hazards, net: Net, p: Path, now: int) returns (steps: seq<Step>, mid: Net)
    requires Ready(net, p)
    ensures There(h, net, p, steps, mid, 1) && |steps| == 1
  {
    var a := Discovery(p.Orig(), p.Dest(), now, true);
    var st := At(net, p, 0);
    var out := Discover(st, p.Dest(), now, true);
    Asks(st, p.Dest(), now);
    mid := Took(h, net, p, [], net, 0, a, out);
    steps := [] + [Do(a)];
    assert SearchFrame(p.at[0], st.cfg, p.Orig(), p.Dest(), 0, 0) in out.frames;
  }

  lemma HearsNext(net: Net, p: Path, j: nat, k: nat, st: Station, m: nat, link: nat, sum: nat)
    requires Ready(net, p) && k == j + 1 < |p.at| - 1 && st == At(net, p, k) && m == p.there[j] && sum == p.there[k] == m + link
    ensures st.me == p.at[k]
    ensures MayPass(st, p.at[j], link, At(net, p, 0).cfg, p.Orig(), p.Dest(), j, m, k, sum)
  {
    Apart(p, j, k);
    Individual(p.Dest());
  }

  lemma Individual(a: Addr)
    requires !Multicast(a)
    ensures a != BROADCAST
  {
    assert BROADCAST / 0x100_0000_0000 == 255;
  }

  lemma Apart(p: Path, j: nat, k: nat)
    requires Distinct(p.at) && 0 < k == j + 1 < |p.at|
    ensures p.at[j] != p.at[k] && p.at[k] != p.Orig() && p.at[j] != p.Dest() && p.Orig() != p.Dest()
    ensures p.at[k] == p.Dest() <==> k == |p.at| - 1
    ensures p.at[j] == p.Orig() <==> j == 0
  {
  }

  /** Station `k` hears the request from station `j`, the one before it. */
  lemma Hears(h: Hazards, net: Net, p: Path, before: seq<Step>, at: Net, j: nat, k: nat, m: nat, link: nat, sum: nat)
    returns (steps: seq<Step>, mid: Net)
    requires There(h, net, p, before, at, k) && k == j + 1 < |p.at| - 1
    requires m == p.there[j] && sum == p.there[k] == m + link
    ensures There(h, net, p, steps, mid, k + 1) && |steps| == |before| + 1
  {
    var c, st := At(net, p, 0).cfg, At(net, p, k);
    var a := Receive(p.at[k], SearchFrame(p.at[j], c, p.Orig(), p.Dest(), j, m), link);
    var out := Handle(st, a);
    HearsNext(net, p, j, k, st, m, link, sum);
    PassesRequest(st, p.at[j], link, c, p.Orig(), p.Dest(), j, m, k, sum);
    mid := Took(h, net, p, before, at, k, a, out);
    steps := before + [Do(a)];
    assert out.frames[0] in out.frames;
    ThereKept(net, p, at, mid, k);
  }

  /** What station `k` does leaves the others as they are. */
  lemma ThereKept(net: Net, p: Path, at: Net, mid: Net, k: nat)
    requires 0 < k < |p.at|
    requires forall i :: 0 <= i < |p.at| ==> p.at[i] in net.stations && p.at[i] in at.stations && p.at[i] in mid.stations
    requires forall i :: 0 <= i < |p.at| && i != k ==> At(mid, p, i) == At(at, p, i)
    requires forall i :: 0 < i < k ==> Waits(At(at, p, i), p.Orig(), p.Dest(), p.at[i - 1])
    requires forall i :: k <= i < |p.at| ==> At(at, p, i) == At(net, p, i)
    requires Waits(At(mid, p, k), p.Orig(), p.Dest(), p.at[k - 1])
    ensures forall i :: 0 < i < k + 1 ==> Waits(At(mid, p, i), p.Orig(), p.Dest(), p.at[i - 1])
    ensures forall i :: k + 1 <= i < |p.at| ==> At(mid, p, i) == At(net, p, i)
  {
  }

  /** The target hears it, and replies. */
  lemma Turns(h: Hazards, net: Net, p: Path, before: seq<Step>, at: Net, j: nat) returns (steps: seq<Step>, mid: Net)
    requires There(h, net, p, before, at, j) && j == |p.at| - 1
    ensures Back(h, net, p, steps, mid, j, 0) && |steps| == |before| + 1
  {
    var c, m, link := At(net, p, 0).cfg, p.there[j - 1], p.there[j] - p.there[j - 1];
    var f := SearchFrame(p.at[j - 1], c, p.Orig(), p.Dest(), j - 1, m);
    var a := Receive(p.at[j], f, link);
    var st := At(net, p, j);
    var out := RecvPreq(st, f.src, link, f.body.preq);
    AnswersRequest(st, f.src, link, c, p.Orig(), j - 1, m);
    mid := Took(h, net, p, before, at, j, a, out);
    steps := before + [Do(a)];
    assert FoundFrame(net, p, j, 0) in out.frames;
  }

  lemma ReturnsNext(net: Net, p: Path, at: Net, j: nat, k: nat, st: Station, hops: nat, m: nat, link: nat, n: nat, sum: nat)
    requires Ready(net, p) && Joining(at, p, k) && 0 < j && k == j + 1 && st == At(at, p, j) && IsSelf(st, At(net, p, j))
    requires hops + k == n + j == |p.at| - 1 && m == p.back[k] && sum == p.back[j] == m + link
    ensures st.me == p.at[j]
    ensures MayReturn(st, p.at[j - 1], p.at[k], link, net.stations[p.Dest()].cfg, p.Orig(), p.Dest(), hops, m, n, sum)
  {
    Apart(p, j, k);
    Apart(p, j - 1, j);
  }

  /** Station `j` hears the reply from station `k`, the one after it. */
  lemma Returns(h: Hazards, net: Net, p: Path, before: seq<Step>, at: Net, j: nat, k: nat, hops: nat, m: nat, link: nat, n: nat, sum: nat)
    returns (steps: seq<Step>, mid: Net)
    requires Back(h, net, p, before, at, k, hops) && 0 < j && k == j + 1 && n == hops + 1
    requires m == p.back[k] && sum == p.back[j] == m + link
    ensures Back(h, net, p, steps, mid, j, n) && |steps| == |before| + 1
  {
    var c, lifetime, st := net.stations[p.Dest()].cfg, net.stations[p.Orig()].cfg.lifetime, At(at, p, j);
    var a := Receive(p.at[j], FoundFrame(net, p, k, hops), link);
    var out := Handle(st, a);
    ReturnsNext(net, p, at, j, k, st, hops, m, link, n, sum);
    PassesReply(st, p.at[j - 1], p.at[k], link, c, lifetime, p.Orig(), p.Dest(), hops, m, n, sum);
    mid := Took(h, net, p, before, at, j, a, out);
    steps := before + [Do(a)];
    assert out.frames[0] in out.frames;
    JoiningKept(p, at, mid, j, k);
  }

  /** Station `j` joins; the others stay as they are. */
  lemma JoiningKept(p: Path, at: Net, mid: Net, j: nat, k: nat)
    requires Joining(at, p, k) && 0 < j && k == j + 1
    requires forall i :: 0 <= i < |p.at| ==> p.at[i] in mid.stations
    requires forall i :: 0 <= i < |p.at| && i != j ==> At(mid, p, i) == At(at, p, i)
    requires Via(At(mid, p, j), p.Orig(), p.at[j - 1]) && Onward(mid, p, j)
    ensures Joining(mid, p, j)
  {
    OnwardKept(p, at, mid, j);
  }

  lemma OnwardKept(p: Path, at: Net, mid: Net, j: nat)
    requires |p.back| == |p.at| && forall i :: 0 <= i < |p.at| ==> p.at[i] in at.stations && p.at[i] in mid.stations
    requires forall i :: 0 <= i < |p.at| && i != j ==> At(mid, p, i) == At(at, p, i)
    requires forall i :: j + 1 <= i < |p.at| - 1 ==> Onward(at, p, i)
    ensures forall i :: j + 1 <= i < |p.at| - 1 ==> Onward(mid, p, i)
  {
    forall i | j + 1 <= i < |p.at| - 1 ensures Onward(mid, p, i) {
      assert Onward(at, p, i) && At(mid, p, i) == At(at, p, i);
    }
  }

  /** Every station of the chain has the path to the target and to the originator. */
  ghost predicate Joined(p: Path, last: Net) {
    && |p.back| == |p.at|
    && (forall i :: 0 <= i < |p.at| ==> p.at[i] in last.stations)
    && (forall i :: 0 <= i < |p.at| - 1 ==> Onward(last, p, i))
    && (forall i :: 0 < i < |p.at| ==> Via(At(last, p, i), p.Orig(), p.at[i - 1]))
  }

  lemma TakesNext(net: Net, p: Path, at: Net)
    requires Ready(net, p) && Joining(at, p, 1)
    ensures p.at[0] != p.at[1] && p.back[1] < p.back[0] < WORD && (p.at[1] == p.Dest() ==> p.back[1] == 0)
  {
    Apart(p, 0, 1);
  }

  /** And the originator has it. */
  lemma Takes(h: Hazards, net: Net, p: Path, before: seq<Step>, at: Net, hops: nat, m: nat, link: nat)
    returns (steps: seq<Step>, last: Net)
    requires Back(h, net, p, before, at, 1, hops) && m == p.back[1] && p.back[0] == m + link
    ensures Stage(h, net, p, steps, last) && Joined(p, last) && |steps| == |before| + 1
  {
    var c, lifetime, st := net.stations[p.Dest()].cfg, net.stations[p.Orig()].cfg.lifetime, At(at, p, 0);
    var a := Receive(p.at[0], FoundFrame(net, p, 1, hops), link);
    var out := Handle(st, a);
    TakesNext(net, p, at);
    TakesReply(st, p.at[1], link, c, lifetime, p.Dest(), hops, m);
    last := Took(h, net, p, before, at, 0, a, out);
    steps := before + [Do(a)];
    assert Onward(last, p, 0);
    OnwardKept(p, at, last, 0);
  }

  lemma Longer(p: Path, j: nat, k: nat)
    requires Measured(p) && k == j + 1 < |p.at|
    ensures p.there[j] < p.there[k] && p.back[k] < p.back[j]
  {
  }

  lemma {:induction false} GoesOut(h: Hazards, net: Net, p: Path, now: int, k: nat) returns (steps: seq<Step>, mid: Net)
    requires Ready(net, p) && 0 < k < |p.at|
    ensures There(h, net, p, steps, mid, k) && |steps| == k
  {
    var j: nat := k - 1;
    if j == 0 {
      steps, mid := Setting(h, net, p, now);
    } else {
      var before, at := GoesOut(h, net, p, now, j);
      Longer(p, j - 1, j);
      steps, mid := Hears(h, net, p, before, at, j - 1, j, p.there[j - 1], p.there[j] - p.there[j - 1], p.there[j]);
    }
  }

  lemma {:induction false} ComesBack(h: Hazards, net: Net, p: Path, now: int, j: nat, n: nat) returns (steps: seq<Step>, mid: Net)
    requires Ready(net, p) && 0 < j && n + j == |p.at| - 1
    ensures Back(h, net, p, steps, mid, j, n) && |steps| == |p.at| + n
    decreases n
  {
    if n == 0 {
      var before, at := GoesOut(h, net, p, now, j);
      steps, mid := Turns(h, net, p, before, at, j);
    } else {
      var k, hops: nat := j + 1, n - 1;
      var before, at := ComesBack(h, net, p, now, k, hops);
      Longer(p, j, k);
      steps, mid := Returns(h, net, p, before, at, j, k, hops, p.back[k], p.back[j] - p.back[k], n, p.back[j]);
    }
  }

  lemma {:induction false} HopsOnward(p: Path, last: Net, i: nat)
    requires |p.at| >= 2 && Joined(p, last) && i < |p.at|
    requires Distinct(p.at)
    ensures Hops(last, p.at[i], p.Dest(), |p.at| - 1 - i) == p.Dest()
    decreases |p.at| - i
  {
    if i < |p.at| - 1 {
      assert p.at[i] != p.at[|p.at| - 1] && Onward(last, p, i);
      HopsNext(last, p.at[i], p.Dest(), |p.at| - 2 - i, |p.at| - 1 - i);
      HopsOnward(p, last, i + 1);
    }
  }

  lemma {:induction false} HopsHome(p: Path, last: Net, i: nat)
    requires |p.at| >= 2 && Joined(p, last) && i < |p.at|
    requires Distinct(p.at)
    ensures Hops(last, p.at[i], p.Orig(), i) == p.Orig()
  {
    if i > 0 {
      assert p.at[0] != p.at[i] && Via(At(last, p, i), p.Orig(), p.at[i - 1]);
      HopsNext(last, p.at[i], p.Orig(), i - 1, i);
      HopsHome(p, last, i - 1);
    }
  }

  /** Path discovery along a chain of any length: a run of twice as many actions
      as there are hops, and one to begin with, after which following next hops
      leads from the originator to the target and from the target to the
      originator along the chain, and the originator's metric is the length of the
      way. */
  lemma Discovers(h: Hazards, net: Net, p: Path, now: int) returns (steps: seq<Step>, last: Net)
    requires Ready(net, p)
    ensures Leads(h, net, steps, last) && |steps| == 2 * |p.at| - 1
    ensures p.Orig() in last.stations && HasRoute(last.stations[p.Orig()], p.Dest())
    ensures last.stations[p.Orig()].routes[p.Dest()].metric == p.back[0]
    ensures Hops(last, p.Orig(), p.Dest(), |p.at| - 1) == p.Dest()
    ensures Hops(last, p.Dest(), p.Orig(), |p.at| - 1) == p.Orig()
  {
    var before, at := ComesBack(h, net, p, now, 1, |p.at| - 2);
    Longer(p, 0, 1);
    steps, last := Takes(h, net, p, before, at, |p.at| - 2, p.back[1], p.back[0] - p.back[1]);
    assert Onward(last, p, 0);
    HopsOnward(p, last, 0);
    HopsHome(p, last, |p.at| - 1);
  }
}
