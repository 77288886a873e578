/**
 * Hop counts over time, in runs in which no neighbour expires: they go down along the history of every link, and, with
 * the route order as the source passes its arguments, a node's own hop count goes up at exactly one kind of event.
 */
module HopDescent {
  import opened Collections
  import opened Routes
  import opened Tables
  import opened NodeSteps
  import opened Network
  import opened HopSoundness
  import opened LoopFreedom

  // ---------- the history of a link ----------

  /** The hop counts that the messages give for `d`, oldest first. */
  function HopsAbout(msgs: seq<Update>, d: Addr): (hops: seq<int>)
    ensures forall h :: h in hops ==> exists m :: m in msgs && m.dst == d && m.hop == h
  {
    if msgs == [] then [] else
    var init, m := msgs[..|msgs| - 1], msgs[|msgs| - 1];
    assert forall x :: x in init ==> x in msgs;
    var hops := HopsAbout(init, d);
    if m.dst == d then hops + [m.hop] else hops
  }

  /** What `u` stored from `v` about `d`, less one; then what is in flight; then what `v` has now. */
  function LinkHistory(net: Net, v: Addr, u: Addr, d: Addr): seq<int>
    requires v in net.nodes && u in net.nodes
  {
    var row := RowOf(net.nodes[u].dvt, v);
    (if d in row then [row[d].hop - 1] else []) +
    HopsAbout(net.chan(v, u), d) +
    (if d in net.nodes[v].ft then [net.nodes[v].ft[d].hop] else [])
  }

  predicate Descends(s: seq<int>) {
    forall i, j :: 0 <= i < j < |s| ==> s[i] >= s[j]
  }

  lemma DescendsAppend(a: seq<int>, b: seq<int>)
    requires Descends(a) && Descends(b)
    requires forall x, y :: x in a && y in b ==> x >= y
    ensures Descends(a + b)
  {
    forall i, j | 0 <= i < j < |a + b| ensures (a + b)[i] >= (a + b)[j] {
      if i < |a| <= j {
        assert a[i] in a && b[j - |a|] in b;
      }
    }
  }

  lemma {:induction false} HopsAboutDescend(msgs: seq<Update>, d: Addr)
    requires forall i, j :: 0 <= i < j < |msgs| && msgs[i].dst == msgs[j].dst ==> msgs[i].hop >= msgs[j].hop
    ensures Descends(HopsAbout(msgs, d))
  {
    if msgs != [] {
      var init, m := msgs[..|msgs| - 1], msgs[|msgs| - 1];
      HopsAboutDescend(init, d);
      if m.dst == d {
        DescendsAppend(HopsAbout(init, d), [m.hop]);
      }
    }
  }

  lemma OrderedDescends(net: Net, v: Addr, u: Addr, d: Addr)
    requires Ordered(net) && v in net.nodes && u in net.nodes && d != v
    ensures Descends(LinkHistory(net, v, u, d))
    ensures LinkHistory(net, v, u, d) != [] ==> d in net.nodes[v].ft
  {
    var row, hops := RowOf(net.nodes[u].dvt, v), HopsAbout(net.chan(v, u), d);
    assert ChannelFits(net, v, u);
    HopsAboutDescend(net.chan(v, u), d);
    if d in row {
      assert RowFits(net, v, u, d, row[d].hop);
    }
    if hops != [] {
      assert hops[0] in hops;
    }
    var first: seq<int> := if d in row then [row[d].hop - 1] else [];
    var last: seq<int> := if d in net.nodes[v].ft then [net.nodes[v].ft[d].hop] else [];
    assert LinkHistory(net, v, u, d) == first + hops + last;
    PartsDescend(first, hops, last);
  }

  lemma PartsDescend(a: seq<int>, b: seq<int>, c: seq<int>)
    requires |a| <= 1 && |c| <= 1 && Descends(b)
    requires forall x, y :: x in a && y in b ==> x >= y
    requires forall x, y :: x in a && y in c ==> x >= y
    requires forall x, y :: x in b && y in c ==> x >= y
    ensures Descends(a + b + c)
  {
    DescendsAppend(a, b);
    DescendsAppend(a + b, c);
  }

  /**
   * Along every link, for every destination but the sender, the receiver's stored hop count less one, the hop counts in
   * flight and the sender's own form a descending sequence, and the sender does have a route if there is any of these.
   */
  lemma LinkHistoryDescends(rd: Reading, addrs: set<Addr>, events: seq<Event>, v: Addr, u: Addr, d: Addr)
    requires FailureFree(events) && !Run(rd, Initial(addrs), events).wrapped
    requires rd.installsBetter || NeverRises(rd, Initial(addrs), events)
    ensures var net := Run(rd, Initial(addrs), events);
            v in net.nodes && u in net.nodes && d != v ==>
              && Descends(LinkHistory(net, v, u, d))
              && (LinkHistory(net, v, u, d) != [] ==> d in net.nodes[v].ft)
  {
    EveryRunFlows(rd, addrs, events);
    var net := Run(rd, Initial(addrs), events);
    if v in net.nodes && u in net.nodes && d != v {
      OrderedDescends(net, v, u, d);
    }
  }

  // ---------- when a hop count rises ----------

  /** With the arguments as passed, a table holds the longest of the routes on offer. */
  ghost predicate LongestOnOffer(node: Node) {
    forall n, d :: Holds(node.nbrs, node.dvt, n, d) ==> d in node.ft && node.dvt[n][d].hop <= node.ft[d].hop
  }

  ghost predicate AllLongest(net: Net) {
    forall u :: u in net.nodes ==> LongestOnOffer(net.nodes[u])
  }

  /** No route on offer in `node'` is longer than the one `node` has. */
  ghost predicate NoneLonger(node: Node, node': Node) {
    forall n, d :: Holds(node'.nbrs, node'.dvt, n, d) && d in node.ft ==> node'.dvt[n][d].hop <= node.ft[d].hop
  }

  lemma RecomputedRises(rd: Reading, node: Node, node': Node, d: Addr)
    requires !rd.installsBetter
    requires Settled(node) && RowsImprove(node, node')
    requires Consistent(node') && AllActive(node') && NeighborsIntroduced(node')
    ensures forall n :: Holds(node'.nbrs, node'.dvt, n, d) ==>
                          d in ComputedFt(rd, node') && node'.dvt[n][d].hop <= ComputedFt(rd, node')[d].hop
    ensures d in node.ft ==>
              d in ComputedFt(rd, node') &&
              exists n :: Holds(node'.nbrs, node'.dvt, n, d) && node'.dvt[n][d] == ComputedFt(rd, node')[d]
  {
    ComputedProperties(rd, node', d);
    if d in ComputedFt(rd, node') {
      RecomputedCell(rd, node, node', d);
    }
  }

  /** A recomputed table has a longer route somewhere exactly when a neighbour then offers one. */
  lemma RecomputedRisesExactly(rd: Reading, node: Node, node': Node)
    requires !rd.installsBetter
    requires Settled(node) && RowsImprove(node, node')
    requires Consistent(node') && AllActive(node') && NeighborsIntroduced(node')
    ensures HopsDoNotRise(node.ft, ComputedFt(rd, node')) <==> NoneLonger(node, node')
    ensures LongestOnOffer(Computed(rd, node'))
  {
    var ft := ComputedFt(rd, node');
    forall n, d | Holds(node'.nbrs, node'.dvt, n, d) ensures d in ft && node'.dvt[n][d].hop <= ft[d].hop {
      RecomputedRises(rd, node, node', d);
    }
    forall d | d in node.ft
      ensures d in ft && exists n :: Holds(node'.nbrs, node'.dvt, n, d) && node'.dvt[n][d] == ft[d]
    {
      RecomputedRises(rd, node, node', d);
    }
    LongestRisesExactly(node, node', ft);
  }

  /** If `ft` holds the longest routes on offer in `node'`, it has a longer one than `node` only if there is one on offer. */
  lemma LongestRisesExactly(node: Node, node': Node, ft: Row)
    requires forall n, d :: Holds(node'.nbrs, node'.dvt, n, d) ==> d in ft && node'.dvt[n][d].hop <= ft[d].hop
    requires forall d :: d in node.ft ==>
                           d in ft && exists n :: Holds(node'.nbrs, node'.dvt, n, d) && node'.dvt[n][d] == ft[d]
    ensures HopsDoNotRise(node.ft, ft) <==> NoneLonger(node, node')
  {
  }

  /** The message is stored in a current neighbour's row, and is longer than the route its receiver has. */
  predicate LongerUpdate(rd: Reading, node: Node, v: Addr, m: Update) {
    v in node.nbrs && Writes(rd, node, v) && m.dst in node.ft && Narrow(m.hop) > node.ft[m.dst].hop
  }

  /** Some UPDATE of `v` was stored before its first Hello, and is longer than the route its receiver has. */
  predicate LongerRow(node: Node, v: Addr) {
    var row := RowOf(node.dvt, v);
    v !in node.nbrs && exists d :: d in row && d in node.ft && row[d].hop > node.ft[d].hop
  }

  lemma UpdateRisesExactly(rd: Reading, node: Node, src: Addr, upd: Update)
    requires !rd.installsBetter && Settled(node) && LongestOnOffer(node)
    requires upd.state == ACTIVE && upd.dst != src
    requires src in node.dvt && upd.dst in node.dvt[src] ==> Narrow(upd.hop) <= node.dvt[src][upd.dst].hop
    ensures var node' := OnUpdate(rd, node, src, upd).node;
            && (HopsDoNotRise(node.ft, node'.ft) <==> !LongerUpdate(rd, node, src, upd))
            && LongestOnOffer(node')
  {
    var rt := RouteFrom(src, upd);
    var stored := Stored(rd, node, src, rt);
    StoredImproves(rd, node, src, rt);
    RecomputedRisesExactly(rd, node, stored);
    ActiveErasesNothing(rd, node, src, rt);
    StoredIsLongerExactly(rd, node, src, rt, stored);
  }

  lemma StoredIsLongerExactly(rd: Reading, node: Node, src: Addr, rt: Entry, stored: Node)
    requires LongestOnOffer(node) && stored.nbrs == node.nbrs
    requires stored.dvt == if Writes(rd, node, src) then node.dvt[src := RowOf(node.dvt, src)[rt.dst := rt]] else node.dvt
    ensures NoneLonger(node, stored) <==>
            !(src in node.nbrs && Writes(rd, node, src) && rt.dst in node.ft && rt.hop > node.ft[rt.dst].hop)
  {
    if src in node.nbrs && Writes(rd, node, src) && rt.dst in node.ft {
      assert Holds(stored.nbrs, stored.dvt, src, rt.dst) && stored.dvt[src][rt.dst] == rt;
    }
    forall n, d | Holds(stored.nbrs, stored.dvt, n, d) && d in node.ft
      ensures stored.dvt[n][d].hop <= node.ft[d].hop || (n == src && d == rt.dst && Writes(rd, node, src))
    {
      if !(n == src && d == rt.dst) {
        assert Holds(node.nbrs, node.dvt, n, d);
      }
    }
  }

  lemma HelloRisesExactly(rd: Reading, node: Node, v: Addr)
    requires !rd.installsBetter && Settled(node) && LongestOnOffer(node)
    requires forall d :: d in node.ft ==> node.ft[d].hop > 0
    ensures var node' := OnHello(rd, node, v, []).node;
            && (HopsDoNotRise(node.ft, node'.ft) <==> !LongerRow(node, v))
            && LongestOnOffer(node')
  {
    if v in node.nbrs {
      RepeatedHelloIsIdle(rd, node, v, []);
    } else {
      var intro := Introduced(node.(nbrs := node.nbrs + [v]), v);
      FirstHello(rd, node, v);
      IntroductionImproves(node, v);
      RecomputedRisesExactly(rd, node, intro);
      IntroducedIsLongerExactly(node, v, intro);
    }
  }

  lemma IntroducedIsLongerExactly(node: Node, v: Addr, intro: Node)
    requires Settled(node) && LongestOnOffer(node) && v !in node.nbrs
    requires forall d :: d in node.ft ==> node.ft[d].hop > 0
    requires intro == Introduced(node.(nbrs := node.nbrs + [v]), v)
    ensures NoneLonger(node, intro) <==> !LongerRow(node, v)
  {
    var row := RowOf(node.dvt, v);
    forall d | d in row ensures Holds(intro.nbrs, intro.dvt, v, d) && intro.dvt[v][d] == row[d] {
    }
    forall n, d | Holds(intro.nbrs, intro.dvt, n, d) && d in node.ft
      ensures intro.dvt[n][d].hop <= node.ft[d].hop || (n == v && d in row && intro.dvt[n][d] == row[d])
    {
      if n != v {
        assert Holds(node.nbrs, node.dvt, n, d);
      }
    }
  }

  /** The event brings its receiver a longer route than the one it has. */
  predicate OffersLonger(rd: Reading, net: Net, e: Event) {
    match e
    case Hello(v, u, failed) => CanGreet(net, v, u, failed) && LongerRow(net.nodes[u], v)
    case Deliver(v, u) => CanDeliver(net, v, u) && LongerUpdate(rd, net.nodes[u], v, net.chan(v, u)[0])
    case _ => false
  }

  lemma ActsLongest(net: Net, mid: Net, u: Addr, o: Outcome)
    requires mid.nodes == net.nodes
    requires u in net.nodes && AllLongest(net) && LongestOnOffer(o.node)
    ensures AllLongest(Act(mid, u, o))
    ensures NoHopRises(net, Act(mid, u, o)) <==> HopsDoNotRise(net.nodes[u].ft, o.node.ft)
  {
  }

  lemma DeliveredRisesExactly(rd: Reading, net: Net, v: Addr, u: Addr)
    requires !rd.installsBetter && Flowing(rd, net) && AllLongest(net) && CanDeliver(net, v, u)
    requires Narrow(net.chan(v, u)[0].hop) == net.chan(v, u)[0].hop + 1
    ensures var node, m := net.nodes[u], net.chan(v, u)[0];
            var node' := OnUpdate(rd, node, v, m).node;
            && (HopsDoNotRise(node.ft, node'.ft) <==> !LongerUpdate(rd, node, v, m))
            && LongestOnOffer(node')
  {
    DeliveredUpdate(rd, net, v, u);
    UpdateRisesExactly(rd, net.nodes[u], v, net.chan(v, u)[0]);
  }

  lemma GreetedRisesExactly(rd: Reading, net: Net, v: Addr, u: Addr)
    requires !rd.installsBetter && Flowing(rd, net) && AllLongest(net) && u in net.nodes
    ensures var node := net.nodes[u];
            var node' := OnHello(rd, node, v, []).node;
            && (HopsDoNotRise(node.ft, node'.ft) <==> !LongerRow(node, v))
            && LongestOnOffer(node')
  {
    var node := net.nodes[u];
    forall d | d in node.ft ensures node.ft[d].hop > 0 {
      FlowingIsCloser(rd, net, u, d);
    }
    HelloRisesExactly(rd, node, v);
  }

  lemma GreetingRisesExactly(rd: Reading, net: Net, v: Addr, u: Addr)
    requires !rd.installsBetter && Flowing(rd, net) && AllLongest(net) && CanGreet(net, v, u, [])
    ensures var net' := Step(rd, net, Hello(v, u, []));
            (NoHopRises(net, net') <==> !LongerRow(net.nodes[u], v)) && AllLongest(net')
  {
    var o := OnHello(rd, net.nodes[u], v, []);
    assert Step(rd, net, Hello(v, u, [])) == Act(net, u, o);
    GreetedRisesExactly(rd, net, v, u);
    ActsLongest(net, net, u, o);
  }

  lemma DeliveryRisesExactly(rd: Reading, net: Net, v: Addr, u: Addr)
    requires !rd.installsBetter && Flowing(rd, net) && AllLongest(net) && CanDeliver(net, v, u)
    requires Narrow(net.chan(v, u)[0].hop) == net.chan(v, u)[0].hop + 1
    ensures var net' := Step(rd, net, Deliver(v, u));
            && (NoHopRises(net, net') <==> !LongerUpdate(rd, net.nodes[u], v, net.chan(v, u)[0]))
            && AllLongest(net')
  {
    var mid, o := Received(net, v, u), OnUpdate(rd, net.nodes[u], v, net.chan(v, u)[0]);
    assert Step(rd, net, Deliver(v, u)) == Act(mid, u, o);
    DeliveredRisesExactly(rd, net, v, u);
    ActsLongest(net, mid, u, o);
  }

  lemma OtherEventsStand(rd: Reading, net: Net, e: Event)
    requires FailureFreeEvent(e)
    requires !(e.Hello? && CanGreet(net, e.v, e.u, [])) && !(e.Deliver? && CanDeliver(net, e.v, e.u))
    ensures Step(rd, net, e).nodes == net.nodes
  {
  }

  lemma TablesStand(net: Net, net': Net)
    requires AllLongest(net) && net'.nodes == net.nodes
    ensures AllLongest(net') && NoHopRises(net, net')
  {
  }

  lemma StepRisesExactly(rd: Reading, net: Net, e: Event)
    requires !rd.installsBetter && Flowing(rd, net) && AllLongest(net)
    requires FailureFreeEvent(e) && !Step(rd, net, e).wrapped
    ensures var net' := Step(rd, net, e); (NoHopRises(net, net') <==> !OffersLonger(rd, net, e)) && AllLongest(net')
  {
    if e.Hello? && CanGreet(net, e.v, e.u, []) {
      GreetingRisesExactly(rd, net, e.v, e.u);
    } else if e.Deliver? && CanDeliver(net, e.v, e.u) {
      DeliveryRisesExactly(rd, net, e.v, e.u);
    } else {
      OtherEventsStand(rd, net, e);
      TablesStand(net, Step(rd, net, e));
    }
  }

  /** No event of the run brings its receiver a longer route. */
  ghost predicate NeverOffersLonger(rd: Reading, net: Net, events: seq<Event>) {
    events != [] ==>
      && NeverOffersLonger(rd, net, events[..|events| - 1])
      && !OffersLonger(rd, Run(rd, net, events[..|events| - 1]), events[|events| - 1])
  }

  /**
   * With the arguments as passed, the hop counts of a failure-free run never rise exactly when no event of it brings a
   * longer route: a Hello from a node whose UPDATEs came first, or an UPDATE that the write guard lets through.
   */
  lemma {:induction false} NeverRisesExactly(rd: Reading, addrs: set<Addr>, events: seq<Event>)
    requires !rd.installsBetter
    requires FailureFree(events) && !Run(rd, Initial(addrs), events).wrapped
    ensures NeverRises(rd, Initial(addrs), events) <==> NeverOffersLonger(rd, Initial(addrs), events)
    ensures NeverRises(rd, Initial(addrs), events) ==> AllLongest(Run(rd, Initial(addrs), events))
  {
    if events != [] {
      var init, e := events[..|events| - 1], events[|events| - 1];
      var net := Run(rd, Initial(addrs), init);
      WrappedStays(rd, net, e);
      NeverRisesExactly(rd, addrs, init);
      if NeverRises(rd, Initial(addrs), init) {
        EveryRunFlows(rd, addrs, init);
        StepRisesExactly(rd, net, e);
      }
    }
  }

  /** As written, an UPDATE never brings a longer route: a current neighbour's row is not written to. */
  lemma OnlyHellosOfferLonger(net: Net, e: Event)
    requires Flowing(AS_WRITTEN, net) && OffersLonger(AS_WRITTEN, net, e)
    ensures e.Hello? && LongerRow(net.nodes[e.u], e.v)
  {
    assert Settled(net.nodes[e.u]);
  }

  /** Loop-free delivery with the arguments as passed, under a guard that each event can be checked against. */
  lemma RoutesArriveUnlessLonger(rd: Reading, addrs: set<Addr>, events: seq<Event>, u: Addr, d: Addr)
    requires FailureFree(events) && !Run(rd, Initial(addrs), events).wrapped
    requires rd.installsBetter || NeverOffersLonger(rd, Initial(addrs), events)
    ensures var net := Run(rd, Initial(addrs), events);
            u in net.nodes && d in net.nodes[u].ft ==>
              NextHopIsCloser(net, u, d) && Arrives(net, u, d, net.nodes[u].ft[d].hop)
  {
    if !rd.installsBetter {
      NeverRisesExactly(rd, addrs, events);
    }
    EveryRouteArrives(rd, addrs, events, u, d);
  }
}
