/** When neighbours agree, hop counts are shortest distances; and small networks never wrap a hop count. */
module Exactness {
  import opened Collections
  import opened Routes
  import opened Tables
  import opened NodeSteps
  import opened Network
  import opened HopSoundness
  import opened LoopFreedom

  /** `u` lists `v`, and holds what the table of `v` says, plus one hop, except about itself. */
  ghost predicate AgreedOn(node: Node, u: Addr, v: Addr, ft: Row) {
    && v in node.nbrs
    && forall d :: d in ft && d != u ==>
                     d in RowOf(node.dvt, v) && RowOf(node.dvt, v)[d].hop == ft[d].hop + 1
  }

  ghost predicate Agreed(net: Net) {
    forall u, v :: (u, v) in net.links && u in net.nodes && v in net.nodes ==>
                     AgreedOn(net.nodes[u], u, v, net.nodes[v].ft)
  }

  /** Across the link to `v`, no hop count in `ft` can be improved by going through `v`. */
  ghost predicate Relaxed(ft: Row, u: Addr, v: Addr, ftv: Row) {
    && v in ft && ft[v].hop <= 1
    && forall d :: d in ftv && d != u ==> d in ft && ft[d].hop <= ftv[d].hop + 1
  }

  lemma AgreedIsRelaxed(node: Node, u: Addr, v: Addr, ftv: Row)
    requires Settled(node) && ShortestOnOffer(node) && AgreedOn(node, u, v, ftv)
    ensures Relaxed(node.ft, u, v, ftv)
  {
    assert Holds(node.nbrs, node.dvt, v, v);
    forall d | d in ftv && d != u ensures d in node.ft && node.ft[d].hop <= ftv[d].hop + 1 {
      assert Holds(node.nbrs, node.dvt, v, d);
    }
  }

  ghost predicate AllRelaxed(net: Net) {
    forall u, v :: (u, v) in net.links ==>
                     u in net.nodes && v in net.nodes && Relaxed(net.nodes[u].ft, u, v, net.nodes[v].ft)
  }

  lemma AgreementRelaxes(rd: Reading, net: Net)
    requires rd.installsBetter && Flowing(rd, net) && Agreed(net)
    ensures AllRelaxed(net)
  {
    forall u, v | (u, v) in net.links
      ensures u in net.nodes && v in net.nodes && Relaxed(net.nodes[u].ft, u, v, net.nodes[v].ft)
    {
      AgreedIsRelaxed(net.nodes[u], u, v, net.nodes[v].ft);
    }
  }

  /** Bellman: when no link can be relaxed, a walk of any length bounds the hop count at its start. */
  lemma {:induction false} WalkBoundsHops(net: Net, u: Addr, d: Addr, len: nat)
    requires AllRelaxed(net)
    requires u in net.nodes && u != d && Walk(net.links, u, d, len)
    ensures d in net.nodes[u].ft && net.nodes[u].ft[d].hop <= len
    decreases len
  {
    var m :| (u, m) in net.links && Walk(net.links, m, d, len - 1);
    if m != d {
      WalkBoundsHops(net, m, d, len - 1);
    }
  }

  ghost predicate IsShortestDistance(net: Net, u: Addr, d: Addr, hop: nat) {
    Walk(net.links, u, d, hop) && forall len: nat :: Walk(net.links, u, d, len) ==> hop <= len
  }

  ghost predicate WalksBoundHops(net: Net, u: Addr, d: Addr)
    requires u in net.nodes
  {
    forall len: nat :: Walk(net.links, u, d, len) ==> d in net.nodes[u].ft && net.nodes[u].ft[d].hop <= len
  }

  lemma AllWalksBoundHops(net: Net, u: Addr, d: Addr)
    requires AllRelaxed(net) && u in net.nodes && u != d
    ensures WalksBoundHops(net, u, d)
  {
    forall len: nat | Walk(net.links, u, d, len)
      ensures d in net.nodes[u].ft && net.nodes[u].ft[d].hop <= len
    {
      WalkBoundsHops(net, u, d, len);
    }
  }

  lemma BoundedAndWalkedIsShortest(net: Net, u: Addr, d: Addr)
    requires u in net.nodes && WalksBoundHops(net, u, d)
    requires d in net.nodes[u].ft ==> Walk(net.links, u, d, net.nodes[u].ft[d].hop)
    ensures d in net.nodes[u].ft <==> exists len: nat :: Walk(net.links, u, d, len)
    ensures d in net.nodes[u].ft ==> IsShortestDistance(net, u, d, net.nodes[u].ft[d].hop)
  {
    if d in net.nodes[u].ft {
      var hop := net.nodes[u].ft[d].hop;
      assert Walk(net.links, u, d, hop);
    }
  }

  lemma RouteIsWalked(net: Net, u: Addr, d: Addr)
    requires Sound(net) && !net.wrapped
    requires u in net.nodes && d in net.nodes[u].ft
    ensures Walk(net.links, u, d, net.nodes[u].ft[d].hop)
  {
    assert WitnessTest(net, u)(d, net.nodes[u].ft[d].hop);
  }

  /**
   * Exactness at agreement, with the documented route order: a node has a route to exactly the destinations it is
   * connected to, and the hop count is the length of a shortest walk.
   */
  lemma HopsAreShortestDistances(rd: Reading, addrs: set<Addr>, events: seq<Event>, u: Addr, d: Addr)
    requires rd.installsBetter && FailureFree(events)
    requires var net := Run(rd, Initial(addrs), events); !net.wrapped && Agreed(net) && u in net.nodes && u != d
    ensures var net := Run(rd, Initial(addrs), events);
            && (d in net.nodes[u].ft <==> exists len: nat :: Walk(net.links, u, d, len))
            && (d in net.nodes[u].ft ==> IsShortestDistance(net, u, d, net.nodes[u].ft[d].hop))
  {
    EveryRunFlows(rd, addrs, events);
    var net := Run(rd, Initial(addrs), events);
    if d in net.nodes[u].ft {
      RouteIsWalked(net, u, d);
    }
    AgreementRelaxes(rd, net);
    AllWalksBoundHops(net, u, d);
    BoundedAndWalkedIsShortest(net, u, d);
  }

  // ---------- where a hop count came from ----------

  /**
   * `q` visits `|q|` different nodes, each of which now claims to be no farther from `d` than its place in `q` says.
   */
  ghost predicate Trail(net: Net, q: seq<Addr>, d: Addr) {
    && Distinct(q)
    && forall i :: 0 <= i < |q| ==>
                     q[i] in net.nodes && d in net.nodes[q[i]].ft && net.nodes[q[i]].ft[d].hop <= |q| - i
  }

  /** Hop count `hop` for `d` at `v` was passed along such a trail. */
  ghost predicate Trailed(net: Net, v: Addr, d: Addr, hop: nat) {
    exists q :: Trail(net, q, d) && |q| == hop && q != [] && q[0] == v
  }

  ghost predicate RowsTrailed(net: Net) {
    forall u, n, d :: u in net.nodes && n in net.nodes[u].dvt && d in net.nodes[u].dvt[n] && d != n ==>
                        net.nodes[u].dvt[n][d].hop > 0 && Trailed(net, n, d, net.nodes[u].dvt[n][d].hop - 1)
  }

  ghost predicate MessagesTrailed(net: Net) {
    forall v, u, m :: m in net.chan(v, u) ==> Trailed(net, v, m.dst, m.hop)
  }

  lemma TrailedStays(net: Net, net': Net, v: Addr, d: Addr, hop: nat)
    requires NoHopRises(net, net') && Trailed(net, v, d, hop)
    ensures Trailed(net', v, d, hop)
  {
    var q :| Trail(net, q, d) && |q| == hop && q != [] && q[0] == v;
    assert Trail(net', q, d);
  }

  /** A node that adopts a hop count is not itself on the trail behind it. */
  lemma TrailExtends(net: Net, q: seq<Addr>, u: Addr, d: Addr)
    requires Trail(net, q, d)
    requires u in net.nodes && d in net.nodes[u].ft && net.nodes[u].ft[d].hop == |q| + 1
    ensures Trail(net, [u] + q, d)
  {
    assert u !in q;
    AppendIsDistinct([u], q);
    var longer := [u] + q;
    forall i | 0 <= i < |longer|
      ensures longer[i] in net.nodes && d in net.nodes[longer[i]].ft
      ensures net.nodes[longer[i]].ft[d].hop <= |longer| - i
    {
      if i > 0 {
        assert longer[i] == q[i - 1];
      }
    }
  }

  lemma RouteIsTrailed(net: Net, u: Addr, d: Addr)
    requires RowsTrailed(net)
    requires u in net.nodes && Settled(net.nodes[u]) && d in net.nodes[u].ft
    ensures Trailed(net, u, d, net.nodes[u].ft[d].hop)
  {
    var e := net.nodes[u].ft[d];
    if e.nextHop == d {
      TrailExtends(net, [], u, d);
      assert [u] + [] == [u];
      assert Trail(net, [u], d);
    } else {
      assert Trailed(net, e.nextHop, d, e.hop - 1);
      var q :| Trail(net, q, d) && |q| == e.hop - 1 && q != [] && q[0] == e.nextHop;
      TrailExtends(net, q, u, d);
    }
  }

  lemma WalkStaysInside(net: Net, s: Addr, d: Addr, len: nat)
    requires LinksSound(net) && s in net.nodes && Walk(net.links, s, d, len)
    ensures d in net.nodes
    decreases len
  {
    if len != 0 {
      var m :| (s, m) in net.links && Walk(net.links, m, d, len - 1);
      WalkStaysInside(net, m, d, len - 1);
    }
  }

  lemma {:induction false} DistinctIsSmall(q: seq<Addr>, s: set<Addr>)
    requires Distinct(q) && forall x :: x in q ==> x in s
    ensures |q| <= |s|
  {
    if q != [] {
      var x, init := q[|q| - 1], q[..|q| - 1];
      assert forall y :: y in init ==> y in s - {x};
      DistinctIsSmall(init, s - {x});
    }
  }

  ghost predicate NoRouteToSelf(net: Net) {
    forall x :: x in net.nodes ==> x !in net.nodes[x].ft
  }

  lemma SoundHasNoRouteToSelf(net: Net)
    requires Sound(net)
    ensures NoRouteToSelf(net)
  {
  }

  /** A trail misses its destination, so it is shorter than the network is large. */
  lemma TrailedHopIsBounded(net: Net, v: Addr, d: Addr, hop: nat)
    requires NoRouteToSelf(net) && d in net.nodes && Trailed(net, v, d, hop)
    ensures hop < |net.nodes.Keys|
  {
    var q :| Trail(net, q, d) && |q| == hop && q != [] && q[0] == v;
    DistinctIsSmall(q, net.nodes.Keys - {d});
  }

  lemma MessageHopsAreBounded(net: Net, v: Addr, u: Addr, m: Update)
    requires Sound(net) && Trailed(net, v, m.dst, m.hop) && m in net.chan(v, u)
    ensures m.hop < |net.nodes.Keys|
  {
    assert MessageSound(net, v, u, m);
    var len: nat :| Walk(net.links, v, m.dst, len);
    WalkStaysInside(net, v, m.dst, len);
    SoundHasNoRouteToSelf(net);
    TrailedHopIsBounded(net, v, m.dst, m.hop);
  }

  ghost predicate RowTrailed(net: Net, node: Node, n: Addr, d: Addr) {
    n in node.dvt && d in node.dvt[n] && d != n ==> node.dvt[n][d].hop > 0 && Trailed(net, n, d, node.dvt[n][d].hop - 1)
  }

  /** Rows that are old, or that extend a trailed message, and messages that are old or freshly sent, stay trailed. */
  lemma ActKeepsTrails(net: Net, u: Addr, o: Outcome)
    requires RowsTrailed(net) && MessagesTrailed(net) && u in net.nodes
    requires NoHopRises(net, Act(net, u, o)) && Settled(o.node)
    requires forall s :: s in o.sends ==> FromTable(o.node, s)
    requires forall n, d :: RowTrailed(net, o.node, n, d)
    ensures RowsTrailed(Act(net, u, o)) && MessagesTrailed(Act(net, u, o))
  {
    var net' := Act(net, u, o);
    forall y, n, d | y in net'.nodes && n in net'.nodes[y].dvt && d in net'.nodes[y].dvt[n] && d != n
      ensures net'.nodes[y].dvt[n][d].hop > 0 && Trailed(net', n, d, net'.nodes[y].dvt[n][d].hop - 1)
    {
      assert y == u ==> RowTrailed(net, o.node, n, d);
      TrailedStays(net, net', n, d, net'.nodes[y].dvt[n][d].hop - 1);
    }
    forall v, y, m | m in net'.chan(v, y) ensures Trailed(net', v, m.dst, m.hop) {
      if m in net.chan(v, y) {
        TrailedStays(net, net', v, m.dst, m.hop);
      } else {
        assert FromTable(o.node, Send(y, m));
        RouteIsTrailed(net', u, m.dst);
      }
    }
  }

  lemma DeliveredRowTrailed(rd: Reading, net: Net, v: Addr, u: Addr, n: Addr, d: Addr)
    requires RowsTrailed(net) && CanDeliver(net, v, u)
    requires var m := net.chan(v, u)[0];
             && m.state == ACTIVE && Narrow(m.hop) == m.hop + 1
             && Trailed(net, v, m.dst, m.hop)
    ensures RowTrailed(net, OnUpdate(rd, net.nodes[u], v, net.chan(v, u)[0]).node, n, d)
  {
    var rt := RouteFrom(v, net.chan(v, u)[0]);
    ActiveErasesNothing(rd, net.nodes[u], v, rt);
    var dvt := UpdatedDvt(rd, net.nodes[u], v, rt);
    if n in dvt && d in dvt[n] {
      assert (dvt[n][d] == rt && n == v && d == rt.dst) || (n in net.nodes[u].dvt && d in net.nodes[u].dvt[n]);
    }
  }

  lemma DeliveredRowsTrailed(rd: Reading, net: Net, v: Addr, u: Addr)
    requires RowsTrailed(net) && MessagesTrailed(net) && CanDeliver(net, v, u)
    requires var m := net.chan(v, u)[0]; m.state == ACTIVE && Narrow(m.hop) == m.hop + 1
    ensures var o := OnUpdate(rd, net.nodes[u], v, net.chan(v, u)[0]);
            forall n, d :: RowTrailed(Received(net, v, u), o.node, n, d)
  {
    var mid, m := Received(net, v, u), net.chan(v, u)[0];
    var node' := OnUpdate(rd, net.nodes[u], v, m).node;
    assert m in net.chan(v, u);
    assert Trailed(net, v, m.dst, m.hop);
    forall n, d ensures RowTrailed(mid, node', n, d) {
      DeliveredRowTrailed(rd, net, v, u, n, d);
      if n in node'.dvt && d in node'.dvt[n] && d != n {
        TrailedStays(net, mid, n, d, node'.dvt[n][d].hop - 1);
      }
    }
  }

  lemma DeliveredOutcome(rd: Reading, net: Net, v: Addr, u: Addr)
    requires Flowing(rd, net) && CanDeliver(net, v, u)
    requires Narrow(net.chan(v, u)[0].hop) == net.chan(v, u)[0].hop + 1
    ensures var o := OnUpdate(rd, net.nodes[u], v, net.chan(v, u)[0]);
            Settled(o.node) && forall s :: s in o.sends ==> FromTable(o.node, s)
    ensures net.chan(v, u)[0].state == ACTIVE
  {
    DeliveredUpdate(rd, net, v, u);
    UpdateSettles(rd, net.nodes[u], v, net.chan(v, u)[0]);
  }

  lemma DeliverKeepsTrails(rd: Reading, net: Net, v: Addr, u: Addr)
    requires CanDeliver(net, v, u) && RowsTrailed(net) && MessagesTrailed(net)
    requires var m := net.chan(v, u)[0]; m.state == ACTIVE && Narrow(m.hop) == m.hop + 1
    requires var mid, o := Received(net, v, u), OnUpdate(rd, net.nodes[u], v, net.chan(v, u)[0]);
             && NoHopRises(mid, Act(mid, u, o)) && Settled(o.node)
             && forall s :: s in o.sends ==> FromTable(o.node, s)
    ensures var mid, o := Received(net, v, u), OnUpdate(rd, net.nodes[u], v, net.chan(v, u)[0]);
            RowsTrailed(Act(mid, u, o)) && MessagesTrailed(Act(mid, u, o))
  {
    DeliveredRowsTrailed(rd, net, v, u);
    SameTablesSameTrails(net, Received(net, v, u));
    ActKeepsTrails(Received(net, v, u), u, OnUpdate(rd, net.nodes[u], v, net.chan(v, u)[0]));
  }

  lemma SameTablesSameTrails(net: Net, net': Net)
    requires net'.nodes == net.nodes && RowsTrailed(net) && MessagesTrailed(net)
    requires forall v, u, m :: m in net'.chan(v, u) ==> m in net.chan(v, u)
    ensures RowsTrailed(net') && MessagesTrailed(net') && NoHopRises(net, net')
  {
    forall y, n, d | y in net'.nodes && n in net'.nodes[y].dvt && d in net'.nodes[y].dvt[n] && d != n
      ensures Trailed(net', n, d, net'.nodes[y].dvt[n][d].hop - 1)
    {
      TrailedStays(net, net', n, d, net'.nodes[y].dvt[n][d].hop - 1);
    }
    forall v, y, m | m in net'.chan(v, y) ensures Trailed(net', v, m.dst, m.hop) {
      TrailedStays(net, net', v, m.dst, m.hop);
    }
  }

  lemma HelloKeepsTrails(rd: Reading, net: Net, v: Addr, u: Addr)
    requires Flowing(rd, net) && CanGreet(net, v, u, []) && RowsTrailed(net) && MessagesTrailed(net)
    requires NoHopRises(net, Act(net, u, OnHello(rd, net.nodes[u], v, [])))
    ensures var net' := Act(net, u, OnHello(rd, net.nodes[u], v, [])); RowsTrailed(net') && MessagesTrailed(net')
  {
    var node := net.nodes[u];
    HelloSettles(rd, node, v);
    var o := OnHello(rd, node, v, []);
    GreetedRowsTrailed(net, u, v, o.node);
    ActKeepsTrails(net, u, o);
  }

  lemma GreetedRowsTrailed(net: Net, u: Addr, v: Addr, node': Node)
    requires u in net.nodes && RowsTrailed(net)
    requires forall n, d :: n in node'.dvt && d in node'.dvt[n] ==>
                              || (n in net.nodes[u].dvt && d in net.nodes[u].dvt[n] &&
                                  node'.dvt[n][d] == net.nodes[u].dvt[n][d])
                              || (n == v && d == v)
    ensures forall n, d :: RowTrailed(net, node', n, d)
  {
  }

  lemma TimeoutKeepsTrails(rd: Reading, net: Net, u: Addr, ne: Addr, dst: Addr)
    requires Flowing(rd, net) && u in net.nodes && ne != dst && RowsTrailed(net) && MessagesTrailed(net)
    ensures var net' := Act(net, u, Outcome(net.nodes[u], TimeoutSends(net.nodes[u], ne, dst)));
            RowsTrailed(net') && MessagesTrailed(net')
  {
    TimeoutFlows(rd, net, u, ne, dst);
    TimeoutSendsFromTable(net.nodes[u], ne, dst);
    forall n, d ensures RowTrailed(net, net.nodes[u], n, d) {
    }
    ActKeepsTrails(net, u, Outcome(net.nodes[u], TimeoutSends(net.nodes[u], ne, dst)));
  }

  lemma StepKeepsTrails(rd: Reading, net: Net, e: Event)
    requires Flowing(rd, net) && FailureFreeEvent(e) && RowsTrailed(net) && MessagesTrailed(net)
    requires !Step(rd, net, e).wrapped && NoHopRises(net, Step(rd, net, e))
    ensures RowsTrailed(Step(rd, net, e)) && MessagesTrailed(Step(rd, net, e))
  {
    match e
    case LinkUp(u, v) => SameTablesSameTrails(net, Step(rd, net, e));
    case Hello(v, u, failed) => if CanGreet(net, v, u, []) { HelloKeepsTrails(rd, net, v, u); }
    case Deliver(v, u) =>
      if CanDeliver(net, v, u) {
        DeliveredOutcome(rd, net, v, u);
        DeliverKeepsTrails(rd, net, v, u);
      }
    case Lose(v, u, i) => SameTablesSameTrails(net, Step(rd, net, e));
    case Timeout(u, ne, dst) => if u in net.nodes && ne != dst { TimeoutKeepsTrails(rd, net, u, ne, dst); }
  }

  lemma WrapsOnlyAtDelivery(rd: Reading, net: Net, e: Event)
    requires Step(rd, net, e).wrapped && !net.wrapped
    ensures e.Deliver? && CanDeliver(net, e.v, e.u)
    ensures Narrow(net.chan(e.v, e.u)[0].hop) != net.chan(e.v, e.u)[0].hop + 1
  {
  }

  lemma HeadIsTrailed(net: Net, v: Addr, u: Addr)
    requires MessagesTrailed(net) && CanDeliver(net, v, u)
    ensures var m := net.chan(v, u)[0]; m in net.chan(v, u) && Trailed(net, v, m.dst, m.hop)
  {
  }

  lemma SmallHopsDoNotWrap(hop: nat)
    requires hop < 255
    ensures Narrow(hop) == hop + 1
  {
  }

  /** A network of at most 255 nodes never sees a hop count of 255, so the narrowing to eight bits never bites. */
  lemma StepDoesNotWrap(rd: Reading, net: Net, e: Event)
    requires Sound(net) && MessagesTrailed(net) && !net.wrapped && |net.nodes.Keys| <= 255
    ensures !Step(rd, net, e).wrapped
  {
    if e.Deliver? && CanDeliver(net, e.v, e.u) {
      HeadIsTrailed(net, e.v, e.u);
      var m := net.chan(e.v, e.u)[0];
      MessageHopsAreBounded(net, e.v, e.u, m);
      SmallHopsDoNotWrap(m.hop);
    }
    if Step(rd, net, e).wrapped {
      WrapsOnlyAtDelivery(rd, net, e);
    }
  }

  lemma NodesStay(rd: Reading, net: Net, e: Event)
    ensures Step(rd, net, e).nodes.Keys == net.nodes.Keys
  {
  }

  lemma {:induction false} SmallNetworksNeverWrap(rd: Reading, addrs: set<Addr>, events: seq<Event>)
    requires FailureFree(events) && |addrs| <= 255
    requires rd.installsBetter || NeverRises(rd, Initial(addrs), events)
    ensures var net := Run(rd, Initial(addrs), events);
            !net.wrapped && Flowing(rd, net) && RowsTrailed(net) && MessagesTrailed(net) && net.nodes.Keys == addrs
  {
    if events == [] {
      EveryRunFlows(rd, addrs, events);
    } else {
      var init, e := events[..|events| - 1], events[|events| - 1];
      SmallNetworksNeverWrap(rd, addrs, init);
      var net := Run(rd, Initial(addrs), init);
      StepDoesNotWrap(rd, net, e);
      NodesStay(rd, net, e);
      StepFlows(rd, net, e);
      StepKeepsTrails(rd, net, e);
    }
  }

  /** Loop-free delivery with no assumption on hop counts: the network has at most 255 nodes. */
  lemma SmallNetworkRoutesArrive(rd: Reading, addrs: set<Addr>, events: seq<Event>, u: Addr, d: Addr)
    requires FailureFree(events) && |addrs| <= 255 && rd.installsBetter
    ensures var net := Run(rd, Initial(addrs), events);
            u in net.nodes && d in net.nodes[u].ft ==>
              NextHopIsCloser(net, u, d) && Arrives(net, u, d, net.nodes[u].ft[d].hop)
  {
    SmallNetworksNeverWrap(rd, addrs, events);
    EveryRouteArrives(rd, addrs, events, u, d);
  }
}
