/**
 * The code as written can loop.  Four nodes that all hear each other, no loss, no failure: because the route order is
 * called with its arguments swapped, three of them end up passing packets for the fourth around in a circle.
 */
module AsWritten {
  import opened Collections
  import opened Routes
  import opened Tables
  import opened Changes
  import opened NodeSteps
  import opened Network
  import opened HopSoundness
  import opened LoopFreedom

  ghost predicate Reached(addrs: set<Addr>, net: Net) {
    exists events :: FailureFree(events) && Run(AS_WRITTEN, Initial(addrs), events) == net
  }

  lemma ReachedStep(addrs: set<Addr>, net: Net, e: Event)
    requires Reached(addrs, net) && FailureFreeEvent(e)
    ensures Reached(addrs, Step(AS_WRITTEN, net, e))
  {
    var events :| FailureFree(events) && Run(AS_WRITTEN, Initial(addrs), events) == net;
    var longer := events + [e];
    assert longer[..|longer| - 1] == events;
    assert FailureFree(longer);
    assert Run(AS_WRITTEN, Initial(addrs), longer) == Step(AS_WRITTEN, net, e);
  }

  // ---------- the four steps each node takes ----------

  /** `x` has heard the Hello of `d`. */
  ghost predicate Knows(node: Node, x: Addr, d: Addr) {
    && node.main == x && Settled(node) && d in node.nbrs
    && forall n, k :: n in node.dvt && k in node.dvt[n] ==> n == d && k == d
  }

  /** ... and then that of its predecessor `p`. */
  ghost predicate Told(node: Node, x: Addr, d: Addr, p: Addr) {
    && node.main == x && Settled(node) && d in node.nbrs
    && forall n, k :: n in node.dvt && k in node.dvt[n] ==> n == k && (k == d || k == p)
  }

  /** ... and then an UPDATE from its successor `s`, whose Hello it has not heard. */
  ghost predicate Stores(node: Node, x: Addr, d: Addr, s: Addr) {
    && node.main == x && Settled(node) && d in node.nbrs && s !in node.nbrs
    && s in node.dvt && Lookup(node.dvt[s], d) == Some(Entry(d, s, 2, ACTIVE))
    && forall n :: n in node.dvt && d in node.dvt[n] ==> n == d || n == s
  }

  ghost predicate Follows(node: Node, d: Addr, s: Addr) {
    d in node.ft && node.ft[d].nextHop == s
  }

  lemma HearsDestination(x: Addr, d: Addr)
    ensures var o := OnHello(AS_WRITTEN, Node(x, [], map[], map[]), d, []);
            Knows(o.node, x, d) && forall s :: s in o.sends ==> s.to == d
  {
    var start := Node(x, [], map[], map[]);
    assert Settled(start);
    FirstHello(AS_WRITTEN, start, d);
    HelloSettles(AS_WRITTEN, start, d);
    KnowsAfter(OnHello(AS_WRITTEN, start, d, []).node, x, d);
  }

  lemma KnowsAfter(node: Node, x: Addr, d: Addr)
    requires Settled(node) && node.main == x && node.nbrs == [d]
    requires forall n, k :: n in node.dvt && k in node.dvt[n] ==> n == d && k == d
    ensures Knows(node, x, d)
  {
  }

  lemma DirectRoute(node: Node, d: Addr)
    requires Settled(node) && d in node.nbrs
    requires forall n :: n in node.dvt && d in node.dvt[n] ==> n == d
    ensures d in node.ft && node.ft[d] == Entry(d, d, 1, ACTIVE)
  {
    assert Holds(node.nbrs, node.dvt, d, d);
  }

  /** The full table a new neighbour is given leaves out only the neighbour and the node itself. */
  lemma {:induction false} FullTableIncludes(node: Node, keys: seq<Addr>, ne: Addr, d: Addr)
    requires d in keys && d in node.ft && d != node.main && d != ne && d != LOOPBACK && node.ft[d].dst != UNSPECIFIED
    ensures Send(ne, Header(node.main, node.ft[d])) in FullTable(node, keys, ne)
  {
    if d != keys[|keys| - 1] {
      assert d in keys[..|keys| - 1];
      FullTableIncludes(node, keys[..|keys| - 1], ne, d);
    }
  }

  lemma OffersDestination(node: Node, x: Addr, d: Addr, p: Addr)
    requires Told(node, x, d, p)
    requires x != d && p != d && d != UNSPECIFIED && d != LOOPBACK
    ensures var sends := FullTable(node, SortedKeys(node.ft.Keys), p);
            To(sends, p) != [] && To(sends, p)[0] == Update(x, d, 1, ACTIVE)
  {
    DirectRoute(node, d);
    var keys := SortedKeys(node.ft.Keys);
    FullTableIncludes(node, keys, p, d);
    FullTableFromTable(node, keys, p);
    var msgs := To(FullTable(node, keys, p), p);
    assert Update(x, d, 1, ACTIVE) in msgs;
    assert msgs[0] in msgs;
    assert FromTable(node, Send(p, msgs[0]));
    assert msgs[0].dst == d;
  }

  lemma BecomesTold(node: Node, x: Addr, d: Addr, p: Addr)
    requires Knows(node, x, d) && p != d
    ensures var node' := Computed(AS_WRITTEN, Introduced(node.(nbrs := node.nbrs + [p]), p));
            && Told(node', x, d, p)
            && OnHello(AS_WRITTEN, node, p, []) == Outcome(node', FullTable(node', SortedKeys(node'.ft.Keys), p))
  {
    assert p !in node.nbrs;
    FirstHello(AS_WRITTEN, node, p);
    HelloSettles(AS_WRITTEN, node, p);
    ToldAfter(node, OnHello(AS_WRITTEN, node, p, []).node, x, d, p);
  }

  lemma ToldAfter(node: Node, node': Node, x: Addr, d: Addr, p: Addr)
    requires Knows(node, x, d)
    requires Settled(node') && node'.main == x && node'.nbrs == node.nbrs + [p]
    requires forall n, k :: n in node'.dvt && k in node'.dvt[n] ==>
                              || (n in node.dvt && k in node.dvt[n] && node'.dvt[n][k] == node.dvt[n][k])
                              || (n == p && k == p)
    ensures Told(node', x, d, p)
  {
  }

  lemma HearsPredecessor(node: Node, x: Addr, d: Addr, p: Addr)
    requires Knows(node, x, d)
    requires x != d && p != d && d != UNSPECIFIED && d != LOOPBACK
    ensures var o := OnHello(AS_WRITTEN, node, p, []);
            && Told(o.node, x, d, p)
            && To(o.sends, p) != [] && To(o.sends, p)[0] == Update(x, d, 1, ACTIVE)
  {
    BecomesTold(node, x, d, p);
    OffersDestination(Computed(AS_WRITTEN, Introduced(node.(nbrs := node.nbrs + [p]), p)), x, d, p);
  }

  lemma StoresOffer(node: Node, x: Addr, d: Addr, p: Addr, s: Addr)
    requires Told(node, x, d, p)
    requires s != d && s != p
    ensures var dvt := UpdatedDvt(AS_WRITTEN, node, s, Entry(d, s, 2, ACTIVE));
            && s in dvt && Lookup(dvt[s], d) == Some(Entry(d, s, 2, ACTIVE))
            && forall n :: n in dvt && d in dvt[n] ==> n == d || n == s
    ensures s !in node.nbrs && d !in RowOf(node.dvt, s)
  {
  }

  lemma HearsRoute(node: Node, x: Addr, d: Addr, p: Addr, s: Addr)
    requires Told(node, x, d, p)
    requires s != d && s != p
    ensures Stores(OnUpdate(AS_WRITTEN, node, s, Update(s, d, 1, ACTIVE)).node, x, d, s)
  {
    StoresOffer(node, x, d, p, s);
    StoredOffer(node, x, d, s);
  }

  lemma StoredOffer(node: Node, x: Addr, d: Addr, s: Addr)
    requires node.main == x && Settled(node) && d in node.nbrs && s != d
    requires s !in node.nbrs && d !in RowOf(node.dvt, s)
    requires var dvt := UpdatedDvt(AS_WRITTEN, node, s, Entry(d, s, 2, ACTIVE));
             && s in dvt && Lookup(dvt[s], d) == Some(Entry(d, s, 2, ACTIVE))
             && forall n :: n in dvt && d in dvt[n] ==> n == d || n == s
    ensures Stores(OnUpdate(AS_WRITTEN, node, s, Update(s, d, 1, ACTIVE)).node, x, d, s)
  {
    var upd := Update(s, d, 1, ACTIVE);
    assert RouteFrom(s, upd) == Entry(d, s, 2, ACTIVE);
    UpdateSettles(AS_WRITTEN, node, s, upd);
  }

  /** The swapped call installs the two-hop route over the direct one. */
  lemma WorseRouteWins(node: Node, d: Addr, s: Addr)
    requires RowsOwned(node.dvt) && s != d
    requires Holds(node.nbrs, node.dvt, s, d) && node.dvt[s][d] == Entry(d, s, 2, ACTIVE)
    requires Lookup(RowOf(node.dvt, d), d) == Some(Entry(d, d, 1, ACTIVE))
    requires forall n :: Holds(node.nbrs, node.dvt, n, d) ==> n == d || n == s
    requires Known(node.dvt, node.ft, d) == Some(Entry(d, d, 1, ACTIVE))
    ensures Follows(Computed(AS_WRITTEN, node), d, s)
  {
    ComputedProperties(AS_WRITTEN, node, d);
  }

  lemma HearsSuccessor(node: Node, x: Addr, d: Addr, s: Addr)
    requires Stores(node, x, d, s) && s != d
    ensures Follows(OnHello(AS_WRITTEN, node, s, []).node, d, s)
  {
    var intro := Introduced(node.(nbrs := node.nbrs + [s]), s);
    FirstHello(AS_WRITTEN, node, s);
    StoredRoutes(node, x, d, s);
    WorseRouteWins(intro, d, s);
  }

  lemma StoredRoutes(node: Node, x: Addr, d: Addr, s: Addr)
    requires Stores(node, x, d, s) && s != d
    ensures var intro := Introduced(node.(nbrs := node.nbrs + [s]), s);
            && RowsOwned(intro.dvt)
            && Holds(intro.nbrs, intro.dvt, s, d) && intro.dvt[s][d] == Entry(d, s, 2, ACTIVE)
            && Lookup(RowOf(intro.dvt, d), d) == Some(Entry(d, d, 1, ACTIVE))
            && (forall n :: Holds(intro.nbrs, intro.dvt, n, d) ==> n == d || n == s)
            && Known(intro.dvt, intro.ft, d) == Some(Entry(d, d, 1, ACTIVE))
  {
    assert Holds(node.nbrs, node.dvt, d, d);
    assert node.ft[d].nextHop == d;
  }

  // ---------- three nodes take them in turn ----------

  /** Node `x` acts, perhaps on a message from `s`: nothing else changes, and what `x` sends goes to the back. */
  ghost predicate OnlyActs(net: Net, net': Net, x: Addr, s: Addr) {
    && net'.links == net.links && net'.wrapped == net.wrapped
    && net'.nodes.Keys == net.nodes.Keys
    && (forall y :: y in net.nodes && y != x ==> net'.nodes[y] == net.nodes[y])
    && (forall a, b :: a != x && !(a == s && b == x) ==> net'.chan(a, b) == net.chan(a, b))
    && (forall b :: b != x ==> net.chan(x, b) <= net'.chan(x, b))
  }

  /** `d` and three nodes around it, all four in range of each other. */
  ghost predicate Ring(net: Net, d: Addr, u: Addr, v: Addr, w: Addr) {
    && net.nodes.Keys == {d, u, v, w} && !net.wrapped
    && d != u && d != v && d != w && u != v && u != w && v != w
    && d != UNSPECIFIED && d != LOOPBACK
    && (u, d) in net.links && (v, d) in net.links && (w, d) in net.links
    && (u, v) in net.links && (v, w) in net.links && (w, u) in net.links
    && (v, u) in net.links && (w, v) in net.links && (u, w) in net.links
  }

  ghost predicate IsSilent(net: Net, x: Addr) {
    x in net.nodes && net.nodes[x] == Node(x, [], map[], map[]) && forall y :: net.chan(x, y) == []
  }

  ghost predicate IsKnowing(net: Net, x: Addr, d: Addr) {
    x in net.nodes && Knows(net.nodes[x], x, d) && forall y :: y != d ==> net.chan(x, y) == []
  }

  ghost predicate IsTold(net: Net, x: Addr, d: Addr, p: Addr) {
    x in net.nodes && Told(net.nodes[x], x, d, p)
  }

  ghost predicate IsStoring(net: Net, x: Addr, d: Addr, s: Addr) {
    x in net.nodes && Stores(net.nodes[x], x, d, s)
  }

  ghost predicate IsFollowing(net: Net, x: Addr, d: Addr, s: Addr) {
    x in net.nodes && Follows(net.nodes[x], d, s)
  }

  ghost predicate IsOffering(net: Net, x: Addr, d: Addr, p: Addr) {
    net.chan(x, p) != [] && net.chan(x, p)[0] == Update(x, d, 1, ACTIVE)
  }

  function AfterHello(net: Net, v: Addr, x: Addr): Net {
    Step(AS_WRITTEN, net, Hello(v, x, []))
  }

  lemma HelloActs(net: Net, v: Addr, x: Addr)
    requires x in net.nodes && (x, v) in net.links
    ensures AfterHello(net, v, x) == Act(net, x, OnHello(AS_WRITTEN, net.nodes[x], v, []))
    ensures OnlyActs(net, AfterHello(net, v, x), x, x)
  {
  }

  lemma ToNobodyElse(sends: seq<Send>, v: Addr, y: Addr)
    requires forall s :: s in sends ==> s.to == v
    requires y != v
    ensures To(sends, y) == []
  {
  }

  lemma BecomesKnowing(net: Net, x: Addr, d: Addr)
    requires IsSilent(net, x) && (x, d) in net.links
    ensures IsKnowing(AfterHello(net, d, x), x, d)
  {
    HelloActs(net, d, x);
    HearsDestination(x, d);
    var o := OnHello(AS_WRITTEN, net.nodes[x], d, []);
    forall y | y != d ensures AfterHello(net, d, x).chan(x, y) == [] {
      ToNobodyElse(o.sends, d, y);
    }
  }

  lemma BecomesOffering(net: Net, x: Addr, d: Addr, p: Addr)
    requires IsKnowing(net, x, d) && (x, p) in net.links
    requires x != d && p != d && d != UNSPECIFIED && d != LOOPBACK
    ensures IsTold(AfterHello(net, p, x), x, d, p) && IsOffering(AfterHello(net, p, x), x, d, p)
  {
    HelloActs(net, p, x);
    HearsPredecessor(net.nodes[x], x, d, p);
  }

  lemma BecomesFollowing(net: Net, x: Addr, d: Addr, s: Addr)
    requires IsStoring(net, x, d, s) && (x, s) in net.links && s != d
    ensures IsFollowing(AfterHello(net, s, x), x, d, s)
  {
    HelloActs(net, s, x);
    HearsSuccessor(net.nodes[x], x, d, s);
  }

  function AfterDelivery(net: Net, s: Addr, x: Addr): Net {
    Step(AS_WRITTEN, net, Deliver(s, x))
  }

  lemma DeliveryActs(net: Net, s: Addr, x: Addr)
    requires x in net.nodes && net.chan(s, x) != []
    requires net.chan(s, x)[0].hop == 1
    ensures AfterDelivery(net, s, x) ==
            Act(Received(net, s, x), x, OnUpdate(AS_WRITTEN, net.nodes[x], s, net.chan(s, x)[0]))
    ensures OnlyActs(net, AfterDelivery(net, s, x), x, s)
  {
    ReceiverActs(net, Received(net, s, x), x, s, OnUpdate(AS_WRITTEN, net.nodes[x], s, net.chan(s, x)[0]));
  }

  lemma ReceiverActs(net: Net, mid: Net, x: Addr, s: Addr, o: Outcome)
    requires x in net.nodes
    requires mid == net.(chan := Removed(net.chan, s, x, 0))
    ensures OnlyActs(net, Act(mid, x, o), x, s)
  {
  }

  lemma BecomesStoring(net: Net, x: Addr, d: Addr, p: Addr, s: Addr)
    requires IsTold(net, x, d, p) && IsOffering(net, s, d, x)
    requires s != d && s != p
    ensures IsStoring(AfterDelivery(net, s, x), x, d, s)
    ensures OnlyActs(net, AfterDelivery(net, s, x), x, s)
  {
    DeliveryActs(net, s, x);
    HearsRoute(net.nodes[x], x, d, p, s);
  }

  // ---------- the run ----------

  lemma FourInRange(addrs: set<Addr>, d: Addr, u: Addr, v: Addr, w: Addr) returns (net: Net)
    requires addrs == {d, u, v, w}
    requires d != u && d != v && d != w && u != v && u != w && v != w
    requires d != UNSPECIFIED && d != LOOPBACK
    ensures Reached(addrs, net) && Ring(net, d, u, v, w)
    ensures IsSilent(net, u) && IsSilent(net, v) && IsSilent(net, w)
  {
    net := Initial(addrs);
    assert Reached(addrs, net) by {
      assert Run(AS_WRITTEN, Initial(addrs), []) == net && FailureFree([]);
    }
    var links := [(u, d), (v, d), (w, d), (u, v), (v, w), (w, u)];
    for i := 0 to 6
      invariant Reached(addrs, net)
      invariant net.nodes == Initial(addrs).nodes && !net.wrapped && forall x, y :: net.chan(x, y) == []
      invariant forall j :: 0 <= j < i ==> links[j] in net.links && (links[j].1, links[j].0) in net.links
    {
      ReachedStep(addrs, net, LinkUp(links[i].0, links[i].1));
      net := Step(AS_WRITTEN, net, LinkUp(links[i].0, links[i].1));
    }
    assert links[0] in net.links && links[1] in net.links && links[2] in net.links;
    assert links[3] in net.links && links[4] in net.links && links[5] in net.links;
  }

  lemma AllKnow(addrs: set<Addr>, net: Net, d: Addr, u: Addr, v: Addr, w: Addr) returns (net': Net)
    requires Reached(addrs, net) && Ring(net, d, u, v, w)
    requires IsSilent(net, u) && IsSilent(net, v) && IsSilent(net, w)
    ensures Reached(addrs, net') && Ring(net', d, u, v, w)
    ensures IsKnowing(net', u, d) && IsKnowing(net', v, d) && IsKnowing(net', w, d)
  {
    net' := HelloRound(addrs, net, d, u);
    BecomesKnowing(net, u, d);
    var net2 := HelloRound(addrs, net', d, v);
    BecomesKnowing(net', v, d);
    net' := HelloRound(addrs, net2, d, w);
    BecomesKnowing(net2, w, d);
  }

  /** One Hello as part of a failure-free run. */
  lemma HelloRound(addrs: set<Addr>, net: Net, from: Addr, x: Addr) returns (net': Net)
    requires Reached(addrs, net) && x in net.nodes && (x, from) in net.links
    ensures net' == AfterHello(net, from, x)
    ensures Reached(addrs, net') && OnlyActs(net, net', x, x)
  {
    ReachedStep(addrs, net, Hello(from, x, []));
    HelloActs(net, from, x);
    net' := AfterHello(net, from, x);
  }

  lemma AllOffer(addrs: set<Addr>, net: Net, d: Addr, u: Addr, v: Addr, w: Addr) returns (net': Net)
    requires Reached(addrs, net) && Ring(net, d, u, v, w)
    requires IsKnowing(net, u, d) && IsKnowing(net, v, d) && IsKnowing(net, w, d)
    ensures Reached(addrs, net') && Ring(net', d, u, v, w)
    ensures IsTold(net', u, d, w) && IsTold(net', v, d, u) && IsTold(net', w, d, v)
    ensures IsOffering(net', u, d, w) && IsOffering(net', v, d, u) && IsOffering(net', w, d, v)
  {
    net' := HelloRound(addrs, net, w, u);
    BecomesOffering(net, u, d, w);
    var net2 := HelloRound(addrs, net', u, v);
    BecomesOffering(net', v, d, u);
    net' := HelloRound(addrs, net2, v, w);
    BecomesOffering(net2, w, d, v);
  }

  lemma AllStore(addrs: set<Addr>, net: Net, d: Addr, u: Addr, v: Addr, w: Addr) returns (net': Net)
    requires Reached(addrs, net) && Ring(net, d, u, v, w)
    requires IsTold(net, u, d, w) && IsTold(net, v, d, u) && IsTold(net, w, d, v)
    requires IsOffering(net, u, d, w) && IsOffering(net, v, d, u) && IsOffering(net, w, d, v)
    ensures Reached(addrs, net') && Ring(net', d, u, v, w)
    ensures IsStoring(net', u, d, v) && IsStoring(net', v, d, w) && IsStoring(net', w, d, u)
  {
    var net1 := AfterDelivery(net, v, u);
    ReachedStep(addrs, net, Deliver(v, u));
    BecomesStoring(net, u, d, w, v);
    var net2 := AfterDelivery(net1, w, v);
    ReachedStep(addrs, net1, Deliver(w, v));
    BecomesStoring(net1, v, d, u, w);
    net' := AfterDelivery(net2, u, w);
    ReachedStep(addrs, net2, Deliver(u, w));
    assert IsOffering(net1, u, d, w);
    BecomesStoring(net2, w, d, v, u);
  }

  lemma AllFollow(addrs: set<Addr>, net: Net, d: Addr, u: Addr, v: Addr, w: Addr) returns (net': Net)
    requires Reached(addrs, net) && Ring(net, d, u, v, w)
    requires IsStoring(net, u, d, v) && IsStoring(net, v, d, w) && IsStoring(net, w, d, u)
    ensures Reached(addrs, net') && Ring(net', d, u, v, w)
    ensures IsFollowing(net', u, d, v) && IsFollowing(net', v, d, w) && IsFollowing(net', w, d, u)
  {
    net' := HelloRound(addrs, net, v, u);
    BecomesFollowing(net, u, d, v);
    var net2 := HelloRound(addrs, net', w, v);
    BecomesFollowing(net', v, d, w);
    net' := HelloRound(addrs, net2, u, w);
    BecomesFollowing(net2, w, d, u);
  }

  /** Packets for `d` go round and round. */
  lemma {:induction false} NeverArrives(net: Net, d: Addr, u: Addr, v: Addr, w: Addr, fuel: nat)
    requires d != u && d != v && d != w
    requires IsFollowing(net, u, d, v) && IsFollowing(net, v, d, w) && IsFollowing(net, w, d, u)
    ensures !Arrives(net, u, d, fuel)
    decreases fuel
  {
    if fuel > 0 {
      NeverArrives(net, d, v, w, u, fuel - 1);
    }
  }

  /**
   * As written, any four nodes in range of each other have a failure-free run, without loss and without a wrapped hop
   * count, after which no packet that one of them sends to another can ever arrive.
   */
  lemma AsWrittenCanLoop(d: Addr, u: Addr, v: Addr, w: Addr)
    requires d != u && d != v && d != w && u != v && u != w && v != w
    requires d != UNSPECIFIED && d != LOOPBACK
    ensures exists events ::
              && FailureFree(events)
              && var net := Run(AS_WRITTEN, Initial({d, u, v, w}), events);
                 && !net.wrapped && u in net.nodes && d in net.nodes[u].ft
                 && forall fuel: nat :: !Arrives(net, u, d, fuel)
  {
    var addrs := {d, u, v, w};
    var net := FourInRange(addrs, d, u, v, w);
    net := AllKnow(addrs, net, d, u, v, w);
    net := AllOffer(addrs, net, d, u, v, w);
    net := AllStore(addrs, net, d, u, v, w);
    net := AllFollow(addrs, net, d, u, v, w);
    var events :| FailureFree(events) && Run(AS_WRITTEN, Initial(addrs), events) == net;
    forall fuel: nat ensures !Arrives(net, u, d, fuel) {
      NeverArrives(net, d, u, v, w, fuel);
    }
  }
}
