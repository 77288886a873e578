/**
 * The bound of 255 nodes is tight.  In a row of 256 nodes the hop count to the first one reaches 255 at the last, whose
 * next message wraps to zero, and the last two nodes forward to each other for ever -- under the documented reading.
 */
module HopWrap {
  import opened Collections
  import opened Routes
  import opened Tables
  import opened Selection
  import opened NodeSteps
  import opened UpdateEffects
  import opened Greetings
  import opened LoopFreedom
  import opened Network
  import opened Unreported

  const LAST: nat := 255

  lemma {:induction false} CountBelow(addrs: set<Addr>, n: nat)
    requires forall a: Addr :: a in addrs <==> a < n
    ensures |addrs| == n
  {
    if n > 0 {
      CountBelow(addrs - {n - 1}, n - 1);
    }
  }

  predicate Documented(rd: Reading) {
    rd.installsBetter && rd.writesExisting
  }

  // ---------- one node of the row ----------

  /** Node `k` has the route to the first node, through its predecessor `p`. */
  ghost predicate HasRoute(rd: Reading, node: Node, p: Addr, k: Addr) {
    && k == p + 1 && node.main == k && Consistent(node) && JustComputed(rd, node)
    && 0 in node.ft && node.ft[0] == Entry(0, p, k, ACTIVE) && Holds(node.nbrs, node.dvt, p, 0)
  }

  /** ... and has not heard of its successor `s`. */
  ghost predicate Ready(rd: Reading, node: Node, p: Addr, k: Addr, s: Addr) {
    HasRoute(rd, node, p, k) && s == k + 1 && s !in node.nbrs && s !in node.dvt
  }

  /** The head of what a newcomer is told is the route to the first node, whose address is the lowest. */
  lemma TableHead(node: Node, ne: Addr)
    requires 0 in node.ft && node.ft[0].dst == 0 && node.main != 0 && ne != 0
    ensures var table := FullTable(node, SortedKeys(node.ft.Keys), ne);
            table != [] && table[0] == Send(ne, Header(node.main, node.ft[0]))
  {
    var keys := SortedKeys(node.ft.Keys);
    assert 0 in keys;
    assert keys[0] == 0;
    HeadOfTable(node, keys, ne);
  }

  lemma {:induction false} HeadOfTable(node: Node, keys: seq<Addr>, ne: Addr)
    requires keys != [] && keys[0] == 0
    requires 0 in node.ft && node.ft[0].dst == 0 && node.main != 0 && ne != 0
    ensures var table := FullTable(node, keys, ne); table != [] && table[0] == Send(ne, Header(node.main, node.ft[0]))
  {
    if |keys| == 1 {
      assert keys[..0] == [];
    } else {
      HeadOfTable(node, keys[..|keys| - 1], ne);
    }
  }

  lemma {:induction false} HeadReceived(sends: seq<Send>, y: Addr, m: Update)
    requires sends != [] && sends[0] == Send(y, m)
    ensures To(sends, y) != [] && To(sends, y)[0] == m
  {
    if |sends| == 1 {
      assert sends[..0] == [];
    } else {
      HeadReceived(sends[..|sends| - 1], y, m);
    }
  }

  /** What a node sends that hears a newcomer: the route to the first node leads. */
  lemma HelloHead(rd: Reading, node: Node, v: Addr, e: Entry)
    requires Consistent(node) && v !in node.nbrs && v !in RowOf(node.dvt, v) && node.main != 0 && v != 0
    requires Lookup(ComputedFt(rd, Greeting(node, v)), 0) == Some(e) && e.dst == 0
    ensures var sends, m := OnHello(rd, node, v, []).sends, Header(node.main, e);
            && To(sends, v) != [] && To(sends, v)[0] == m
            && forall s :: s in sends ==> s.to == v
  {
    NewcomerHello(rd, node, v);
    var node' := Computed(rd, Greeting(node, v));
    HelloKeepsConsistent(rd, node, v, []);
    TableHead(node', v);
    FullTableFromTable(node', SortedKeys(node'.ft.Keys), v);
    HeadReceived(FullTable(node', SortedKeys(node'.ft.Keys), v), v, Header(node.main, e));
  }

  lemma HelloTable(rd: Reading, node: Node, v: Addr)
    requires Consistent(node) && v !in node.nbrs && v !in RowOf(node.dvt, v)
    ensures var node' := OnHello(rd, node, v, []).node;
            Consistent(node') && JustComputed(rd, node') && node' == Computed(rd, Greeting(node, v))
  {
    NewcomerHello(rd, node, v);
    HelloKeepsConsistent(rd, node, v, []);
    ComputedIsFixpoint(rd, Greeting(node, v));
  }

  /** A node in the row hears its successor, and passes the route on. */
  lemma SuccessorHeard(rd: Reading, node: Node, p: Addr, k: Addr, s: Addr, o: Outcome)
    requires Ready(rd, node, p, k, s) && o == OnHello(rd, node, s, [])
    ensures HasRoute(rd, o.node, p, k) && s in o.node.nbrs
    ensures To(o.sends, s) != [] && To(o.sends, s)[0] == Update(k, 0, k, ACTIVE)
  {
    NewcomerCell(rd, node, s, 0);
    HelloHead(rd, node, s, node.ft[0]);
    HelloTable(rd, node, s);
    assert Holds(Greeting(node, s).nbrs, Greeting(node, s).dvt, p, 0);
  }

  /** What the node `s` after `k` stores before it has heard anybody. */
  function Overhears(k: Addr, s: Addr): Node {
    Node(s, [], map[k := map[0 := Entry(0, k, s, ACTIVE)]], map[])
  }

  lemma RouteStored(rd: Reading, k: Addr, s: Addr)
    requires 0 < k < LAST && s == k + 1
    ensures OnUpdate(rd, Fresh(s), k, Update(k, 0, k, ACTIVE)) == Outcome(Overhears(k, s), [])
  {
    LonelyIsComputed(rd, Fresh(s));
    assert RouteFrom(k, Update(k, 0, k, ACTIVE)) == Entry(0, k, s, ACTIVE);
    UnlistedUpdate(rd, Fresh(s), k, Update(k, 0, k, ACTIVE), Overhears(k, s));
  }

  /** The next node hears its predecessor, and answers with its table. */
  lemma PredecessorHeard(rd: Reading, k: Addr, s: Addr, t: Addr, o: Outcome)
    requires k > 0 && s == k + 1 && t == s + 1 && o == OnHello(rd, Overhears(k, s), k, [])
    ensures Ready(rd, o.node, k, s, t)
    ensures To(o.sends, k) != [] && To(o.sends, k)[0] == Update(s, 0, s, ACTIVE)
    ensures forall x :: x in o.sends ==> x.to == k
  {
    OverhearsFacts(rd, k, s);
    NewcomerCell(rd, Overhears(k, s), k, 0);
    HelloHead(rd, Overhears(k, s), k, Entry(0, k, s, ACTIVE));
    HelloTable(rd, Overhears(k, s), k);
    var greeting := Greeting(Overhears(k, s), k);
    assert Holds(greeting.nbrs, greeting.dvt, k, 0);
    assert t !in greeting.nbrs && t !in greeting.dvt;
  }

  lemma OverhearsFacts(rd: Reading, k: Addr, s: Addr)
    requires k > 0
    ensures var node := Overhears(k, s);
            && Consistent(node) && JustComputed(rd, node) && k !in node.nbrs && k !in RowOf(node.dvt, k)
            && Lookup(NewcomerRow(node, k), 0) == Some(Entry(0, k, s, ACTIVE)) && 0 !in node.ft
  {
    LonelyIsComputed(rd, Overhears(k, s));
  }

  /** The route that comes back with hop count zero replaces the real one. */
  lemma WrappedRouteWins(rd: Reading, node: Node, p: Addr, k: Addr, s: Addr, upd: Update)
    requires Documented(rd) && HasRoute(rd, node, p, k) && s in node.nbrs && s != p
    requires k > 0 && upd == Update(s, 0, LAST, ACTIVE)
    ensures var ft := OnUpdate(rd, node, s, upd).node.ft; 0 in ft && ft[0].nextHop == s
  {
    var rt := RouteFrom(s, upd);
    assert rt == Entry(0, s, 0, ACTIVE);
    var stored := Stored(rd, node, s, rt);
    ActiveErasesNothing(rd, node, s, rt);
    assert Holds(stored.nbrs, stored.dvt, s, 0) && stored.dvt[s][0] == rt;
    HeldRouteIsSettled(rd, node, 0);
    StoredIsConsistent(rd, node, s, rt);
    ComputedProperties(rd, stored, 0);
    OnlyThatRoute(rd, node, stored, rt, ComputedFt(rd, stored)[0]);
  }

  lemma OnlyThatRoute(rd: Reading, node: Node, stored: Node, rt: Entry, e: Entry)
    requires rd.installsBetter && rt.hop == 0 && rt.state == ACTIVE
    requires 0 in node.ft && node.ft[0].state == ACTIVE && node.ft[0].hop > 0
    requires forall n :: Holds(node.nbrs, node.dvt, n, 0) ==> !Beats(rd, node.dvt[n][0], node.ft[0])
    requires stored.nbrs == node.nbrs && stored.dvt == node.dvt[rt.nextHop := RowOf(node.dvt, rt.nextHop)[0 := rt]]
    requires !Beats(rd, rt, e)
    requires e == node.ft[0] || exists n :: Holds(stored.nbrs, stored.dvt, n, 0) && stored.dvt[n][0] == e
    ensures e == rt
  {
    if e != node.ft[0] {
      var n :| Holds(stored.nbrs, stored.dvt, n, 0) && stored.dvt[n][0] == e;
      if n != rt.nextHop {
        assert Holds(node.nbrs, node.dvt, n, 0);
      }
    }
  }

  // ---------- the row ----------

  ghost predicate ReachedBy(rd: Reading, addrs: set<Addr>, events: seq<Event>, net: Net) {
    FailureFree(events) && Run(rd, Initial(addrs), events) == net
  }

  lemma ReachedNext(rd: Reading, addrs: set<Addr>, events: seq<Event>, net: Net, e: Event)
    requires ReachedBy(rd, addrs, events, net) && FailureFreeEvent(e)
    ensures ReachedBy(rd, addrs, events + [e], Step(rd, net, e))
  {
    assert (events + [e])[..|events|] == events;
  }

  ghost predicate Silent(net: Net, x: Addr) {
    forall y :: net.chan(x, y) == []
  }

  /** Nobody after `k` has sent or learned anything. */
  ghost predicate Untouched(net: Net, addrs: set<Addr>, k: Addr) {
    net.nodes.Keys == addrs && forall j :: j in addrs && j > k ==> net.nodes[j] == Fresh(j) && Silent(net, j)
  }

  /** The predecessor `p` of `k` has heard it, and its message about the first node leads the channel. */
  ghost predicate ToldBack(rd: Reading, net: Net, p: Addr, k: Addr) {
    && p > 0 && p in net.nodes && HasRoute(rd, net.nodes[p], p - 1, p) && k in net.nodes[p].nbrs
    && net.chan(k, p) != [] && net.chan(k, p)[0] == Update(k, 0, k, ACTIVE)
  }

  /** The route has come as far as `k`, which has told nobody but its predecessor `p`. */
  ghost predicate ReadyAt(rd: Reading, net: Net, addrs: set<Addr>, p: Addr, k: Addr) {
    && Untouched(net, addrs, k) && k in addrs && Ready(rd, net.nodes[k], p, k, k + 1)
    && (forall y :: y != p ==> net.chan(k, y) == [])
    && (p > 0 ==> ToldBack(rd, net, p, k))
  }

  lemma ToNobody(sends: seq<Send>, v: Addr, y: Addr)
    requires (forall x :: x in sends ==> x.to == v) && y != v
    ensures To(sends, y) == []
  {
    if To(sends, y) != [] {
      NonEmptyHasMember(To(sends, y));
    }
  }

  /** Node `u` acted, and nothing else happened. */
  ghost predicate Acted(net: Net, net': Net, u: Addr, o: Outcome) {
    && net'.nodes == net.nodes[u := o.node] && net'.links == net.links
    && (forall x, y :: x != u ==> net'.chan(x, y) == net.chan(x, y))
    && (forall y :: net'.chan(u, y) == net.chan(u, y) + To(o.sends, y))
  }

  lemma HelloActs(rd: Reading, net: Net, v: Addr, u: Addr)
    requires u in net.nodes && (u, v) in net.links
    ensures Acted(net, Step(rd, net, Hello(v, u, [])), u, OnHello(rd, net.nodes[u], v, []))
  {
  }

  /** `k` and its successor `s` come into range, and `k` hears it. */
  lemma SuccessorStep(rd: Reading, net: Net, addrs: set<Addr>, p: Addr, k: Addr, s: Addr, linked: Net, net': Net)
    requires ReadyAt(rd, net, addrs, p, k) && s == k + 1 && s in addrs
    requires linked == Step(rd, net, LinkUp(k, s)) && net' == Step(rd, linked, Hello(s, k, []))
    ensures Untouched(net', addrs, k) && (s, k) in net'.links && k in net'.nodes
    ensures HasRoute(rd, net'.nodes[k], p, k) && s in net'.nodes[k].nbrs
    ensures net'.chan(k, s) != [] && net'.chan(k, s)[0] == Update(k, 0, k, ACTIVE)
  {
    assert linked == net.(links := net.links + {(k, s), (s, k)});
    var o := OnHello(rd, net.nodes[k], s, []);
    SuccessorHeard(rd, net.nodes[k], p, k, s, o);
    HelloActs(rd, linked, s, k);
    assert net'.chan(k, s) == net.chan(k, s) + To(o.sends, s);
    StaysUntouched(linked, net', addrs, k, k, o);
  }

  lemma StaysUntouched(net: Net, net': Net, addrs: set<Addr>, k: Addr, u: Addr, o: Outcome)
    requires Untouched(net, addrs, k) && Acted(net, net', u, o) && u in addrs && u <= k
    ensures Untouched(net', addrs, k)
  {
    forall j | j in addrs && j > k ensures net'.nodes[j] == Fresh(j) && Silent(net', j) {
      assert Silent(net, j);
    }
  }

  /** The successor receives the route. */
  lemma ReceiverStep(rd: Reading, net: Net, addrs: set<Addr>, k: Addr, s: Addr, net': Net)
    requires 0 < k < LAST && s == k + 1 && k in addrs && s in addrs && Untouched(net, addrs, k)
    requires net.chan(k, s) != [] && net.chan(k, s)[0] == Update(k, 0, k, ACTIVE)
    requires net' == Step(rd, net, Deliver(k, s))
    ensures Untouched(net', addrs, s) && net'.links == net.links
    ensures net'.nodes[k] == net.nodes[k] && net'.nodes[s] == Overhears(k, s) && Silent(net', s)
  {
    RouteStored(rd, k, s);
    var o := Outcome(Overhears(k, s), []);
    assert net' == Act(Received(net, k, s), s, o);
    assert Silent(net, s);
    forall j | j in addrs && j > s ensures net'.nodes[j] == Fresh(j) && Silent(net', j) {
      assert Silent(net, j);
    }
    forall y ensures net'.chan(s, y) == [] {
      assert net.chan(s, y) == [] && To(o.sends, y) == [];
      assert net'.chan(s, y) == Received(net, k, s).chan(s, y) + To(o.sends, y);
    }
  }

  /** The successor hears its predecessor, and tells it of the route. */
  lemma PredecessorStep(rd: Reading, net: Net, addrs: set<Addr>, p: Addr, k: Addr, s: Addr, net': Net)
    requires k > 0 && s == k + 1 && k in addrs && s in addrs && Untouched(net, addrs, s) && (s, k) in net.links
    requires HasRoute(rd, net.nodes[k], p, k) && s in net.nodes[k].nbrs
    requires net.nodes[s] == Overhears(k, s) && Silent(net, s) && net' == Step(rd, net, Hello(k, s, []))
    ensures ReadyAt(rd, net', addrs, k, s)
  {
    var o := OnHello(rd, Overhears(k, s), k, []);
    PredecessorHeard(rd, k, s, s + 1, o);
    HelloActs(rd, net, k, s);
    PredecessorActs(rd, net, addrs, p, k, s, net', o);
  }

  lemma PredecessorActs(rd: Reading, net: Net, addrs: set<Addr>, p: Addr, k: Addr, s: Addr, net': Net, o: Outcome)
    requires k > 0 && s == k + 1 && k in addrs && s in addrs && Untouched(net, addrs, s) && Silent(net, s)
    requires HasRoute(rd, net.nodes[k], p, k) && s in net.nodes[k].nbrs
    requires Acted(net, net', s, o) && Ready(rd, o.node, k, s, s + 1) && forall x :: x in o.sends ==> x.to == k
    requires To(o.sends, k) != [] && To(o.sends, k)[0] == Update(s, 0, s, ACTIVE)
    ensures ReadyAt(rd, net', addrs, k, s)
  {
    StaysUntouched(net, net', addrs, s, s, o);
    SpeaksToOne(net, net', s, o, k, Update(s, 0, s, ACTIVE));
    assert net'.nodes[s] == o.node && net'.nodes[k] == net.nodes[k] && p == k - 1;
  }

  lemma SpeaksToOne(net: Net, net': Net, u: Addr, o: Outcome, v: Addr, m: Update)
    requires Acted(net, net', u, o) && Silent(net, u) && forall x :: x in o.sends ==> x.to == v
    requires To(o.sends, v) != [] && To(o.sends, v)[0] == m
    ensures net'.chan(u, v) != [] && net'.chan(u, v)[0] == m
    ensures forall y :: y != v ==> net'.chan(u, y) == []
  {
    assert net'.chan(u, v) == [] + To(o.sends, v);
    forall y | y != v ensures net'.chan(u, y) == [] {
      ToNobody(o.sends, v, y);
      assert net.chan(u, y) == [];
    }
  }

  lemma OneFurther(rd: Reading, addrs: set<Addr>, events: seq<Event>, net: Net, p: Addr, k: Addr, s: Addr)
    returns (events': seq<Event>, net': Net)
    requires ReachedBy(rd, addrs, events, net) && ReadyAt(rd, net, addrs, p, k)
    requires s == k + 1 && 0 < k < LAST && s in addrs
    ensures ReachedBy(rd, addrs, events', net') && ReadyAt(rd, net', addrs, k, s)
  {
    var linked := Step(rd, net, LinkUp(k, s));
    var heard := Step(rd, linked, Hello(s, k, []));
    var received := Step(rd, heard, Deliver(k, s));
    net' := Step(rd, received, Hello(k, s, []));
    SuccessorStep(rd, net, addrs, p, k, s, linked, heard);
    ReceiverStep(rd, heard, addrs, k, s, received);
    PredecessorStep(rd, received, addrs, p, k, s, net');
    ReachedNext(rd, addrs, events, net, LinkUp(k, s));
    ReachedNext(rd, addrs, events + [LinkUp(k, s)], linked, Hello(s, k, []));
    events' := events + [LinkUp(k, s)] + [Hello(s, k, [])];
    ReachedNext(rd, addrs, events', heard, Deliver(k, s));
    ReachedNext(rd, addrs, events' + [Deliver(k, s)], received, Hello(k, s, []));
    events' := events' + [Deliver(k, s)] + [Hello(k, s, [])];
  }

  lemma FirstLink(rd: Reading, addrs: set<Addr>) returns (events: seq<Event>, net: Net)
    requires 0 in addrs && 1 in addrs
    ensures ReachedBy(rd, addrs, events, net) && ReadyAt(rd, net, addrs, 0, 1)
  {
    var net0 := Initial(addrs);
    assert ReachedBy(rd, addrs, [], net0);
    ReachedNext(rd, addrs, [], net0, LinkUp(1, 0));
    var net1 := Step(rd, net0, LinkUp(1, 0));
    ReachedNext(rd, addrs, [] + [LinkUp(1, 0)], net1, Hello(0, 1, []));
    net := Step(rd, net1, Hello(0, 1, []));
    events := [] + [LinkUp(1, 0)] + [Hello(0, 1, [])];
    FirstTwo(rd, addrs, net0, net1, net);
  }

  lemma FirstTwo(rd: Reading, addrs: set<Addr>, net0: Net, net1: Net, net: Net)
    requires 0 in addrs && 1 in addrs && net0 == Initial(addrs)
    requires net1 == Step(rd, net0, LinkUp(1, 0)) && net == Step(rd, net1, Hello(0, 1, []))
    ensures ReadyAt(rd, net, addrs, 0, 1)
  {
    assert net1 == net0.(links := net0.links + {(1, 0), (0, 1)});
    FirstNeighbor(rd, 1, 0);
    FirstIsReady(rd);
    HelloActs(rd, net1, 0, 1);
    FirstActs(rd, addrs, net1, net, Outcome(Pair(1, [0], 0), []));
  }

  lemma FirstActs(rd: Reading, addrs: set<Addr>, net: Net, net': Net, o: Outcome)
    requires 0 in addrs && 1 in addrs && Untouched(net, addrs, 0)
    requires Acted(net, net', 1, o) && o.sends == [] && Ready(rd, o.node, 0, 1, 2)
    ensures ReadyAt(rd, net', addrs, 0, 1)
  {
    StaysUntouched(net, net', addrs, 1, 1, o);
    assert Silent(net, 1);
    forall y ensures net'.chan(1, y) == [] {
      assert net.chan(1, y) == [] && To(o.sends, y) == [];
    }
  }

  lemma FirstIsReady(rd: Reading)
    ensures Ready(rd, Pair(1, [0], 0), 0, 1, 2)
  {
    PairIsComputed(rd, 1, [0], 0);
  }

  lemma AllTheWay(rd: Reading, addrs: set<Addr>, k: nat) returns (events: seq<Event>, net: Net)
    requires 0 < k <= LAST && forall j :: 0 <= j <= k ==> j in addrs
    ensures ReachedBy(rd, addrs, events, net) && ReadyAt(rd, net, addrs, k - 1, k)
  {
    events, net := FirstLink(rd, addrs);
    var j := 1;
    while j < k
      invariant 0 < j <= k && ReachedBy(rd, addrs, events, net) && ReadyAt(rd, net, addrs, j - 1, j)
    {
      events, net := OneFurther(rd, addrs, events, net, j - 1, j, j + 1);
      j := j + 1;
    }
  }

  lemma {:induction false} BackAndForth(net: Net, d: Addr, a: Addr, b: Addr, fuel: nat)
    requires a != d && b != d && a in net.nodes && b in net.nodes
    requires d in net.nodes[a].ft && net.nodes[a].ft[d].nextHop == b
    requires d in net.nodes[b].ft && net.nodes[b].ft[d].nextHop == a
    ensures !Arrives(net, a, d, fuel)
    decreases fuel
  {
    if fuel > 0 {
      BackAndForth(net, d, b, a, fuel - 1);
    }
  }

  /** The message of the last node comes back to its predecessor. */
  lemma LastStep(rd: Reading, addrs: set<Addr>, net: Net, p: Addr, net': Net)
    requires Documented(rd) && p > 0 && ReadyAt(rd, net, addrs, p, LAST) && net' == Step(rd, net, Deliver(LAST, p))
    ensures net'.wrapped && p in net'.nodes && LAST in net'.nodes
    ensures 0 in net'.nodes[p].ft && net'.nodes[p].ft[0].nextHop == LAST
    ensures 0 in net'.nodes[LAST].ft && net'.nodes[LAST].ft[0].nextHop == p
  {
    var m := Update(LAST, 0, LAST, ACTIVE);
    var o := OnUpdate(rd, net.nodes[p], LAST, m);
    WrappedRouteWins(rd, net.nodes[p], p - 1, p, LAST, m);
    DeliverActs(rd, net, LAST, p, o);
    assert net'.nodes[p] == o.node && net'.nodes[LAST] == net.nodes[LAST];
  }

  lemma DeliverActs(rd: Reading, net: Net, v: Addr, u: Addr, o: Outcome)
    requires u in net.nodes && net.chan(v, u) != [] && o == OnUpdate(rd, net.nodes[u], v, net.chan(v, u)[0])
    ensures var net' := Step(rd, net, Deliver(v, u));
            net'.nodes == net.nodes[u := o.node] && (Narrow(net.chan(v, u)[0].hop) != net.chan(v, u)[0].hop + 1 ==> net'.wrapped)
  {
  }

  /**
   * Under the documented reading the network of the 256 lowest addresses has a failure-free run, without loss, in which a
   * hop count wraps and after which the packets of node 254 for node 0 never arrive.
   */
  lemma TwoHundredFiftySixNodesCanLoop(rd: Reading, addrs: set<Addr>) returns (events: seq<Event>)
    requires Documented(rd) && forall a: Addr :: a in addrs <==> a < 256
    ensures |addrs| == 256 && FailureFree(events)
    ensures var net := Run(rd, Initial(addrs), events);
            && net.wrapped && 254 in net.nodes && 0 in net.nodes[254].ft
            && forall fuel: nat :: !Arrives(net, 254, 0, fuel)
  {
    CountBelow(addrs, 256);
    var before, net := AllTheWay(rd, addrs, LAST);
    var net' := Step(rd, net, Deliver(LAST, 254));
    ReachedNext(rd, addrs, before, net, Deliver(LAST, 254));
    events := before + [Deliver(LAST, 254)];
    LastStep(rd, addrs, net, 254, net');
    NeverDelivered(net', 0, 254, LAST);
  }

  lemma NeverDelivered(net: Net, d: Addr, a: Addr, b: Addr)
    requires a != d && b != d && a in net.nodes && b in net.nodes
    requires d in net.nodes[a].ft && net.nodes[a].ft[d].nextHop == b
    requires d in net.nodes[b].ft && net.nodes[b].ft[d].nextHop == a
    ensures forall fuel: nat :: !Arrives(net, a, d, fuel)
  {
    forall fuel: nat ensures !Arrives(net, a, d, fuel) {
      BackAndForth(net, d, a, b, fuel);
    }
  }
}
