/**
 * When does every route lead to its destination?  In failure-free runs exactly as long as no event closes a loop, under
 * every reading; and with UPDATEs stored as the code stores them, only a first Hello can close one.
 */
module ForwardingLoops {
  import opened Collections
  import opened Routes
  import opened Tables
  import opened Selection
  import opened NodeSteps
  import opened UpdateEffects
  import opened Greetings
  import opened Network
  import opened HopSoundness
  import opened LoopFreedom

  // ---------- one node ----------

  ghost predicate Resting(rd: Reading, node: Node) {
    Settled(node) && JustComputed(rd, node)
  }

  lemma UpdateRests(rd: Reading, node: Node, src: Addr, upd: Update)
    requires Resting(rd, node) && upd.state == ACTIVE && upd.dst != src
    ensures var o := OnUpdate(rd, node, src, upd);
            && Resting(rd, o.node) && node.ft.Keys <= o.node.ft.Keys
            && OnlyRowGains(node.dvt, o.node.dvt, src, RouteFrom(src, upd))
            && AllFromTable(o.node, o.sends, Members(node.nbrs))
  {
    var rt := RouteFrom(src, upd);
    var stored := Stored(rd, node, src, rt);
    StoredKeepsRows(rd, node, src, rt);
    RecomputedIsSettled(rd, node, stored);
    ComputedIsFixpoint(rd, stored);
    UpdateSendsFromTable(rd, node, src, upd);
  }

  lemma StoredKeepsRows(rd: Reading, node: Node, src: Addr, rt: Entry)
    requires Settled(node) && rt.nextHop == src && rt.state == ACTIVE && rt.dst != src
    ensures var stored := Stored(rd, node, src, rt);
            && RowsKept(node, stored) && OnlyRowGains(node.dvt, stored.dvt, src, rt)
            && Consistent(stored) && AllActive(stored) && NeighborsIntroduced(stored)
  {
    StoredIsConsistent(rd, node, src, rt);
    ActiveErasesNothing(rd, node, src, rt);
    if Writes(rd, node, src) {
      WrittenRowKeepsRows(node, src, rt, UpdatedDvt(rd, node, src, rt));
    }
  }

  lemma WrittenRowKeepsRows(node: Node, src: Addr, rt: Entry, dvt: Dvt)
    requires Settled(node) && rt.state == ACTIVE && rt.dst != src
    requires dvt == node.dvt[src := RowOf(node.dvt, src)[rt.dst := rt]]
    ensures RowsKept(node, node.(dvt := dvt)) && OnlyRowGains(node.dvt, dvt, src, rt)
    ensures AllActive(node.(dvt := dvt)) && NeighborsIntroduced(node.(dvt := dvt))
  {
    forall n ensures n in node.nbrs <==> n in dvt && n in dvt[n] {
      assert n in node.nbrs <==> n in node.dvt && n in node.dvt[n];
    }
  }

  /** With UPDATEs stored as the code stores them, none moves a route: its sender has a row, or is not current. */
  lemma UpdateIsInert(rd: Reading, node: Node, src: Addr, upd: Update)
    requires !rd.writesExisting && Resting(rd, node)
    ensures OnUpdate(rd, node, src, upd).node.ft == node.ft
  {
    var rt := RouteFrom(src, upd);
    forall d ensures Lookup(AfterUpdate(rd, node, src, rt).ft, d) == Lookup(node.ft, d) {
      OthersStayPut(rd, node, src, rt, d);
    }
    InertUpdate(rd, node, src, rt);
  }

  lemma HelloRests(rd: Reading, node: Node, v: Addr)
    requires Resting(rd, node)
    ensures var o := OnHello(rd, node, v, []);
            && Resting(rd, o.node) && node.ft.Keys <= o.node.ft.Keys
            && AllFromTable(o.node, o.sends, {v})
            && forall n, d :: n in o.node.dvt && d in o.node.dvt[n] ==>
                                || (n in node.dvt && d in node.dvt[n] && o.node.dvt[n][d] == node.dvt[n][d])
                                || (n == v && d == v)
  {
    if v in node.nbrs {
      RepeatedHelloIsIdle(rd, node, v, []);
    } else {
      FirstHello(rd, node, v);
      IntroductionImproves(node, v);
      RecomputedIsSettled(rd, node, Greeting(node, v));
      ComputedIsFixpoint(rd, Greeting(node, v));
      var node' := Computed(rd, Greeting(node, v));
      FullTableFromTable(node', SortedKeys(node'.ft.Keys), v);
    }
  }

  // ---------- the network ----------

  /** `n` can speak about `d`: it is `n` itself, or `n` has a route to it. */
  ghost predicate Knows(net: Net, n: Addr, d: Addr) {
    d == n || (n in net.nodes && d in net.nodes[n].ft)
  }

  ghost predicate DvtAbout(net: Net, dvt: Dvt) {
    forall n, d :: n in dvt && d in dvt[n] ==> Knows(net, n, d)
  }

  /** Rows are about what their neighbour has a route to. */
  ghost predicate RowsAbout(net: Net) {
    forall u :: u in net.nodes ==> DvtAbout(net, net.nodes[u].dvt)
  }

  /** Messages are ACTIVE, and about what their sender has a route to. */
  ghost predicate MessagesAbout(net: Net) {
    forall v, u, m :: m in net.chan(v, u) ==> m.state == ACTIVE && Knows(net, v, m.dst)
  }

  ghost predicate Calm(rd: Reading, net: Net) {
    && Sound(net) && RowsAbout(net) && MessagesAbout(net)
    && forall u :: u in net.nodes ==> Resting(rd, net.nodes[u])
  }

  lemma ActKeepsAbout(net: Net, u: Addr, o: Outcome)
    requires RowsAbout(net) && MessagesAbout(net) && u in net.nodes && AllActive(o.node)
    requires net.nodes[u].ft.Keys <= o.node.ft.Keys
    requires forall s :: s in o.sends ==> FromTable(o.node, s)
    requires DvtAbout(net, o.node.dvt)
    ensures RowsAbout(Act(net, u, o)) && MessagesAbout(Act(net, u, o))
  {
    var net' := Act(net, u, o);
    forall n, d | Knows(net, n, d) ensures Knows(net', n, d) {
    }
    forall x | x in net'.nodes ensures DvtAbout(net', net'.nodes[x].dvt) {
      assert DvtAbout(net, net'.nodes[x].dvt);
    }
    forall v, y, m | m in net'.chan(v, y) ensures m.state == ACTIVE && Knows(net', v, m.dst) {
      if m !in net.chan(v, y) {
        assert FromTable(o.node, Send(y, m));
      }
    }
  }

  lemma QuietIsCalm(rd: Reading, net: Net, net': Net)
    requires Calm(rd, net) && Sound(net') && net'.nodes == net.nodes
    requires forall v, u, m :: m in net'.chan(v, u) ==> m in net.chan(v, u)
    ensures Calm(rd, net')
  {
    assert forall n, d :: Knows(net, n, d) ==> Knows(net', n, d);
    assert forall u :: u in net.nodes ==> DvtAbout(net, net.nodes[u].dvt);
  }

  lemma ActIsCalm(rd: Reading, net: Net, u: Addr, o: Outcome)
    requires Calm(rd, net) && u in net.nodes && Sound(Act(net, u, o)) && Resting(rd, o.node)
    requires net.nodes[u].ft.Keys <= o.node.ft.Keys
    requires forall s :: s in o.sends ==> FromTable(o.node, s)
    requires DvtAbout(net, o.node.dvt)
    ensures Calm(rd, Act(net, u, o))
  {
    ActKeepsAbout(net, u, o);
  }

  lemma ActStays(net: Net, mid: Net, u: Addr, o: Outcome)
    requires mid.nodes == net.nodes && mid.links == net.links && u in net.nodes && o.node.ft == net.nodes[u].ft
    ensures SameTables(net, Act(mid, u, o))
  {
  }

  /** No table changes. */
  ghost predicate SameTables(net: Net, net': Net) {
    && net'.nodes.Keys == net.nodes.Keys && net.links <= net'.links
    && forall u :: u in net.nodes ==> net'.nodes[u].ft == net.nodes[u].ft
  }

  lemma HeadOfChannel(net: Net, v: Addr, u: Addr)
    requires Sound(net) && MessagesAbout(net) && CanDeliver(net, v, u)
    ensures var m := net.chan(v, u)[0]; m.state == ACTIVE && m.dst != v && Knows(net, v, m.dst)
  {
    var m := net.chan(v, u)[0];
    assert m in net.chan(v, u);
    assert MessageSound(net, v, u, m);
  }

  lemma GainedRowsAbout(net: Net, u: Addr, dvt: Dvt, v: Addr, rt: Entry)
    requires RowsAbout(net) && u in net.nodes && OnlyRowGains(net.nodes[u].dvt, dvt, v, rt)
    requires Knows(net, v, rt.dst)
    ensures DvtAbout(net, dvt)
  {
    assert DvtAbout(net, net.nodes[u].dvt);
  }

  lemma DeliverIsCalm(rd: Reading, net: Net, v: Addr, u: Addr)
    requires Calm(rd, net) && CanDeliver(net, v, u)
    ensures Calm(rd, Step(rd, net, Deliver(v, u)))
  {
    var mid, m := Received(net, v, u), net.chan(v, u)[0];
    var o := OnUpdate(rd, net.nodes[u], v, m);
    DeliverStep(rd, net, v, u);
    DeliveredRests(rd, net, v, u);
    assert Sound(Act(mid, u, o)) by {
      DeliverIsSound(rd, net, v, u);
    }
    assert Calm(rd, mid) by {
      ReceivedIsCalm(rd, net, v, u);
    }
    assert mid.nodes[u] == net.nodes[u] && Knows(mid, v, m.dst);
    AbsorbedIsCalm(rd, mid, u, o, v, m);
  }

  lemma DeliverStep(rd: Reading, net: Net, v: Addr, u: Addr)
    requires CanDeliver(net, v, u)
    ensures Step(rd, net, Deliver(v, u)) ==
            Act(Received(net, v, u), u, OnUpdate(rd, net.nodes[u], v, net.chan(v, u)[0]))
  {
  }

  lemma DeliveredRests(rd: Reading, net: Net, v: Addr, u: Addr)
    requires Calm(rd, net) && CanDeliver(net, v, u)
    ensures var node, m := net.nodes[u], net.chan(v, u)[0];
            var o := OnUpdate(rd, node, v, m);
            && Resting(rd, o.node) && node.ft.Keys <= o.node.ft.Keys
            && OnlyRowGains(node.dvt, o.node.dvt, v, RouteFrom(v, m))
            && (forall s :: s in o.sends ==> FromTable(o.node, s))
            && Knows(Received(net, v, u), v, m.dst)
  {
    HeadOfChannel(net, v, u);
    assert Resting(rd, net.nodes[u]);
    UpdateRests(rd, net.nodes[u], v, net.chan(v, u)[0]);
  }

  lemma RemovedMessages(net: Net, net': Net, v: Addr, u: Addr, i: nat)
    requires net'.chan == Removed(net.chan, v, u, i)
    ensures forall x, y, m :: m in net'.chan(x, y) ==> m in net.chan(x, y)
  {
  }

  lemma ReceivedIsCalm(rd: Reading, net: Net, v: Addr, u: Addr)
    requires Calm(rd, net) && CanDeliver(net, v, u)
    ensures Calm(rd, Received(net, v, u))
  {
    ReceivedIsSound(net, v, u);
    RemovedMessages(net, Received(net, v, u), v, u, 0);
    QuietIsCalm(rd, net, Received(net, v, u));
  }

  lemma AbsorbedIsCalm(rd: Reading, net: Net, u: Addr, o: Outcome, v: Addr, m: Update)
    requires Calm(rd, net) && u in net.nodes && Sound(Act(net, u, o)) && Resting(rd, o.node)
    requires net.nodes[u].ft.Keys <= o.node.ft.Keys && Knows(net, v, m.dst)
    requires forall s :: s in o.sends ==> FromTable(o.node, s)
    requires OnlyRowGains(net.nodes[u].dvt, o.node.dvt, v, RouteFrom(v, m))
    ensures Calm(rd, Act(net, u, o))
  {
    GainedRowsAbout(net, u, o.node.dvt, v, RouteFrom(v, m));
    ActIsCalm(rd, net, u, o);
  }

  lemma GreetedRowsAbout(net: Net, u: Addr, dvt: Dvt, v: Addr)
    requires RowsAbout(net) && u in net.nodes
    requires forall n, d :: n in dvt && d in dvt[n] ==>
                              (n in net.nodes[u].dvt && d in net.nodes[u].dvt[n] && dvt[n][d] == net.nodes[u].dvt[n][d]) ||
                              (n == v && d == v)
    ensures DvtAbout(net, dvt)
  {
    assert DvtAbout(net, net.nodes[u].dvt);
  }

  lemma HelloIsCalm(rd: Reading, net: Net, v: Addr, u: Addr)
    requires Calm(rd, net) && CanGreet(net, v, u, [])
    ensures Calm(rd, Step(rd, net, Hello(v, u, [])))
  {
    var o := OnHello(rd, net.nodes[u], v, []);
    assert Step(rd, net, Hello(v, u, [])) == Act(net, u, o);
    assert Sound(Act(net, u, o)) by {
      HelloIsSound(rd, net, v, u, []);
    }
    HelloRests(rd, net.nodes[u], v);
    GreetedRowsAbout(net, u, o.node.dvt, v);
    ActIsCalm(rd, net, u, o);
  }

  lemma ResendIsCalm(rd: Reading, net: Net, u: Addr, sends: seq<Send>, o: Outcome)
    requires Calm(rd, net) && u in net.nodes && o == Outcome(net.nodes[u], sends)
    requires Sound(Act(net, u, o)) && forall s :: s in sends ==> FromTable(net.nodes[u], s)
    ensures Calm(rd, Act(net, u, o)) && SameTables(net, Act(net, u, o))
  {
    assert Resting(rd, net.nodes[u]) && DvtAbout(net, net.nodes[u].dvt);
    ActIsCalm(rd, net, u, o);
    ActStays(net, net, u, o);
  }

  lemma TimeoutIsCalm(rd: Reading, net: Net, u: Addr, ne: Addr, dst: Addr)
    requires Calm(rd, net) && u in net.nodes && ne != dst
    ensures var net' := Step(rd, net, Timeout(u, ne, dst)); Calm(rd, net') && SameTables(net, net')
  {
    var sends := TimeoutSends(net.nodes[u], ne, dst);
    var o := Outcome(net.nodes[u], sends);
    TimeoutStep(rd, net, u, ne, dst);
    assert forall s :: s in sends ==> FromTable(net.nodes[u], s) by {
      assert Resting(rd, net.nodes[u]);
      TimeoutSendsFromTable(net.nodes[u], ne, dst);
    }
    assert Sound(Act(net, u, o)) by {
      TimeoutIsSound(net, u, ne, dst);
    }
    ResendIsCalm(rd, net, u, sends, o);
  }

  lemma TimeoutStep(rd: Reading, net: Net, u: Addr, ne: Addr, dst: Addr)
    requires u in net.nodes && ne != dst
    ensures Step(rd, net, Timeout(u, ne, dst)) ==
            Act(net, u, Outcome(net.nodes[u], TimeoutSends(net.nodes[u], ne, dst)))
  {
  }

  lemma LinkUpIsCalm(rd: Reading, net: Net, u: Addr, v: Addr)
    requires Calm(rd, net)
    ensures var net' := Step(rd, net, LinkUp(u, v)); Calm(rd, net') && SameTables(net, net')
  {
    StepIsSound(rd, net, LinkUp(u, v));
    QuietIsCalm(rd, net, Step(rd, net, LinkUp(u, v)));
  }

  lemma LoseIsCalm(rd: Reading, net: Net, v: Addr, u: Addr, i: nat)
    requires Calm(rd, net)
    ensures var net' := Step(rd, net, Lose(v, u, i)); Calm(rd, net') && SameTables(net, net')
  {
    var net' := net.(chan := Removed(net.chan, v, u, i));
    assert Step(rd, net, Lose(v, u, i)) == net';
    assert Sound(net') by {
      StepIsSound(rd, net, Lose(v, u, i));
    }
    RemovedMessages(net, net', v, u, i);
    QuietStays(net, net');
    QuietIsCalm(rd, net, net');
  }

  lemma QuietStays(net: Net, net': Net)
    requires net'.nodes == net.nodes && net.links <= net'.links
    ensures SameTables(net, net')
  {
  }

  lemma RepeatedHelloStays(rd: Reading, net: Net, v: Addr, u: Addr)
    requires CanGreet(net, v, u, []) && v in net.nodes[u].nbrs && Settled(net.nodes[u])
    ensures SameTables(net, Step(rd, net, Hello(v, u, [])))
  {
    RepeatedHelloIsIdle(rd, net.nodes[u], v, []);
    ActStays(net, net, u, OnHello(rd, net.nodes[u], v, []));
  }

  lemma NothingStays(net: Net)
    ensures SameTables(net, net)
  {
  }

  /** Only first Hellos and UPDATEs change tables. */
  lemma StepIsCalm(rd: Reading, net: Net, e: Event)
    requires Calm(rd, net) && FailureFreeEvent(e)
    ensures Calm(rd, Step(rd, net, e))
    ensures !FirstHelloEvent(net, e) && !UpdateEvent(net, e) ==> SameTables(net, Step(rd, net, e))
  {
    NothingStays(net);
    match e
    case LinkUp(u, v) => LinkUpIsCalm(rd, net, u, v);
    case Hello(v, u, failed) =>
      if CanGreet(net, v, u, []) {
        HelloIsCalm(rd, net, v, u);
        if v in net.nodes[u].nbrs {
          assert Resting(rd, net.nodes[u]);
          RepeatedHelloStays(rd, net, v, u);
        }
      }
    case Deliver(v, u) => if CanDeliver(net, v, u) { DeliverIsCalm(rd, net, v, u); }
    case Lose(v, u, i) => LoseIsCalm(rd, net, v, u, i);
    case Timeout(u, ne, dst) => if u in net.nodes && ne != dst { TimeoutIsCalm(rd, net, u, ne, dst); }
  }

  predicate FirstHelloEvent(net: Net, e: Event) {
    e.Hello? && CanGreet(net, e.v, e.u, []) && e.v !in net.nodes[e.u].nbrs
  }

  /** With UPDATEs stored as the code stores them, nothing but a first Hello ever moves a route. */
  lemma OnlyFirstHellosMoveRoutes(rd: Reading, net: Net, e: Event)
    requires !rd.writesExisting && Calm(rd, net) && FailureFreeEvent(e) && !FirstHelloEvent(net, e)
    ensures SameTables(net, Step(rd, net, e))
  {
    if UpdateEvent(net, e) {
      var m := net.chan(e.v, e.u)[0];
      assert Resting(rd, net.nodes[e.u]);
      UpdateIsInert(rd, net.nodes[e.u], e.v, m);
      DeliverStep(rd, net, e.v, e.u);
      ActStays(net, Received(net, e.v, e.u), e.u, OnUpdate(rd, net.nodes[e.u], e.v, m));
    } else {
      StepIsCalm(rd, net, e);
    }
  }

  predicate UpdateEvent(net: Net, e: Event) {
    e.Deliver? && CanDeliver(net, e.v, e.u)
  }

  // ---------- following the tables ----------

  /** Following the tables from `s` toward `d` comes past `x` within `fuel` hops. */
  ghost predicate Passes(net: Net, s: Addr, d: Addr, x: Addr, fuel: nat)
    decreases fuel
  {
    || s == x
    || (s != d && fuel > 0 && s in net.nodes && d in net.nodes[s].ft &&
        Passes(net, net.nodes[s].ft[d].nextHop, d, x, fuel - 1))
  }

  ghost predicate Delivered(net: Net, s: Addr, d: Addr) {
    exists fuel: nat :: Arrives(net, s, d, fuel)
  }

  /** Every route of every table leads to its destination. */
  ghost predicate AllDelivered(net: Net) {
    forall d :: DeliversTo(net, d)
  }

  ghost predicate DeliversTo(net: Net, d: Addr) {
    forall u :: u in net.nodes && d in net.nodes[u].ft ==> Delivered(net, u, d)
  }

  /** Only node `u` changes its route to `d`: it now forwards to `n`. */
  ghost predicate Reroutes(net: Net, net': Net, u: Addr, d: Addr, n: Addr) {
    && u in net'.nodes && d in net'.nodes[u].ft && net'.nodes[u].ft[d].nextHop == n
    && (u, n) in net'.links && net.links <= net'.links && u != d
    && forall x :: x in net.nodes && x != u && d in net.nodes[x].ft ==>
                     x in net'.nodes && d in net'.nodes[x].ft && net'.nodes[x].ft[d].nextHop == net.nodes[x].ft[d].nextHop
  }

  /** A way that does not come past the changed node is still there. */
  lemma {:induction false} DetourFreeArrives(net: Net, net': Net, s: Addr, u: Addr, d: Addr, n: Addr, fuel: nat)
    requires Reroutes(net, net', u, d, n) && Arrives(net, s, d, fuel) && !Passes(net, s, d, u, fuel)
    ensures Arrives(net', s, d, fuel)
    decreases fuel
  {
    if s != d {
      DetourFreeArrives(net, net', net.nodes[s].ft[d].nextHop, u, d, n, fuel - 1);
    }
  }

  /** If the new next hop delivers without coming back, every node that delivered still does. */
  lemma {:induction false} ReroutedArrives(net: Net, net': Net, s: Addr, u: Addr, d: Addr, n: Addr, fuel: nat)
    requires Reroutes(net, net', u, d, n) && Arrives(net, s, d, fuel) && Delivered(net', n, d)
    ensures Delivered(net', s, d)
    decreases fuel
  {
    if s == d {
      assert Arrives(net', s, d, 0);
    } else {
      var next := if s == u then n else net.nodes[s].ft[d].nextHop;
      if s != u {
        ReroutedArrives(net, net', next, u, d, n, fuel - 1);
      }
      var k: nat :| Arrives(net', next, d, k);
      assert Arrives(net', s, d, k + 1);
    }
  }

  /** A way that came past the changed node still does. */
  lemma {:induction false} StillPasses(net: Net, net': Net, s: Addr, u: Addr, d: Addr, n: Addr, k: nat, fuel: nat)
    requires Reroutes(net, net', u, d, n) && Passes(net, s, d, u, k) && Arrives(net', s, d, fuel)
    ensures Arrives(net', u, d, fuel)
    decreases k
  {
    if s != u {
      var next := net.nodes[s].ft[d].nextHop;
      StillPasses(net, net', next, u, d, n, k - 1, fuel - 1);
      MoreFuelArrives(net', u, d, fuel - 1, fuel);
    }
  }

  lemma {:induction false} MoreFuelArrives(net: Net, s: Addr, d: Addr, fuel: nat, more: nat)
    requires Arrives(net, s, d, fuel) && fuel <= more
    ensures Arrives(net, s, d, more)
    decreases fuel
  {
    if s != d {
      MoreFuelArrives(net, net.nodes[s].ft[d].nextHop, d, fuel - 1, more - 1);
    }
  }

  /** If the way of the new next hop comes past the changed node, packets go round for ever. */
  lemma {:induction false} RoundAndRound(net: Net, net': Net, u: Addr, d: Addr, n: Addr, k: nat, fuel: nat)
    requires Reroutes(net, net', u, d, n) && n != d && Passes(net, n, d, u, k)
    ensures !Arrives(net', u, d, fuel)
    decreases fuel
  {
    if Arrives(net', u, d, fuel) {
      StillPasses(net, net', n, u, d, n, k, fuel - 1);
      RoundAndRound(net, net', u, d, n, k, fuel - 1);
    }
  }

  /** The way from `n` toward `d` comes past `u`. */
  ghost predicate ComesPast(net: Net, n: Addr, d: Addr, u: Addr) {
    exists k: nat :: Passes(net, n, d, u, k)
  }

  lemma ReturningNeverArrives(net: Net, net': Net, u: Addr, d: Addr, n: Addr)
    requires Reroutes(net, net', u, d, n) && n != d && ComesPast(net, n, d, u)
    ensures !Delivered(net', u, d)
  {
    var k: nat :| Passes(net, n, d, u, k);
    forall fuel: nat ensures !Arrives(net', u, d, fuel) {
      RoundAndRound(net, net', u, d, n, k, fuel);
    }
  }

  lemma StraightOnArrives(net: Net, net': Net, u: Addr, d: Addr, n: Addr)
    requires Reroutes(net, net', u, d, n) && (n == d || (Delivered(net, n, d) && !ComesPast(net, n, d, u)))
    ensures Delivered(net', n, d) && Delivered(net', u, d)
  {
    if n == d {
      assert Arrives(net', n, d, 0) && Arrives(net', u, d, 1);
    } else {
      var fuel: nat :| Arrives(net, n, d, fuel);
      DetourFreeArrives(net, net', n, u, d, n, fuel);
      assert Arrives(net', u, d, fuel + 1);
    }
  }

  /** One changed route: everything is still delivered exactly when the way of its next hop does not come back. */
  lemma RerouteDeliversExactly(net: Net, net': Net, u: Addr, d: Addr, n: Addr)
    requires Reroutes(net, net', u, d, n) && (n == d || Delivered(net, n, d))
    requires DeliversTo(net, d)
    requires u in net'.nodes && forall x :: x in net'.nodes && x != u && d in net'.nodes[x].ft ==>
                                              x in net.nodes && d in net.nodes[x].ft
    ensures DeliversTo(net', d) <==> n == d || !ComesPast(net, n, d, u)
  {
    if n != d && ComesPast(net, n, d, u) {
      ReturningNeverArrives(net, net', u, d, n);
    } else {
      StraightOnArrives(net, net', u, d, n);
      forall x | x in net'.nodes && d in net'.nodes[x].ft ensures Delivered(net', x, d) {
        if x != u {
          var fuel: nat :| Arrives(net, x, d, fuel);
          ReroutedArrives(net, net', x, u, d, n, fuel);
        }
      }
    }
  }

  /** A route that changes nowhere. */
  ghost predicate SameRoutes(net: Net, net': Net, d: Addr) {
    && net.links <= net'.links
    && forall x :: x in net.nodes && d in net.nodes[x].ft ==>
                     x in net'.nodes && d in net'.nodes[x].ft && net'.nodes[x].ft[d].nextHop == net.nodes[x].ft[d].nextHop
  }

  lemma {:induction false} SameRoutesArrive(net: Net, net': Net, s: Addr, d: Addr, fuel: nat)
    requires SameRoutes(net, net', d) && Arrives(net, s, d, fuel)
    ensures Arrives(net', s, d, fuel)
    decreases fuel
  {
    if s != d {
      SameRoutesArrive(net, net', net.nodes[s].ft[d].nextHop, d, fuel - 1);
    }
  }

  // ---------- one event ----------

  /** The route to `d` is new or has a new next hop. */
  predicate Rerouted(ft: Row, ft': Row, d: Addr) {
    d in ft' && (d !in ft || ft'[d].nextHop != ft[d].nextHop)
  }

  /** One node acts; its route to `d` changes or does not. */
  lemma OneTableChanges(net: Net, mid: Net, u: Addr, o: Outcome, d: Addr)
    requires u in net.nodes && mid.nodes == net.nodes && mid.links == net.links
    requires net.nodes[u].ft.Keys <= o.node.ft.Keys && u !in o.node.ft
    ensures var net' := Act(mid, u, o);
            && u in net'.nodes
            && (forall x :: x in net'.nodes && x != u && d in net'.nodes[x].ft ==> x in net.nodes && d in net.nodes[x].ft)
            && (Rerouted(net.nodes[u].ft, o.node.ft, d) && (u, o.node.ft[d].nextHop) in net.links ==>
                  Reroutes(net, net', u, d, o.node.ft[d].nextHop))
            && (!Rerouted(net.nodes[u].ft, o.node.ft, d) ==>
                  SameRoutes(net, net', d) &&
                  forall x :: x in net'.nodes && d in net'.nodes[x].ft ==> x in net.nodes && d in net.nodes[x].ft)
  {
  }

  lemma SoundHasNoRouteHome(net: Net, u: Addr)
    requires Sound(net) && u in net.nodes
    ensures u !in net.nodes[u].ft
    ensures Settled(net.nodes[u]) ==> forall d :: d in net.nodes[u].ft ==> (u, net.nodes[u].ft[d].nextHop) in net.links
  {
    assert forall d :: d in net.nodes[u].ft ==> WitnessTest(net, u)(d, net.nodes[u].ft[d].hop);
    forall d | d in net.nodes[u].ft && Settled(net.nodes[u]) ensures (u, net.nodes[u].ft[d].nextHop) in net.links {
      assert net.nodes[u].ft[d].nextHop in LinkedTo(net, u);
    }
  }

  /** The new next hop delivers, if everything is delivered. */
  lemma NextHopDelivers(net: Net, node: Node, d: Addr)
    requires AllDelivered(net) && DvtAbout(net, node.dvt) && Settled(node) && d in node.ft && node.ft[d].nextHop != d
    ensures Delivered(net, node.ft[d].nextHop, d)
  {
    assert Knows(net, node.ft[d].nextHop, d) && DeliversTo(net, d);
  }

  /** The acting node takes a new next hop toward `d` whose way comes back to it. */
  ghost predicate LoopsBack(net: Net, u: Addr, ft': Row, d: Addr)
    requires u in net.nodes
  {
    Rerouted(net.nodes[u].ft, ft', d) && ft'[d].nextHop != d && ComesPast(net, ft'[d].nextHop, d, u)
  }

  lemma ActDeliversTo(net: Net, mid: Net, u: Addr, o: Outcome, d: Addr)
    requires AllDelivered(net) && u in net.nodes && mid.nodes == net.nodes && mid.links == net.links
    requires Sound(Act(mid, u, o)) && Settled(o.node) && DvtAbout(net, o.node.dvt)
    requires net.nodes[u].ft.Keys <= o.node.ft.Keys
    ensures DeliversTo(Act(mid, u, o), d) <==> !LoopsBack(net, u, o.node.ft, d)
  {
    var net' := Act(mid, u, o);
    assert net'.nodes[u] == o.node && net'.links == net.links;
    SoundHasNoRouteHome(net', u);
    OneTableChanges(net, mid, u, o, d);
    assert DeliversTo(net, d);
    if Rerouted(net.nodes[u].ft, o.node.ft, d) {
      if o.node.ft[d].nextHop != d {
        NextHopDelivers(net, o.node, d);
      }
      RerouteDeliversExactly(net, net', u, d, o.node.ft[d].nextHop);
    } else {
      SameRoutesDeliver(net, net', d);
    }
  }

  /** One node acts: everything is still delivered exactly when it takes no next hop whose way comes back. */
  lemma ActDeliversExactly(net: Net, mid: Net, u: Addr, o: Outcome)
    requires AllDelivered(net) && u in net.nodes && mid.nodes == net.nodes && mid.links == net.links
    requires Sound(Act(mid, u, o)) && Settled(o.node) && DvtAbout(net, o.node.dvt)
    requires net.nodes[u].ft.Keys <= o.node.ft.Keys
    ensures AllDelivered(Act(mid, u, o)) <==> forall d :: !LoopsBack(net, u, o.node.ft, d)
  {
    forall d ensures DeliversTo(Act(mid, u, o), d) <==> !LoopsBack(net, u, o.node.ft, d) {
      ActDeliversTo(net, mid, u, o, d);
    }
  }

  lemma SameRoutesDeliver(net: Net, net': Net, d: Addr)
    requires SameRoutes(net, net', d) && DeliversTo(net, d)
    requires forall x :: x in net'.nodes && d in net'.nodes[x].ft ==> x in net.nodes && d in net.nodes[x].ft
    ensures DeliversTo(net', d)
  {
    forall x | x in net'.nodes && d in net'.nodes[x].ft ensures Delivered(net', x, d) {
      var fuel: nat :| Arrives(net, x, d, fuel);
      SameRoutesArrive(net, net', x, d, fuel);
    }
  }

  lemma SameTablesDeliver(net: Net, net': Net)
    requires SameTables(net, net') && AllDelivered(net)
    ensures AllDelivered(net')
  {
    forall d ensures DeliversTo(net', d) {
      SameRoutesDeliver(net, net', d);
    }
  }

  // ---------- the events that can close a loop ----------

  /** The row of `v` takes over the route to `d` when the first Hello of `v` is heard. */
  predicate TakesOver(rd: Reading, node: Node, v: Addr, d: Addr) {
    var row := NewcomerRow(node, v);
    d in row && (d !in node.ft || Beats(rd, row[d], node.ft[d]))
  }

  /** A first Hello closes a loop: `u` takes over a route from `v` whose way comes past `u`. */
  ghost predicate HelloLoops(rd: Reading, net: Net, v: Addr, u: Addr)
    requires u in net.nodes
  {
    exists d :: d != v && TakesOver(rd, net.nodes[u], v, d) && ComesPast(net, v, d, u)
  }

  /** The next hop that the rows, once `rt` is stored, select for the destination of `rt`. */
  function SelectedHop(rd: Reading, node: Node, src: Addr, rt: Entry): Option<Addr> {
    match Cell(rd, node.nbrs, UpdatedDvt(rd, node, src, rt), node.ft, rt.dst)
    case None => None
    case Some(e) => Some(e.nextHop)
  }

  /** An UPDATE closes a loop: it is stored and makes the rows select a new next hop whose way comes past `u`. */
  ghost predicate UpdateLoops(rd: Reading, net: Net, v: Addr, u: Addr, m: Update)
    requires u in net.nodes
  {
    var node, d := net.nodes[u], m.dst;
    var hop := SelectedHop(rd, node, v, RouteFrom(v, m));
    && Writes(rd, node, v) && v in node.nbrs
    && hop.Some? && (d !in node.ft || hop.value != node.ft[d].nextHop)
    && hop.value != d && ComesPast(net, hop.value, d, u)
  }

  ghost predicate ClosesLoop(rd: Reading, net: Net, e: Event) {
    || (FirstHelloEvent(net, e) && HelloLoops(rd, net, e.v, e.u))
    || (UpdateEvent(net, e) && UpdateLoops(rd, net, e.v, e.u, net.chan(e.v, e.u)[0]))
  }

  /** What a first Hello does to the table of a node at rest. */
  lemma FirstHelloTable(rd: Reading, node: Node, v: Addr, d: Addr)
    requires Resting(rd, node) && v !in node.nbrs
    ensures var ft := OnHello(rd, node, v, []).node.ft;
            && (Rerouted(node.ft, ft, d) <==> TakesOver(rd, node, v, d))
            && (TakesOver(rd, node, v, d) ==> ft[d].nextHop == v)
  {
    FirstHello(rd, node, v);
    NewcomerCell(rd, node, v, d);
    if d in node.ft {
      assert Refreshed(node.dvt, node.ft[d], d) == node.ft[d];
    }
    assert d in NewcomerRow(node, v) ==> NewcomerRow(node, v)[d].nextHop == v;
  }

  lemma HelloLoopsExactly(rd: Reading, net: Net, v: Addr, u: Addr)
    requires u in net.nodes && Resting(rd, net.nodes[u]) && v !in net.nodes[u].nbrs
    ensures HelloLoops(rd, net, v, u) <==> exists d :: LoopsBack(net, u, OnHello(rd, net.nodes[u], v, []).node.ft, d)
  {
    var ft := OnHello(rd, net.nodes[u], v, []).node.ft;
    forall d
      ensures LoopsBack(net, u, ft, d) <==> d != v && TakesOver(rd, net.nodes[u], v, d) && ComesPast(net, v, d, u)
    {
      FirstHelloTable(rd, net.nodes[u], v, d);
    }
  }

  lemma HelloDeliversExactly(rd: Reading, net: Net, v: Addr, u: Addr)
    requires Calm(rd, net) && AllDelivered(net) && CanGreet(net, v, u, []) && v !in net.nodes[u].nbrs
    ensures AllDelivered(Step(rd, net, Hello(v, u, []))) <==> !HelloLoops(rd, net, v, u)
  {
    var o := OnHello(rd, net.nodes[u], v, []);
    assert Step(rd, net, Hello(v, u, [])) == Act(net, u, o);
    assert Resting(rd, net.nodes[u]);
    HelloRests(rd, net.nodes[u], v);
    GreetedRowsAbout(net, u, o.node.dvt, v);
    HelloIsSound(rd, net, v, u, []);
    HelloLoopsExactly(rd, net, v, u);
    ActDeliversExactly(net, net, u, o);
  }

  /** What an UPDATE does to the table of a node at rest. */
  lemma UpdatedTable(rd: Reading, node: Node, src: Addr, upd: Update, d: Addr)
    requires Resting(rd, node)
    ensures var ft, hop := OnUpdate(rd, node, src, upd).node.ft, SelectedHop(rd, node, src, RouteFrom(src, upd));
            && (Rerouted(node.ft, ft, d) <==>
                  d == upd.dst && Writes(rd, node, src) && src in node.nbrs &&
                  hop.Some? && (d !in node.ft || hop.value != node.ft[d].nextHop))
            && (Rerouted(node.ft, ft, d) ==> ft[d].nextHop == hop.value)
  {
    var rt := RouteFrom(src, upd);
    ComputedCell(rd, Stored(rd, node, src, rt), d);
    if d != rt.dst || !Writes(rd, node, src) || src !in node.nbrs {
      OthersStayPut(rd, node, src, rt, d);
    }
  }

  lemma UpdateLoopsExactly(rd: Reading, net: Net, v: Addr, u: Addr, m: Update)
    requires u in net.nodes && Resting(rd, net.nodes[u])
    ensures UpdateLoops(rd, net, v, u, m) <==>
            exists d :: LoopsBack(net, u, OnUpdate(rd, net.nodes[u], v, m).node.ft, d)
  {
    var ft := OnUpdate(rd, net.nodes[u], v, m).node.ft;
    forall d ensures LoopsBack(net, u, ft, d) <==> d == m.dst && UpdateLoops(rd, net, v, u, m) {
      UpdatedTable(rd, net.nodes[u], v, m, d);
    }
    assert UpdateLoops(rd, net, v, u, m) ==> LoopsBack(net, u, ft, m.dst);
  }

  lemma UpdateDeliversExactly(rd: Reading, net: Net, v: Addr, u: Addr)
    requires Calm(rd, net) && AllDelivered(net) && CanDeliver(net, v, u)
    ensures AllDelivered(Step(rd, net, Deliver(v, u))) <==> !UpdateLoops(rd, net, v, u, net.chan(v, u)[0])
  {
    var m := net.chan(v, u)[0];
    var mid, o := Received(net, v, u), OnUpdate(rd, net.nodes[u], v, m);
    DeliverStep(rd, net, v, u);
    DeliveredRests(rd, net, v, u);
    GainedRowsAbout(net, u, o.node.dvt, v, RouteFrom(v, m));
    DeliverIsSound(rd, net, v, u);
    assert Resting(rd, net.nodes[u]);
    UpdateLoopsExactly(rd, net, v, u, m);
    ActDeliversExactly(net, mid, u, o);
  }

  /** One event: everything is still delivered exactly when the event does not close a loop. */
  lemma StepDeliversExactly(rd: Reading, net: Net, e: Event)
    requires Calm(rd, net) && AllDelivered(net) && FailureFreeEvent(e)
    ensures AllDelivered(Step(rd, net, e)) <==> !ClosesLoop(rd, net, e)
  {
    if FirstHelloEvent(net, e) {
      assert e == Hello(e.v, e.u, []);
      HelloDeliversExactly(rd, net, e.v, e.u);
    } else if UpdateEvent(net, e) {
      UpdateDeliversExactly(rd, net, e.v, e.u);
    } else {
      StepIsCalm(rd, net, e);
      SameTablesDeliver(net, Step(rd, net, e));
    }
  }

  /** As the code stores UPDATEs, only a first Hello can close a loop. */
  lemma OnlyFirstHellosLoop(rd: Reading, net: Net, e: Event)
    requires !rd.writesExisting && Calm(rd, net) && ClosesLoop(rd, net, e)
    ensures FirstHelloEvent(net, e) && HelloLoops(rd, net, e.v, e.u)
  {
    assert forall u :: u in net.nodes ==> Resting(rd, net.nodes[u]);
  }

  // ---------- whole runs ----------

  /** Every route leads to its destination at every moment of the run. */
  ghost predicate AlwaysDelivered(rd: Reading, net: Net, events: seq<Event>) {
    && AllDelivered(Run(rd, net, events))
    && (events != [] ==> AlwaysDelivered(rd, net, events[..|events| - 1]))
  }

  ghost predicate NeverClosesLoop(rd: Reading, net: Net, events: seq<Event>) {
    events != [] ==>
      && NeverClosesLoop(rd, net, events[..|events| - 1])
      && !ClosesLoop(rd, Run(rd, net, events[..|events| - 1]), events[|events| - 1])
  }

  lemma {:induction false} EveryRunIsCalm(rd: Reading, addrs: set<Addr>, events: seq<Event>)
    requires FailureFree(events)
    ensures Calm(rd, Run(rd, Initial(addrs), events))
  {
    if events != [] {
      EveryRunIsCalm(rd, addrs, events[..|events| - 1]);
      StepIsCalm(rd, Run(rd, Initial(addrs), events[..|events| - 1]), events[|events| - 1]);
    } else {
      InitialIsCalm(rd, addrs);
    }
  }

  lemma InitialIsCalm(rd: Reading, addrs: set<Addr>)
    ensures Calm(rd, Initial(addrs))
  {
    EveryRunIsSound(rd, addrs, []);
  }

  /**
   * Under every reading: in a failure-free run every route leads to its destination at every moment exactly when no event
   * of it closes a loop.
   */
  lemma {:induction false} RoutesAlwaysArriveExactly(rd: Reading, addrs: set<Addr>, events: seq<Event>)
    requires FailureFree(events)
    ensures AlwaysDelivered(rd, Initial(addrs), events) <==> NeverClosesLoop(rd, Initial(addrs), events)
  {
    if events != [] {
      var init, e := events[..|events| - 1], events[|events| - 1];
      var net := Run(rd, Initial(addrs), init);
      RoutesAlwaysArriveExactly(rd, addrs, init);
      EveryRunIsCalm(rd, addrs, init);
      if AllDelivered(net) {
        StepDeliversExactly(rd, net, e);
      }
    }
  }
}
