/**
 * Runs in which no neighbour expires.  Along every link the receiver's stored hop count, the hop counts in flight and
 * the sender's own hop count only go down, so following the forwarding tables toward a destination always arrives.
 */
module LoopFreedom {
  import opened Collections
  import opened Routes
  import opened Tables
  import opened Changes
  import opened NodeSteps
  import opened Network
  import opened HopSoundness

  predicate FailureFreeEvent(e: Event) {
    !e.Purge? && (e.Hello? ==> e.failed == [])
  }

  predicate FailureFree(events: seq<Event>) {
    forall e :: e in events ==> FailureFreeEvent(e)
  }

  // ---------- one node ----------

  ghost predicate AllActive(node: Node) {
    && (forall d :: d in node.ft ==> node.ft[d].state == ACTIVE)
    && (forall n, d :: n in node.dvt && d in node.dvt[n] ==> node.dvt[n][d].state == ACTIVE)
  }

  /** A neighbour is current exactly when its Hello has given it an entry, one hop away, in its own row. */
  ghost predicate NeighborsIntroduced(node: Node) {
    && (forall n :: n in node.nbrs <==> n in node.dvt && n in node.dvt[n])
    && (forall n :: n in node.nbrs ==> node.dvt[n][n].hop == 1)
  }

  /** Every route goes through a current neighbour and is that neighbour's row entry. */
  ghost predicate RoutesAreRowEntries(node: Node)
    requires Consistent(node)
  {
    && (forall d :: d in node.ft ==> node.ft[d].nextHop in node.nbrs && node.ft[d] == node.dvt[node.ft[d].nextHop][d])
    && (forall n, d :: Holds(node.nbrs, node.dvt, n, d) ==> d in node.ft)
  }

  ghost predicate Settled(node: Node) {
    Consistent(node) && AllActive(node) && NeighborsIntroduced(node) && RoutesAreRowEntries(node)
  }

  ghost predicate ShortestOnOffer(node: Node) {
    forall n, d :: Holds(node.nbrs, node.dvt, n, d) ==> d in node.ft && node.ft[d].hop <= node.dvt[n][d].hop
  }

  ghost predicate HopsDoNotRise(ft: Row, ft': Row) {
    forall d :: d in ft ==> d in ft' && ft'[d].hop <= ft[d].hop
  }

  /** Rows gain entries, lose none, and their hop counts do not rise; neighbours are only added. */
  ghost predicate RowsImprove(node: Node, node': Node) {
    && node'.ft == node.ft
    && (forall n :: n in node.nbrs ==> n in node'.nbrs)
    && (forall n, d :: n in node.dvt && d in node.dvt[n] ==>
                         n in node'.dvt && d in node'.dvt[n] && node'.dvt[n][d].hop <= node.dvt[n][d].hop)
  }

  /** Rows lose no entry; neighbours are only added. */
  ghost predicate RowsKept(node: Node, node': Node) {
    && node'.ft == node.ft
    && (forall n :: n in node.nbrs ==> n in node'.nbrs)
    && (forall n, d :: n in node.dvt && d in node.dvt[n] ==> n in node'.dvt && d in node'.dvt[n])
  }

  lemma RecomputedCell(rd: Reading, node: Node, node': Node, d: Addr)
    requires Settled(node) && RowsKept(node, node')
    requires Consistent(node') && AllActive(node') && NeighborsIntroduced(node')
    requires d in ComputedFt(rd, node')
    ensures var e := ComputedFt(rd, node')[d];
            && e.nextHop in node'.nbrs
            && e.nextHop in node'.dvt && d in node'.dvt[e.nextHop] && e == node'.dvt[e.nextHop][d]
            && (RowsImprove(node, node') && rd.installsBetter && d in node.ft ==> e.hop <= node.ft[d].hop)
  {
    ComputedProperties(rd, node', d);
    if d in node.ft {
      assert Holds(node'.nbrs, node'.dvt, node.ft[d].nextHop, d);
    } else {
      ComputedCell(rd, node', d);
      CandidatesExist(node'.nbrs, node'.dvt, d);
    }
  }

  lemma RecomputedIsSettled(rd: Reading, node: Node, node': Node)
    requires Settled(node) && RowsKept(node, node')
    requires Consistent(node') && AllActive(node') && NeighborsIntroduced(node')
    ensures var after := Computed(rd, node');
            && Settled(after)
            && (rd.installsBetter && RowsImprove(node, node') ==>
                  HopsDoNotRise(node.ft, after.ft) && ShortestOnOffer(after))
  {
    var after := Computed(rd, node');
    ComputedIsConsistent(rd, node');
    forall d | d in after.ft
      ensures after.ft[d].nextHop in after.nbrs && after.ft[d] == after.dvt[after.ft[d].nextHop][d]
      ensures rd.installsBetter && RowsImprove(node, node') && d in node.ft ==> after.ft[d].hop <= node.ft[d].hop
    {
      RecomputedCell(rd, node, node', d);
    }
    forall n, d | Holds(after.nbrs, after.dvt, n, d)
      ensures d in after.ft && (rd.installsBetter ==> after.ft[d].hop <= after.dvt[n][d].hop)
    {
      ComputedProperties(rd, node', d);
      RecomputedCell(rd, node, node', d);
    }
  }

  lemma ActiveErasesNothing(rd: Reading, node: Node, src: Addr, rt: Entry)
    requires rt.state == ACTIVE
    ensures UpdatedDvt(rd, node, src, rt) ==
            if Writes(rd, node, src) then node.dvt[src := RowOf(node.dvt, src)[rt.dst := rt]] else node.dvt
  {
    forall n | n in node.dvt ensures WithoutFakes(node, src, rt)[n] == node.dvt[n] {
    }
    assert WithoutFakes(node, src, rt) == node.dvt;
  }

  /** Every entry of the rows was there before, unless it is `rt` in the row of `src`. */
  ghost predicate OnlyRowGains(dvt: Dvt, dvt': Dvt, src: Addr, rt: Entry) {
    forall n, d :: n in dvt' && d in dvt'[n] ==>
                     || (n in dvt && d in dvt[n] && dvt'[n][d] == dvt[n][d])
                     || (n == src && d == rt.dst && dvt'[n][d] == rt)
  }

  /** An ACTIVE UPDATE erases nothing, so it can only improve the rows if it is no longer than what it replaces. */
  lemma StoredImproves(rd: Reading, node: Node, src: Addr, rt: Entry)
    requires Settled(node) && rt.nextHop == src && rt.state == ACTIVE && rt.dst != src
    requires src in node.dvt && rt.dst in node.dvt[src] ==> rt.hop <= node.dvt[src][rt.dst].hop
    ensures var stored := Stored(rd, node, src, rt);
            && RowsImprove(node, stored)
            && Consistent(stored) && AllActive(stored) && NeighborsIntroduced(stored)
    ensures OnlyRowGains(node.dvt, UpdatedDvt(rd, node, src, rt), src, rt)
  {
    StoredIsConsistent(rd, node, src, rt);
    ActiveErasesNothing(rd, node, src, rt);
    var dvt := UpdatedDvt(rd, node, src, rt);
    if Writes(rd, node, src) {
      AddingARowEntry(node, src, rt, dvt);
    }
  }

  lemma AddingARowEntry(node: Node, src: Addr, rt: Entry, dvt: Dvt)
    requires Settled(node) && rt.state == ACTIVE && rt.dst != src
    requires src in node.dvt && rt.dst in node.dvt[src] ==> rt.hop <= node.dvt[src][rt.dst].hop
    requires dvt == node.dvt[src := RowOf(node.dvt, src)[rt.dst := rt]]
    ensures OnlyRowGains(node.dvt, dvt, src, rt)
    ensures RowsImprove(node, node.(dvt := dvt))
    ensures AllActive(node.(dvt := dvt)) && NeighborsIntroduced(node.(dvt := dvt))
  {
  }

  lemma UpdateSettles(rd: Reading, node: Node, src: Addr, upd: Update)
    requires Settled(node) && upd.state == ACTIVE && upd.dst != src
    requires src in node.dvt && upd.dst in node.dvt[src] ==> Narrow(upd.hop) <= node.dvt[src][upd.dst].hop
    ensures var o := OnUpdate(rd, node, src, upd);
            && Settled(o.node)
            && (rd.installsBetter ==> HopsDoNotRise(node.ft, o.node.ft) && ShortestOnOffer(o.node))
            && AllFromTable(o.node, o.sends, Members(node.nbrs))
            && o.node.dvt == UpdatedDvt(rd, node, src, RouteFrom(src, upd))
            && OnlyRowGains(node.dvt, o.node.dvt, src, RouteFrom(src, upd))
  {
    var rt := RouteFrom(src, upd);
    StoredImproves(rd, node, src, rt);
    RecomputedIsSettled(rd, node, Stored(rd, node, src, rt));
    UpdateSendsFromTable(rd, node, src, upd);
  }

  /** In a settled node a repeated Hello changes nothing at all. */
  lemma RepeatedHelloIsIdle(rd: Reading, node: Node, v: Addr, failed: seq<Addr>)
    requires Settled(node) && v in node.nbrs
    ensures OnHello(rd, node, v, failed) == Outcome(node, [])
  {
    assert node.dvt[v][v].(hop := 1, nextHop := v) == node.dvt[v][v];
    assert node.dvt[v][v := node.dvt[v][v]] == node.dvt[v];
    assert node.dvt[v := node.dvt[v]] == node.dvt;
  }

  lemma IntroductionImproves(node: Node, v: Addr)
    requires Settled(node) && v !in node.nbrs
    ensures var intro := Introduced(node.(nbrs := node.nbrs + [v]), v);
            && RowsImprove(node, intro)
            && Consistent(intro) && AllActive(intro) && NeighborsIntroduced(intro)
            && forall n, d :: n in intro.dvt && d in intro.dvt[n] ==>
                                || (n in node.dvt && d in node.dvt[n] && intro.dvt[n][d] == node.dvt[n][d])
                                || (n == v && d == v)
  {
    var intro := Introduced(node.(nbrs := node.nbrs + [v]), v);
    assert Consistent(intro);
    assert AllActive(intro);
  }

  lemma FirstHello(rd: Reading, node: Node, v: Addr)
    requires Settled(node) && v !in node.nbrs
    ensures var node' := Computed(rd, Introduced(node.(nbrs := node.nbrs + [v]), v));
            OnHello(rd, node, v, []) == Outcome(node', FullTable(node', SortedKeys(node'.ft.Keys), v))
  {
    NewcomerHello(rd, node, v);
  }

  /** The Hello of a node without an entry in its own row, when no neighbour is found closed. */
  lemma NewcomerHello(rd: Reading, node: Node, v: Addr)
    requires v !in node.nbrs && v !in RowOf(node.dvt, v)
    ensures var node' := Computed(rd, Introduced(node.(nbrs := node.nbrs + [v]), v));
            OnHello(rd, node, v, []) == Outcome(node', FullTable(node', SortedKeys(node'.ft.Keys), v))
  {
    var listed := node.(nbrs := node.nbrs + [v]);
    assert Greeted(rd, node, v, []) == Outcome(listed, []) by {
      FilterAll(listed.nbrs, NotAmong([]));
    }
    var node' := Computed(rd, Introduced(listed, v));
    var table := FullTable(node', SortedKeys(node'.ft.Keys), v);
    assert [] + table == table;
  }

  lemma HelloSettles(rd: Reading, node: Node, v: Addr)
    requires Settled(node)
    requires rd.installsBetter ==> ShortestOnOffer(node)
    ensures var o := OnHello(rd, node, v, []);
            && Settled(o.node)
            && (rd.installsBetter ==> HopsDoNotRise(node.ft, o.node.ft) && ShortestOnOffer(o.node))
            && AllFromTable(o.node, o.sends, {v})
            && forall n, d :: n in o.node.dvt && d in o.node.dvt[n] ==>
                                || (n in node.dvt && d in node.dvt[n] && o.node.dvt[n][d] == node.dvt[n][d])
                                || (n == v && d == v)
  {
    if v in node.nbrs {
      RepeatedHelloIsIdle(rd, node, v, []);
    } else {
      FirstHello(rd, node, v);
      IntroductionImproves(node, v);
      var intro := Introduced(node.(nbrs := node.nbrs + [v]), v);
      RecomputedIsSettled(rd, node, intro);
      var node' := Computed(rd, intro);
      FullTableFromTable(node', SortedKeys(node'.ft.Keys), v);
    }
  }

  // ---------- the network ----------

  /** What `u` stores for `d` from `v` is one more than anything `v` has said since or says now. */
  ghost predicate RowFits(net: Net, v: Addr, u: Addr, d: Addr, hop: nat) {
    d != v ==>
      && v in net.nodes && d in net.nodes[v].ft
      && hop >= net.nodes[v].ft[d].hop + 1
      && forall m :: m in net.chan(v, u) && m.dst == d ==> hop >= m.hop + 1
  }

  /** Successive messages about one destination do not rise, and none is below the sender's current hop count. */
  ghost predicate ChannelFits(net: Net, v: Addr, u: Addr) {
    && (forall m :: m in net.chan(v, u) ==>
                      && m.state == ACTIVE
                      && v in net.nodes && m.dst in net.nodes[v].ft
                      && m.hop >= net.nodes[v].ft[m.dst].hop)
    && (forall i, j :: 0 <= i < j < |net.chan(v, u)| && net.chan(v, u)[i].dst == net.chan(v, u)[j].dst ==>
                         net.chan(v, u)[i].hop >= net.chan(v, u)[j].hop)
  }

  ghost predicate Ordered(net: Net) {
    && (forall u, v, d :: u in net.nodes && v in net.nodes[u].dvt && d in net.nodes[u].dvt[v] ==>
                            RowFits(net, v, u, d, net.nodes[u].dvt[v][d].hop))
    && (forall v, u :: ChannelFits(net, v, u))
  }

  ghost predicate Flowing(rd: Reading, net: Net) {
    && Sound(net)
    && Ordered(net)
    && forall u :: u in net.nodes ==> Settled(net.nodes[u]) && (rd.installsBetter ==> ShortestOnOffer(net.nodes[u]))
  }

  /** No node's hop count to any destination goes up. */
  ghost predicate NoHopRises(net: Net, net': Net) {
    forall u :: u in net.nodes ==> u in net'.nodes && HopsDoNotRise(net.nodes[u].ft, net'.nodes[u].ft)
  }

  lemma PostedChannelFits(net: Net, u: Addr, o: Outcome, y: Addr)
    requires ChannelFits(net, u, y) && u in net.nodes
    requires HopsDoNotRise(net.nodes[u].ft, o.node.ft)
    requires Settled(o.node)
    requires forall s :: s in o.sends ==> FromTable(o.node, s)
    ensures ChannelFits(Act(net, u, o), u, y)
  {
    var old_, new_ := net.chan(u, y), To(o.sends, y);
    var net' := Act(net, u, o);
    assert net'.chan(u, y) == old_ + new_;
    forall m | m in new_
      ensures m.state == ACTIVE && m.dst in o.node.ft && m.hop == o.node.ft[m.dst].hop
    {
      assert FromTable(o.node, Send(y, m));
    }
    forall i, j | 0 <= i < j < |old_ + new_| && (old_ + new_)[i].dst == (old_ + new_)[j].dst
      ensures (old_ + new_)[i].hop >= (old_ + new_)[j].hop
    {
      if j >= |old_| {
        assert (old_ + new_)[j] in new_;
        assert (old_ + new_)[i] in old_ || (old_ + new_)[i] in new_;
      }
    }
  }

  lemma PostedRowFits(net: Net, u: Addr, o: Outcome, v: Addr, y: Addr, d: Addr, hop: nat)
    requires RowFits(net, v, y, d, hop) && u in net.nodes
    requires HopsDoNotRise(net.nodes[u].ft, o.node.ft)
    requires forall s :: s in o.sends ==> FromTable(o.node, s)
    ensures RowFits(Act(net, u, o), v, y, d, hop)
  {
    if v == u && d != v {
      var net' := Act(net, u, o);
      forall m | m in net'.chan(v, y) && m.dst == d ensures hop >= m.hop + 1 {
        if m !in net.chan(v, y) {
          assert FromTable(o.node, Send(y, m));
        }
      }
    }
  }

  /** A node that settles without a rise, and sends only its own routes, keeps every link ordered. */
  lemma ActIsOrdered(net: Net, u: Addr, o: Outcome)
    requires Ordered(net) && u in net.nodes
    requires Settled(o.node)
    requires HopsDoNotRise(net.nodes[u].ft, o.node.ft)
    requires forall s :: s in o.sends ==> FromTable(o.node, s)
    requires forall v, d :: v in o.node.dvt && d in o.node.dvt[v] ==> RowFits(net, v, u, d, o.node.dvt[v][d].hop)
    ensures Ordered(Act(net, u, o))
  {
    var net' := Act(net, u, o);
    forall v, y ensures ChannelFits(net', v, y) {
      assert ChannelFits(net, v, y);
      if v == u {
        PostedChannelFits(net, u, o, y);
      }
    }
    forall y, v, d | y in net'.nodes && v in net'.nodes[y].dvt && d in net'.nodes[y].dvt[v]
      ensures RowFits(net', v, y, d, net'.nodes[y].dvt[v][d].hop)
    {
      PostedRowFits(net, u, o, v, y, d, net'.nodes[y].dvt[v][d].hop);
    }
  }

  lemma RemovedChannelFits(net: Net, net': Net, v: Addr, u: Addr, i: nat)
    requires ChannelFits(net, v, u) && i < |net.chan(v, u)|
    requires net'.nodes == net.nodes && net'.chan(v, u) == net.chan(v, u)[..i] + net.chan(v, u)[i + 1..]
    ensures ChannelFits(net', v, u)
  {
    var s, t := net.chan(v, u), net'.chan(v, u);
    forall a, b | 0 <= a < b < |t| && t[a].dst == t[b].dst ensures t[a].hop >= t[b].hop {
      assert t[a] == s[if a < i then a else a + 1];
      assert t[b] == s[if b < i then b else b + 1];
    }
  }

  lemma RemovedIsOrdered(net: Net, net': Net, v: Addr, u: Addr, i: nat)
    requires Ordered(net)
    requires net'.nodes == net.nodes && net'.chan == Removed(net.chan, v, u, i)
    ensures Ordered(net')
  {
    forall x, y ensures ChannelFits(net', x, y) {
      assert ChannelFits(net, x, y);
      if x == v && y == u && i < |net.chan(x, y)| {
        RemovedChannelFits(net, net', v, u, i);
      } else {
        assert net'.chan(x, y) == net.chan(x, y);
      }
    }
    forall y, x, d | y in net'.nodes && x in net'.nodes[y].dvt && d in net'.nodes[y].dvt[x]
      ensures RowFits(net', x, y, d, net'.nodes[y].dvt[x][d].hop)
    {
      assert RowFits(net, x, y, d, net.nodes[y].dvt[x][d].hop);
      assert forall m :: m in net'.chan(x, y) ==> m in net.chan(x, y);
    }
  }

  /** The message received is itself an upper bound for what follows it on the link. */
  lemma ReceivedRowFits(net: Net, v: Addr, u: Addr)
    requires Ordered(net) && CanDeliver(net, v, u)
    ensures var m := net.chan(v, u)[0]; RowFits(Received(net, v, u), v, u, m.dst, m.hop + 1)
  {
    assert ChannelFits(net, v, u);
    var m := net.chan(v, u)[0];
    assert m in net.chan(v, u);
  }

  lemma OldRowStillFits(net: Net, v: Addr, u: Addr, n: Addr, d: Addr)
    requires Ordered(net) && CanDeliver(net, v, u)
    requires n in net.nodes[u].dvt && d in net.nodes[u].dvt[n]
    ensures RowFits(Received(net, v, u), n, u, d, net.nodes[u].dvt[n][d].hop)
  {
    assert RowFits(net, n, u, d, net.nodes[u].dvt[n][d].hop);
    assert forall m :: m in Received(net, v, u).chan(n, u) ==> m in net.chan(n, u);
  }

  lemma DeliveredRowsFit(net: Net, v: Addr, u: Addr, dvt': Dvt)
    requires Ordered(net) && CanDeliver(net, v, u) && Narrow(net.chan(v, u)[0].hop) == net.chan(v, u)[0].hop + 1
    requires OnlyRowGains(net.nodes[u].dvt, dvt', v, RouteFrom(v, net.chan(v, u)[0]))
    ensures forall n, d :: n in dvt' && d in dvt'[n] ==> RowFits(Received(net, v, u), n, u, d, dvt'[n][d].hop)
  {
    var dvt := net.nodes[u].dvt;
    ReceivedRowFits(net, v, u);
    forall n, d | n in dvt' && d in dvt'[n] ensures RowFits(Received(net, v, u), n, u, d, dvt'[n][d].hop) {
      if n in dvt && d in dvt[n] && dvt'[n][d] == dvt[n][d] {
        OldRowStillFits(net, v, u, n, d);
      }
    }
  }

  /** What the invariants say of the message at the head of a channel. */
  lemma DeliveredUpdate(rd: Reading, net: Net, v: Addr, u: Addr)
    requires Flowing(rd, net) && CanDeliver(net, v, u)
    requires Narrow(net.chan(v, u)[0].hop) == net.chan(v, u)[0].hop + 1
    ensures var m, node := net.chan(v, u)[0], net.nodes[u];
            && m.state == ACTIVE && m.dst != v && m.dst != u
            && (v in node.dvt && m.dst in node.dvt[v] ==> Narrow(m.hop) <= node.dvt[v][m.dst].hop)
  {
    var m, node := net.chan(v, u)[0], net.nodes[u];
    assert m in net.chan(v, u);
    assert MessageSound(net, v, u, m);
    assert ChannelFits(net, v, u);
    if v in node.dvt && m.dst in node.dvt[v] {
      assert RowFits(net, v, u, m.dst, node.dvt[v][m.dst].hop);
    }
  }

  lemma ActRises(net: Net, u: Addr, o: Outcome)
    requires u in net.nodes
    ensures NoHopRises(net, Act(net, u, o)) <==> HopsDoNotRise(net.nodes[u].ft, o.node.ft)
  {
  }

  /** One node acts; the rest of the network stands still. */
  lemma ActFlows(rd: Reading, net: Net, u: Addr, o: Outcome)
    requires Flowing(rd, net) && u in net.nodes
    requires Sound(Act(net, u, o)) && Settled(o.node)
    requires rd.installsBetter ==> ShortestOnOffer(o.node)
    requires HopsDoNotRise(net.nodes[u].ft, o.node.ft)
    requires forall s :: s in o.sends ==> FromTable(o.node, s)
    requires forall n, d :: n in o.node.dvt && d in o.node.dvt[n] ==> RowFits(net, n, u, d, o.node.dvt[n][d].hop)
    ensures Flowing(rd, Act(net, u, o)) && NoHopRises(net, Act(net, u, o))
  {
    ActRises(net, u, o);
    ActIsOrdered(net, u, o);
  }

  lemma ReceivedFlows(rd: Reading, net: Net, v: Addr, u: Addr)
    requires Flowing(rd, net) && CanDeliver(net, v, u)
    ensures Flowing(rd, Received(net, v, u))
  {
    RemovedIsOrdered(net, Received(net, v, u), v, u, 0);
    ReceivedIsSound(net, v, u);
  }

  lemma DeliverFlows(rd: Reading, net: Net, v: Addr, u: Addr)
    requires Flowing(rd, net) && CanDeliver(net, v, u)
    requires var net' := Step(rd, net, Deliver(v, u)); !net'.wrapped && (rd.installsBetter || NoHopRises(net, net'))
    ensures var net' := Step(rd, net, Deliver(v, u)); Flowing(rd, net') && NoHopRises(net, net')
  {
    var mid, m, node := Received(net, v, u), net.chan(v, u)[0], net.nodes[u];
    var o := OnUpdate(rd, node, v, m);
    DeliveredUpdate(rd, net, v, u);
    UpdateSettles(rd, node, v, m);
    ActRises(net, u, o);
    ReceivedFlows(rd, net, v, u);
    DeliveredRowsFit(net, v, u, o.node.dvt);
    DeliverIsSound(rd, net, v, u);
    ActFlows(rd, mid, u, o);
  }

  lemma GreetedRowsFit(net: Net, v: Addr, u: Addr, dvt': Dvt)
    requires Ordered(net) && u in net.nodes
    requires forall n, d :: n in dvt' && d in dvt'[n] ==>
                              || (n in net.nodes[u].dvt && d in net.nodes[u].dvt[n] &&
                                  dvt'[n][d] == net.nodes[u].dvt[n][d])
                              || (n == v && d == v)
    ensures forall n, d :: n in dvt' && d in dvt'[n] ==> RowFits(net, n, u, d, dvt'[n][d].hop)
  {
    forall n, d | n in dvt' && d in dvt'[n] ensures RowFits(net, n, u, d, dvt'[n][d].hop) {
      if !(n == v && d == v) {
        assert RowFits(net, n, u, d, net.nodes[u].dvt[n][d].hop);
      }
    }
  }

  lemma HelloFlows(rd: Reading, net: Net, v: Addr, u: Addr)
    requires Flowing(rd, net) && CanGreet(net, v, u, [])
    requires rd.installsBetter || NoHopRises(net, Step(rd, net, Hello(v, u, [])))
    ensures var net' := Step(rd, net, Hello(v, u, [])); Flowing(rd, net') && NoHopRises(net, net')
  {
    var node := net.nodes[u];
    var o := OnHello(rd, node, v, []);
    assert Step(rd, net, Hello(v, u, [])) == Act(net, u, o);
    ActRises(net, u, o);
    assert Sound(Act(net, u, o)) by {
      HelloIsSound(rd, net, v, u, []);
    }
    HelloSettles(rd, node, v);
    GreetedRowsFit(net, v, u, o.node.dvt);
    ActFlows(rd, net, u, o);
  }

  lemma TimeoutSendsFromTable(node: Node, ne: Addr, dst: Addr)
    requires Consistent(node) && ne != dst
    ensures forall s :: s in TimeoutSends(node, ne, dst) ==> FromTable(node, s)
  {
  }

  lemma ResendFlows(rd: Reading, net: Net, u: Addr, sends: seq<Send>)
    requires Flowing(rd, net) && u in net.nodes
    requires Sound(Act(net, u, Outcome(net.nodes[u], sends)))
    requires forall s :: s in sends ==> FromTable(net.nodes[u], s)
    ensures var net' := Act(net, u, Outcome(net.nodes[u], sends)); Flowing(rd, net') && NoHopRises(net, net')
  {
    var node := net.nodes[u];
    forall n, d | n in node.dvt && d in node.dvt[n] ensures RowFits(net, n, u, d, node.dvt[n][d].hop) {
    }
    ActFlows(rd, net, u, Outcome(node, sends));
  }

  lemma TimeoutFlows(rd: Reading, net: Net, u: Addr, ne: Addr, dst: Addr)
    requires Flowing(rd, net) && u in net.nodes && ne != dst
    ensures var net' := Act(net, u, Outcome(net.nodes[u], TimeoutSends(net.nodes[u], ne, dst)));
            Flowing(rd, net') && NoHopRises(net, net')
  {
    assert Settled(net.nodes[u]);
    TimeoutSendsFromTable(net.nodes[u], ne, dst);
    TimeoutIsSound(net, u, ne, dst);
    ResendFlows(rd, net, u, TimeoutSends(net.nodes[u], ne, dst));
  }

  lemma QuietFlows(rd: Reading, net: Net, net': Net)
    requires Flowing(rd, net)
    requires net'.nodes == net.nodes && Sound(net') && Ordered(net')
    ensures Flowing(rd, net') && NoHopRises(net, net')
  {
  }

  lemma LinkUpIsOrdered(net: Net, net': Net)
    requires Ordered(net) && net'.nodes == net.nodes && net'.chan == net.chan
    ensures Ordered(net')
  {
    forall v, u ensures ChannelFits(net', v, u) {
      assert ChannelFits(net, v, u);
    }
    forall u, v, d | u in net'.nodes && v in net'.nodes[u].dvt && d in net'.nodes[u].dvt[v]
      ensures RowFits(net', v, u, d, net'.nodes[u].dvt[v][d].hop)
    {
      assert RowFits(net, v, u, d, net.nodes[u].dvt[v][d].hop);
    }
  }

  lemma LinkUpFlows(rd: Reading, net: Net, u: Addr, v: Addr)
    requires Flowing(rd, net)
    ensures var net' := Step(rd, net, LinkUp(u, v)); Flowing(rd, net') && NoHopRises(net, net')
  {
    StepIsSound(rd, net, LinkUp(u, v));
    var net' := Step(rd, net, LinkUp(u, v));
    LinkUpIsOrdered(net, net');
    QuietFlows(rd, net, net');
  }

  lemma LoseFlows(rd: Reading, net: Net, v: Addr, u: Addr, i: nat)
    requires Flowing(rd, net)
    ensures var net' := Step(rd, net, Lose(v, u, i)); Flowing(rd, net') && NoHopRises(net, net')
  {
    StepIsSound(rd, net, Lose(v, u, i));
    var net' := Step(rd, net, Lose(v, u, i));
    RemovedIsOrdered(net, net', v, u, i);
    QuietFlows(rd, net, net');
  }

  lemma IdleFlows(net: Net)
    ensures NoHopRises(net, net)
  {
  }

  lemma StepFlows(rd: Reading, net: Net, e: Event)
    requires Flowing(rd, net) && FailureFreeEvent(e)
    requires var net' := Step(rd, net, e); !net'.wrapped && (rd.installsBetter || NoHopRises(net, net'))
    ensures var net' := Step(rd, net, e); Flowing(rd, net') && NoHopRises(net, net')
  {
    IdleFlows(net);
    match e
    case LinkUp(u, v) => LinkUpFlows(rd, net, u, v);
    case Hello(v, u, failed) => if CanGreet(net, v, u, []) { HelloFlows(rd, net, v, u); }
    case Deliver(v, u) => if CanDeliver(net, v, u) { DeliverFlows(rd, net, v, u); }
    case Lose(v, u, i) => LoseFlows(rd, net, v, u, i);
    case Timeout(u, ne, dst) => if u in net.nodes && ne != dst { TimeoutFlows(rd, net, u, ne, dst); }
  }

  // ---------- whole runs ----------

  /** No event of the run makes a hop count rise. */
  ghost predicate NeverRises(rd: Reading, net: Net, events: seq<Event>) {
    events != [] ==>
      && NeverRises(rd, net, events[..|events| - 1])
      && NoHopRises(Run(rd, net, events[..|events| - 1]), Run(rd, net, events))
  }

  lemma WrappedStays(rd: Reading, net: Net, e: Event)
    ensures net.wrapped ==> Step(rd, net, e).wrapped
  {
  }

  /**
   * The ordering of every link holds throughout every failure-free run in which no hop count wraps or rises; when the
   * route order is the documented one, none can rise.
   */
  lemma {:induction false} EveryRunFlows(rd: Reading, addrs: set<Addr>, events: seq<Event>)
    requires FailureFree(events) && !Run(rd, Initial(addrs), events).wrapped
    requires rd.installsBetter || NeverRises(rd, Initial(addrs), events)
    ensures Flowing(rd, Run(rd, Initial(addrs), events))
    ensures NeverRises(rd, Initial(addrs), events)
  {
    var net := Initial(addrs);
    if events != [] {
      var init, e := events[..|events| - 1], events[|events| - 1];
      WrappedStays(rd, Run(rd, net, init), e);
      EveryRunFlows(rd, addrs, init);
      StepFlows(rd, Run(rd, net, init), e);
    } else {
      EveryRunIsSound(rd, addrs, events);
    }
  }

  /** Following the forwarding tables from `u` arrives at `d` within `fuel` hops, each over a link that has been up. */
  ghost predicate Arrives(net: Net, u: Addr, d: Addr, fuel: nat)
    decreases fuel
  {
    || u == d
    || (fuel > 0 && u in net.nodes && d in net.nodes[u].ft &&
        (u, net.nodes[u].ft[d].nextHop) in net.links && Arrives(net, net.nodes[u].ft[d].nextHop, d, fuel - 1))
  }

  /** The next hop is the destination itself, or is strictly closer to it. */
  ghost predicate NextHopIsCloser(net: Net, u: Addr, d: Addr)
    requires u in net.nodes && d in net.nodes[u].ft
  {
    var n := net.nodes[u].ft[d].nextHop;
    n != d ==> n in net.nodes && d in net.nodes[n].ft && net.nodes[n].ft[d].hop < net.nodes[u].ft[d].hop
  }

  lemma FlowingIsCloser(rd: Reading, net: Net, u: Addr, d: Addr)
    requires Flowing(rd, net)
    requires u in net.nodes && d in net.nodes[u].ft
    ensures NextHopIsCloser(net, u, d) && net.nodes[u].ft[d].hop > 0
    ensures (u, net.nodes[u].ft[d].nextHop) in net.links
  {
    var node := net.nodes[u];
    var n := node.ft[d].nextHop;
    assert Settled(node);
    assert RowFits(net, n, u, d, node.dvt[n][d].hop);
    assert n in LinkedTo(net, u);
  }

  lemma {:induction false} FlowingArrives(rd: Reading, net: Net, u: Addr, d: Addr, fuel: nat)
    requires Flowing(rd, net)
    requires u in net.nodes && d in net.nodes[u].ft && net.nodes[u].ft[d].hop <= fuel
    ensures Arrives(net, u, d, fuel)
    decreases fuel
  {
    FlowingIsCloser(rd, net, u, d);
    var n := net.nodes[u].ft[d].nextHop;
    if n != d {
      FlowingArrives(rd, net, n, d, fuel - 1);
    }
  }

  /**
   * Loop-free delivery.  In every failure-free run in which no hop count wraps, and -- unless the route order is the
   * documented one -- no hop count rises, every route leads to its destination within the hops it claims.
   */
  lemma EveryRouteArrives(rd: Reading, addrs: set<Addr>, events: seq<Event>, u: Addr, d: Addr)
    requires FailureFree(events) && !Run(rd, Initial(addrs), events).wrapped
    requires rd.installsBetter || NeverRises(rd, Initial(addrs), events)
    ensures var net := Run(rd, Initial(addrs), events);
            u in net.nodes && d in net.nodes[u].ft ==>
              NextHopIsCloser(net, u, d) && Arrives(net, u, d, net.nodes[u].ft[d].hop)
  {
    EveryRunFlows(rd, addrs, events);
    var net := Run(rd, Initial(addrs), events);
    if u in net.nodes && d in net.nodes[u].ft {
      FlowingIsCloser(rd, net, u, d);
      FlowingArrives(rd, net, u, d, net.nodes[u].ft[d].hop);
    }
  }
}
