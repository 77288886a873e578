/** Reachable runs in which a route changes and a neighbour that is due the change is not told. */
module Unreported {
  import opened Collections
  import opened Routes
  import opened Tables
  import opened Selection
  import opened Changes
  import opened NodeSteps
  import opened Currency
  import opened UpdateEffects
  import opened Greetings
  import opened LoopFreedom
  import opened Network

  /** What `u` sends when `e` happens. */
  function SendsOf(rd: Reading, net: Net, e: Event, u: Addr): seq<Send> {
    match e
    case Hello(v, x, failed) => if x == u && CanGreet(net, v, x, failed) then OnHello(rd, net.nodes[x], v, failed).sends else []
    case Deliver(v, x) =>
      if x == u && CanDeliver(net, v, x) then OnUpdate(rd, net.nodes[x], v, net.chan(v, x)[0]).sends else []
    case Timeout(x, ne, dst) => if x == u && x in net.nodes && ne != dst then TimeoutSends(net.nodes[x], ne, dst) else []
    case Purge(x, failed) => if x == u && CanPurge(net, x, failed) then OnPurge(rd, net.nodes[x], failed).sends else []
    case _ => []
  }

  /** Everything `u` sent during a run, oldest first. */
  function SentBy(rd: Reading, net: Net, events: seq<Event>, u: Addr): seq<Send> {
    if events == [] then [] else
    var init := events[..|events| - 1];
    SentBy(rd, net, init, u) + SendsOf(rd, Run(rd, net, init), events[|events| - 1], u)
  }

  // ---------- small tables ----------

  function Direct(x: Addr): Entry {
    Entry(x, x, 1, ACTIVE)
  }

  function Row1(x: Addr): Row {
    map[x := Direct(x)]
  }

  function Fresh(x: Addr): Node {
    Node(x, [], map[], map[])
  }

  /** `x` knows only its neighbour `a`, which may have been purged. */
  function Pair(x: Addr, nbrs: seq<Addr>, a: Addr): Node {
    Node(x, nbrs, map[a := Row1(a)], Row1(a))
  }

  /** `x` knows `a` and `b`, each as a direct neighbour. */
  function Trio(x: Addr, nbrs: seq<Addr>, a: Addr, b: Addr): Node {
    Node(x, nbrs, map[a := Row1(a), b := Row1(b)], map[a := Direct(a), b := Direct(b)])
  }

  lemma {:induction false} NobodyTold(node: Node, keys: seq<Addr>, ne: Addr)
    requires forall k :: k in keys ==> k in node.ft && node.ft[k].dst == k && !Told(node, ne, k)
    ensures FullTable(node, keys, ne) == []
  {
    if keys != [] {
      NobodyTold(node, keys[..|keys| - 1], ne);
    }
  }

  /** Of the whole table a newcomer is told about `d` only. */
  lemma {:induction false} OnlyOneTold(node: Node, keys: seq<Addr>, ne: Addr, d: Addr)
    requires Distinct(keys) && forall k :: k in keys ==> k in node.ft && node.ft[k].dst == k && (Told(node, ne, k) <==> k == d)
    ensures FullTable(node, keys, ne) == if d in keys then [Send(ne, Header(node.main, node.ft[d]))] else []
  {
    if keys != [] {
      var init, k := keys[..|keys| - 1], keys[|keys| - 1];
      OnlyOneTold(node, init, ne, d);
      assert keys == init + [k] && k !in init;
      if k == d {
        NobodyTold(node, init, ne);
      }
    }
  }

  /** The first Hello a node ever hears. */
  lemma FirstNeighbor(rd: Reading, x: Addr, a: Addr)
    ensures OnHello(rd, Fresh(x), a, []) == Outcome(Pair(x, [a], a), [])
  {
    NewcomerHello(rd, Fresh(x), a);
    var ft := ComputedFt(rd, Greeting(Fresh(x), a));
    forall d ensures Lookup(ft, d) == Lookup(Row1(a), d) {
      assert JustComputed(rd, Fresh(x));
      NewcomerCell(rd, Fresh(x), a, d);
    }
    SameRows(ft, Row1(a));
    NobodyTold(Pair(x, [a], a), SortedKeys(Row1(a).Keys), a);
  }

  /** A table is just computed if each route is the only candidate, or has none. */
  lemma LonelyIsComputed(rd: Reading, node: Node)
    requires forall d :: d in HeldKeys(node.nbrs, node.dvt) ==> d in node.ft
    requires forall d :: d in node.ft ==> Refreshed(node.dvt, node.ft[d], d) == node.ft[d]
    requires forall n, d :: Holds(node.nbrs, node.dvt, n, d) ==> node.dvt[n][d] == node.ft[d]
    ensures JustComputed(rd, node)
  {
    forall d ensures Lookup(ComputedFt(rd, node), d) == Lookup(node.ft, d) {
      ComputedCell(rd, node, d);
      if d in node.ft {
        var e := node.ft[d];
        BeatsIsStrictPartialOrder(rd, e, e, e);
        SelectStays(rd, e, Candidates(node.nbrs, node.dvt, d));
      }
    }
    SameRows(ComputedFt(rd, node), node.ft);
  }

  lemma PairIsComputed(rd: Reading, x: Addr, nbrs: seq<Addr>, a: Addr)
    requires nbrs == [] || nbrs == [a]
    ensures Consistent(Pair(x, nbrs, a)) && JustComputed(rd, Pair(x, nbrs, a))
  {
    LonelyIsComputed(rd, Pair(x, nbrs, a));
  }

  lemma SecondNeighborTable(rd: Reading, x: Addr, nbrs: seq<Addr>, a: Addr, b: Addr)
    requires (nbrs == [] || nbrs == [a]) && a != b
    ensures Computed(rd, Greeting(Pair(x, nbrs, a), b)) == Trio(x, nbrs + [b], a, b)
  {
    var node, node' := Pair(x, nbrs, a), Trio(x, nbrs + [b], a, b);
    PairIsComputed(rd, x, nbrs, a);
    var ft := ComputedFt(rd, Greeting(node, b));
    forall d ensures Lookup(ft, d) == Lookup(node'.ft, d) {
      NewcomerCell(rd, node, b, d);
    }
    SameRows(ft, node'.ft);
    assert Greeting(node, b).dvt == node'.dvt;
  }

  /** The first Hello of a second neighbour. */
  lemma SecondNeighbor(rd: Reading, x: Addr, nbrs: seq<Addr>, a: Addr, b: Addr)
    requires (nbrs == [] || nbrs == [a]) && a != b && x != a && x != b && a != LOOPBACK && a != UNSPECIFIED
    ensures OnHello(rd, Pair(x, nbrs, a), b, []) ==
            Outcome(Trio(x, nbrs + [b], a, b), [Send(b, Update(x, a, 1, ACTIVE))])
  {
    SecondNeighborTable(rd, x, nbrs, a, b);
    NewcomerHello(rd, Pair(x, nbrs, a), b);
    ToldOfFirst(x, nbrs + [b], a, b);
  }

  lemma ToldOfFirst(x: Addr, nbrs: seq<Addr>, a: Addr, b: Addr)
    requires a != b && x != a && x != b && a != LOOPBACK && a != UNSPECIFIED
    ensures var node := Trio(x, nbrs, a, b);
            FullTable(node, SortedKeys(node.ft.Keys), b) == [Send(b, Update(x, a, 1, ACTIVE))]
  {
    var node := Trio(x, nbrs, a, b);
    var keys := SortedKeys(node.ft.Keys);
    assert forall k :: k in keys <==> k == a || k == b;
    OnlyOneTold(node, keys, b, a);
  }

  // ---------- a newcomer nobody hears about ----------

  /**
   * Under every reading: `u` hears `w`, then `v` for the first time.  Up to then `w` was current; now it is not, because
   * it is not told of the route to `v`.
   */
  lemma NewcomerGoesUnreported(rd: Reading, u: Addr, v: Addr, w: Addr)
    requires u != v && u != w && v != w
    ensures var net, events := Initial({u, v, w}), [LinkUp(u, w), LinkUp(u, v), Hello(w, u, [])];
            var before, after := Run(rd, net, events), Run(rd, net, events + [Hello(v, u, [])]);
            && u in before.nodes && CanGreet(before, v, u, []) && w in before.nodes[u].nbrs
            && CurrentAt(before.nodes[u], SentBy(rd, net, events, u), w)
            && u in after.nodes
            && !CurrentAt(after.nodes[u], SentBy(rd, net, events + [Hello(v, u, [])], u), w)
  {
    var net := Initial({u, v, w});
    var before := HearsOne(rd, u, v, w);
    var node := Pair(u, [w], w);
    Unroll(rd, net, [LinkUp(u, w), LinkUp(u, v), Hello(w, u, [])], Hello(v, u, []), u, before, []);
    NewcomerUnreported(rd, u, v, w);
    assert Step(rd, before, Hello(v, u, [])).nodes[u] == OnHello(rd, node, v, []).node;
  }

  lemma NewcomerUnreported(rd: Reading, u: Addr, v: Addr, w: Addr)
    requires u != v && u != w && v != w
    ensures var node := Pair(u, [w], w);
            var o := OnHello(rd, node, v, []);
            CurrentAt(node, [], w) && !CurrentAt(o.node, [] + o.sends, w)
  {
    PairFacts(u, v, w);
    PairIsComputed(rd, u, [w], w);
    UnknownNewcomerGoesUnreported(rd, Pair(u, [w], w), [], v, w);
  }

  lemma PairFacts(u: Addr, v: Addr, w: Addr)
    requires v != w
    ensures var node := Pair(u, [w], w);
            && w in node.nbrs && v !in node.nbrs && v !in RowOf(node.dvt, v) && v !in node.ft
            && CurrentAt(node, [], w) && SentOnlyRoutes(node, [], w)
  {
  }

  /** `u` has both others in range, and has heard `w`. */
  lemma HearsOne(rd: Reading, u: Addr, v: Addr, w: Addr) returns (net3: Net)
    requires u != v && u != w && v != w
    ensures var net, events := Initial({u, v, w}), [LinkUp(u, w), LinkUp(u, v), Hello(w, u, [])];
            && net3 == Run(rd, net, events) && SentBy(rd, net, events, u) == []
            && u in net3.nodes && net3.nodes[u] == Pair(u, [w], w) && (u, v) in net3.links
  {
    var net, e3 := Initial({u, v, w}), Hello(w, u, []);
    var net2 := TwoLinks(rd, u, v, w);
    Unroll(rd, net, [LinkUp(u, w), LinkUp(u, v)], e3, u, net2, []);
    assert [LinkUp(u, w), LinkUp(u, v)] + [e3] == [LinkUp(u, w), LinkUp(u, v), e3];
    FirstNeighbor(rd, u, w);
    assert CanGreet(net2, w, u, []);
    net3 := Step(rd, net2, e3);
  }

  lemma TwoLinks(rd: Reading, u: Addr, v: Addr, w: Addr) returns (net2: Net)
    requires u != v && u != w && v != w
    ensures var net, events := Initial({u, v, w}), [LinkUp(u, w), LinkUp(u, v)];
            && net2 == Run(rd, net, events) && SentBy(rd, net, events, u) == []
            && u in net2.nodes && net2.nodes[u] == Fresh(u) && (u, v) in net2.links && (u, w) in net2.links
  {
    var net, e1, e2 := Initial({u, v, w}), LinkUp(u, w), LinkUp(u, v);
    Unroll(rd, net, [], e1, u, net, []);
    var net1 := Step(rd, net, e1);
    assert [] + [e1] == [e1] && SentBy(rd, net, [e1], u) == [];
    Unroll(rd, net, [e1], e2, u, net1, []);
    assert [e1] + [e2] == [e1, e2];
    net2 := Step(rd, net1, e2);
  }

  lemma Unroll(rd: Reading, net: Net, events: seq<Event>, e: Event, u: Addr, now: Net, sent: seq<Send>)
    requires Run(rd, net, events) == now && SentBy(rd, net, events, u) == sent
    ensures Run(rd, net, events + [e]) == Step(rd, now, e)
    ensures SentBy(rd, net, events + [e], u) == sent + SendsOf(rd, now, e, u)
  {
    assert (events + [e])[..|events|] == events;
  }

  // ---------- an UPDATE whose effect nobody hears about ----------

  /** A run so far: what each node knows, what is on its way to `u`, and what `u` has sent. */
  datatype Story = Story(nu: Node, nv: Node, nw: Node, fromV: seq<Update>, fromW: seq<Update>, sent: seq<Send>)

  ghost predicate Scene(u: Addr, v: Addr, w: Addr, events: seq<Event>, st: Story) {
    var net := Run(AS_WRITTEN, Initial({u, v, w}), events);
    && net.nodes.Keys == {u, v, w}
    && net.nodes[u] == st.nu && net.nodes[v] == st.nv && net.nodes[w] == st.nw
    && net.chan(v, u) == st.fromV && net.chan(w, u) == st.fromW
    && SentBy(AS_WRITTEN, Initial({u, v, w}), events, u) == st.sent
    && AllLinked(net, u, v, w)
  }

  ghost predicate AllLinked(net: Net, u: Addr, v: Addr, w: Addr) {
    && (u, v) in net.links && (u, w) in net.links && (v, u) in net.links
    && (v, w) in net.links && (w, u) in net.links && (w, v) in net.links
  }

  ghost predicate Apart(u: Addr, v: Addr, w: Addr) {
    u != v && u != w && v != w
  }

  lemma UHears(u: Addr, v: Addr, w: Addr, events: seq<Event>, st: Story, x: Addr, o: Outcome)
    requires Apart(u, v, w) && Scene(u, v, w, events, st)
    requires (x == v || x == w) && o == OnHello(AS_WRITTEN, st.nu, x, [])
    ensures Scene(u, v, w, events + [Hello(x, u, [])], st.(nu := o.node, sent := st.sent + o.sends))
  {
    var net := Run(AS_WRITTEN, Initial({u, v, w}), events);
    Unroll(AS_WRITTEN, Initial({u, v, w}), events, Hello(x, u, []), u, net, st.sent);
  }

  lemma VHears(u: Addr, v: Addr, w: Addr, events: seq<Event>, st: Story, x: Addr, o: Outcome)
    requires Apart(u, v, w) && Scene(u, v, w, events, st)
    requires (x == u || x == w) && o == OnHello(AS_WRITTEN, st.nv, x, [])
    ensures Scene(u, v, w, events + [Hello(x, v, [])], st.(nv := o.node, fromV := st.fromV + To(o.sends, u)))
  {
    var net := Run(AS_WRITTEN, Initial({u, v, w}), events);
    Unroll(AS_WRITTEN, Initial({u, v, w}), events, Hello(x, v, []), u, net, st.sent);
  }

  lemma WHears(u: Addr, v: Addr, w: Addr, events: seq<Event>, st: Story, x: Addr, o: Outcome)
    requires Apart(u, v, w) && Scene(u, v, w, events, st)
    requires (x == u || x == v) && o == OnHello(AS_WRITTEN, st.nw, x, [])
    ensures Scene(u, v, w, events + [Hello(x, w, [])], st.(nw := o.node, fromW := st.fromW + To(o.sends, u)))
  {
    var net := Run(AS_WRITTEN, Initial({u, v, w}), events);
    Unroll(AS_WRITTEN, Initial({u, v, w}), events, Hello(x, w, []), u, net, st.sent);
  }

  lemma UPurges(u: Addr, v: Addr, w: Addr, events: seq<Event>, st: Story, o: Outcome)
    requires Apart(u, v, w) && Scene(u, v, w, events, st)
    requires v in st.nu.nbrs && o == OnPurge(AS_WRITTEN, st.nu, [v])
    ensures Scene(u, v, w, events + [Purge(u, [v])], st.(nu := o.node, sent := st.sent + o.sends))
  {
    var net := Run(AS_WRITTEN, Initial({u, v, w}), events);
    assert CanPurge(net, u, [v]);
    Unroll(AS_WRITTEN, Initial({u, v, w}), events, Purge(u, [v]), u, net, st.sent);
  }

  lemma UReceivesFromV(u: Addr, v: Addr, w: Addr, events: seq<Event>, st: Story, o: Outcome)
    requires Apart(u, v, w) && Scene(u, v, w, events, st)
    requires st.fromV != [] && o == OnUpdate(AS_WRITTEN, st.nu, v, st.fromV[0])
    ensures Scene(u, v, w, events + [Deliver(v, u)],
                  st.(nu := o.node, fromV := st.fromV[1..], sent := st.sent + o.sends))
  {
    var net := Run(AS_WRITTEN, Initial({u, v, w}), events);
    Unroll(AS_WRITTEN, Initial({u, v, w}), events, Deliver(v, u), u, net, st.sent);
  }

  lemma {:induction false} NothingAdvertised(node: Node, nbrs: seq<Addr>, nex: seq<Addr>)
    ensures Advertise(node, nbrs, [], nex) == []
  {
    if nbrs != [] {
      NothingAdvertised(node, nbrs[..|nbrs| - 1], nex);
    }
  }

  lemma PurgeOfOne(rd: Reading, node: Node, a: Addr, b: Addr, node': Node)
    requires OnLinkFailure(rd, node, a) == Outcome(node, []) && a != b
    requires node.nbrs == [b, a] && node' == node.(nbrs := [b])
    ensures OnPurge(rd, node, [a]) == Outcome(node', [])
  {
    assert [a][..0] == [];
    assert OnLinkFailures(rd, node, []) == Outcome(node, []);
    assert [b, a] == [b] + [a];
    FilterAppend([b], [a], NotAmong([a]));
    FilterAll([b], NotAmong([a]));
    FilterNone([a], NotAmong([a]));
  }

  /** With the write guard as written, the failure of a neighbour changes no route of a table just computed. */
  lemma InertFailure(rd: Reading, node: Node, a: Addr)
    requires !rd.writesExisting && Consistent(node) && JustComputed(rd, node)
    requires a in node.nbrs && a in node.dvt && a in node.dvt[a]
    ensures OnLinkFailure(rd, node, a) == Outcome(Stored(rd, node, a, node.dvt[a][a].(state := INACTIVE)), [])
  {
    var rt := node.dvt[a][a].(state := INACTIVE);
    forall d ensures Lookup(AfterUpdate(rd, node, a, rt).ft, d) == Lookup(node.ft, d) {
      OthersStayPut(rd, node, a, rt, d);
    }
    InertUpdate(rd, node, a, rt);
    NothingAdvertised(Stored(rd, node, a, rt), node.nbrs, [a]);
  }

  lemma NothingToErase(x: Addr, a: Addr, b: Addr)
    requires a != b
    ensures Stored(AS_WRITTEN, Trio(x, [b, a], b, a), a, Direct(a).(state := INACTIVE)) == Trio(x, [b, a], b, a)
  {
    var node, rt := Trio(x, [b, a], b, a), Direct(a).(state := INACTIVE);
    assert WithoutFakes(node, a, rt)[a] == node.dvt[a];
    assert WithoutFakes(node, a, rt)[b] == node.dvt[b];
    assert WithoutFakes(node, a, rt) == node.dvt;
  }

  lemma NeighborFails(x: Addr, a: Addr, b: Addr)
    requires a != b
    ensures OnLinkFailure(AS_WRITTEN, Trio(x, [b, a], b, a), a) == Outcome(Trio(x, [b, a], b, a), [])
  {
    TrioIsComputed(x, [b, a], b, a);
    InertFailure(AS_WRITTEN, Trio(x, [b, a], b, a), a);
    NothingToErase(x, a, b);
  }

  /** As written, purging a neighbour leaves the route to it in the table. */
  lemma NeighborPurged(x: Addr, a: Addr, b: Addr)
    requires a != b
    ensures OnPurge(AS_WRITTEN, Trio(x, [b, a], b, a), [a]) == Outcome(Trio(x, [b], b, a), [])
  {
    NeighborFails(x, a, b);
    PurgeOfOne(AS_WRITTEN, Trio(x, [b, a], b, a), a, b, Trio(x, [b], b, a));
  }

  /** `v` was purged, and its UPDATE about `w` has been stored: two hops, against one in the table. */
  function Overheard(u: Addr, nbrs: seq<Addr>, v: Addr, w: Addr): Node {
    Trio(u, nbrs, w, v).(dvt := map[w := Row1(w), v := map[v := Direct(v), w := Entry(w, v, 2, ACTIVE)]])
  }

  lemma TrioIsComputed(x: Addr, nbrs: seq<Addr>, a: Addr, b: Addr)
    requires a != b && (nbrs == [a] || nbrs == [a, b])
    ensures Consistent(Trio(x, nbrs, a, b)) && JustComputed(AS_WRITTEN, Trio(x, nbrs, a, b))
  {
    TrioFacts(x, nbrs, a, b);
    LonelyIsComputed(AS_WRITTEN, Trio(x, nbrs, a, b));
  }

  lemma TrioFacts(x: Addr, nbrs: seq<Addr>, a: Addr, b: Addr)
    requires a != b && (nbrs == [a] || nbrs == [a, b])
    ensures var node := Trio(x, nbrs, a, b);
            && Consistent(node)
            && (forall d :: d in HeldKeys(node.nbrs, node.dvt) ==> d in node.ft)
            && (forall d :: d in node.ft ==> Refreshed(node.dvt, node.ft[d], d) == node.ft[d])
            && (forall n, d :: Holds(node.nbrs, node.dvt, n, d) ==> node.dvt[n][d] == node.ft[d])
  {
    var node := Trio(x, nbrs, a, b);
    assert forall n, d :: Holds(node.nbrs, node.dvt, n, d) ==> n == d && (n == a || n == b);
  }

  /** An ACTIVE UPDATE from a node that is not listed, and not a next hop for its destination, is just stored. */
  lemma UnlistedUpdate(rd: Reading, node: Node, src: Addr, upd: Update, node': Node)
    requires Consistent(node) && JustComputed(rd, node) && upd.state == ACTIVE && src !in node.nbrs
    requires upd.dst in node.ft ==> node.ft[upd.dst].nextHop != src
    requires node' == Stored(rd, node, src, RouteFrom(src, upd))
    ensures OnUpdate(rd, node, src, upd) == Outcome(node', [])
  {
    forall d ensures Lookup(AfterUpdate(rd, node, src, RouteFrom(src, upd)).ft, d) == Lookup(node.ft, d) {
      OthersStayPut(rd, node, src, RouteFrom(src, upd), d);
    }
    InertUpdate(rd, node, src, RouteFrom(src, upd));
    NothingAdvertised(node', node.nbrs, []);
  }

  /** The UPDATE of a neighbour that is no longer listed is stored, and changes no route. */
  lemma UpdateOverheard(u: Addr, v: Addr, w: Addr)
    requires Apart(u, v, w)
    ensures OnUpdate(AS_WRITTEN, Trio(u, [w], w, v), v, Update(v, w, 1, ACTIVE)) == Outcome(Overheard(u, [w], v, w), [])
  {
    OverheardRows(u, v, w);
    TrioIsComputed(u, [w], w, v);
    UpdateOverheardBy(Trio(u, [w], w, v), Overheard(u, [w], v, w), v, w);
  }

  lemma UpdateOverheardBy(node: Node, node': Node, v: Addr, w: Addr)
    requires Consistent(node) && JustComputed(AS_WRITTEN, node) && v !in node.nbrs
    requires w in node.ft && node.ft[w].nextHop != v
    requires node' == Stored(AS_WRITTEN, node, v, Entry(w, v, 2, ACTIVE))
    ensures OnUpdate(AS_WRITTEN, node, v, Update(v, w, 1, ACTIVE)) == Outcome(node', [])
  {
    assert RouteFrom(v, Update(v, w, 1, ACTIVE)) == Entry(w, v, 2, ACTIVE);
    UnlistedUpdate(AS_WRITTEN, node, v, Update(v, w, 1, ACTIVE), node');
  }

  lemma OverheardRows(u: Addr, v: Addr, w: Addr)
    requires Apart(u, v, w)
    ensures Stored(AS_WRITTEN, Trio(u, [w], w, v), v, Entry(w, v, 2, ACTIVE)) == Overheard(u, [w], v, w)
  {
    ActiveErasesNothing(AS_WRITTEN, Trio(u, [w], w, v), v, Entry(w, v, 2, ACTIVE));
    OverheardRow(u, v, w);
  }

  lemma OverheardRow(u: Addr, v: Addr, w: Addr)
    requires Apart(u, v, w)
    ensures Trio(u, [w], w, v).dvt[v := RowOf(Trio(u, [w], w, v).dvt, v)[w := Entry(w, v, 2, ACTIVE)]] ==
            Overheard(u, [w], v, w).dvt
  {
    assert RowOf(Trio(u, [w], w, v).dvt, v) == Row1(v);
  }

  /** A neighbour that was purged and is heard again already has its entry, so nothing is computed. */
  lemma HeardAgain(u: Addr, v: Addr, w: Addr)
    requires Apart(u, v, w)
    ensures OnHello(AS_WRITTEN, Overheard(u, [w], v, w), v, []) == Outcome(Overheard(u, [w, v], v, w), [])
  {
    var node, listed := Overheard(u, [w], v, w), Overheard(u, [w, v], v, w);
    assert [w] + [v] == [w, v];
    FilterAll([w, v], NotAmong([]));
    assert Greeted(AS_WRITTEN, node, v, []) == Outcome(listed, []);
    var row: Row := listed.dvt[v];
    assert row[v := row[v].(hop := 1, nextHop := v)] == row;
    assert listed.dvt[v := row] == listed.dvt;
  }

  /** The tables then hold a route that no computation has looked at; the next UPDATE, whatever it says, moves it. */
  lemma NextUpdateMoves(u: Addr, v: Addr, w: Addr)
    requires Apart(u, v, w)
    ensures var node := Overheard(u, [w, v], v, w);
            && Consistent(node) && Stored(AS_WRITTEN, node, w, RouteFrom(w, Message(w, v))) == node
            && KnownRouteMoves(AS_WRITTEN, node, w)
  {
    var node := Overheard(u, [w, v], v, w);
    ActiveErasesNothing(AS_WRITTEN, node, w, RouteFrom(w, Message(w, v)));
    assert Holds(node.nbrs, node.dvt, v, w);
    assert node.dvt[v][w] in Candidates(node.nbrs, node.dvt, w);
    assert Beats(AS_WRITTEN, node.dvt[v][w], node.ft[w]);
  }

  /** The UPDATE that `x` sends about its neighbour `y`. */
  function Message(x: Addr, y: Addr): Update {
    Update(x, y, 1, ACTIVE)
  }

  lemma ToldIsCurrent(u: Addr, v: Addr, w: Addr)
    requires Apart(u, v, w)
    ensures CurrentAt(Overheard(u, [w, v], v, w), [Send(v, Message(u, w))], v)
  {
    forall d ensures LastSent([Send(v, Message(u, w))], v, d) == if d == w then Some(Message(u, w)) else None {
      LastSentOne(Send(v, Message(u, w)), v, d);
    }
  }

  lemma ToOne(y: Addr, m: Update)
    ensures To([Send(y, m)], y) == [m]
  {
    assert [Send(y, m)][..0] == [];
  }

  /** Nobody has heard or sent anything. */
  ghost predicate Quiet(net: Net, u: Addr, v: Addr, w: Addr) {
    && net.nodes.Keys == {u, v, w}
    && net.nodes[u] == Fresh(u) && net.nodes[v] == Fresh(v) && net.nodes[w] == Fresh(w)
    && net.chan(v, u) == [] && net.chan(w, u) == []
  }

  lemma Linked(u: Addr, v: Addr, w: Addr, events: seq<Event>, net: Net, a: Addr, b: Addr, net': Net)
    requires Quiet(net, u, v, w) && a in net.nodes && b in net.nodes && a != b
    requires net == Run(AS_WRITTEN, Initial({u, v, w}), events)
    requires SentBy(AS_WRITTEN, Initial({u, v, w}), events, u) == []
    requires net' == net.(links := net.links + {(a, b), (b, a)})
    ensures Quiet(net', u, v, w)
    ensures net' == Run(AS_WRITTEN, Initial({u, v, w}), events + [LinkUp(a, b)])
    ensures SentBy(AS_WRITTEN, Initial({u, v, w}), events + [LinkUp(a, b)], u) == []
  {
    Unroll(AS_WRITTEN, Initial({u, v, w}), events, LinkUp(a, b), u, net, []);
  }

  /** All three are in range of each other. */
  lemma InRange(u: Addr, v: Addr, w: Addr) returns (events: seq<Event>)
    requires Apart(u, v, w)
    ensures Scene(u, v, w, events, Story(Fresh(u), Fresh(v), Fresh(w), [], [], []))
  {
    var net := Initial({u, v, w});
    var net1 := net.(links := net.links + {(u, v), (v, u)});
    var net2 := net1.(links := net1.links + {(u, w), (w, u)});
    var net3 := net2.(links := net2.links + {(v, w), (w, v)});
    Linked(u, v, w, [], net, u, v, net1);
    Linked(u, v, w, [] + [LinkUp(u, v)], net1, u, w, net2);
    Linked(u, v, w, [] + [LinkUp(u, v)] + [LinkUp(u, w)], net2, v, w, net3);
    events := [] + [LinkUp(u, v)] + [LinkUp(u, w)] + [LinkUp(v, w)];
    assert AllLinked(net3, u, v, w);
  }

  /** `v` hears `w` and then `u`, and tells `u` of `w`. */
  lemma VHearsBoth(u: Addr, v: Addr, w: Addr, events: seq<Event>, st: Story) returns (events': seq<Event>)
    requires Apart(u, v, w) && Scene(u, v, w, events, st) && st.nv == Fresh(v) && w != LOOPBACK && w != UNSPECIFIED
    ensures Scene(u, v, w, events', st.(nv := Trio(v, [w, u], w, u), fromV := st.fromV + [Message(v, w)]))
  {
    FirstNeighbor(AS_WRITTEN, v, w);
    VHears(u, v, w, events, st, w, Outcome(Pair(v, [w], w), []));
    assert st.fromV + To([], u) == st.fromV;
    events' := events + [Hello(w, v, [])];
    VHearsSecond(u, v, w, events', st.(nv := Pair(v, [w], w)));
    events' := events' + [Hello(u, v, [])];
  }

  lemma VHearsSecond(u: Addr, v: Addr, w: Addr, events: seq<Event>, st: Story)
    requires Apart(u, v, w) && Scene(u, v, w, events, st) && st.nv == Pair(v, [w], w)
    requires w != LOOPBACK && w != UNSPECIFIED
    ensures Scene(u, v, w, events + [Hello(u, v, [])],
                  st.(nv := Trio(v, [w, u], w, u), fromV := st.fromV + [Message(v, w)]))
  {
    SecondNeighbor(AS_WRITTEN, v, [w], w, u);
    assert [w] + [u] == [w, u];
    ToOne(u, Message(v, w));
    VHears(u, v, w, events, st, u, Outcome(Trio(v, [w, u], w, u), [Send(u, Message(v, w))]));
  }

  /** `w` hears `v` and then `u`, and tells `u` of `v`. */
  lemma WHearsBoth(u: Addr, v: Addr, w: Addr, events: seq<Event>, st: Story) returns (events': seq<Event>)
    requires Apart(u, v, w) && Scene(u, v, w, events, st) && st.nw == Fresh(w) && v != LOOPBACK && v != UNSPECIFIED
    ensures Scene(u, v, w, events', st.(nw := Trio(w, [v, u], v, u), fromW := st.fromW + [Message(w, v)]))
  {
    FirstNeighbor(AS_WRITTEN, w, v);
    WHears(u, v, w, events, st, v, Outcome(Pair(w, [v], v), []));
    assert st.fromW + To([], u) == st.fromW;
    events' := events + [Hello(v, w, [])];
    WHearsSecond(u, v, w, events', st.(nw := Pair(w, [v], v)));
    events' := events' + [Hello(u, w, [])];
  }

  lemma WHearsSecond(u: Addr, v: Addr, w: Addr, events: seq<Event>, st: Story)
    requires Apart(u, v, w) && Scene(u, v, w, events, st) && st.nw == Pair(w, [v], v)
    requires v != LOOPBACK && v != UNSPECIFIED
    ensures Scene(u, v, w, events + [Hello(u, w, [])],
                  st.(nw := Trio(w, [v, u], v, u), fromW := st.fromW + [Message(w, v)]))
  {
    SecondNeighbor(AS_WRITTEN, w, [v], v, u);
    assert [v] + [u] == [v, u];
    ToOne(u, Message(w, v));
    WHears(u, v, w, events, st, u, Outcome(Trio(w, [v, u], v, u), [Send(u, Message(w, v))]));
  }

  /** `u` hears `w` and then `v`, and tells `v` of `w`. */
  lemma UHearsBoth(u: Addr, v: Addr, w: Addr, events: seq<Event>, st: Story) returns (events': seq<Event>)
    requires Apart(u, v, w) && Scene(u, v, w, events, st) && st.nu == Fresh(u) && w != LOOPBACK && w != UNSPECIFIED
    ensures Scene(u, v, w, events', st.(nu := Trio(u, [w, v], w, v), sent := st.sent + [Send(v, Message(u, w))]))
  {
    FirstNeighbor(AS_WRITTEN, u, w);
    UHears(u, v, w, events, st, w, Outcome(Pair(u, [w], w), []));
    assert st.sent + [] == st.sent;
    events' := events + [Hello(w, u, [])];
    UHearsSecond(u, v, w, events', st.(nu := Pair(u, [w], w)));
    events' := events' + [Hello(v, u, [])];
  }

  lemma UHearsSecond(u: Addr, v: Addr, w: Addr, events: seq<Event>, st: Story)
    requires Apart(u, v, w) && Scene(u, v, w, events, st) && st.nu == Pair(u, [w], w)
    requires w != LOOPBACK && w != UNSPECIFIED
    ensures Scene(u, v, w, events + [Hello(v, u, [])],
                  st.(nu := Trio(u, [w, v], w, v), sent := st.sent + [Send(v, Message(u, w))]))
  {
    SecondNeighbor(AS_WRITTEN, u, [w], w, v);
    assert [w] + [v] == [w, v];
    UHears(u, v, w, events, st, v, Outcome(Trio(u, [w, v], w, v), [Send(v, Message(u, w))]));
  }

  /** `u` purges `v`, then receives its message, and hears it again. */
  lemma LosesAndRegains(u: Addr, v: Addr, w: Addr, events: seq<Event>, st: Story) returns (events': seq<Event>)
    requires Apart(u, v, w) && Scene(u, v, w, events, st)
    requires st.nu == Trio(u, [w, v], w, v) && st.fromV == [Message(v, w)]
    ensures Scene(u, v, w, events', st.(nu := Overheard(u, [w, v], v, w), fromV := []))
  {
    NeighborPurged(u, v, w);
    UPurges(u, v, w, events, st, Outcome(Trio(u, [w], w, v), []));
    assert st.sent + [] == st.sent;
    events' := events + [Purge(u, [v])];
    Regains(u, v, w, events', st.(nu := Trio(u, [w], w, v)));
    events' := events' + [Deliver(v, u)] + [Hello(v, u, [])];
  }

  lemma Regains(u: Addr, v: Addr, w: Addr, events: seq<Event>, st: Story)
    requires Apart(u, v, w) && Scene(u, v, w, events, st)
    requires st.nu == Trio(u, [w], w, v) && st.fromV == [Message(v, w)]
    ensures Scene(u, v, w, events + [Deliver(v, u)] + [Hello(v, u, [])],
                  st.(nu := Overheard(u, [w, v], v, w), fromV := []))
  {
    UpdateOverheard(u, v, w);
    UReceivesFromV(u, v, w, events, st, Outcome(Overheard(u, [w], v, w), []));
    assert st.sent + [] == st.sent && st.fromV[1..] == [];
    HeardAgain(u, v, w);
    UHears(u, v, w, events + [Deliver(v, u)], st.(nu := Overheard(u, [w], v, w), fromV := []), v,
           Outcome(Overheard(u, [w, v], v, w), []));
  }

  function Eve(u: Addr, v: Addr, w: Addr): Story {
    Story(Overheard(u, [w, v], v, w), Trio(v, [w, u], w, u), Trio(w, [v, u], v, u), [], [Message(w, v)],
          [Send(v, Message(u, w))])
  }

  lemma BeforeTheUpdate(u: Addr, v: Addr, w: Addr) returns (events: seq<Event>)
    requires Apart(u, v, w) && v != LOOPBACK && v != UNSPECIFIED && w != LOOPBACK && w != UNSPECIFIED
    ensures Scene(u, v, w, events, Eve(u, v, w))
  {
    events := InRange(u, v, w);
    var st := Story(Fresh(u), Fresh(v), Fresh(w), [], [], []);
    events := VHearsBoth(u, v, w, events, st);
    assert [] + [Message(v, w)] == [Message(v, w)];
    st := Story(Fresh(u), Trio(v, [w, u], w, u), Fresh(w), [Message(v, w)], [], []);
    events := WHearsBoth(u, v, w, events, st);
    assert [] + [Message(w, v)] == [Message(w, v)];
    st := Story(Fresh(u), Trio(v, [w, u], w, u), Trio(w, [v, u], v, u), [Message(v, w)], [Message(w, v)], []);
    events := UHearsBoth(u, v, w, events, st);
    assert [] + [Send(v, Message(u, w))] == [Send(v, Message(u, w))];
    st := st.(nu := Trio(u, [w, v], w, v), sent := [Send(v, Message(u, w))]);
    events := LosesAndRegains(u, v, w, events, st);
  }

  /**
   * As written, any three nodes have a run after which the neighbour `v` of `u` is current and `w` has an UPDATE on its
   * way to `u`; when that arrives, a known route moves, the change list does not cover it, and `v`, which is due the
   * route, is current no longer.
   */
  lemma UpdateGoesUnreported(u: Addr, v: Addr, w: Addr) returns (events: seq<Event>)
    requires Apart(u, v, w) && v != LOOPBACK && v != UNSPECIFIED && w != LOOPBACK && w != UNSPECIFIED
    ensures var net := Run(AS_WRITTEN, Initial({u, v, w}), events);
            && CanDeliver(net, w, u) && v in net.nodes[u].nbrs
            && var node, m, sent := net.nodes[u], net.chan(w, u)[0], SentBy(AS_WRITTEN, Initial({u, v, w}), events, u);
               var stored, o := Stored(AS_WRITTEN, node, w, RouteFrom(w, m)), OnUpdate(AS_WRITTEN, node, w, m);
               && CurrentAt(node, sent, v) && !CurrentAt(o.node, sent + o.sends, v)
               && Changed(AS_WRITTEN, stored, w) && w !in ChangeList(AS_WRITTEN, stored)
  {
    events := BeforeTheUpdate(u, v, w);
    NextUpdateMoves(u, v, w);
    ToldIsCurrent(u, v, w);
    MovedIsUnreported(Overheard(u, [w, v], v, w), [Send(v, Message(u, w))], v, w, Message(w, v));
  }

  lemma MovedIsUnreported(node: Node, sent: seq<Send>, v: Addr, w: Addr, m: Update)
    requires Consistent(node) && CurrentAt(node, sent, v) && v in node.nbrs && v != w && m.state == ACTIVE
    requires Stored(AS_WRITTEN, node, w, RouteFrom(w, m)) == node && KnownRouteMoves(AS_WRITTEN, node, w)
    ensures var o := OnUpdate(AS_WRITTEN, node, w, m); !CurrentAt(o.node, sent + o.sends, v)
    ensures Changed(AS_WRITTEN, node, w) && w !in ChangeList(AS_WRITTEN, node)
  {
    KnownRouteMovesExactly(AS_WRITTEN, node, w);
    AsWrittenListIsNewRoutes(AS_WRITTEN, node, w);
    UpdateKeepsNeighborCurrentExactly(AS_WRITTEN, node, sent, w, RouteFrom(w, m), v);
    assert DueRouteMoves(AS_WRITTEN, node, v, w);
    UpdateReports(AS_WRITTEN, node, sent, w, m);
    assert sent + Reported(AS_WRITTEN, node) + [] == sent + Reported(AS_WRITTEN, node);
  }
}
