/**
 * A network of nodes: Hello and UPDATE delivery over first-in-first-out links that may lose messages, links that come
 * up, neighbours that are purged, and pending replies that time out.  Timers are nondeterministic events.
 */
module Network {
  import opened Collections
  import opened Routes
  import opened Tables
  import opened Changes
  import opened NodeSteps

  /**
   * `chan(v, u)` holds the UPDATEs in flight from `v` to `u`, oldest first.  `links` records every link that has ever
   * been up, and `wrapped` whether a received hop count has ever been narrowed to something else than one more.
   */
  datatype Net = Net(
    nodes: map<Addr, Node>,
    chan: (Addr, Addr) -> seq<Update>,
    links: set<(Addr, Addr)>,
    wrapped: bool
  )

  datatype Event =
    | LinkUp(u: Addr, v: Addr)
    | Hello(v: Addr, u: Addr, failed: seq<Addr>)  // u hears v; `failed` are the neighbours its purge finds closed
    | Deliver(v: Addr, u: Addr)
    | Lose(v: Addr, u: Addr, i: nat)
    | Timeout(u: Addr, ne: Addr, dst: Addr)       // a pending reply to `ne` about `dst` falls due at u
    | Purge(u: Addr, failed: seq<Addr>)

  function To(sends: seq<Send>, y: Addr): (r: seq<Update>)
    ensures forall m :: m in r <==> Send(y, m) in sends
  {
    if sends == [] then [] else
    var init, s := sends[..|sends| - 1], sends[|sends| - 1];
    assert forall x :: x in sends <==> x == s || x in init;
    To(init, y) + if s.to == y then [s.upd] else []
  }

  function Post(chan: (Addr, Addr) -> seq<Update>, u: Addr, sends: seq<Send>): (Addr, Addr) -> seq<Update> {
    (x: Addr, y: Addr) => if x == u then chan(x, y) + To(sends, y) else chan(x, y)
  }

  /** Message `i` leaves the channel, delivered or lost. */
  function Removed(chan: (Addr, Addr) -> seq<Update>, v: Addr, u: Addr, i: nat): (Addr, Addr) -> seq<Update> {
    (x: Addr, y: Addr) =>
      if x == v && y == u && i < |chan(x, y)| then chan(x, y)[..i] + chan(x, y)[i + 1..] else chan(x, y)
  }

  /** Node `u` takes on a new table and sends what goes with it. */
  function Act(net: Net, u: Addr, o: Outcome): Net {
    net.(nodes := net.nodes[u := o.node], chan := Post(net.chan, u, o.sends))
  }

  /** The first message from `v` to `u` leaves the channel; the narrowing of its hop count is noted. */
  function Received(net: Net, v: Addr, u: Addr): Net
    requires net.chan(v, u) != []
  {
    var hop := net.chan(v, u)[0].hop;
    net.(chan := Removed(net.chan, v, u, 0), wrapped := net.wrapped || Narrow(hop) != hop + 1)
  }

  predicate CanGreet(net: Net, v: Addr, u: Addr, failed: seq<Addr>) {
    u in net.nodes && (u, v) in net.links && forall n :: n in failed ==> n in net.nodes[u].nbrs || n == v
  }

  predicate CanPurge(net: Net, u: Addr, failed: seq<Addr>) {
    u in net.nodes && forall n :: n in failed ==> n in net.nodes[u].nbrs
  }

  predicate CanDeliver(net: Net, v: Addr, u: Addr) {
    u in net.nodes && net.chan(v, u) != []
  }

  /** One event; an event that cannot happen leaves the network as it is. */
  function Step(rd: Reading, net: Net, e: Event): Net {
    match e
    case LinkUp(u, v) =>
      if u in net.nodes && v in net.nodes && u != v then net.(links := net.links + {(u, v), (v, u)}) else net
    case Hello(v, u, failed) =>
      if CanGreet(net, v, u, failed) then Act(net, u, OnHello(rd, net.nodes[u], v, failed)) else net
    case Deliver(v, u) =>
      if CanDeliver(net, v, u)
      then Act(Received(net, v, u), u, OnUpdate(rd, net.nodes[u], v, net.chan(v, u)[0])) else net
    case Lose(v, u, i) => net.(chan := Removed(net.chan, v, u, i))
    case Timeout(u, ne, dst) =>
      if u in net.nodes && ne != dst
      then Act(net, u, Outcome(net.nodes[u], TimeoutSends(net.nodes[u], ne, dst))) else net
    case Purge(u, failed) =>
      if CanPurge(net, u, failed) then Act(net, u, OnPurge(rd, net.nodes[u], failed)) else net
  }

  function Run(rd: Reading, net: Net, events: seq<Event>): Net {
    if events == [] then net
    else Step(rd, Run(rd, net, events[..|events| - 1]), events[|events| - 1])
  }

  function Initial(addrs: set<Addr>): Net {
    Net(map a | a in addrs :: Node(a, [], map[], map[]), (x, y) => [], {}, false)
  }

  // ---------- what goes out ----------

  /** The message carries the sender's route, and is not about its receiver. */
  predicate FromTable(node: Node, s: Send) {
    && s.upd.dst != s.to
    && s.upd.dst in node.ft
    && s.upd == Header(node.main, node.ft[s.upd.dst])
  }

  ghost predicate AllFromTable(node: Node, sends: seq<Send>, to: set<Addr>) {
    forall s :: s in sends ==> FromTable(node, s) && s.to in to
  }

  function Members(nbrs: seq<Addr>): set<Addr> {
    set n | n in nbrs
  }

  lemma {:induction false} ChangesToFromTable(node: Node, changes: seq<Addr>, ne: Addr)
    requires Consistent(node)
    ensures AllFromTable(node, ChangesTo(node, changes, ne), {ne})
  {
    if changes != [] {
      ChangesToFromTable(node, changes[..|changes| - 1], ne);
    }
  }

  lemma {:induction false} AdvertiseFromTable(node: Node, nbrs: seq<Addr>, changes: seq<Addr>, nex: seq<Addr>)
    requires Consistent(node)
    ensures AllFromTable(node, Advertise(node, nbrs, changes, nex), Members(nbrs))
  {
    if nbrs != [] {
      var init, ne := nbrs[..|nbrs| - 1], nbrs[|nbrs| - 1];
      AdvertiseFromTable(node, init, changes, nex);
      ChangesToFromTable(node, changes, ne);
      assert Members(init) <= Members(nbrs) && ne in nbrs;
    }
  }

  lemma {:induction false} FullTableFromTable(node: Node, keys: seq<Addr>, ne: Addr)
    requires Consistent(node)
    ensures AllFromTable(node, FullTable(node, keys, ne), {ne})
  {
    if keys != [] {
      FullTableFromTable(node, keys[..|keys| - 1], ne);
    }
  }

  /** Every UPDATE sent while handling an UPDATE, replies included, is the sender's route at that moment. */
  lemma UpdateSendsFromTable(rd: Reading, node: Node, src: Addr, upd: Update)
    requires Consistent(node)
    ensures var o := OnUpdate(rd, node, src, upd);
            Consistent(o.node) && AllFromTable(o.node, o.sends, Members(node.nbrs))
  {
    UpdateKeepsConsistent(rd, node, src, RouteFrom(src, upd));
    var stored := Stored(rd, node, src, RouteFrom(src, upd));
    var o := OnUpdate(rd, node, src, upd);
    AdvertiseFromTable(o.node, o.node.nbrs, ChangeList(rd, stored), []);
  }

  // ---------- a property of hop counts, carried through every event ----------

  /** Every stored and every forwarded route satisfies `p` of its destination and hop count. */
  ghost predicate HopsSatisfy(node: Node, p: (Addr, nat) -> bool) {
    && (forall d :: d in node.ft ==> p(d, node.ft[d].hop))
    && (forall n, d :: n in node.dvt && d in node.dvt[n] ==> p(d, node.dvt[n][d].hop))
  }

  ghost predicate SendsSatisfy(main: Addr, sends: seq<Send>, to: set<Addr>, p: (Addr, nat) -> bool) {
    forall s :: s in sends ==>
                  s.to in to && s.upd.origin == main && s.upd.dst != s.to && p(s.upd.dst, s.upd.hop)
  }

  ghost predicate RowsFrom(node: Node, sources: set<Addr>) {
    node.dvt.Keys <= sources && Members(node.nbrs) <= sources
  }

  lemma ComputedHops(rd: Reading, node: Node, p: (Addr, nat) -> bool)
    requires Consistent(node) && HopsSatisfy(node, p)
    ensures HopsSatisfy(Computed(rd, node), p)
  {
    var ft := ComputedFt(rd, node);
    forall d | d in ft ensures p(d, ft[d].hop) {
      ComputedProperties(rd, node, d);
    }
  }

  lemma UpdateHops(rd: Reading, node: Node, src: Addr, rt: Entry, p: (Addr, nat) -> bool)
    requires Consistent(node) && rt.nextHop == src && HopsSatisfy(node, p) && p(rt.dst, rt.hop)
    ensures HopsSatisfy(AfterUpdate(rd, node, src, rt), p)
  {
    var stored := Stored(rd, node, src, rt);
    StoredIsConsistent(rd, node, src, rt);
    forall n, d | n in stored.dvt && d in stored.dvt[n] ensures p(d, stored.dvt[n][d].hop) {
    }
    ComputedHops(rd, stored, p);
  }

  lemma OnUpdateHops(rd: Reading, node: Node, src: Addr, upd: Update, p: (Addr, nat) -> bool, to: set<Addr>)
    requires Consistent(node) && HopsSatisfy(node, p) && p(upd.dst, Narrow(upd.hop))
    requires RowsFrom(node, to) && src in to
    ensures var o := OnUpdate(rd, node, src, upd);
            && Consistent(o.node) && o.node.main == node.main
            && HopsSatisfy(o.node, p) && RowsFrom(o.node, to)
            && SendsSatisfy(node.main, o.sends, to, p)
  {
    UpdateSendsFromTable(rd, node, src, upd);
    UpdateHops(rd, node, src, RouteFrom(src, upd), p);
  }

  lemma OnLinkFailureHops(rd: Reading, node: Node, ne: Addr, p: (Addr, nat) -> bool, to: set<Addr>)
    requires Consistent(node) && HopsSatisfy(node, p) && RowsFrom(node, to)
    ensures var o := OnLinkFailure(rd, node, ne);
            && Consistent(o.node) && o.node.main == node.main && o.node.nbrs == node.nbrs
            && HopsSatisfy(o.node, p) && RowsFrom(o.node, to)
            && SendsSatisfy(node.main, o.sends, to, p)
  {
    if ne in node.dvt && ne in node.dvt[ne] {
      var rt := node.dvt[ne][ne].(state := INACTIVE);
      var stored := Stored(rd, node, ne, rt);
      var o := OnLinkFailure(rd, node, ne);
      UpdateKeepsConsistent(rd, node, ne, rt);
      UpdateHops(rd, node, ne, rt, p);
      AdvertiseFromTable(o.node, o.node.nbrs, ChangeList(rd, stored), [ne]);
    }
  }

  lemma {:induction false} OnLinkFailuresHops(rd: Reading, node: Node, failed: seq<Addr>, p: (Addr, nat) -> bool, to: set<Addr>)
    requires Consistent(node) && HopsSatisfy(node, p) && RowsFrom(node, to)
    ensures var o := OnLinkFailures(rd, node, failed);
            && Consistent(o.node) && o.node.main == node.main && o.node.nbrs == node.nbrs
            && HopsSatisfy(o.node, p) && RowsFrom(o.node, to)
            && SendsSatisfy(node.main, o.sends, to, p)
  {
    if failed != [] {
      OnLinkFailuresHops(rd, node, failed[..|failed| - 1], p, to);
      OnLinkFailureHops(rd, OnLinkFailures(rd, node, failed[..|failed| - 1]).node, failed[|failed| - 1], p, to);
    }
  }

  lemma OnPurgeHops(rd: Reading, node: Node, failed: seq<Addr>, p: (Addr, nat) -> bool, to: set<Addr>)
    requires Consistent(node) && HopsSatisfy(node, p) && RowsFrom(node, to)
    ensures var o := OnPurge(rd, node, failed);
            && Consistent(o.node) && o.node.main == node.main
            && HopsSatisfy(o.node, p) && RowsFrom(o.node, to)
            && SendsSatisfy(node.main, o.sends, to, p)
  {
    OnLinkFailuresHops(rd, node, failed, p, to);
  }

  /** OnHello once the neighbour list is up to date. */
  lemma IntroductionHops(rd: Reading, node: Node, origin: Addr, p: (Addr, nat) -> bool, to: set<Addr>)
    requires Consistent(node) && HopsSatisfy(node, p) && RowsFrom(node, to)
    requires origin in to && p(origin, 1)
    ensures var node' := Computed(rd, Introduced(node, origin));
            && Consistent(node')
            && HopsSatisfy(node', p) && RowsFrom(node', to)
            && SendsSatisfy(node.main, FullTable(node', SortedKeys(node'.ft.Keys), origin), to, p)
  {
    var intro := Introduced(node, origin);
    assert Consistent(intro) && HopsSatisfy(intro, p);
    ComputedIsConsistent(rd, intro);
    ComputedHops(rd, intro, p);
    var node' := Computed(rd, intro);
    FullTableFromTable(node', SortedKeys(node'.ft.Keys), origin);
  }

  lemma GreetedHops(rd: Reading, node: Node, origin: Addr, failed: seq<Addr>, p: (Addr, nat) -> bool, to: set<Addr>)
    requires Consistent(node) && HopsSatisfy(node, p) && RowsFrom(node, to)
    requires origin in to
    ensures var o := Greeted(rd, node, origin, failed);
            && Consistent(o.node) && o.node.main == node.main
            && HopsSatisfy(o.node, p) && RowsFrom(o.node, to)
            && SendsSatisfy(node.main, o.sends, to, p)
  {
    if origin !in node.nbrs {
      OnPurgeHops(rd, node.(nbrs := node.nbrs + [origin]), failed, p, to);
    }
  }

  lemma RepeatedHelloHops(node: Node, origin: Addr, p: (Addr, nat) -> bool, to: set<Addr>)
    requires Consistent(node) && HopsSatisfy(node, p) && RowsFrom(node, to)
    requires origin in RowOf(node.dvt, origin) && p(origin, 1)
    ensures var row := node.dvt[origin];
            var node' := node.(dvt := node.dvt[origin := row[origin := row[origin].(hop := 1, nextHop := origin)]]);
            Consistent(node') && HopsSatisfy(node', p) && RowsFrom(node', to)
  {
  }

  lemma OnHelloHops(rd: Reading, node: Node, origin: Addr, failed: seq<Addr>, p: (Addr, nat) -> bool, to: set<Addr>)
    requires Consistent(node) && HopsSatisfy(node, p) && RowsFrom(node, to)
    requires origin in to && p(origin, 1)
    ensures var o := OnHello(rd, node, origin, failed);
            && Consistent(o.node) && o.node.main == node.main
            && HopsSatisfy(o.node, p) && RowsFrom(o.node, to)
            && SendsSatisfy(node.main, o.sends, to, p)
  {
    GreetedHops(rd, node, origin, failed, p, to);
    var o := Greeted(rd, node, origin, failed);
    if origin !in RowOf(o.node.dvt, origin) {
      IntroductionHops(rd, o.node, origin, p, to);
    } else {
      RepeatedHelloHops(o.node, origin, p, to);
    }
  }
}
