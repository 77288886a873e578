/**
 * In every run, lossy links and link failures included, every hop count in every table and in every message in flight
 * is the length of a walk over links that have been up -- modulo 256, and exactly while no hop count has wrapped.
 */
module HopSoundness {
  import opened Collections
  import opened Routes
  import opened Tables
  import opened NodeSteps
  import opened Network

  ghost predicate Walk(links: set<(Addr, Addr)>, s: Addr, d: Addr, len: nat)
    decreases len
  {
    if len == 0 then s == d else exists m :: (s, m) in links && Walk(links, m, d, len - 1)
  }

  /** A walk from `s` to `d` accounts for hop count `hop`. */
  ghost predicate Witnessed(links: set<(Addr, Addr)>, wrapped: bool, s: Addr, d: Addr, hop: nat) {
    hop < 256 && exists len: nat :: Walk(links, s, d, len) && len % 256 == hop && (!wrapped ==> len == hop)
  }

  ghost function WitnessTest(net: Net, u: Addr): (Addr, nat) -> bool {
    (d: Addr, hop: nat) => d != u && Witnessed(net.links, net.wrapped, u, d, hop)
  }

  ghost function LinkedTo(net: Net, u: Addr): set<Addr> {
    set l | l in net.links && l.0 == u :: l.1
  }

  ghost predicate LinksSound(net: Net) {
    forall a, b :: (a, b) in net.links ==> (b, a) in net.links && a in net.nodes && b in net.nodes && a != b
  }

  ghost predicate NodeSound(net: Net, u: Addr, node: Node) {
    && node.main == u
    && Consistent(node)
    && HopsSatisfy(node, WitnessTest(net, u))
    && RowsFrom(node, LinkedTo(net, u))
  }

  ghost predicate MessageSound(net: Net, v: Addr, u: Addr, m: Update) {
    && (v, u) in net.links
    && v in net.nodes
    && m.origin == v
    && m.dst != u && m.dst != v
    && Witnessed(net.links, net.wrapped, v, m.dst, m.hop)
  }

  ghost predicate ChannelsSound(net: Net) {
    forall v, u, m :: m in net.chan(v, u) ==> MessageSound(net, v, u, m)
  }

  ghost predicate Sound(net: Net) {
    && LinksSound(net)
    && (forall u :: u in net.nodes ==> NodeSound(net, u, net.nodes[u]))
    && ChannelsSound(net)
  }

  lemma {:induction false} WalkGrows(links: set<(Addr, Addr)>, links': set<(Addr, Addr)>, s: Addr, d: Addr, len: nat)
    requires links <= links' && Walk(links, s, d, len)
    ensures Walk(links', s, d, len)
    decreases len
  {
    if len != 0 {
      var m :| (s, m) in links && Walk(links, m, d, len - 1);
      WalkGrows(links, links', m, d, len - 1);
    }
  }

  lemma WitnessedGrows(net: Net, net': Net, s: Addr, d: Addr, hop: nat)
    requires net.links <= net'.links && (net.wrapped ==> net'.wrapped)
    requires Witnessed(net.links, net.wrapped, s, d, hop)
    ensures Witnessed(net'.links, net'.wrapped, s, d, hop)
  {
    var len: nat :| Walk(net.links, s, d, len) && len % 256 == hop && (!net.wrapped ==> len == hop);
    WalkGrows(net.links, net'.links, s, d, len);
  }

  /** More links, or a wrapped hop count, take nothing away. */
  lemma NodeSoundGrows(net: Net, net': Net, u: Addr, node: Node)
    requires net.links <= net'.links && (net.wrapped ==> net'.wrapped)
    requires NodeSound(net, u, node)
    ensures NodeSound(net', u, node)
  {
    var p, p' := WitnessTest(net, u), WitnessTest(net', u);
    forall d, hop: nat | p(d, hop) ensures p'(d, hop) {
      WitnessedGrows(net, net', u, d, hop);
    }
    assert LinkedTo(net, u) <= LinkedTo(net', u);
  }

  lemma GrownIsSound(net: Net, net': Net)
    requires Sound(net) && LinksSound(net')
    requires net.links <= net'.links && (net.wrapped ==> net'.wrapped)
    requires net'.nodes == net.nodes
    requires forall v, u, m :: m in net'.chan(v, u) ==> m in net.chan(v, u)
    ensures Sound(net')
  {
    forall u | u in net'.nodes ensures NodeSound(net', u, net'.nodes[u]) {
      NodeSoundGrows(net, net', u, net.nodes[u]);
    }
    forall v, u, m | m in net'.chan(v, u) ensures MessageSound(net', v, u, m) {
      assert MessageSound(net, v, u, m);
      WitnessedGrows(net, net', v, m.dst, m.hop);
    }
  }

  lemma ActIsSound(net: Net, u: Addr, o: Outcome)
    requires Sound(net) && u in net.nodes
    requires NodeSound(net, u, o.node)
    requires SendsSatisfy(u, o.sends, LinkedTo(net, u), WitnessTest(net, u))
    ensures Sound(Act(net, u, o))
  {
    var net' := Act(net, u, o);
    forall x | x in net'.nodes ensures NodeSound(net', x, net'.nodes[x]) {
      NodeSoundGrows(net, net', x, net'.nodes[x]);
    }
    forall v, y, m | m in net'.chan(v, y) ensures MessageSound(net', v, y, m) {
      if m in net.chan(v, y) {
        assert MessageSound(net, v, y, m);
      } else {
        assert Send(y, m) in o.sends;
        assert WitnessTest(net, u)(m.dst, m.hop);
      }
    }
  }

  /** One more link, one more hop. */
  lemma WitnessExtends(links: set<(Addr, Addr)>, wrapped: bool, u: Addr, v: Addr, d: Addr, hop: nat)
    requires (u, v) in links && Witnessed(links, wrapped, v, d, hop)
    ensures Witnessed(links, wrapped || Narrow(hop) != hop + 1, u, d, Narrow(hop))
  {
    var len: nat :| Walk(links, v, d, len) && len % 256 == hop && (!wrapped ==> len == hop);
    assert Walk(links, u, d, len + 1);
    assert (len + 1) % 256 == Narrow(hop);
  }

  /** Receiving adds the hop over the link the message came by. */
  lemma ReceivedIsSound(net: Net, v: Addr, u: Addr)
    requires Sound(net) && CanDeliver(net, v, u)
    ensures Sound(Received(net, v, u))
    ensures var m := net.chan(v, u)[0]; WitnessTest(Received(net, v, u), u)(m.dst, Narrow(m.hop))
    ensures v in LinkedTo(net, u)
  {
    var m := net.chan(v, u)[0];
    assert MessageSound(net, v, u, m);
    assert (u, v) in net.links;
    WitnessExtends(net.links, net.wrapped, u, v, m.dst, m.hop);
    GrownIsSound(net, Received(net, v, u));
  }

  lemma DeliverIsSound(rd: Reading, net: Net, v: Addr, u: Addr)
    requires Sound(net) && CanDeliver(net, v, u)
    ensures Sound(Step(rd, net, Deliver(v, u)))
  {
    ReceivedIsSound(net, v, u);
    var mid, m := Received(net, v, u), net.chan(v, u)[0];
    OnUpdateHops(rd, net.nodes[u], v, m, WitnessTest(mid, u), LinkedTo(mid, u));
    ActIsSound(mid, u, OnUpdate(rd, net.nodes[u], v, m));
  }

  lemma HelloIsSound(rd: Reading, net: Net, v: Addr, u: Addr, failed: seq<Addr>)
    requires Sound(net) && CanGreet(net, v, u, failed)
    ensures Sound(Step(rd, net, Hello(v, u, failed)))
  {
    assert Walk(net.links, u, v, 1) by {
      assert Walk(net.links, v, v, 0);
    }
    assert WitnessTest(net, u)(v, 1);
    OnHelloHops(rd, net.nodes[u], v, failed, WitnessTest(net, u), LinkedTo(net, u));
    ActIsSound(net, u, OnHello(rd, net.nodes[u], v, failed));
  }

  lemma PurgeIsSound(rd: Reading, net: Net, u: Addr, failed: seq<Addr>)
    requires Sound(net) && CanPurge(net, u, failed)
    ensures Sound(Step(rd, net, Purge(u, failed)))
  {
    OnPurgeHops(rd, net.nodes[u], failed, WitnessTest(net, u), LinkedTo(net, u));
    ActIsSound(net, u, OnPurge(rd, net.nodes[u], failed));
  }

  lemma TimeoutIsSound(net: Net, u: Addr, ne: Addr, dst: Addr)
    requires Sound(net) && u in net.nodes && ne != dst
    ensures Sound(Act(net, u, Outcome(net.nodes[u], TimeoutSends(net.nodes[u], ne, dst))))
  {
    ActIsSound(net, u, Outcome(net.nodes[u], TimeoutSends(net.nodes[u], ne, dst)));
  }

  lemma StepIsSound(rd: Reading, net: Net, e: Event)
    requires Sound(net)
    ensures Sound(Step(rd, net, e))
  {
    match e
    case LinkUp(u, v) => GrownIsSound(net, Step(rd, net, e));
    case Hello(v, u, failed) => if CanGreet(net, v, u, failed) { HelloIsSound(rd, net, v, u, failed); }
    case Deliver(v, u) => if CanDeliver(net, v, u) { DeliverIsSound(rd, net, v, u); }
    case Lose(v, u, i) => GrownIsSound(net, Step(rd, net, e));
    case Timeout(u, ne, dst) => if u in net.nodes && ne != dst { TimeoutIsSound(net, u, ne, dst); }
    case Purge(u, failed) => if CanPurge(net, u, failed) { PurgeIsSound(rd, net, u, failed); }
  }

  /** Hop-count soundness, for the code under every reading, over every run from empty tables. */
  lemma {:induction false} EveryRunIsSound(rd: Reading, addrs: set<Addr>, events: seq<Event>)
    ensures Sound(Run(rd, Initial(addrs), events))
  {
    if events != [] {
      EveryRunIsSound(rd, addrs, events[..|events| - 1]);
      StepIsSound(rd, Run(rd, Initial(addrs), events[..|events| - 1]), events[|events| - 1]);
    }
  }
}
