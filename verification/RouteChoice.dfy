/** Which route the forwarding table takes, in terms of hop counts and states alone. */
module RouteChoice {
  import opened Collections
  import opened Routes
  import opened Tables

  /** A current neighbour's row has `e` for `d`, or `e` is what the known route's next hop has for it. */
  ghost predicate OnOffer(node: Node, d: Addr, e: Entry) {
    || (exists n :: Holds(node.nbrs, node.dvt, n, d) && node.dvt[n][d] == e)
    || (d in node.ft && node.ft[d].nextHop in node.dvt && d in node.dvt[node.ft[d].nextHop] &&
        node.dvt[node.ft[d].nextHop][d] == e)
  }

  ghost predicate InactiveOnOffer(node: Node, d: Addr) {
    exists x :: OnOffer(node, d, x) && x.state == INACTIVE
  }

  /** What the table takes is on offer, and whatever else is on offer does not displace it. */
  lemma ChosenIsOnOffer(rd: Reading, node: Node, d: Addr)
    requires Consistent(node) && exists n :: Holds(node.nbrs, node.dvt, n, d)
    ensures d in ComputedFt(rd, node) && OnOffer(node, d, ComputedFt(rd, node)[d])
    ensures forall x :: OnOffer(node, d, x) ==> !Beats(rd, x, ComputedFt(rd, node)[d])
  {
    ComputedProperties(rd, node, d);
    var e := ComputedFt(rd, node)[d];
    if d in node.ft {
      var s := Refreshed(node.dvt, node.ft[d], d);
      assert OnOffer(node, d, s);
      BeatsIsStrictPartialOrder(rd, s, e, s);
    }
  }

  /**
   * With the arguments in the documented order: of its own state the chosen route has the fewest hops on offer; it is
   * ACTIVE if an ACTIVE route below 16 hops is on offer, and INACTIVE if there is one and every ACTIVE route exceeds 16.
   */
  lemma DocumentedChoice(rd: Reading, node: Node, d: Addr)
    requires rd.installsBetter && Consistent(node) && exists n :: Holds(node.nbrs, node.dvt, n, d)
    ensures d in ComputedFt(rd, node)
    ensures var e := ComputedFt(rd, node)[d];
            && OnOffer(node, d, e)
            && (forall x :: OnOffer(node, d, x) && x.state == e.state ==> e.hop <= x.hop)
            && ((exists x :: OnOffer(node, d, x) && x.state == ACTIVE && x.hop < 16) ==> e.state == ACTIVE && e.hop < 16)
            && (InactiveOnOffer(node, d) && (forall x :: OnOffer(node, d, x) && x.state == ACTIVE ==> x.hop > 16) ==>
                  e.state == INACTIVE)
  {
    ChosenIsOnOffer(rd, node, d);
  }

  /**
   * With the arguments as the source passes them: of its own state the chosen route has the most hops on offer; it is
   * ACTIVE if an ACTIVE route above 16 hops is on offer, and INACTIVE if there is one and every ACTIVE route is below 16.
   */
  lemma ChoiceAsPassed(rd: Reading, node: Node, d: Addr)
    requires !rd.installsBetter && Consistent(node) && exists n :: Holds(node.nbrs, node.dvt, n, d)
    ensures d in ComputedFt(rd, node)
    ensures var e := ComputedFt(rd, node)[d];
            && OnOffer(node, d, e)
            && (forall x :: OnOffer(node, d, x) && x.state == e.state ==> e.hop >= x.hop)
            && ((exists x :: OnOffer(node, d, x) && x.state == ACTIVE && x.hop > 16) ==> e.state == ACTIVE && e.hop > 16)
            && (InactiveOnOffer(node, d) && (forall x :: OnOffer(node, d, x) && x.state == ACTIVE ==> x.hop < 16) ==>
                  e.state == INACTIVE)
  {
    ChosenIsOnOffer(rd, node, d);
  }

  /** Where no current neighbour has anything, the table is left alone. */
  lemma UnheldIsLeftAlone(rd: Reading, node: Node, d: Addr)
    requires forall n :: !Holds(node.nbrs, node.dvt, n, d)
    ensures d in ComputedFt(rd, node) <==> d in node.ft
    ensures d in node.ft ==> ComputedFt(rd, node)[d] == node.ft[d]
  {
    ComputedCell(rd, node, d);
    CandidatesExist(node.nbrs, node.dvt, d);
  }
}
