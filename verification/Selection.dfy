/** What ComputeForwardingTable selects, described without its loops. */
module Selection {
  import opened Collections
  import opened Routes
  import opened Tables

  /** Only such a route can tie with a different one. */
  predicate Tying(e: Entry) {
    AtThreshold(e) || e.state == INACTIVE
  }

  /** The route displaces the one the selection starts from, and can tie with others that do. */
  predicate Contends(rd: Reading, s: Entry, c: Entry) {
    Tying(c) && Beats(rd, c, s)
  }

  /** Where the first contender stands, or the length of the list. */
  function FirstContender(rd: Reading, s: Entry, cs: seq<Entry>): (i: nat)
    ensures i <= |cs|
    ensures i < |cs| ==> Contends(rd, s, cs[i])
    ensures forall j :: 0 <= j < i ==> !Contends(rd, s, cs[j])
  {
    if cs == [] || Contends(rd, s, cs[0]) then 0 else 1 + FirstContender(rd, s, cs[1..])
  }

  /** A tie is decided by the first contender: it must be of the state of `f`. */
  predicate TieGoesTo(rd: Reading, s: Entry, cs: seq<Entry>, f: Entry) {
    var i := FirstContender(rd, s, cs);
    i < |cs| && cs[i].state == f.state
  }

  /**
   * No candidate displaces `f`; and `f` has the value the selection starts from, or that of a candidate which displaces
   * the start and wins its tie, if it can have one.
   */
  ghost predicate Prevails(rd: Reading, s: Entry, cs: seq<Entry>, f: Entry) {
    && (forall c :: c in cs ==> !Beats(rd, c, f))
    && (SameValue(s, f) ||
        ((exists c :: c in cs && SameValue(c, f) && Beats(rd, c, s)) && (Tying(f) ==> TieGoesTo(rd, s, cs, f))))
  }

  lemma {:induction false} ContenderPush(rd: Reading, s: Entry, cs: seq<Entry>, c: Entry)
    ensures var i := FirstContender(rd, s, cs);
            FirstContender(rd, s, cs + [c]) ==
            if i < |cs| then i else if Contends(rd, s, c) then |cs| else |cs| + 1
  {
    if cs == [] {
      assert [c][1..] == [];
    } else {
      ContenderPush(rd, s, cs[1..], c);
      assert (cs + [c])[1..] == cs[1..] + [c];
    }
  }

  /** One step of the selection while nothing displaces `f`, a route that can tie. */
  lemma ContenderStep(rd: Reading, s: Entry, e: Entry, c: Entry, f: Entry)
    requires Tying(f) && Beats(rd, f, s) && !Beats(rd, c, f)
    requires e == s || (Beats(rd, e, s) && !Beats(rd, e, f))
    ensures e == s || !Tying(e) ==> (Contends(rd, s, c) ==> Beats(rd, c, e)) &&
                                    (Beats(rd, c, e) && !Contends(rd, s, c) ==> !Tying(c))
    ensures Tying(e) && e != s && Beats(rd, c, e) ==> Tying(c) && c.state == e.state
  {
  }

  /** The first contender decides of which kind the selected route is. */
  lemma {:induction false} FirstContenderDecides(rd: Reading, s: Entry, cs: seq<Entry>, f: Entry)
    requires Tying(f) && Beats(rd, f, s)
    requires forall c :: c in cs ==> !Beats(rd, c, f)
    ensures var e, i := Select(rd, s, cs), FirstContender(rd, s, cs);
            if i < |cs| then Tying(e) && e != s && e.state == cs[i].state else e == s || !Tying(e)
  {
    if cs != [] {
      var init, c := cs[..|cs| - 1], cs[|cs| - 1];
      FirstContenderDecides(rd, s, init, f);
      SelectIsMaximal(rd, s, init);
      assert cs == init + [c];
      ContenderPush(rd, s, init, c);
      var e := Select(rd, s, init);
      ContenderStep(rd, s, e, c, f);
      BeatsIsStrictPartialOrder(rd, c, e, s);
      BeatsIsStrictPartialOrder(rd, c, s, s);
    }
  }

  /** The value selected is exactly the one that prevails: the fold over the candidates, without the fold. */
  lemma SelectsExactly(rd: Reading, s: Entry, cs: seq<Entry>, f: Entry)
    ensures SameValue(Select(rd, s, cs), f) <==> Prevails(rd, s, cs, f)
  {
    var e := Select(rd, s, cs);
    SelectIsMaximal(rd, s, cs);
    if Prevails(rd, s, cs, f) {
      if SameValue(s, f) {
        SelectStays(rd, s, cs);
      } else {
        PrevailingIsSelected(rd, s, cs, f);
      }
    }
    if SameValue(e, f) && !SameValue(s, f) && Tying(f) {
      assert Beats(rd, f, s);
      FirstContenderDecides(rd, s, cs, f);
    }
  }

  lemma PrevailingIsSelected(rd: Reading, s: Entry, cs: seq<Entry>, f: Entry)
    requires Prevails(rd, s, cs, f) && !SameValue(s, f)
    ensures SameValue(Select(rd, s, cs), f)
  {
    var e := Select(rd, s, cs);
    SelectIsMaximal(rd, s, cs);
    var c :| c in cs && SameValue(c, f) && Beats(rd, c, s);
    assert e in cs && !Comparable(e, f);
    TiesExactly(e, f);
    if Tying(f) {
      FirstContenderDecides(rd, s, cs, f);
    }
  }

  // ---------- one route of the table ----------

  /** The known route to `d` keeps its hop count and state, as the tables before the computation tell. */
  ghost predicate RouteStands(rd: Reading, node: Node, d: Addr)
    requires d in node.ft
  {
    var cs := Candidates(node.nbrs, node.dvt, d);
    cs == [] || Prevails(rd, Refreshed(node.dvt, node.ft[d], d), cs, node.ft[d])
  }

  lemma RouteStandsExactly(rd: Reading, node: Node, d: Addr)
    requires d in node.ft
    ensures SameCell(Lookup(ComputedFt(rd, node), d), Lookup(node.ft, d)) <==> RouteStands(rd, node, d)
  {
    ComputedCell(rd, node, d);
    SelectsExactly(rd, Refreshed(node.dvt, node.ft[d], d), Candidates(node.nbrs, node.dvt, d), node.ft[d]);
  }

  // ---------- tables that were just computed ----------

  /** Computing again would change nothing. */
  ghost predicate JustComputed(rd: Reading, node: Node) {
    node.ft == ComputedFt(rd, node)
  }

  /** Losing candidates moves no route of a table just computed, as long as the entry behind the route is still there. */
  lemma CellStaysPut(rd: Reading, node: Node, nbrs: seq<Addr>, dvt: Dvt, d: Addr)
    requires Consistent(node) && JustComputed(rd, node)
    requires forall n :: Holds(nbrs, dvt, n, d) ==> Holds(node.nbrs, node.dvt, n, d) && dvt[n][d] == node.dvt[n][d]
    requires d in node.ft ==> Refreshed(dvt, node.ft[d], d) == Refreshed(node.dvt, node.ft[d], d)
    ensures Cell(rd, nbrs, dvt, node.ft, d) == Lookup(node.ft, d)
  {
    var cs := Candidates(nbrs, dvt, d);
    if cs != [] {
      NonEmptyHasMember(cs);
      ComputedProperties(rd, node, d);
      SelectStays(rd, node.ft[d], cs);
    }
  }

  /** A held route of a table just computed equals the entry behind it, and nothing on offer displaces it. */
  lemma HeldRouteIsSettled(rd: Reading, node: Node, d: Addr)
    requires Consistent(node) && JustComputed(rd, node)
    requires exists n :: Holds(node.nbrs, node.dvt, n, d)
    ensures d in node.ft && Refreshed(node.dvt, node.ft[d], d) == node.ft[d]
    ensures forall n :: Holds(node.nbrs, node.dvt, n, d) ==> !Beats(rd, node.dvt[n][d], node.ft[d])
  {
    ComputedProperties(rd, node, d);
  }
}
