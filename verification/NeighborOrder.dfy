/** When does the order of the neighbour list decide which route is selected? */
module NeighborOrder {
  import opened Collections
  import opened Routes
  import opened Tables

  ghost predicate HoldsActiveBelow(node: Node, d: Addr) {
    exists n :: Holds(node.nbrs, node.dvt, n, d) && node.dvt[n][d].state == ACTIVE && node.dvt[n][d].hop < THRESHOLD
  }

  ghost predicate HoldsAtThreshold(node: Node, d: Addr) {
    exists n :: Holds(node.nbrs, node.dvt, n, d) && AtThreshold(node.dvt[n][d])
  }

  ghost predicate HoldsInactive(node: Node, d: Addr) {
    exists n :: Holds(node.nbrs, node.dvt, n, d) && node.dvt[n][d].state == INACTIVE
  }

  /**
   * The neighbours offer an ACTIVE route at exactly the threshold and an INACTIVE one, nothing ACTIVE and shorter, and
   * the known route, if there is one, is ACTIVE and longer than the threshold.
   */
  ghost predicate OrderMatters(node: Node, d: Addr) {
    && HoldsAtThreshold(node, d)
    && HoldsInactive(node, d)
    && !HoldsActiveBelow(node, d)
    && (d in node.ft ==> var s := Refreshed(node.dvt, node.ft[d], d); s.state == ACTIVE && s.hop > THRESHOLD)
  }

  ghost predicate SameNeighbors(a: seq<Addr>, b: seq<Addr>) {
    multiset(a) == multiset(b)
  }

  ghost predicate SelectionIgnoresOrder(rd: Reading, node: Node, d: Addr) {
    forall nbrs :: SameNeighbors(nbrs, node.nbrs) ==>
                     SameCell(Cell(rd, nbrs, node.dvt, node.ft, d), Cell(rd, node.nbrs, node.dvt, node.ft, d))
  }

  lemma SameMembers(a: seq<Addr>, b: seq<Addr>)
    requires SameNeighbors(a, b)
    ensures forall x :: x in a <==> x in b
  {
    forall x ensures x in a <==> x in b {
      assert x in a <==> x in multiset(a);
      assert x in b <==> x in multiset(b);
    }
  }

  /** Everything the cell can be, for neighbours in any order. */
  lemma CellIsOffered(rd: Reading, node: Node, nbrs: seq<Addr>, d: Addr)
    requires rd.installsBetter
    requires SameNeighbors(nbrs, node.nbrs)
    requires exists n :: Holds(node.nbrs, node.dvt, n, d)
    ensures Cell(rd, nbrs, node.dvt, node.ft, d).Some?
    ensures var e := Cell(rd, nbrs, node.dvt, node.ft, d).value;
            && (forall n :: Holds(node.nbrs, node.dvt, n, d) ==> !IsBetterRoute(e, node.dvt[n][d]))
            && (Known(node.dvt, node.ft, d) == Some(e) ||
                exists n :: Holds(node.nbrs, node.dvt, n, d) && node.dvt[n][d] == e)
            && (d in node.ft ==> var s := Refreshed(node.dvt, node.ft[d], d); e == s || IsBetterRoute(s, e))
  {
    SameMembers(nbrs, node.nbrs);
    var permuted := node.(nbrs := nbrs);
    var n :| Holds(node.nbrs, node.dvt, n, d);
    assert Holds(nbrs, node.dvt, n, d);
    var cs := Candidates(nbrs, node.dvt, d);
    SelectIsMaximal(rd, Start(Known(node.dvt, node.ft, d), cs), cs);
    assert cs[0] in cs;
    forall m | Holds(node.nbrs, node.dvt, m, d)
      ensures !IsBetterRoute(Cell(rd, nbrs, node.dvt, node.ft, d).value, node.dvt[m][d])
    {
      assert Holds(nbrs, node.dvt, m, d);
      assert node.dvt[m][d] in cs;
    }
  }

  lemma OrderIsImmaterial(rd: Reading, node: Node, nbrs: seq<Addr>, d: Addr)
    requires rd.installsBetter
    requires exists n :: Holds(node.nbrs, node.dvt, n, d)
    requires !OrderMatters(node, d)
    requires SameNeighbors(nbrs, node.nbrs)
    ensures SameCell(Cell(rd, nbrs, node.dvt, node.ft, d), Cell(rd, node.nbrs, node.dvt, node.ft, d))
  {
    CellIsOffered(rd, node, nbrs, d);
    CellIsOffered(rd, node, node.nbrs, d);
    var a, b := Cell(rd, nbrs, node.dvt, node.ft, d).value, Cell(rd, node.nbrs, node.dvt, node.ft, d).value;
    assert !Comparable(a, b);
    TiesExactly(a, b);
  }

  /** `n` moved to the front of the list. */
  ghost function MoveToFront(nbrs: seq<Addr>, n: Addr): (r: seq<Addr>)
    requires n in nbrs
    ensures SameNeighbors(r, nbrs) && r != [] && r[0] == n
  {
    var i :| 0 <= i < |nbrs| && nbrs[i] == n;
    assert nbrs == nbrs[..i] + [n] + nbrs[i + 1..];
    [n] + nbrs[..i] + nbrs[i + 1..]
  }

  /** With nothing ACTIVE below the threshold on offer, the fold never leaves the kind of route it has reached. */
  lemma {:induction false} SelectKeepsKind(rd: Reading, s: Entry, cs: seq<Entry>)
    requires rd.installsBetter
    requires AtThreshold(s) || s.state == INACTIVE
    requires forall c :: c in cs && c.state == ACTIVE ==> c.hop >= THRESHOLD
    ensures var e := Select(rd, s, cs); if AtThreshold(s) then e == s else e.state == INACTIVE
  {
    if cs != [] {
      SelectKeepsKind(rd, s, cs[..|cs| - 1]);
      assert cs[|cs| - 1] in cs;
    }
  }

  /** Whichever of the two tied routes is looked at first wins. */
  lemma FirstTiedRouteWins(rd: Reading, node: Node, n: Addr, d: Addr)
    requires rd.installsBetter && OrderMatters(node, d)
    requires Holds(node.nbrs, node.dvt, n, d)
    requires AtThreshold(node.dvt[n][d]) || node.dvt[n][d].state == INACTIVE
    ensures var nbrs := MoveToFront(node.nbrs, n);
            && Cell(rd, nbrs, node.dvt, node.ft, d).Some?
            && Cell(rd, nbrs, node.dvt, node.ft, d).value.state == node.dvt[n][d].state
  {
    var nbrs := MoveToFront(node.nbrs, n);
    SameMembers(nbrs, node.nbrs);
    var c := node.dvt[n][d];
    var rest := nbrs[1..];
    var cs := Candidates(nbrs, node.dvt, d);
    assert nbrs == [n] + rest;
    CandidatesAppend([n], rest, node.dvt, d);
    CandidatesOfOne(n, node.dvt, d);
    assert cs == [c] + Candidates(rest, node.dvt, d);
    var s := Start(Known(node.dvt, node.ft, d), cs);
    SelectAppend(rd, s, [c], Candidates(rest, node.dvt, d));
    assert [c][..0] == [];
    assert Select(rd, s, [c]) == c by {
      assert Select(rd, s, []) == s;
    }
    forall e | e in Candidates(rest, node.dvt, d) && e.state == ACTIVE ensures e.hop >= THRESHOLD {
      var m :| Holds(rest, node.dvt, m, d) && node.dvt[m][d] == e;
      assert Holds(node.nbrs, node.dvt, m, d);
    }
    SelectKeepsKind(rd, c, Candidates(rest, node.dvt, d));
  }

  /**
   * With the order the documentation asks for, the hop count and state selected for `d` do not depend on the order of
   * the neighbour list, except in the one family of inputs that OrderMatters names -- and there they always do.
   */
  lemma SelectionIgnoresOrderExactly(rd: Reading, node: Node, d: Addr)
    requires rd.installsBetter
    requires exists n :: Holds(node.nbrs, node.dvt, n, d)
    ensures SelectionIgnoresOrder(rd, node, d) <==> !OrderMatters(node, d)
  {
    if OrderMatters(node, d) {
      var a :| Holds(node.nbrs, node.dvt, a, d) && AtThreshold(node.dvt[a][d]);
      var b :| Holds(node.nbrs, node.dvt, b, d) && node.dvt[b][d].state == INACTIVE;
      FirstTiedRouteWins(rd, node, a, d);
      FirstTiedRouteWins(rd, node, b, d);
      assert SameNeighbors(MoveToFront(node.nbrs, a), node.nbrs);
      assert SameNeighbors(MoveToFront(node.nbrs, b), node.nbrs);
    } else {
      forall nbrs | SameNeighbors(nbrs, node.nbrs)
        ensures SameCell(Cell(rd, nbrs, node.dvt, node.ft, d), Cell(rd, node.nbrs, node.dvt, node.ft, d))
      {
        OrderIsImmaterial(rd, node, nbrs, d);
      }
    }
  }
}
