/** What one UPDATE does to a forwarding table that was just computed, told from the tables before it. */
module UpdateEffects {
  import opened Collections
  import opened Routes
  import opened Tables
  import opened Selection
  import opened Changes
  import opened NodeSteps
  import opened Currency

  // ---------- which known route can move ----------

  /** What the other current neighbours hold for the destination of `rt` once suspect entries are erased. */
  function Rivals(node: Node, src: Addr, rt: Entry): seq<Entry> {
    if Fake(node, src, rt, rt.dst) then [] else Candidates(Without(node.nbrs, src), node.dvt, rt.dst)
  }

  /**
   * The UPDATE is stored, and moves the known route it is about: one that goes through its sender follows it, unless a
   * rival with the old value takes over; any other moves if the sender is current and offers something that displaces it.
   */
  ghost predicate UpdateMoves(rd: Reading, node: Node, src: Addr, rt: Entry) {
    && rt.dst in node.ft && rt.dst != node.main && Writes(rd, node, src)
    && var f := node.ft[rt.dst];
       if f.nextHop == src then
         var rivals := Rivals(node, src, rt);
         (src in node.nbrs || rivals != []) && !Prevails(rd, rt, rivals, f)
       else
         var s := Refreshed(node.dvt, f, rt.dst);
         src in node.nbrs && !SameValue(if Beats(rd, rt, s) then rt else s, f)
  }

  /** An UPDATE does not touch any route but the one it is about, nor that one if it is not stored. */
  lemma OthersStayPut(rd: Reading, node: Node, src: Addr, rt: Entry, d: Addr)
    requires Consistent(node) && JustComputed(rd, node) && rt.nextHop == src
    requires d != rt.dst || !Writes(rd, node, src) || (src !in node.nbrs && !(d in node.ft && node.ft[d].nextHop == src))
    ensures Lookup(AfterUpdate(rd, node, src, rt).ft, d) == Lookup(node.ft, d)
  {
    var dvt := UpdatedDvt(rd, node, src, rt);
    if d in node.ft {
      RefreshFindsItsRow(rd, node, src, rt, d);
      assert !Erased(node, src, rt, node.ft[d].nextHop, d);
    }
    CellStaysPut(rd, node, node.nbrs, dvt, d);
    ComputedCell(rd, Stored(rd, node, src, rt), d);
  }

  /** Selecting from the stored rows, starting from `rt` itself, is selecting among its rivals. */
  lemma {:induction false} OnlyRivalsMatter(rd: Reading, node: Node, src: Addr, rt: Entry, nbrs: seq<Addr>, dvt: Dvt)
    requires src in dvt && rt.dst in dvt[src] && dvt[src][rt.dst] == rt
    requires forall n :: n in nbrs && n != src ==>
                           (n in dvt && rt.dst in dvt[n] <==> n in node.dvt && rt.dst in node.dvt[n]) &&
                           (n in dvt && rt.dst in dvt[n] ==> dvt[n][rt.dst] == node.dvt[n][rt.dst])
    ensures Select(rd, rt, Candidates(nbrs, dvt, rt.dst)) ==
            Select(rd, rt, Candidates(Without(nbrs, src), node.dvt, rt.dst))
    ensures Candidates(nbrs, dvt, rt.dst) == [] <==>
            src !in nbrs && Candidates(Without(nbrs, src), node.dvt, rt.dst) == []
  {
    if nbrs != [] {
      var init, n, d := nbrs[..|nbrs| - 1], nbrs[|nbrs| - 1], rt.dst;
      assert nbrs == init + [n];
      OnlyRivalsMatter(rd, node, src, rt, init, dvt);
      CandidatesPush(init, n, dvt, d);
      RivalsPush(node, src, init, n, d);
      if n in dvt && d in dvt[n] {
        RivalsStep(rd, rt, Candidates(init, dvt, d), Candidates(Without(init, src), node.dvt, d), dvt[n][d]);
      }
    }
  }

  lemma CandidatesPush(init: seq<Addr>, n: Addr, dvt: Dvt, d: Addr)
    ensures Candidates(init + [n], dvt, d) ==
            Candidates(init, dvt, d) + if n in dvt && d in dvt[n] then [dvt[n][d]] else []
  {
    CandidatesAppend(init, [n], dvt, d);
    CandidatesOfOne(n, dvt, d);
  }

  lemma RivalsPush(node: Node, src: Addr, init: seq<Addr>, n: Addr, d: Addr)
    ensures Candidates(Without(init + [n], src), node.dvt, d) ==
            Candidates(Without(init, src), node.dvt, d) +
            if n != src && n in node.dvt && d in node.dvt[n] then [node.dvt[n][d]] else []
  {
    FilterAppend(init, [n], Except(src));
    assert [n][..0] == [] && Filter([n], Except(src)) == if n != src then [n] else [];
    if n != src {
      CandidatesPush(Without(init, src), n, node.dvt, d);
    } else {
      assert Without(init + [n], src) == Without(init, src);
    }
  }

  lemma RivalsStep(rd: Reading, rt: Entry, cs: seq<Entry>, rivals: seq<Entry>, c: Entry)
    requires Select(rd, rt, cs) == Select(rd, rt, rivals)
    ensures Select(rd, rt, cs + [c]) == Select(rd, rt, rivals + [c])
    ensures c == rt ==> Select(rd, rt, cs + [c]) == Select(rd, rt, rivals)
  {
    assert (cs + [c])[..|cs|] == cs && (rivals + [c])[..|rivals|] == rivals;
    SelectIsMaximal(rd, rt, cs);
    var e := Select(rd, rt, cs);
    BeatsIsStrictPartialOrder(rd, rt, e, rt);
  }

  /** All there is to select from is `rt`, as often as its sender is listed. */
  lemma {:induction false} NoRivals(rd: Reading, s: Entry, rt: Entry, src: Addr, nbrs: seq<Addr>, dvt: Dvt)
    requires src in dvt && rt.dst in dvt[src] && dvt[src][rt.dst] == rt
    requires forall n :: n in nbrs && n != src ==> !(n in dvt && rt.dst in dvt[n])
    ensures Candidates(nbrs, dvt, rt.dst) == [] <==> src !in nbrs
    ensures Select(rd, s, Candidates(nbrs, dvt, rt.dst)) == if src in nbrs && Beats(rd, rt, s) then rt else s
  {
    if nbrs != [] {
      var init, n := nbrs[..|nbrs| - 1], nbrs[|nbrs| - 1];
      NoRivals(rd, s, rt, src, init, dvt);
      BeatsIsStrictPartialOrder(rd, rt, rt, rt);
      assert nbrs == init + [n];
    }
  }

  /** A route through the sender of a stored UPDATE. */
  lemma RouteThroughSender(rd: Reading, node: Node, src: Addr, rt: Entry)
    requires Consistent(node) && rt.nextHop == src && Writes(rd, node, src)
    requires rt.dst in node.ft && node.ft[rt.dst].nextHop == src
    ensures var rivals := Rivals(node, src, rt);
            RouteStands(rd, Stored(rd, node, src, rt), rt.dst) <==>
            (src !in node.nbrs && rivals == []) || Prevails(rd, rt, rivals, node.ft[rt.dst])
  {
    var dvt, f := UpdatedDvt(rd, node, src, rt), node.ft[rt.dst];
    var cs := Candidates(node.nbrs, dvt, rt.dst);
    if Fake(node, src, rt, rt.dst) {
      assert forall n :: n in node.nbrs && n != src ==> Erased(node, src, rt, n, rt.dst);
      NoRivals(rd, rt, rt, src, node.nbrs, dvt);
      BeatsIsStrictPartialOrder(rd, rt, rt, rt);
      assert Select(rd, rt, []) == rt;
    } else {
      OnlyRivalsMatter(rd, node, src, rt, node.nbrs, dvt);
    }
    SelectsExactly(rd, rt, cs, f);
    SelectsExactly(rd, rt, Rivals(node, src, rt), f);
  }

  /** A route through another neighbour, when the sender of a stored UPDATE is current. */
  lemma RouteThroughAnother(rd: Reading, node: Node, src: Addr, rt: Entry)
    requires Consistent(node) && JustComputed(rd, node) && rt.nextHop == src && Writes(rd, node, src)
    requires rt.dst in node.ft && node.ft[rt.dst].nextHop != src && src in node.nbrs
    ensures var f := node.ft[rt.dst];
            var s := Refreshed(node.dvt, f, rt.dst);
            RouteStands(rd, Stored(rd, node, src, rt), rt.dst) <==> SameValue(if Beats(rd, rt, s) then rt else s, f)
  {
    var stored, f := Stored(rd, node, src, rt), node.ft[rt.dst];
    var s := Refreshed(node.dvt, f, rt.dst);
    assert forall n :: !Erased(node, src, rt, n, rt.dst);
    assert forall n :: n != src ==>
        (n in stored.dvt && rt.dst in stored.dvt[n] <==> n in node.dvt && rt.dst in node.dvt[n]) &&
        (n in stored.dvt && rt.dst in stored.dvt[n] ==> stored.dvt[n][rt.dst] == node.dvt[n][rt.dst]);
    assert Refreshed(stored.dvt, f, rt.dst) == s;
    SelectsExactly(rd, s, Candidates(node.nbrs, stored.dvt, rt.dst), f);
    AnotherCandidate(rd, node, src, rt, stored.dvt);
  }

  lemma AnotherCandidate(rd: Reading, node: Node, src: Addr, rt: Entry, dvt: Dvt)
    requires Consistent(node) && JustComputed(rd, node) && rt.dst in node.ft && src in node.nbrs
    requires src in dvt && rt.dst in dvt[src] && dvt[src][rt.dst] == rt
    requires forall n :: n != src ==>
                           (n in dvt && rt.dst in dvt[n] <==> n in node.dvt && rt.dst in node.dvt[n]) &&
                           (n in dvt && rt.dst in dvt[n] ==> dvt[n][rt.dst] == node.dvt[n][rt.dst])
    ensures var f, cs := node.ft[rt.dst], Candidates(node.nbrs, dvt, rt.dst);
            var s := Refreshed(node.dvt, f, rt.dst);
            && cs != []
            && (SameValue(Select(rd, s, cs), f) <==> SameValue(if Beats(rd, rt, s) then rt else s, f))
  {
    var f, cs := node.ft[rt.dst], Candidates(node.nbrs, dvt, rt.dst);
    assert Holds(node.nbrs, dvt, src, rt.dst);
    if exists n :: Holds(node.nbrs, node.dvt, n, rt.dst) {
      HeldRouteIsSettled(rd, node, rt.dst);
      DisplacedExactly(rd, f, rt, cs);
    } else {
      forall n | n in node.nbrs && n != src ensures !(n in dvt && rt.dst in dvt[n]) {
        assert !Holds(node.nbrs, node.dvt, n, rt.dst);
      }
      NoRivals(rd, Refreshed(node.dvt, f, rt.dst), rt, src, node.nbrs, dvt);
    }
  }

  /** If only `rt` can displace `f`, the value selected changes exactly when it does. */
  lemma DisplacedExactly(rd: Reading, f: Entry, rt: Entry, cs: seq<Entry>)
    requires rt in cs && forall c :: c in cs && c != rt ==> !Beats(rd, c, f)
    ensures SameValue(Select(rd, f, cs), f) <==> SameValue(if Beats(rd, rt, f) then rt else f, f)
  {
    SelectIsMaximal(rd, f, cs);
    if !Beats(rd, rt, f) {
      SelectStays(rd, f, cs);
    }
  }

  /** Among the known routes an UPDATE moves exactly the one it is about, and that exactly under the guard above. */
  lemma UpdateMovesExactly(rd: Reading, node: Node, src: Addr, rt: Entry, d: Addr)
    requires Consistent(node) && JustComputed(rd, node) && rt.nextHop == src
    ensures KnownRouteMoves(rd, Stored(rd, node, src, rt), d) <==> d == rt.dst && UpdateMoves(rd, node, src, rt)
  {
    if d in node.ft {
      if d == rt.dst && Writes(rd, node, src) && node.ft[d].nextHop == src {
        RouteThroughSender(rd, node, src, rt);
      } else if d == rt.dst && Writes(rd, node, src) && src in node.nbrs {
        RouteThroughAnother(rd, node, src, rt);
      } else {
        OthersStayPut(rd, node, src, rt, d);
        KnownRouteMovesExactly(rd, Stored(rd, node, src, rt), d);
      }
    }
  }

  // ---------- what follows for the reports ----------

  /**
   * The change list of an UPDATE covers every change exactly when the guard is the documented one, or the UPDATE moves no
   * known route.
   */
  lemma UpdateIsListedExactly(rd: Reading, node: Node, src: Addr, rt: Entry)
    requires Consistent(node) && JustComputed(rd, node) && rt.nextHop == src
    ensures var stored := Stored(rd, node, src, rt);
            (forall d :: Changed(rd, stored, d) ==> d in ChangeList(rd, stored)) <==>
            rd.pushesAbsent || !UpdateMoves(rd, node, src, rt)
  {
    var stored := Stored(rd, node, src, rt);
    StoredIsConsistent(rd, node, src, rt);
    ListCoversChangesExactly(rd, stored);
    UpdateMovesExactly(rd, node, src, rt, rt.dst);
    forall d ensures KnownRouteMoves(rd, stored, d) ==> UpdateMoves(rd, node, src, rt) {
      UpdateMovesExactly(rd, node, src, rt, d);
    }
  }

  /**
   * A neighbour that was current stays so through an UPDATE exactly when changes are reported as documented, or the
   * UPDATE moves no known route, or only the route to that neighbour itself.
   */
  lemma UpdateKeepsCurrentExactly(rd: Reading, node: Node, sent: seq<Send>, src: Addr, rt: Entry, ne: Addr)
    requires Consistent(node) && JustComputed(rd, node) && rt.nextHop == src
    requires ne in node.nbrs && CurrentAt(node, sent, ne)
    ensures var stored := Stored(rd, node, src, rt);
            CurrentAt(Computed(rd, stored), sent + Reported(rd, stored), ne) <==>
            rd.pushesAbsent || !UpdateMoves(rd, node, src, rt) || ne == rt.dst
  {
    var stored := Stored(rd, node, src, rt);
    UpdateKeepsNeighborCurrentExactly(rd, node, sent, src, rt, ne);
    forall d ensures DueRouteMoves(rd, stored, ne, d) <==> ne != d && d == rt.dst && UpdateMoves(rd, node, src, rt) {
      UpdateMovesExactly(rd, node, src, rt, d);
    }
    if UpdateMoves(rd, node, src, rt) && ne != rt.dst {
      assert DueRouteMoves(rd, stored, ne, rt.dst);
    }
  }

  // ---------- UPDATEs that do nothing ----------

  /** What the write guard costs: as written, an UPDATE from a current neighbour with a row changes no route at all. */
  lemma NeighborUpdateIsInert(rd: Reading, node: Node, src: Addr, upd: Update)
    requires !rd.writesExisting && Consistent(node) && JustComputed(rd, node)
    requires src in node.nbrs && src in node.dvt
    ensures OnUpdate(rd, node, src, upd).node.ft == node.ft
    ensures ChangeList(rd, Stored(rd, node, src, RouteFrom(src, upd))) == []
  {
    var rt := RouteFrom(src, upd);
    forall d ensures Lookup(AfterUpdate(rd, node, src, rt).ft, d) == Lookup(node.ft, d) {
      OthersStayPut(rd, node, src, rt, d);
    }
    InertUpdate(rd, node, src, rt);
  }

  lemma InertUpdate(rd: Reading, node: Node, src: Addr, rt: Entry)
    requires Consistent(node) && rt.nextHop == src
    requires forall d :: Lookup(AfterUpdate(rd, node, src, rt).ft, d) == Lookup(node.ft, d)
    ensures AfterUpdate(rd, node, src, rt) == Stored(rd, node, src, rt)
    ensures ChangeList(rd, Stored(rd, node, src, rt)) == []
  {
    var stored := Stored(rd, node, src, rt);
    StoredIsConsistent(rd, node, src, rt);
    SameRows(AfterUpdate(rd, node, src, rt).ft, node.ft);
    assert Computed(rd, stored) == stored;
    FixpointListIsEmpty(rd, stored);
  }
}
