/** The list of destinations that ComputeForwardingTable reports as changed, in the order in which it pushes them. */
module Changes {
  import opened Collections
  import opened Routes
  import opened Tables
  import opened Selection

  /** Does looking at neighbour `n`, after `init`, push `d` onto the list `log`? */
  predicate Pushes(rd: Reading, init: seq<Addr>, n: Addr, dvt: Dvt, ft: Row, log: seq<Addr>, d: Addr) {
    && n in dvt
    && d in dvt[n]
    && match Cell(rd, init, dvt, ft, d)
       case None => true
       case Some(old_) =>
         var curr := Refreshed(dvt, old_, d);
         && (Beats(rd, dvt[n][d], curr) || !SameValue(curr, old_))
         && (rd.pushesAbsent <==> d !in log)
  }

  function PushTest(rd: Reading, init: seq<Addr>, n: Addr, dvt: Dvt, ft: Row, log: seq<Addr>): Addr -> bool {
    (d: Addr) => Pushes(rd, init, n, dvt, ft, log, d)
  }

  function RowKeys(dvt: Dvt, n: Addr): seq<Addr> {
    if n in dvt then SortedKeys(dvt[n].Keys) else []
  }

  function ChangeLog(rd: Reading, nbrs: seq<Addr>, dvt: Dvt, ft: Row): seq<Addr> {
    if nbrs == [] then [] else
    var init, n := nbrs[..|nbrs| - 1], nbrs[|nbrs| - 1];
    var log := ChangeLog(rd, init, dvt, ft);
    log + Filter(RowKeys(dvt, n), PushTest(rd, init, n, dvt, ft, log))
  }

  /** What ComputeForwardingTable returns. */
  function ChangeList(rd: Reading, node: Node): seq<Addr> {
    Without(ChangeLog(rd, node.nbrs, node.dvt, node.ft), node.main)
  }

  lemma LogStep(rd: Reading, nbrs: seq<Addr>, n: Addr, dvt: Dvt, ft: Row, d: Addr)
    ensures var log := ChangeLog(rd, nbrs, dvt, ft);
            d in ChangeLog(rd, nbrs + [n], dvt, ft) <==> d in log || Pushes(rd, nbrs, n, dvt, ft, log, d)
  {
    assert (nbrs + [n])[..|nbrs|] == nbrs;
    var log := ChangeLog(rd, nbrs, dvt, ft);
    var added := Filter(RowKeys(dvt, n), PushTest(rd, nbrs, n, dvt, ft, log));
    assert ChangeLog(rd, nbrs + [n], dvt, ft) == log + added;
    assert d in log + added <==> d in log || d in added;
  }

  /** Only destinations that a current neighbour holds are ever listed. */
  lemma {:induction false} ListedIsHeld(rd: Reading, nbrs: seq<Addr>, dvt: Dvt, ft: Row, d: Addr)
    requires d in ChangeLog(rd, nbrs, dvt, ft)
    ensures exists n :: Holds(nbrs, dvt, n, d)
  {
    var init, n := nbrs[..|nbrs| - 1], nbrs[|nbrs| - 1];
    if d in ChangeLog(rd, init, dvt, ft) {
      ListedIsHeld(rd, init, dvt, ft, d);
      var m :| Holds(init, dvt, m, d);
      assert Holds(nbrs, dvt, m, d);
    } else {
      var log := ChangeLog(rd, init, dvt, ft);
      assert d in Filter(RowKeys(dvt, n), PushTest(rd, init, n, dvt, ft, log));
      assert d in RowKeys(dvt, n);
      assert Holds(nbrs, dvt, n, d);
    }
  }

  lemma ListedIsKnownToCell(rd: Reading, nbrs: seq<Addr>, dvt: Dvt, ft: Row, d: Addr)
    requires d in ChangeLog(rd, nbrs, dvt, ft)
    ensures Cell(rd, nbrs, dvt, ft, d).Some?
  {
  }

  /** With the guard as documented, nothing is listed twice. */
  lemma {:induction false} IntendedLogIsDistinct(rd: Reading, nbrs: seq<Addr>, dvt: Dvt, ft: Row)
    requires rd.pushesAbsent
    ensures Distinct(ChangeLog(rd, nbrs, dvt, ft))
  {
    if nbrs != [] {
      var init, n := nbrs[..|nbrs| - 1], nbrs[|nbrs| - 1];
      IntendedLogIsDistinct(rd, init, dvt, ft);
      var log := ChangeLog(rd, init, dvt, ft);
      var test := PushTest(rd, init, n, dvt, ft, log);
      var added := Filter(RowKeys(dvt, n), test);
      FilterIsDistinct(RowKeys(dvt, n), test);
      forall d | d in added ensures d !in log {
        assert test(d);
        if d in log {
          ListedIsKnownToCell(rd, init, dvt, ft, d);
        }
      }
      AppendIsDistinct(log, added);
    }
  }

  /** With the guard as documented, a destination that is not listed kept its value. */
  lemma {:induction false} IntendedLogCovers(rd: Reading, nbrs: seq<Addr>, dvt: Dvt, ft: Row, d: Addr)
    requires rd.pushesAbsent && RowsOwned(dvt)
    requires d !in ChangeLog(rd, nbrs, dvt, ft)
    ensures SameCell(Cell(rd, nbrs, dvt, ft, d), Lookup(ft, d))
  {
    if nbrs != [] {
      var init, n := nbrs[..|nbrs| - 1], nbrs[|nbrs| - 1];
      assert nbrs == init + [n];
      LogStep(rd, init, n, dvt, ft, d);
      IntendedLogCovers(rd, init, dvt, ft, d);
      CellStep(rd, init, n, dvt, ft, d);
    }
  }

  /** With the guard as written, exactly the new destinations are listed. */
  lemma {:induction false} AsWrittenLog(rd: Reading, nbrs: seq<Addr>, dvt: Dvt, ft: Row, d: Addr)
    requires !rd.pushesAbsent
    ensures d in ChangeLog(rd, nbrs, dvt, ft) <==> d !in ft && exists n :: Holds(nbrs, dvt, n, d)
  {
    if nbrs != [] {
      var init, n := nbrs[..|nbrs| - 1], nbrs[|nbrs| - 1];
      assert nbrs == init + [n];
      AsWrittenLog(rd, init, dvt, ft, d);
      LogStep(rd, init, n, dvt, ft, d);
      assert forall m :: Holds(nbrs, dvt, m, d) <==> Holds(init, dvt, m, d) || Holds([n], dvt, m, d);
      assert Holds([n], dvt, n, d) <==> n in dvt && d in dvt[n];
      CandidatesExist(init, dvt, d);
    }
  }

  /** The destinations, other than the node itself, whose reachability as a neighbour sees it changed. */
  ghost predicate Changed(rd: Reading, node: Node, d: Addr) {
    d != node.main && !SameCell(Lookup(ComputedFt(rd, node), d), Lookup(node.ft, d))
  }

  /** A known route that the rows, as they are before the computation, do not let stand. */
  ghost predicate KnownRouteMoves(rd: Reading, node: Node, d: Addr) {
    d in node.ft && d != node.main && !RouteStands(rd, node, d)
  }

  /** It is then, and only then, that the computation changes its hop count or state. */
  lemma KnownRouteMovesExactly(rd: Reading, node: Node, d: Addr)
    ensures KnownRouteMoves(rd, node, d) <==> d in node.ft && Changed(rd, node, d)
  {
    if d in node.ft {
      RouteStandsExactly(rd, node, d);
    }
  }

  lemma IntendedListCoversChanges(rd: Reading, node: Node, d: Addr)
    requires rd.pushesAbsent && RowsOwned(node.dvt)
    requires Changed(rd, node, d)
    ensures d in ChangeList(rd, node)
  {
    ComputedCell(rd, node, d);
    if d !in ChangeLog(rd, node.nbrs, node.dvt, node.ft) {
      IntendedLogCovers(rd, node.nbrs, node.dvt, node.ft, d);
    }
  }

  lemma AsWrittenListIsNewRoutes(rd: Reading, node: Node, d: Addr)
    requires !rd.pushesAbsent
    ensures d in ChangeList(rd, node) <==> Changed(rd, node, d) && d !in node.ft
  {
    AsWrittenLog(rd, node.nbrs, node.dvt, node.ft, d);
    ComputedCell(rd, node, d);
    CandidatesExist(node.nbrs, node.dvt, d);
  }

  /**
   * The returned list covers every change exactly when the guard is the documented one or the rows let every known route
   * stand: the guard as written reports new destinations only.
   */
  lemma ListCoversChangesExactly(rd: Reading, node: Node)
    requires RowsOwned(node.dvt)
    ensures (forall d :: Changed(rd, node, d) ==> d in ChangeList(rd, node)) <==>
            rd.pushesAbsent || forall d :: !KnownRouteMoves(rd, node, d)
  {
    forall d | Changed(rd, node, d)
      ensures d in ChangeList(rd, node) <==> rd.pushesAbsent || !KnownRouteMoves(rd, node, d)
    {
      KnownRouteMovesExactly(rd, node, d);
      if rd.pushesAbsent {
        IntendedListCoversChanges(rd, node, d);
      } else {
        AsWrittenListIsNewRoutes(rd, node, d);
      }
    }
    forall d | KnownRouteMoves(rd, node, d) ensures Changed(rd, node, d) {
      KnownRouteMovesExactly(rd, node, d);
    }
  }

  /** The list never names the node itself, names only routes that are in the table, and under the intent has no repeats. */
  lemma ListIsWellFormed(rd: Reading, node: Node)
    ensures rd.pushesAbsent ==> Distinct(ChangeList(rd, node))
    ensures node.main !in ChangeList(rd, node)
    ensures forall d :: d in ChangeList(rd, node) ==> d in ComputedFt(rd, node)
  {
    var log := ChangeLog(rd, node.nbrs, node.dvt, node.ft);
    forall d | d in log ensures d in ComputedFt(rd, node) {
      ListedIsHeld(rd, node.nbrs, node.dvt, node.ft, d);
    }
    if rd.pushesAbsent {
      IntendedLogIsDistinct(rd, node.nbrs, node.dvt, node.ft);
      FilterIsDistinct(log, Except(node.main));
    }
  }

  /** A second run with unchanged rows and neighbours reports nothing, under either guard and either order. */
  lemma FixpointListIsEmpty(rd: Reading, node: Node)
    requires RowsOwned(node.dvt)
    ensures ChangeList(rd, Computed(rd, node)) == []
  {
    SettledLogIsEmpty(rd, node, node.nbrs);
  }

  lemma {:induction false} SettledLogIsEmpty(rd: Reading, node: Node, nbrs: seq<Addr>)
    requires RowsOwned(node.dvt)
    requires forall n :: n in nbrs ==> n in node.nbrs
    ensures ChangeLog(rd, nbrs, node.dvt, ComputedFt(rd, node)) == []
  {
    var ft := ComputedFt(rd, node);
    if nbrs != [] {
      var init, n := nbrs[..|nbrs| - 1], nbrs[|nbrs| - 1];
      assert nbrs == init + [n];
      SettledLogIsEmpty(rd, node, init);
      forall d ensures d !in ChangeLog(rd, nbrs, node.dvt, ft) {
        LogStep(rd, init, n, node.dvt, ft, d);
        SettledCell(rd, node, init, d);
        ComputedProperties(rd, node, d);
        assert n in node.dvt && d in node.dvt[n] ==> Holds(node.nbrs, node.dvt, n, d);
      }
      var log := ChangeLog(rd, nbrs, node.dvt, ft);
      if log != [] {
        NonEmptyHasMember(log);
      }
    }
  }
}
