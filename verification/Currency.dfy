/** Do the neighbours know what this node's forwarding table says? */
module Currency {
  import opened Collections
  import opened Routes
  import opened Tables
  import opened Changes
  import opened NodeSteps

  /** The last UPDATE about `d` that was sent to `ne`. */
  function LastSent(sends: seq<Send>, ne: Addr, d: Addr): Option<Update> {
    if sends == [] then None else
    var s := sends[|sends| - 1];
    if s.to == ne && s.upd.dst == d then Some(s.upd) else LastSent(sends[..|sends| - 1], ne, d)
  }

  /** Whether `ne` is due the route to `d`: not if `d` is `ne` itself, nor if `d` is the node. */
  predicate Due(node: Node, ne: Addr, d: Addr) {
    ne in node.nbrs && d != ne && d != node.main && d in node.ft
  }

  /** Every neighbour was last sent what the table now says. */
  ghost predicate Current(node: Node, sent: seq<Send>) {
    forall ne :: CurrentAt(node, sent, ne)
  }

  /** `ne` was last sent what the table says, for every destination it is due. */
  ghost predicate CurrentAt(node: Node, sent: seq<Send>, ne: Addr) {
    forall d :: Due(node, ne, d) ==> LastSent(sent, ne, d) == Some(Header(node.main, node.ft[d]))
  }

  ghost predicate KeyedByDestination(ft: Row) {
    forall d :: d in ft ==> ft[d].dst == d
  }

  lemma {:induction false} LastSentAppend(a: seq<Send>, b: seq<Send>, ne: Addr, d: Addr)
    ensures LastSent(a + b, ne, d) == if LastSent(b, ne, d).Some? then LastSent(b, ne, d) else LastSent(a, ne, d)
  {
    if b == [] {
      assert a + b == a;
    } else {
      assert (a + b)[..|a + b| - 1] == a + b[..|b| - 1];
      LastSentAppend(a, b[..|b| - 1], ne, d);
    }
  }

  lemma LastSentOne(s: Send, ne: Addr, d: Addr)
    ensures LastSent([s], ne, d) == if s.to == ne && s.upd.dst == d then Some(s.upd) else None
  {
  }

  lemma {:induction false} ChangesToSends(node: Node, changes: seq<Addr>, to: Addr, ne: Addr, d: Addr)
    requires KeyedByDestination(node.ft)
    ensures LastSent(ChangesTo(node, changes, to), ne, d) ==
            if to == ne && d in changes && d in node.ft && d != ne then Some(Header(node.main, node.ft[d])) else None
  {
    if changes != [] {
      var init, c := changes[..|changes| - 1], changes[|changes| - 1];
      assert d in changes <==> d in init || d == c;
      ChangesToSends(node, init, to, ne, d);
      if c in node.ft && c != to {
        var s := Send(to, Header(node.main, node.ft[c]));
        LastSentAppend(ChangesTo(node, init, to), [s], ne, d);
        LastSentOne(s, ne, d);
      } else {
        assert ChangesTo(node, changes, to) == ChangesTo(node, init, to);
      }
    }
  }

  lemma {:induction false} AdvertiseSends(node: Node, nbrs: seq<Addr>, changes: seq<Addr>, nex: seq<Addr>, ne: Addr, d: Addr)
    requires KeyedByDestination(node.ft)
    ensures LastSent(Advertise(node, nbrs, changes, nex), ne, d) ==
            if ne in nbrs && ne !in nex && d in changes && d in node.ft && d != ne
            then Some(Header(node.main, node.ft[d])) else None
  {
    if nbrs != [] {
      var init, n := nbrs[..|nbrs| - 1], nbrs[|nbrs| - 1];
      assert nbrs == init + [n];
      AdvertiseSends(node, init, changes, nex, ne, d);
      ChangesToSends(node, changes, n, ne, d);
      LastSentAppend(Advertise(node, init, changes, nex), if n in nex then [] else ChangesTo(node, changes, n), ne, d);
    }
  }

  /** A known route that a neighbour is due, and that the rows do not let stand. */
  ghost predicate DueRouteMoves(rd: Reading, stored: Node, ne: Addr, d: Addr) {
    ne in stored.nbrs && d != ne && KnownRouteMoves(rd, stored, d)
  }

  /** Recomputing the table and reporting the changes. */
  function Reported(rd: Reading, node: Node): seq<Send> {
    Advertise(Computed(rd, node), node.nbrs, ChangeList(rd, node), [])
  }

  lemma ReportedSends(rd: Reading, node: Node, ne: Addr, d: Addr)
    requires Consistent(node)
    requires Due(Computed(rd, node), ne, d)
    ensures LastSent(Reported(rd, node), ne, d) ==
            if d in ChangeList(rd, node) then Some(Header(node.main, ComputedFt(rd, node)[d])) else None
  {
    ComputedIsConsistent(rd, node);
    AdvertiseSends(Computed(rd, node), node.nbrs, ChangeList(rd, node), [], ne, d);
  }

  lemma UnlistedStaysCurrentExactly(rd: Reading, node: Node, sent: seq<Send>, ne: Addr, d: Addr)
    requires Consistent(node) && CurrentAt(node, sent, ne)
    requires Due(Computed(rd, node), ne, d) && d !in ChangeList(rd, node)
    ensures LastSent(sent, ne, d) == Some(Header(node.main, ComputedFt(rd, node)[d])) <==>
            rd.pushesAbsent || !KnownRouteMoves(rd, node, d)
  {
    ComputedIsConsistent(rd, node);
    KnownRouteMovesExactly(rd, node, d);
    if rd.pushesAbsent && Changed(rd, node, d) {
      IntendedListCoversChanges(rd, node, d);
    }
    if !rd.pushesAbsent {
      AsWrittenListIsNewRoutes(rd, node, d);
    }
    assert d in node.ft;
    assert Due(node, ne, d);
  }

  lemma PairStaysCurrentExactly(rd: Reading, node: Node, sent: seq<Send>, ne: Addr, d: Addr)
    requires Consistent(node) && CurrentAt(node, sent, ne)
    requires Due(Computed(rd, node), ne, d)
    ensures LastSent(sent + Reported(rd, node), ne, d) == Some(Header(node.main, ComputedFt(rd, node)[d])) <==>
            rd.pushesAbsent || !KnownRouteMoves(rd, node, d)
  {
    LastSentAppend(sent, Reported(rd, node), ne, d);
    ReportedSends(rd, node, ne, d);
    if d in ChangeList(rd, node) {
      if !rd.pushesAbsent {
        AsWrittenListIsNewRoutes(rd, node, d);
      }
    } else {
      UnlistedStaysCurrentExactly(rd, node, sent, ne, d);
    }
  }

  lemma ComputingKeepsCurrentExactly(rd: Reading, node: Node, sent: seq<Send>, ne: Addr)
    requires Consistent(node) && CurrentAt(node, sent, ne)
    ensures CurrentAt(Computed(rd, node), sent + Reported(rd, node), ne) <==>
            rd.pushesAbsent || forall d :: !DueRouteMoves(rd, node, ne, d)
  {
    forall d | Due(Computed(rd, node), ne, d)
      ensures LastSent(sent + Reported(rd, node), ne, d) == Some(Header(node.main, ComputedFt(rd, node)[d])) <==>
              rd.pushesAbsent || !DueRouteMoves(rd, node, ne, d)
    {
      PairStaysCurrentExactly(rd, node, sent, ne, d);
    }
    forall d | DueRouteMoves(rd, node, ne, d) ensures Due(Computed(rd, node), ne, d) {
      ComputedCell(rd, node, d);
    }
  }

  /**
   * Suppose the neighbour `ne` was current.  After the tables absorb a route and the reported changes are sent, it is
   * current again exactly when changes are reported as documented, or the rows let every known route it is due stand.
   */
  lemma UpdateKeepsNeighborCurrentExactly(rd: Reading, node: Node, sent: seq<Send>, src: Addr, rt: Entry, ne: Addr)
    requires Consistent(node) && rt.nextHop == src
    requires CurrentAt(node, sent, ne)
    ensures var stored := Stored(rd, node, src, rt);
            CurrentAt(Computed(rd, stored), sent + Reported(rd, stored), ne) <==>
            rd.pushesAbsent || forall d :: !DueRouteMoves(rd, stored, ne, d)
  {
    var stored := Stored(rd, node, src, rt);
    StoredIsConsistent(rd, node, src, rt);
    assert CurrentAt(stored, sent, ne) by {
      assert forall d :: Due(stored, ne, d) ==> Due(node, ne, d);
    }
    ComputingKeepsCurrentExactly(rd, stored, sent, ne);
  }

  /** The same for all neighbours at once. */
  lemma UpdatesKeepNeighborsCurrentExactly(rd: Reading, node: Node, sent: seq<Send>, src: Addr, rt: Entry)
    requires Consistent(node) && rt.nextHop == src
    requires Current(node, sent)
    ensures var stored := Stored(rd, node, src, rt);
            Current(Computed(rd, stored), sent + Reported(rd, stored)) <==>
            rd.pushesAbsent || forall ne, d :: !DueRouteMoves(rd, stored, ne, d)
  {
    var stored := Stored(rd, node, src, rt);
    forall ne
      ensures CurrentAt(Computed(rd, stored), sent + Reported(rd, stored), ne) <==>
              rd.pushesAbsent || forall d :: !DueRouteMoves(rd, stored, ne, d)
    {
      assert CurrentAt(node, sent, ne);
      UpdateKeepsNeighborCurrentExactly(rd, node, sent, src, rt, ne);
    }
    AllOrSome(rd, stored, Computed(rd, stored), sent + Reported(rd, stored));
  }

  lemma AllOrSome(rd: Reading, stored: Node, node: Node, sent: seq<Send>)
    requires forall ne :: CurrentAt(node, sent, ne) <==> rd.pushesAbsent || forall d :: !DueRouteMoves(rd, stored, ne, d)
    ensures Current(node, sent) <==> rd.pushesAbsent || forall ne, d :: !DueRouteMoves(rd, stored, ne, d)
  {
    if ne, d :| DueRouteMoves(rd, stored, ne, d) {
      assert CurrentAt(node, sent, ne) <==> rd.pushesAbsent;
    }
  }

  lemma SendingTheTableKeepsCurrent(node: Node, sent: seq<Send>, to: Addr, d: Addr)
    requires KeyedByDestination(node.ft) && d in node.ft
    requires Current(node, sent)
    ensures Current(node, sent + [Send(to, Header(node.main, node.ft[d]))])
  {
    forall ne ensures CurrentAt(node, sent + [Send(to, Header(node.main, node.ft[d]))], ne) {
      assert CurrentAt(node, sent, ne);
    }
  }

  /** With changes reported as documented, receiving any UPDATE, replies included, keeps the neighbours current. */
  lemma RecvUpdateKeepsNeighborsCurrent(rd: Reading, node: Node, sent: seq<Send>, src: Addr, upd: Update)
    requires rd.pushesAbsent && Consistent(node)
    requires Current(node, sent)
    ensures var o := OnUpdate(rd, node, src, upd); Current(o.node, sent + o.sends)
  {
    var stored := Stored(rd, node, src, RouteFrom(src, upd));
    var node', reported := Computed(rd, stored), Reported(rd, stored);
    UpdateReports(rd, node, sent, src, upd);
    assert Current(node', sent + reported) by {
      UpdatesKeepNeighborsCurrentExactly(rd, node, sent, src, RouteFrom(src, upd));
    }
    assert KeyedByDestination(node'.ft) by {
      UpdateKeepsConsistent(rd, node, src, RouteFrom(src, upd));
    }
    ReplyingKeepsCurrent(node', sent + reported, upd);
  }

  /** What receiving an UPDATE sends: the changes, then the reply. */
  lemma UpdateReports(rd: Reading, node: Node, sent: seq<Send>, src: Addr, upd: Update)
    ensures var stored := Stored(rd, node, src, RouteFrom(src, upd));
            var o := OnUpdate(rd, node, src, upd);
            o.node == Computed(rd, stored) && sent + o.sends == sent + Reported(rd, stored) + ReplySends(o.node, upd)
  {
    var o := OnUpdate(rd, node, src, upd);
    var reported := Reported(rd, Stored(rd, node, src, RouteFrom(src, upd)));
    assert o.sends == reported + ReplySends(o.node, upd);
  }

  lemma ReplyingKeepsCurrent(node: Node, sent: seq<Send>, upd: Update)
    requires KeyedByDestination(node.ft) && Current(node, sent)
    ensures Current(node, sent + ReplySends(node, upd))
  {
    if ReplySends(node, upd) == [] {
      assert sent + [] == sent;
    } else {
      SendingTheTableKeepsCurrent(node, sent, upd.origin, upd.dst);
    }
  }
}
