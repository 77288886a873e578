/** What a first Hello tells whom: the newcomer learns the whole table, the other neighbours learn nothing. */
module Greetings {
  import opened Collections
  import opened Routes
  import opened Tables
  import opened Selection
  import opened NodeSteps
  import opened Currency
  import opened LoopFreedom

  /** A route that a newcomer `ne` is told about. */
  predicate Told(node: Node, ne: Addr, d: Addr) {
    d in node.ft && d != node.main && d != ne && d != LOOPBACK && d != UNSPECIFIED
  }

  lemma {:induction false} FullTableSends(node: Node, keys: seq<Addr>, to: Addr, ne: Addr, d: Addr)
    requires KeyedByDestination(node.ft)
    ensures LastSent(FullTable(node, keys, to), ne, d) ==
            if to == ne && d in keys && Told(node, ne, d) then Some(Header(node.main, node.ft[d])) else None
  {
    if keys != [] {
      var init, k := keys[..|keys| - 1], keys[|keys| - 1];
      assert d in keys <==> d in init || d == k;
      FullTableSends(node, init, to, ne, d);
      if Told(node, to, k) {
        var s := Send(to, Header(node.main, node.ft[k]));
        assert FullTable(node, keys, to) == FullTable(node, init, to) + [s];
        LastSentAppend(FullTable(node, init, to), [s], ne, d);
        LastSentOne(s, ne, d);
      } else {
        assert FullTable(node, keys, to) == FullTable(node, init, to);
      }
    }
  }

  lemma FirstHelloSends(rd: Reading, node: Node, v: Addr, ne: Addr, d: Addr)
    requires Consistent(node) && v !in node.nbrs && v !in RowOf(node.dvt, v)
    ensures var o := OnHello(rd, node, v, []);
            && KeyedByDestination(o.node.ft) && o.node.main == node.main && o.node.nbrs == node.nbrs + [v]
            && LastSent(o.sends, ne, d) ==
               if ne == v && Told(o.node, v, d) then Some(Header(node.main, o.node.ft[d])) else None
  {
    HelloKeepsConsistent(rd, node, v, []);
    NewcomerHello(rd, node, v);
    var node' := OnHello(rd, node, v, []).node;
    FullTableSends(node', SortedKeys(node'.ft.Keys), v, ne, d);
    assert d in SortedKeys(node'.ft.Keys) <==> d in node'.ft.Keys;
  }

  /** The newcomer is last told the route the table now has, for exactly the destinations it is told about at all. */
  lemma FirstHelloInformsNewcomer(rd: Reading, node: Node, v: Addr, d: Addr)
    requires Consistent(node) && v !in node.nbrs && v !in RowOf(node.dvt, v)
    ensures var o := OnHello(rd, node, v, []);
            if Told(o.node, v, d) then LastSent(o.sends, v, d) == Some(Header(node.main, o.node.ft[d]))
            else LastSent(o.sends, v, d) == None
  {
    FirstHelloSends(rd, node, v, v, d);
  }

  /** Nothing was ever sent about a destination that the table lacks. */
  ghost predicate SentOnlyRoutes(node: Node, sent: seq<Send>, ne: Addr) {
    forall d :: d !in node.ft ==> LastSent(sent, ne, d) == None
  }

  /** The tables as the Hello of `v` leaves them for ComputeForwardingTable. */
  function Greeting(node: Node, v: Addr): Node {
    Introduced(node.(nbrs := node.nbrs + [v]), v)
  }

  /** With the entry of `v` in place, a route to `d` is known or some neighbour offers one. */
  ghost predicate InView(node: Node, v: Addr, d: Addr) {
    d in node.ft || exists n :: Holds(Greeting(node, v).nbrs, Greeting(node, v).dvt, n, d)
  }

  /** A route to `d` is known, and the rows let it stand. */
  ghost predicate Stands(rd: Reading, node: Node, v: Addr, d: Addr) {
    d in node.ft && RouteStands(rd, Greeting(node, v), d)
  }

  ghost predicate NothingNewFor(rd: Reading, node: Node, v: Addr, ne: Addr) {
    forall d :: d != ne && d != node.main && InView(node, v, d) ==> Stands(rd, node, v, d)
  }

  lemma DueAfterHello(rd: Reading, node: Node, v: Addr, ne: Addr, d: Addr)
    requires v !in node.nbrs && v !in RowOf(node.dvt, v) && ne in node.nbrs
    ensures var node' := OnHello(rd, node, v, []).node;
            && node' == Computed(rd, Greeting(node, v))
            && (Due(node', ne, d) <==> d != ne && d != node.main && InView(node, v, d))
  {
    NewcomerHello(rd, node, v);
  }

  lemma OtherStaysCurrent(rd: Reading, node: Node, sent: seq<Send>, v: Addr, ne: Addr, d: Addr)
    requires Consistent(node) && v !in node.nbrs && v !in RowOf(node.dvt, v)
    requires ne in node.nbrs && CurrentAt(node, sent, ne) && SentOnlyRoutes(node, sent, ne)
    ensures var o := OnHello(rd, node, v, []);
            Due(o.node, ne, d) ==>
              (LastSent(sent + o.sends, ne, d) == Some(Header(o.node.main, o.node.ft[d])) <==> Stands(rd, node, v, d))
  {
    var o := OnHello(rd, node, v, []);
    DueAfterHello(rd, node, v, ne, d);
    assert LastSent(sent + o.sends, ne, d) == LastSent(sent, ne, d) && KeyedByDestination(o.node.ft) by {
      FirstHelloSends(rd, node, v, ne, d);
      LastSentAppend(sent, o.sends, ne, d);
    }
    if Due(o.node, ne, d) {
      assert d in node.ft ==> Due(node, ne, d);
      LastSentTells(node, o.node, LastSent(sent, ne, d), d);
      if d in node.ft {
        RouteStandsExactly(rd, Greeting(node, v), d);
      }
    }
  }

  lemma LastSentTells(node: Node, node': Node, last: Option<Update>, d: Addr)
    requires KeyedByDestination(node.ft) && KeyedByDestination(node'.ft) && node'.main == node.main && d in node'.ft
    requires last == if d in node.ft then Some(Header(node.main, node.ft[d])) else None
    ensures last == Some(Header(node'.main, node'.ft[d])) <==> SameCell(Lookup(node'.ft, d), Lookup(node.ft, d))
  {
  }

  /**
   * A neighbour that was current stays so through the first Hello of another node exactly when that Hello brings nothing
   * new for it: the changes a first Hello makes are reported to nobody else.
   */
  lemma FirstHelloKeepsOthersCurrentExactly(rd: Reading, node: Node, sent: seq<Send>, v: Addr, ne: Addr)
    requires Consistent(node) && v !in node.nbrs && v !in RowOf(node.dvt, v)
    requires ne in node.nbrs && CurrentAt(node, sent, ne) && SentOnlyRoutes(node, sent, ne)
    ensures var o := OnHello(rd, node, v, []);
            CurrentAt(o.node, sent + o.sends, ne) <==> NothingNewFor(rd, node, v, ne)
  {
    var o := OnHello(rd, node, v, []);
    forall d ensures Due(o.node, ne, d) <==> d != ne && d != node.main && InView(node, v, d) {
      DueAfterHello(rd, node, v, ne, d);
    }
    forall d | Due(o.node, ne, d)
      ensures LastSent(sent + o.sends, ne, d) == Some(Header(o.node.main, o.node.ft[d])) <==> Stands(rd, node, v, d)
    {
      OtherStaysCurrent(rd, node, sent, v, ne, d);
    }
  }

  // ---------- on a table just computed ----------

  /** The row of `v` once its first Hello has been heard. */
  function NewcomerRow(node: Node, v: Addr): Row {
    RowOf(node.dvt, v)[v := Entry(v, v, 1, ACTIVE)]
  }

  /** On a table just computed, a first Hello does to each route what the newcomer's row alone would do. */
  lemma NewcomerCell(rd: Reading, node: Node, v: Addr, d: Addr)
    requires Consistent(node) && JustComputed(rd, node) && v !in node.nbrs && v !in RowOf(node.dvt, v)
    ensures var row := NewcomerRow(node, v);
            Lookup(ComputedFt(rd, Greeting(node, v)), d) ==
            if d !in row then Lookup(node.ft, d)
            else if d !in node.ft then Some(row[d])
            else var s := Refreshed(node.dvt, node.ft[d], d);
                 Some(if Beats(rd, row[d], s) then row[d] else s)
  {
    var greeting := Greeting(node, v);
    if d in node.ft {
      assert Refreshed(greeting.dvt, node.ft[d], d) == Refreshed(node.dvt, node.ft[d], d);
    }
    CellStaysPut(rd, node, node.nbrs, greeting.dvt, d);
    CellStep(rd, node.nbrs, v, greeting.dvt, node.ft, d);
    ComputedCell(rd, greeting, d);
  }

  /** What the newcomer's row has for `d` is known, and changes nothing of it. */
  ghost predicate RowAgrees(rd: Reading, node: Node, v: Addr, d: Addr)
    requires d in NewcomerRow(node, v)
  {
    && d in node.ft
    && var e, s := NewcomerRow(node, v)[d], Refreshed(node.dvt, node.ft[d], d);
       SameValue(if Beats(rd, e, s) then e else s, node.ft[d])
  }

  ghost predicate RowBringsNothingFor(rd: Reading, node: Node, v: Addr, ne: Addr) {
    forall d :: d in NewcomerRow(node, v) && d != ne && d != node.main ==> RowAgrees(rd, node, v, d)
  }

  lemma RowDecides(rd: Reading, node: Node, v: Addr, d: Addr)
    requires Consistent(node) && JustComputed(rd, node) && v !in node.nbrs && v !in RowOf(node.dvt, v)
    ensures var row := NewcomerRow(node, v);
            && (InView(node, v, d) <==> d in node.ft || d in row)
            && (d in row ==> (Stands(rd, node, v, d) <==> RowAgrees(rd, node, v, d)))
            && (d !in row && d in node.ft ==> Stands(rd, node, v, d))
  {
    NewlyHeld(rd, node, v, d);
    if d in node.ft {
      NewcomerCell(rd, node, v, d);
      RouteStandsExactly(rd, Greeting(node, v), d);
    }
  }

  /** On a table just computed, the newcomer's row tells whether the other neighbours stay current. */
  lemma FirstHelloToJustComputedExactly(rd: Reading, node: Node, sent: seq<Send>, v: Addr, ne: Addr)
    requires Consistent(node) && JustComputed(rd, node) && v !in node.nbrs && v !in RowOf(node.dvt, v)
    requires ne in node.nbrs && CurrentAt(node, sent, ne) && SentOnlyRoutes(node, sent, ne)
    ensures var o := OnHello(rd, node, v, []);
            CurrentAt(o.node, sent + o.sends, ne) <==> RowBringsNothingFor(rd, node, v, ne)
  {
    FirstHelloKeepsOthersCurrentExactly(rd, node, sent, v, ne);
    NothingNewExactly(rd, node, v, ne);
  }

  /** So a newcomer that the node had no route to leaves every other current neighbour behind. */
  lemma UnknownNewcomerGoesUnreported(rd: Reading, node: Node, sent: seq<Send>, v: Addr, ne: Addr)
    requires Consistent(node) && JustComputed(rd, node) && v !in node.nbrs && v !in RowOf(node.dvt, v)
    requires ne in node.nbrs && CurrentAt(node, sent, ne) && SentOnlyRoutes(node, sent, ne)
    requires v !in node.ft && v != ne && v != node.main
    ensures var o := OnHello(rd, node, v, []); !CurrentAt(o.node, sent + o.sends, ne)
  {
    FirstHelloToJustComputedExactly(rd, node, sent, v, ne);
    assert v in NewcomerRow(node, v) && !RowAgrees(rd, node, v, v);
  }

  lemma NothingNewExactly(rd: Reading, node: Node, v: Addr, ne: Addr)
    requires Consistent(node) && JustComputed(rd, node) && v !in node.nbrs && v !in RowOf(node.dvt, v)
    ensures NothingNewFor(rd, node, v, ne) <==> RowBringsNothingFor(rd, node, v, ne)
  {
    forall d
      ensures InView(node, v, d) <==> d in node.ft || d in NewcomerRow(node, v)
      ensures d in NewcomerRow(node, v) ==> (Stands(rd, node, v, d) <==> RowAgrees(rd, node, v, d))
      ensures d !in NewcomerRow(node, v) && d in node.ft ==> Stands(rd, node, v, d)
    {
      RowDecides(rd, node, v, d);
    }
  }

  lemma NewlyHeld(rd: Reading, node: Node, v: Addr, d: Addr)
    requires JustComputed(rd, node) && v !in node.nbrs
    ensures InView(node, v, d) <==> d in node.ft || d in NewcomerRow(node, v)
  {
    var greeting := Greeting(node, v);
    assert forall x :: x in HeldKeys(node.nbrs, node.dvt) ==> x in node.ft;
    assert forall n :: Holds(greeting.nbrs, greeting.dvt, n, d) ==> n == v || Holds(node.nbrs, node.dvt, n, d);
    if d in NewcomerRow(node, v) {
      assert Holds(greeting.nbrs, greeting.dvt, v, d);
    }
  }
}
