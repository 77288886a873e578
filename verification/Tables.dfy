/**
 * The route tables of one node as values, and what ComputeForwardingTable makes of them.
 *
 * The source walks the neighbours and, inside that, every destination of each neighbour's row, refreshing and
 * replacing forwarding-table entries as it goes.  Here the result is described destination by destination: refresh the
 * known entry once, then fold the route order over the entries the neighbours hold for that destination.
 */
module Tables {
  import opened Collections
  import opened Routes

  /** One node: its address, its current neighbours in list order, the distance-vector and forwarding tables. */
  datatype Node = Node(main: Addr, nbrs: seq<Addr>, dvt: Dvt, ft: Row)

  function Lookup(m: Row, d: Addr): Option<Entry> {
    if d in m then Some(m[d]) else None
  }

  /** Every stored row belongs to the neighbour it is filed under. */
  ghost predicate RowsOwned(dvt: Dvt) {
    forall n, d :: n in dvt && d in dvt[n] ==> dvt[n][d].nextHop == n && dvt[n][d].dst == d
  }

  /** Every learned route is backed by an entry in its next hop's row. */
  ghost predicate Backed(ft: Row, dvt: Dvt) {
    forall d :: d in ft ==> ft[d].dst == d && ft[d].nextHop in dvt && d in dvt[ft[d].nextHop]
  }

  ghost predicate Consistent(node: Node) {
    RowsOwned(node.dvt) && Backed(node.ft, node.dvt)
  }

  /** Neighbour `n` is current and its row has an entry for `d`. */
  predicate Holds(nbrs: seq<Addr>, dvt: Dvt, n: Addr, d: Addr) {
    n in nbrs && n in dvt && d in dvt[n]
  }

  /** FT agrees with the row of its next hop wherever a current neighbour has an opinion. */
  ghost predicate UpToDate(node: Node) {
    forall n, d :: Holds(node.nbrs, node.dvt, n, d) ==>
                     d in node.ft && Lookup(node.ft, d) == Some(Refreshed(node.dvt, node.ft[d], d))
  }

  /** What RefreshForwardingTable turns the entry for `d` into. */
  function Refreshed(dvt: Dvt, e: Entry, d: Addr): Entry {
    if e.nextHop in dvt then
      if d in dvt[e.nextHop] then dvt[e.nextHop][d] else e
    else e.(state := INACTIVE)
  }

  /** The entries for `d` in the rows of the current neighbours, in neighbour order. */
  function Candidates(nbrs: seq<Addr>, dvt: Dvt, d: Addr): (cs: seq<Entry>)
    ensures forall e :: e in cs <==> exists n :: Holds(nbrs, dvt, n, d) && dvt[n][d] == e
    ensures (exists n :: Holds(nbrs, dvt, n, d)) ==> cs != []
  {
    if nbrs == [] then [] else
    var init, n := nbrs[..|nbrs| - 1], nbrs[|nbrs| - 1];
    assert forall x :: x in nbrs <==> x == n || x in init;
    assert forall x :: Holds(nbrs, dvt, x, d) <==> Holds(init, dvt, x, d) || Holds([n], dvt, x, d);
    var cs := Candidates(init, dvt, d);
    if n in dvt && d in dvt[n] then
      assert Holds(nbrs, dvt, n, d);
      cs + [dvt[n][d]]
    else cs
  }

  /** The route order folded over `cs`, starting from `s`. */
  function Select(rd: Reading, s: Entry, cs: seq<Entry>): Entry {
    if cs == [] then s else
    var e := Select(rd, s, cs[..|cs| - 1]);
    if Beats(rd, cs[|cs| - 1], e) then cs[|cs| - 1] else e
  }

  /** Where the fold starts: at the refreshed known entry, or at the first candidate of a new destination. */
  function Start(known: Option<Entry>, cs: seq<Entry>): Entry
    requires known.Some? || cs != []
  {
    if known.Some? then known.value else cs[0]
  }

  function Pick(rd: Reading, known: Option<Entry>, cs: seq<Entry>): Entry
    requires known.Some? || cs != []
  {
    Select(rd, Start(known, cs), cs)
  }

  /** The known entry for `d` after one refresh. */
  function Known(dvt: Dvt, ft: Row, d: Addr): Option<Entry> {
    if d in ft then Some(Refreshed(dvt, ft[d], d)) else None
  }

  /** The forwarding-table cell for `d` once the neighbours `nbrs` have been considered. */
  function Cell(rd: Reading, nbrs: seq<Addr>, dvt: Dvt, ft: Row, d: Addr): Option<Entry> {
    var cs := Candidates(nbrs, dvt, d);
    if cs == [] then Lookup(ft, d) else Some(Pick(rd, Known(dvt, ft, d), cs))
  }

  /** Two cells a neighbour could not tell apart from the UPDATE it is sent. */
  predicate SameCell(a: Option<Entry>, b: Option<Entry>) {
    match (a, b)
    case (None, None) => true
    case (Some(x), Some(y)) => SameValue(x, y)
    case _ => false
  }

  function HeldKeys(nbrs: seq<Addr>, dvt: Dvt): (keys: set<Addr>)
    ensures forall d :: d in keys <==> exists n :: Holds(nbrs, dvt, n, d)
  {
    set n, d | n in nbrs && n in dvt && d in dvt[n] && Holds(nbrs, dvt, n, d) :: d
  }

  function ComputedFt(rd: Reading, node: Node): Row {
    map d | d in node.ft.Keys + HeldKeys(node.nbrs, node.dvt) ::
      Cell(rd, node.nbrs, node.dvt, node.ft, d).value
  }

  function Computed(rd: Reading, node: Node): Node {
    node.(ft := ComputedFt(rd, node))
  }

  lemma ComputedCell(rd: Reading, node: Node, d: Addr)
    ensures Lookup(ComputedFt(rd, node), d) == Cell(rd, node.nbrs, node.dvt, node.ft, d)
  {
    var cs := Candidates(node.nbrs, node.dvt, d);
    if cs != [] {
      assert cs[0] in cs;
    }
  }

  // ---------- the fold ----------

  /** The selected route is one of those offered, and none of those offered displaces it. */
  lemma {:induction false} SelectIsMaximal(rd: Reading, s: Entry, cs: seq<Entry>)
    ensures var e := Select(rd, s, cs);
            && (e == s || (e in cs && Beats(rd, e, s)))
            && forall c :: c in cs ==> !Beats(rd, c, e)
  {
    if cs != [] {
      var init, c := cs[..|cs| - 1], cs[|cs| - 1];
      SelectIsMaximal(rd, s, init);
      var e, e' := Select(rd, s, init), Select(rd, s, cs);
      forall x | x in cs ensures !Beats(rd, x, e') {
        assert x in init || x == c;
        BeatsIsStrictPartialOrder(rd, x, e', e);
      }
      BeatsIsStrictPartialOrder(rd, c, e, s);
    }
  }

  lemma {:induction false} SelectStays(rd: Reading, s: Entry, cs: seq<Entry>)
    requires forall c :: c in cs ==> !Beats(rd, c, s)
    ensures Select(rd, s, cs) == s
  {
    if cs != [] {
      SelectStays(rd, s, cs[..|cs| - 1]);
    }
  }

  lemma {:induction false} SelectAppend(rd: Reading, s: Entry, a: seq<Entry>, b: seq<Entry>)
    ensures Select(rd, s, a + b) == Select(rd, Select(rd, s, a), b)
  {
    if b == [] {
      assert a + b == a;
    } else {
      assert (a + b)[..|a + b| - 1] == a + b[..|b| - 1];
      SelectAppend(rd, s, a, b[..|b| - 1]);
    }
  }

  lemma {:induction false} CandidatesAppend(a: seq<Addr>, b: seq<Addr>, dvt: Dvt, d: Addr)
    ensures Candidates(a + b, dvt, d) == Candidates(a, dvt, d) + Candidates(b, dvt, d)
  {
    if b == [] {
      assert a + b == a;
    } else {
      assert (a + b)[..|a + b| - 1] == a + b[..|b| - 1];
      CandidatesAppend(a, b[..|b| - 1], dvt, d);
    }
  }

  lemma CandidatesExist(nbrs: seq<Addr>, dvt: Dvt, d: Addr)
    ensures Candidates(nbrs, dvt, d) != [] <==> exists n :: Holds(nbrs, dvt, n, d)
  {
    if Candidates(nbrs, dvt, d) != [] {
      NonEmptyHasMember(Candidates(nbrs, dvt, d));
    }
  }

  lemma CandidatesOfOne(n: Addr, dvt: Dvt, d: Addr)
    ensures Candidates([n], dvt, d) == if n in dvt && d in dvt[n] then [dvt[n][d]] else []
  {
  }

  // ---------- the loop and the fold ----------

  /** Refreshing is idempotent on everything the fold can produce, which is why the source may repeat it. */
  lemma PickIsFresh(rd: Reading, nbrs: seq<Addr>, dvt: Dvt, ft: Row, d: Addr)
    requires RowsOwned(dvt)
    requires Candidates(nbrs, dvt, d) != []
    ensures var e := Cell(rd, nbrs, dvt, ft, d).value; Refreshed(dvt, e, d) == e
  {
    var cs := Candidates(nbrs, dvt, d);
    var s := Start(Known(dvt, ft, d), cs);
    SelectIsMaximal(rd, s, cs);
    assert cs[0] in cs;
  }

  /** One iteration of the inner loop of ComputeForwardingTable is one step of the fold. */
  lemma CellStep(rd: Reading, nbrs: seq<Addr>, n: Addr, dvt: Dvt, ft: Row, d: Addr)
    requires RowsOwned(dvt)
    ensures var old_ := Cell(rd, nbrs, dvt, ft, d);
            Cell(rd, nbrs + [n], dvt, ft, d) ==
            if !(n in dvt && d in dvt[n]) then old_
            else if old_.None? then Some(dvt[n][d])
            else var curr := Refreshed(dvt, old_.value, d);
                 Some(if Beats(rd, dvt[n][d], curr) then dvt[n][d] else curr)
  {
    var cs := Candidates(nbrs, dvt, d);
    CandidatesAppend(nbrs, [n], dvt, d);
    CandidatesOfOne(n, dvt, d);
    if n in dvt && d in dvt[n] {
      var c := dvt[n][d];
      assert Candidates(nbrs + [n], dvt, d) == cs + [c];
      assert Cell(rd, nbrs + [n], dvt, ft, d) == Some(Pick(rd, Known(dvt, ft, d), cs + [c]));
      if cs == [] {
        assert cs + [c] == [c];
        PickFirst(rd, Known(dvt, ft, d), c);
      } else {
        PickIsFresh(rd, nbrs, dvt, ft, d);
        PickNext(rd, Known(dvt, ft, d), cs, c);
      }
    } else {
      assert Candidates(nbrs + [n], dvt, d) == cs;
    }
  }

  lemma PickFirst(rd: Reading, known: Option<Entry>, c: Entry)
    ensures Pick(rd, known, [c]) == if known.None? || Beats(rd, c, known.value) then c else known.value
  {
    assert [c][..0] == [];
    assert Select(rd, Start(known, [c]), []) == Start(known, [c]);
  }

  lemma PickNext(rd: Reading, known: Option<Entry>, cs: seq<Entry>, c: Entry)
    requires cs != []
    ensures var e := Pick(rd, known, cs); Pick(rd, known, cs + [c]) == if Beats(rd, c, e) then c else e
  {
  }

  // ---------- what the computed table satisfies ----------

  /**
   * After ComputeForwardingTable, an entry that some current neighbour has an opinion on is the refreshed known entry
   * or one of the neighbours' entries, none of which displaces it; every other entry is untouched.
   */
  lemma ComputedProperties(rd: Reading, node: Node, d: Addr)
    requires RowsOwned(node.dvt)
    ensures var ft := ComputedFt(rd, node);
            && ((forall n :: !Holds(node.nbrs, node.dvt, n, d)) ==> Lookup(ft, d) == Lookup(node.ft, d))
            && ((exists n :: Holds(node.nbrs, node.dvt, n, d)) ==>
                  && d in ft
                  && Refreshed(node.dvt, ft[d], d) == ft[d]
                  && (Known(node.dvt, node.ft, d) == Some(ft[d]) ||
                      exists n :: Holds(node.nbrs, node.dvt, n, d) && node.dvt[n][d] == ft[d])
                  && (d in node.ft ==> Refreshed(node.dvt, node.ft[d], d) == ft[d] ||
                                       Beats(rd, ft[d], Refreshed(node.dvt, node.ft[d], d)))
                  && forall n :: Holds(node.nbrs, node.dvt, n, d) ==> !Beats(rd, node.dvt[n][d], ft[d]))
  {
    ComputedCell(rd, node, d);
    var cs := Candidates(node.nbrs, node.dvt, d);
    if cs != [] {
      assert cs[0] in cs;
      PickIsFresh(rd, node.nbrs, node.dvt, node.ft, d);
      SelectIsMaximal(rd, Start(Known(node.dvt, node.ft, d), cs), cs);
      forall n | Holds(node.nbrs, node.dvt, n, d)
        ensures !Beats(rd, node.dvt[n][d], ComputedFt(rd, node)[d])
      {
        assert node.dvt[n][d] in cs;
      }
    }
  }

  lemma ComputedIsConsistent(rd: Reading, node: Node)
    requires Consistent(node)
    ensures Consistent(Computed(rd, node)) && UpToDate(Computed(rd, node))
  {
    var ft := ComputedFt(rd, node);
    forall d | d in ft
      ensures ft[d].dst == d && ft[d].nextHop in node.dvt && d in node.dvt[ft[d].nextHop]
    {
      ComputedProperties(rd, node, d);
      if n :| Holds(node.nbrs, node.dvt, n, d) {
      }
    }
    forall n, d | Holds(node.nbrs, node.dvt, n, d)
      ensures d in ft && Lookup(ft, d) == Some(Refreshed(node.dvt, ft[d], d))
    {
      ComputedProperties(rd, node, d);
    }
  }

  /** No route on offer -- the refreshed known one, or one a current neighbour holds -- is better than `e`. */
  ghost predicate BestOnOffer(node: Node, d: Addr, e: Entry) {
    && (d in node.ft ==> !IsBetterRoute(e, Refreshed(node.dvt, node.ft[d], d)))
    && forall n :: Holds(node.nbrs, node.dvt, n, d) ==> !IsBetterRoute(e, node.dvt[n][d])
  }

  /** What the fold starts from ties with everything the neighbours hold. */
  ghost predicate StartTiesWithAll(node: Node, d: Addr)
    requires exists n :: Holds(node.nbrs, node.dvt, n, d)
  {
    var s := Start(Known(node.dvt, node.ft, d), Candidates(node.nbrs, node.dvt, d));
    forall n :: Holds(node.nbrs, node.dvt, n, d) ==> !Comparable(s, node.dvt[n][d])
  }

  /**
   * Best-route selection.  With the arguments in the documented order the selected route is always the best on offer;
   * with the arguments as the source passes them it is so exactly when there was nothing to choose.
   */
  lemma BestRouteExactly(rd: Reading, node: Node, d: Addr)
    requires exists n :: Holds(node.nbrs, node.dvt, n, d)
    ensures d in ComputedFt(rd, node)
    ensures BestOnOffer(node, d, ComputedFt(rd, node)[d]) <==> rd.installsBetter || StartTiesWithAll(node, d)
  {
    var cs := Candidates(node.nbrs, node.dvt, d);
    var s := Start(Known(node.dvt, node.ft, d), cs);
    ComputedCell(rd, node, d);
    SelectIsMaximal(rd, s, cs);
    var e := Select(rd, s, cs);
    assert ComputedFt(rd, node)[d] == e;
    assert cs[0] in cs;
    assert forall n :: Holds(node.nbrs, node.dvt, n, d) ==> node.dvt[n][d] in cs;
    if StartTiesWithAll(node, d) {
      forall c | c in cs ensures !Beats(rd, c, s) {
      }
      SelectStays(rd, s, cs);
    }
    if !rd.installsBetter && !StartTiesWithAll(node, d) {
      assert e != s ==> IsBetterRoute(e, s);
    }
    if rd.installsBetter {
      BeatsIsStrictPartialOrder(rd, s, e, s);
    }
  }

  /** Running ComputeForwardingTable again, with rows and neighbours unchanged, changes nothing. */
  lemma ComputedIsFixpoint(rd: Reading, node: Node)
    requires RowsOwned(node.dvt)
    ensures Computed(rd, Computed(rd, node)) == Computed(rd, node)
  {
    var node' := Computed(rd, node);
    forall d ensures Lookup(ComputedFt(rd, node'), d) == Lookup(node'.ft, d) {
      SettledCell(rd, node, node.nbrs, d);
      ComputedCell(rd, node', d);
    }
    SameRows(ComputedFt(rd, node'), node'.ft);
  }

  lemma SameRows(a: Row, b: Row)
    requires forall d :: Lookup(a, d) == Lookup(b, d)
    ensures a == b
  {
    forall d ensures d in a <==> d in b {
      assert Lookup(a, d) == Lookup(b, d);
    }
    forall d | d in a ensures a[d] == b[d] {
      assert Lookup(a, d) == Lookup(b, d);
    }
  }

  /** On a table just computed, considering any part of the neighbours again leaves every cell as it is. */
  lemma SettledCell(rd: Reading, node: Node, nbrs: seq<Addr>, d: Addr)
    requires RowsOwned(node.dvt)
    requires forall n :: n in nbrs ==> n in node.nbrs
    ensures var ft := ComputedFt(rd, node); Cell(rd, nbrs, node.dvt, ft, d) == Lookup(ft, d)
  {
    var ft := ComputedFt(rd, node);
    var cs := Candidates(nbrs, node.dvt, d);
    if cs != [] {
      assert cs[0] in cs;
      var n :| Holds(nbrs, node.dvt, n, d) && node.dvt[n][d] == cs[0];
      assert Holds(node.nbrs, node.dvt, n, d);
      ComputedProperties(rd, node, d);
      forall c | c in cs ensures !Beats(rd, c, ft[d]) {
        var m :| Holds(nbrs, node.dvt, m, d) && node.dvt[m][d] == c;
        assert Holds(node.nbrs, node.dvt, m, d);
      }
      SelectStays(rd, ft[d], cs);
    }
  }
}
