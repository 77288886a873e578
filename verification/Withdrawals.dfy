/** What UPDATEs, link failures and Hellos do to the rows, the table and the neighbours, in terms of single entries. */
module Withdrawals {
  import opened Collections
  import opened Routes
  import opened Tables
  import opened Changes
  import opened NodeSteps
  import opened Currency
  import opened LoopFreedom
  import opened Network

  predicate HasEntry(dvt: Dvt, n: Addr, k: Addr, e: Entry) {
    n in dvt && k in dvt[n] && dvt[n][k] == e
  }

  /** The table has an ACTIVE route to `k` through `n`. */
  predicate ActiveThrough(node: Node, n: Addr, k: Addr) {
    k in node.ft && node.ft[k].state == ACTIVE && node.ft[k].nextHop == n
  }

  // ---------- an UPDATE ----------

  /** The sender's row takes the UPDATE's hop count, one more in eight bits, and its state -- or stays as it was. */
  lemma UpdateIsStored(rd: Reading, node: Node, src: Addr, upd: Update)
    ensures var dvt := OnUpdate(rd, node, src, upd).node.dvt;
            if rd.writesExisting || src !in node.nbrs || src !in node.dvt
            then HasEntry(dvt, src, upd.dst, Entry(upd.dst, src, (upd.hop + 1) % 256, upd.state))
            else forall k, e :: HasEntry(dvt, src, k, e) <==> HasEntry(node.dvt, src, k, e)
  {
  }

  /**
   * Of every other entry: an INACTIVE UPDATE about a destination that the table knows erases, from the rows of the other
   * current neighbours, that destination if its ACTIVE route goes through the sender; about a current sender itself, it
   * erases every destination whose ACTIVE route goes through the sender.  Nothing else is erased.
   */
  lemma OtherEntriesAfterUpdate(rd: Reading, node: Node, src: Addr, upd: Update, n: Addr, k: Addr, e: Entry)
    requires n != src || k != upd.dst
    ensures HasEntry(OnUpdate(rd, node, src, upd).node.dvt, n, k, e) <==>
            && HasEntry(node.dvt, n, k, e)
            && !(upd.state == INACTIVE && upd.dst in node.ft && n in node.nbrs && n != src && ActiveThrough(node, src, k) &&
                 (k == upd.dst || (upd.dst == src && src in node.nbrs)))
  {
  }

  /** An INACTIVE UPDATE about an ACTIVE route through its sender leaves no alternative with any other neighbour. */
  lemma WithdrawalErasesAlternatives(rd: Reading, node: Node, src: Addr, upd: Update)
    requires Consistent(node) && upd.state == INACTIVE && ActiveThrough(node, src, upd.dst)
    ensures var dvt := OnUpdate(rd, node, src, upd).node.dvt;
            forall n :: n in node.nbrs && n != src ==> !(n in dvt && upd.dst in dvt[n])
  {
    var node' := OnUpdate(rd, node, src, upd).node;
    assert node' == AfterUpdate(rd, node, src, RouteFrom(src, upd));
    SuspectRoutesStayPinned(rd, node, src, RouteFrom(src, upd), upd.dst);
    HeldByNobodyElse(node.nbrs, node'.dvt, src, upd.dst);
  }

  /** The route stays through the sender, and if that is current shows its row: INACTIVE, unless the row was not written. */
  lemma WithdrawalTakesEffect(rd: Reading, node: Node, src: Addr, upd: Update)
    requires Consistent(node) && upd.state == INACTIVE && ActiveThrough(node, src, upd.dst)
    ensures var ft, d := OnUpdate(rd, node, src, upd).node.ft, upd.dst;
            && d in ft && ft[d].nextHop == src
            && (src in node.nbrs ==>
                  ft[d] == if rd.writesExisting then Entry(d, src, (upd.hop + 1) % 256, INACTIVE) else node.dvt[src][d])
  {
    var rt := Entry(upd.dst, src, (upd.hop + 1) % 256, INACTIVE);
    AbsorbedAs(rd, node, src, upd, rt);
    SuspectRoutesStayPinned(rd, node, src, rt, upd.dst);
    if src in node.nbrs {
      PinnedRouteIsTheRow(rd, node, src, rt);
    }
  }

  lemma AbsorbedAs(rd: Reading, node: Node, src: Addr, upd: Update, rt: Entry)
    requires rt == Entry(upd.dst, src, (upd.hop + 1) % 256, upd.state)
    ensures OnUpdate(rd, node, src, upd).node == AfterUpdate(rd, node, src, rt)
  {
    assert RouteFrom(src, upd) == rt;
  }

  lemma HeldByNobodyElse(nbrs: seq<Addr>, dvt: Dvt, src: Addr, d: Addr)
    requires forall n :: Holds(nbrs, dvt, n, d) ==> n == src
    ensures forall n :: n in nbrs && n != src ==> !(n in dvt && d in dvt[n])
  {
    forall n | n in nbrs && n != src ensures !(n in dvt && d in dvt[n]) {
      assert !Holds(nbrs, dvt, n, d);
    }
  }

  lemma PinnedRouteIsTheRow(rd: Reading, node: Node, src: Addr, rt: Entry)
    requires Consistent(node) && rt.state == INACTIVE && rt.nextHop == src && src in node.nbrs
    requires ActiveThrough(node, src, rt.dst)
    ensures var dvt, ft := UpdatedDvt(rd, node, src, rt), AfterUpdate(rd, node, src, rt).ft;
            && rt.dst in ft && src in dvt && rt.dst in dvt[src] && ft[rt.dst] == dvt[src][rt.dst]
            && dvt[src][rt.dst] == if rd.writesExisting then rt else node.dvt[src][rt.dst]
  {
    SuspectRoutesStayPinned(rd, node, src, rt, rt.dst);
    var stored := Stored(rd, node, src, rt);
    StoredIsConsistent(rd, node, src, rt);
    assert Holds(stored.nbrs, stored.dvt, src, rt.dst);
    ComputedProperties(rd, stored, rt.dst);
  }

  // ---------- a link failure ----------

  /** The entry of the failed neighbour itself, and nothing else of its row, turns INACTIVE -- or nothing does. */
  lemma FailureIsStored(rd: Reading, node: Node, ne: Addr, k: Addr, e: Entry)
    requires ne in node.nbrs && ne in node.dvt && ne in node.dvt[ne] && node.dvt[ne][ne].dst == ne
    ensures HasEntry(OnLinkFailure(rd, node, ne).node.dvt, ne, k, e) <==>
            if k == ne && rd.writesExisting then e == node.dvt[ne][ne].(state := INACTIVE)
            else HasEntry(node.dvt, ne, k, e)
  {
  }

  /** The other rows lose exactly the destinations whose ACTIVE route goes through the failed neighbour. */
  lemma OtherEntriesAfterFailure(rd: Reading, node: Node, ne: Addr, n: Addr, k: Addr, e: Entry)
    requires ne in node.nbrs && ne in node.dvt && ne in node.dvt[ne] && node.dvt[ne][ne].dst == ne
    requires n != ne
    ensures HasEntry(OnLinkFailure(rd, node, ne).node.dvt, n, k, e) <==>
            HasEntry(node.dvt, n, k, e) && !(ne in node.ft && n in node.nbrs && ActiveThrough(node, ne, k))
  {
  }

  /** ... and those destinations stay routed through it, with no alternative left. */
  lemma FailureLeavesNoAlternative(rd: Reading, node: Node, ne: Addr, k: Addr)
    requires Consistent(node) && ne in node.nbrs && ne in node.dvt && ne in node.dvt[ne] && ne in node.ft
    requires ActiveThrough(node, ne, k)
    ensures var node' := OnLinkFailure(rd, node, ne).node;
            && (forall n :: n in node.nbrs && n != ne ==> !(n in node'.dvt && k in node'.dvt[n]))
            && k in node'.ft && node'.ft[k].nextHop == ne
            && (k != ne || !rd.writesExisting ==> node'.ft[k] == node.dvt[ne][k])
            && (k == ne && rd.writesExisting ==> node'.ft[k] == node.dvt[ne][ne].(state := INACTIVE))
  {
    var rt := node.dvt[ne][ne].(state := INACTIVE);
    var stored := Stored(rd, node, ne, rt);
    SuspectRoutesStayPinned(rd, node, ne, rt, k);
    StoredIsConsistent(rd, node, ne, rt);
    ComputedProperties(rd, stored, k);
    assert Holds(stored.nbrs, stored.dvt, ne, k);
    forall n | n in node.nbrs && n != ne ensures !(n in stored.dvt && k in stored.dvt[n]) {
      assert !Holds(node.nbrs, stored.dvt, n, k);
    }
  }

  /** A neighbour without an entry in its own row can fail without consequence. */
  lemma UnknownFailureDoesNothing(rd: Reading, node: Node, ne: Addr)
    requires !(ne in node.dvt && ne in node.dvt[ne])
    ensures OnLinkFailure(rd, node, ne) == Outcome(node, [])
  {
  }

  // ---------- what is sent ----------

  /** The message names its sender, and has the hop count and state of the sender's route; it is not about its receiver. */
  predicate Truthful(node: Node, s: Send) {
    && s.upd.dst in node.ft && s.upd.dst != s.to
    && s.upd == Update(node.main, s.upd.dst, node.ft[s.upd.dst].hop, node.ft[s.upd.dst].state)
  }

  lemma FromTableIsTruthful(node: Node, s: Send)
    requires Consistent(node) && FromTable(node, s)
    ensures Truthful(node, s)
  {
  }

  lemma UpdateSendsAreTruthful(rd: Reading, node: Node, src: Addr, upd: Update, s: Send)
    requires Consistent(node) && s in OnUpdate(rd, node, src, upd).sends
    ensures Truthful(OnUpdate(rd, node, src, upd).node, s) && s.to in node.nbrs
  {
    UpdateSendsFromTable(rd, node, src, upd);
    FromTableIsTruthful(OnUpdate(rd, node, src, upd).node, s);
  }

  lemma TimeoutSendsAreTruthful(node: Node, ne: Addr, dst: Addr, s: Send)
    requires Consistent(node) && ne != dst && s in TimeoutSends(node, ne, dst)
    ensures Truthful(node, s) && s.to == ne && s.upd.dst == dst
  {
  }

  lemma {:induction false} LastSentIsSent(sends: seq<Send>, ne: Addr, d: Addr)
    ensures LastSent(sends, ne, d).Some? ==> Send(ne, LastSent(sends, ne, d).value) in sends
  {
    if sends != [] {
      LastSentIsSent(sends[..|sends| - 1], ne, d);
    }
  }

  /** The failed neighbour itself is told nothing; what the others are told is the table. */
  lemma {:induction false} NobodyExcludedIsTold(node: Node, nbrs: seq<Addr>, changes: seq<Addr>, nex: seq<Addr>)
    ensures forall s :: s in Advertise(node, nbrs, changes, nex) ==> s.to !in nex
  {
    if nbrs != [] {
      NobodyExcludedIsTold(node, nbrs[..|nbrs| - 1], changes, nex);
      OnlyItIsTold(node, changes, nbrs[|nbrs| - 1]);
    }
  }

  lemma {:induction false} OnlyItIsTold(node: Node, changes: seq<Addr>, ne: Addr)
    ensures forall s :: s in ChangesTo(node, changes, ne) ==> s.to == ne
  {
    if changes != [] {
      OnlyItIsTold(node, changes[..|changes| - 1], ne);
    }
  }

  lemma FailureSendsAreTruthful(rd: Reading, node: Node, ne: Addr, s: Send)
    requires Consistent(node) && s in OnLinkFailure(rd, node, ne).sends
    ensures Truthful(OnLinkFailure(rd, node, ne).node, s) && s.to in node.nbrs && s.to != ne
  {
    var rt := node.dvt[ne][ne].(state := INACTIVE);
    var node' := OnLinkFailure(rd, node, ne).node;
    var changes := ChangeList(rd, Stored(rd, node, ne, rt));
    UpdateKeepsConsistent(rd, node, ne, rt);
    AdvertiseFromTable(node', node'.nbrs, changes, [ne]);
    NobodyExcludedIsTold(node', node'.nbrs, changes, [ne]);
    FromTableIsTruthful(node', s);
  }

  /** With changes reported as documented, every other neighbour is told of every route whose hop count or state changed. */
  lemma FailureIsReported(rd: Reading, node: Node, ne: Addr, to: Addr, d: Addr)
    requires rd.pushesAbsent && Consistent(node) && ne in node.dvt && ne in node.dvt[ne]
    requires to in node.nbrs && to != ne && d != to && d != node.main && d in node.ft
    ensures var o := OnLinkFailure(rd, node, ne);
            && d in o.node.ft
            && (o.node.ft[d].hop != node.ft[d].hop || o.node.ft[d].state != node.ft[d].state ==>
                  Send(to, Update(node.main, d, o.node.ft[d].hop, o.node.ft[d].state)) in o.sends)
  {
    var rt := node.dvt[ne][ne].(state := INACTIVE);
    var stored := Stored(rd, node, ne, rt);
    var o := OnLinkFailure(rd, node, ne);
    StoredIsConsistent(rd, node, ne, rt);
    UpdateKeepsConsistent(rd, node, ne, rt);
    if o.node.ft[d].hop != node.ft[d].hop || o.node.ft[d].state != node.ft[d].state {
      IntendedListCoversChanges(rd, stored, d);
      AdvertiseSends(o.node, o.node.nbrs, ChangeList(rd, stored), [ne], to, d);
      LastSentIsSent(o.sends, to, d);
    }
  }

  // ---------- a Hello ----------

  /** The first Hello of a node is listed, and gives it an ACTIVE route of one hop in its own row; nothing else changes. */
  lemma FirstHelloIsStored(rd: Reading, node: Node, v: Addr, n: Addr, k: Addr, e: Entry)
    requires v !in node.nbrs && !(v in node.dvt && v in node.dvt[v])
    ensures var node' := OnHello(rd, node, v, []).node;
            && node'.nbrs == node.nbrs + [v] && node'.main == node.main
            && (HasEntry(node'.dvt, n, k, e) <==>
                  if n == v && k == v then e == Entry(v, v, 1, ACTIVE) else HasEntry(node.dvt, n, k, e))
  {
    NewcomerHello(rd, node, v);
    var intro := Introduced(node.(nbrs := node.nbrs + [v]), v);
    assert OnHello(rd, node, v, []).node == intro.(ft := ComputedFt(rd, intro));
    EntryAdded(node.dvt, intro.dvt, v, Entry(v, v, 1, ACTIVE), n, k, e);
  }

  lemma EntryAdded(dvt: Dvt, dvt': Dvt, v: Addr, new_: Entry, n: Addr, k: Addr, e: Entry)
    requires dvt' == dvt[v := RowOf(dvt, v)[v := new_]]
    ensures HasEntry(dvt', n, k, e) <==> if n == v && k == v then e == new_ else HasEntry(dvt, n, k, e)
  {
  }

  /** Everything a first Hello sends goes to the newcomer, and is the table. */
  lemma FirstHelloSendsAreTruthful(rd: Reading, node: Node, v: Addr, s: Send)
    requires Consistent(node) && v !in node.nbrs && !(v in node.dvt && v in node.dvt[v])
    requires s in OnHello(rd, node, v, []).sends
    ensures Truthful(OnHello(rd, node, v, []).node, s) && s.to == v && s.upd.dst != node.main
  {
    NewcomerHello(rd, node, v);
    HelloKeepsConsistent(rd, node, v, []);
    var node' := OnHello(rd, node, v, []).node;
    FullTableFromTable(node', SortedKeys(node'.ft.Keys), v);
    FromTableIsTruthful(node', s);
    NeverAboutItself(node', SortedKeys(node'.ft.Keys), v);
  }

  lemma {:induction false} NeverAboutItself(node: Node, keys: seq<Addr>, ne: Addr)
    requires Consistent(node)
    ensures forall s :: s in FullTable(node, keys, ne) ==> s.upd.dst != node.main
  {
    if keys != [] {
      NeverAboutItself(node, keys[..|keys| - 1], ne);
    }
  }

  /** A Hello of a node with its entry sets only its hop count and next hop: no route changes, and nothing is sent. */
  lemma LaterHelloIsQuiet(rd: Reading, node: Node, v: Addr, n: Addr, k: Addr, e: Entry)
    requires v in node.dvt && v in node.dvt[v]
    ensures var o := OnHello(rd, node, v, []);
            && o.sends == [] && o.node.ft == node.ft && o.node.main == node.main
            && o.node.nbrs == (if v in node.nbrs then node.nbrs else node.nbrs + [v])
            && (HasEntry(o.node.dvt, n, k, e) <==>
                  if n == v && k == v then e == node.dvt[v][v].(hop := 1, nextHop := v) else HasEntry(node.dvt, n, k, e))
  {
    var listed := node.(nbrs := if v in node.nbrs then node.nbrs else node.nbrs + [v]);
    assert Greeted(rd, node, v, []) == Outcome(listed, []) by {
      FilterAll(node.nbrs + [v], NotAmong([]));
    }
    var row: Row := node.dvt[v];
    var new_ := row[v].(hop := 1, nextHop := v);
    assert OnHello(rd, node, v, []) == Outcome(listed.(dvt := node.dvt[v := row[v := new_]]), []);
    EntryAdded(node.dvt, node.dvt[v := row[v := new_]], v, new_, n, k, e);
  }

  /** Only a node not listed yet is added by its Hello, and only then are the neighbours found closed taken off the list. */
  lemma HelloListsAndPurges(rd: Reading, node: Node, v: Addr, failed: seq<Addr>, x: Addr)
    requires Consistent(node)
    ensures var nbrs := OnHello(rd, node, v, failed).node.nbrs;
            if v in node.nbrs then nbrs == node.nbrs
            else x in nbrs <==> (x in node.nbrs || x == v) && x !in failed
  {
    LinkFailuresKeepConsistent(rd, node.(nbrs := node.nbrs + [v]), failed);
  }

  /** ... after their link failures were handled in turn, with all of them still listed. */
  lemma HelloHandlesFailuresFirst(rd: Reading, node: Node, v: Addr, failed: seq<Addr>)
    requires v !in node.nbrs
    ensures OnLinkFailures(rd, node.(nbrs := node.nbrs + [v]), failed).sends <= OnHello(rd, node, v, failed).sends
  {
    assert Greeted(rd, node, v, failed).sends == OnLinkFailures(rd, node.(nbrs := node.nbrs + [v]), failed).sends;
  }
}
