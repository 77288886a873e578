/** What one node does on each protocol event, as functions from tables to tables and messages sent. */
module NodeSteps {
  import opened Collections
  import opened Routes
  import opened Tables
  import opened Changes

  /** An UPDATE header. */
  datatype Update = Update(origin: Addr, dst: Addr, hop: nat, state: RouteState)

  datatype Send = Send(to: Addr, upd: Update)

  datatype Outcome = Outcome(node: Node, sends: seq<Send>)

  const U32: nat := 0x1_0000_0000

  /** The hop count a receiver stores: one more, narrowed to eight bits. */
  function Narrow(hop: nat): nat {
    (hop + 1) % 256
  }

  function Header(main: Addr, e: Entry): Update {
    Update(main, e.dst, e.hop, e.state)
  }

  // ---------- RemoveFakeRoutes, UpdateDistanceVectorTable ----------

  /** Routes that the loss of `rt` at its sender makes suspect: they all go through that sender. */
  predicate Fake(node: Node, nxtHp: Addr, rt: Entry, k: Addr) {
    && k in node.ft
    && node.ft[k].state == ACTIVE
    && rt.state == INACTIVE
    && ((nxtHp == node.ft[k].nextHop && rt.dst == k) ||
        (nxtHp == rt.dst && nxtHp in node.nbrs && node.ft[k].nextHop == nxtHp && rt.dst != k))
  }

  predicate Erased(node: Node, nxtHp: Addr, rt: Entry, n: Addr, k: Addr) {
    n in node.nbrs && Fake(node, nxtHp, rt, k) && node.ft[k].nextHop != n
  }

  function WithoutFakes(node: Node, nxtHp: Addr, rt: Entry): Dvt {
    map n | n in node.dvt :: map k | k in node.dvt[n] && !Erased(node, nxtHp, rt, n, k) :: node.dvt[n][k]
  }

  /** Is `rt` stored?  As written, not when its sender is a neighbour that already has a row. */
  predicate Writes(rd: Reading, node: Node, nxtHp: Addr) {
    rd.writesExisting || nxtHp !in node.nbrs || nxtHp !in node.dvt
  }

  function RowOf(dvt: Dvt, n: Addr): Row {
    if n in dvt then dvt[n] else map[]
  }

  function UpdatedDvt(rd: Reading, node: Node, nxtHp: Addr, rt: Entry): Dvt {
    var dvt := if rt.dst in node.ft then WithoutFakes(node, nxtHp, rt) else node.dvt;
    if Writes(rd, node, nxtHp) then dvt[nxtHp := RowOf(dvt, nxtHp)[rt.dst := rt]] else dvt
  }

  function Stored(rd: Reading, node: Node, nxtHp: Addr, rt: Entry): Node {
    node.(dvt := UpdatedDvt(rd, node, nxtHp, rt))
  }

  function AfterUpdate(rd: Reading, node: Node, nxtHp: Addr, rt: Entry): Node {
    Computed(rd, Stored(rd, node, nxtHp, rt))
  }

  // ---------- sending ----------

  /** The UPDATEs for `changes` that go to neighbour `ne`. */
  function ChangesTo(node: Node, changes: seq<Addr>, ne: Addr): seq<Send> {
    if changes == [] then [] else
    var c := changes[|changes| - 1];
    ChangesTo(node, changes[..|changes| - 1], ne) +
    if c in node.ft && c != ne then [Send(ne, Header(node.main, node.ft[c]))] else []
  }

  /** SendTriggeredUpdateChangesToNeighbors, over the first neighbours `nbrs`. */
  function Advertise(node: Node, nbrs: seq<Addr>, changes: seq<Addr>, nex: seq<Addr>): seq<Send> {
    if nbrs == [] then [] else
    var ne := nbrs[|nbrs| - 1];
    Advertise(node, nbrs[..|nbrs| - 1], changes, nex) + if ne in nex then [] else ChangesTo(node, changes, ne)
  }

  /** SendTriggeredUpdateToNeighbor, over the first destinations `keys` of the table. */
  function FullTable(node: Node, keys: seq<Addr>, ne: Addr): seq<Send> {
    if keys == [] then [] else
    var d := keys[|keys| - 1];
    FullTable(node, keys[..|keys| - 1], ne) +
    if d in node.ft && node.ft[d].dst != UNSPECIFIED && d != node.main && d != ne && d != LOOPBACK
    then [Send(ne, Header(node.main, node.ft[d]))] else []
  }

  // ---------- RetransmitToNeighbor ----------

  datatype Reply = NoReply | ReplyNow | ReplyLater

  /**
   * Is this node's own route free of the asking neighbour?  `c1` is its cost to the destination, `c2` the neighbour's,
   * `c5` the cost of reaching the neighbour from this node's next hop; the arithmetic is that of 32-bit words.
   */
  predicate CostsAgree(c1: nat, c2: nat, c5: nat) {
    var c3 := (c1 - 1) % U32;
    c3 == 0 || c5 == (c2 + c3) % U32
  }

  /** Whether the sender of an INACTIVE UPDATE is answered with the route this node still has. */
  function DecideReply(node: Node, upd: Update): Reply {
    var ne, dst := upd.origin, upd.dst;
    if dst in node.ft && ne in node.nbrs && node.ft[dst].state == ACTIVE && node.ft[dst].nextHop != ne then
      var nxtHp := node.ft[dst].nextHop;
      var c5 := if nxtHp in node.dvt && ne in node.dvt[nxtHp] then node.dvt[nxtHp][ne].hop else 0;
      if CostsAgree(node.ft[dst].hop, upd.hop, c5) then ReplyNow else ReplyLater
    else NoReply
  }

  function RetransmitSends(node: Node, upd: Update): seq<Send> {
    if DecideReply(node, upd) == ReplyNow then [Send(upd.origin, Header(node.main, node.ft[upd.dst]))] else []
  }

  /** The hop count that the row of `n` has for `d`, or zero. */
  function RowHops(node: Node, n: Addr, d: Addr): nat {
    if n in node.dvt && d in node.dvt[n] then node.dvt[n][d].hop else 0
  }

  /** The node has an ACTIVE route to `dst` that does not go through its neighbour `ne`. */
  predicate CanHelp(node: Node, ne: Addr, dst: Addr) {
    && ne in node.nbrs && dst in node.ft
    && node.ft[dst].state == ACTIVE && node.ft[dst].nextHop != ne
  }

  /**
   * With hop counts of eight bits: a question the node can help with is answered at once exactly if its route is one hop
   * long, or its next hop's row has for the asker as many hops as the asker's route and this one together, less one.
   */
  lemma RepliesAtOnceExactly(node: Node, upd: Update)
    requires CanHelp(node, upd.origin, upd.dst) && upd.hop < 256 && node.ft[upd.dst].hop < 256
    requires RowHops(node, node.ft[upd.dst].nextHop, upd.origin) < 256
    ensures var route := node.ft[upd.dst];
            DecideReply(node, upd) ==
            if route.hop == 1 || RowHops(node, route.nextHop, upd.origin) == upd.hop + route.hop - 1
            then ReplyNow else ReplyLater
  {
  }

  lemma NoReplyExactly(node: Node, upd: Update)
    ensures DecideReply(node, upd) == NoReply <==> !CanHelp(node, upd.origin, upd.dst)
  {
  }

  /** RecvUpdate asks for a reply only to an INACTIVE UPDATE about anything but its origin. */
  function ReplySends(node: Node, upd: Update): seq<Send> {
    if upd.state == INACTIVE && upd.dst != upd.origin then RetransmitSends(node, upd) else []
  }

  // ---------- the events ----------

  function RouteFrom(src: Addr, upd: Update): Entry {
    Entry(upd.dst, src, Narrow(upd.hop), upd.state)
  }

  /** RecvUpdate. */
  function OnUpdate(rd: Reading, node: Node, src: Addr, upd: Update): Outcome {
    var stored := Stored(rd, node, src, RouteFrom(src, upd));
    var node' := Computed(rd, stored);
    Outcome(node', Advertise(node', node'.nbrs, ChangeList(rd, stored), []) + ReplySends(node', upd))
  }

  /** SendUpdateOnLinkFailure. */
  function OnLinkFailure(rd: Reading, node: Node, ne: Addr): Outcome {
    if ne in node.dvt && ne in node.dvt[ne] then
      var stored := Stored(rd, node, ne, node.dvt[ne][ne].(state := INACTIVE));
      var node' := Computed(rd, stored);
      Outcome(node', Advertise(node', node'.nbrs, ChangeList(rd, stored), [ne]))
    else Outcome(node, [])
  }

  /** The callbacks that Purge makes, in list order, while the closed neighbours are still listed. */
  function OnLinkFailures(rd: Reading, node: Node, failed: seq<Addr>): Outcome {
    if failed == [] then Outcome(node, []) else
    var before := OnLinkFailures(rd, node, failed[..|failed| - 1]);
    var last := OnLinkFailure(rd, before.node, failed[|failed| - 1]);
    Outcome(last.node, before.sends + last.sends)
  }

  function NotAmong(failed: seq<Addr>): Addr -> bool {
    (n: Addr) => n !in failed
  }

  function OnPurge(rd: Reading, node: Node, failed: seq<Addr>): Outcome {
    var o := OnLinkFailures(rd, node, failed);
    Outcome(o.node.(nbrs := Filter(o.node.nbrs, NotAmong(failed))), o.sends)
  }

  /** Neighbors::Update as ProcessHello uses it: only a new neighbour is listed, and only then is the list purged. */
  function Greeted(rd: Reading, node: Node, origin: Addr, failed: seq<Addr>): Outcome {
    if origin in node.nbrs then Outcome(node, [])
    else OnPurge(rd, node.(nbrs := node.nbrs + [origin]), failed)
  }

  function Introduced(node: Node, origin: Addr): Node {
    node.(dvt := node.dvt[origin := RowOf(node.dvt, origin)[origin := Entry(origin, origin, 1, ACTIVE)]])
  }

  /** ProcessHello, where `failed` are the neighbours found closed if the neighbour list is purged. */
  function OnHello(rd: Reading, node: Node, origin: Addr, failed: seq<Addr>): Outcome {
    var o := Greeted(rd, node, origin, failed);
    if origin !in RowOf(o.node.dvt, origin) then
      var node' := Computed(rd, Introduced(o.node, origin));
      Outcome(node', o.sends + FullTable(node', SortedKeys(node'.ft.Keys), origin))
    else
      var row := o.node.dvt[origin];
      Outcome(o.node.(dvt := o.node.dvt[origin := row[origin := row[origin].(hop := 1, nextHop := origin)]]), o.sends)
  }

  /** SendUpdateOnPendingReplyEntryTimeout. */
  function TimeoutSends(node: Node, ne: Addr, dst: Addr): seq<Send> {
    if dst in node.ft && ne in node.nbrs && node.ft[dst].state == ACTIVE && node.ft[dst].nextHop != ne
    then [Send(ne, Header(node.main, node.ft[dst]))] else []
  }

  // ---------- what every event keeps ----------

  lemma StoredIsConsistent(rd: Reading, node: Node, nxtHp: Addr, rt: Entry)
    requires Consistent(node) && rt.nextHop == nxtHp
    ensures Consistent(Stored(rd, node, nxtHp, rt))
  {
    var dvt := UpdatedDvt(rd, node, nxtHp, rt);
    forall d | d in node.ft ensures node.ft[d].nextHop in dvt && d in dvt[node.ft[d].nextHop] {
      assert !Erased(node, nxtHp, rt, node.ft[d].nextHop, d);
    }
  }

  /** The tables agree after every event: rows belong to their neighbour, and every route has its backing entry. */
  lemma UpdateKeepsConsistent(rd: Reading, node: Node, nxtHp: Addr, rt: Entry)
    requires Consistent(node) && rt.nextHop == nxtHp
    ensures var node' := AfterUpdate(rd, node, nxtHp, rt); Consistent(node') && UpToDate(node')
  {
    StoredIsConsistent(rd, node, nxtHp, rt);
    ComputedIsConsistent(rd, Stored(rd, node, nxtHp, rt));
  }

  lemma {:induction false} LinkFailuresKeepConsistent(rd: Reading, node: Node, failed: seq<Addr>)
    requires Consistent(node)
    ensures var node' := OnLinkFailures(rd, node, failed).node;
            Consistent(node') && node'.nbrs == node.nbrs && node'.main == node.main
  {
    if failed != [] {
      LinkFailuresKeepConsistent(rd, node, failed[..|failed| - 1]);
      var before := OnLinkFailures(rd, node, failed[..|failed| - 1]).node;
      var ne := failed[|failed| - 1];
      if ne in before.dvt && ne in before.dvt[ne] {
        UpdateKeepsConsistent(rd, before, ne, before.dvt[ne][ne].(state := INACTIVE));
      }
    }
  }

  lemma HelloKeepsConsistent(rd: Reading, node: Node, origin: Addr, failed: seq<Addr>)
    requires Consistent(node)
    ensures Consistent(OnHello(rd, node, origin, failed).node)
  {
    LinkFailuresKeepConsistent(rd, node.(nbrs := node.nbrs + [origin]), failed);
    var o := Greeted(rd, node, origin, failed);
    assert Consistent(o.node);
    if origin !in RowOf(o.node.dvt, origin) {
      ComputedIsConsistent(rd, Introduced(o.node, origin));
    }
  }

  /** The learned entry stays in its next hop's row through RemoveFakeRoutes, so refreshing never meets a missing row. */
  lemma RefreshFindsItsRow(rd: Reading, node: Node, nxtHp: Addr, rt: Entry, d: Addr)
    requires Consistent(node) && rt.nextHop == nxtHp && d in node.ft
    ensures var dvt := UpdatedDvt(rd, node, nxtHp, rt);
            && node.ft[d].nextHop in dvt
            && d in dvt[node.ft[d].nextHop]
            && Refreshed(dvt, node.ft[d], d) == dvt[node.ft[d].nextHop][d]
  {
  }

  // ---------- primary-path pinning ----------

  /**
   * After an INACTIVE route from `src`, no current neighbour but `src` still offers a suspect destination, so the table
   * keeps routing it through `src`; and the withdrawn destination shows the INACTIVE entry exactly when it was stored.
   */
  lemma SuspectRoutesStayPinned(rd: Reading, node: Node, src: Addr, rt: Entry, k: Addr)
    requires Consistent(node) && rt.nextHop == src && rt.dst in node.ft
    requires Fake(node, src, rt, k)
    ensures var node' := AfterUpdate(rd, node, src, rt);
            && (forall n :: Holds(node.nbrs, node'.dvt, n, k) ==> n == src)
            && k in node'.ft && node'.ft[k].nextHop == src
            && (k == rt.dst && src in node.nbrs ==>
                  (node'.ft[k] == rt <==> rd.writesExisting || node.dvt[src][k] == rt))
  {
    var stored := Stored(rd, node, src, rt);
    StoredIsConsistent(rd, node, src, rt);
    forall n | Holds(node.nbrs, stored.dvt, n, k) ensures n == src {
      if n != src {
        assert Erased(node, src, rt, n, k);
      }
    }
    ComputedProperties(rd, stored, k);
    assert Refreshed(stored.dvt, stored.ft[k], k) == stored.dvt[src][k];
    if src in node.nbrs {
      assert Holds(stored.nbrs, stored.dvt, src, k);
      assert AfterUpdate(rd, node, src, rt).ft[k] == stored.dvt[src][k];
    }
  }

  /** An UPDATE ends up in its sender's row exactly when the source's guard lets it, or it was there already. */
  lemma UpdateIsStoredExactly(rd: Reading, node: Node, src: Addr, rt: Entry)
    requires Consistent(node) && rt.nextHop == src
    ensures Lookup(RowOf(UpdatedDvt(rd, node, src, rt), src), rt.dst) == Some(rt) <==>
            Writes(rd, node, src) || Lookup(RowOf(node.dvt, src), rt.dst) == Some(rt)
  {
  }
}
