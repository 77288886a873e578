/**
 * The routing protocol object of one node: its tables, lists and queues as the source's fields, and its methods with
 * the source's loops, each proved to compute the step functions that the network theorems are about.
 */
module RoutingProtocolObject {
  import opened Collections
  import opened Routes
  import opened Tables
  import opened Changes
  import opened NodeSteps
  import opened NeighborList
  import opened PendingReplies
  import opened DataQueue

  /** `std::map::operator[]` used as a statement: a missing key is inserted with a default entry. */
  function Touched(m: Row, k: Addr): Row {
    if k in m then m else m[k := DEFAULT_ENTRY]
  }

  /** The row of `n` with `e` filed under its destination. */
  function Placed(dvt: Dvt, n: Addr, e: Entry): Dvt
    requires n in dvt
  {
    var row: Row := dvt[n];
    dvt[n := row[e.dst := e]]
  }

  /** The rows once RemoveFakeRoutes has been through the neighbours `done`. */
  function ErasedFor(node: Node, nxtHp: Addr, rt: Entry, done: seq<Addr>): Dvt {
    map n | n in node.dvt ::
      map k | k in node.dvt[n] && !(n in done && Fake(node, nxtHp, rt, k) && node.ft[k].nextHop != n) :: node.dvt[n][k]
  }

  function FakeTest(node: Node, nxtHp: Addr, rt: Entry): Addr -> bool {
    (k: Addr) => Fake(node, nxtHp, rt, k)
  }

  /** A row once the listed destinations are erased from it. */
  function Minus(row: Row, ips: seq<Addr>): Row {
    map k | k in row && k !in ips :: row[k]
  }

  /** The row of `n` loses the destinations `fakes` whose route in `ft` does not go through `n`. */
  function WithoutIn(dvt: Dvt, ft: Row, n: Addr, fakes: seq<Addr>): Dvt
    requires forall k :: k in fakes ==> k in ft
  {
    if n in dvt then dvt[n := map k | k in dvt[n] && !(k in fakes && ft[k].nextHop != n) :: dvt[n][k]] else dvt
  }

  /** The replies sent for pending entries that have timed out. */
  function FiredSends(node: Node, fired: seq<PendingReply>): seq<Send> {
    if fired == [] then [] else
    var p := fired[|fired| - 1];
    FiredSends(node, fired[..|fired| - 1]) + TimeoutSends(node, p.ne, p.dst)
  }

  /** Is the reply to this UPDATE held back? */
  predicate RepliesLater(node: Node, upd: Update) {
    upd.state == INACTIVE && upd.dst != upd.origin && DecideReply(node, upd) == ReplyLater
  }

  function HeldReply(upd: Update, timeout: int, now: int): PendingReply {
    PendingReply(upd.origin, upd.dst, timeout + now)
  }

  /**
   * What an INACTIVE UPDATE leads to, told from the tables, the queue of pending replies and the messages sent.  Without
   * an ACTIVE route that avoids the asker: nothing.  Otherwise, with hop counts of eight bits, the route is sent to the
   * asker exactly if it is one hop long, or its next hop's row has for the asker as many hops as the asker's route and
   * this one together, less one; and if it is not sent, a reply to the asker is pending.
   */
  ghost predicate AnsweredPlainly(node: Node, upt: Update, q: seq<PendingReply>, q': seq<PendingReply>, sent: seq<Send>,
                                  sent': seq<Send>, fired: seq<PendingReply>)
  {
    var ne, dst := upt.origin, upt.dst;
    if !(ne in node.nbrs && dst in node.ft && node.ft[dst].state == ACTIVE && node.ft[dst].nextHop != ne)
    then sent' == sent && q' == q
    else
      var route := node.ft[dst];
      var n := route.nextHop;
      var c5 := if n in node.dvt && ne in node.dvt[n] then node.dvt[n][ne].hop else 0;
      upt.hop < 256 && route.hop < 256 && c5 < 256 ==>
        if route.hop == 1 || c5 == upt.hop + route.hop - 1
        then sent' == sent + [Send(ne, NodeSteps.Update(node.main, route.dst, route.hop, ACTIVE))] && q' == q
        else sent' == sent + FiredSends(node, fired) && exists p :: p in q' && p.ne == ne && p.dst == dst
  }

  lemma RepliesPlainly(node: Node, upt: Update, q: seq<PendingReply>, q': seq<PendingReply>, sent: seq<Send>,
                       sent': seq<Send>, fired: seq<PendingReply>, maxLen: nat, timeout: int, now: int)
    requires maxLen > 0
    requires var later := DecideReply(node, upt) == ReplyLater;
             && fired == (if later then Filter(q, Expired(now)) else [])
             && q' == if later then AfterEnqueue(q, maxLen, HeldReply(upt, timeout, now), now) else q
    requires sent' == sent + RetransmitSends(node, upt) + FiredSends(node, fired)
    ensures AnsweredPlainly(node, upt, q, q', sent, sent', fired)
  {
    var reply := DecideReply(node, upt);
    NoReplyExactly(node, upt);
    if CanHelp(node, upt.origin, upt.dst) && upt.hop < 256 && node.ft[upt.dst].hop < 256 &&
       RowHops(node, node.ft[upt.dst].nextHop, upt.origin) < 256 {
      RepliesAtOnceExactly(node, upt);
    }
    RetransmitBy(node, upt, reply);
    PlainlyBy(node, upt, reply, q, q', sent, sent', fired, maxLen, timeout, now);
  }

  lemma RetransmitBy(node: Node, upt: Update, reply: Reply)
    requires reply == DecideReply(node, upt)
    ensures RetransmitSends(node, upt) ==
            if reply == ReplyNow && upt.dst in node.ft then [Send(upt.origin, Header(node.main, node.ft[upt.dst]))] else []
  {
  }

  lemma PlainlyBy(node: Node, upt: Update, reply: Reply, q: seq<PendingReply>, q': seq<PendingReply>, sent: seq<Send>,
                  sent': seq<Send>, fired: seq<PendingReply>, maxLen: nat, timeout: int, now: int)
    requires maxLen > 0 && (reply == NoReply <==> !CanHelp(node, upt.origin, upt.dst))
    requires CanHelp(node, upt.origin, upt.dst) && upt.hop < 256 && node.ft[upt.dst].hop < 256 &&
             RowHops(node, node.ft[upt.dst].nextHop, upt.origin) < 256 ==>
               var route := node.ft[upt.dst];
               reply == if route.hop == 1 || RowHops(node, route.nextHop, upt.origin) == upt.hop + route.hop - 1
                        then ReplyNow else ReplyLater
    requires fired == (if reply == ReplyLater then Filter(q, Expired(now)) else [])
    requires q' == if reply == ReplyLater then AfterEnqueue(q, maxLen, HeldReply(upt, timeout, now), now) else q
    requires sent' == sent +
                      (if reply == ReplyNow && upt.dst in node.ft
                       then [Send(upt.origin, Header(node.main, node.ft[upt.dst]))] else []) + FiredSends(node, fired)
    ensures AnsweredPlainly(node, upt, q, q', sent, sent', fired)
  {
    if reply == ReplyLater {
      HeldBackIsPending(q, maxLen, HeldReply(upt, timeout, now), now);
      assert sent + [] == sent;
    } else {
      assert FiredSends(node, fired) == [];
    }
  }

  lemma HeldBackIsPending(q: seq<PendingReply>, maxLen: nat, p: PendingReply, now: int)
    requires maxLen > 0
    ensures exists x :: x in AfterEnqueue(q, maxLen, p, now) && x.ne == p.ne && x.dst == p.dst
  {
    EnqueuedIsPending(q, maxLen, p, now);
    var after := AfterEnqueue(q, maxLen, p, now);
    var i :| 0 <= i < |after| && SamePair(after[i], p.ne, p.dst);
    assert after[i] in after;
  }

  class RoutingProtocol {
    const rd: Reading
    const main: Addr
    var ft: Row
    var dvt: Dvt
    var outbox: seq<Send>  // the UPDATEs handed to sockets so far
    const nb: Neighbors
    const prq: PendingReplyQueue
    const buffer: BsdvrQueue

    constructor (rd: Reading, main: Addr, maxQueueLen: nat, maxPrLen: nat, prTime: int)
      requires maxPrLen > 0
      ensures Valid() && fresh(nb) && fresh(prq) && fresh(buffer)
      ensures Value() == Node(main, [], map[], map[]) && outbox == []
    {
      this.rd, this.main := rd, main;
      ft, dvt, outbox := map[], map[], [];
      nb := new Neighbors(true);
      prq := new PendingReplyQueue(maxPrLen, prTime, true);
      buffer := new BsdvrQueue(maxQueueLen);
    }

    function Value(): Node
      reads this, nb
    {
      Node(main, Addresses(nb.nb), dvt, ft)
    }

    ghost predicate Valid()
      reads this, nb, prq
    {
      && Consistent(Value())
      && NeighborList.OneEach(nb.nb)
      && nb.hasHandler && prq.hasHandler && prq.maxLen > 0
    }

    method GetNeighbors() returns (addrs: seq<Addr>)
      ensures addrs == Value().nbrs
    {
      addrs := Addresses(nb.nb);
    }

    // ---------- tables ----------

    /** Looks `dst` up in the row of `n`. */
    method LookupRoute(dst: Addr, n: Addr) returns (rt: Option<Entry>)
      requires n in dvt
      ensures rt == Lookup(dvt[n], dst)
    {
      if dvt[n] == map[] || dst !in dvt[n] {
        return None;
      }
      return Some(dvt[n][dst]);
    }

    /** `std::map::insert`: an entry that is there already stays. */
    method AddRoute(rt: Entry, n: Addr) returns (added: bool)
      requires n in dvt
      modifies this`dvt
      ensures added == (rt.dst !in old(dvt)[n])
      ensures dvt == if added then Placed(old(dvt), n, rt) else old(dvt)
    {
      var row: Row := dvt[n];
      if rt.dst in row {
        return false;
      }
      dvt := dvt[n := row[rt.dst := rt]];
      return true;
    }

    /** Overwrites an entry that is there; otherwise nothing happens. */
    method Update(rt: Entry, n: Addr) returns (updated: bool)
      requires n in dvt
      modifies this`dvt
      ensures updated == (rt.dst in old(dvt)[n])
      ensures dvt == if updated then Placed(old(dvt), n, rt) else old(dvt)
    {
      var row: Row := dvt[n];
      if rt.dst !in row {
        return false;
      }
      dvt := dvt[n := row[rt.dst := rt]];
      return true;
    }

    method RemoveFakeRoutes(nxtHp: Addr, rt: Entry)
      modifies this`ft, this`dvt
      ensures ft == old(ft)
      ensures dvt == WithoutFakes(old(Value()), nxtHp, rt)
    {
      ghost var was := Value();
      var neighbors := GetNeighbors();
      var fakes := FindFakes(nxtHp, rt, neighbors);
      var i := 0;
      ErasedForNone(was, nxtHp, rt);
      while i < |neighbors|
        invariant 0 <= i <= |neighbors|
        invariant ft == was.ft && neighbors == was.nbrs
        invariant forall k :: k in fakes <==> Fake(was, nxtHp, rt, k)
        invariant dvt == ErasedFor(was, nxtHp, rt, neighbors[..i])
      {
        ghost var before := dvt;
        EraseFakes(neighbors[i], fakes);
        ErasedForStep(was, nxtHp, rt, neighbors, i, before, fakes);
        i := i + 1;
      }
      ErasedForAll(was, nxtHp, rt);
      assert neighbors[..|neighbors|] == neighbors;
    }

    /** The suspect destinations are erased from the row of `n`, except those routed through `n`. */
    method EraseFakes(n: Addr, fakes: seq<Addr>)
      requires forall k :: k in fakes ==> k in ft
      modifies this`ft, this`dvt
      ensures ft == old(ft)
      ensures dvt == WithoutIn(old(dvt), ft, n, fakes)
    {
      if n in dvt {
        var eraseIps := FindErasable(n, fakes);
        ErasableAre(dvt, ft, n, fakes, eraseIps);
        if eraseIps != [] {
          EraseAll(n, eraseIps);
        }
      }
    }

    /** The first loop of RemoveFakeRoutes. */
    method FindFakes(nxtHp: Addr, rt: Entry, neighbors: seq<Addr>) returns (fakes: seq<Addr>)
      requires neighbors == Value().nbrs
      ensures forall k :: k in fakes <==> Fake(Value(), nxtHp, rt, k)
    {
      var keys := SortedKeys(ft.Keys);
      fakes := FakesAmong(nxtHp, rt, neighbors, keys);
      assert forall k :: Fake(Value(), nxtHp, rt, k) ==> k in ft.Keys;
    }

    method FakesAmong(nxtHp: Addr, rt: Entry, neighbors: seq<Addr>, keys: seq<Addr>) returns (fakes: seq<Addr>)
      requires neighbors == Value().nbrs
      requires forall k :: k in keys ==> k in ft
      ensures forall k :: k in fakes <==> k in keys && Fake(Value(), nxtHp, rt, k)
    {
      fakes := [];
      ghost var test := FakeTest(Value(), nxtHp, rt);
      var i := 0;
      while i < |keys|
        invariant 0 <= i <= |keys|
        invariant fakes == Filter(keys[..i], test)
      {
        FilterPrefix(keys, i, test);
        var added := ConsiderFake(nxtHp, rt, neighbors, keys[i]);
        assert added == if test(keys[i]) then [keys[i]] else [];
        fakes := fakes + added;
        i := i + 1;
      }
      assert keys[..|keys|] == keys;
    }

    method ConsiderFake(nxtHp: Addr, rt: Entry, neighbors: seq<Addr>, currDst: Addr) returns (added: seq<Addr>)
      requires neighbors == Value().nbrs && currDst in ft
      ensures FakeTest(Value(), nxtHp, rt)(currDst) == Fake(Value(), nxtHp, rt, currDst)
      ensures added == if Fake(Value(), nxtHp, rt, currDst) then [currDst] else []
    {
      added := [];
      var currNxtHp := ft[currDst].nextHop;
      if ft[currDst].state == ACTIVE && rt.state == INACTIVE {
        if nxtHp == currNxtHp && rt.dst == currDst {
          added := added + [currDst];
        }
        if nxtHp == rt.dst && nxtHp in neighbors {
          if currNxtHp == nxtHp && rt.dst != currDst {
            added := added + [currDst];
          }
        }
      }
    }

    /** The suspect destinations in the row of `n` whose route does not go through `n`. */
    method FindErasable(n: Addr, fakes: seq<Addr>) returns (erasable: seq<Addr>)
      requires n in dvt && forall k :: k in fakes ==> k in ft
      modifies this`ft
      ensures ft == old(ft)
      ensures forall k :: k in erasable <==> k in dvt[n] && k in fakes && ft[k].nextHop != n
    {
      erasable := [];
      var keys := SortedKeys(dvt[n].Keys);
      ghost var seen: set<Addr> := {};
      var j := 0;
      while j < |keys|
        invariant 0 <= j <= |keys| && ft == old(ft)
        invariant forall k :: k in seen <==> k in keys[..j]
        invariant forall k :: k in erasable <==> k in seen && k in fakes && ft[k].nextHop != n
      {
        erasable := CheckFakes(n, keys[j], fakes, erasable);
        NextVisited(keys, j);
        seen := seen + {keys[j]};
        j := j + 1;
      }
      assert keys[..|keys|] == keys;
    }

    /** The innermost loop: is destination `d` of the row of `n` among the suspect ones? */
    method CheckFakes(n: Addr, d: Addr, fakes: seq<Addr>, soFar: seq<Addr>) returns (erasable: seq<Addr>)
      requires forall k :: k in fakes ==> k in ft
      modifies this`ft
      ensures ft == old(ft)
      ensures forall k :: k in erasable <==> k in soFar || (k == d && d in fakes && ft[d].nextHop != n)
    {
      erasable := soFar;
      ghost var found := false;
      var l := 0;
      while l < |fakes|
        invariant 0 <= l <= |fakes| && ft == old(ft)
        invariant found <==> d in fakes[..l]
        invariant forall k :: k in erasable <==> k in soFar || (k == d && found && d in ft && ft[d].nextHop != n)
      {
        if fakes[l] == d {
          assert d in fakes;
          ft := Touched(ft, d);
          var currNxtHp := ft[d].nextHop;
          if n != currNxtHp {
            erasable := erasable + [fakes[l]];
          }
          found := true;
        }
        NextVisited(fakes, l);
        l := l + 1;
      }
      assert fakes[..|fakes|] == fakes;
    }

    method EraseAll(n: Addr, ips: seq<Addr>)
      requires n in dvt
      modifies this`dvt
      ensures dvt == old(dvt)[n := Minus(old(dvt)[n], ips)]
    {
      var r := 0;
      assert Minus(dvt[n], []) == dvt[n] && dvt[n := dvt[n]] == dvt;
      while r < |ips|
        invariant 0 <= r <= |ips|
        invariant n in dvt && dvt == old(dvt)[n := dvt[n]] && dvt[n] == Minus(old(dvt)[n], ips[..r])
      {
        assert ips[..r + 1] == ips[..r] + [ips[r]];
        assert dvt[n] - {ips[r]} == Minus(old(dvt)[n], ips[..r + 1]);
        dvt := dvt[n := dvt[n] - {ips[r]}];
        r := r + 1;
      }
      assert ips[..|ips|] == ips;
    }

    method UpdateDistanceVectorTable(nxtHp: Addr, rt: Entry)
      modifies this`ft, this`dvt
      ensures ft == old(ft)
      ensures dvt == UpdatedDvt(rd, old(Value()), nxtHp, rt)
    {
      var neighbors := GetNeighbors();
      if rt.dst in ft {
        RemoveFakeRoutes(nxtHp, rt);
      }
      if nxtHp in neighbors && nxtHp in dvt && !rd.writesExisting {
        // link quality is taken to be constant, so nothing is stored
      } else {
        if nxtHp !in dvt {
          dvt := dvt[nxtHp := map[]];
        }
        var row: Row := dvt[nxtHp];
        dvt := dvt[nxtHp := row[rt.dst := rt]];
      }
    }

    method RefreshForwardingTable(dst: Addr, nxtHp: Addr)
      modifies this`ft
      ensures ft == if nxtHp in dvt
                    then (if dst in dvt[nxtHp] then old(ft)[dst := dvt[nxtHp][dst]] else old(ft))
                    else var m := Touched(old(ft), dst); m[dst := m[dst].(state := INACTIVE)]
    {
      if nxtHp in dvt {
        if dst in dvt[nxtHp] {
          ft := ft[dst := dvt[nxtHp][dst]];
        }
      } else {
        ft := Touched(ft, dst);
        ft := ft[dst := ft[dst].(state := INACTIVE)];
      }
    }

    method ComputeForwardingTable() returns (changes: seq<Addr>)
      requires RowsOwned(dvt)
      modifies this`ft
      ensures ft == ComputedFt(rd, old(Value()))
      ensures changes == ChangeList(rd, old(Value()))
    {
      ghost var node := Value();
      var neighbors := GetNeighbors();
      changes := ConsiderNeighbors(neighbors);
      TableIsComputed(rd, ft, node);
      changes := Without(changes, main);
    }

    /** The outer loop. */
    method ConsiderNeighbors(neighbors: seq<Addr>) returns (changes: seq<Addr>)
      requires RowsOwned(dvt)
      modifies this`ft
      ensures TableIs(rd, ft, dvt, old(ft), neighbors) && changes == ChangeLog(rd, neighbors, dvt, old(ft))
    {
      ghost var was, done := ft, [];
      changes := [];
      var i := 0;
      NothingConsidered(rd, ft, dvt);
      while i < |neighbors|
        invariant 0 <= i <= |neighbors| && done == neighbors[..i]
        invariant TableIs(rd, ft, dvt, was, done)
        invariant changes == ChangeLog(rd, done, dvt, was)
      {
        changes := ConsiderRow(neighbors[i], changes, was, done);
        done := done + [neighbors[i]];
        i := i + 1;
      }
      assert done == neighbors;
    }

    /** The inner loop: every destination in the row of `n`, in key order. */
    method ConsiderRow(n: Addr, log: seq<Addr>, ghost was: Row, ghost init: seq<Addr>) returns (changes: seq<Addr>)
      requires RowsOwned(dvt)
      requires TableIs(rd, ft, dvt, was, init) && log == ChangeLog(rd, init, dvt, was)
      modifies this`ft
      ensures TableIs(rd, ft, dvt, was, init + [n]) && changes == ChangeLog(rd, init + [n], dvt, was)
    {
      changes := log;
      if n in dvt {
        var keys := SortedKeys(dvt[n].Keys);
        assert forall j :: 0 <= j < |keys| ==> keys[j] in keys;
        changes := ConsiderKeys(n, keys, log, was, init);
        TableTurned(rd, ft, dvt, was, init, n, keys);
      } else {
        TableTurned(rd, ft, dvt, was, init, n, []);
      }
      LogTurned(rd, dvt, was, init, n);
    }

    method ConsiderKeys(n: Addr, keys: seq<Addr>, log: seq<Addr>, ghost was: Row, ghost init: seq<Addr>)
      returns (changes: seq<Addr>)
      requires RowsOwned(dvt)
      requires n in dvt && forall j :: 0 <= j < |keys| ==> keys[j] in dvt[n]
      requires forall a, b :: 0 <= a < b < |keys| ==> keys[a] < keys[b]
      requires TableIs(rd, ft, dvt, was, init)
      modifies this`ft
      ensures TableIsAt(rd, ft, dvt, was, init, n, keys)
      ensures changes == log + PushedKeys(rd, init, n, dvt, was, log, keys)
    {
      changes := log;
      ghost var done := [];
      var j := 0;
      while j < |keys|
        invariant 0 <= j <= |keys| && done == keys[..j]
        invariant TableIsAt(rd, ft, dvt, was, init, n, done)
        invariant changes == log + PushedKeys(rd, init, n, dvt, was, log, done)
      {
        var d := keys[j];
        NotYetVisited(keys, j);
        ghost var before := ft;
        PushTurn(rd, ft, dvt, was, init, n, done, d, log);
        changes := ConsiderEntry(n, d, changes);
        TableTurn(rd, before, ft, dvt, was, init, n, done, d);
        done := done + [d];
        j := j + 1;
      }
      assert done == keys;
    }

    /** The body of the inner loop. */
    method ConsiderEntry(n: Addr, d: Addr, log: seq<Addr>) returns (changes: seq<Addr>)
      requires n in dvt && d in dvt[n]
      modifies this`ft
      ensures var new_ := dvt[n][d];
              && ft == old(ft)[d := Considered(rd, old(ft), dvt, new_, d)]
              && changes == log + Listing(rd, old(ft), dvt, new_, d, log)
    {
      changes := log;
      if d in ft {
        ft := Touched(ft, d);
        var currNxtHp := ft[d].nextHop;
        var oldEntry := ft[d];
        RefreshForwardingTable(d, currNxtHp);
        var newEntry := dvt[n][d];
        var currEntry := ft[d];
        if Beats(rd, newEntry, currEntry) {
          ft := ft[d := newEntry];
          if (d in changes) != rd.pushesAbsent {
            changes := changes + [d];
          }
        } else if currEntry.hop != oldEntry.hop || currEntry.state != oldEntry.state {
          if (d in changes) != rd.pushesAbsent {
            changes := changes + [d];
          }
        }
      } else {
        ft := ft[d := dvt[n][d]];
        changes := changes + [d];
      }
    }

    // ---------- sending ----------

    method SendUpdate(rt: Entry, ne: Addr)
      modifies this`outbox
      ensures outbox == old(outbox) + [Send(ne, Header(main, rt))]
    {
      outbox := outbox + [Send(ne, Header(main, rt))];
    }

    /** Hands the whole table to a new neighbour. */
    method SendTriggeredUpdateToNeighbor(ne: Addr)
      modifies this`outbox
      ensures outbox == old(outbox) + FullTable(Value(), SortedKeys(ft.Keys), ne)
    {
      SendRoutesTo(SortedKeys(ft.Keys), ne);
    }

    method SendRoutesTo(keys: seq<Addr>, ne: Addr)
      requires forall k :: k in keys ==> k in ft
      modifies this`outbox
      ensures outbox == old(outbox) + FullTable(Value(), keys, ne)
    {
      var i := 0;
      while i < |keys|
        invariant 0 <= i <= |keys|
        invariant outbox == old(outbox) + FullTable(Value(), keys[..i], ne)
      {
        var d := keys[i];
        FullTableStep(Value(), keys, i, ne);
        if ft[d].dst != UNSPECIFIED {
          if d != main && d != ne && d != LOOPBACK {
            SendUpdate(ft[d], ne);
          }
        }
        i := i + 1;
      }
      assert keys[..|keys|] == keys;
    }

    method SendTriggeredUpdateChangesToNeighbors(changes: seq<Addr>, nex: seq<Addr>)
      modifies this`outbox
      ensures outbox == old(outbox) + Advertise(Value(), Value().nbrs, changes, nex)
    {
      var neighbors := GetNeighbors();
      var i := 0;
      while i < |neighbors|
        invariant 0 <= i <= |neighbors|
        invariant outbox == old(outbox) + Advertise(Value(), neighbors[..i], changes, nex)
      {
        var ne := neighbors[i];
        assert neighbors[..i + 1][..i] == neighbors[..i];
        if ne !in nex {
          SendChangesTo(changes, ne);
        }
        i := i + 1;
      }
      assert neighbors[..|neighbors|] == neighbors;
    }

    method SendChangesTo(changes: seq<Addr>, ne: Addr)
      modifies this`outbox
      ensures outbox == old(outbox) + ChangesTo(Value(), changes, ne)
    {
      var j := 0;
      while j < |changes|
        invariant 0 <= j <= |changes|
        invariant outbox == old(outbox) + ChangesTo(Value(), changes[..j], ne)
      {
        var c := changes[j];
        assert changes[..j + 1][..j] == changes[..j];
        if c in ft {
          if c != ne {
            SendUpdate(ft[c], ne);
          }
        }
        j := j + 1;
      }
      assert changes[..|changes|] == changes;
    }

    method SendUpdateOnPendingReplyEntryTimeout(p: PendingReply)
      modifies this`outbox
      ensures outbox == old(outbox) + TimeoutSends(Value(), p.ne, p.dst)
    {
      var neighbors := GetNeighbors();
      if p.dst in ft && p.ne in neighbors {
        if ft[p.dst].state == ACTIVE && ft[p.dst].nextHop != p.ne {
          SendUpdate(ft[p.dst], p.ne);
        }
      }
    }

    /** The timeout callback, for each entry that its queue found expired. */
    method HandleTimeouts(fired: seq<PendingReply>)
      modifies this`outbox
      ensures outbox == old(outbox) + FiredSends(Value(), fired)
    {
      var i := 0;
      while i < |fired|
        invariant 0 <= i <= |fired|
        invariant outbox == old(outbox) + FiredSends(Value(), fired[..i])
      {
        assert fired[..i + 1][..i] == fired[..i];
        SendUpdateOnPendingReplyEntryTimeout(fired[i]);
        i := i + 1;
      }
      assert fired[..|fired|] == fired;
    }

    /** Compares the costs of the two routes and decides how to answer. */
    method ChooseReply(upt: Update) returns (reply: Reply)
      ensures reply == DecideReply(Value(), upt)
      ensures reply == ReplyNow ==> upt.dst in ft
    {
      reply := NoReply;
      var neighbors := GetNeighbors();
      var ne, dst := upt.origin, upt.dst;
      if dst in ft && ne in neighbors {
        var c5 := 0;
        var nxtHp := ft[dst].nextHop;
        if ft[dst].state == ACTIVE && nxtHp != ne {
          if nxtHp in dvt {
            if ne in dvt[nxtHp] {
              c5 := dvt[nxtHp][ne].hop;
            }
          }
          reply := if CostsAgree(ft[dst].hop, upt.hop, c5) then ReplyNow else ReplyLater;
        }
      }
    }

    /** Answers the sender of an INACTIVE UPDATE at once, or queues the answer; `fired` timed out meanwhile. */
    method RetransmitToNeighbor(upt: Update, now: int) returns (fired: seq<PendingReply>)
      requires prq.maxLen > 0 && prq.hasHandler
      modifies this`outbox, prq`q
      ensures var later := DecideReply(Value(), upt) == ReplyLater;
              && fired == (if later then Filter(old(prq.q), Expired(now)) else [])
              && prq.q == if later then AfterEnqueue(old(prq.q), prq.maxLen, HeldReply(upt, prq.timeout, now), now)
                          else old(prq.q)
      ensures outbox == old(outbox) + RetransmitSends(Value(), upt) + FiredSends(Value(), fired)
      ensures AnsweredPlainly(Value(), upt, old(prq.q), prq.q, old(outbox), outbox, fired)
    {
      ghost var node, q, sent := Value(), prq.q, outbox;
      fired := ReplyOrHoldBack(upt, now);
      RepliesPlainly(node, upt, q, prq.q, sent, outbox, fired, prq.maxLen, prq.timeout, now);
    }

    method ReplyOrHoldBack(upt: Update, now: int) returns (fired: seq<PendingReply>)
      requires prq.maxLen > 0 && prq.hasHandler
      modifies this`outbox, prq`q
      ensures var later := DecideReply(Value(), upt) == ReplyLater;
              && fired == (if later then Filter(old(prq.q), Expired(now)) else [])
              && prq.q == if later then AfterEnqueue(old(prq.q), prq.maxLen, HeldReply(upt, prq.timeout, now), now)
                          else old(prq.q)
      ensures outbox == old(outbox) + RetransmitSends(Value(), upt) + FiredSends(Value(), fired)
    {
      fired := [];
      ghost var node, sent := Value(), outbox;
      var reply := ChooseReply(upt);
      if reply == ReplyNow {
        SendUpdate(ft[upt.dst], upt.origin);
        assert Value() == node && outbox == sent + RetransmitSends(node, upt);
      } else if reply == ReplyLater {
        assert RetransmitSends(node, upt) == [];
        fired := HoldBack(upt, now);
        assert Value() == node && outbox == sent + FiredSends(node, fired);
      }
    }

    method HoldBack(upt: Update, now: int) returns (fired: seq<PendingReply>)
      requires prq.maxLen > 0 && prq.hasHandler
      modifies this`outbox, prq`q
      ensures fired == Filter(old(prq.q), Expired(now))
      ensures prq.q == AfterEnqueue(old(prq.q), prq.maxLen, HeldReply(upt, prq.timeout, now), now)
      ensures outbox == old(outbox) + FiredSends(Value(), fired)
    {
      ghost var was, held := prq.q, HeldReply(upt, prq.timeout, now);
      var queued;
      queued, fired := prq.Enqueue(upt.origin, upt.dst, now);
      assert prq.q == AfterEnqueue(was, prq.maxLen, held, now);
      assert fired == Filter(was, Expired(now));
      ghost var after, sent := prq.q, outbox;
      HandleTimeouts(fired);
      assert prq.q == after;
      assert outbox == sent + FiredSends(Value(), fired);
    }

    // ---------- events ----------

    /** Absorbs a route and reports what changed: the steps an UPDATE and a link failure share. */
    method UpdateAndAdvertise(nxtHp: Addr, rt: Entry, nex: seq<Addr>)
      requires Consistent(Value()) && rt.nextHop == nxtHp
      modifies this`ft, this`dvt, this`outbox
      ensures Consistent(Value())
      ensures var stored := Stored(rd, old(Value()), nxtHp, rt);
              && Value() == Computed(rd, stored)
              && outbox == old(outbox) + Advertise(Value(), Value().nbrs, ChangeList(rd, stored), nex)
    {
      StoredIsConsistent(rd, Value(), nxtHp, rt);
      UpdateKeepsConsistent(rd, Value(), nxtHp, rt);
      UpdateDistanceVectorTable(nxtHp, rt);
      var changes := ComputeForwardingTable();
      SendTriggeredUpdateChangesToNeighbors(changes, nex);
    }

    /** Answers an INACTIVE UPDATE about anything but its origin. */
    method AnswerUpdate(upt: Update, now: int) returns (fired: seq<PendingReply>)
      requires prq.maxLen > 0 && prq.hasHandler
      modifies this`outbox, prq`q
      ensures fired == (if RepliesLater(Value(), upt) then Filter(old(prq.q), Expired(now)) else [])
      ensures prq.q == if RepliesLater(Value(), upt)
                       then AfterEnqueue(old(prq.q), prq.maxLen, HeldReply(upt, prq.timeout, now), now)
                       else old(prq.q)
      ensures outbox == old(outbox) + ReplySends(Value(), upt) + FiredSends(Value(), fired)
    {
      fired := [];
      if upt.state == INACTIVE && upt.dst != upt.origin {
        fired := RetransmitToNeighbor(upt, now);
      }
    }

    /** Handles an UPDATE; `out` is the interface the node's routes leave by, `sent` the packets it lets go. */
    method RecvUpdate(src: Addr, upt: Update, now: int, out: int) returns (fired: seq<PendingReply>, sent: seq<Key>)
      requires Valid()
      modifies this`ft, this`dvt, this`outbox, prq`q, buffer`q
      ensures Valid()
      ensures Value() == OnUpdate(rd, old(Value()), src, upt).node
      ensures fired == (if RepliesLater(Value(), upt) then Filter(old(prq.q), Expired(now)) else [])
      ensures prq.q == if RepliesLater(Value(), upt)
                       then AfterEnqueue(old(prq.q), prq.maxLen, HeldReply(upt, prq.timeout, now), now)
                       else old(prq.q)
      ensures outbox == old(outbox) + OnUpdate(rd, old(Value()), src, upt).sends + FiredSends(Value(), fired)
      ensures buffer.q == Flushed(old(buffer.q), ft, SortedKeys(ft.Keys), out)
      ensures sent == FlushedPackets(old(buffer.q), ft, SortedKeys(ft.Keys), out)
      ensures NoneHeld(old(buffer.q), out) ==> FlushedPlainly(old(buffer.q), buffer.q, sent, ft, SortedKeys(ft.Keys))
    {
      fired := HandleUpdate(src, upt, now);
      ghost var node, replies, sends := Value(), prq.q, outbox;
      sent := FlushBuffer(buffer, ft, out);
      assert Value() == node && prq.q == replies && outbox == sends;
    }

    /** RecvUpdate up to the data plane. */
    method HandleUpdate(src: Addr, upt: Update, now: int) returns (fired: seq<PendingReply>)
      requires Valid()
      modifies this`ft, this`dvt, this`outbox, prq`q
      ensures Valid()
      ensures Value() == OnUpdate(rd, old(Value()), src, upt).node
      ensures fired == (if RepliesLater(Value(), upt) then Filter(old(prq.q), Expired(now)) else [])
      ensures prq.q == if RepliesLater(Value(), upt)
                       then AfterEnqueue(old(prq.q), prq.maxLen, HeldReply(upt, prq.timeout, now), now)
                       else old(prq.q)
      ensures outbox == old(outbox) + OnUpdate(rd, old(Value()), src, upt).sends + FiredSends(Value(), fired)
    {
      var hop := Narrow(upt.hop);
      var rt := Entry(upt.dst, src, hop, upt.state);
      UpdateAndAdvertise(src, rt, []);
      ghost var ads := Advertise(Value(), Value().nbrs, ChangeList(rd, Stored(rd, old(Value()), src, rt)), []);
      fired := AnswerUpdate(upt, now);
      AppendInParts(old(outbox), ads, ReplySends(Value(), upt), FiredSends(Value(), fired));
    }

    method SendUpdateOnLinkFailure(ne: Addr)
      requires Consistent(Value())
      modifies this`ft, this`dvt, this`outbox
      ensures Consistent(Value())
      ensures var o := OnLinkFailure(rd, old(Value()), ne); Value() == o.node && outbox == old(outbox) + o.sends
    {
      if ne in dvt {
        if ne in dvt[ne] {
          UpdateAndAdvertise(ne, dvt[ne][ne].(state := INACTIVE), [ne]);
        }
      }
    }

    /** The link-failure callback, for each neighbour that the purge found closed. */
    method HandleFailures(failed: seq<Addr>)
      requires Consistent(Value())
      modifies this`ft, this`dvt, this`outbox
      ensures Consistent(Value())
      ensures var o := OnLinkFailures(rd, old(Value()), failed); Value() == o.node && outbox == old(outbox) + o.sends
    {
      ghost var node, sent := Value(), outbox;
      ghost var o := OnLinkFailures(rd, node, []);
      var i := 0;
      while i < |failed|
        invariant 0 <= i <= |failed|
        invariant Consistent(Value())
        invariant o == OnLinkFailures(rd, node, failed[..i])
        invariant Value() == o.node && outbox == sent + o.sends
      {
        LinkFailuresStep(rd, node, failed, i);
        ghost var last := OnLinkFailure(rd, o.node, failed[i]);
        SendUpdateOnLinkFailure(failed[i]);
        AppendInParts(sent, o.sends, last.sends, []);
        o := Outcome(last.node, o.sends + last.sends);
        i := i + 1;
      }
      assert failed[..|failed|] == failed;
    }

    /** Purge of the neighbour list, with its callback bound to SendUpdateOnLinkFailure. */
    method PurgeNeighbors(now: int)
      requires Valid()
      modifies this`ft, this`dvt, this`outbox, nb`nb
      ensures Valid()
      ensures nb.nb == Survivors(old(nb.nb), now)
      ensures var o := OnPurge(rd, old(Value()), Failures(old(nb.nb), now));
              Value() == o.node && outbox == old(outbox) + o.sends
    {
      var failed := nb.ReportFailures(now);
      LinkFailuresKeepConsistent(rd, Value(), failed);
      SurvivorsByAddress(nb.nb, now);
      NeighborList.FilterIsOneEach(nb.nb, Open(now));
      HandleFailures(failed);
      nb.EraseClosed(now);
    }

    method ProcessHello(origin: Addr, helloInterval: int, mac: nat, now: int)
      requires Valid()
      modifies this`ft, this`dvt, this`outbox, nb`nb
      ensures Valid()
      ensures nb.nb == Updated(old(nb.nb), origin, helloInterval, now, mac)
      ensures var failed := UpdateFailures(old(nb.nb), origin, helloInterval, now, mac);
              var o := OnHello(rd, old(Value()), origin, failed);
              Value() == o.node && outbox == old(outbox) + o.sends
    {
      UpdateNeighbor(origin, helloInterval, mac, now);
      ghost var greeted := Greeted(rd, old(Value()), origin, UpdateFailures(old(nb.nb), origin, helloInterval, now, mac));
      ghost var node := Value();
      EnsureRow(origin);
      var toNeighbor := LookupRoute(origin, origin);
      if toNeighbor.None? {
        GreetNewcomer(node, origin);
        AppendInParts(old(outbox), greeted.sends, FullTable(Value(), SortedKeys(ft.Keys), origin), []);
      } else {
        RepeatedHelloIsConsistent(Value(), origin);
        var updated := Update(toNeighbor.value.(hop := 1, nextHop := origin), origin);
      }
    }

    /** The row of a neighbour never heard of before is created empty. */
    method EnsureRow(n: Addr)
      modifies this`dvt
      ensures n in dvt && dvt == old(dvt)[n := RowOf(old(dvt), n)]
      ensures n in old(dvt) ==> dvt == old(dvt)
    {
      if n !in dvt {
        dvt := dvt[n := map[]];
      }
    }

    /** The origin of a Hello has no entry in its own row yet; `node` is the state before that row was made sure of. */
    method GreetNewcomer(ghost node: Node, origin: Addr)
      requires Consistent(node) && origin !in RowOf(node.dvt, origin)
      requires Value() == node.(dvt := node.dvt[origin := RowOf(node.dvt, origin)])
      modifies this`ft, this`dvt, this`outbox
      ensures Consistent(Value())
      ensures Value() == Computed(rd, Introduced(node, origin))
      ensures outbox == old(outbox) + FullTable(Value(), SortedKeys(ft.Keys), origin)
    {
      IntroducedIsConsistent(rd, node, origin);
      InsertIsIntroduction(node, origin);
      var newEntry := Entry(origin, origin, 1, ACTIVE);
      var added := AddRoute(newEntry, origin);
      assert Value() == Introduced(node, origin);
      var changes := ComputeForwardingTable();
      SendTriggeredUpdateToNeighbor(origin);
    }

    /** Neighbors::Update, with the callback of its purge bound. */
    method UpdateNeighbor(origin: Addr, helloInterval: int, mac: nat, now: int)
      requires Valid()
      modifies this`ft, this`dvt, this`outbox, nb`nb
      ensures Valid()
      ensures nb.nb == Updated(old(nb.nb), origin, helloInterval, now, mac)
      ensures var failed := UpdateFailures(old(nb.nb), origin, helloInterval, now, mac);
              var o := Greeted(rd, old(Value()), origin, failed);
              Value() == o.node && outbox == old(outbox) + o.sends
    {
      ListedByAddress(nb.nb, origin);
      NotedAddresses(nb.nb, origin, helloInterval, now, mac);
      var added := nb.Note(origin, helloInterval, now, mac);
      if added {
        PurgeNeighbors(now);
      }
    }
  }

  /** The cells of `ft` are what the fold over the neighbours `nbrs` makes of the table `was`. */
  ghost predicate TableIs(rd: Reading, ft: Row, dvt: Dvt, was: Row, nbrs: seq<Addr>) {
    forall d :: Lookup(ft, d) == Cell(rd, nbrs, dvt, was, d)
  }

  lemma NothingConsidered(rd: Reading, ft: Row, dvt: Dvt)
    ensures TableIs(rd, ft, dvt, ft, []) && ChangeLog(rd, [], dvt, ft) == []
  {
  }

  lemma TableIsComputed(rd: Reading, ft: Row, node: Node)
    requires TableIs(rd, ft, node.dvt, node.ft, node.nbrs)
    ensures ft == ComputedFt(rd, node)
  {
    forall d ensures Lookup(ft, d) == Lookup(ComputedFt(rd, node), d) {
      ComputedCell(rd, node, d);
    }
    SameRows(ft, ComputedFt(rd, node));
  }

  /** Half-way through a row: only the destinations `done` have been considered against `n` as well. */
  ghost predicate TableIsAt(rd: Reading, ft: Row, dvt: Dvt, was: Row, init: seq<Addr>, n: Addr, done: seq<Addr>) {
    forall d :: Lookup(ft, d) == Cell(rd, if d in done then init + [n] else init, dvt, was, d)
  }

  /** What considering the entry `new_` does to the cell of `d`. */
  function Considered(rd: Reading, ft: Row, dvt: Dvt, new_: Entry, d: Addr): Entry {
    if d in ft then
      var curr := Refreshed(dvt, ft[d], d);
      if Beats(rd, new_, curr) then new_ else curr
    else new_
  }

  /** What considering the entry `new_` adds to the changes `listed` so far. */
  function Listing(rd: Reading, ft: Row, dvt: Dvt, new_: Entry, d: Addr, listed: seq<Addr>): seq<Addr> {
    if d in ft then
      var curr := Refreshed(dvt, ft[d], d);
      if (Beats(rd, new_, curr) || !SameValue(curr, ft[d])) && (rd.pushesAbsent <==> d !in listed) then [d] else []
    else [d]
  }

  lemma TableTurn(rd: Reading, ft: Row, ft': Row, dvt: Dvt, was: Row, init: seq<Addr>, n: Addr, done: seq<Addr>, d: Addr)
    requires RowsOwned(dvt) && n in dvt && d in dvt[n] && d !in done
    requires TableIsAt(rd, ft, dvt, was, init, n, done)
    requires ft' == ft[d := Considered(rd, ft, dvt, dvt[n][d], d)]
    ensures TableIsAt(rd, ft', dvt, was, init, n, done + [d])
  {
    CellStep(rd, init, n, dvt, was, d);
    assert Lookup(ft, d) == Cell(rd, init, dvt, was, d);
    forall x ensures Lookup(ft', x) == Cell(rd, if x in done + [d] then init + [n] else init, dvt, was, x) {
      if x != d {
        assert Lookup(ft', x) == Lookup(ft, x);
      }
    }
  }

  /** What the inner loop pushes for the destinations `keys`. */
  function PushedKeys(rd: Reading, init: seq<Addr>, n: Addr, dvt: Dvt, was: Row, log: seq<Addr>, keys: seq<Addr>): seq<Addr> {
    if keys == [] then [] else
    var d := keys[|keys| - 1];
    PushedKeys(rd, init, n, dvt, was, log, keys[..|keys| - 1]) +
    if Pushes(rd, init, n, dvt, was, log, d) then [d] else []
  }

  lemma {:induction false} PushedIsFiltered(rd: Reading, init: seq<Addr>, n: Addr, dvt: Dvt, was: Row, log: seq<Addr>, keys: seq<Addr>)
    ensures PushedKeys(rd, init, n, dvt, was, log, keys) == Filter(keys, PushTest(rd, init, n, dvt, was, log))
  {
    if keys != [] {
      PushedIsFiltered(rd, init, n, dvt, was, log, keys[..|keys| - 1]);
    }
  }

  lemma {:induction false} PushedIsAmong(rd: Reading, init: seq<Addr>, n: Addr, dvt: Dvt, was: Row, log: seq<Addr>, keys: seq<Addr>, d: Addr)
    requires d !in keys
    ensures d !in PushedKeys(rd, init, n, dvt, was, log, keys)
  {
    if keys != [] {
      PushedIsAmong(rd, init, n, dvt, was, log, keys[..|keys| - 1], d);
    }
  }

  /** The guard on the change list, as the code evaluates it, is the one the list is specified by. */
  lemma PushTurn(rd: Reading, ft: Row, dvt: Dvt, was: Row, init: seq<Addr>, n: Addr, done: seq<Addr>, d: Addr,
                 log: seq<Addr>)
    requires n in dvt && d in dvt[n] && d !in done
    requires TableIsAt(rd, ft, dvt, was, init, n, done)
    ensures var pushed := PushedKeys(rd, init, n, dvt, was, log, done);
            PushedKeys(rd, init, n, dvt, was, log, done + [d]) ==
            pushed + Listing(rd, ft, dvt, dvt[n][d], d, log + pushed)
  {
    PushedIsAmong(rd, init, n, dvt, was, log, done, d);
    assert Lookup(ft, d) == Cell(rd, init, dvt, was, d);
    assert (done + [d])[..|done|] == done;
  }

  lemma TableTurned(rd: Reading, ft: Row, dvt: Dvt, was: Row, init: seq<Addr>, n: Addr, keys: seq<Addr>)
    requires RowsOwned(dvt) && forall d :: d in keys <==> n in dvt && d in dvt[n]
    requires TableIsAt(rd, ft, dvt, was, init, n, keys)
    ensures TableIs(rd, ft, dvt, was, init + [n])
  {
  }

  lemma LogTurned(rd: Reading, dvt: Dvt, was: Row, init: seq<Addr>, n: Addr)
    ensures var log := ChangeLog(rd, init, dvt, was);
            ChangeLog(rd, init + [n], dvt, was) == log + PushedKeys(rd, init, n, dvt, was, log, RowKeys(dvt, n))
  {
    assert (init + [n])[..|init|] == init;
    PushedIsFiltered(rd, init, n, dvt, was, ChangeLog(rd, init, dvt, was), RowKeys(dvt, n));
  }

  lemma ErasedForNone(node: Node, nxtHp: Addr, rt: Entry)
    ensures ErasedFor(node, nxtHp, rt, node.nbrs[..0]) == node.dvt
  {
    forall m | m in node.dvt ensures ErasedFor(node, nxtHp, rt, [])[m] == node.dvt[m] {
    }
  }

  lemma ErasedForAll(node: Node, nxtHp: Addr, rt: Entry)
    ensures ErasedFor(node, nxtHp, rt, node.nbrs) == WithoutFakes(node, nxtHp, rt)
  {
    forall m | m in node.dvt
      ensures ErasedFor(node, nxtHp, rt, node.nbrs)[m] == WithoutFakes(node, nxtHp, rt)[m]
    {
    }
  }

  lemma ErasableAre(dvt: Dvt, ft: Row, n: Addr, fakes: seq<Addr>, ips: seq<Addr>)
    requires n in dvt && forall k :: k in fakes ==> k in ft
    requires forall k :: k in ips <==> k in dvt[n] && k in fakes && ft[k].nextHop != n
    ensures dvt[n := Minus(dvt[n], ips)] == WithoutIn(dvt, ft, n, fakes)
    ensures ips == [] ==> dvt == WithoutIn(dvt, ft, n, fakes)
  {
    assert Minus(dvt[n], ips) == WithoutIn(dvt, ft, n, fakes)[n];
    if ips == [] {
      assert Minus(dvt[n], ips) == dvt[n];
      assert dvt[n := dvt[n]] == dvt;
    }
  }

  lemma ErasedForStep(node: Node, nxtHp: Addr, rt: Entry, nbrs: seq<Addr>, i: nat, before: Dvt, fakes: seq<Addr>)
    requires i < |nbrs|
    requires before == ErasedFor(node, nxtHp, rt, nbrs[..i])
    requires forall k :: k in fakes ==> k in node.ft
    requires forall k :: k in fakes <==> Fake(node, nxtHp, rt, k)
    ensures WithoutIn(before, node.ft, nbrs[i], fakes) == ErasedFor(node, nxtHp, rt, nbrs[..i + 1])
  {
    var target := ErasedFor(node, nxtHp, rt, nbrs[..i + 1]);
    var after := WithoutIn(before, node.ft, nbrs[i], fakes);
    assert nbrs[..i + 1] == nbrs[..i] + [nbrs[i]];
    forall m | m in node.dvt ensures after[m] == target[m] {
    }
  }

  lemma AppendInParts(a: seq<Send>, b: seq<Send>, c: seq<Send>, d: seq<Send>)
    ensures a + b + c + d == a + (b + c) + d
    ensures a + b + c == a + (b + c)
  {
  }

  lemma LinkFailuresStep(rd: Reading, node: Node, failed: seq<Addr>, i: nat)
    requires i < |failed|
    ensures var before := OnLinkFailures(rd, node, failed[..i]);
            var last := OnLinkFailure(rd, before.node, failed[i]);
            OnLinkFailures(rd, node, failed[..i + 1]) == Outcome(last.node, before.sends + last.sends)
  {
    assert failed[..i + 1][..i] == failed[..i];
  }

  /** Inserting an empty row first, where there is none, makes no difference. */
  lemma InsertIsIntroduction(node: Node, origin: Addr)
    ensures var dvt := node.dvt[origin := RowOf(node.dvt, origin)];
            Placed(dvt, origin, Entry(origin, origin, 1, ACTIVE)) == Introduced(node, origin).dvt
  {
  }

  lemma FullTableStep(node: Node, keys: seq<Addr>, i: nat, ne: Addr)
    requires i < |keys|
    ensures FullTable(node, keys[..i + 1], ne) ==
            FullTable(node, keys[..i], ne) +
            if keys[i] in node.ft && node.ft[keys[i]].dst != UNSPECIFIED && keys[i] != node.main && keys[i] != ne &&
               keys[i] != LOOPBACK
            then [Send(ne, Header(node.main, node.ft[keys[i]]))] else []
  {
    assert keys[..i + 1][..i] == keys[..i];
  }

  // ---------- neighbours as addresses ----------

  lemma ListedByAddress(nb: seq<Neighbor>, a: Addr)
    ensures a in Addresses(nb) <==> IndexOf(nb, a) < |nb|
  {
    if IndexOf(nb, a) < |nb| {
      assert Addresses(nb)[IndexOf(nb, a)] == a;
    }
  }

  lemma NotedAddresses(nb: seq<Neighbor>, a: Addr, expire: int, now: int, mac: nat)
    requires NeighborList.OneEach(nb)
    ensures var noted := Noted(nb, a, expire, now, mac);
            && NeighborList.OneEach(noted)
            && Addresses(noted) == if IndexOf(nb, a) < |nb| then Addresses(nb) else Addresses(nb) + [a]
  {
    var i := IndexOf(nb, a);
    if i < |nb| {
      assert Renewed(nb[i], expire + now, mac).addr == nb[i].addr;
    } else {
      AddressesPush(nb, Neighbor(a, mac, expire + now, false));
    }
  }

  /** Erasing the closed neighbours is erasing the addresses that were reported. */
  lemma SurvivorsByAddress(nb: seq<Neighbor>, now: int)
    requires NeighborList.OneEach(nb)
    ensures Addresses(Survivors(nb, now)) == Filter(Addresses(nb), NotAmong(Failures(nb, now)))
  {
    PurgeIsExact(nb, now);
    var failed := Failures(nb, now);
    forall i | 0 <= i < |nb| ensures Open(now)(nb[i]) <==> nb[i].addr !in failed {
      assert nb[i] in nb;
    }
    AddressesOfFiltered(nb, now, failed);
  }

  lemma {:induction false} AddressesOfFiltered(nb: seq<Neighbor>, now: int, failed: seq<Addr>)
    requires forall i :: 0 <= i < |nb| ==> (Open(now)(nb[i]) <==> nb[i].addr !in failed)
    ensures Addresses(Filter(nb, Open(now))) == Filter(Addresses(nb), NotAmong(failed))
  {
    if nb != [] {
      var init, n := nb[..|nb| - 1], nb[|nb| - 1];
      AddressesOfFiltered(init, now, failed);
      AddressesPush(init, n);
      AddressesPush(Filter(init, Open(now)), n);
      assert init + [n] == nb;
      assert (Addresses(init) + [n.addr])[..|init|] == Addresses(init);
    }
  }

  lemma RepeatedHelloIsConsistent(node: Node, origin: Addr)
    requires Consistent(node) && origin in RowOf(node.dvt, origin)
    ensures var row := node.dvt[origin];
            Consistent(node.(dvt := node.dvt[origin := row[origin := row[origin].(hop := 1, nextHop := origin)]]))
  {
  }

  lemma IntroducedIsConsistent(rd: Reading, node: Node, origin: Addr)
    requires Consistent(node) && origin !in RowOf(node.dvt, origin)
    ensures var intro := Introduced(node, origin);
            RowsOwned(intro.dvt) && Consistent(Computed(rd, intro))
  {
    assert Consistent(Introduced(node, origin));
    ComputedIsConsistent(rd, Introduced(node, origin));
  }
}
