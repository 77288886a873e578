/** Who gets an answer to an INACTIVE UPDATE, and when: at once, or when the pending reply times out. */
module Answers {
  import opened Collections
  import opened Routes
  import opened Tables
  import opened NodeSteps
  import opened PendingReplies
  import opened RoutingProtocolObject

  function Offer(node: Node, ne: Addr, dst: Addr): Send
    requires dst in node.ft
  {
    Send(ne, Update(node.main, node.ft[dst].dst, node.ft[dst].hop, node.ft[dst].state))
  }

  /** Timed-out entries are answered exactly where the node can still help, with the route it has by then. */
  lemma {:induction false} FiredSendsExactly(node: Node, fired: seq<PendingReply>, s: Send)
    ensures s in FiredSends(node, fired) <==>
            exists p :: p in fired && CanHelp(node, p.ne, p.dst) && s == Offer(node, p.ne, p.dst)
  {
    if fired != [] {
      var init, p := fired[..|fired| - 1], fired[|fired| - 1];
      FiredSendsExactly(node, init, s);
      assert forall x :: x in fired <==> x in init || x == p;
    }
  }

  /** A reply that is held back is pending afterwards, due no later than a timeout from now. */
  lemma HeldReplyIsPending(q: seq<PendingReply>, maxLen: nat, p: PendingReply, now: int)
    requires maxLen > 0 && forall x :: x in q ==> x.deadline <= p.deadline
    ensures exists x :: x in AfterEnqueue(q, maxLen, p, now) && SamePair(x, p.ne, p.dst) && x.deadline <= p.deadline
  {
    var live, after := Filter(q, Live(now)), AfterEnqueue(q, maxLen, p, now);
    if HasPair(live, p.ne, p.dst) {
      var i :| 0 <= i < |live| && SamePair(live[i], p.ne, p.dst);
      assert live[i] in live;
    } else {
      assert after[|after| - 1] == p;
    }
  }

  /**
   * The sender of an INACTIVE UPDATE about anything but itself, to whom this node can offer a route, is sent it at once
   * or has a reply pending, due within the timeout.  Nobody else is answered.
   */
  lemma EveryQuestionIsTakenExactly(node: Node, upd: Update, q: seq<PendingReply>, maxLen: nat, timeout: int, now: int)
    requires maxLen > 0 && forall x :: x in q ==> x.deadline <= timeout + now
    ensures var asked := upd.state == INACTIVE && upd.dst != upd.origin && CanHelp(node, upd.origin, upd.dst);
            var pending := AfterEnqueue(q, maxLen, HeldReply(upd, timeout, now), now);
            && (asked <==> ReplySends(node, upd) != [] || RepliesLater(node, upd))
            && (ReplySends(node, upd) != [] ==> ReplySends(node, upd) == [Offer(node, upd.origin, upd.dst)])
            && (RepliesLater(node, upd) ==>
                  exists x :: x in pending && SamePair(x, upd.origin, upd.dst) && x.deadline <= timeout + now)
  {
    if RepliesLater(node, upd) {
      HeldReplyIsPending(q, maxLen, HeldReply(upd, timeout, now), now);
    }
  }

  /**
   * With hop counts of eight bits: a question the node can help with is answered at once, with the node's own route,
   * exactly if that route is one hop long, or its next hop's row has for the asker as many hops as the asker's route and
   * this one have together, less one.  Otherwise the answer is held back.
   */
  lemma AnsweredAtOnceExactly(node: Node, upd: Update)
    requires upd.state == INACTIVE && upd.dst != upd.origin
    requires upd.origin in node.nbrs && upd.dst in node.ft && node.ft[upd.dst].state == ACTIVE
    requires node.ft[upd.dst].nextHop != upd.origin && node.ft[upd.dst].dst == upd.dst
    requires upd.hop < 256 && node.ft[upd.dst].hop < 256
    requires RowHops(node, node.ft[upd.dst].nextHop, upd.origin) < 256
    ensures var route := node.ft[upd.dst];
            var prompt := route.hop == 1 || RowHops(node, route.nextHop, upd.origin) == upd.hop + route.hop - 1;
            && ReplySends(node, upd) ==
               (if prompt then [Send(upd.origin, Update(node.main, upd.dst, route.hop, ACTIVE))] else [])
            && (RepliesLater(node, upd) <==> !prompt)
  {
    RepliesAtOnceExactly(node, upd);
  }

  /** A question the node cannot help with is not answered, now or later. */
  lemma UnansweredExactly(node: Node, upd: Update)
    ensures ReplySends(node, upd) == [] && !RepliesLater(node, upd) <==>
            upd.state == ACTIVE || upd.dst == upd.origin ||
            !(upd.origin in node.nbrs && upd.dst in node.ft && node.ft[upd.dst].state == ACTIVE &&
              node.ft[upd.dst].nextHop != upd.origin)
  {
  }

  /** The entry that is queued for a reply held back, unless one for the pair is pending already. */
  lemma HeldReplyIsDue(q: seq<PendingReply>, maxLen: nat, upd: Update, timeout: int, now: int)
    requires maxLen > 0
    requires forall x :: x in q && x.ne == upd.origin && x.dst == upd.dst ==> x.deadline < now
    ensures PendingReply(upd.origin, upd.dst, now + timeout) in AfterEnqueue(q, maxLen, HeldReply(upd, timeout, now), now)
  {
    var live := Filter(q, Live(now));
    assert forall i :: 0 <= i < |live| ==> live[i] in live;
    assert !HasPair(live, upd.origin, upd.dst);
    var after := AfterEnqueue(q, maxLen, HeldReply(upd, timeout, now), now);
    assert after[|after| - 1] == PendingReply(upd.origin, upd.dst, now + timeout);
  }

  // ---------- when a pending reply is sent ----------

  /** The entries whose timeout one operation on the queue reports: the queue is purged only when a reply is held back. */
  function FiredBy(h: History, op: Op, now: int): seq<PendingReply> {
    if op.EnqueueOp? then Filter(h.q, Expired(now)) else []
  }

  lemma FiredByOp(h: History, op: Op, now: int, maxLen: nat, timeout: int)
    requires maxLen > 0
    ensures Apply(h, op, now, maxLen, timeout).fired == h.fired + AtTime(FiredBy(h, op, now), now)
  {
  }

  /** The operation holds a reply back after the deadline of `p`. */
  predicate Late(p: PendingReply, op: Op, now: int) {
    op.EnqueueOp? && p.deadline < now
  }

  /** The operation takes `p` out unanswered: dequeued, dropped with its neighbour, or evicted from a full queue. */
  predicate Discards(h: History, p: PendingReply, op: Op, now: int, maxLen: nat) {
    match op
    case DequeueOp(ne) => FirstTo(h.q, ne) < |h.q| && h.q[FirstTo(h.q, ne)] == p
    case DropOp(ne) => p.ne == ne
    case EnqueueOp(ne, dst) =>
      var live := Filter(h.q, Live(now));
      !HasPair(live, ne, dst) && |live| == maxLen && live != [] && live[0] == p
  }

  lemma DequeueKeepsOthers(h: History, ne: Addr, now: int, maxLen: nat, timeout: int, p: PendingReply)
    requires maxLen > 0 && OneEach(h.q) && p in h.q
    ensures p in Apply(h, DequeueOp(ne), now, maxLen, timeout).q <==> !Discards(h, p, DequeueOp(ne), now, maxLen)
  {
    var i := FirstTo(h.q, ne);
    if i < |h.q| {
      RemovalKeepsOthers(h.q, i, p);
    }
  }

  lemma RemovalKeepsOthers(q: seq<PendingReply>, i: nat, p: PendingReply)
    requires i < |q| && OneEach(q) && p in q
    ensures p in q[..i] + q[i + 1..] <==> q[i] != p
  {
    var j :| 0 <= j < |q| && q[j] == p;
    if p in q[..i] {
      var k :| 0 <= k < i && q[k] == p;
      assert !SamePair(q[k], q[i].ne, q[i].dst);
    }
    if p in q[i + 1..] {
      var k :| 0 <= k < |q| - i - 1 && q[i + 1..][k] == p;
      assert !SamePair(q[i], q[i + 1 + k].ne, q[i + 1 + k].dst);
    }
    if j < i {
      assert q[..i][j] == p;
    } else if j > i {
      assert q[i + 1..][j - i - 1] == p;
    }
  }

  lemma PushKeepsOthers(live: seq<PendingReply>, maxLen: nat, new_: PendingReply, p: PendingReply)
    requires maxLen > 0 && OneEach(live) && |live| <= maxLen && p in live
    ensures p in Enqueued(live, maxLen, new_) <==>
            !(!HasPair(live, new_.ne, new_.dst) && |live| == maxLen && live[0] == p)
  {
    var i :| 0 <= i < |live| && live[i] == p;
    assert SamePair(live[i], p.ne, p.dst);
    if !HasPair(live, new_.ne, new_.dst) && |live| == maxLen {
      assert forall k :: 0 < k < |live| ==> live[1..][k - 1] == live[k];
      if i == 0 {
        assert forall k :: 0 < k < |live| ==> !SamePair(live[0], live[k].ne, live[k].dst);
      }
    }
  }

  /** One operation: a pending reply stays queued exactly if it is neither discarded nor overtaken by a late one. */
  lemma StaysQueuedExactly(h: History, op: Op, now: int, maxLen: nat, timeout: int, p: PendingReply)
    requires maxLen > 0 && timeout >= 0 && Sane(h, maxLen, timeout) && p in h.q
    ensures p in Apply(h, op, now, maxLen, timeout).q <==> !Discards(h, p, op, now, maxLen) && !Late(p, op, now)
    ensures p in FiredBy(h, op, now) <==> Late(p, op, now)
  {
    match op
    case EnqueueOp(ne, dst) =>
      var live, new_ := Filter(h.q, Live(now)), PendingReply(ne, dst, timeout + now);
      assert Apply(h, op, now, maxLen, timeout).q == Enqueued(live, maxLen, new_);
      FilterIsOrdered(h.q, Live(now));
      if p in live {
        PushKeepsOthers(live, maxLen, new_, p);
      }
    case DequeueOp(ne) => DequeueKeepsOthers(h, ne, now, maxLen, timeout, p);
    case DropOp(ne) =>
  }

  /** More operations, at the given times. */
  function RunFrom(h: History, ops: seq<(Op, int)>, maxLen: nat, timeout: int): History
    requires maxLen > 0
  {
    if ops == [] then h else
    Apply(RunFrom(h, ops[..|ops| - 1], maxLen, timeout), ops[|ops| - 1].0, ops[|ops| - 1].1, maxLen, timeout)
  }

  /** Nothing takes `p` out unanswered. */
  predicate NeverDiscarded(h: History, ops: seq<(Op, int)>, maxLen: nat, timeout: int, p: PendingReply)
    requires maxLen > 0
  {
    ops != [] ==>
      var init, last := ops[..|ops| - 1], ops[|ops| - 1];
      && NeverDiscarded(h, init, maxLen, timeout, p)
      && !Discards(RunFrom(h, init, maxLen, timeout), p, last.0, last.1, maxLen)
  }

  /** Some operation holds a reply back after the deadline of `p`. */
  predicate LateOne(ops: seq<(Op, int)>, p: PendingReply) {
    ops != [] && (LateOne(ops[..|ops| - 1], p) || Late(p, ops[|ops| - 1].0, ops[|ops| - 1].1))
  }

  /** Some operation reports the timeout of `p`. */
  predicate Reported(h: History, ops: seq<(Op, int)>, maxLen: nat, timeout: int, p: PendingReply)
    requires maxLen > 0
  {
    ops != [] &&
    var init, last := ops[..|ops| - 1], ops[|ops| - 1];
    Reported(h, init, maxLen, timeout, p) || p in FiredBy(RunFrom(h, init, maxLen, timeout), last.0, last.1)
  }

  /** What an operation after the deadline of `p` queues is not `p`. */
  lemma GoneStaysGone(h: History, op: Op, now: int, maxLen: nat, timeout: int, p: PendingReply)
    requires maxLen > 0 && timeout >= 0 && p !in h.q && p.deadline < now
    ensures p !in Apply(h, op, now, maxLen, timeout).q
  {
    if op.EnqueueOp? {
      assert Apply(h, op, now, maxLen, timeout).q ==
             Enqueued(Filter(h.q, Live(now)), maxLen, PendingReply(op.ne, op.dst, timeout + now));
    }
  }

  lemma {:induction false} MoreRunsAreSane(h: History, ops: seq<(Op, int)>, maxLen: nat, timeout: int)
    requires maxLen > 0 && Sane(h, maxLen, timeout) && Timely(h.clock, ops)
    ensures var h' := RunFrom(h, ops, maxLen, timeout);
            Sane(h', maxLen, timeout) && h'.clock == if ops == [] then h.clock else ops[|ops| - 1].1
  {
    if ops != [] {
      var init, op, now := ops[..|ops| - 1], ops[|ops| - 1].0, ops[|ops| - 1].1;
      MoreRunsAreSane(h, init, maxLen, timeout);
      ApplyIsSane(RunFrom(h, init, maxLen, timeout), op, now, maxLen, timeout);
    }
  }

  /**
   * A pending reply that nothing discards waits for as long as no reply is held back after its deadline; its timeout is
   * reported exactly if one ever is.
   */
  lemma {:induction false} PendingReplyWaitsExactly(h: History, ops: seq<(Op, int)>, maxLen: nat, timeout: int,
                                                    p: PendingReply)
    requires maxLen > 0 && timeout >= 0 && Sane(h, maxLen, timeout) && Timely(h.clock, ops)
    requires p in h.q && NeverDiscarded(h, ops, maxLen, timeout, p)
    ensures Reported(h, ops, maxLen, timeout, p) <==> LateOne(ops, p)
    ensures p in RunFrom(h, ops, maxLen, timeout).q <==> !LateOne(ops, p)
    ensures LateOne(ops, p) ==> p.deadline < RunFrom(h, ops, maxLen, timeout).clock
  {
    if ops != [] {
      var init, op, now := ops[..|ops| - 1], ops[|ops| - 1].0, ops[|ops| - 1].1;
      PendingReplyWaitsExactly(h, init, maxLen, timeout, p);
      MoreRunsAreSane(h, init, maxLen, timeout);
      MoreRunsAreSane(h, ops, maxLen, timeout);
      var before := RunFrom(h, init, maxLen, timeout);
      if LateOne(init, p) {
        GoneStaysGone(before, op, now, maxLen, timeout, p);
      } else {
        StaysQueuedExactly(before, op, now, maxLen, timeout, p);
      }
    }
  }

  /** When its timeout is reported, and the node can still help, the answer goes out with the route it has by then. */
  lemma ReportedIsSent(h: History, op: Op, now: int, node: Node, p: PendingReply)
    requires p in FiredBy(h, op, now) && CanHelp(node, p.ne, p.dst)
    ensures Offer(node, p.ne, p.dst) in FiredSends(node, FiredBy(h, op, now))
  {
    FiredSendsExactly(node, FiredBy(h, op, now), Offer(node, p.ne, p.dst));
  }
}
