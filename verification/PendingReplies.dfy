/** The queue of replies held back for a while: one per neighbour and destination, each with a deadline. */
module PendingReplies {
  import opened Collections
  import opened Routes

  datatype PendingReply = PendingReply(ne: Addr, dst: Addr, deadline: int)

  function Live(now: int): PendingReply -> bool {
    (p: PendingReply) => !(p.deadline - now < 0)
  }

  /** The `IsExpired` predicate. */
  function Expired(now: int): PendingReply -> bool {
    (p: PendingReply) => p.deadline - now < 0
  }

  function NotTo(ne: Addr): PendingReply -> bool {
    (p: PendingReply) => p.ne != ne
  }

  function ToOnly(ne: Addr): PendingReply -> bool {
    (p: PendingReply) => p.ne == ne
  }

  predicate SamePair(p: PendingReply, ne: Addr, dst: Addr) {
    p.ne == ne && p.dst == dst
  }

  predicate HasPair(q: seq<PendingReply>, ne: Addr, dst: Addr) {
    exists i :: 0 <= i < |q| && SamePair(q[i], ne, dst)
  }

  /** Where the first entry for `ne` stands, or the length of the queue. */
  function FirstTo(q: seq<PendingReply>, ne: Addr): (i: nat)
    ensures i <= |q|
    ensures i < |q| ==> q[i].ne == ne
    ensures forall j :: 0 <= j < i ==> q[j].ne != ne
  {
    if q == [] || q[0].ne == ne then 0 else 1 + FirstTo(q[1..], ne)
  }

  /** The queue after Enqueue, given what its purge left: a duplicate is refused, and a full queue loses its front. */
  function Enqueued(live: seq<PendingReply>, maxLen: nat, p: PendingReply): seq<PendingReply>
    requires maxLen > 0
  {
    if HasPair(live, p.ne, p.dst) then live
    else (if |live| == maxLen then live[1..] else live) + [p]
  }

  /** Enqueue as a whole: the purge, then the insertion. */
  function AfterEnqueue(q: seq<PendingReply>, maxLen: nat, p: PendingReply, now: int): seq<PendingReply>
    requires maxLen > 0
  {
    Enqueued(Filter(q, Live(now)), maxLen, p)
  }

  /** After Enqueue the pair is pending, whether it was before or not. */
  lemma EnqueuedIsPending(q: seq<PendingReply>, maxLen: nat, p: PendingReply, now: int)
    requires maxLen > 0
    ensures HasPair(AfterEnqueue(q, maxLen, p, now), p.ne, p.dst)
  {
    var after := AfterEnqueue(q, maxLen, p, now);
    if !HasPair(Filter(q, Live(now)), p.ne, p.dst) {
      assert SamePair(after[|after| - 1], p.ne, p.dst);
    }
  }

  class PendingReplyQueue {
    var q: seq<PendingReply>
    var maxLen: nat
    var timeout: int
    var hasHandler: bool

    constructor (maxLen: nat, timeout: int, hasHandler: bool)
      ensures q == [] && this.maxLen == maxLen && this.timeout == timeout && this.hasHandler == hasHandler
    {
      q := [];
      this.maxLen, this.timeout, this.hasHandler := maxLen, timeout, hasHandler;
    }

    /** `fired` lists the calls of the timeout callback. */
    method Purge(now: int) returns (fired: seq<PendingReply>)
      modifies this`q
      ensures q == Filter(old(q), Live(now))
      ensures fired == if hasHandler then Filter(old(q), Expired(now)) else []
    {
      if q == [] {
        return [];
      }
      fired := ReportExpired(now);
      EraseExpired(now);
    }

    /** The callbacks, in queue order, before anything is erased. */
    method ReportExpired(now: int) returns (fired: seq<PendingReply>)
      ensures fired == if hasHandler then Filter(q, Expired(now)) else []
    {
      fired := [];
      if hasHandler {
        var i := 0;
        while i < |q|
          invariant 0 <= i <= |q|
          invariant fired == Filter(q[..i], Expired(now))
        {
          FilterPrefix(q, i, Expired(now));
          if q[i].deadline - now < 0 {
            fired := fired + [q[i]];
          }
          i := i + 1;
        }
        assert q[..|q|] == q;
      }
    }

    method EraseExpired(now: int)
      modifies this`q
      ensures q == Filter(old(q), Live(now))
    {
      var kept, i := [], 0;
      while i < |q|
        invariant 0 <= i <= |q| && q == old(q)
        invariant kept == Filter(q[..i], Live(now))
      {
        FilterPrefix(q, i, Live(now));
        if !(q[i].deadline - now < 0) {
          kept := kept + [q[i]];
        }
        i := i + 1;
      }
      assert q[..|q|] == q;
      q := kept;
    }

    method Enqueue(ne: Addr, dst: Addr, now: int) returns (queued: bool, fired: seq<PendingReply>)
      requires maxLen > 0
      modifies this`q
      ensures q == AfterEnqueue(old(q), maxLen, PendingReply(ne, dst, timeout + now), now)
      ensures queued == !HasPair(Filter(old(q), Live(now)), ne, dst)
      ensures fired == if hasHandler then Filter(old(q), Expired(now)) else []
    {
      fired := Purge(now);
      var i := 0;
      while i < |q|
        invariant 0 <= i <= |q|
        invariant forall j :: 0 <= j < i ==> !SamePair(q[j], ne, dst)
      {
        if q[i].ne == ne && q[i].dst == dst {
          assert SamePair(q[i], ne, dst);
          return false, fired;
        }
        i := i + 1;
      }
      if |q| == maxLen {
        q := q[1..];
      }
      q := q + [PendingReply(ne, dst, timeout + now)];
      queued := true;
    }

    /** Takes the oldest entry for `ne`. */
    method Dequeue(ne: Addr) returns (r: Option<PendingReply>)
      modifies this`q
      ensures var i := FirstTo(old(q), ne);
              if i < |old(q)| then r == Some(old(q)[i]) && q == old(q)[..i] + old(q)[i + 1..]
              else r == None && q == old(q)
    {
      var i := 0;
      while i < |q| && q[i].ne != ne
        invariant 0 <= i <= |q|
        invariant FirstTo(q, ne) == i + FirstTo(q[i..], ne)
      {
        assert q[i..][1..] == q[i + 1..];
        i := i + 1;
      }
      if i < |q| {
        r := Some(q[i]);
        q := q[..i] + q[i + 1..];
      } else {
        r := None;
      }
    }

    method DropEntryWithNeighbor(ne: Addr)
      modifies this`q
      ensures q == Filter(old(q), NotTo(ne))
    {
      var kept, i := [], 0;
      while i < |q|
        invariant 0 <= i <= |q| && q == old(q)
        invariant kept == Filter(q[..i], NotTo(ne))
      {
        FilterPrefix(q, i, NotTo(ne));
        if q[i].ne != ne {
          kept := kept + [q[i]];
        }
        i := i + 1;
      }
      assert q[..|q|] == q;
      q := kept;
    }

    method Find(ne: Addr) returns (found: bool)
      ensures found <==> exists p :: p in q && p.ne == ne
    {
      for i := 0 to |q|
        invariant forall j :: 0 <= j < i ==> q[j].ne != ne
      {
        if q[i].ne == ne {
          assert q[i] in q;
          return true;
        }
      }
      return false;
    }
  }

  // ---------- over every run ----------

  datatype Op = EnqueueOp(ne: Addr, dst: Addr) | DequeueOp(ne: Addr) | DropOp(ne: Addr)

  /** The queue and everything that ever happened to an accepted entry; `fired` pairs an entry with the time it fired. */
  datatype History = History(
    q: seq<PendingReply>,
    accepted: seq<PendingReply>,
    fired: seq<(PendingReply, int)>,
    evicted: seq<PendingReply>,
    dequeued: seq<PendingReply>,
    dropped: seq<PendingReply>,
    clock: int
  )

  function AtTime(ps: seq<PendingReply>, now: int): seq<(PendingReply, int)> {
    seq(|ps|, i requires 0 <= i < |ps| => (ps[i], now))
  }

  function Entries(fired: seq<(PendingReply, int)>): seq<PendingReply> {
    seq(|fired|, i requires 0 <= i < |fired| => fired[i].0)
  }

  /** The purge at the start of Enqueue. */
  function Purged(h: History, now: int): History {
    h.(clock := now, q := Filter(h.q, Live(now)), fired := h.fired + AtTime(Filter(h.q, Expired(now)), now))
  }

  /** The rest of Enqueue. */
  function Pushed(h: History, p: PendingReply, maxLen: nat): History
    requires maxLen > 0
  {
    if HasPair(h.q, p.ne, p.dst) then h
    else h.(q := Enqueued(h.q, maxLen, p), accepted := h.accepted + [p],
            evicted := h.evicted + if |h.q| == maxLen then [h.q[0]] else [])
  }

  function Apply(h: History, op: Op, now: int, maxLen: nat, timeout: int): History
    requires maxLen > 0
  {
    match op
    case EnqueueOp(ne, dst) => Pushed(Purged(h, now), PendingReply(ne, dst, timeout + now), maxLen)
    case DequeueOp(ne) =>
      var i := FirstTo(h.q, ne);
      if i < |h.q| then h.(clock := now, q := h.q[..i] + h.q[i + 1..], dequeued := h.dequeued + [h.q[i]])
      else h.(clock := now)
    case DropOp(ne) =>
      h.(clock := now, q := Filter(h.q, NotTo(ne)), dropped := h.dropped + Filter(h.q, ToOnly(ne)))
  }

  function Start(clock: int): History {
    History([], [], [], [], [], [], clock)
  }

  /** Operations at the given times, under a fixed bound and timeout. */
  function RunOps(start: int, ops: seq<(Op, int)>, maxLen: nat, timeout: int): History
    requires maxLen > 0
  {
    if ops == [] then Start(start)
    else Apply(RunOps(start, ops[..|ops| - 1], maxLen, timeout), ops[|ops| - 1].0, ops[|ops| - 1].1, maxLen, timeout)
  }

  /** Time does not run backwards. */
  predicate Timely(start: int, ops: seq<(Op, int)>) {
    ops != [] ==>
      && Timely(start, ops[..|ops| - 1])
      && ops[|ops| - 1].1 >= if |ops| == 1 then start else ops[|ops| - 2].1
  }

  ghost predicate ByDeadline(q: seq<PendingReply>) {
    forall i, j :: 0 <= i < j < |q| ==> q[i].deadline <= q[j].deadline
  }

  ghost predicate OneEach(q: seq<PendingReply>) {
    forall i, j :: 0 <= i < j < |q| ==> !SamePair(q[i], q[j].ne, q[j].dst)
  }

  /** Every accepted entry is still queued, or fired, was evicted, dequeued or dropped -- exactly one of these. */
  ghost predicate Accounted(h: History) {
    multiset(h.accepted) ==
    multiset(h.q) + multiset(Entries(h.fired)) + multiset(h.evicted) + multiset(h.dequeued) + multiset(h.dropped)
  }

  ghost predicate Tidy(q: seq<PendingReply>, maxLen: nat, latest: int) {
    && |q| <= maxLen
    && ByDeadline(q)
    && OneEach(q)
    && forall p :: p in q ==> p.deadline <= latest
  }

  ghost predicate Sane(h: History, maxLen: nat, timeout: int) {
    && Tidy(h.q, maxLen, timeout + h.clock)
    && Accounted(h)
    && forall f :: f in h.fired ==> f.0.deadline < f.1 <= h.clock
  }

  /** In a queue sorted by deadline the live entries are a suffix. */
  lemma PurgeTakesAPrefix(q: seq<PendingReply>, now: int) returns (k: nat)
    requires ByDeadline(q)
    ensures k <= |q|
    ensures Filter(q, Expired(now)) == q[..k] && Filter(q, Live(now)) == q[k..]
  {
    k := 0;
    while k < |q| && q[k].deadline < now
      invariant k <= |q| && forall j :: 0 <= j < k ==> q[j].deadline < now
    {
      k := k + 1;
    }
    assert q == q[..k] + q[k..];
    SplitByDeadline(q[..k], q[k..], now);
  }

  lemma SplitByDeadline(early: seq<PendingReply>, late: seq<PendingReply>, now: int)
    requires forall i :: 0 <= i < |early| ==> early[i].deadline < now
    requires forall i :: 0 <= i < |late| ==> late[i].deadline >= now
    ensures Filter(early + late, Expired(now)) == early && Filter(early + late, Live(now)) == late
  {
    assert Filter(early + late, Expired(now)) == early by {
      FilterAppend(early, late, Expired(now));
      FilterAll(early, Expired(now));
      FilterNone(late, Expired(now));
    }
    assert Filter(early + late, Live(now)) == late by {
      FilterAppend(early, late, Live(now));
      FilterNone(early, Live(now));
      FilterAll(late, Live(now));
    }
  }

  lemma ShiftAccounts(acc: multiset<PendingReply>, q: multiset<PendingReply>, f: multiset<PendingReply>,
                      e: multiset<PendingReply>, d: multiset<PendingReply>, x: multiset<PendingReply>,
                      expired: multiset<PendingReply>, live: multiset<PendingReply>)
    requires acc == q + f + e + d + x && q == expired + live
    ensures acc == live + (f + expired) + e + d + x
  {
  }

  lemma EntriesAppend(a: seq<(PendingReply, int)>, ps: seq<PendingReply>, now: int)
    ensures Entries(a + AtTime(ps, now)) == Entries(a) + ps
  {
  }

  lemma LiveIsTidy(q: seq<PendingReply>, now: int, maxLen: nat, latest: int, later: int)
    requires Tidy(q, maxLen, latest) && latest <= later
    ensures Tidy(Filter(q, Live(now)), maxLen, later)
  {
    FilterIsOrdered(q, Live(now));
  }

  lemma FiringIsLate(fired: seq<(PendingReply, int)>, clock: int, q: seq<PendingReply>, now: int)
    requires clock <= now && forall f :: f in fired ==> f.0.deadline < f.1 <= clock
    ensures forall f :: f in fired + AtTime(Filter(q, Expired(now)), now) ==> f.0.deadline < f.1 <= now
  {
    var gone := Filter(q, Expired(now));
    forall f | f in AtTime(gone, now) ensures f.0.deadline < f.1 <= now {
      var i :| 0 <= i < |gone| && AtTime(gone, now)[i] == f;
      assert gone[i] in gone;
    }
  }

  lemma PurgingIsSane(h: History, now: int, maxLen: nat, timeout: int)
    requires Sane(h, maxLen, timeout) && now >= h.clock
    ensures Sane(Purged(h, now), maxLen, timeout)
  {
    LiveIsTidy(h.q, now, maxLen, timeout + h.clock, timeout + now);
    FiringIsLate(h.fired, h.clock, h.q, now);
    var gone, live := Filter(h.q, Expired(now)), Filter(h.q, Live(now));
    FilterPartition(h.q, Live(now), Expired(now));
    EntriesAppend(h.fired, gone, now);
    ShiftAccounts(multiset(h.accepted), multiset(h.q), multiset(Entries(h.fired)), multiset(h.evicted),
                  multiset(h.dequeued), multiset(h.dropped), multiset(gone), multiset(live));
  }

  lemma PushingIsTidy(q: seq<PendingReply>, p: PendingReply, maxLen: nat)
    requires maxLen > 0 && Tidy(q, maxLen, p.deadline) && !HasPair(q, p.ne, p.dst)
    ensures Tidy(Enqueued(q, maxLen, p), maxLen, p.deadline)
  {
    var kept := if |q| == maxLen then q[1..] else q;
    forall i | 0 <= i < |kept| ensures kept[i] in q && !SamePair(kept[i], p.ne, p.dst) {
      assert kept[i] == q[if |q| == maxLen then i + 1 else i];
    }
  }

  lemma PushingIsSane(h: History, p: PendingReply, maxLen: nat, timeout: int)
    requires maxLen > 0 && Sane(h, maxLen, timeout)
    requires p.deadline == timeout + h.clock
    ensures Sane(Pushed(h, p, maxLen), maxLen, timeout)
  {
    if !HasPair(h.q, p.ne, p.dst) {
      PushingIsTidy(h.q, p, maxLen);
      PushingAccounts(h, p, maxLen);
    }
  }

  lemma PushingAccounts(h: History, p: PendingReply, maxLen: nat)
    requires maxLen > 0 && Accounted(h) && !HasPair(h.q, p.ne, p.dst)
    ensures Accounted(Pushed(h, p, maxLen))
  {
    var h' := Pushed(h, p, maxLen);
    var lost := if |h.q| == maxLen then [h.q[0]] else [];
    var kept := if |h.q| == maxLen then h.q[1..] else h.q;
    assert h.q == lost + kept;
    assert multiset(h'.q) == multiset(kept) + multiset{p};
    assert multiset(h'.accepted) == multiset(h.accepted) + multiset{p};
    assert multiset(h'.evicted) == multiset(h.evicted) + multiset(lost);
    ShiftEvicted(multiset(h.accepted), multiset(h.q), multiset(Entries(h.fired)), multiset(h.evicted),
                 multiset(h.dequeued), multiset(h.dropped), multiset(kept), multiset(lost), multiset{p});
  }

  lemma ShiftEvicted(acc: multiset<PendingReply>, q: multiset<PendingReply>, f: multiset<PendingReply>,
                     e: multiset<PendingReply>, d: multiset<PendingReply>, x: multiset<PendingReply>,
                     kept: multiset<PendingReply>, lost: multiset<PendingReply>, p: multiset<PendingReply>)
    requires acc == q + f + e + d + x && q == lost + kept
    ensures acc + p == (kept + p) + f + (e + lost) + d + x
  {
  }

  lemma EnqueueIsSane(h: History, ne: Addr, dst: Addr, now: int, maxLen: nat, timeout: int)
    requires maxLen > 0 && Sane(h, maxLen, timeout) && now >= h.clock
    ensures Sane(Apply(h, EnqueueOp(ne, dst), now, maxLen, timeout), maxLen, timeout)
  {
    var purged, p := Purged(h, now), PendingReply(ne, dst, timeout + now);
    assert Apply(h, EnqueueOp(ne, dst), now, maxLen, timeout) == Pushed(purged, p, maxLen);
    PurgingIsSane(h, now, maxLen, timeout);
    PushingIsSane(purged, p, maxLen, timeout);
  }

  lemma RemovingIsTidy(q: seq<PendingReply>, i: nat, maxLen: nat, latest: int)
    requires Tidy(q, maxLen, latest) && i < |q|
    ensures Tidy(q[..i] + q[i + 1..], maxLen, latest)
    ensures multiset(q) == multiset(q[..i] + q[i + 1..]) + multiset{q[i]}
  {
    var r := q[..i] + q[i + 1..];
    forall a | 0 <= a < |r| ensures r[a] == q[if a < i then a else a + 1] {
    }
    assert q == q[..i] + [q[i]] + q[i + 1..];
  }

  lemma DequeueIsSane(h: History, ne: Addr, now: int, maxLen: nat, timeout: int)
    requires maxLen > 0 && Sane(h, maxLen, timeout) && now >= h.clock
    ensures Sane(Apply(h, DequeueOp(ne), now, maxLen, timeout), maxLen, timeout)
  {
    var i := FirstTo(h.q, ne);
    if i < |h.q| {
      RemovingIsTidy(h.q, i, maxLen, timeout + now);
      ShiftDequeued(multiset(h.accepted), multiset(h.q), multiset(Entries(h.fired)), multiset(h.evicted),
                    multiset(h.dequeued), multiset(h.dropped),
                    multiset(h.q[..i] + h.q[i + 1..]), multiset{h.q[i]});
    }
  }

  lemma ShiftDequeued(acc: multiset<PendingReply>, q: multiset<PendingReply>, f: multiset<PendingReply>,
                      e: multiset<PendingReply>, d: multiset<PendingReply>, x: multiset<PendingReply>,
                      kept: multiset<PendingReply>, taken: multiset<PendingReply>)
    requires acc == q + f + e + d + x && q == kept + taken
    ensures acc == kept + f + e + (d + taken) + x
  {
  }

  lemma {:induction false} FilterIsOrdered(q: seq<PendingReply>, p: PendingReply -> bool)
    requires ByDeadline(q) && OneEach(q)
    ensures ByDeadline(Filter(q, p)) && OneEach(Filter(q, p))
  {
    if q != [] {
      var init, x := q[..|q| - 1], q[|q| - 1];
      FilterIsOrdered(init, p);
      var kept := Filter(init, p);
      forall i | 0 <= i < |kept| ensures kept[i].deadline <= x.deadline && !SamePair(kept[i], x.ne, x.dst) {
        assert kept[i] in init;
      }
    }
  }

  lemma DropIsSane(h: History, ne: Addr, now: int, maxLen: nat, timeout: int)
    requires maxLen > 0 && Sane(h, maxLen, timeout) && now >= h.clock
    ensures Sane(Apply(h, DropOp(ne), now, maxLen, timeout), maxLen, timeout)
  {
    FilterIsOrdered(h.q, NotTo(ne));
    FilterPartition(h.q, NotTo(ne), ToOnly(ne));
    ShiftDropped(multiset(h.accepted), multiset(h.q), multiset(Entries(h.fired)), multiset(h.evicted),
                 multiset(h.dequeued), multiset(h.dropped),
                 multiset(Filter(h.q, NotTo(ne))), multiset(Filter(h.q, ToOnly(ne))));
  }

  lemma ShiftDropped(acc: multiset<PendingReply>, q: multiset<PendingReply>, f: multiset<PendingReply>,
                     e: multiset<PendingReply>, d: multiset<PendingReply>, x: multiset<PendingReply>,
                     kept: multiset<PendingReply>, lost: multiset<PendingReply>)
    requires acc == q + f + e + d + x && q == kept + lost
    ensures acc == kept + f + e + d + (x + lost)
  {
  }

  lemma ApplyIsSane(h: History, op: Op, now: int, maxLen: nat, timeout: int)
    requires maxLen > 0 && Sane(h, maxLen, timeout) && now >= h.clock
    ensures Sane(Apply(h, op, now, maxLen, timeout), maxLen, timeout)
    ensures Apply(h, op, now, maxLen, timeout).clock == now
  {
    match op
    case EnqueueOp(ne, dst) => EnqueueIsSane(h, ne, dst, now, maxLen, timeout);
    case DequeueOp(ne) => DequeueIsSane(h, ne, now, maxLen, timeout);
    case DropOp(ne) => DropIsSane(h, ne, now, maxLen, timeout);
  }

  /**
   * Over every run with a positive bound and a constant timeout: pairs are queued once, sorted by deadline, within the
   * bound; entries fire only after their deadline; and every accepted entry has exactly one fate.
   */
  lemma {:induction false} EveryRunIsSane(start: int, ops: seq<(Op, int)>, maxLen: nat, timeout: int)
    requires maxLen > 0 && Timely(start, ops)
    ensures var h := RunOps(start, ops, maxLen, timeout);
            Sane(h, maxLen, timeout) && h.clock == if ops == [] then start else ops[|ops| - 1].1
  {
    if ops != [] {
      var init, op, now := ops[..|ops| - 1], ops[|ops| - 1].0, ops[|ops| - 1].1;
      EveryRunIsSane(start, init, maxLen, timeout);
      ApplyIsSane(RunOps(start, init, maxLen, timeout), op, now, maxLen, timeout);
    }
  }

  /** Enqueue evicts only from a full queue, and then an entry with the earliest deadline. */
  lemma OverflowLosesEarliest(h: History, ne: Addr, dst: Addr, now: int, maxLen: nat, timeout: int)
    requires maxLen > 0 && Sane(h, maxLen, timeout) && now >= h.clock
    ensures var live, h' := Filter(h.q, Live(now)), Apply(h, EnqueueOp(ne, dst), now, maxLen, timeout);
            h'.evicted == h.evicted ||
            (|live| == maxLen && exists p :: h'.evicted == h.evicted + [p] && p in live &&
                                             forall x :: x in live ==> p.deadline <= x.deadline)
  {
    FilterIsOrdered(h.q, Live(now));
    var live := Filter(h.q, Live(now));
    if |live| == maxLen {
      assert live[0] in live;
      assert forall x :: x in live ==> live[0].deadline <= x.deadline;
    }
    assert h.evicted + [] == h.evicted;
  }

  /** Asking again for a reply that is still pending neither adds an entry nor moves its deadline. */
  lemma DuplicateKeepsDeadline(h: History, p: PendingReply, now: int, maxLen: nat, timeout: int)
    requires maxLen > 0 && Sane(h, maxLen, timeout) && now >= h.clock
    requires p in h.q && p.deadline >= now
    ensures var h' := Apply(h, EnqueueOp(p.ne, p.dst), now, maxLen, timeout);
            && h'.q == Filter(h.q, Live(now)) && h'.accepted == h.accepted
            && forall x :: x in h'.q && SamePair(x, p.ne, p.dst) ==> x == p
  {
    var live := Filter(h.q, Live(now));
    assert p in live;
    var i :| 0 <= i < |live| && live[i] == p;
    assert SamePair(live[i], p.ne, p.dst);
    forall x | x in live && SamePair(x, p.ne, p.dst) ensures x == p {
      assert x in h.q;
    }
  }
}
