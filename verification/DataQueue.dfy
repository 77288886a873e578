/** The buffer of data packets.  Dequeuing hands a packet out and raises its status; the packet stays buffered. */
module DataQueue {
  import opened Collections
  import opened Routes

  datatype Status = NOT_FORWARDED | INACTIVE_FORWARDED | ACTIVE_FORWARDED

  type Key = (nat, Addr)

  /** A buffered packet; `tag` is the interface its DeferredRouteOutputTag names, while it carries one. */
  datatype QueueEntry = QueueEntry(uid: nat, dst: Addr, status: Status, tag: Option<int>)

  function KeyOf(e: QueueEntry): Key {
    (e.uid, e.dst)
  }

  function Keys(q: seq<QueueEntry>): seq<Key> {
    seq(|q|, i requires 0 <= i < |q| => KeyOf(q[i]))
  }

  predicate HasKey(q: seq<QueueEntry>, k: Key) {
    exists i :: 0 <= i < |q| && KeyOf(q[i]) == k
  }

  function Rank(s: Status): nat {
    match s
    case NOT_FORWARDED => 0
    case INACTIVE_FORWARDED => 1
    case ACTIVE_FORWARDED => 2
  }

  /** Where the oldest entry of status `s` stands, or the length of the queue. */
  function OldestOf(q: seq<QueueEntry>, s: Status): (i: nat)
    ensures i <= |q|
    ensures i < |q| ==> q[i].status == s
    ensures forall j :: 0 <= j < i ==> q[j].status != s
  {
    if q == [] || q[0].status == s then 0 else 1 + OldestOf(q[1..], s)
  }

  /** `k` is the oldest entry of status `s` among the first `i`, or the length of the queue if there is none. */
  ghost predicate OldestSoFar(q: seq<QueueEntry>, s: Status, i: nat, k: nat)
    requires i <= |q|
  {
    if k == |q| then forall j :: 0 <= j < i ==> q[j].status != s
    else k < i && q[k].status == s && forall j :: 0 <= j < k ==> q[j].status != s
  }

  lemma OldestStep(q: seq<QueueEntry>, s: Status, i: nat, k: nat)
    requires i < |q| && OldestSoFar(q, s, i, k)
    ensures OldestSoFar(q, s, i + 1, if q[i].status == s && k == |q| then i else k)
  {
  }

  lemma OldestIs(q: seq<QueueEntry>, s: Status, k: nat)
    requires OldestSoFar(q, s, |q|, k)
    ensures k == OldestOf(q, s)
  {
  }

  /** The entry DropPolicy erases. */
  function Victim(q: seq<QueueEntry>): (i: nat)
    ensures q != [] ==> i < |q|
  {
    if OldestOf(q, ACTIVE_FORWARDED) < |q| then OldestOf(q, ACTIVE_FORWARDED)
    else if OldestOf(q, INACTIVE_FORWARDED) < |q| then OldestOf(q, INACTIVE_FORWARDED)
    else OldestOf(q, NOT_FORWARDED)
  }

  function RemoveAt<T>(s: seq<T>, i: nat): seq<T>
    requires i < |s|
  {
    s[..i] + s[i + 1..]
  }

  /** Is the packet buffered?  Not if it is there already, nor if the buffer has no room and nothing to evict. */
  predicate Accepts(q: seq<QueueEntry>, maxLen: nat, e: QueueEntry) {
    !HasKey(q, KeyOf(e)) && (|q| == maxLen ==> q != [])
  }

  function Enqueued(q: seq<QueueEntry>, maxLen: nat, e: QueueEntry): seq<QueueEntry> {
    if !Accepts(q, maxLen, e) then q
    else (if |q| == maxLen then RemoveAt(q, Victim(q)) else q) + [e]
  }

  /** Would Dequeue hand this entry out?  `sval` is 2 for an ACTIVE route and 1 for an INACTIVE one. */
  predicate Eligible(e: QueueEntry, dst: Addr, sval: nat) {
    && e.dst == dst
    && ((sval == 2 && e.status != ACTIVE_FORWARDED) || (sval == 1 && e.status == NOT_FORWARDED))
  }

  function Mark(sval: nat): Status {
    if sval == 2 then ACTIVE_FORWARDED else INACTIVE_FORWARDED
  }

  function NextEligible(q: seq<QueueEntry>, dst: Addr, sval: nat): (i: nat)
    ensures i <= |q|
    ensures i < |q| ==> Eligible(q[i], dst, sval)
    ensures forall j :: 0 <= j < i ==> !Eligible(q[j], dst, sval)
  {
    if q == [] || Eligible(q[0], dst, sval) then 0 else 1 + NextEligible(q[1..], dst, sval)
  }

  function Dequeued(q: seq<QueueEntry>, dst: Addr, sval: nat): seq<QueueEntry> {
    var i := NextEligible(q, dst, sval);
    if i < |q| then q[i := q[i].(status := Mark(sval))] else q
  }

  function NotFor(dst: Addr): QueueEntry -> bool {
    (e: QueueEntry) => e.dst != dst
  }

  function ForOnly(dst: Addr): QueueEntry -> bool {
    (e: QueueEntry) => e.dst == dst
  }

  class BsdvrQueue {
    var q: seq<QueueEntry>
    var maxLen: nat

    constructor (maxLen: nat)
      ensures q == [] && this.maxLen == maxLen
    {
      q := [];
      this.maxLen := maxLen;
    }

    /** The oldest entry of each status, found in one pass. */
    method FindOldest() returns (onf: nat, oaf: nat, oif: nat)
      ensures onf == OldestOf(q, NOT_FORWARDED)
      ensures oaf == OldestOf(q, ACTIVE_FORWARDED)
      ensures oif == OldestOf(q, INACTIVE_FORWARDED)
    {
      onf, oaf, oif := |q|, |q|, |q|;
      var i := 0;
      while i < |q|
        invariant 0 <= i <= |q|
        invariant OldestSoFar(q, NOT_FORWARDED, i, onf)
        invariant OldestSoFar(q, ACTIVE_FORWARDED, i, oaf)
        invariant OldestSoFar(q, INACTIVE_FORWARDED, i, oif)
      {
        OldestStep(q, NOT_FORWARDED, i, onf);
        OldestStep(q, ACTIVE_FORWARDED, i, oaf);
        OldestStep(q, INACTIVE_FORWARDED, i, oif);
        if q[i].status == NOT_FORWARDED && onf == |q| {
          onf := i;
        } else if q[i].status == INACTIVE_FORWARDED && oif == |q| {
          oif := i;
        } else if q[i].status == ACTIVE_FORWARDED && oaf == |q| {
          oaf := i;
        }
        i := i + 1;
      }
      OldestIs(q, NOT_FORWARDED, onf);
      OldestIs(q, ACTIVE_FORWARDED, oaf);
      OldestIs(q, INACTIVE_FORWARDED, oif);
    }

    /** Erases the oldest entry of the most forwarded kind. */
    method DropPolicy() returns (dropped: bool)
      modifies this`q
      ensures dropped == (old(q) != [])
      ensures q == if old(q) == [] then [] else RemoveAt(old(q), Victim(old(q)))
    {
      var onf, oaf, oif := FindOldest();
      if oaf != |q| {
        q := q[..oaf] + q[oaf + 1..];
        return true;
      } else if oif != |q| {
        q := q[..oif] + q[oif + 1..];
        return true;
      } else if onf != |q| {
        q := q[..onf] + q[onf + 1..];
        return true;
      }
      return false;
    }

    method Enqueue(e: QueueEntry) returns (queued: bool)
      modifies this`q
      ensures queued == Accepts(old(q), maxLen, e)
      ensures q == Enqueued(old(q), maxLen, e)
    {
      var i := 0;
      while i < |q|
        invariant 0 <= i <= |q|
        invariant forall j :: 0 <= j < i ==> KeyOf(q[j]) != KeyOf(e)
      {
        if q[i].uid == e.uid && q[i].dst == e.dst {
          assert KeyOf(q[i]) == KeyOf(e);
          return false;
        }
        i := i + 1;
      }
      if |q| == maxLen {
        var dropped := DropPolicy();
        if !dropped {
          return false;
        }
      }
      q := q + [e];
      return true;
    }

    /** `at` is the position of the entry handed out. */
    method Dequeue(dst: Addr, sval: nat) returns (at: Option<nat>)
      modifies this`q
      ensures q == Dequeued(old(q), dst, sval)
      ensures var i := NextEligible(old(q), dst, sval); at == if i < |old(q)| then Some(i) else None
    {
      var i := 0;
      while i < |q|
        invariant 0 <= i <= |q| && q == old(q)
        invariant forall j :: 0 <= j < i ==> !Eligible(q[j], dst, sval)
      {
        if sval == 2 {
          if q[i].dst == dst {
            if q[i].status == NOT_FORWARDED || q[i].status == INACTIVE_FORWARDED {
              q := q[i := q[i].(status := ACTIVE_FORWARDED)];
              return Some(i);
            }
          }
        } else if sval == 1 {
          if q[i].dst == dst && q[i].status == NOT_FORWARDED {
            q := q[i := q[i].(status := INACTIVE_FORWARDED)];
            return Some(i);
          }
        }
        i := i + 1;
      }
      return None;
    }

    method DropPacketWithDst(dst: Addr)
      modifies this`q
      ensures q == Filter(old(q), NotFor(dst))
    {
      var kept, i := [], 0;
      while i < |q|
        invariant 0 <= i <= |q| && q == old(q)
        invariant kept == Filter(q[..i], NotFor(dst))
      {
        FilterPrefix(q, i, NotFor(dst));
        if q[i].dst != dst {
          kept := kept + [q[i]];
        }
        i := i + 1;
      }
      assert q[..|q|] == q;
      q := kept;
    }

    method Find(dst: Addr) returns (found: bool)
      ensures found <==> exists i :: 0 <= i < |q| && q[i].dst == dst
    {
      for i := 0 to |q|
        invariant forall j :: 0 <= j < i ==> q[j].dst != dst
      {
        if q[i].dst == dst {
          return true;
        }
      }
      return false;
    }

    /** `RemovePacketTag` on the packet that entry `i` points to. */
    method RemoveTag(i: nat) returns (tag: Option<int>)
      requires i < |q|
      modifies this`q
      ensures tag == old(q)[i].tag
      ensures q == old(q)[i := old(q)[i].(tag := None)]
    {
      tag := q[i].tag;
      q := q[i := q[i].(tag := None)];
    }
  }

  // ---------- draining for one destination ----------

  /** The packet was deferred for a fixed output interface, and the route leaves by another. */
  predicate Mismatch(e: QueueEntry, out: int) {
    e.tag.Some? && e.tag.value != -1 && e.tag.value != out
  }

  /** Where the drain stops: the first eligible packet whose interface does not match, or the end. */
  function Stop(q: seq<QueueEntry>, dst: Addr, sval: nat, out: int): (i: nat)
    ensures i <= |q|
    ensures i < |q| ==> Eligible(q[i], dst, sval) && Mismatch(q[i], out)
    ensures forall j :: 0 <= j < i ==> !(Eligible(q[j], dst, sval) && Mismatch(q[j], out))
  {
    if q == [] || (Eligible(q[0], dst, sval) && Mismatch(q[0], out)) then 0
    else 1 + Stop(q[1..], dst, sval, out)
  }

  /** The buffer after every eligible packet before position `k` was handed out. */
  function DrainedBefore(q: seq<QueueEntry>, k: int, dst: Addr, sval: nat): seq<QueueEntry> {
    seq(|q|, i requires 0 <= i < |q| =>
      if i < k && Eligible(q[i], dst, sval) then q[i].(status := Mark(sval), tag := None) else q[i])
  }

  function EligibleTest(dst: Addr, sval: nat): QueueEntry -> bool {
    (e: QueueEntry) => Eligible(e, dst, sval)
  }

  /** SendPacketFromQueue: the packet it stops at is handed out but not forwarded. */
  function Drained(q: seq<QueueEntry>, dst: Addr, sval: nat, out: int): seq<QueueEntry> {
    DrainedBefore(q, Stop(q, dst, sval, out) + 1, dst, sval)
  }

  /** The eligible packets before position `k`, in order. */
  function EligibleBefore(q: seq<QueueEntry>, k: nat, dst: Addr, sval: nat): seq<Key>
    requires k <= |q|
  {
    Keys(Filter(q[..k], EligibleTest(dst, sval)))
  }

  /** The packets it forwards, in order. */
  function Forwarded(q: seq<QueueEntry>, dst: Addr, sval: nat, out: int): seq<Key> {
    EligibleBefore(q, Stop(q, dst, sval, out), dst, sval)
  }

  lemma KeysAppend(a: seq<QueueEntry>, b: seq<QueueEntry>)
    ensures Keys(a + b) == Keys(a) + Keys(b)
  {
  }

  lemma HandingOut(q: seq<QueueEntry>, k: nat, i: nat, dst: Addr, sval: nat)
    requires k <= i < |q| && Eligible(q[i], dst, sval)
    requires forall j :: k <= j < i ==> !Eligible(q[j], dst, sval)
    ensures DrainedBefore(q, i + 1, dst, sval) ==
            DrainedBefore(q, k, dst, sval)[i := q[i].(status := Mark(sval), tag := None)]
  {
  }

  lemma OneMoreForwarded(q: seq<QueueEntry>, k: nat, i: nat, dst: Addr, sval: nat)
    requires k <= i < |q| && Eligible(q[i], dst, sval)
    requires forall j :: k <= j < i ==> !Eligible(q[j], dst, sval)
    ensures EligibleBefore(q, i + 1, dst, sval) == EligibleBefore(q, k, dst, sval) + [KeyOf(q[i])]
  {
    FilterSkips(q, k, i, dst, sval);
    FilterPrefix(q, i, EligibleTest(dst, sval));
    KeysAppend(Filter(q[..k], EligibleTest(dst, sval)), [q[i]]);
  }

  /** Nothing is left to hand out. */
  lemma DrainEnd(q: seq<QueueEntry>, k: nat, dst: Addr, sval: nat)
    requires k <= |q| && forall j :: k <= j < |q| ==> !Eligible(q[j], dst, sval)
    ensures NextEligible(DrainedBefore(q, k, dst, sval), dst, sval) == |q|
    ensures DrainedBefore(q, |q| + 1, dst, sval) == DrainedBefore(q, k, dst, sval)
  {
  }

  /** What Dequeue left and returned when everything before `k` had been handed out already. */
  ghost predicate Turn(was: seq<QueueEntry>, k: nat, dst: Addr, sval: nat, q: seq<QueueEntry>, at: Option<nat>) {
    var d := DrainedBefore(was, k, dst, sval);
    var i := NextEligible(d, dst, sval);
    q == Dequeued(d, dst, sval) && at == if i < |was| then Some(i) else None
  }

  lemma TurnBegins(was: seq<QueueEntry>, k: nat, d: seq<QueueEntry>, dst: Addr, sval: nat, q: seq<QueueEntry>,
                   at: Option<nat>)
    requires d == DrainedBefore(was, k, dst, sval) && q == Dequeued(d, dst, sval)
    requires at == if NextEligible(d, dst, sval) < |d| then Some(NextEligible(d, dst, sval)) else None
    ensures Turn(was, k, dst, sval, q, at)
  {
  }

  lemma TurnFound(was: seq<QueueEntry>, k: nat, dst: Addr, sval: nat, q: seq<QueueEntry>, i: nat)
    requires k <= |was| && sval in {1, 2} && Turn(was, k, dst, sval, q, Some(i))
    ensures k <= i < |was| && Eligible(was[i], dst, sval) && forall j :: k <= j < i ==> !Eligible(was[j], dst, sval)
    ensures |q| == |was| && q[i].tag == was[i].tag && KeyOf(q[i]) == KeyOf(was[i])
    ensures q[i := q[i].(tag := None)] == DrainedBefore(was, i + 1, dst, sval)
  {
    var d := DrainedBefore(was, k, dst, sval);
    NextInOriginal(was, k, i, dst, sval);
    HandingOut(was, k, i, dst, sval);
    assert d[i] == was[i];
  }

  lemma TurnStops(was: seq<QueueEntry>, k: nat, i: nat, dst: Addr, sval: nat, out: int)
    requires k <= i < |was| && k <= Stop(was, dst, sval, out)
    requires Eligible(was[i], dst, sval) && forall j :: k <= j < i ==> !Eligible(was[j], dst, sval)
    ensures if Mismatch(was[i], out) then Stop(was, dst, sval, out) == i else i + 1 <= Stop(was, dst, sval, out)
  {
  }

  lemma TurnEnds(was: seq<QueueEntry>, k: nat, dst: Addr, sval: nat, out: int, q: seq<QueueEntry>)
    requires k <= Stop(was, dst, sval, out) && sval in {1, 2} && Turn(was, k, dst, sval, q, None)
    ensures Stop(was, dst, sval, out) == |was|
    ensures q == Drained(was, dst, sval, out)
    ensures EligibleBefore(was, k, dst, sval) == Forwarded(was, dst, sval, out)
  {
    NoneInOriginal(was, k, dst, sval);
    DrainEnd(was, k, dst, sval);
    FilterSkips(was, k, |was|, dst, sval);
  }

  /** One turn that finds a packet: it is handed out, and forwarded unless the drain stops there. */
  lemma TurnContinues(was: seq<QueueEntry>, k: nat, dst: Addr, sval: nat, out: int, q: seq<QueueEntry>, i: nat)
    requires k <= Stop(was, dst, sval, out) && sval in {1, 2} && Turn(was, k, dst, sval, q, Some(i))
    ensures k <= i < |was| && |q| == |was|
    ensures q[i := q[i].(tag := None)] == DrainedBefore(was, i + 1, dst, sval)
    ensures if Mismatch(q[i], out)
            then Stop(was, dst, sval, out) == i && EligibleBefore(was, k, dst, sval) == Forwarded(was, dst, sval, out)
            else i + 1 <= Stop(was, dst, sval, out) &&
                 EligibleBefore(was, i + 1, dst, sval) == EligibleBefore(was, k, dst, sval) + [KeyOf(q[i])]
  {
    TurnFound(was, k, dst, sval, q, i);
    TurnStops(was, k, i, dst, sval, out);
    FilterSkips(was, k, i, dst, sval);
    OneMoreForwarded(was, k, i, dst, sval);
  }

  function SvalOf(state: RouteState): nat {
    if state == ACTIVE then 2 else 1
  }

  // ---------- what a route releases, told by its state ----------

  /** An ACTIVE route releases a packet unless an ACTIVE route did before; an INACTIVE one only if no route did. */
  predicate Releases(state: RouteState, dst: Addr, e: QueueEntry) {
    e.dst == dst && if state == ACTIVE then e.status != ACTIVE_FORWARDED else e.status == NOT_FORWARDED
  }

  function ReleaseTest(state: RouteState, dst: Addr): QueueEntry -> bool {
    (e: QueueEntry) => Releases(state, dst, e)
  }

  function Released(state: RouteState, e: QueueEntry): QueueEntry {
    e.(status := if state == ACTIVE then ACTIVE_FORWARDED else INACTIVE_FORWARDED, tag := None)
  }

  /** The packet is held for another interface than `out`. */
  predicate HeldForAnother(e: QueueEntry, out: int) {
    match e.tag
    case None => false
    case Some(oif) => oif != -1 && oif != out
  }

  function Packets(es: seq<QueueEntry>): seq<(nat, Addr)> {
    seq(|es|, i requires 0 <= i < |es| => (es[i].uid, es[i].dst))
  }

  /**
   * One drain, told from the packets: up to the first packet that the route releases but another interface holds, exactly
   * the released ones are sent, in order, and marked; that packet is marked too, and everything else is untouched.
   */
  ghost predicate SentPlainly(q: seq<QueueEntry>, q': seq<QueueEntry>, sent: seq<(nat, Addr)>, dst: Addr,
                              state: RouteState, out: int)
  {
    |q'| == |q| && exists stop ::
      && 0 <= stop <= |q|
      && (stop < |q| ==> Releases(state, dst, q[stop]) && HeldForAnother(q[stop], out))
      && (forall i :: 0 <= i < stop ==> !(Releases(state, dst, q[i]) && HeldForAnother(q[i], out)))
      && (forall i :: 0 <= i < |q| ==>
                        q'[i] == if i <= stop && Releases(state, dst, q[i]) then Released(state, q[i]) else q[i])
      && sent == Packets(Filter(q[..stop], ReleaseTest(state, dst)))
  }

  lemma {:induction false} SameFilter(a: seq<QueueEntry>, b: seq<QueueEntry>, p: QueueEntry -> bool, r: QueueEntry -> bool)
    requires |a| == |b| && forall i :: 0 <= i < |a| ==> (p(a[i]) <==> r(b[i])) && (p(a[i]) ==> a[i] == b[i])
    ensures Filter(a, p) == Filter(b, r)
  {
    if a != [] {
      SameFilter(a[..|a| - 1], b[..|b| - 1], p, r);
    }
  }

  lemma DrainsPlainly(q: seq<QueueEntry>, dst: Addr, state: RouteState, out: int)
    ensures SentPlainly(q, Drained(q, dst, SvalOf(state), out), Forwarded(q, dst, SvalOf(state), out), dst, state, out)
  {
    var sval := SvalOf(state);
    var stop := Stop(q, dst, sval, out);
    assert forall e :: Eligible(e, dst, sval) <==> Releases(state, dst, e);
    assert forall e :: Mismatch(e, out) <==> HeldForAnother(e, out);
    SameFilter(q[..stop], q[..stop], EligibleTest(dst, sval), ReleaseTest(state, dst));
    var sent := Filter(q[..stop], ReleaseTest(state, dst));
    assert Keys(sent) == Packets(sent);
  }

  /** The condition of the drain's loop. */
  method NextTurn(queue: BsdvrQueue, ghost was: seq<QueueEntry>, ghost k: nat, dst: Addr, sval: nat)
    returns (at: Option<nat>)
    requires queue.q == DrainedBefore(was, k, dst, sval)
    modifies queue`q
    ensures Turn(was, k, dst, sval, queue.q, at)
  {
    ghost var d := queue.q;
    at := queue.Dequeue(dst, sval);
    TurnBegins(was, k, d, dst, sval, queue.q, at);
  }

  /** Forwards the buffered packets for `dst`; `out` is the interface the route leaves by. */
  method SendPacketFromQueue(queue: BsdvrQueue, dst: Addr, state: RouteState, out: int) returns (sent: seq<Key>)
    modifies queue`q
    ensures queue.q == Drained(old(queue.q), dst, SvalOf(state), out)
    ensures sent == Forwarded(old(queue.q), dst, SvalOf(state), out)
    ensures SentPlainly(old(queue.q), queue.q, sent, dst, state, out)
  {
    sent := DrainFor(queue, dst, state, out);
    DrainsPlainly(old(queue.q), dst, state, out);
  }

  method DrainFor(queue: BsdvrQueue, dst: Addr, state: RouteState, out: int) returns (sent: seq<Key>)
    modifies queue`q
    ensures queue.q == Drained(old(queue.q), dst, SvalOf(state), out)
    ensures sent == Forwarded(old(queue.q), dst, SvalOf(state), out)
  {
    var sval := SvalOf(state);
    sent := [];
    ghost var was, k: nat := queue.q, 0;
    assert DrainedBefore(was, 0, dst, sval) == was;
    var at := NextTurn(queue, was, 0, dst, sval);
    while at.Some?
      invariant k <= Stop(was, dst, sval, out)
      invariant sent == EligibleBefore(was, k, dst, sval)
      invariant Turn(was, k, dst, sval, queue.q, at)
      decreases |was| - k, at.Some?
    {
      var i := at.value;
      TurnContinues(was, k, dst, sval, out, queue.q, i);
      var e := queue.q[i];
      var tag := queue.RemoveTag(i);
      k := i + 1;
      assert queue.q == DrainedBefore(was, k, dst, sval);
      if tag.Some? && tag.value != -1 && tag.value != out {
        return sent;
      }
      sent := sent + [KeyOf(e)];
      assert sent == EligibleBefore(was, k, dst, sval);
      at := NextTurn(queue, was, k, dst, sval);
    }
    TurnEnds(was, k, dst, sval, out, queue.q);
  }

  lemma NextInOriginal(q: seq<QueueEntry>, k: nat, i: nat, dst: Addr, sval: nat)
    requires k <= |q| && i < |q| && sval in {1, 2}
    requires NextEligible(DrainedBefore(q, k, dst, sval), dst, sval) == i
    ensures k <= i && Eligible(q[i], dst, sval) && forall j :: k <= j < i ==> !Eligible(q[j], dst, sval)
  {
    var d := DrainedBefore(q, k, dst, sval);
    assert Eligible(d[i], dst, sval);
    assert forall j :: 0 <= j < i ==> !Eligible(d[j], dst, sval);
    assert forall j :: k <= j < i ==> d[j] == q[j];
  }

  lemma NoneInOriginal(q: seq<QueueEntry>, k: nat, dst: Addr, sval: nat)
    requires k <= |q|
    requires NextEligible(DrainedBefore(q, k, dst, sval), dst, sval) >= |q|
    ensures forall j :: k <= j < |q| ==> !Eligible(q[j], dst, sval)
  {
    var d := DrainedBefore(q, k, dst, sval);
    assert forall j :: k <= j < |q| ==> d[j] == q[j];
  }

  lemma FilterSkips(q: seq<QueueEntry>, k: nat, i: nat, dst: Addr, sval: nat)
    requires k <= i <= |q| && forall j :: k <= j < i ==> !Eligible(q[j], dst, sval)
    ensures Filter(q[..i], EligibleTest(dst, sval)) == Filter(q[..k], EligibleTest(dst, sval))
    ensures EligibleBefore(q, i, dst, sval) == EligibleBefore(q, k, dst, sval)
  {
    assert q[..i] == q[..k] + q[k..i];
    FilterAppend(q[..k], q[k..i], EligibleTest(dst, sval));
    FilterNone(q[k..i], EligibleTest(dst, sval));
  }

  // ---------- draining for every route ----------

  /** The buffer after draining for the destinations `keys` of the table in turn. */
  function Flushed(q: seq<QueueEntry>, ft: Row, keys: seq<Addr>, out: int): seq<QueueEntry>
    requires forall k :: k in keys ==> k in ft
  {
    if keys == [] then q else
    var d := keys[|keys| - 1];
    Drained(Flushed(q, ft, keys[..|keys| - 1], out), d, SvalOf(ft[d].state), out)
  }

  function FlushedPackets(q: seq<QueueEntry>, ft: Row, keys: seq<Addr>, out: int): seq<Key>
    requires forall k :: k in keys ==> k in ft
  {
    if keys == [] then [] else
    var d := keys[|keys| - 1];
    var init := keys[..|keys| - 1];
    FlushedPackets(q, ft, init, out) + Forwarded(Flushed(q, ft, init, out), d, SvalOf(ft[d].state), out)
  }

  lemma FlushStep(q: seq<QueueEntry>, ft: Row, done: seq<Addr>, d: Addr, out: int)
    requires d in ft && forall k :: k in done ==> k in ft
    ensures var before := Flushed(q, ft, done, out);
            && Flushed(q, ft, done + [d], out) == Drained(before, d, SvalOf(ft[d].state), out)
            && FlushedPackets(q, ft, done + [d], out) ==
               FlushedPackets(q, ft, done, out) + Forwarded(before, d, SvalOf(ft[d].state), out)
  {
    assert (done + [d])[..|done|] == done;
  }

  /** Draining for a destination that has no packets does nothing. */
  lemma NothingToDrain(q: seq<QueueEntry>, dst: Addr, sval: nat, out: int)
    requires forall i :: 0 <= i < |q| ==> q[i].dst != dst
    ensures Drained(q, dst, sval, out) == q && Forwarded(q, dst, sval, out) == []
  {
    FilterNone(q[..Stop(q, dst, sval, out)], EligibleTest(dst, sval));
  }

  /** What the routes to `keys` release when no packet is held for another interface, route by route. */
  function ReleasedFor(q: seq<QueueEntry>, ft: Row, keys: seq<Addr>): seq<(nat, Addr)>
    requires forall k :: k in keys ==> k in ft
  {
    if keys == [] then [] else
    var d := keys[|keys| - 1];
    ReleasedFor(q, ft, keys[..|keys| - 1]) + Packets(Filter(q, ReleaseTest(ft[d].state, d)))
  }

  /** The whole flush, told from the packets: each one that the route to its destination releases is sent once and marked. */
  ghost predicate FlushedPlainly(q: seq<QueueEntry>, q': seq<QueueEntry>, sent: seq<(nat, Addr)>, ft: Row, keys: seq<Addr>)
    requires forall k :: k in keys ==> k in ft
  {
    && |q'| == |q| && sent == ReleasedFor(q, ft, keys)
    && forall i :: 0 <= i < |q| ==>
                     q'[i] == if q[i].dst in keys && Releases(ft[q[i].dst].state, q[i].dst, q[i])
                              then Released(ft[q[i].dst].state, q[i]) else q[i]
  }

  ghost predicate NoneHeld(q: seq<QueueEntry>, out: int) {
    forall i :: 0 <= i < |q| ==> !HeldForAnother(q[i], out)
  }

  /** With no packet held for another interface, a drain goes to the end. */
  lemma SentToTheEnd(q: seq<QueueEntry>, q': seq<QueueEntry>, sent: seq<(nat, Addr)>, dst: Addr, state: RouteState, out: int)
    requires SentPlainly(q, q', sent, dst, state, out) && NoneHeld(q, out)
    ensures sent == Packets(Filter(q, ReleaseTest(state, dst)))
    ensures |q'| == |q| && forall i :: 0 <= i < |q| ==> q'[i] == AfterRelease(state, dst, q[i])
  {
    assert q[..|q|] == q;
  }

  function AfterRelease(state: RouteState, dst: Addr, e: QueueEntry): QueueEntry {
    if Releases(state, dst, e) then Released(state, e) else e
  }

  function AfterFlush(ft: Row, keys: seq<Addr>, e: QueueEntry): QueueEntry
    requires forall k :: k in keys ==> k in ft
  {
    if e.dst in keys then AfterRelease(ft[e.dst].state, e.dst, e) else e
  }

  lemma OneMoreRelease(ft: Row, init: seq<Addr>, d: Addr, e: QueueEntry, out: int)
    requires (forall k :: k in init ==> k in ft) && d in ft && d !in init && !HeldForAnother(e, out)
    ensures AfterRelease(ft[d].state, d, AfterFlush(ft, init, e)) == AfterFlush(ft, init + [d], e)
    ensures !HeldForAnother(AfterFlush(ft, init, e), out)
    ensures Releases(ft[d].state, d, AfterFlush(ft, init, e)) <==> Releases(ft[d].state, d, e)
    ensures Releases(ft[d].state, d, e) ==> AfterFlush(ft, init, e) == e
  {
  }

  /** One more drain. */
  lemma FlushesOneMore(q: seq<QueueEntry>, before: seq<QueueEntry>, after: seq<QueueEntry>, sent: seq<(nat, Addr)>,
                       more: seq<(nat, Addr)>, ft: Row, init: seq<Addr>, d: Addr, out: int)
    requires (forall k :: k in init ==> k in ft) && d in ft && d !in init && NoneHeld(q, out)
    requires FlushedPlainly(q, before, sent, ft, init)
    requires SentPlainly(before, after, more, d, ft[d].state, out)
    ensures FlushedPlainly(q, after, sent + more, ft, init + [d])
  {
    var state := ft[d].state;
    forall i | 0 <= i < |q|
      ensures before[i] == AfterFlush(ft, init, q[i]) && !HeldForAnother(before[i], out)
      ensures Releases(state, d, before[i]) <==> Releases(state, d, q[i])
      ensures Releases(state, d, before[i]) ==> before[i] == q[i]
    {
      OneMoreRelease(ft, init, d, q[i], out);
    }
    SentToTheEnd(before, after, more, d, state, out);
    SameFilter(before, q, ReleaseTest(state, d), ReleaseTest(state, d));
    assert ReleasedFor(q, ft, init + [d]) == sent + more by {
      assert (init + [d])[..|init|] == init;
    }
    forall i | 0 <= i < |q| ensures after[i] == AfterFlush(ft, init + [d], q[i]) {
      OneMoreRelease(ft, init, d, q[i], out);
    }
  }

  lemma {:induction false} FlushesPlainly(q: seq<QueueEntry>, ft: Row, keys: seq<Addr>, out: int)
    requires (forall k :: k in keys ==> k in ft) && NoneHeld(q, out) && Distinct(keys)
    ensures FlushedPlainly(q, Flushed(q, ft, keys, out), FlushedPackets(q, ft, keys, out), ft, keys)
  {
    if keys != [] {
      var init, d := keys[..|keys| - 1], keys[|keys| - 1];
      FlushesPlainly(q, ft, init, out);
      assert keys == init + [d] && d !in init;
      var before := Flushed(q, ft, init, out);
      DrainsPlainly(before, d, ft[d].state, out);
      FlushesOneMore(q, before, Drained(before, d, SvalOf(ft[d].state), out), FlushedPackets(q, ft, init, out),
                     Forwarded(before, d, SvalOf(ft[d].state), out), ft, init, d, out);
    }
  }

  /** The last part of RecvUpdate: every route in the table drains the packets buffered for its destination. */
  method FlushBuffer(queue: BsdvrQueue, ft: Row, out: int) returns (sent: seq<Key>)
    modifies queue`q
    ensures queue.q == Flushed(old(queue.q), ft, SortedKeys(ft.Keys), out)
    ensures sent == FlushedPackets(old(queue.q), ft, SortedKeys(ft.Keys), out)
    ensures NoneHeld(old(queue.q), out) ==> FlushedPlainly(old(queue.q), queue.q, sent, ft, SortedKeys(ft.Keys))
  {
    ghost var was := queue.q;
    sent := FlushKeys(queue, ft, SortedKeys(ft.Keys), out);
    if NoneHeld(was, out) {
      FlushesPlainly(was, ft, SortedKeys(ft.Keys), out);
    }
  }

  method FlushKeys(queue: BsdvrQueue, ft: Row, keys: seq<Addr>, out: int) returns (sent: seq<Key>)
    requires forall k :: k in keys ==> k in ft
    modifies queue`q
    ensures queue.q == Flushed(old(queue.q), ft, keys, out)
    ensures sent == FlushedPackets(old(queue.q), ft, keys, out)
  {
    ghost var was, done := queue.q, [];
    sent := [];
    var i := 0;
    while i < |keys|
      invariant 0 <= i <= |keys| && done == keys[..i]
      invariant forall k :: k in done ==> k in ft
      invariant queue.q == Flushed(was, ft, done, out)
      invariant sent == FlushedPackets(was, ft, done, out)
    {
      var d := keys[i];
      assert d in ft;
      FlushStep(was, ft, done, d, out);
      var more := DrainIfFound(queue, d, ft[d].state, out);
      sent := sent + more;
      done := done + [d];
      i := i + 1;
    }
    assert done == keys;
  }

  method DrainIfFound(queue: BsdvrQueue, d: Addr, state: RouteState, out: int) returns (sent: seq<Key>)
    modifies queue`q
    ensures queue.q == Drained(old(queue.q), d, SvalOf(state), out)
    ensures sent == Forwarded(old(queue.q), d, SvalOf(state), out)
  {
    var found := queue.Find(d);
    if found {
      sent := SendPacketFromQueue(queue, d, state, out);
    } else {
      NothingToDrain(queue.q, d, SvalOf(state), out);
      sent := [];
    }
  }
}
