/** What the data buffer keeps over every run of its operations. */
module BufferRuns {
  import opened Collections
  import opened Routes
  import opened DataQueue

  // ---------- the victim ----------

  /** The evicted packet is among the most forwarded, and the oldest of those. */
  lemma VictimIsOldestOfMostForwarded(q: seq<QueueEntry>)
    requires q != []
    ensures var i := Victim(q);
            forall j :: 0 <= j < |q| ==>
                          && Rank(q[j].status) <= Rank(q[i].status)
                          && (Rank(q[j].status) == Rank(q[i].status) ==> i <= j)
  {
  }

  /** The packet a full buffer gives up: the oldest sent on an ACTIVE route, else on an INACTIVE one, else of all. */
  ghost predicate GivenUp(q: seq<QueueEntry>, i: nat)
    requires i < |q|
  {
    || (q[i].status == ACTIVE_FORWARDED && forall j :: 0 <= j < i ==> q[j].status != ACTIVE_FORWARDED)
    || (q[i].status == INACTIVE_FORWARDED && (forall j :: 0 <= j < |q| ==> q[j].status != ACTIVE_FORWARDED) &&
        forall j :: 0 <= j < i ==> q[j].status != INACTIVE_FORWARDED)
    || (i == 0 && forall j :: 0 <= j < |q| ==> q[j].status == NOT_FORWARDED)
  }

  lemma VictimIsGivenUp(q: seq<QueueEntry>)
    requires q != []
    ensures GivenUp(q, Victim(q))
  {
    assert OldestOf(q, ACTIVE_FORWARDED) == |q| ==> forall j :: 0 <= j < |q| ==> q[j].status != ACTIVE_FORWARDED;
    assert OldestOf(q, INACTIVE_FORWARDED) == |q| ==> forall j :: 0 <= j < |q| ==> q[j].status != INACTIVE_FORWARDED;
  }

  /** A packet already buffered, or one that finds no room, changes nothing; any other goes to the back. */
  lemma EnqueueIsExact(q: seq<QueueEntry>, maxLen: nat, e: QueueEntry)
    ensures var buffered := exists i :: 0 <= i < |q| && q[i].uid == e.uid && q[i].dst == e.dst;
            var q' := Enqueued(q, maxLen, e);
            && (Accepts(q, maxLen, e) <==> !buffered && (|q| != maxLen || q != []))
            && (!Accepts(q, maxLen, e) ==> q' == q)
            && (Accepts(q, maxLen, e) && |q| != maxLen ==> q' == q + [e])
            && (Accepts(q, maxLen, e) && |q| == maxLen ==>
                  exists i :: 0 <= i < |q| && GivenUp(q, i) && q' == q[..i] + q[i + 1..] + [e])
  {
    if exists i :: 0 <= i < |q| && q[i].uid == e.uid && q[i].dst == e.dst {
      var i :| 0 <= i < |q| && q[i].uid == e.uid && q[i].dst == e.dst;
      assert KeyOf(q[i]) == KeyOf(e);
    }
    if q != [] {
      VictimIsGivenUp(q);
    }
  }

  // ---------- one drain ----------

  /**
   * With no interface mismatch, a drain forwards exactly the eligible packets, in queue order; afterwards none is
   * eligible, no packet is lost or moved, and every other packet is untouched.
   */
  lemma DrainIsExact(q: seq<QueueEntry>, dst: Addr, sval: nat, out: int)
    requires forall i :: 0 <= i < |q| && Eligible(q[i], dst, sval) ==> !Mismatch(q[i], out)
    ensures Forwarded(q, dst, sval, out) == Keys(Filter(q, EligibleTest(dst, sval)))
    ensures var r := Drained(q, dst, sval, out);
            && Keys(r) == Keys(q)
            && forall i :: 0 <= i < |q| ==>
                             && !Eligible(r[i], dst, sval) && r[i].dst == q[i].dst
                             && (r[i].tag == q[i].tag || r[i].tag == None)
                             && (!Eligible(q[i], dst, sval) ==> r[i] == q[i])
                             && (Eligible(q[i], dst, sval) ==> r[i].status == Mark(sval))
  {
    assert Stop(q, dst, sval, out) == |q|;
    assert q[..|q|] == q;
    var r := Drained(q, dst, sval, out);
    forall i | 0 <= i < |q| {
      HandedOutEntry(q[i], r[i], dst, sval);
    }
    assert Keys(r) == Keys(q);
  }

  lemma HandedOutEntry(e: QueueEntry, r: QueueEntry, dst: Addr, sval: nat)
    requires r == if Eligible(e, dst, sval) then e.(status := Mark(sval), tag := None) else e
    ensures !Eligible(r, dst, sval) && KeyOf(r) == KeyOf(e) && r.dst == e.dst && (r.tag == e.tag || r.tag == None)
    ensures if Eligible(e, dst, sval) then r.status == Mark(sval) else r == e
  {
  }

  /** A mismatch cuts what is forwarded to a prefix; the packet it stops at is marked all the same. */
  lemma MismatchCutsToPrefix(q: seq<QueueEntry>, dst: Addr, sval: nat, out: int)
    requires Stop(q, dst, sval, out) < |q|
    ensures var k, r := Stop(q, dst, sval, out), Drained(q, dst, sval, out);
            && Forwarded(q, dst, sval, out) + [KeyOf(q[k])] <= Keys(Filter(q, EligibleTest(dst, sval)))
            && r[k].status == Mark(sval)
            && forall i :: k < i < |q| ==> r[i] == q[i]
  {
    var k := Stop(q, dst, sval, out);
    assert Forwarded(q, dst, sval, out) + [KeyOf(q[k])] == EligibleBefore(q, k + 1, dst, sval) by {
      OneMoreForwarded(q, k, k, dst, sval);
    }
    EligibleBeforeIsPrefix(q, k + 1, dst, sval);
    DrainedAround(q, k, dst, sval);
  }

  lemma DrainedAround(q: seq<QueueEntry>, k: nat, dst: Addr, sval: nat)
    requires k < |q| && Eligible(q[k], dst, sval)
    ensures var r := DrainedBefore(q, k + 1, dst, sval);
            r[k].status == Mark(sval) && forall i :: k < i < |q| ==> r[i] == q[i]
  {
  }

  lemma EligibleBeforeIsPrefix(q: seq<QueueEntry>, k: nat, dst: Addr, sval: nat)
    requires k <= |q|
    ensures EligibleBefore(q, k, dst, sval) <= Keys(Filter(q, EligibleTest(dst, sval)))
  {
    var p := EligibleTest(dst, sval);
    assert q == q[..k] + q[k..];
    FilterAppend(q[..k], q[k..], p);
    KeysAppend(Filter(q[..k], p), Filter(q[k..], p));
  }

  ghost predicate AllMatch(q: seq<QueueEntry>, out: int) {
    forall i :: 0 <= i < |q| ==> !Mismatch(q[i], out)
  }

  ghost predicate NoneEligible(q: seq<QueueEntry>, d: Addr, sval: nat) {
    forall i :: 0 <= i < |q| ==> !Eligible(q[i], d, sval)
  }

  /**
   * With no interface mismatch, once every route has drained the buffer no packet is left that its route would take,
   * and no packet was lost or moved.
   */
  lemma {:induction false} FlushLeavesNothingEligible(q: seq<QueueEntry>, ft: Row, keys: seq<Addr>, out: int)
    requires (forall k :: k in keys ==> k in ft) && AllMatch(q, out)
    ensures var r := Flushed(q, ft, keys, out);
            && AllMatch(r, out) && Keys(r) == Keys(q)
            && (forall d :: d in keys ==> NoneEligible(r, d, SvalOf(ft[d].state)))
            && forall d, i :: d in keys && 0 <= i < |r| ==> !Releases(ft[d].state, d, r[i])
  {
    if keys != [] {
      var init, d := keys[..|keys| - 1], keys[|keys| - 1];
      FlushLeavesNothingEligible(q, ft, init, out);
      var before, r := Flushed(q, ft, init, out), Flushed(q, ft, keys, out);
      DrainIsExact(before, d, SvalOf(ft[d].state), out);
      forall k | k in keys ensures NoneEligible(r, k, SvalOf(ft[k].state)) {
        if k != d {
          assert k in init;
        }
      }
      forall k, i | k in keys && 0 <= i < |r| ensures !Releases(ft[k].state, k, r[i]) {
        assert !Eligible(r[i], k, SvalOf(ft[k].state));
      }
    }
  }

  // ---------- runs ----------

  datatype Op =
    | EnqueueOp(uid: nat, dst: Addr, tag: Option<int>)
    | DequeueOp(dst: Addr, sval: nat)
    | DropOp(dst: Addr)
    | SetMaxLenOp(len: nat)
    | RemoveTagOp(i: nat)

  /**
   * The buffer and its past: the packets accepted, evicted and dropped so far, and for each buffered packet the
   * statuses it was handed out with since it was accepted.
   */
  datatype History = History(
    q: seq<QueueEntry>,
    maxLen: nat,
    accepted: seq<Key>,
    evicted: seq<Key>,
    dropped: seq<Key>,
    handed: map<Key, seq<Status>>
  )

  function Packet(uid: nat, dst: Addr, tag: Option<int>): QueueEntry {
    QueueEntry(uid, dst, NOT_FORWARDED, tag)
  }

  function HandedOut(h: History, k: Key): seq<Status> {
    if k in h.handed then h.handed[k] else []
  }

  /** The part of Enqueue that makes room in a full buffer. */
  function Roomy(h: History): History {
    if |h.q| == h.maxLen && h.q != [] then
      h.(q := RemoveAt(h.q, Victim(h.q)), evicted := h.evicted + [KeyOf(h.q[Victim(h.q)])])
    else h
  }

  /** The part that buffers a new packet. */
  function Pushed(h: History, e: QueueEntry): History {
    h.(q := h.q + [e], accepted := h.accepted + [KeyOf(e)], handed := h.handed[KeyOf(e) := []])
  }

  function Apply(h: History, op: Op): History {
    match op
    case EnqueueOp(uid, dst, tag) =>
      var e := Packet(uid, dst, tag);
      if Accepts(h.q, h.maxLen, e) then Pushed(Roomy(h), e) else h
    case DequeueOp(dst, sval) =>
      var i := NextEligible(h.q, dst, sval);
      if i < |h.q| then
        var k := KeyOf(h.q[i]);
        h.(q := Dequeued(h.q, dst, sval), handed := h.handed[k := HandedOut(h, k) + [Mark(sval)]])
      else h
    case DropOp(dst) =>
      h.(q := Filter(h.q, NotFor(dst)), dropped := h.dropped + Keys(Filter(h.q, ForOnly(dst))))
    case SetMaxLenOp(len) => h.(maxLen := len)
    case RemoveTagOp(i) => if i < |h.q| then h.(q := h.q[i := h.q[i].(tag := None)]) else h
  }

  function RunOps(maxLen: nat, ops: seq<Op>): History {
    if ops == [] then History([], maxLen, [], [], [], map[])
    else Apply(RunOps(maxLen, ops[..|ops| - 1]), ops[|ops| - 1])
  }

  ghost predicate OneEach(q: seq<QueueEntry>) {
    forall i, j :: 0 <= i < j < |q| ==> KeyOf(q[i]) != KeyOf(q[j])
  }

  /** The forwarding histories that lead to each status. */
  predicate Earned(s: Status, handed: seq<Status>) {
    match s
    case NOT_FORWARDED => handed == []
    case INACTIVE_FORWARDED => handed == [INACTIVE_FORWARDED]
    case ACTIVE_FORWARDED => handed == [ACTIVE_FORWARDED] || handed == [INACTIVE_FORWARDED, ACTIVE_FORWARDED]
  }

  ghost predicate AllEarned(h: History) {
    forall e :: e in h.q ==> Earned(e.status, HandedOut(h, KeyOf(e)))
  }

  /** `a` can be read off `b` by skipping elements. */
  ghost predicate Subsequence<T>(a: seq<T>, b: seq<T>) {
    if a == [] then true
    else
      && b != []
      && ((a[|a| - 1] == b[|b| - 1] && Subsequence(a[..|a| - 1], b[..|b| - 1])) || Subsequence(a, b[..|b| - 1]))
  }

  /** Every accepted packet is buffered, was evicted or was dropped -- exactly one of these. */
  ghost predicate Accounted(h: History) {
    multiset(h.accepted) == multiset(Keys(h.q)) + multiset(h.evicted) + multiset(h.dropped)
  }

  ghost predicate Sane(h: History) {
    OneEach(h.q) && AllEarned(h) && Accounted(h) && Subsequence(Keys(h.q), h.accepted)
  }

  lemma {:induction false} SubsequenceIsTransitive<T>(a: seq<T>, b: seq<T>, c: seq<T>)
    requires Subsequence(a, b) && Subsequence(b, c)
    ensures Subsequence(a, c)
    decreases |c|
  {
    if a != [] {
      var c' := c[..|c| - 1];
      if b[|b| - 1] == c[|c| - 1] && Subsequence(b[..|b| - 1], c') {
        if a[|a| - 1] == b[|b| - 1] && Subsequence(a[..|a| - 1], b[..|b| - 1]) {
          SubsequenceIsTransitive(a[..|a| - 1], b[..|b| - 1], c');
        } else {
          SubsequenceIsTransitive(a, b[..|b| - 1], c');
        }
      } else {
        SubsequenceIsTransitive(a, b, c');
      }
    }
  }

  lemma {:induction false} SubsequenceIsReflexive<T>(a: seq<T>)
    ensures Subsequence(a, a)
  {
    if a != [] {
      SubsequenceIsReflexive(a[..|a| - 1]);
    }
  }

  lemma SubsequenceAppend<T>(a: seq<T>, b: seq<T>, x: T)
    requires Subsequence(a, b)
    ensures Subsequence(a + [x], b + [x])
  {
  }

  lemma {:induction false} RemoveAtIsSubsequence<T>(s: seq<T>, i: nat)
    requires i < |s|
    ensures Subsequence(RemoveAt(s, i), s)
  {
    var init, x := s[..|s| - 1], s[|s| - 1];
    if i == |s| - 1 {
      assert RemoveAt(s, i) == init;
      SubsequenceIsReflexive(init);
      if init != [] {
        assert Subsequence(init, s[..|s| - 1]);
      }
    } else {
      RemoveAtIsSubsequence(init, i);
      assert RemoveAt(s, i) == RemoveAt(init, i) + [x];
      SubsequenceAppend(RemoveAt(init, i), init, x);
      assert init + [x] == s;
    }
  }

  lemma {:induction false} FilterKeysIsSubsequence(q: seq<QueueEntry>, p: QueueEntry -> bool)
    ensures Subsequence(Keys(Filter(q, p)), Keys(q))
  {
    if q != [] {
      var init, e := q[..|q| - 1], q[|q| - 1];
      FilterKeysIsSubsequence(init, p);
      assert Keys(q) == Keys(init) + [KeyOf(e)];
      if p(e) {
        assert Keys(Filter(q, p)) == Keys(Filter(init, p)) + [KeyOf(e)];
        SubsequenceAppend(Keys(Filter(init, p)), Keys(init), KeyOf(e));
      } else {
        assert Keys(q)[..|q| - 1] == Keys(init);
      }
    }
  }

  // ---------- each operation ----------

  lemma {:induction false} FilterIsOneEach(q: seq<QueueEntry>, p: QueueEntry -> bool)
    requires OneEach(q)
    ensures OneEach(Filter(q, p))
  {
    if q != [] {
      var init, e := q[..|q| - 1], q[|q| - 1];
      FilterIsOneEach(init, p);
      var kept := Filter(init, p);
      forall i | 0 <= i < |kept| ensures KeyOf(kept[i]) != KeyOf(e) {
        assert kept[i] in init;
      }
    }
  }

  lemma {:induction false} KeysPartition(q: seq<QueueEntry>, dst: Addr)
    ensures multiset(Keys(q)) == multiset(Keys(Filter(q, NotFor(dst)))) + multiset(Keys(Filter(q, ForOnly(dst))))
  {
    if q != [] {
      var init, e := q[..|q| - 1], q[|q| - 1];
      KeysPartition(init, dst);
      assert Keys(q) == Keys(init) + [KeyOf(e)];
      KeysAppend(Filter(init, NotFor(dst)), [e]);
      KeysAppend(Filter(init, ForOnly(dst)), [e]);
      assert Keys([e]) == [KeyOf(e)];
    }
  }

  lemma MovingAccounts(acc: multiset<Key>, q: multiset<Key>, ev: multiset<Key>, dr: multiset<Key>,
                       kept: multiset<Key>, lost: multiset<Key>, new_: multiset<Key>)
    requires acc == q + ev + dr && q == kept + lost
    ensures acc + new_ == (kept + new_) + (ev + lost) + dr
    ensures acc == kept + ev + (dr + lost)
  {
  }

  lemma DropIsSane(h: History, dst: Addr)
    requires Sane(h)
    ensures Sane(Apply(h, DropOp(dst)))
  {
    FilterIsOneEach(h.q, NotFor(dst));
    KeysPartition(h.q, dst);
    MovingAccounts(multiset(h.accepted), multiset(Keys(h.q)), multiset(h.evicted), multiset(h.dropped),
                   multiset(Keys(Filter(h.q, NotFor(dst)))), multiset(Keys(Filter(h.q, ForOnly(dst)))), multiset{});
    FilterKeysIsSubsequence(h.q, NotFor(dst));
    SubsequenceIsTransitive(Keys(Filter(h.q, NotFor(dst))), Keys(h.q), h.accepted);
  }

  lemma DequeuedEntry(q: seq<QueueEntry>, dst: Addr, sval: nat, j: nat)
    requires j < |q|
    ensures |Dequeued(q, dst, sval)| == |q|
    ensures KeyOf(Dequeued(q, dst, sval)[j]) == KeyOf(q[j])
    ensures Rank(q[j].status) <= Rank(Dequeued(q, dst, sval)[j].status)
    ensures j != NextEligible(q, dst, sval) ==> Dequeued(q, dst, sval)[j] == q[j]
  {
  }

  lemma DequeuedKeys(q: seq<QueueEntry>, dst: Addr, sval: nat)
    ensures Keys(Dequeued(q, dst, sval)) == Keys(q)
  {
  }

  lemma DequeuedIsEarned(h: History, dst: Addr, sval: nat)
    requires OneEach(h.q) && AllEarned(h)
    ensures AllEarned(Apply(h, DequeueOp(dst, sval)))
  {
    var h' := Apply(h, DequeueOp(dst, sval));
    var i := NextEligible(h.q, dst, sval);
    if i < |h.q| {
      assert h.q[i] in h.q;
      forall e | e in h'.q ensures Earned(e.status, HandedOut(h', KeyOf(e))) {
        var j :| 0 <= j < |h'.q| && h'.q[j] == e;
        DequeuedEntry(h.q, dst, sval, j);
        assert h.q[j] in h.q;
      }
    }
  }

  lemma DequeueIsSane(h: History, dst: Addr, sval: nat)
    requires Sane(h)
    ensures Sane(Apply(h, DequeueOp(dst, sval)))
  {
    DequeuedKeys(h.q, dst, sval);
    DequeuedIsEarned(h, dst, sval);
    forall j | 0 <= j < |h.q| ensures KeyOf(Dequeued(h.q, dst, sval)[j]) == KeyOf(h.q[j]) {
      DequeuedEntry(h.q, dst, sval, j);
    }
  }

  lemma RemovingAKey(q: seq<QueueEntry>, i: nat)
    requires i < |q|
    ensures var kept := RemoveAt(q, i);
            && Keys(kept) == RemoveAt(Keys(q), i)
            && multiset(Keys(q)) == multiset(Keys(kept)) + multiset{KeyOf(q[i])}
            && forall j :: 0 <= j < |kept| ==> kept[j] == q[if j < i then j else j + 1]
  {
    var ks, kept := Keys(q), RemoveAt(q, i);
    assert ks == ks[..i] + [ks[i]] + ks[i + 1..];
    assert forall j :: 0 <= j < |kept| ==> kept[j] == q[if j < i then j else j + 1];
    assert Keys(kept) == RemoveAt(ks, i);
  }

  lemma RemovingLosesKeys(q: seq<QueueEntry>, i: nat, k: Key)
    requires i < |q| && !HasKey(q, k)
    ensures !HasKey(RemoveAt(q, i), k)
  {
    var kept := RemoveAt(q, i);
    forall j | 0 <= j < |kept| ensures KeyOf(kept[j]) != k {
      assert kept[j] == q[if j < i then j else j + 1];
    }
  }

  /** What an Enqueue of the run does to the buffer is what the method does to its field. */
  lemma EnqueueOpEnqueues(h: History, uid: nat, dst: Addr, tag: Option<int>)
    ensures Apply(h, EnqueueOp(uid, dst, tag)).q == Enqueued(h.q, h.maxLen, Packet(uid, dst, tag))
  {
  }

  lemma RemovingIsOneEach(q: seq<QueueEntry>, i: nat)
    requires i < |q| && OneEach(q)
    ensures OneEach(RemoveAt(q, i))
  {
  }

  lemma RemovingIsEarned(h: History, i: nat)
    requires i < |h.q| && AllEarned(h)
    ensures AllEarned(h.(q := RemoveAt(h.q, i), evicted := h.evicted + [KeyOf(h.q[i])]))
  {
  }

  lemma MakingRoom(h: History)
    requires Sane(h) && |h.q| == h.maxLen && h.q != []
    ensures Sane(Roomy(h))
  {
    var i := Victim(h.q);
    RemovingAKey(h.q, i);
    RemovingIsOneEach(h.q, i);
    RemovingIsEarned(h, i);
    RemoveAtIsSubsequence(Keys(h.q), i);
    SubsequenceIsTransitive(RemoveAt(Keys(h.q), i), Keys(h.q), h.accepted);
    MovingAccounts(multiset(h.accepted), multiset(Keys(h.q)), multiset(h.evicted), multiset(h.dropped),
                   multiset(RemoveAt(Keys(h.q), i)), multiset{KeyOf(h.q[i])}, multiset{});
  }

  lemma PushedIsEarned(h: History, e: QueueEntry)
    requires AllEarned(h) && !HasKey(h.q, KeyOf(e)) && e.status == NOT_FORWARDED
    ensures AllEarned(Pushed(h, e))
  {
    forall x | x in h.q ensures KeyOf(x) != KeyOf(e) {
      KeyIsHad(h.q, x);
    }
  }

  lemma PushedIsOneEach(q: seq<QueueEntry>, e: QueueEntry)
    requires OneEach(q) && !HasKey(q, KeyOf(e))
    ensures OneEach(q + [e])
  {
  }

  lemma PushedKeys(q: seq<QueueEntry>, e: QueueEntry)
    ensures Keys(q + [e]) == Keys(q) + [KeyOf(e)]
  {
    KeysAppend(q, [e]);
    assert Keys([e]) == [KeyOf(e)];
  }

  lemma PushingAccounts(h: History, e: QueueEntry)
    requires Accounted(h)
    ensures Accounted(Pushed(h, e))
  {
    PushedKeys(h.q, e);
    MovingAccounts(multiset(h.accepted), multiset(Keys(h.q)), multiset(h.evicted), multiset(h.dropped),
                   multiset(Keys(h.q)), multiset{}, multiset{KeyOf(e)});
  }

  lemma PushingIsSubsequence(h: History, e: QueueEntry)
    requires Subsequence(Keys(h.q), h.accepted)
    ensures Subsequence(Keys(Pushed(h, e).q), Pushed(h, e).accepted)
  {
    PushedKeys(h.q, e);
    SubsequenceAppend(Keys(h.q), h.accepted, KeyOf(e));
  }

  lemma PushingIsSane(h: History, e: QueueEntry)
    requires Sane(h) && !HasKey(h.q, KeyOf(e)) && e.status == NOT_FORWARDED
    ensures Sane(Pushed(h, e))
  {
    PushedIsOneEach(h.q, e);
    PushedIsEarned(h, e);
    PushingAccounts(h, e);
    PushingIsSubsequence(h, e);
  }

  lemma EnqueueIsSane(h: History, uid: nat, dst: Addr, tag: Option<int>)
    requires Sane(h)
    ensures Sane(Apply(h, EnqueueOp(uid, dst, tag)))
  {
    var e := Packet(uid, dst, tag);
    if Accepts(h.q, h.maxLen, e) {
      var roomy := Roomy(h);
      assert Apply(h, EnqueueOp(uid, dst, tag)) == Pushed(roomy, e);
      if |h.q| == h.maxLen {
        MakingRoom(h);
        RemovingLosesKeys(h.q, Victim(h.q), KeyOf(e));
      }
      PushingIsSane(roomy, e);
    }
  }

  lemma RemoveTagIsSane(h: History, i: nat)
    requires Sane(h)
    ensures Sane(Apply(h, RemoveTagOp(i)))
  {
    if i < |h.q| {
      var h' := h.(q := h.q[i := h.q[i].(tag := None)]);
      assert Apply(h, RemoveTagOp(i)) == h';
      UntaggedIsSane(h, h');
    }
  }

  /** Everything but the tags stands. */
  lemma UntaggedIsSane(h: History, h': History)
    requires Sane(h) && h' == h.(q := h'.q) && |h'.q| == |h.q|
    requires forall j :: 0 <= j < |h.q| ==> h'.q[j] == h.q[j].(tag := h'.q[j].tag)
    ensures Sane(h')
  {
    assert Keys(h'.q) == Keys(h.q);
    forall j | 0 <= j < |h'.q| ensures KeyOf(h'.q[j]) == KeyOf(h.q[j]) && h'.q[j].status == h.q[j].status {
    }
    forall e | e in h'.q ensures Earned(e.status, HandedOut(h', KeyOf(e))) {
      var j :| 0 <= j < |h'.q| && h'.q[j] == e;
      assert h.q[j] in h.q;
    }
  }

  /**
   * Over every run: no packet is buffered twice for one destination, the buffer is a subsequence of what was accepted,
   * every accepted packet has exactly one fate, and while it stays buffered a packet has been handed out never, once
   * for an INACTIVE route, once for an ACTIVE one, or once for each in that order.
   */
  lemma {:induction false} EveryRunIsSane(maxLen: nat, ops: seq<Op>)
    ensures Sane(RunOps(maxLen, ops))
  {
    if ops != [] {
      EveryRunIsSane(maxLen, ops[..|ops| - 1]);
      var h := RunOps(maxLen, ops[..|ops| - 1]);
      match ops[|ops| - 1]
      case EnqueueOp(uid, dst, tag) => EnqueueIsSane(h, uid, dst, tag);
      case DequeueOp(dst, sval) => DequeueIsSane(h, dst, sval);
      case DropOp(dst) => DropIsSane(h, dst);
      case SetMaxLenOp(len) =>
      case RemoveTagOp(i) => RemoveTagIsSane(h, i);
    }
  }

  /** A buffer within its limit leaves it exactly when the limit is set below its size. */
  lemma LimitIsKeptExactly(h: History, op: Op)
    requires |h.q| <= h.maxLen
    ensures |Apply(h, op).q| <= Apply(h, op).maxLen <==> !(op.SetMaxLenOp? && op.len < |h.q|)
  {
  }

  /** The buffer was within its limit at every moment of the run. */
  ghost predicate AlwaysWithinLimit(maxLen: nat, ops: seq<Op>) {
    var h := RunOps(maxLen, ops);
    |h.q| <= h.maxLen && (ops != [] ==> AlwaysWithinLimit(maxLen, ops[..|ops| - 1]))
  }

  /** The run never set the limit below the number of packets buffered at that moment. */
  ghost predicate NeverCutShort(maxLen: nat, ops: seq<Op>) {
    ops != [] ==>
      && NeverCutShort(maxLen, ops[..|ops| - 1])
      && var op := ops[|ops| - 1]; !(op.SetMaxLenOp? && op.len < |RunOps(maxLen, ops[..|ops| - 1]).q|)
  }

  lemma {:induction false} EveryRunKeepsItsLimitExactly(maxLen: nat, ops: seq<Op>)
    ensures AlwaysWithinLimit(maxLen, ops) <==> NeverCutShort(maxLen, ops)
  {
    if ops != [] {
      EveryRunKeepsItsLimitExactly(maxLen, ops[..|ops| - 1]);
      var h := RunOps(maxLen, ops[..|ops| - 1]);
      if |h.q| <= h.maxLen {
        LimitIsKeptExactly(h, ops[|ops| - 1]);
      }
    }
  }

  /** Once over its limit, nothing holds the buffer back: each new packet is added without an eviction. */
  lemma OverfullBufferGrows(h: History, uid: nat, dst: Addr, tag: Option<int>)
    requires |h.q| > h.maxLen && !HasKey(h.q, (uid, dst))
    ensures var h' := Apply(h, EnqueueOp(uid, dst, tag)); |h'.q| == |h.q| + 1 && h'.evicted == h.evicted
  {
  }

  lemma SameKeySameEntry(q: seq<QueueEntry>, a: QueueEntry, b: QueueEntry)
    requires OneEach(q) && a in q && b in q && KeyOf(a) == KeyOf(b)
    ensures a == b
  {
  }

  lemma EnqueuedFrom(q: seq<QueueEntry>, maxLen: nat, n: QueueEntry, x: QueueEntry)
    requires x in Enqueued(q, maxLen, n)
    ensures x in q || (x == n && !HasKey(q, KeyOf(n)))
  {
  }

  lemma KeyIsHad(q: seq<QueueEntry>, e: QueueEntry)
    requires e in q
    ensures HasKey(q, KeyOf(e))
  {
  }

  /** No operation lowers the status of a packet that stays buffered. */
  lemma StatusOnlyRises(h: History, op: Op, e: QueueEntry, e': QueueEntry)
    requires OneEach(h.q) && e in h.q && e' in Apply(h, op).q && KeyOf(e) == KeyOf(e')
    ensures Rank(e.status) <= Rank(e'.status)
  {
    match op
    case EnqueueOp(uid, dst, tag) =>
      KeyIsHad(h.q, e);
      EnqueuedFrom(h.q, h.maxLen, Packet(uid, dst, tag), e');
      SameKeySameEntry(h.q, e, e');
    case DequeueOp(dst, sval) =>
      var j :| 0 <= j < |h.q| && Dequeued(h.q, dst, sval)[j] == e';
      DequeuedEntry(h.q, dst, sval, j);
      SameKeySameEntry(h.q, e, h.q[j]);
    case DropOp(dst) =>
      SameKeySameEntry(h.q, e, e');
    case SetMaxLenOp(len) =>
      SameKeySameEntry(h.q, e, e');
    case RemoveTagOp(i) =>
      var j :| 0 <= j < |h.q| && Apply(h, op).q[j] == e';
      SameKeySameEntry(h.q, e, h.q[j]);
  }
}
