/** The list of current neighbours: expiry, closing and the link-failure callbacks. */
module NeighborList {
  import opened Collections
  import opened Routes

  const NO_MAC: nat := 0

  datatype Neighbor = Neighbor(addr: Addr, mac: nat, expire: int, close: bool)

  /** The `CloseNeighbor` predicate, negated. */
  function Open(now: int): Neighbor -> bool {
    (n: Neighbor) => !(n.expire < now || n.close)
  }

  function Shut(now: int): Neighbor -> bool {
    (n: Neighbor) => n.expire < now || n.close
  }

  function Addresses(nb: seq<Neighbor>): seq<Addr> {
    seq(|nb|, i requires 0 <= i < |nb| => nb[i].addr)
  }

  /** What Purge leaves. */
  function Survivors(nb: seq<Neighbor>, now: int): seq<Neighbor> {
    Filter(nb, Open(now))
  }

  /** The neighbours Purge reports as failed links, in the order of its callbacks. */
  function Failures(nb: seq<Neighbor>, now: int): seq<Addr> {
    Addresses(Filter(nb, Shut(now)))
  }

  predicate Lists(nb: seq<Neighbor>, a: Addr) {
    exists n :: n in nb && n.addr == a
  }

  function Renewed(n: Neighbor, expire: int, mac: nat): Neighbor {
    n.(expire := if expire > n.expire then expire else n.expire, mac := if n.mac == NO_MAC then mac else n.mac)
  }

  /** Where `a` is first listed, or the length of the list. */
  function IndexOf(nb: seq<Neighbor>, a: Addr): (i: nat)
    ensures i <= |nb|
    ensures i < |nb| ==> nb[i].addr == a
    ensures forall j :: 0 <= j < i ==> nb[j].addr != a
  {
    if nb == [] || nb[0].addr == a then 0 else 1 + IndexOf(nb[1..], a)
  }

  /** A listed neighbour is renewed in place; a new one goes to the back. */
  function Noted(nb: seq<Neighbor>, a: Addr, expire: int, now: int, mac: nat): seq<Neighbor> {
    var i := IndexOf(nb, a);
    if i < |nb| then nb[i := Renewed(nb[i], expire + now, mac)]
    else nb + [Neighbor(a, mac, expire + now, false)]
  }

  /** Update: adding a neighbour, unlike renewing one, also purges the list. */
  function Updated(nb: seq<Neighbor>, a: Addr, expire: int, now: int, mac: nat): seq<Neighbor> {
    var noted := Noted(nb, a, expire, now, mac);
    if IndexOf(nb, a) < |nb| then noted else Survivors(noted, now)
  }

  function UpdateFailures(nb: seq<Neighbor>, a: Addr, expire: int, now: int, mac: nat): seq<Addr> {
    if IndexOf(nb, a) < |nb| then [] else Failures(nb + [Neighbor(a, mac, expire + now, false)], now)
  }

  /** ProcessTxError closes every neighbour with the failing hardware address. */
  function Closed(nb: seq<Neighbor>, mac: nat): seq<Neighbor> {
    seq(|nb|, i requires 0 <= i < |nb| => if nb[i].mac == mac then nb[i].(close := true) else nb[i])
  }

  lemma AddressesPush(nb: seq<Neighbor>, n: Neighbor)
    ensures Addresses(nb + [n]) == Addresses(nb) + [n.addr]
  {
  }

  lemma FailuresPrefix(nb: seq<Neighbor>, j: nat, now: int)
    requires j < |nb|
    ensures Failures(nb[..j + 1], now) == Failures(nb[..j], now) + if Shut(now)(nb[j]) then [nb[j].addr] else []
  {
    FilterPrefix(nb, j, Shut(now));
    AddressesPush(Filter(nb[..j], Shut(now)), nb[j]);
  }

  class Neighbors {
    var nb: seq<Neighbor>
    var hasHandler: bool

    constructor (hasHandler: bool)
      ensures nb == [] && this.hasHandler == hasHandler
    {
      nb := [];
      this.hasHandler := hasHandler;
    }

    /** The part of Purge before anything is erased: the callbacks, in list order. */
    method ReportFailures(now: int) returns (failed: seq<Addr>)
      ensures failed == if hasHandler then Failures(nb, now) else []
    {
      failed := [];
      if hasHandler {
        var j := 0;
        while j < |nb|
          invariant 0 <= j <= |nb|
          invariant failed == Failures(nb[..j], now)
        {
          FailuresPrefix(nb, j, now);
          if nb[j].expire < now || nb[j].close {
            failed := failed + [nb[j].addr];
          }
          j := j + 1;
        }
        assert nb[..|nb|] == nb;
      }
    }

    /** `remove_if` and `erase`. */
    method EraseClosed(now: int)
      modifies this`nb
      ensures nb == Survivors(old(nb), now)
    {
      var kept, j := [], 0;
      while j < |nb|
        invariant 0 <= j <= |nb| && nb == old(nb)
        invariant kept == Survivors(nb[..j], now)
      {
        FilterPrefix(nb, j, Open(now));
        if !(nb[j].expire < now || nb[j].close) {
          kept := kept + [nb[j]];
        }
        j := j + 1;
      }
      assert nb[..|nb|] == nb;
      nb := kept;
    }

    /** `failed` lists the calls of the link-failure callback. */
    method Purge(now: int) returns (failed: seq<Addr>)
      modifies this`nb
      ensures nb == Survivors(old(nb), now)
      ensures failed == if hasHandler then Failures(old(nb), now) else []
    {
      if nb == [] {
        return [];
      }
      failed := ReportFailures(now);
      EraseClosed(now);
    }

    method FindIndex(a: Addr) returns (i: nat)
      ensures i == IndexOf(nb, a)
    {
      i := 0;
      while i < |nb| && nb[i].addr != a
        invariant i <= |nb|
        invariant IndexOf(nb, a) == i + IndexOf(nb[i..], a)
      {
        assert nb[i..][1..] == nb[i + 1..];
        i := i + 1;
      }
    }

    /** The part of Update before the purge. */
    method Note(a: Addr, expire: int, now: int, mac: nat) returns (added: bool)
      modifies this`nb
      ensures nb == Noted(old(nb), a, expire, now, mac)
      ensures added == (IndexOf(old(nb), a) == |old(nb)|)
    {
      var i := FindIndex(a);
      if i < |nb| {
        nb := nb[i := Renewed(nb[i], expire + now, mac)];
        return false;
      }
      nb := nb + [Neighbor(a, mac, expire + now, false)];
      return true;
    }

    method Update(a: Addr, expire: int, now: int, mac: nat) returns (failed: seq<Addr>)
      modifies this`nb
      ensures nb == Updated(old(nb), a, expire, now, mac)
      ensures failed == if hasHandler then UpdateFailures(old(nb), a, expire, now, mac) else []
    {
      failed := [];
      var added := Note(a, expire, now, mac);
      if added {
        failed := Purge(now);
      }
    }

    method IsNeighbor(a: Addr, now: int) returns (found: bool, failed: seq<Addr>)
      modifies this`nb
      ensures nb == Survivors(old(nb), now)
      ensures failed == if hasHandler then Failures(old(nb), now) else []
      ensures found <==> Lists(nb, a)
    {
      failed := Purge(now);
      var i := FindIndex(a);
      found := i < |nb|;
      assert found ==> nb[i] in nb;
    }

    /** The time left to a listed neighbour, or zero. */
    method GetExpireTime(a: Addr, now: int) returns (left: int, failed: seq<Addr>)
      modifies this`nb
      ensures nb == Survivors(old(nb), now)
      ensures failed == if hasHandler then Failures(old(nb), now) else []
      ensures var i := IndexOf(nb, a); left == if i < |nb| then nb[i].expire - now else 0
      ensures left >= 0
    {
      failed := Purge(now);
      var i := FindIndex(a);
      left := if i < |nb| then nb[i].expire - now else 0;
      assert i < |nb| ==> nb[i] in nb;
    }

    method ProcessTxError(mac: nat, now: int) returns (failed: seq<Addr>)
      modifies this`nb
      ensures nb == Survivors(Closed(old(nb), mac), now)
      ensures failed == if hasHandler then Failures(Closed(old(nb), mac), now) else []
    {
      var i := 0;
      while i < |nb|
        invariant 0 <= i <= |nb| == |old(nb)|
        invariant forall j :: 0 <= j < i ==> nb[j] == Closed(old(nb), mac)[j]
        invariant forall j :: i <= j < |nb| ==> nb[j] == old(nb)[j]
      {
        if nb[i].mac == mac {
          nb := nb[i := nb[i].(close := true)];
        }
        i := i + 1;
      }
      assert nb == Closed(old(nb), mac);
      failed := Purge(now);
    }
  }

  // ---------- over every run ----------

  datatype Op =
    | UpdateOp(a: Addr, expire: int, now: int, mac: nat)
    | PurgeOp(now: int)
    | TxErrorOp(mac: nat, now: int)

  /** The list, and what happened to neighbours so far: which were ever added, and which callbacks were made. */
  datatype History = History(nb: seq<Neighbor>, added: seq<Addr>, failed: seq<Addr>)

  function Apply(h: History, op: Op): History {
    match op
    case UpdateOp(a, expire, now, mac) =>
      History(Updated(h.nb, a, expire, now, mac),
              if IndexOf(h.nb, a) < |h.nb| then h.added else h.added + [a],
              h.failed + UpdateFailures(h.nb, a, expire, now, mac))
    case PurgeOp(now) => h.(nb := Survivors(h.nb, now), failed := h.failed + Failures(h.nb, now))
    case TxErrorOp(mac, now) =>
      var nb := Closed(h.nb, mac);
      h.(nb := Survivors(nb, now), failed := h.failed + Failures(nb, now))
  }

  function RunOps(ops: seq<Op>): History {
    if ops == [] then History([], [], []) else Apply(RunOps(ops[..|ops| - 1]), ops[|ops| - 1])
  }

  ghost predicate OneEach(nb: seq<Neighbor>) {
    forall i, j :: 0 <= i < j < |nb| ==> nb[i].addr != nb[j].addr
  }

  /** Addresses are listed once, and every neighbour ever added is still listed or was reported failed, exactly once. */
  ghost predicate Accounted(h: History) {
    && OneEach(h.nb)
    && multiset(h.added) == multiset(Addresses(h.nb)) + multiset(h.failed)
  }

  lemma {:induction false} PurgePartitions(nb: seq<Neighbor>, now: int)
    ensures multiset(Addresses(nb)) == multiset(Addresses(Survivors(nb, now))) + multiset(Failures(nb, now))
  {
    if nb != [] {
      var init, n := nb[..|nb| - 1], nb[|nb| - 1];
      PurgePartitions(init, now);
      assert nb == init + [n];
      AddressesPush(init, n);
      AddressesPush(Survivors(init, now), n);
      AddressesPush(Filter(init, Shut(now)), n);
    }
  }

  /** After Purge exactly the unexpired, unclosed neighbours remain, in order, and none of them was reported. */
  lemma PurgeIsExact(nb: seq<Neighbor>, now: int)
    requires OneEach(nb)
    ensures forall n :: n in Survivors(nb, now) <==> n in nb && n.expire >= now && !n.close
    ensures forall a :: a in Failures(nb, now) <==> exists n :: n in nb && n.addr == a && (n.expire < now || n.close)
    ensures forall n :: n in Survivors(nb, now) ==> n.addr !in Failures(nb, now)
    ensures Distinct(Failures(nb, now))
  {
    var shut := Filter(nb, Shut(now));
    FilterIsOneEach(nb, Shut(now));
    AddressesAreDistinct(shut);
    forall a ensures a in Failures(nb, now) <==> exists n :: n in nb && n.addr == a && (n.expire < now || n.close) {
      if n :| n in nb && n.addr == a && (n.expire < now || n.close) {
        assert n in shut;
        var i :| 0 <= i < |shut| && shut[i] == n;
        assert Failures(nb, now)[i] == a;
      }
      if a in Failures(nb, now) {
        var i :| 0 <= i < |shut| && Failures(nb, now)[i] == a;
        assert shut[i] in shut;
      }
    }
    forall n | n in Survivors(nb, now) ensures n.addr !in Failures(nb, now) {
      assert forall m :: m in nb && m.addr == n.addr ==> m == n;
    }
  }

  lemma {:induction false} FilterIsOneEach(nb: seq<Neighbor>, p: Neighbor -> bool)
    requires OneEach(nb)
    ensures OneEach(Filter(nb, p))
  {
    if nb != [] {
      var init, n := nb[..|nb| - 1], nb[|nb| - 1];
      FilterIsOneEach(init, p);
      var kept := Filter(init, p);
      forall i | 0 <= i < |kept| ensures kept[i].addr != n.addr {
        assert kept[i] in init;
      }
    }
  }

  lemma AddressesAreDistinct(nb: seq<Neighbor>)
    requires OneEach(nb)
    ensures Distinct(Addresses(nb))
  {
  }

  lemma AddingAccounts(h: History, n: Neighbor, now: int)
    requires Accounted(h) && forall i :: 0 <= i < |h.nb| ==> h.nb[i].addr != n.addr
    ensures Accounted(History(Survivors(h.nb + [n], now), h.added + [n.addr], h.failed + Failures(h.nb + [n], now)))
  {
    var longer := h.nb + [n];
    assert OneEach(longer);
    FilterIsOneEach(longer, Open(now));
    AddressesPush(h.nb, n);
    PurgePartitions(longer, now);
    MovingAccounts(multiset(h.added), multiset(Addresses(h.nb)), multiset(h.failed), multiset{n.addr},
                   multiset(Addresses(Survivors(longer, now))), multiset(Failures(longer, now)));
  }

  lemma MovingAccounts(added: multiset<Addr>, listed: multiset<Addr>, failed: multiset<Addr>, a: multiset<Addr>,
                       kept: multiset<Addr>, lost: multiset<Addr>)
    requires added == listed + failed && listed + a == kept + lost
    ensures added + a == kept + (failed + lost)
  {
    assert added + a == (listed + a) + failed;
  }

  lemma PurgingAccounts(h: History, nb: seq<Neighbor>, now: int)
    requires Accounted(h) && OneEach(nb) && Addresses(nb) == Addresses(h.nb)
    ensures Accounted(h.(nb := Survivors(nb, now), failed := h.failed + Failures(nb, now)))
  {
    PurgePartitions(nb, now);
    FilterIsOneEach(nb, Open(now));
    MovingAccounts(multiset(h.added), multiset(Addresses(h.nb)), multiset(h.failed), multiset{},
                   multiset(Addresses(Survivors(nb, now))), multiset(Failures(nb, now)));
  }

  lemma RenewingAccounts(h: History, i: nat, n: Neighbor)
    requires Accounted(h) && i < |h.nb| && n.addr == h.nb[i].addr
    ensures Accounted(h.(nb := h.nb[i := n]))
  {
    assert Addresses(h.nb[i := n]) == Addresses(h.nb);
  }

  lemma UpdatingAccounts(h: History, a: Addr, expire: int, now: int, mac: nat)
    requires Accounted(h)
    ensures Accounted(Apply(h, UpdateOp(a, expire, now, mac)))
  {
    var i := IndexOf(h.nb, a);
    if i < |h.nb| {
      RenewingAccounts(h, i, Renewed(h.nb[i], expire + now, mac));
      assert h.failed + [] == h.failed;
    } else {
      AddingAccounts(h, Neighbor(a, mac, expire + now, false), now);
    }
  }

  lemma ClosingAccounts(h: History, mac: nat, now: int)
    requires Accounted(h)
    ensures Accounted(Apply(h, TxErrorOp(mac, now)))
  {
    var nb := Closed(h.nb, mac);
    assert Addresses(nb) == Addresses(h.nb);
    PurgingAccounts(h, nb, now);
  }

  lemma ApplyAccounts(h: History, op: Op)
    requires Accounted(h)
    ensures Accounted(Apply(h, op))
  {
    match op
    case UpdateOp(a, expire, now, mac) => UpdatingAccounts(h, a, expire, now, mac);
    case PurgeOp(now) => PurgingAccounts(h, h.nb, now);
    case TxErrorOp(mac, now) => ClosingAccounts(h, mac, now);
  }

  lemma {:induction false} EveryRunIsAccounted(ops: seq<Op>)
    ensures Accounted(RunOps(ops))
  {
    if ops != [] {
      EveryRunIsAccounted(ops[..|ops| - 1]);
      ApplyAccounts(RunOps(ops[..|ops| - 1]), ops[|ops| - 1]);
    }
  }

  lemma SameAddressSameNeighbor(nb: seq<Neighbor>, n: Neighbor, m: Neighbor)
    requires OneEach(nb) && n in nb && m in nb && n.addr == m.addr
    ensures n == m
  {
  }

  /** A Hello of a listed neighbour extends its expiry to a full interval from now, unless it reaches further already. */
  lemma RenewalIsExact(nb: seq<Neighbor>, i: nat, expire: int, now: int, mac: nat)
    requires OneEach(nb) && i < |nb|
    ensures var nb' := Updated(nb, nb[i].addr, expire, now, mac);
            && |nb'| == |nb|
            && (forall j :: 0 <= j < |nb| && j != i ==> nb'[j] == nb[j])
            && nb'[i].addr == nb[i].addr && nb'[i].close == nb[i].close
            && nb'[i].expire >= now + expire && nb'[i].expire >= nb[i].expire
            && (nb'[i].expire == now + expire || nb'[i].expire == nb[i].expire)
            && nb'[i].mac == if nb[i].mac == 0 then mac else nb[i].mac
  {
    assert IndexOf(nb, nb[i].addr) == i;
  }

  /** A Hello of an unlisted neighbour lists it, open for a full interval from now, and purges. */
  lemma AdditionIsExact(nb: seq<Neighbor>, a: Addr, expire: int, now: int, mac: nat, n: Neighbor)
    requires forall i :: 0 <= i < |nb| ==> nb[i].addr != a
    ensures n in Updated(nb, a, expire, now, mac) <==>
            (n in nb || n == Neighbor(a, mac, now + expire, false)) && n.expire >= now && !n.close
  {
    assert IndexOf(nb, a) == |nb|;
  }

  /** A transmission error leaves exactly the open neighbours with other hardware addresses. */
  lemma TxErrorIsExact(nb: seq<Neighbor>, mac: nat, now: int, n: Neighbor)
    ensures n in Survivors(Closed(nb, mac), now) <==> n in nb && n.mac != mac && n.expire >= now && !n.close
  {
    var closed := Closed(nb, mac);
    if n in nb && n.mac != mac {
      var i :| 0 <= i < |nb| && nb[i] == n;
      assert closed[i] == n;
    }
    if n in closed && !n.close {
      var i :| 0 <= i < |closed| && closed[i] == n;
      assert nb[i] == n;
    }
  }

  /** While a neighbour stays listed, no operation shortens its expiry. */
  lemma ExpiryNeverDecreases(h: History, op: Op, n: Neighbor, n': Neighbor)
    requires Accounted(h)
    requires n in h.nb && n' in Apply(h, op).nb && n.addr == n'.addr
    ensures n'.expire >= n.expire
  {
    match op
    case UpdateOp(a, expire, now, mac) =>
      var k := IndexOf(h.nb, a);
      if k < |h.nb| {
        var j :| 0 <= j < |h.nb| && Updated(h.nb, a, expire, now, mac)[j] == n';
        SameAddressSameNeighbor(h.nb, n, h.nb[j]);
      } else {
        assert n' in h.nb + [Neighbor(a, mac, expire + now, false)];
        assert n' in h.nb;
        SameAddressSameNeighbor(h.nb, n, n');
      }
    case PurgeOp(now) =>
      SameAddressSameNeighbor(h.nb, n, n');
    case TxErrorOp(mac, now) =>
      var closed := Closed(h.nb, mac);
      var j :| 0 <= j < |closed| && closed[j] == n';
      SameAddressSameNeighbor(h.nb, n, h.nb[j]);
  }
}
