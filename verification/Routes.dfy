/** Route entries, the binary-state route order, and the readings of the source that the model keeps apart. */
module Routes {

  /** An IPv4 address, ordered as `std::map` orders its keys. */
  type Addr = nat

  datatype RouteState = INACTIVE | ACTIVE

  const THRESHOLD: nat := 16

  /** The address a default-constructed `Ipv4Address` holds. */
  const UNSPECIFIED: Addr := 0x6666_6666

  const LOOPBACK: Addr := 0x7F00_0001

  /** A routing table entry as a value: the shared `Ipv4Route` pointer is flattened into its fields. */
  datatype Entry = Entry(dst: Addr, nextHop: Addr, hop: nat, state: RouteState)

  /** What `RoutingTableEntry ()` constructs, and what `operator[]` inserts for a missing key. */
  const DEFAULT_ENTRY: Entry := Entry(UNSPECIFIED, UNSPECIFIED, 0, ACTIVE)

  type Row = map<Addr, Entry>
  type Dvt = map<Addr, Row>

  datatype Option<+T> = None | Some(value: T)

  /**
   * The three places where the code and its own documentation part.  Each is a switch, so that a theorem can be
   * stated for the code as written, for the documented intent, or for both at once.
   */
  datatype Reading = Reading(
    installsBetter: bool,  // the table takes an alternative that is better (intent) or worse (as written)
    pushesAbsent: bool,    // a change is listed when it is not yet listed (intent) or when it already is (as written)
    writesExisting: bool   // an UPDATE from a neighbour that has a row is stored (intent) or ignored (as written)
  )

  const AS_WRITTEN: Reading := Reading(false, false, false)

  /** `isBetterRoute`: is `r2`, the new route, better than `r1`, the current one? */
  predicate IsBetterRoute(r1: Entry, r2: Entry) {
    match r2.state
    case ACTIVE => if r1.state == ACTIVE then r2.hop < r1.hop else r2.hop < THRESHOLD
    case INACTIVE => if r1.state == ACTIVE then r1.hop > THRESHOLD else r2.hop < r1.hop
  }

  /** Does the forwarding table replace `curr` by the alternative `cand`? */
  predicate Beats(rd: Reading, cand: Entry, curr: Entry) {
    if rd.installsBetter then IsBetterRoute(curr, cand) else IsBetterRoute(cand, curr)
  }

  /** The two fields the order looks at. */
  predicate SameValue(a: Entry, b: Entry) {
    a.hop == b.hop && a.state == b.state
  }

  predicate AtThreshold(e: Entry) {
    e.state == ACTIVE && e.hop == THRESHOLD
  }

  predicate Comparable(a: Entry, b: Entry) {
    IsBetterRoute(a, b) || IsBetterRoute(b, a)
  }

  lemma BeatsIsStrictPartialOrder(rd: Reading, a: Entry, b: Entry, c: Entry)
    ensures !Beats(rd, a, a)
    ensures Beats(rd, a, b) ==> !Beats(rd, b, a)
    ensures Beats(rd, a, b) && Beats(rd, b, c) ==> Beats(rd, a, c)
  {
  }

  /** The only ties: equal routes, and an ACTIVE route at exactly the threshold against any INACTIVE route. */
  lemma TiesExactly(a: Entry, b: Entry)
    ensures !Comparable(a, b) <==>
            SameValue(a, b) || (AtThreshold(a) && b.state == INACTIVE) || (AtThreshold(b) && a.state == INACTIVE)
  {
  }

  /**
   * Ties chain through `b`, which is what a strict weak order needs, except when `b` is an ACTIVE route at the
   * threshold sitting between two INACTIVE routes of different length.
   */
  lemma TiesChainExactly(a: Entry, b: Entry, c: Entry)
    requires !Comparable(a, b) && !Comparable(b, c)
    ensures Comparable(a, c) <==> AtThreshold(b) && a.state == INACTIVE && c.state == INACTIVE && a.hop != c.hop
  {
  }
}
