/** Localizing a schedule unit into query units (`GlobalPlanner.localize`,
    `makeUnaryQueryUnit`, `makeBinaryQueryUnit`, `assignEqualFragment`).
    The storage and query-manager lookups that produce each scan's
    fragments and fetch URIs are inputs here: for every scan the fragments
    of its table, the fetch URIs of its child's partitions and, for a RANGE
    child, those URIs already grouped by range in range order. */
module QueryUnits {
  import opened Base
  import opened Logical
  import opened RoundRobin
  import opened Hashing

  /** A fragment assigned to one scan of a query unit. */
  datatype Placed = Placed(side: Side, frag: Fragment)

  /** A query unit: the fragments and fetches it reads, per scan. */
  datatype QueryUnit = QueryUnit(fragments: seq<Placed>, fetches: seq<Fetch>)

  /** What `localize` knows of the child unit feeding a scan: its output
      type (unset is `None`) and whether it stores a GroupBy with no
      grouping columns. */
  datatype ChildInfo = ChildInfo(outType: Option<PartType>, zeroKeyGroupBy: bool)

  /** One scan of the unit being localized. */
  datatype ScanInput = ScanInput(
    local: bool,                 // reads a child unit's output
    child: Option<ChildInfo>,    // the child unit feeding it, if any
    frags: seq<Fragment>,        // fragments of the scanned table
    fetches: seq<string>,        // fetch URIs of the child's partitions
    ranges: seq<seq<string>>)    // those URIs grouped by range, in range order

  // ---------------------------------------------------------------------
  // Building query units from dealt buckets
  // ---------------------------------------------------------------------

  function PlaceAll(side: Side, fs: seq<Fragment>): (r: seq<Placed>)
    ensures |r| == |fs| && forall i | 0 <= i < |fs| :: r[i] == Placed(side, fs[i])
  {
    seq(|fs|, i requires 0 <= i < |fs| => Placed(side, fs[i]))
  }

  function TagAll(side: Side, us: seq<string>): (r: seq<Fetch>)
    ensures |r| == |us| && forall i | 0 <= i < |us| :: r[i] == Fetch(side, us[i])
  {
    seq(|us|, i requires 0 <= i < |us| => Fetch(side, us[i]))
  }

  /** One query unit per bucket, reading that bucket's fragments. */
  function FragmentUnits(side: Side, buckets: seq<seq<Fragment>>): (r: seq<QueryUnit>)
    ensures |r| == |buckets|
    ensures forall j | 0 <= j < |r| :: r[j] == QueryUnit(PlaceAll(side, buckets[j]), [])
  {
    seq(|buckets|, j requires 0 <= j < |buckets| => QueryUnit(PlaceAll(side, buckets[j]), []))
  }

  /** One query unit per bucket, fetching that bucket's URIs. */
  function FetchUnits(side: Side, buckets: seq<seq<string>>): (r: seq<QueryUnit>)
    ensures |r| == |buckets|
    ensures forall j | 0 <= j < |r| :: r[j] == QueryUnit([], TagAll(side, buckets[j]))
  {
    seq(|buckets|, j requires 0 <= j < |buckets| => QueryUnit([], TagAll(side, buckets[j])))
  }

  /** The contents of each unit when the dealt items are groups. */
  function Merge<T>(units: seq<seq<seq<T>>>): (r: seq<seq<T>>)
    ensures |r| == |units| && forall j | 0 <= j < |units| :: r[j] == Flatten(units[j])
  {
    seq(|units|, j requires 0 <= j < |units| => Flatten(units[j]))
  }

  /** The binary round robin's units: for each pair, the first scan's
      fragment then the second's. */
  function PairUnits(buckets: seq<seq<(Fragment, Fragment)>>): (r: seq<QueryUnit>)
    ensures |r| == |buckets|
    ensures forall j | 0 <= j < |r| :: r[j].fetches == [] && |r[j].fragments| == 2 * |buckets[j]|
  {
    seq(|buckets|, j requires 0 <= j < |buckets| => QueryUnit(PairPlaces(buckets[j]), []))
  }

  function PairPlaces(ps: seq<(Fragment, Fragment)>): (r: seq<Placed>)
    ensures |r| == 2 * |ps|
    ensures forall i | 0 <= i < |ps| :: r[2 * i] == Placed(Outer, ps[i].0) && r[2 * i + 1] == Placed(Inner, ps[i].1)
    decreases |ps|
  {
    if ps == [] then []
    else
      var p := |ps| - 1;
      PairPlaces(ps[..p]) + [Placed(Outer, ps[p].0), Placed(Inner, ps[p].1)]
  }

  /** `assignEqualFragment` for one scan: every unit also reads `frag`. */
  function WithFragment(units: seq<QueryUnit>, side: Side, frag: Fragment): (r: seq<QueryUnit>)
    ensures |r| == |units|
    ensures forall j | 0 <= j < |r| ::
      r[j].fetches == units[j].fetches && r[j].fragments == units[j].fragments + [Placed(side, frag)]
  {
    seq(|units|, j requires 0 <= j < |units| =>
      QueryUnit(units[j].fragments + [Placed(side, frag)], units[j].fetches))
  }

  /** `fragMap.get(scan).get(0)`: the table's first fragment, which a local
      scan shares among all its query units. */
  function FirstFragment(frags: seq<Fragment>): (r: Result<Fragment>)
    ensures r.Ok? <==> frags != []
    ensures r.Ok? ==> r.value == frags[0]
    ensures r.Err? ==> r.error == IndexOutOfBounds
  {
    if frags == [] then Err(IndexOutOfBounds) else Ok(frags[0])
  }

  // ---------------------------------------------------------------------
  // makeUnaryQueryUnit
  // ---------------------------------------------------------------------

  /** At most `n` query units, but one when the child stores a GroupBy
      without grouping columns (its single partition holds everything). */
  function MaxUnits(n: nat, scan: ScanInput): (r: nat)
    ensures scan.child.Some? && scan.child.value.zeroKeyGroupBy ==> r == 1
    ensures scan.child.None? || !scan.child.value.zeroKeyGroupBy ==> r == n
  {
    if scan.child.Some? && scan.child.value.zeroKeyGroupBy then 1 else n
  }

  /** `makeUnaryQueryUnit`: chooses the assignment by the child's output
      type and whether the scan is local. A local scan's units all share the
      table's first fragment. Without a child the fragments are dealt round
      robin. */
  function MakeUnary(n: nat, scan: ScanInput): (r: Result<seq<QueryUnit>>)
    ensures r.Ok? ==> |r.value| <= MaxUnits(n, scan)
    ensures scan.child.None? ==> (r.Err? <==> n == 0 && scan.frags != [])
    ensures scan.child.Some? && scan.child.value.outType.None? ==> r == Err(NullPointer)
    ensures scan.child.Some? && scan.child.value.outType == Some(Broadcast) ==> r == Err(NotImplemented)
    ensures scan.child.Some? && scan.child.value.outType == Some(Range) && !scan.local ==> r == Err(NullPointer)
    ensures (scan.child.Some? && scan.child.value.outType.Some? && scan.child.value.outType != Some(Broadcast)
             && scan.local && scan.frags == []) ==> r.Err?
    ensures r.Ok? && scan.child.Some? && scan.local ==>
      forall j | 0 <= j < |r.value| :: Placed(Outer, scan.frags[0]) in r.value[j].fragments
  {
    var max := MaxUnits(n, scan);
    if scan.child.None? then
      var us :- Deal(scan.frags, max);
      Ok(FragmentUnits(Outer, us))
    else match scan.child.value.outType
      case None => Err(NullPointer)
      case Some(Broadcast) => Err(NotImplemented)
      case Some(Hash) =>
        if scan.local then
          var us :- AssignByHash(scan.fetches, HashKey, max);
          var frag :- FirstFragment(scan.frags);
          Ok(WithFragment(FetchUnits(Outer, Merge(us)), Outer, frag))
        else
          var us :- AssignByHash(scan.frags, FileName, max);
          Ok(FragmentUnits(Outer, Merge(us)))
      case Some(Range) =>
        if scan.local then
          var us :- Deal(scan.ranges, max);
          var frag :- FirstFragment(scan.frags);
          Ok(WithFragment(FetchUnits(Outer, Merge(us)), Outer, frag))
        else Err(NullPointer)
      case Some(List) =>
        if scan.local then
          var us :- Deal(scan.fetches, max);
          var frag :- FirstFragment(scan.frags);
          Ok(WithFragment(FetchUnits(Outer, us), Outer, frag))
        else
          var us :- Deal(scan.frags, max);
          Ok(FragmentUnits(Outer, us))
  }

  lemma TagAllIn(side: Side, us: seq<string>, x: string)
    ensures Fetch(side, x) in TagAll(side, us) <==> x in us
  {
    if x in us {
      var i :| 0 <= i < |us| && us[i] == x;
      assert TagAll(side, us)[i] == Fetch(side, x);
    }
  }

  /** A unit with no child: the fragments are dealt round robin, fragment
      `k` to unit `Slot(k, n)`, over `Min(n, f)` units whose fragment counts
      differ by at most one. */
  lemma UnaryRoundRobin(n: nat, scan: ScanInput)
    requires n > 0 && scan.child.None?
    ensures MakeUnary(n, scan).Ok?
    ensures var u := MakeUnary(n, scan).value;
      |u| == Min(n, |scan.frags|)
      && (forall k | 0 <= k < |scan.frags| :: Slot(k, n) < |u| && Placed(Outer, scan.frags[k]) in u[Slot(k, n)].fragments)
      && (forall a, b | 0 <= a < |u| && 0 <= b < |u| :: |u[a].fragments| <= |u[b].fragments| + 1)
  {
    RoundRobinBalanced(scan.frags, n);
    var d := Deal(scan.frags, n).value;
    var u := MakeUnary(n, scan).value;
    forall k | 0 <= k < |scan.frags|
      ensures Slot(k, n) < |u| && Placed(Outer, scan.frags[k]) in u[Slot(k, n)].fragments
    {
      assert PlaceAll(Outer, d[Slot(k, n)])[Turn(k, n)] == Placed(Outer, scan.frags[k]);
    }
  }

  lemma UnaryLocalHash(n: nat, scan: ScanInput)
    requires scan.child.Some? && scan.child.value.outType == Some(Hash) && scan.local
    requires scan.frags != [] && MaxUnits(n, scan) > 0
    ensures AssignByHash(scan.fetches, HashKey, MaxUnits(n, scan)).Ok?
    ensures MakeUnary(n, scan)
         == Ok(WithFragment(FetchUnits(Outer, Merge(AssignByHash(scan.fetches, HashKey, MaxUnits(n, scan)).value)),
                            Outer, scan.frags[0]))
  {
  }

  /** A local scan over a HASH child: two fetches with the same hash key
      are fetched by the same query units, each fetch by at least one. */
  lemma UnaryHashGrouped(n: nat, scan: ScanInput, x: string, y: string)
    requires scan.child.Some? && scan.child.value.outType == Some(Hash) && scan.local
    requires scan.frags != [] && MaxUnits(n, scan) > 0
    requires x in scan.fetches && y in scan.fetches && HashKey(x) == HashKey(y)
    ensures MakeUnary(n, scan).Ok?
    ensures var u := MakeUnary(n, scan).value;
      (exists j | 0 <= j < |u| :: Fetch(Outer, x) in u[j].fetches)
      && forall j | 0 <= j < |u| :: Fetch(Outer, x) in u[j].fetches <==> Fetch(Outer, y) in u[j].fetches
  {
    var max := MaxUnits(n, scan);
    HashAssignment(scan.fetches, HashKey, max, x, y);
    var g := AssignByHash(scan.fetches, HashKey, max).value;
    UnaryLocalHash(n, scan);
    var u := WithFragment(FetchUnits(Outer, Merge(g)), Outer, scan.frags[0]);
    assert MakeUnary(n, scan) == Ok(u);
    forall j | 0 <= j < |u|
      ensures Fetch(Outer, x) in u[j].fetches <==> x in Flatten(g[j])
      ensures Fetch(Outer, y) in u[j].fetches <==> y in Flatten(g[j])
    {
      TagAllIn(Outer, Flatten(g[j]), x);
      TagAllIn(Outer, Flatten(g[j]), y);
    }
    forall j | 0 <= j < |u|
      ensures Fetch(Outer, x) in u[j].fetches <==> Fetch(Outer, y) in u[j].fetches
    {
      assert x in Flatten(g[j]) <==> y in Flatten(g[j]);
    }
    var j :| 0 <= j < |g| && x in Flatten(g[j]);
    assert Fetch(Outer, x) in u[j].fetches;
  }

  // ---------------------------------------------------------------------
  // makeBinaryQueryUnit
  // ---------------------------------------------------------------------

  /** `makeBinaryQueryUnit`. With a child, only a HASH child under a local
      first scan is implemented: matched hash groups are dealt round robin
      and every unit shares the first fragment of each scan; a RANGE child
      falls through the `switch` and yields no units at all. Without a
      child, the fragments of the two scans are paired by position and
      dealt round robin. */
  function MakeBinary(n: nat, outer: ScanInput, inner: ScanInput): (r: Result<seq<QueryUnit>>)
    ensures r.Ok? ==> |r.value| <= n
    ensures HasChild(outer, inner) && outer.child.None? ==> r == Err(NullPointer)
    ensures outer.child.Some? && outer.child.value.outType.None? ==> r == Err(NullPointer)
    ensures outer.child.Some? && outer.child.value.outType in {Some(Broadcast), Some(List)} ==> r == Err(NotImplemented)
    ensures outer.child.Some? && outer.child.value.outType == Some(Hash) && !outer.local ==> r == Err(NotImplemented)
    ensures outer.child.Some? && outer.child.value.outType == Some(Range) ==> r == Ok([])
    ensures !HasChild(outer, inner) ==>
      (r.Err? <==> |outer.frags| != |inner.frags| || (n == 0 && |outer.frags| > 0))
    ensures !HasChild(outer, inner) && |outer.frags| != |inner.frags| ==> r == Err(IllegalArgument)
    ensures r.Ok? && outer.child.Some? && r.value != [] ==>
      outer.frags != [] && inner.frags != [] && forall j | 0 <= j < |r.value| ::
        Placed(Outer, outer.frags[0]) in r.value[j].fragments && Placed(Inner, inner.frags[0]) in r.value[j].fragments
  {
    if HasChild(outer, inner) then
      if outer.child.None? then Err(NullPointer)
      else match outer.child.value.outType
        case None => Err(NullPointer)
        case Some(Broadcast) => Err(NotImplemented)
        case Some(Hash) =>
          if outer.local then
            var us :- AssignToBinaryByHash(outer.fetches, inner.fetches, n);
            EqualFragments(BinaryFetchUnits(us), outer.frags, inner.frags)
          else Err(NotImplemented)
        case Some(Range) => Ok([])
        case Some(List) => Err(NotImplemented)
    else
      var us :- BinaryRoundRobinAsWritten(outer.frags, inner.frags, n);
      Ok(PairUnits(us))
  }

  /** The unit that reads pair `k` when the cursor never moves: pair `k`
      opens unit `k` while there are fewer than `n` units, and every later
      pair goes to unit 0. */
  function StuckUnit(k: nat, n: nat): nat {
    if k < n then k else 0
  }

  /** A unit with no child: the pairs of fragments at the same position
      go to `Min(n, f)` units; unit `j > 0` reads only pair `j`, and unit 0
      reads pair 0 and every pair from `n` on. Every fragment of both scans
      is read, each by the unit `StuckUnit` names. */
  lemma BinaryRoundRobinUnits(n: nat, outer: ScanInput, inner: ScanInput)
    requires n > 0 && !HasChild(outer, inner) && |outer.frags| == |inner.frags|
    ensures MakeBinary(n, outer, inner).Ok?
    ensures var u := MakeBinary(n, outer, inner).value;
      |u| == Min(n, |outer.frags|)
      && (forall j | 0 < j < |u| ::
            u[j].fragments == [Placed(Outer, outer.frags[j]), Placed(Inner, inner.frags[j])])
      && (|u| > 0 ==> |u[0].fragments| == 2 * (if |outer.frags| > n then |outer.frags| - n + 1 else 1))
    ensures var u := MakeBinary(n, outer, inner).value;
      forall k | 0 <= k < |outer.frags| ::
        StuckUnit(k, n) < |u|
        && Placed(Outer, outer.frags[k]) in u[StuckUnit(k, n)].fragments
        && Placed(Inner, inner.frags[k]) in u[StuckUnit(k, n)].fragments
  {
    var f := |outer.frags|;
    var z := Zip(outer.frags, inner.frags);
    var us := BinaryRoundRobinAsWritten(outer.frags, inner.frags, n).value;
    var u := PairUnits(us);
    assert MakeBinary(n, outer, inner) == Ok(u);
    forall j | 0 < j < |u|
      ensures u[j].fragments == [Placed(Outer, outer.frags[j]), Placed(Inner, inner.frags[j])]
    {
      assert u[j].fragments == PairPlaces(us[j]);
    }
    forall k | 0 <= k < f
      ensures StuckUnit(k, n) < |u|
      ensures Placed(Outer, outer.frags[k]) in u[StuckUnit(k, n)].fragments
      ensures Placed(Inner, inner.frags[k]) in u[StuckUnit(k, n)].fragments
    {
      StuckPair(outer.frags, inner.frags, n, k);
      assert u[StuckUnit(k, n)].fragments == PairPlaces(us[StuckUnit(k, n)]);
    }
  }

  /** Pair `k` is read by unit `StuckUnit(k, n)` of the stuck dealing. */
  lemma StuckPair(outer: seq<Fragment>, inner: seq<Fragment>, n: nat, k: nat)
    requires n > 0 && |outer| == |inner| && k < |outer|
    ensures BinaryRoundRobinAsWritten(outer, inner, n).Ok?
    ensures var us := BinaryRoundRobinAsWritten(outer, inner, n).value;
      StuckUnit(k, n) < |us|
      && Placed(Outer, outer[k]) in PairPlaces(us[StuckUnit(k, n)])
      && Placed(Inner, inner[k]) in PairPlaces(us[StuckUnit(k, n)])
  {
    var z := Zip(outer, inner);
    var us := BinaryRoundRobinAsWritten(outer, inner, n).value;
    var ps := us[StuckUnit(k, n)];
    var i := if k < n then 0 else k - n + 1;
    if k >= n {
      assert ps == [z[0]] + z[n..];
      assert ps[i] == z[k];
    } else if k > 0 {
      assert ps == [z[k]];
    }
    assert ps[i] == (outer[k], inner[k]);
    assert PairPlaces(ps)[2 * i] == Placed(Outer, outer[k]);
    assert PairPlaces(ps)[2 * i + 1] == Placed(Inner, inner[k]);
  }

  /** `unit.hasChildQuery()`: some scan of the unit reads a child unit. */
  predicate HasChild(outer: ScanInput, inner: ScanInput) {
    outer.child.Some? || inner.child.Some?
  }

  /** One query unit per bucket of matched hash groups, fetching every URI
      of those groups from both scans. */
  function BinaryFetchUnits(buckets: seq<seq<seq<Fetch>>>): (r: seq<QueryUnit>)
    ensures |r| == |buckets|
    ensures forall j | 0 <= j < |r| :: r[j] == QueryUnit([], Flatten(buckets[j]))
  {
    seq(|buckets|, j requires 0 <= j < |buckets| => QueryUnit([], Flatten(buckets[j])))
  }

  /** The binary `assignEqualFragment`: every unit also reads the first
      fragment of each scan. With no unit, no fragment is looked up; with a
      unit and an empty fragment list, `List.get(0)` fails. */
  function EqualFragments(units: seq<QueryUnit>, outer: seq<Fragment>, inner: seq<Fragment>): (r: Result<seq<QueryUnit>>)
    ensures r.Err? <==> units != [] && (outer == [] || inner == [])
    ensures r.Ok? ==> |r.value| == |units| && forall j | 0 <= j < |units| ::
      r.value[j].fetches == units[j].fetches
      && r.value[j].fragments == units[j].fragments + [Placed(Outer, outer[0]), Placed(Inner, inner[0])]
  {
    if units == [] then Ok([])
    else if outer == [] || inner == [] then Err(IndexOutOfBounds)
    else Ok(WithFragment(WithFragment(units, Outer, outer[0]), Inner, inner[0]))
  }

  /** How many of the fragments `ps` are read by scan `side`. */
  function SideCount(ps: seq<Placed>, side: Side): (r: nat)
    ensures r <= |ps|
    decreases |ps|
  {
    if ps == [] then 0
    else SideCount(ps[..|ps| - 1], side) + (if ps[|ps| - 1].side == side then 1 else 0)
  }

  /** The binary `assignEqualFragment` adds exactly one fragment for each
      scan to every unit, and leaves its fetches alone. */
  lemma EqualFragmentsOnePerScan(units: seq<QueryUnit>, outer: seq<Fragment>, inner: seq<Fragment>)
    requires EqualFragments(units, outer, inner).Ok?
    ensures var r := EqualFragments(units, outer, inner).value;
      forall j | 0 <= j < |units| ::
        SideCount(r[j].fragments, Outer) == SideCount(units[j].fragments, Outer) + 1
        && SideCount(r[j].fragments, Inner) == SideCount(units[j].fragments, Inner) + 1
        && r[j].fetches == units[j].fetches
  {
    var r := EqualFragments(units, outer, inner).value;
    forall j | 0 <= j < |units|
      ensures SideCount(r[j].fragments, Outer) == SideCount(units[j].fragments, Outer) + 1
      ensures SideCount(r[j].fragments, Inner) == SideCount(units[j].fragments, Inner) + 1
    {
      var ps := units[j].fragments;
      var mid := ps + [Placed(Outer, outer[0])];
      assert r[j].fragments == mid + [Placed(Inner, inner[0])];
      assert mid[..|mid| - 1] == ps;
      assert (mid + [Placed(Inner, inner[0])])[..|mid|] == mid;
    }
  }

  // ---------------------------------------------------------------------
  // localize
  // ---------------------------------------------------------------------

  /** The dispatch at the end of `localize`: a unit with one scan is
      localized as unary, with two as binary; with any other number the
      unit list stays `null` and reading its size fails. */
  function Localize(n: nat, scans: seq<ScanInput>): (r: Result<seq<QueryUnit>>)
    ensures |scans| != 1 && |scans| != 2 ==> r == Err(NullPointer)
    ensures r.Ok? && |scans| == 1 ==> |r.value| <= MaxUnits(n, scans[0])
    ensures r.Ok? && |scans| == 2 ==> |r.value| <= n
    ensures 1 <= |scans| <= 2 && scans[0].child.Some? && scans[0].child.value.outType.None? ==> r == Err(NullPointer)
    ensures 1 <= |scans| <= 2 && scans[0].child.Some? && scans[0].child.value.outType == Some(Broadcast) ==>
      r == Err(NotImplemented)
    ensures |scans| == 1 && scans[0].child.None? ==> (r.Err? <==> n == 0 && scans[0].frags != [])
    ensures |scans| == 2 && !HasChild(scans[0], scans[1]) ==>
      (r.Err? <==> |scans[0].frags| != |scans[1].frags| || (n == 0 && scans[0].frags != []))
  {
    if |scans| == 1 then MakeUnary(n, scans[0])
    else if |scans| == 2 then MakeBinary(n, scans[0], scans[1])
    else Err(NullPointer)
  }

  /** A unit with no child reads every fragment of every scan: round robin
      deals each fragment of a single scan to some query unit, and pairs
      each fragment of two equally fragmented scans with its partner. */
  lemma LocalizeReadsAll(n: nat, scans: seq<ScanInput>)
    requires n > 0 && (|scans| == 1 || |scans| == 2) && forall i | 0 <= i < |scans| :: scans[i].child.None?
    requires |scans| == 2 ==> |scans[0].frags| == |scans[1].frags|
    ensures Localize(n, scans).Ok?
    ensures forall k | 0 <= k < |scans[0].frags| ::
      exists j | 0 <= j < |Localize(n, scans).value| :: Placed(Outer, scans[0].frags[k]) in Localize(n, scans).value[j].fragments
    ensures |scans| == 2 ==> forall k | 0 <= k < |scans[1].frags| ::
      exists j | 0 <= j < |Localize(n, scans).value| :: Placed(Inner, scans[1].frags[k]) in Localize(n, scans).value[j].fragments
  {
    if |scans| == 1 {
      UnaryRoundRobin(n, scans[0]);
      assert Localize(n, scans) == MakeUnary(n, scans[0]);
      var u := MakeUnary(n, scans[0]).value;
      forall k | 0 <= k < |scans[0].frags|
        ensures exists j | 0 <= j < |u| :: Placed(Outer, scans[0].frags[k]) in u[j].fragments
      {
        assert Placed(Outer, scans[0].frags[k]) in u[Slot(k, n)].fragments;
      }
    } else {
      BinaryRoundRobinUnits(n, scans[0], scans[1]);
      assert Localize(n, scans) == MakeBinary(n, scans[0], scans[1]);
      var u := MakeBinary(n, scans[0], scans[1]).value;
      forall k | 0 <= k < |scans[0].frags|
        ensures exists j | 0 <= j < |u| :: Placed(Outer, scans[0].frags[k]) in u[j].fragments
        ensures exists j | 0 <= j < |u| :: Placed(Inner, scans[1].frags[k]) in u[j].fragments
      {
        assert Placed(Outer, scans[0].frags[k]) in u[StuckUnit(k, n)].fragments;
        assert Placed(Inner, scans[1].frags[k]) in u[StuckUnit(k, n)].fragments;
      }
    }
  }
}
