/** Round-robin distribution of work items over at most `n` query units, the
    loop shared by `GlobalPlanner`'s `assignFragmentsByRoundRobin`,
    `assignFetchesByRoundRobin`, `assignFragmentsByHash` and the hash-fetch
    assigners: while fewer than `n` units exist each item opens a new unit;
    after that a cursor walks the units from the first, wrapping at the end.
    A unit is modelled by the sequence of items it received. */
module RoundRobin {
  import opened Base

  /** The loop state: the units so far and the cursor `i`. */
  datatype Dealt<T> = Dealt(units: seq<seq<T>>, cursor: nat)

  /** One turn of the loop for item `x`. With `advance` the cursor moves on
      after each use (`unitList.get(i++)`); without it the cursor stays where
      it is (`unitList.get(i)`). With no unit to reuse, `List.get` fails. */
  function DealStep<T>(d: Dealt<T>, x: T, n: nat, advance: bool): (r: Result<Dealt<T>>)
    ensures r.Err? <==> |d.units| >= n && d.cursor >= |d.units|
    ensures r.Ok? ==> |r.value.units| == if |d.units| < n then |d.units| + 1 else |d.units|
  {
    if |d.units| < n then Ok(Dealt(d.units + [[x]], d.cursor))
    else if d.cursor < |d.units| then
      var units := d.units[d.cursor := d.units[d.cursor] + [x]];
      if advance then
        var i := d.cursor + 1;
        Ok(Dealt(units, if i == |d.units| then 0 else i))
      else Ok(Dealt(units, d.cursor))
    else Err(IndexOutOfBounds)
  }

  /** The loop over all of `items`, first to last. */
  function DealAll<T>(items: seq<T>, n: nat, advance: bool): Result<Dealt<T>>
    decreases |items|
  {
    if items == [] then Ok(Dealt([], 0))
    else
      var d :- DealAll(items[..|items| - 1], n, advance);
      DealStep(d, items[|items| - 1], n, advance)
  }

  /** The units `items` are dealt into, cursor advancing: the unary
      round robin of `assignFragmentsByRoundRobin`. */
  function Deal<T>(items: seq<T>, n: nat): (r: Result<seq<seq<T>>>)
    ensures r.Err? <==> n == 0 && |items| > 0
    ensures r.Ok? ==> |r.value| == Min(n, |items|)
    ensures r.Ok? ==> forall j | 0 <= j < |r.value| :: r.value[j] == Picks(items, n, j)
  {
    DealAllSpec(items, n);
    var d :- DealAll(items, n, true);
    Ok(d.units)
  }

  // ---------------------------------------------------------------------
  // Reference definition: bucket j holds the items whose index is j mod n.
  // ---------------------------------------------------------------------

  /** `k mod n`, by repeated subtraction: the unit item `k` belongs to. */
  function Slot(k: nat, n: nat): (r: nat)
    requires n > 0
    ensures r < n && (k < n ==> r == k)
  {
    if k < n then k else Slot(k - n, n)
  }

  /** `k div n`: how many full rounds precede item `k`. */
  function Turn(k: nat, n: nat): (r: nat)
    requires n > 0
    ensures k < n <==> r == 0
  {
    if k < n then 0 else 1 + Turn(k - n, n)
  }

  /** Moving from item `x` to item `x + 1`: the slot steps on, wrapping to
      0 and starting a new round after the last unit. */
  lemma {:induction false} SlotNext(x: nat, n: nat)
    requires n > 0
    ensures Slot(x, n) + 1 < n ==> Slot(x + 1, n) == Slot(x, n) + 1 && Turn(x + 1, n) == Turn(x, n)
    ensures Slot(x, n) + 1 == n ==> Slot(x + 1, n) == 0 && Turn(x + 1, n) == Turn(x, n) + 1
  {
    if x >= n {
      SlotNext(x - n, n);
    } else if x + 1 == n {
      assert Slot(x + 1, n) == Slot(0, n);
      assert Turn(x + 1, n) == 1 + Turn(0, n);
    }
  }

  /** The items of `s` whose index is congruent to `j` modulo `n`, in order. */
  function Picks<T>(s: seq<T>, n: nat, j: nat): seq<T>
    requires n > 0
    decreases |s|
  {
    if s == [] then []
    else
      var p := |s| - 1;
      Picks(s[..p], n, j) + (if Slot(p, n) == j then [s[p]] else [])
  }

  /** The reference buckets: one per unit, `Min(n, |s|)` of them. */
  function Buckets<T>(s: seq<T>, n: nat): (r: seq<seq<T>>)
    requires n > 0
    ensures |r| == Min(n, |s|)
  {
    seq(Min(n, |s|), j requires 0 <= j < Min(n, |s|) => Picks(s, n, j))
  }

  lemma PicksEmpty<T>(s: seq<T>, n: nat, j: nat)
    requires |s| <= j < n
    ensures Picks(s, n, j) == []
    decreases |s|
  {
    if s != [] {
      PicksEmpty(s[..|s| - 1], n, j);
    }
  }

  /** The loop computes the reference buckets, and the cursor after `p`
      items (once all `n` units exist) is `Slot(p, n)`; with no unit allowed,
      the first item fails. */
  lemma {:induction false} DealAllSpec<T>(items: seq<T>, n: nat)
    ensures DealAll(items, n, true).Err? <==> n == 0 && |items| > 0
    ensures n > 0 ==> DealAll(items, n, true).Ok?
                      && DealAll(items, n, true).value.units == Buckets(items, n)
                      && DealAll(items, n, true).value.cursor == if |items| < n then 0 else Slot(|items|, n)
    decreases |items|
  {
    if items != [] {
      var p := |items| - 1;
      var s, x := items[..p], items[p];
      DealAllSpec(s, n);
      if n > 0 {
        var d := DealAll(s, n, true).value;
        assert DealAll(items, n, true) == DealStep(d, x, n, true);
        if p < n {
          DealGrow(items, n);
        } else {
          DealWrap(items, n);
        }
      }
    }
  }

  /** While there are fewer units than `n`, the next item opens a unit. */
  lemma DealGrow<T>(items: seq<T>, n: nat)
    requires 0 < |items| <= n
    ensures var p := |items| - 1;
      DealStep(Dealt(Buckets(items[..p], n), 0), items[p], n, true)
      == Ok(Dealt(Buckets(items, n), if |items| < n then 0 else Slot(|items|, n)))
  {
    var p := |items| - 1;
    var s, x := items[..p], items[p];
    var r := DealStep(Dealt(Buckets(s, n), 0), x, n, true);
    PicksEmpty(s, n, p);
    forall j | 0 <= j < p
      ensures Picks(items, n, j) == Picks(s, n, j)
    {
    }
    assert Picks(items, n, p) == [x];
    assert r.value.units == Buckets(items, n);
    if p + 1 == n {
      assert Slot(p + 1, n) == Slot(0, n);
    }
  }

  /** Once all `n` units are open, the next item goes to the unit under the
      cursor, and the cursor moves on to the next slot. */
  lemma DealWrap<T>(items: seq<T>, n: nat)
    requires 0 < n < |items|
    ensures var p := |items| - 1;
      DealStep(Dealt(Buckets(items[..p], n), Slot(p, n)), items[p], n, true)
      == Ok(Dealt(Buckets(items, n), Slot(|items|, n)))
  {
    var p := |items| - 1;
    var s, x := items[..p], items[p];
    var c := Slot(p, n);
    var before := Buckets(s, n);
    var after := before[c := before[c] + [x]];
    SlotNext(p, n);
    assert |before| == n;
    assert DealStep(Dealt(before, c), x, n, true)
        == Ok(Dealt(after, if c + 1 == n then 0 else c + 1));
    WrapBuckets(items, n);
  }

  /** With all `n` units open, item `p` lands in bucket `Slot(p, n)`. */
  lemma WrapBuckets<T>(items: seq<T>, n: nat)
    requires 0 < n < |items|
    ensures var p := |items| - 1; var before := Buckets(items[..p], n);
      before[Slot(p, n) := before[Slot(p, n)] + [items[p]]] == Buckets(items, n)
  {
    var p := |items| - 1;
    var s, x := items[..p], items[p];
    var c := Slot(p, n);
    var before := Buckets(s, n);
    var after := before[c := before[c] + [x]];
    assert |after| == |Buckets(items, n)| == n;
    forall j | 0 <= j < n
      ensures after[j] == Buckets(items, n)[j]
    {
      assert Picks(items, n, j) == Picks(s, n, j) + (if c == j then [x] else []);
    }
  }

  /** Bucket sizes: the first `|s| mod n` buckets get one item more than
      the quotient, the others exactly the quotient. */
  lemma {:induction false} PicksCount<T>(s: seq<T>, n: nat, j: nat)
    requires j < n
    ensures |Picks(s, n, j)| == Turn(|s|, n) + (if j < Slot(|s|, n) then 1 else 0)
    decreases |s|
  {
    if s != [] {
      var p := |s| - 1;
      PicksCount(s[..p], n, j);
      SlotNext(p, n);
    }
  }

  /** Item `k` is entry `Turn(k, n)` of bucket `Slot(k, n)`: every item is
      dealt, to exactly one place. */
  lemma {:induction false} PicksPosition<T>(s: seq<T>, n: nat, k: nat)
    requires n > 0 && k < |s|
    ensures Turn(k, n) < |Picks(s, n, Slot(k, n))| && Picks(s, n, Slot(k, n))[Turn(k, n)] == s[k]
    decreases |s|
  {
    var p := |s| - 1;
    if k < p {
      PicksPosition(s[..p], n, k);
    } else {
      PicksCount(s[..p], n, Slot(p, n));
    }
  }

  /** Unary round robin over `f` items: `Min(n, f)` units, none empty,
      sizes differing by at most one, item `k` in unit `Slot(k, n)`. */
  lemma RoundRobinBalanced<T>(items: seq<T>, n: nat)
    requires n > 0
    ensures Deal(items, n).Ok?
    ensures var u := Deal(items, n).value;
      (forall j | 0 <= j < |u| :: |u[j]| > 0)
      && (forall a, b | 0 <= a < |u| && 0 <= b < |u| :: |u[a]| <= |u[b]| + 1)
    ensures forall k | 0 <= k < |items| ::
      Slot(k, n) < |Deal(items, n).value| && Turn(k, n) < |Deal(items, n).value[Slot(k, n)]|
      && Deal(items, n).value[Slot(k, n)][Turn(k, n)] == items[k]
  {
    var u := Deal(items, n).value;
    forall j | 0 <= j < |u|
      ensures |u[j]| == Turn(|items|, n) + (if j < Slot(|items|, n) then 1 else 0)
    {
      PicksCount(items, n, j);
    }
    forall j | 0 <= j < |u|
      ensures |u[j]| > 0
    {
    }
    forall k | 0 <= k < |items|
      ensures Slot(k, n) < |u| && Turn(k, n) < |u[Slot(k, n)]| && u[Slot(k, n)][Turn(k, n)] == items[k]
    {
      PicksPosition(items, n, k);
    }
  }

  /** The concatenation of a unit's item lists, in the order received. */
  function Flatten<T>(ss: seq<seq<T>>): seq<T>
    decreases |ss|
  {
    if ss == [] then [] else Flatten(ss[..|ss| - 1]) + ss[|ss| - 1]
  }

  lemma FlattenSnoc<T>(ss: seq<seq<T>>, v: seq<T>)
    ensures Flatten(ss + [v]) == Flatten(ss) + v
  {
    assert (ss + [v])[..|ss|] == ss;
  }

  /** When each item is itself a list (a hash group), `x` is in the
      concatenated contents of unit `j` exactly when some list dealt to `j`
      holds it. */
  lemma {:induction false} PicksFlattenIn<T>(vs: seq<seq<T>>, n: nat, j: nat, x: T)
    requires n > 0
    ensures x in Flatten(Picks(vs, n, j)) <==> exists i | 0 <= i < |vs| :: Slot(i, n) == j && x in vs[i]
    decreases |vs|
  {
    if vs != [] {
      var p := |vs| - 1;
      PicksFlattenIn(vs[..p], n, j, x);
      var before := Flatten(Picks(vs[..p], n, j));
      if Slot(p, n) == j {
        assert Picks(vs, n, j) == Picks(vs[..p], n, j) + [vs[p]];
        FlattenSnoc(Picks(vs[..p], n, j), vs[p]);
        assert Flatten(Picks(vs, n, j)) == before + vs[p];
      } else {
        assert Picks(vs, n, j) == Picks(vs[..p], n, j) + [];
        assert Picks(vs[..p], n, j) + [] == Picks(vs[..p], n, j);
      }
      if x in Flatten(Picks(vs, n, j)) {
        if x !in Flatten(Picks(vs[..p], n, j)) {
          assert Slot(p, n) == j && x in vs[p];
        } else {
          var i :| 0 <= i < p && Slot(i, n) == j && x in vs[..p][i];
          assert vs[..p][i] == vs[i];
        }
      } else {
        forall i | 0 <= i < |vs| && Slot(i, n) == j
          ensures x !in vs[i]
        {
          if i < p {
            assert vs[..p][i] == vs[i];
          }
        }
      }
    }
  }

  // ---------------------------------------------------------------------
  // Binary round robin (two scans, fragments paired by position).
  // ---------------------------------------------------------------------

  function Zip<F>(a: seq<F>, b: seq<F>): (r: seq<(F, F)>)
    requires |a| == |b|
    ensures |r| == |a| && forall k | 0 <= k < |r| :: r[k] == (a[k], b[k])
  {
    seq(|a|, k requires 0 <= k < |a| => (a[k], b[k]))
  }

  /** The binary `assignFragmentsByRoundRobin` as written: the fragment
      lists of the two scans must have the same length, and the cursor is
      read but never advanced. */
  function BinaryRoundRobinAsWritten<F>(outer: seq<F>, inner: seq<F>, n: nat): (r: Result<seq<seq<(F, F)>>>)
    ensures |outer| != |inner| ==> r == Err(IllegalArgument)
    ensures r.Err? <==> |outer| != |inner| || (n == 0 && |outer| > 0)
    ensures r.Ok? ==> |r.value| == Min(n, |outer|)
    ensures r.Ok? ==> forall j | 0 < j < |r.value| :: r.value[j] == [(outer[j], inner[j])]
    ensures r.Ok? && |outer| > 0 ==>
      r.value[0] == [(outer[0], inner[0])] + (if |outer| > n then Zip(outer, inner)[n..] else [])
  {
    if |outer| != |inner| then Err(IllegalArgument)
    else
      var z := Zip(outer, inner);
      NoUnitFails(z, false);
      if n > 0 then StuckShape(z, n); DealtUnits(DealAll(z, n, false))
      else DealtUnits(DealAll(z, n, false))
  }

  function DealtUnits<T>(d: Result<Dealt<T>>): (r: Result<seq<seq<T>>>)
    ensures r.Ok? <==> d.Ok?
    ensures d.Err? ==> r.error == d.error
    ensures r.Ok? ==> r.value == d.value.units
  {
    var x :- d;
    Ok(x.units)
  }

  /** With no unit allowed, the first item already fails; no item, no unit. */
  lemma {:induction false} NoUnitFails<T>(items: seq<T>, advance: bool)
    ensures DealAll(items, 0, advance).Err? <==> |items| > 0
    ensures items == [] ==> DealAll(items, 0, advance) == Ok(Dealt([], 0))
    decreases |items|
  {
    if items != [] {
      var p := |items| - 1;
      NoUnitFails(items[..p], advance);
    }
  }

  /** The binary round robin with the cursor advancing, as in the unary
      version: pair `k` goes to unit `Slot(k, n)`. */
  function BinaryRoundRobin<F>(outer: seq<F>, inner: seq<F>, n: nat): (r: Result<seq<seq<(F, F)>>>)
    ensures r.Err? <==> |outer| != |inner| || (n == 0 && |outer| > 0)
    ensures r.Ok? ==> r == Deal(Zip(outer, inner), n)
  {
    if |outer| != |inner| then Err(IllegalArgument) else Deal(Zip(outer, inner), n)
  }

  /** With a cursor that never moves, the first unit receives every item
      past the first `n`; each other unit keeps the single item that opened
      it. */
  lemma {:induction false} StuckShape<T>(items: seq<T>, n: nat)
    requires n > 0
    ensures DealAll(items, n, false).Ok?
    ensures var d := DealAll(items, n, false).value;
      d.cursor == 0 && |d.units| == Min(n, |items|)
      && (forall j | 0 < j < |d.units| :: d.units[j] == [items[j]])
      && (|items| > 0 ==> d.units[0] == [items[0]] + (if |items| > n then items[n..] else []))
    decreases |items|
  {
    if items != [] {
      var p := |items| - 1;
      StuckShape(items[..p], n);
      if p >= n {
        assert items[..p][n..] + [items[p]] == items[n..];
      }
    }
  }

  /** The discrepancy: with more pairs than `n + 1`, the code as written
      puts `f - n + 1` pairs in unit 0 and one in unit 1, where the
      advancing cursor keeps every two units within one of each other. */
  lemma BinaryRoundRobinUnbalanced<F>(outer: seq<F>, inner: seq<F>, n: nat)
    requires 2 <= n && |outer| == |inner| && |outer| >= n + 2
    ensures var w := BinaryRoundRobinAsWritten(outer, inner, n);
      w.Ok? && |w.value| == n && |w.value[0]| == |outer| - n + 1 && |w.value[1]| == 1
      && |w.value[0]| > |w.value[1]| + 1
    ensures var c := BinaryRoundRobin(outer, inner, n);
      c.Ok? && |c.value| == n && forall a, b | 0 <= a < n && 0 <= b < n :: |c.value[a]| <= |c.value[b]| + 1
  {
    var z := Zip(outer, inner);
    StuckShape(z, n);
    RoundRobinBalanced(z, n);
  }
}
