/** Hash grouping of fetches and fragments (`hashFetches`, `hashFragments`)
    and the assignment of the groups to query units. A fetch is a URI
    string whose hash key is what follows its last `=`; a fragment is keyed
    by the name of its file. Groups live in a `TreeMap`, so they are visited
    in ascending key order; here that map is a list of groups kept sorted by
    key. */
module Hashing {
  import opened Base
  import opened RoundRobin

  // ---------------------------------------------------------------------
  // Keys
  // ---------------------------------------------------------------------

  /** `s.substring(s.lastIndexOf(c) + 1)`: what follows the last `c`, or all
      of `s` when it has none. */
  function After(s: string, c: char): (r: string)
    ensures |r| <= |s| && r == s[|s| - |r|..]
    ensures c !in r
    ensures |r| < |s| ==> s[|s| - |r| - 1] == c
    decreases |s|
  {
    if s == [] then []
    else if s[|s| - 1] == c then []
    else
      var t := After(s[..|s| - 1], c);
      assert s[|s| - |t| - 1..] == s[..|s| - 1][|s| - 1 - |t|..] + [s[|s| - 1]];
      t + [s[|s| - 1]]
  }

  /** The suffix `After` picks is the only one that is free of `c` and
      either is all of `s` or follows a `c`. */
  lemma {:induction false} AfterUnique(p: string, t: string, c: char)
    requires c !in t && (p == [] || p[|p| - 1] == c)
    ensures After(p + t, c) == t
    decreases |t|
  {
    var s := p + t;
    if t == [] {
      assert s == p;
    } else {
      var t' := t[..|t| - 1];
      assert s[..|s| - 1] == p + t';
      AfterUnique(p, t', c);
    }
  }

  /** The hash key of a fetch URI: the partition number after the last `=`. */
  function HashKey(uri: string): string {
    After(uri, '=')
  }

  /** A file fragment: the table it belongs to, the path of its file and
      the byte range it covers. */
  datatype Fragment = Fragment(table: string, path: string, start: nat, length: nat)

  /** `Path.getName`: the last component of the path. */
  function FileName(f: Fragment): string {
    After(f.path, '/')
  }

  // ---------------------------------------------------------------------
  // String order (`String.compareTo`)
  // ---------------------------------------------------------------------

  /** Lexicographic order on strings; a proper prefix comes first. */
  predicate Less(a: string, b: string)
    decreases |a|
  {
    if a == [] then b != []
    else if b == [] then false
    else if a[0] != b[0] then a[0] < b[0]
    else Less(a[1..], b[1..])
  }

  lemma {:induction false} LessIrreflexive(a: string)
    ensures !Less(a, a)
    decreases |a|
  {
    if a != [] {
      LessIrreflexive(a[1..]);
    }
  }

  lemma {:induction false} LessTransitive(a: string, b: string, c: string)
    requires Less(a, b) && Less(b, c)
    ensures Less(a, c)
    decreases |a|
  {
    if a != [] && a[0] == b[0] && b[0] == c[0] {
      LessTransitive(a[1..], b[1..], c[1..]);
    }
  }

  lemma {:induction false} LessTotal(a: string, b: string)
    ensures a == b || Less(a, b) || Less(b, a)
    decreases |a|
  {
    if a != [] && b != [] && a[0] == b[0] {
      LessTotal(a[1..], b[1..]);
      if a[1..] == b[1..] {
        assert a == [a[0]] + a[1..] && b == [b[0]] + b[1..];
      }
    }
  }

  // ---------------------------------------------------------------------
  // Sorted groups (the TreeMap)
  // ---------------------------------------------------------------------

  datatype Group<T> = Group(key: string, items: seq<T>)

  /** Keys strictly ascending: every key occurs once, in TreeMap order. */
  predicate Ascending<T>(gs: seq<Group<T>>) {
    forall i, j | 0 <= i < j < |gs| :: Less(gs[i].key, gs[j].key)
  }

  function KeySet<T>(gs: seq<Group<T>>): set<string> {
    set i | 0 <= i < |gs| :: gs[i].key
  }

  /** The items filed under `k`; none when `k` is absent (`TreeMap.get`). */
  function Lookup<T>(gs: seq<Group<T>>, k: string): seq<T> {
    if gs == [] then []
    else if gs[0].key == k then gs[0].items
    else Lookup(gs[1..], k)
  }

  function Values<T>(gs: seq<Group<T>>): (r: seq<seq<T>>)
    ensures |r| == |gs| && forall i | 0 <= i < |gs| :: r[i] == gs[i].items
  {
    seq(|gs|, i requires 0 <= i < |gs| => gs[i].items)
  }

  /** Files `x` under `k`: appended to the group of `k`, or a new group
      placed before the first greater key. */
  function Insert<T>(gs: seq<Group<T>>, k: string, x: T): seq<Group<T>>
    decreases |gs|
  {
    if gs == [] then [Group(k, [x])]
    else if gs[0].key == k then [Group(k, gs[0].items + [x])] + gs[1..]
    else if Less(k, gs[0].key) then [Group(k, [x])] + gs
    else [gs[0]] + Insert(gs[1..], k, x)
  }

  /** Insertion keeps the keys ascending and every group non-empty, adds
      `k` to the keys, and changes only the group of `k`, by appending `x`. */
  lemma InsertSpec<T>(gs: seq<Group<T>>, k: string, x: T)
    requires Ascending(gs)
    ensures var r := Insert(gs, k, x);
      Ascending(r) && KeySet(r) == KeySet(gs) + {k}
      && ((forall i | 0 <= i < |gs| :: gs[i].items != []) ==> forall i | 0 <= i < |r| :: r[i].items != [])
      && forall k' :: Lookup(r, k') == if k' == k then Lookup(gs, k) + [x] else Lookup(gs, k')
  {
    InsertAscending(gs, k, x);
    InsertKeys(gs, k, x);
    if forall i | 0 <= i < |gs| :: gs[i].items != [] {
      InsertNonEmpty(gs, k, x);
    }
    InsertLookup(gs, k, x);
  }

  lemma AscendingTail<T>(gs: seq<Group<T>>)
    requires Ascending(gs) && gs != []
    ensures Ascending(gs[1..])
  {
    var rest := gs[1..];
    forall i, j | 0 <= i < j < |rest|
      ensures Less(rest[i].key, rest[j].key)
    {
      assert rest[i] == gs[i + 1] && rest[j] == gs[j + 1];
    }
  }

  lemma KeySetCons<T>(g: Group<T>, gs: seq<Group<T>>)
    ensures KeySet([g] + gs) == {g.key} + KeySet(gs)
  {
    var r := [g] + gs;
    forall i | 0 <= i < |gs|
      ensures r[i + 1] == gs[i]
    {
    }
    assert r[0] == g;
  }

  lemma {:induction false} InsertKeys<T>(gs: seq<Group<T>>, k: string, x: T)
    ensures KeySet(Insert(gs, k, x)) == KeySet(gs) + {k}
    decreases |gs|
  {
    var r := Insert(gs, k, x);
    if gs == [] {
      assert r[0].key == k;
    } else if gs[0].key == k {
      KeySetCons(gs[0], gs[1..]);
      KeySetCons(r[0], gs[1..]);
      assert gs == [gs[0]] + gs[1..];
    } else if Less(k, gs[0].key) {
      KeySetCons(Group(k, [x]), gs);
    } else {
      InsertKeys(gs[1..], k, x);
      KeySetCons(gs[0], gs[1..]);
      KeySetCons(gs[0], Insert(gs[1..], k, x));
      assert gs == [gs[0]] + gs[1..];
    }
  }

  lemma {:induction false} InsertNonEmpty<T>(gs: seq<Group<T>>, k: string, x: T)
    requires forall i | 0 <= i < |gs| :: gs[i].items != []
    ensures var r := Insert(gs, k, x); forall i | 0 <= i < |r| :: r[i].items != []
    decreases |gs|
  {
    if gs != [] && gs[0].key != k && !Less(k, gs[0].key) {
      var rest := gs[1..];
      forall i | 0 <= i < |rest|
        ensures rest[i].items != []
      {
        assert rest[i] == gs[i + 1];
      }
      InsertNonEmpty(rest, k, x);
      var r := Insert(gs, k, x);
      forall i | 0 < i < |r|
        ensures r[i].items != []
      {
        assert r[i] == Insert(rest, k, x)[i - 1];
      }
    }
  }

  lemma {:induction false} InsertAscending<T>(gs: seq<Group<T>>, k: string, x: T)
    requires Ascending(gs)
    ensures Ascending(Insert(gs, k, x))
    decreases |gs|
  {
    var r := Insert(gs, k, x);
    if gs == [] {
    } else if gs[0].key == k {
      forall i, j | 0 <= i < j < |r|
        ensures Less(r[i].key, r[j].key)
      {
        assert r[i].key == gs[i].key && r[j].key == gs[j].key;
      }
    } else if Less(k, gs[0].key) {
      forall i, j | 0 <= i < j < |r|
        ensures Less(r[i].key, r[j].key)
      {
        if i == 0 && j > 1 {
          LessTransitive(k, gs[0].key, gs[j - 1].key);
        }
      }
    } else {
      var rest := gs[1..];
      AscendingTail(gs);
      InsertAscending(rest, k, x);
      InsertKeys(rest, k, x);
      var ri := Insert(rest, k, x);
      LessTotal(k, gs[0].key);
      forall m | 0 <= m < |ri|
        ensures Less(gs[0].key, ri[m].key)
      {
        var key := ri[m].key;
        assert key in KeySet(ri);
        if key != k {
          assert key in KeySet(rest);
          var q :| 0 <= q < |rest| && rest[q].key == key;
          assert rest[q] == gs[q + 1];
        }
      }
      ConsAscending(gs[0], ri);
    }
  }

  /** A group whose key is below every key of an ascending list can go in
      front of it. */
  lemma ConsAscending<T>(g: Group<T>, gs: seq<Group<T>>)
    requires Ascending(gs)
    requires forall m | 0 <= m < |gs| :: Less(g.key, gs[m].key)
    ensures Ascending([g] + gs)
  {
    var r := [g] + gs;
    forall i, j | 0 <= i < j < |r|
      ensures Less(r[i].key, r[j].key)
    {
      if i == 0 {
        assert r[j] == gs[j - 1];
      } else {
        assert r[i] == gs[i - 1] && r[j] == gs[j - 1];
      }
    }
  }

  lemma {:induction false} InsertLookup<T>(gs: seq<Group<T>>, k: string, x: T)
    requires Ascending(gs)
    ensures var r := Insert(gs, k, x);
      forall k' :: Lookup(r, k') == if k' == k then Lookup(gs, k) + [x] else Lookup(gs, k')
    decreases |gs|
  {
    var r := Insert(gs, k, x);
    if gs == [] {
    } else if gs[0].key == k {
      assert r[1..] == gs[1..];
    } else if Less(k, gs[0].key) {
      LookupAbsent(gs, k);
      assert r[1..] == gs;
    } else {
      AscendingTail(gs);
      InsertLookup(gs[1..], k, x);
      assert r[1..] == Insert(gs[1..], k, x);
    }
  }

  /** In ascending groups whose first key is above `k`, `k` has no group. */
  lemma LookupAbsent<T>(gs: seq<Group<T>>, k: string)
    requires Ascending(gs) && gs != [] && Less(k, gs[0].key)
    ensures Lookup(gs, k) == []
  {
    var i := 0;
    while i < |gs|
      invariant 0 <= i <= |gs|
      invariant Lookup(gs, k) == Lookup(gs[i..], k)
    {
      if i > 0 {
        LessTransitive(k, gs[0].key, gs[i].key);
      }
      LessIrreflexive(k);
      assert gs[i..][0] == gs[i] && gs[i..][1..] == gs[i + 1..];
      i := i + 1;
    }
  }

  /** In ascending groups, the group at position `i` is the one `Lookup`
      finds for its key. */
  lemma {:induction false} LookupAt<T>(gs: seq<Group<T>>, i: nat)
    requires Ascending(gs) && i < |gs|
    ensures Lookup(gs, gs[i].key) == gs[i].items
    decreases i
  {
    if i > 0 {
      var rest := gs[1..];
      LessIrreflexive(gs[0].key);
      assert gs[0].key != gs[i].key;
      assert Ascending(rest) by {
        forall a, b | 0 <= a < b < |rest|
          ensures Less(rest[a].key, rest[b].key)
        {
          assert rest[a] == gs[a + 1] && rest[b] == gs[b + 1];
        }
      }
      assert rest[i - 1] == gs[i];
      LookupAt(rest, i - 1);
    }
  }

  /** The items of `items` whose key is `k`, in order. */
  function Filter<T>(items: seq<T>, key: T -> string, k: string): seq<T>
    decreases |items|
  {
    if items == [] then []
    else
      var p := |items| - 1;
      Filter(items[..p], key, k) + (if key(items[p]) == k then [items[p]] else [])
  }

  lemma {:induction false} FilterIn<T>(items: seq<T>, key: T -> string, k: string, x: T)
    ensures x in Filter(items, key, k) <==> x in items && key(x) == k
    decreases |items|
  {
    if items != [] {
      var p := |items| - 1;
      FilterIn(items[..p], key, k, x);
      assert items == items[..p] + [items[p]];
    }
  }

  /** The TreeMap loop of `hashFetches` / `hashFragments`: each item, in
      order, is filed under its key. */
  function GroupAll<T>(items: seq<T>, key: T -> string): seq<Group<T>>
    decreases |items|
  {
    if items == [] then []
    else
      var p := |items| - 1;
      Insert(GroupAll(items[..p], key), key(items[p]), items[p])
  }

  /** The grouping is ascending by key, has a group exactly for the keys
      that occur, none of them empty, and files under each key exactly the
      items with that key, in input order. */
  lemma {:induction false} GroupAllSpec<T>(items: seq<T>, key: T -> string)
    ensures var gs := GroupAll(items, key);
      Ascending(gs)
      && (forall i | 0 <= i < |gs| :: gs[i].items != [])
      && (forall k :: Lookup(gs, k) == Filter(items, key, k))
      && (forall k :: k in KeySet(gs) <==> Filter(items, key, k) != [])
    decreases |items|
  {
    if items != [] {
      var p := |items| - 1;
      var gs0 := GroupAll(items[..p], key);
      GroupAllSpec(items[..p], key);
      InsertSpec(gs0, key(items[p]), items[p]);
    }
  }

  /** Every item of group `i` has key `gs[i].key` and belongs to `items`,
      and conversely. */
  lemma GroupMembers<T>(items: seq<T>, key: T -> string, i: nat, x: T)
    requires i < |GroupAll(items, key)|
    ensures var gs := GroupAll(items, key);
      x in gs[i].items <==> x in items && key(x) == gs[i].key
  {
    var gs := GroupAll(items, key);
    GroupAllSpec(items, key);
    LookupAt(gs, i);
    FilterIn(items, key, gs[i].key, x);
  }

  /** `hashFetches(List<URI>)`: fetch URIs grouped by hash key. */
  function HashFetches(uris: seq<string>): seq<Group<string>> {
    GroupAll(uris, HashKey)
  }

  /** `hashFragments(List<Fragment>)`: fragments grouped by file name. */
  function HashFragments(frags: seq<Fragment>): seq<Group<Fragment>> {
    GroupAll(frags, FileName)
  }

  // ---------------------------------------------------------------------
  // Assignment of groups to query units
  // ---------------------------------------------------------------------

  /** `assignFetchesToUnaryByHash` and `assignFragmentsByHash`: the groups,
      in key order, dealt round robin over at most `n` units. Each unit holds
      the groups it received. */
  function AssignByHash<T>(items: seq<T>, key: T -> string, n: nat): (r: Result<seq<seq<seq<T>>>>)
    ensures r.Err? <==> n == 0 && |items| > 0
    ensures r.Ok? ==> |r.value| <= n && |r.value| <= |items|
  {
    GroupCount(items, key);
    Deal(Values(GroupAll(items, key)), n)
  }

  /** There are no more groups than items, and at least one when there is
      an item. */
  lemma {:induction false} GroupCount<T>(items: seq<T>, key: T -> string)
    ensures |GroupAll(items, key)| <= |items|
    ensures |items| > 0 ==> |GroupAll(items, key)| > 0
    decreases |items|
  {
    if items != [] {
      var p := |items| - 1;
      GroupCount(items[..p], key);
      InsertSize(GroupAll(items[..p], key), key(items[p]), items[p]);
    }
  }

  lemma {:induction false} InsertSize<T>(gs: seq<Group<T>>, k: string, x: T)
    ensures |gs| <= |Insert(gs, k, x)| <= |gs| + 1
    decreases |gs|
  {
    if gs != [] && gs[0].key != k && !Less(k, gs[0].key) {
      InsertSize(gs[1..], k, x);
    }
  }

  /** Unary hash assignment: with `n > 0` every item lands in some unit,
      and an item is in unit `j` exactly when any other item with the same
      key is; so all fetches of one partition reach the same query unit. */
  lemma HashAssignment<T>(items: seq<T>, key: T -> string, n: nat, x: T, y: T)
    requires n > 0 && x in items && y in items && key(x) == key(y)
    ensures AssignByHash(items, key, n).Ok?
    ensures var u := AssignByHash(items, key, n).value;
      (exists j | 0 <= j < |u| :: x in Flatten(u[j]))
      && forall j | 0 <= j < |u| :: x in Flatten(u[j]) <==> y in Flatten(u[j])
  {
    var gs := GroupAll(items, key);
    var u := AssignByHash(items, key, n).value;
    GroupAllSpec(items, key);
    forall j | 0 <= j < |u|
      ensures x in Flatten(u[j]) <==> y in Flatten(u[j])
    {
      PicksFlattenIn(Values(gs), n, j, x);
      PicksFlattenIn(Values(gs), n, j, y);
      forall i | 0 <= i < |gs|
        ensures x in gs[i].items <==> y in gs[i].items
      {
        GroupMembers(items, key, i, x);
        GroupMembers(items, key, i, y);
      }
    }
    FilterIn(items, key, key(x), x);
    assert key(x) in KeySet(gs);
    var i :| 0 <= i < |gs| && gs[i].key == key(x);
    GroupMembers(items, key, i, x);
    PicksFlattenIn(Values(gs), n, Slot(i, n), x);
    assert x in Flatten(u[Slot(i, n)]);
  }

  // ---------------------------------------------------------------------
  // Binary hash assignment (a join over two hash-partitioned children)
  // ---------------------------------------------------------------------

  /** Which scan of a unit a fetch or fragment belongs to: the first
      (`Outer`) or the second (`Inner`); a unary unit has only `Outer`. */
  datatype Side = Outer | Inner

  datatype Fetch = Fetch(side: Side, uri: string)

  /** The fetches of both scans, each tagged with its scan. */
  function Tagged(outer: seq<string>, inner: seq<string>): (r: seq<Fetch>)
    ensures forall u :: Fetch(Outer, u) in r <==> u in outer
    ensures forall u :: Fetch(Inner, u) in r <==> u in inner
  {
    var o := seq(|outer|, i requires 0 <= i < |outer| => Fetch(Outer, outer[i]));
    var n := seq(|inner|, i requires 0 <= i < |inner| => Fetch(Inner, inner[i]));
    assert forall u | u in outer :: Fetch(Outer, u) in o by {
      forall u | u in outer
        ensures Fetch(Outer, u) in o
      {
        var i :| 0 <= i < |outer| && outer[i] == u;
        assert o[i] == Fetch(Outer, u);
      }
    }
    assert forall u | u in inner :: Fetch(Inner, u) in n by {
      forall u | u in inner
        ensures Fetch(Inner, u) in n
      {
        var i :| 0 <= i < |inner| && inner[i] == u;
        assert n[i] == Fetch(Inner, u);
      }
    }
    o + n
  }

  function FetchKey(f: Fetch): string {
    HashKey(f.uri)
  }

  /** A hash group holds fetches of both scans (`e.getValue().size() == 2`). */
  predicate HasBoth(items: seq<Fetch>) {
    (exists f | f in items :: f.side == Outer) && (exists f | f in items :: f.side == Inner)
  }

  /** The groups that have fetches on both sides, in order. */
  function Matched(gs: seq<Group<Fetch>>): (r: seq<Group<Fetch>>)
    ensures forall g | g in r :: g in gs && HasBoth(g.items)
    ensures forall g | g in gs && HasBoth(g.items) :: g in r
    decreases |gs|
  {
    if gs == [] then []
    else if HasBoth(gs[0].items) then [gs[0]] + Matched(gs[1..])
    else Matched(gs[1..])
  }

  lemma {:induction false} MatchedAscending(gs: seq<Group<Fetch>>)
    requires Ascending(gs)
    ensures Ascending(Matched(gs))
    decreases |gs|
  {
    if gs != [] {
      AscendingTail(gs);
      MatchedAscending(gs[1..]);
      var r := Matched(gs);
      var rest := Matched(gs[1..]);
      if HasBoth(gs[0].items) {
        forall m | 0 <= m < |rest|
          ensures Less(gs[0].key, rest[m].key)
        {
          assert rest[m] in rest;
          var q :| 0 <= q < |gs[1..]| && gs[1..][q] == rest[m];
          assert gs[q + 1] == rest[m];
        }
        ConsAscending(gs[0], rest);
      }
    }
  }

  /** `assignFetchesToBinaryByHash`: the fetches of both scans grouped by
      hash key in ascending order; only groups with fetches on both sides are
      dealt round robin over at most `n` units. */
  function AssignToBinaryByHash(outer: seq<string>, inner: seq<string>, n: nat): (r: Result<seq<seq<seq<Fetch>>>>)
    ensures r.Err? <==> n == 0 && |Matched(GroupAll(Tagged(outer, inner), FetchKey))| > 0
    ensures r.Ok? ==> |r.value| <= n
  {
    Deal(Values(Matched(GroupAll(Tagged(outer, inner), FetchKey))), n)
  }

  /** A key gets a query unit's worth of work exactly when both scans have
      a fetch with that key; the matched keys stay in ascending order, and
      each matched group holds every fetch of both scans with its key. */
  lemma BinaryHashMatched(outer: seq<string>, inner: seq<string>)
    ensures var gs := GroupAll(Tagged(outer, inner), FetchKey);
      var m := Matched(gs);
      Ascending(m)
      && (forall k :: k in KeySet(m) <==> Filter(outer, HashKey, k) != [] && Filter(inner, HashKey, k) != [])
      && (forall i | 0 <= i < |m| :: m[i].items == Filter(Tagged(outer, inner), FetchKey, m[i].key))
  {
    var gs := GroupAll(Tagged(outer, inner), FetchKey);
    GroupAllSpec(Tagged(outer, inner), FetchKey);
    MatchedAscending(gs);
    MatchedItems(outer, inner);
    MatchedKeys(outer, inner);
  }

  /** Each matched group holds every fetch with its key. */
  lemma MatchedItems(outer: seq<string>, inner: seq<string>)
    ensures var m := Matched(GroupAll(Tagged(outer, inner), FetchKey));
      forall i | 0 <= i < |m| :: m[i].items == Filter(Tagged(outer, inner), FetchKey, m[i].key)
  {
    var t := Tagged(outer, inner);
    var gs := GroupAll(t, FetchKey);
    var m := Matched(gs);
    GroupAllSpec(t, FetchKey);
    forall i | 0 <= i < |m|
      ensures m[i].items == Filter(t, FetchKey, m[i].key)
    {
      assert m[i] in m;
      var j :| 0 <= j < |gs| && gs[j] == m[i];
      LookupAt(gs, j);
    }
  }

  /** The matched keys are those both scans have a fetch for. */
  lemma MatchedKeys(outer: seq<string>, inner: seq<string>)
    ensures var m := Matched(GroupAll(Tagged(outer, inner), FetchKey));
      forall k :: k in KeySet(m) <==> Filter(outer, HashKey, k) != [] && Filter(inner, HashKey, k) != []
  {
    var m := Matched(GroupAll(Tagged(outer, inner), FetchKey));
    forall k
      ensures k in KeySet(m) <==> Filter(outer, HashKey, k) != [] && Filter(inner, HashKey, k) != []
    {
      BothSides(outer, inner, k);
      if k in KeySet(m) {
        MatchedKeyBoth(outer, inner, k);
      }
      if HasBoth(Filter(Tagged(outer, inner), FetchKey, k)) {
        BothKeyMatched(outer, inner, k);
      }
    }
  }

  lemma MatchedKeyBoth(outer: seq<string>, inner: seq<string>, k: string)
    requires k in KeySet(Matched(GroupAll(Tagged(outer, inner), FetchKey)))
    ensures HasBoth(Filter(Tagged(outer, inner), FetchKey, k))
  {
    var t := Tagged(outer, inner);
    var gs := GroupAll(t, FetchKey);
    var m := Matched(gs);
    GroupAllSpec(t, FetchKey);
    var i :| 0 <= i < |m| && m[i].key == k;
    assert m[i] in m;
    var j :| 0 <= j < |gs| && gs[j] == m[i];
    LookupAt(gs, j);
  }

  lemma BothKeyMatched(outer: seq<string>, inner: seq<string>, k: string)
    requires HasBoth(Filter(Tagged(outer, inner), FetchKey, k))
    ensures k in KeySet(Matched(GroupAll(Tagged(outer, inner), FetchKey)))
  {
    var t := Tagged(outer, inner);
    var gs := GroupAll(t, FetchKey);
    var m := Matched(gs);
    var f := Filter(t, FetchKey, k);
    var a :| a in f && a.side == Outer;
    assert f != [];
    GroupAllSpec(t, FetchKey);
    assert k in KeySet(gs);
    var j :| 0 <= j < |gs| && gs[j].key == k;
    LookupAt(gs, j);
    assert gs[j].items == f;
    assert gs[j] in gs && HasBoth(gs[j].items);
    assert gs[j] in m;
    var i :| 0 <= i < |m| && m[i] == gs[j];
    assert m[i].key == k;
  }

  /** The fetches filed under `k` come from both scans exactly when each
      scan has a fetch with hash key `k`. */
  lemma BothSides(outer: seq<string>, inner: seq<string>, k: string)
    ensures HasBoth(Filter(Tagged(outer, inner), FetchKey, k))
        <==> Filter(outer, HashKey, k) != [] && Filter(inner, HashKey, k) != []
  {
    var t := Tagged(outer, inner);
    var f := Filter(t, FetchKey, k);
    if HasBoth(f) {
      var a :| a in f && a.side == Outer;
      var b :| b in f && b.side == Inner;
      FilterIn(t, FetchKey, k, a);
      FilterIn(t, FetchKey, k, b);
      assert a == Fetch(Outer, a.uri) && b == Fetch(Inner, b.uri);
      FilterIn(outer, HashKey, k, a.uri);
      FilterIn(inner, HashKey, k, b.uri);
    }
    if Filter(outer, HashKey, k) != [] && Filter(inner, HashKey, k) != [] {
      var u := Filter(outer, HashKey, k)[0];
      var v := Filter(inner, HashKey, k)[0];
      FilterIn(outer, HashKey, k, u);
      FilterIn(inner, HashKey, k, v);
      FilterIn(t, FetchKey, k, Fetch(Outer, u));
      FilterIn(t, FetchKey, k, Fetch(Inner, v));
    }
  }
}
