/** The implicit join tree of `createImplicitJoinTree`: with a WHERE clause,
    the equi-join predicates form a join graph whose depth-first traversal
    fixes the order of a left-deep cross-join chain; the FROM tables the
    predicates do not mention are cross-joined on afterwards. */
module JoinOrder {
  import opened Base
  import opened Schemas
  import opened Logical
  import opened Joins
  import Cube

  /** A directed edge of the join graph; every join predicate adds both directions. */
  datatype Edge = Edge(src: string, target: string)

  /** A join predicate: an equality between two column references. */
  predicate IsJoinQual(e: Expr) {
    e.Binary? && e.op == Equal && e.left.Field? && e.right.Field?
  }

  /** `JoinTree.addJoin` applied to every join predicate of the CNF, in order. */
  function JoinGraph(cnf: seq<Expr>): seq<Edge> {
    if cnf == [] then []
    else
      var e := cnf[0];
      var here := if IsJoinQual(e)
        then [Edge(e.left.col.table, e.right.col.table), Edge(e.right.col.table, e.left.col.table)]
        else [];
      here + JoinGraph(cnf[1..])
  }

  /** The join graph is undirected, and empty exactly when no conjunct is a join predicate. */
  lemma {:induction false} JoinGraphSpec(cnf: seq<Expr>)
    ensures forall i | 0 <= i < |JoinGraph(cnf)| :: Edge(JoinGraph(cnf)[i].target, JoinGraph(cnf)[i].src) in JoinGraph(cnf)
    ensures JoinGraph(cnf) == [] <==> forall k | 0 <= k < |cnf| :: !IsJoinQual(cnf[k])
  {
    if cnf != [] {
      JoinGraphSpec(cnf[1..]);
      var e := cnf[0];
      var here := if IsJoinQual(e)
        then [Edge(e.left.col.table, e.right.col.table), Edge(e.right.col.table, e.left.col.table)]
        else [];
      var rest := JoinGraph(cnf[1..]);
      var g := JoinGraph(cnf);
      assert g == here + rest;
      assert forall k | 1 <= k < |cnf| :: cnf[k] == cnf[1..][k - 1];
      forall i | 0 <= i < |g| ensures Edge(g[i].target, g[i].src) in g {
        if i >= |here| {
          assert g[i] == rest[i - |here|];
          var j :| 0 <= j < |rest| && rest[j] == Edge(g[i].target, g[i].src);
          assert g[|here| + j] == rest[j];
        } else {
          assert g[1 - i] == Edge(g[i].target, g[i].src);
        }
      }
    }
  }

  /** `JoinTree.getTables`. */
  function Tables(g: seq<Edge>): set<string> {
    (set e | e in g :: e.src) + (set e | e in g :: e.target)
  }

  /** `JoinTree.getEdges(t)`: the edges leaving `t`, in insertion order. */
  function EdgesFrom(g: seq<Edge>, t: string): seq<Edge> {
    if g == [] then []
    else (if g[0].src == t then [g[0]] else []) + EdgesFrom(g[1..], t)
  }

  /** `getEdges(t)` returns exactly the edges of the graph that leave `t`. */
  lemma {:induction false} EdgesFromSpec(g: seq<Edge>, t: string)
    ensures forall k | 0 <= k < |EdgesFrom(g, t)| :: EdgesFrom(g, t)[k] in g && EdgesFrom(g, t)[k].src == t
    ensures forall e | e in g && e.src == t :: e in EdgesFrom(g, t)
  {
    if g != [] {
      EdgesFromSpec(g[1..], t);
      var r := EdgesFrom(g, t);
      var head: seq<Edge> := if g[0].src == t then [g[0]] else [];
      assert r == head + EdgesFrom(g[1..], t);
      forall k | 0 <= k < |r| ensures r[k] in g && r[k].src == t {
        if k >= |head| { assert r[k] == EdgesFrom(g[1..], t)[k - |head|]; }
      }
      forall e | e in g && e.src == t ensures e in r {
        if e != g[0] {
          var i :| 0 <= i < |g| && g[i] == e;
          assert g[1..][i - 1] == e;
        }
      }
    }
  }

  /** The edges of `es` the traversal records when it expands `t`: those whose
      target is neither visited nor `t` itself. */
  function Unvisited(es: seq<Edge>, visited: set<string>, t: string): seq<Edge> {
    if es == [] then []
    else
      (if es[0].target !in visited && es[0].target != t then [es[0]] else [])
        + Unvisited(es[1..], visited, t)
  }

  lemma {:induction false} UnvisitedSpec(es: seq<Edge>, visited: set<string>, t: string)
    ensures forall k | 0 <= k < |Unvisited(es, visited, t)| ::
      Unvisited(es, visited, t)[k] in es && Unvisited(es, visited, t)[k].target !in visited
      && Unvisited(es, visited, t)[k].target != t
    ensures forall e | e in es && e.target !in visited && e.target != t :: e in Unvisited(es, visited, t)
  {
    if es != [] {
      UnvisitedSpec(es[1..], visited, t);
      var r := Unvisited(es, visited, t);
      var head: seq<Edge> := if es[0].target !in visited && es[0].target != t then [es[0]] else [];
      assert r == head + Unvisited(es[1..], visited, t);
      forall k | 0 <= k < |r| ensures r[k] in es && r[k].target !in visited && r[k].target != t {
        if k >= |head| { assert r[k] == Unvisited(es[1..], visited, t)[k - |head|]; }
      }
      forall e | e in es && e.target !in visited && e.target != t ensures e in r {
        if e != es[0] {
          var i :| 0 <= i < |es| && es[i] == e;
          assert es[1..][i - 1] == e;
        }
      }
    }
  }

  function Targets(es: seq<Edge>): (r: seq<string>)
    ensures |r| == |es|
    ensures forall k | 0 <= k < |es| :: r[k] == es[k].target
  {
    seq(|es|, k requires 0 <= k < |es| => es[k].target)
  }

  /** The edges recorded while expanding `t` from the current `visited` set. */
  function Expand(g: seq<Edge>, visited: set<string>, t: string): seq<Edge> {
    Unvisited(EdgesFrom(g, t), visited + {t}, t)
  }

  lemma ExpandInGraph(g: seq<Edge>, visited: set<string>, t: string)
    ensures forall k | 0 <= k < |Expand(g, visited, t)| ::
      Expand(g, visited, t)[k] in g && Expand(g, visited, t)[k].src == t
      && Expand(g, visited, t)[k].target !in visited && Expand(g, visited, t)[k].target != t
  {
    var es := EdgesFrom(g, t);
    var r := Expand(g, visited, t);
    EdgesFromSpec(g, t);
    UnvisitedSpec(es, visited + {t}, t);
    forall k | 0 <= k < |r|
      ensures r[k] in g && r[k].src == t && r[k].target !in visited && r[k].target != t
    {
      assert r[k] in es;
      var m :| 0 <= m < |es| && es[m] == r[k];
    }
  }

  /** The traversal loop of `createCrossJoinFromJoinCondition`: pop the top of
      the stack, skip it if visited, otherwise mark it and push (and record) every
      edge to a table not yet visited. */
  function Dfs(g: seq<Edge>, stack: seq<string>, visited: set<string>, order: seq<Edge>): seq<Edge>
    requires forall k | 0 <= k < |stack| :: stack[k] in Tables(g)
    decreases Tables(g) - visited, |stack|
  {
    if stack == [] then order
    else
      var t := stack[|stack| - 1];
      var rest := stack[..|stack| - 1];
      if t in visited then Dfs(g, rest, visited, order)
      else
        var found := Expand(g, visited, t);
        ExpandInGraph(g, visited, t);
        assert forall k | 0 <= k < |found| :: found[k].target in Tables(g);
        Dfs(g, rest + Targets(found), visited + {t}, order + found)
  }

  /** Every recorded edge expands from the seed or from a table an earlier
      recorded edge reached: the join chain stays connected. */
  predicate Connected(seed: string, order: seq<Edge>) {
    forall i | 0 <= i < |order| ::
      order[i].src == seed || exists j | 0 <= j < i :: order[j].target == order[i].src
  }

  /** Some recorded edge leads to `n`. */
  predicate Reached(order: seq<Edge>, n: string) {
    exists j | 0 <= j < |order| :: order[j].target == n
  }

  /** No recorded edge leads back to a table expanded at or before it. */
  predicate NoBackEdge(order: seq<Edge>) {
    forall i, j | 0 <= j <= i < |order| :: order[i].target != order[j].src
  }

  lemma {:induction false} DfsExtends(g: seq<Edge>, stack: seq<string>, visited: set<string>, order: seq<Edge>)
    requires forall k | 0 <= k < |stack| :: stack[k] in Tables(g)
    ensures order <= Dfs(g, stack, visited, order)
    decreases Tables(g) - visited, |stack|
  {
    if stack != [] {
      var t := stack[|stack| - 1];
      var rest := stack[..|stack| - 1];
      if t in visited {
        DfsExtends(g, rest, visited, order);
      } else {
        var found := Expand(g, visited, t);
        ExpandInGraph(g, visited, t);
        DfsExtends(g, rest + Targets(found), visited + {t}, order + found);
      }
    }
  }

  lemma {:induction false} DfsEdges(g: seq<Edge>, stack: seq<string>, visited: set<string>, order: seq<Edge>)
    requires forall k | 0 <= k < |stack| :: stack[k] in Tables(g)
    requires forall i | 0 <= i < |order| :: order[i] in g && order[i].target != order[i].src
    ensures forall i | 0 <= i < |Dfs(g, stack, visited, order)| ::
      Dfs(g, stack, visited, order)[i] in g
      && Dfs(g, stack, visited, order)[i].target != Dfs(g, stack, visited, order)[i].src
    decreases Tables(g) - visited, |stack|
  {
    if stack != [] {
      var t := stack[|stack| - 1];
      var rest := stack[..|stack| - 1];
      if t in visited {
        DfsEdges(g, rest, visited, order);
      } else {
        var found := Expand(g, visited, t);
        ExpandInGraph(g, visited, t);
        DfsEdges(g, rest + Targets(found), visited + {t}, order + found);
      }
    }
  }

  lemma {:induction false} DfsConnected(g: seq<Edge>, stack: seq<string>, visited: set<string>, order: seq<Edge>, seed: string)
    requires forall k | 0 <= k < |stack| :: stack[k] in Tables(g)
    requires forall k | 0 <= k < |stack| ::
      stack[k] == seed || Reached(order, stack[k])
    requires Connected(seed, order)
    ensures Connected(seed, Dfs(g, stack, visited, order))
    decreases Tables(g) - visited, |stack|
  {
    if stack != [] {
      var t := stack[|stack| - 1];
      var rest := stack[..|stack| - 1];
      assert forall k | 0 <= k < |rest| :: rest[k] == stack[k];
      if t in visited {
        DfsConnected(g, rest, visited, order, seed);
      } else {
        var found := Expand(g, visited, t);
        ExpandInGraph(g, visited, t);
        var order' := order + found;
        var stack' := rest + Targets(found);
        assert t == seed || Reached(order, t);
        forall i | 0 <= i < |order'|
          ensures order'[i].src == seed || exists j | 0 <= j < i :: order'[j].target == order'[i].src
        {
          if i < |order| {
            assert order'[i] == order[i];
            if order[i].src != seed {
              var j :| 0 <= j < i && order[j].target == order[i].src;
              assert order'[j] == order[j];
            }
          } else {
            assert order'[i] == found[i - |order|];
            if t != seed {
              var j :| 0 <= j < |order| && order[j].target == t;
              assert order'[j] == order[j];
            }
          }
        }
        forall k | 0 <= k < |stack'|
          ensures stack'[k] == seed || Reached(order', stack'[k])
        {
          if k < |rest| {
            assert stack'[k] == stack[k];
            if stack[k] != seed {
              var j :| 0 <= j < |order| && order[j].target == stack[k];
              assert order'[j] == order[j];
            }
          } else {
            assert stack'[k] == found[k - |rest|].target;
            assert order'[|order| + (k - |rest|)] == found[k - |rest|];
          }
        }
        DfsConnected(g, stack', visited + {t}, order', seed);
      }
    }
  }

  lemma {:induction false} DfsNoBackEdge(g: seq<Edge>, stack: seq<string>, visited: set<string>, order: seq<Edge>)
    requires forall k | 0 <= k < |stack| :: stack[k] in Tables(g)
    requires forall j | 0 <= j < |order| :: order[j].src in visited
    requires NoBackEdge(order)
    ensures NoBackEdge(Dfs(g, stack, visited, order))
    decreases Tables(g) - visited, |stack|
  {
    if stack != [] {
      var t := stack[|stack| - 1];
      var rest := stack[..|stack| - 1];
      if t in visited {
        DfsNoBackEdge(g, rest, visited, order);
      } else {
        var found := Expand(g, visited, t);
        ExpandInGraph(g, visited, t);
        var order' := order + found;
        forall j | 0 <= j < |order'| ensures order'[j].src in visited + {t} {
          if j >= |order| { assert order'[j] == found[j - |order|]; }
        }
        forall i, j | 0 <= j <= i < |order'| ensures order'[i].target != order'[j].src {
          if i >= |order| {
            assert order'[i] == found[i - |order|];
            assert order'[j].src in visited + {t};
          }
        }
        DfsNoBackEdge(g, rest + Targets(found), visited + {t}, order');
      }
    }
  }

  /** The edges recorded when the seed, the first join predicate's left table,
      is popped: the first iteration of the traversal loop. */
  function SeedEdges(g: seq<Edge>): seq<Edge>
    requires g != []
  {
    Expand(g, {}, g[0].src)
  }

  lemma SeedEdgesSpec(g: seq<Edge>)
    requires g != []
    ensures forall k | 0 <= k < |SeedEdges(g)| ::
      SeedEdges(g)[k] in g && SeedEdges(g)[k].src == g[0].src && SeedEdges(g)[k].target != g[0].src
      && SeedEdges(g)[k].target in Tables(g)
    ensures SeedEdges(g) == [] <==> forall e | e in g && e.src == g[0].src :: e.target == g[0].src
  {
    var found := SeedEdges(g);
    ExpandInGraph(g, {}, g[0].src);
    EdgesFromSpec(g, g[0].src);
    UnvisitedSpec(EdgesFrom(g, g[0].src), {} + {g[0].src}, g[0].src);
    assert found != [] ==> found[0] in EdgesFrom(g, g[0].src);
  }

  lemma SeedStart(g: seq<Edge>)
    requires g != []
    ensures Connected(g[0].src, SeedEdges(g))
    ensures NoBackEdge(SeedEdges(g))
    ensures forall k | 0 <= k < |Targets(SeedEdges(g))| :: Reached(SeedEdges(g), Targets(SeedEdges(g))[k])
  {
    var found := SeedEdges(g);
    SeedEdgesSpec(g);
    forall i | 0 <= i < |found| ensures found[i].src == g[0].src {
    }
    forall i, j | 0 <= j <= i < |found| ensures found[i].target != found[j].src {
      assert found[j].src == g[0].src;
    }
    TargetsReached(found);
  }

  /** Every pushed table is the target of a recorded edge. */
  lemma TargetsReached(es: seq<Edge>)
    ensures forall k | 0 <= k < |Targets(es)| :: Reached(es, Targets(es)[k])
  {
    forall k | 0 <= k < |Targets(es)|
      ensures Reached(es, Targets(es)[k])
    {
      assert es[k].target == Targets(es)[k];
    }
  }

  /** The join order of the traversal seeded with the first join predicate's
      left table. The first iteration, which pops the seed from the one-element
      stack, is unrolled into `SeedEdges`. */
  function JoinOrderOf(g: seq<Edge>): seq<Edge>
    requires g != []
  {
    var found := SeedEdges(g);
    SeedEdgesSpec(g);
    Dfs(g, Targets(found), {g[0].src}, found)
  }

  /** Every recorded edge is a graph edge other than a self-loop, expands the
      seed or an already reached table, and never leads back to an expanded
      table (the seed included); nothing is recorded exactly when every edge
      out of the seed is a self-loop. */
  lemma JoinOrderSpec(g: seq<Edge>)
    requires g != []
    ensures forall i | 0 <= i < |JoinOrderOf(g)| :: JoinOrderOf(g)[i] in g && JoinOrderOf(g)[i].target != JoinOrderOf(g)[i].src
    ensures Connected(g[0].src, JoinOrderOf(g))
    ensures NoBackEdge(JoinOrderOf(g))
    ensures JoinOrderOf(g) != [] ==> JoinOrderOf(g)[0].src == g[0].src
    ensures forall i | 0 <= i < |JoinOrderOf(g)| :: JoinOrderOf(g)[i].target != g[0].src
    ensures JoinOrderOf(g) == [] <==> forall e | e in g && e.src == g[0].src :: e.target == g[0].src
  {
    var seed := g[0].src;
    var found := SeedEdges(g);
    var stack := Targets(found);
    SeedEdgesSpec(g);
    SeedStart(g);
    DfsEdges(g, stack, {seed}, found);
    DfsConnected(g, stack, {seed}, found, seed);
    DfsNoBackEdge(g, stack, {seed}, found);
    DfsExtends(g, stack, {seed}, found);
    assert found == [] ==> stack == [];
  }

  // ---------------------------------------------------------------------
  // Table lookups

  /** `fromTableMap`: table name to FROM entry; a later entry of the same
      name replaces an earlier one. */
  function FromMap(tables: seq<FromTable>): (m: map<string, FromTable>)
    ensures forall n | n in m :: m[n].name == n
    ensures forall n :: n in m <==> InFrom(tables, n)
    decreases |tables|
  {
    if tables == [] then map[]
    else
      var last := tables[|tables| - 1];
      var prefix := tables[..|tables| - 1];
      var pm := FromMap(prefix);
      assert forall n :: InFrom(tables, n) <==> InFrom(prefix, n) || n == last.name by {
        forall n ensures InFrom(tables, n) <==> InFrom(prefix, n) || n == last.name {
          if InFrom(tables, n) {
            var k :| 0 <= k < |tables| && tables[k].name == n;
            if k < |prefix| { assert prefix[k] == tables[k]; }
          }
          if InFrom(prefix, n) {
            var k :| 0 <= k < |prefix| && prefix[k].name == n;
            assert tables[k] == prefix[k];
          }
        }
      }
      pm[last.name := last]
  }

  /** The distinct FROM table names, in order of first appearance, skipping `seen`. */
  function DistinctNames(tables: seq<FromTable>, seen: set<string>): (r: seq<string>)
    ensures Cube.Distinct(r)
    ensures forall n :: n in r <==> n !in seen && InFrom(tables, n)
    decreases |tables|
  {
    if tables == [] then []
    else
      InFromCons(tables);
      if tables[0].name in seen then DistinctNames(tables[1..], seen)
      else [tables[0].name] + DistinctNames(tables[1..], seen + {tables[0].name})
  }

  lemma InFromCons(tables: seq<FromTable>)
    requires tables != []
    ensures forall n :: InFrom(tables, n) <==> tables[0].name == n || InFrom(tables[1..], n)
  {
    forall n ensures InFrom(tables, n) <==> tables[0].name == n || InFrom(tables[1..], n) {
      if InFrom(tables, n) && tables[0].name != n {
        var k :| 0 <= k < |tables| && tables[k].name == n;
        assert tables[1..][k - 1] == tables[k];
      }
      if InFrom(tables[1..], n) {
        var k :| 0 <= k < |tables[1..]| && tables[1..][k].name == n;
        assert tables[k + 1] == tables[1..][k];
      }
    }
  }

  /** `names` without the members of `drop`, order kept. */
  function Without(names: seq<string>, drop: set<string>): (r: seq<string>)
    ensures forall n :: n in r <==> n in names && n !in drop
    ensures Cube.Distinct(names) ==> Cube.Distinct(r)
  {
    if names == [] then []
    else (if names[0] in drop then [] else [names[0]]) + Without(names[1..], drop)
  }

  function Lookup(names: seq<string>, m: map<string, FromTable>): (r: seq<FromTable>)
    requires forall k | 0 <= k < |names| :: names[k] in m
    ensures |r| == |names|
    ensures forall k | 0 <= k < |names| :: r[k] == m[names[k]]
  {
    seq(|names|, k requires 0 <= k < |names| => m[names[k]])
  }

  function Refs(names: seq<string>): (r: seq<TableRef>)
    ensures |r| == |names|
    ensures forall k | 0 <= k < |names| :: r[k] == Named(names[k])
  {
    seq(|names|, k requires 0 <= k < |names| => Named(names[k]))
  }

  /** Scans `head[0]`, cross-joins the rest of `head`, then every name of
      `remain`. A name missing from the FROM map is a null table. */
  function Assemble(m: map<string, FromTable>, head: seq<string>, remain: seq<string>): (r: Result<Node>)
    requires head != []
    requires forall n | n in m :: m[n].name == n
    requires forall k | 0 <= k < |remain| :: remain[k] in m
    ensures r.Ok? <==> forall k | 0 <= k < |head| :: head[k] in m
    ensures r.Ok? ==> CrossSpine(r.value)
    ensures r.Ok? ==> Leaves(r.value) == Refs(head + remain)
  {
    if exists k | 0 <= k < |head| :: head[k] !in m then Err(NullPointer)
    else
      var hs := Lookup(head, m);
      var rs := Lookup(remain, m);
      var joined := CrossChain(ScanOf(hs[0]), hs[1..]);
      ChainOfScans(hs, rs);
      LookupNames(m, head);
      LookupNames(m, remain);
      RefsAppend(head, remain);
      Ok(CrossChain(joined, rs))
  }

  /** The tables looked up for a list of names are named by that list. */
  lemma LookupNames(m: map<string, FromTable>, names: seq<string>)
    requires forall n | n in m :: m[n].name == n
    requires forall k | 0 <= k < |names| :: names[k] in m
    ensures Names(Lookup(names, m)) == Refs(names)
  {
    var a := Names(Lookup(names, m));
    assert forall k | 0 <= k < |names| :: a[k] == Refs(names)[k];
  }

  lemma RefsAppend(a: seq<string>, b: seq<string>)
    ensures Refs(a + b) == Refs(a) + Refs(b)
  {
    var x := Refs(a + b);
    var y := Refs(a) + Refs(b);
    forall k | 0 <= k < |x|
      ensures x[k] == y[k]
    {
      if k >= |a| {
        assert (a + b)[k] == b[k - |a|];
      }
    }
  }

  /** Cross-joining the scans of `hs`, then of `rs`, onto the first scan. */
  lemma ChainOfScans(hs: seq<FromTable>, rs: seq<FromTable>)
    requires hs != []
    ensures CrossSpine(CrossChain(CrossChain(ScanOf(hs[0]), hs[1..]), rs))
    ensures Leaves(CrossChain(CrossChain(ScanOf(hs[0]), hs[1..]), rs)) == Names(hs) + Names(rs)
  {
    var base := ScanOf(hs[0]);
    var joined := CrossChain(base, hs[1..]);
    assert CrossSpine(base);
    CrossChainIsCross(base, hs[1..]);
    CrossChainIsCross(joined, rs);
    CrossChainLeaves(base, hs[1..]);
    CrossChainLeaves(joined, rs);
    assert Leaves(base) == [Named(hs[0].name)];
    NamesCons(hs);
  }

  // ---------------------------------------------------------------------
  // createCrossJoinFromJoinCondition

  /** The code as written: every table of the join graph is removed from the
      remaining tables, and each recorded edge's target is scanned. */
  function CrossJoinFromJoinConditionAsWritten(tables: seq<FromTable>, cnf: seq<Expr>): (r: Result<Node>)
    ensures r.Ok? ==> CrossSpine(r.value)
    ensures r.Ok? ==> forall n :: Named(n) in Leaves(r.value) ==> InFrom(tables, n)
    ensures (forall k | 0 <= k < |cnf| :: !IsJoinQual(cnf[k])) ==>
      (r.Ok? <==> |tables| >= 1)
      && (r.Ok? ==> Cube.Distinct(Leaves(r.value)) && forall n :: Named(n) in Leaves(r.value) <==> InFrom(tables, n))
  {
    var g := JoinGraph(cnf);
    JoinGraphSpec(cnf);
    if g == [] then FromAllTables(tables)
    else
      var order := JoinOrderOf(g);
      if order == [] then Err(IndexOutOfBounds)
      else
        var head := [order[0].src] + Targets(order);
        var remain := Without(DistinctNames(tables, {}), Tables(g));
        NamesInMap(tables);
        var r := Assemble(FromMap(tables), head, remain);
        if r.Ok? then
          RefsMembers(head + remain);
          r
        else r
  }

  /** The join targets of `order` in order, each table once, skipping `seen`. */
  function FirstReached(order: seq<Edge>, seen: set<string>): (r: seq<string>)
    ensures Cube.Distinct(r)
    ensures forall n :: n in r <==> n !in seen && exists k | 0 <= k < |order| :: order[k].target == n
  {
    if order == [] then []
    else if order[0].target in seen then
      var r := FirstReached(order[1..], seen);
      assert forall k | 1 <= k < |order| :: order[k] == order[1..][k - 1];
      r
    else
      var r := FirstReached(order[1..], seen + {order[0].target});
      assert forall k | 1 <= k < |order| :: order[k] == order[1..][k - 1];
      [order[0].target] + r
  }

  /** The table `n` is named in FROM. */
  predicate InFrom(tables: seq<FromTable>, n: string) {
    exists k | 0 <= k < |tables| :: tables[k].name == n
  }

  /** Every table a recorded edge joins is named in FROM. */
  predicate OrderInFrom(tables: seq<FromTable>, order: seq<Edge>) {
    forall i | 0 <= i < |order| :: InFrom(tables, order[i].src) && InFrom(tables, order[i].target)
  }

  /** Without join predicates every distinct FROM table is cross-joined, in
      order of first appearance. */
  function FromAllTables(tables: seq<FromTable>): (r: Result<Node>)
    ensures r.Ok? <==> |tables| >= 1
    ensures r.Ok? ==> CrossSpine(r.value)
    ensures r.Ok? ==> Cube.Distinct(Leaves(r.value))
    ensures r.Ok? ==> forall n :: Named(n) in Leaves(r.value) <==> InFrom(tables, n)
  {
    var m := FromMap(tables);
    var names := DistinctNames(tables, {});
    DistinctNamesEmpty(tables);
    if names == [] then Err(IndexOutOfBounds)
    else
      NamesInMap(tables);
      var r := Assemble(m, [names[0]], names[1..]);
      assert [names[0]] + names[1..] == names;
      RefsDistinct(names);
      RefsMembers(names);
      r
  }

  /** The tables the corrected tree scans first: the seed, then each table a
      recorded edge reaches, once. */
  function HeadOf(order: seq<Edge>): (head: seq<string>)
    requires order != []
    ensures head != [] && head[0] == order[0].src
  {
    [order[0].src] + FirstReached(order, {order[0].src})
  }

  /** The FROM tables, in order of first appearance, that `head` does not scan. */
  function RemainOf(tables: seq<FromTable>, head: seq<string>): seq<string> {
    Without(DistinctNames(tables, {}), set n | n in head)
  }

  /** With join predicates: the traversal's tables each scanned once, then
      every FROM table the traversal did not reach. */
  function FromJoinOrder(tables: seq<FromTable>, g: seq<Edge>): (r: Result<Node>)
    requires g != []
    ensures r.Ok? <==> JoinOrderOf(g) != [] && OrderInFrom(tables, JoinOrderOf(g))
    ensures r.Ok? ==> CrossSpine(r.value)
    ensures r.Ok? ==> Cube.Distinct(Leaves(r.value))
    ensures r.Ok? ==> forall n :: Named(n) in Leaves(r.value) <==> InFrom(tables, n)
  {
    var order := JoinOrderOf(g);
    JoinOrderSpec(g);
    if order == [] then Err(IndexOutOfBounds)
    else
      var head := HeadOf(order);
      RemainInMap(tables, head);
      var r := Assemble(FromMap(tables), head, RemainOf(tables, head));
      FromJoinOrderOk(tables, order);
      if r.Ok? then
        FromJoinOrderLeaves(tables, order);
        r
      else r
  }

  lemma RemainInMap(tables: seq<FromTable>, head: seq<string>)
    ensures forall k | 0 <= k < |RemainOf(tables, head)| :: RemainOf(tables, head)[k] in FromMap(tables)
  {
    var remain := RemainOf(tables, head);
    forall k | 0 <= k < |remain| ensures remain[k] in FromMap(tables) {
      assert remain[k] in remain;
      assert InFrom(tables, remain[k]);
    }
  }

  lemma FromJoinOrderOk(tables: seq<FromTable>, order: seq<Edge>)
    requires order != [] && Connected(order[0].src, order)
    ensures (forall k | 0 <= k < |HeadOf(order)| :: HeadOf(order)[k] in FromMap(tables))
      <==> OrderInFrom(tables, order)
  {
    var head := HeadOf(order);
    var m := FromMap(tables);
    HeadCoversOrder(order, head);
    if forall k | 0 <= k < |head| :: head[k] in m {
      forall i | 0 <= i < |order| ensures InFrom(tables, order[i].src) && InFrom(tables, order[i].target) {
        assert order[i].src in head && order[i].target in head;
      }
    }
    if OrderInFrom(tables, order) {
      forall k | 0 <= k < |head| ensures head[k] in m {
        assert head[k] in head;
        var i :| 0 <= i < |order| && (order[i].src == head[k] || order[i].target == head[k]);
        assert InFrom(tables, head[k]);
      }
    }
  }

  lemma FromJoinOrderLeaves(tables: seq<FromTable>, order: seq<Edge>)
    requires order != []
    requires forall k | 0 <= k < |HeadOf(order)| :: HeadOf(order)[k] in FromMap(tables)
    ensures Cube.Distinct(Refs(HeadOf(order) + RemainOf(tables, HeadOf(order))))
    ensures forall n :: Named(n) in Refs(HeadOf(order) + RemainOf(tables, HeadOf(order))) <==> InFrom(tables, n)
  {
    var head := HeadOf(order);
    var remain := RemainOf(tables, head);
    HeadDistinct(order, head);
    ScannedOnce(tables, DistinctNames(tables, {}), head, remain);
    RefsDistinct(head + remain);
    RefsMembers(head + remain);
  }

  lemma DistinctNamesEmpty(tables: seq<FromTable>)
    ensures DistinctNames(tables, {}) == [] <==> tables == []
  {
    if tables != [] {
      assert tables[0].name in DistinctNames(tables, {});
    }
  }

  /** The corrected join tree: the traversal's tables each scanned once, then
      every FROM table the traversal did not reach. */
  function CrossJoinFromJoinCondition(tables: seq<FromTable>, cnf: seq<Expr>): (r: Result<Node>)
    ensures r.Ok? <==>
      if forall k | 0 <= k < |cnf| :: !IsJoinQual(cnf[k]) then |tables| >= 1
      else JoinGraph(cnf) != [] && JoinOrderOf(JoinGraph(cnf)) != [] && OrderInFrom(tables, JoinOrderOf(JoinGraph(cnf)))
    ensures r.Ok? ==> CrossSpine(r.value)
    ensures r.Ok? ==> Cube.Distinct(Leaves(r.value))
    ensures r.Ok? ==> forall n :: Named(n) in Leaves(r.value) <==> InFrom(tables, n)
  {
    var g := JoinGraph(cnf);
    JoinGraphSpec(cnf);
    if g == [] then FromAllTables(tables) else FromJoinOrder(tables, g)
  }

  lemma HeadDistinct(order: seq<Edge>, head: seq<string>)
    requires order != []
    requires head == [order[0].src] + FirstReached(order, {order[0].src})
    ensures Cube.Distinct(head)
  {
    var src := order[0].src;
    var rest := FirstReached(order, {src});
    assert src !in rest;
    forall i, j | 0 <= i < j < |head| ensures head[i] != head[j] {
      assert head[j] == rest[j - 1];
      if i > 0 { assert head[i] == rest[i - 1]; }
      else { assert head[i] == src && rest[j - 1] in rest; }
    }
  }

  /** The scanned tables followed by the unreached ones list every FROM table once. */
  lemma ScannedOnce(tables: seq<FromTable>, names: seq<string>, head: seq<string>, remain: seq<string>)
    requires names == DistinctNames(tables, {})
    requires Cube.Distinct(head)
    requires forall k | 0 <= k < |head| :: InFrom(tables, head[k])
    requires remain == Without(names, set n | n in head)
    ensures Cube.Distinct(head + remain)
    ensures forall n :: n in head + remain <==> InFrom(tables, n)
  {
    DisjointDistinct(head, remain);
  }

  lemma NamesInMap(tables: seq<FromTable>)
    ensures forall n | n in DistinctNames(tables, {}) :: n in FromMap(tables)
  {
    forall n | n in DistinctNames(tables, {}) ensures n in FromMap(tables) {
      assert InFrom(tables, n);
    }
  }


  /** The scanned tables are exactly the seed and the recorded targets, and
      every recorded source is among them. */
  lemma HeadCoversOrder(order: seq<Edge>, head: seq<string>)
    requires order != [] && Connected(order[0].src, order)
    requires head == [order[0].src] + FirstReached(order, {order[0].src})
    ensures forall n :: n in head <==> exists i | 0 <= i < |order| :: order[i].src == n || order[i].target == n
  {
    forall n ensures n in head <==> exists i | 0 <= i < |order| :: order[i].src == n || order[i].target == n {
      if n in head {
        HeadInOrder(order, head, n);
      }
      if exists i | 0 <= i < |order| :: order[i].src == n || order[i].target == n {
        var i :| 0 <= i < |order| && (order[i].src == n || order[i].target == n);
        OrderInHead(order, head, n, i);
      }
    }
  }

  /** Every table of the head is the seed or the target of a recorded edge. */
  lemma HeadInOrder(order: seq<Edge>, head: seq<string>, n: string)
    requires order != []
    requires head == [order[0].src] + FirstReached(order, {order[0].src})
    requires n in head
    ensures exists i | 0 <= i < |order| :: order[i].src == n || order[i].target == n
  {
    if n == order[0].src {
      assert order[0].src == n;
    } else {
      assert n in FirstReached(order, {order[0].src});
    }
  }

  /** Every table a recorded edge touches is in the head. */
  lemma OrderInHead(order: seq<Edge>, head: seq<string>, n: string, i: int)
    requires order != [] && Connected(order[0].src, order)
    requires head == [order[0].src] + FirstReached(order, {order[0].src})
    requires 0 <= i < |order| && (order[i].src == n || order[i].target == n)
    ensures n in head
  {
    var seed := order[0].src;
    if n != seed {
      if order[i].target != n {
        var j :| 0 <= j < i && order[j].target == n;
        assert order[j].target == n;
      }
      assert n in FirstReached(order, {seed});
    }
  }

  lemma RefsDistinct(names: seq<string>)
    requires Cube.Distinct(names)
    ensures Cube.Distinct(Refs(names))
  {
  }

  lemma RefsMembers(names: seq<string>)
    ensures forall n :: Named(n) in Refs(names) <==> n in names
  {
    forall n ensures Named(n) in Refs(names) <==> n in names {
      if n in names {
        var k :| 0 <= k < |names| && names[k] == n;
        assert Refs(names)[k] == Named(n);
      }
    }
  }

  lemma DisjointDistinct(a: seq<string>, b: seq<string>)
    requires Cube.Distinct(a) && Cube.Distinct(b)
    requires forall n | n in b :: n !in a
    ensures Cube.Distinct(a + b)
  {
    forall i, j | 0 <= i < j < |a + b| ensures (a + b)[i] != (a + b)[j] {
      if i < |a| && j >= |a| {
        assert (a + b)[j] in b;
      }
    }
  }

  /** `createImplicitJoinTree`: the cartesian product without a WHERE clause,
      the predicate-driven join order with one. */
  function ImplicitJoinTree(tables: seq<FromTable>, cnf: Option<seq<Expr>>): (r: Result<Node>)
    ensures cnf.None? ==> r == CreateCartesianProduct(tables)
    ensures r.Ok? ==> CrossSpine(r.value)
    ensures r.Ok? ==> forall n :: Named(n) in Leaves(r.value) ==> InFrom(tables, n)
    ensures cnf.Some? && (forall k | 0 <= k < |cnf.value| :: !IsJoinQual(cnf.value[k])) ==>
      (r.Ok? <==> |tables| >= 1)
      && (r.Ok? ==> Cube.Distinct(Leaves(r.value)) && forall n :: Named(n) in Leaves(r.value) <==> InFrom(tables, n))
  {
    match cnf
    case None =>
      var r := CreateCartesianProduct(tables);
      if r.Ok? then
        ProductLeaves(tables);
        r
      else r
    case Some(quals) => CrossJoinFromJoinConditionAsWritten(tables, quals)
  }

  /** Every table the cartesian product scans is named in FROM. */
  lemma ProductLeaves(tables: seq<FromTable>)
    requires |tables| >= 1
    ensures forall n :: Named(n) in Leaves(CreateCartesianProduct(tables).value) ==> InFrom(tables, n)
  {
    forall n | Named(n) in Names(tables) ensures InFrom(tables, n) {
      var k :| 0 <= k < |Names(tables)| && Names(tables)[k] == Named(n);
      assert tables[k].name == n;
    }
  }

  /** With a join predicate, the implicit tree scans the first recorded
      source, every recorded target and then the FROM tables outside the join
      graph: a table of another component of the graph is never scanned. */
  lemma ImplicitJoinLeaves(tables: seq<FromTable>, cnf: seq<Expr>)
    requires JoinGraph(cnf) != [] && JoinOrderOf(JoinGraph(cnf)) != []
    requires OrderInFrom(tables, JoinOrderOf(JoinGraph(cnf)))
    ensures ImplicitJoinTree(tables, Some(cnf)).Ok?
    ensures Leaves(ImplicitJoinTree(tables, Some(cnf)).value)
      == Refs([JoinOrderOf(JoinGraph(cnf))[0].src] + Targets(JoinOrderOf(JoinGraph(cnf)))
           + Without(DistinctNames(tables, {}), Tables(JoinGraph(cnf))))
  {
    AsWrittenShape(tables, cnf);
  }

  // ---------------------------------------------------------------------
  // Counterexamples to the code as written

  /** `l.k = r.k`, a join predicate between tables `l` and `r`. */
  function EqOn(l: string, r: string): Expr {
    Binary(Equal, Field(Column(l, "k", "int")), Field(Column(r, "k", "int")))
  }

  function TableOf(name: string): FromTable {
    FromTable(name, [])
  }

  /** The code as written scans the first source, then every recorded target,
      then the FROM tables outside the join graph. */
  lemma AsWrittenShape(tables: seq<FromTable>, cnf: seq<Expr>)
    requires JoinGraph(cnf) != [] && JoinOrderOf(JoinGraph(cnf)) != []
    requires OrderInFrom(tables, JoinOrderOf(JoinGraph(cnf)))
    ensures CrossJoinFromJoinConditionAsWritten(tables, cnf).Ok?
    ensures Leaves(CrossJoinFromJoinConditionAsWritten(tables, cnf).value)
      == Refs([JoinOrderOf(JoinGraph(cnf))[0].src] + Targets(JoinOrderOf(JoinGraph(cnf)))
           + Without(DistinctNames(tables, {}), Tables(JoinGraph(cnf))))
  {
    var g := JoinGraph(cnf);
    var order := JoinOrderOf(g);
    var head := [order[0].src] + Targets(order);
    var remain := Without(DistinctNames(tables, {}), Tables(g));
    forall k | 0 <= k < |head| ensures head[k] in FromMap(tables) {
      if k > 0 { assert head[k] == order[k - 1].target; }
    }
    NamesInMap(tables);
    assert CrossJoinFromJoinConditionAsWritten(tables, cnf) == Assemble(FromMap(tables), head, remain);
  }

  /** The corrected tree scans `HeadOf(order)`, then the FROM tables it leaves out. */
  lemma CorrectedShape(tables: seq<FromTable>, cnf: seq<Expr>)
    requires JoinGraph(cnf) != [] && JoinOrderOf(JoinGraph(cnf)) != []
    requires OrderInFrom(tables, JoinOrderOf(JoinGraph(cnf)))
    ensures CrossJoinFromJoinCondition(tables, cnf).Ok?
    ensures Leaves(CrossJoinFromJoinCondition(tables, cnf).value)
      == Refs(HeadOf(JoinOrderOf(JoinGraph(cnf))) + RemainOf(tables, HeadOf(JoinOrderOf(JoinGraph(cnf)))))
  {
    JoinOrderSpec(JoinGraph(cnf));
    RemainInMap(tables, HeadOf(JoinOrderOf(JoinGraph(cnf))));
  }

  /** No FROM table is left over once every FROM name is dropped. */
  lemma NoneRemain(tables: seq<FromTable>, drop: set<string>)
    requires forall k | 0 <= k < |tables| :: tables[k].name in drop
    ensures Without(DistinctNames(tables, {}), drop) == []
  {
    var r := Without(DistinctNames(tables, {}), drop);
    assert forall n | InFrom(tables, n) :: n in drop;
    HasFirst(r);
  }

  lemma HasFirst(s: seq<string>)
    ensures s != [] ==> s[0] in s
  {
  }

  // Two components: a.k = b.k and c.k = d.k over FROM a, b, c, d.

  function TwoComponents(a: string, b: string, c: string, d: string): seq<Edge> {
    [Edge(a, b), Edge(b, a), Edge(c, d), Edge(d, c)]
  }

  lemma TwoComponentsGraph(a: string, b: string, c: string, d: string)
    ensures JoinGraph([EqOn(a, b), EqOn(c, d)]) == TwoComponents(a, b, c, d)
  {
    var cnf := [EqOn(a, b), EqOn(c, d)];
    assert cnf[1..] == [EqOn(c, d)] && cnf[1..][1..] == [];
    assert IsJoinQual(EqOn(a, b)) && IsJoinQual(EqOn(c, d));
    assert JoinGraph([EqOn(c, d)]) == [Edge(c, d), Edge(d, c)] + JoinGraph([]);
    assert JoinGraph(cnf) == [Edge(a, b), Edge(b, a)] + JoinGraph([EqOn(c, d)]);
  }

  lemma TwoComponentsExpansions(a: string, b: string, c: string, d: string)
    requires a != b && a != c && a != d && b != c && b != d && c != d
    ensures SeedEdges(TwoComponents(a, b, c, d)) == [Edge(a, b)]
    ensures Expand(TwoComponents(a, b, c, d), {a}, b) == []
  {
    var g := TwoComponents(a, b, c, d);
    assert [Edge(d, c)][1..] == [];
    assert EdgesFrom([Edge(d, c)], a) == [];
    assert [Edge(c, d), Edge(d, c)][1..] == [Edge(d, c)];
    assert EdgesFrom([Edge(c, d), Edge(d, c)], a) == [];
    assert [Edge(b, a), Edge(c, d), Edge(d, c)][1..] == [Edge(c, d), Edge(d, c)];
    assert EdgesFrom([Edge(b, a), Edge(c, d), Edge(d, c)], a) == [];
    assert [Edge(a, b), Edge(b, a), Edge(c, d), Edge(d, c)][1..] == [Edge(b, a), Edge(c, d), Edge(d, c)];
    assert EdgesFrom([Edge(a, b), Edge(b, a), Edge(c, d), Edge(d, c)], a) == [Edge(a, b)];
    assert [Edge(d, c)][1..] == [];
    assert EdgesFrom([Edge(d, c)], b) == [];
    assert [Edge(c, d), Edge(d, c)][1..] == [Edge(d, c)];
    assert EdgesFrom([Edge(c, d), Edge(d, c)], b) == [];
    assert [Edge(b, a), Edge(c, d), Edge(d, c)][1..] == [Edge(c, d), Edge(d, c)];
    assert EdgesFrom([Edge(b, a), Edge(c, d), Edge(d, c)], b) == [Edge(b, a)];
    assert [Edge(a, b), Edge(b, a), Edge(c, d), Edge(d, c)][1..] == [Edge(b, a), Edge(c, d), Edge(d, c)];
    assert EdgesFrom([Edge(a, b), Edge(b, a), Edge(c, d), Edge(d, c)], b) == [Edge(b, a)];
    assert [Edge(a, b)][1..] == [] && [Edge(b, a)][1..] == [];
    assert Unvisited([Edge(a, b)], {} + {a}, a) == [Edge(a, b)];
    assert Unvisited([Edge(b, a)], {a} + {b}, b) == [];
  }

  lemma TwoComponentsOrder(a: string, b: string, c: string, d: string)
    requires a != b && a != c && a != d && b != c && b != d && c != d
    ensures JoinGraph([EqOn(a, b), EqOn(c, d)]) == TwoComponents(a, b, c, d)
    ensures JoinOrderOf(TwoComponents(a, b, c, d)) == [Edge(a, b)]
  {
    TwoComponentsGraph(a, b, c, d);
    TwoComponentsExpansions(a, b, c, d);
    var g := TwoComponents(a, b, c, d);
    assert Targets([Edge(a, b)]) == [b] && Targets([]) == [];
    assert g[0].src == a && g[1].src == b;
    assert b in Tables(g);
    var s0 := [b];
    assert s0[|s0| - 1] == b && s0[..|s0| - 1] == [];
    assert [Edge(a, b)] + [] == [Edge(a, b)] && {a} + {b} == {a, b};
    assert Dfs(g, [b], {a}, [Edge(a, b)]) == Dfs(g, [], {a, b}, [Edge(a, b)]);
  }

  lemma TwoComponentsTables(a: string, b: string, c: string, d: string)
    ensures OrderInFrom([TableOf(a), TableOf(b), TableOf(c), TableOf(d)], [Edge(a, b)])
    ensures Without(DistinctNames([TableOf(a), TableOf(b), TableOf(c), TableOf(d)], {}), Tables(TwoComponents(a, b, c, d))) == []
  {
    var tables := [TableOf(a), TableOf(b), TableOf(c), TableOf(d)];
    var g := TwoComponents(a, b, c, d);
    assert tables[0].name == a && tables[1].name == b && tables[2].name == c && tables[3].name == d;
    assert InFrom(tables, a) && InFrom(tables, b);
    assert g[0].src == a && g[1].src == b && g[2].src == c && g[3].src == d;
    NoneRemain(tables, Tables(g));
  }

  /** With predicates `a.k = b.k` and `c.k = d.k` over FROM a, b, c, d, the
      code as written drops c and d: they are join-graph tables, so not
      remaining, but the traversal from a never reaches them. */
  lemma DisconnectedJoinCounterexample(a: string, b: string, c: string, d: string)
    requires a != b && a != c && a != d && b != c && b != d && c != d
    ensures CrossJoinFromJoinConditionAsWritten(
      [TableOf(a), TableOf(b), TableOf(c), TableOf(d)], [EqOn(a, b), EqOn(c, d)]).Ok?
    ensures Leaves(CrossJoinFromJoinConditionAsWritten(
      [TableOf(a), TableOf(b), TableOf(c), TableOf(d)], [EqOn(a, b), EqOn(c, d)]).value)
      == [Named(a), Named(b)]
  {
    TwoComponentsOrder(a, b, c, d);
    TwoComponentsTables(a, b, c, d);
    AsWrittenShape([TableOf(a), TableOf(b), TableOf(c), TableOf(d)], [EqOn(a, b), EqOn(c, d)]);
    OneEdgeRefs(a, b);
  }

  /** The tables of a single recorded edge, with nothing left to cross-join. */
  lemma OneEdgeRefs(a: string, b: string)
    ensures Refs([Edge(a, b).src] + Targets([Edge(a, b)]) + []) == [Named(a), Named(b)]
  {
    assert Targets([Edge(a, b)]) == [b];
    assert [a] + [b] + [] == [a, b];
  }

  /** With the same query the corrected tree scans all four tables. */
  lemma DisconnectedJoinCorrected(a: string, b: string, c: string, d: string)
    requires a != b && a != c && a != d && b != c && b != d && c != d
    ensures CrossJoinFromJoinCondition(
      [TableOf(a), TableOf(b), TableOf(c), TableOf(d)], [EqOn(a, b), EqOn(c, d)]).Ok?
    ensures forall n | n in [a, b, c, d] :: Named(n) in Leaves(CrossJoinFromJoinCondition(
      [TableOf(a), TableOf(b), TableOf(c), TableOf(d)], [EqOn(a, b), EqOn(c, d)]).value)
  {
    var tables := [TableOf(a), TableOf(b), TableOf(c), TableOf(d)];
    TwoComponentsOrder(a, b, c, d);
    TwoComponentsTables(a, b, c, d);
    CorrectedShape(tables, [EqOn(a, b), EqOn(c, d)]);
    FourInFrom(a, b, c, d);
  }

  lemma FourInFrom(a: string, b: string, c: string, d: string)
    ensures forall n | n in [a, b, c, d] :: InFrom([TableOf(a), TableOf(b), TableOf(c), TableOf(d)], n)
  {
    var tables := [TableOf(a), TableOf(b), TableOf(c), TableOf(d)];
    forall n | n in [a, b, c, d] ensures InFrom(tables, n) {
      var k :| 0 <= k < 4 && [a, b, c, d][k] == n;
      assert tables[k].name == n;
    }
  }

  // A triangle: a.k = b.k, a.k = c.k and b.k = c.k over FROM a, b, c.

  function Triangle(a: string, b: string, c: string): seq<Edge> {
    [Edge(a, b), Edge(b, a), Edge(a, c), Edge(c, a), Edge(b, c), Edge(c, b)]
  }

  lemma TriangleEdges(a: string, b: string, c: string)
    requires a != b && a != c && b != c
    ensures EdgesFrom(Triangle(a, b, c), a) == [Edge(a, b), Edge(a, c)]
    ensures EdgesFrom(Triangle(a, b, c), b) == [Edge(b, a), Edge(b, c)]
    ensures EdgesFrom(Triangle(a, b, c), c) == [Edge(c, a), Edge(c, b)]
  {
    assert [Edge(c, b)][1..] == [];
    assert EdgesFrom([Edge(c, b)], a) == [];
    assert [Edge(b, c), Edge(c, b)][1..] == [Edge(c, b)];
    assert EdgesFrom([Edge(b, c), Edge(c, b)], a) == [];
    assert [Edge(c, a), Edge(b, c), Edge(c, b)][1..] == [Edge(b, c), Edge(c, b)];
    assert EdgesFrom([Edge(c, a), Edge(b, c), Edge(c, b)], a) == [];
    assert [Edge(a, c), Edge(c, a), Edge(b, c), Edge(c, b)][1..] == [Edge(c, a), Edge(b, c), Edge(c, b)];
    assert EdgesFrom([Edge(a, c), Edge(c, a), Edge(b, c), Edge(c, b)], a) == [Edge(a, c)];
    assert [Edge(b, a), Edge(a, c), Edge(c, a), Edge(b, c), Edge(c, b)][1..] == [Edge(a, c), Edge(c, a), Edge(b, c), Edge(c, b)];
    assert EdgesFrom([Edge(b, a), Edge(a, c), Edge(c, a), Edge(b, c), Edge(c, b)], a) == [Edge(a, c)];
    assert [Edge(a, b), Edge(b, a), Edge(a, c), Edge(c, a), Edge(b, c), Edge(c, b)][1..] == [Edge(b, a), Edge(a, c), Edge(c, a), Edge(b, c), Edge(c, b)];
    assert EdgesFrom([Edge(a, b), Edge(b, a), Edge(a, c), Edge(c, a), Edge(b, c), Edge(c, b)], a) == [Edge(a, b), Edge(a, c)];
    assert [Edge(c, b)][1..] == [];
    assert EdgesFrom([Edge(c, b)], b) == [];
    assert [Edge(b, c), Edge(c, b)][1..] == [Edge(c, b)];
    assert EdgesFrom([Edge(b, c), Edge(c, b)], b) == [Edge(b, c)];
    assert [Edge(c, a), Edge(b, c), Edge(c, b)][1..] == [Edge(b, c), Edge(c, b)];
    assert EdgesFrom([Edge(c, a), Edge(b, c), Edge(c, b)], b) == [Edge(b, c)];
    assert [Edge(a, c), Edge(c, a), Edge(b, c), Edge(c, b)][1..] == [Edge(c, a), Edge(b, c), Edge(c, b)];
    assert EdgesFrom([Edge(a, c), Edge(c, a), Edge(b, c), Edge(c, b)], b) == [Edge(b, c)];
    assert [Edge(b, a), Edge(a, c), Edge(c, a), Edge(b, c), Edge(c, b)][1..] == [Edge(a, c), Edge(c, a), Edge(b, c), Edge(c, b)];
    assert EdgesFrom([Edge(b, a), Edge(a, c), Edge(c, a), Edge(b, c), Edge(c, b)], b) == [Edge(b, a), Edge(b, c)];
    assert [Edge(a, b), Edge(b, a), Edge(a, c), Edge(c, a), Edge(b, c), Edge(c, b)][1..] == [Edge(b, a), Edge(a, c), Edge(c, a), Edge(b, c), Edge(c, b)];
    assert EdgesFrom([Edge(a, b), Edge(b, a), Edge(a, c), Edge(c, a), Edge(b, c), Edge(c, b)], b) == [Edge(b, a), Edge(b, c)];
    assert [Edge(c, b)][1..] == [];
    assert EdgesFrom([Edge(c, b)], c) == [Edge(c, b)];
    assert [Edge(b, c), Edge(c, b)][1..] == [Edge(c, b)];
    assert EdgesFrom([Edge(b, c), Edge(c, b)], c) == [Edge(c, b)];
    assert [Edge(c, a), Edge(b, c), Edge(c, b)][1..] == [Edge(b, c), Edge(c, b)];
    assert EdgesFrom([Edge(c, a), Edge(b, c), Edge(c, b)], c) == [Edge(c, a), Edge(c, b)];
    assert [Edge(a, c), Edge(c, a), Edge(b, c), Edge(c, b)][1..] == [Edge(c, a), Edge(b, c), Edge(c, b)];
    assert EdgesFrom([Edge(a, c), Edge(c, a), Edge(b, c), Edge(c, b)], c) == [Edge(c, a), Edge(c, b)];
    assert [Edge(b, a), Edge(a, c), Edge(c, a), Edge(b, c), Edge(c, b)][1..] == [Edge(a, c), Edge(c, a), Edge(b, c), Edge(c, b)];
    assert EdgesFrom([Edge(b, a), Edge(a, c), Edge(c, a), Edge(b, c), Edge(c, b)], c) == [Edge(c, a), Edge(c, b)];
    assert [Edge(a, b), Edge(b, a), Edge(a, c), Edge(c, a), Edge(b, c), Edge(c, b)][1..] == [Edge(b, a), Edge(a, c), Edge(c, a), Edge(b, c), Edge(c, b)];
    assert EdgesFrom([Edge(a, b), Edge(b, a), Edge(a, c), Edge(c, a), Edge(b, c), Edge(c, b)], c) == [Edge(c, a), Edge(c, b)];
  }

  lemma TriangleExpansions(a: string, b: string, c: string)
    requires a != b && a != c && b != c
    ensures SeedEdges(Triangle(a, b, c)) == [Edge(a, b), Edge(a, c)]
    ensures Expand(Triangle(a, b, c), {a}, c) == [Edge(c, b)]
    ensures Expand(Triangle(a, b, c), {a, c}, b) == []
  {
    var g := Triangle(a, b, c);
    var ab, ac, ca, cb, ba, bc := Edge(a, b), Edge(a, c), Edge(c, a), Edge(c, b), Edge(b, a), Edge(b, c);
    TriangleEdges(a, b, c);
    assert [ab, ac][1..] == [ac] && [ac][1..] == [];
    assert Unvisited([ac], {} + {a}, a) == [ac];
    assert Unvisited([ab, ac], {} + {a}, a) == [ab, ac];
    assert [ca, cb][1..] == [cb] && [cb][1..] == [];
    assert Unvisited([cb], {a} + {c}, c) == [cb];
    assert Unvisited([ca, cb], {a} + {c}, c) == [cb];
    assert [ba, bc][1..] == [bc] && [bc][1..] == [];
    assert Unvisited([bc], {a, c} + {b}, b) == [];
    assert Unvisited([ba, bc], {a, c} + {b}, b) == [];
  }

  lemma TriangleGraph(a: string, b: string, c: string)
    ensures JoinGraph([EqOn(a, b), EqOn(a, c), EqOn(b, c)]) == Triangle(a, b, c)
  {
    var cnf := [EqOn(a, b), EqOn(a, c), EqOn(b, c)];
    assert cnf[1..] == [EqOn(a, c), EqOn(b, c)] && cnf[1..][1..] == [EqOn(b, c)] && cnf[1..][1..][1..] == [];
    assert IsJoinQual(EqOn(a, b)) && IsJoinQual(EqOn(a, c)) && IsJoinQual(EqOn(b, c));
    assert JoinGraph([EqOn(b, c)]) == [Edge(b, c), Edge(c, b)] + JoinGraph([]);
    assert JoinGraph([EqOn(a, c), EqOn(b, c)]) == [Edge(a, c), Edge(c, a)] + JoinGraph([EqOn(b, c)]);
    assert JoinGraph(cnf) == [Edge(a, b), Edge(b, a)] + JoinGraph([EqOn(a, c), EqOn(b, c)]);
  }

  lemma TriangleTables(a: string, b: string, c: string)
    ensures a in Tables(Triangle(a, b, c)) && b in Tables(Triangle(a, b, c)) && c in Tables(Triangle(a, b, c))
  {
    var g := Triangle(a, b, c);
    assert g[0].src == a && g[1].src == b && g[3].src == c;
  }

  /** Popping c from [b, c] records c-b: b is not yet visited. */
  lemma TriangleStepC(a: string, b: string, c: string)
    requires a != b && a != c && b != c
    ensures Dfs(Triangle(a, b, c), [b, c], {a}, [Edge(a, b), Edge(a, c)])
      == Dfs(Triangle(a, b, c), [b, b], {a, c}, [Edge(a, b), Edge(a, c), Edge(c, b)])
  {
    TriangleExpansions(a, b, c);
    TriangleTables(a, b, c);
    var s0 := [b, c];
    assert s0[|s0| - 1] == c && s0[..|s0| - 1] == [b];
    assert Targets([Edge(c, b)]) == [b];
    assert [b] + [b] == [b, b] && {a} + {c} == {a, c};
    assert [Edge(a, b), Edge(a, c)] + [Edge(c, b)] == [Edge(a, b), Edge(a, c), Edge(c, b)];
  }

  /** Popping b from [b, b] records nothing: a and c are visited. */
  lemma TriangleStepB(a: string, b: string, c: string)
    requires a != b && a != c && b != c
    ensures Dfs(Triangle(a, b, c), [b, b], {a, c}, [Edge(a, b), Edge(a, c), Edge(c, b)])
      == Dfs(Triangle(a, b, c), [b], {a, b, c}, [Edge(a, b), Edge(a, c), Edge(c, b)])
  {
    TriangleExpansions(a, b, c);
    TriangleTables(a, b, c);
    var s1 := [b, b];
    assert s1[|s1| - 1] == b && s1[..|s1| - 1] == [b];
    assert Targets([]) == [];
    assert [b] + [] == [b] && {a, c} + {b} == {a, b, c};
    assert [Edge(a, b), Edge(a, c), Edge(c, b)] + [] == [Edge(a, b), Edge(a, c), Edge(c, b)];
  }

  /** The second b is already visited and the stack runs empty. */
  lemma TriangleStepLast(a: string, b: string, c: string)
    ensures Dfs(Triangle(a, b, c), [b], {a, b, c}, [Edge(a, b), Edge(a, c), Edge(c, b)])
      == [Edge(a, b), Edge(a, c), Edge(c, b)]
  {
    TriangleTables(a, b, c);
    var s2 := [b];
    assert s2[|s2| - 1] == b && s2[..|s2| - 1] == [];
  }

  lemma TriangleOrder(a: string, b: string, c: string)
    requires a != b && a != c && b != c
    ensures JoinGraph([EqOn(a, b), EqOn(a, c), EqOn(b, c)]) == Triangle(a, b, c)
    ensures JoinOrderOf(Triangle(a, b, c)) == [Edge(a, b), Edge(a, c), Edge(c, b)]
  {
    TriangleGraph(a, b, c);
    TriangleExpansions(a, b, c);
    TriangleStepC(a, b, c);
    TriangleStepB(a, b, c);
    TriangleStepLast(a, b, c);
    assert Targets([Edge(a, b), Edge(a, c)]) == [b, c];
    assert Triangle(a, b, c)[0].src == a;
  }

  lemma TriangleInFrom(a: string, b: string, c: string)
    ensures OrderInFrom([TableOf(a), TableOf(b), TableOf(c)], [Edge(a, b), Edge(a, c), Edge(c, b)])
  {
    var tables := [TableOf(a), TableOf(b), TableOf(c)];
    var order := [Edge(a, b), Edge(a, c), Edge(c, b)];
    assert tables[0].name == a && tables[1].name == b && tables[2].name == c;
    assert InFrom(tables, a) && InFrom(tables, b) && InFrom(tables, c);
    forall i | 0 <= i < |order| ensures InFrom(tables, order[i].src) && InFrom(tables, order[i].target) {
      assert i == 0 || i == 1 || i == 2;
    }
  }

  lemma TriangleRemain(a: string, b: string, c: string)
    ensures Without(DistinctNames([TableOf(a), TableOf(b), TableOf(c)], {}), Tables(Triangle(a, b, c))) == []
  {
    var tables := [TableOf(a), TableOf(b), TableOf(c)];
    TriangleTables(a, b, c);
    assert tables[0].name == a && tables[1].name == b && tables[2].name == c;
    NoneRemain(tables, Tables(Triangle(a, b, c)));
  }

  lemma TriangleRemainCorrected(a: string, b: string, c: string)
    ensures RemainOf([TableOf(a), TableOf(b), TableOf(c)], [a, b, c]) == []
  {
    var tables := [TableOf(a), TableOf(b), TableOf(c)];
    var drop := set n | n in [a, b, c];
    assert [a, b, c][0] == a && [a, b, c][1] == b && [a, b, c][2] == c;
    assert a in drop && b in drop && c in drop;
    assert tables[0].name == a && tables[1].name == b && tables[2].name == c;
    NoneRemain(tables, drop);
  }

  lemma TriangleHead(a: string, b: string, c: string)
    requires a != b && a != c && b != c
    ensures HeadOf([Edge(a, b), Edge(a, c), Edge(c, b)]) == [a, b, c]
  {
    var order := [Edge(a, b), Edge(a, c), Edge(c, b)];
    assert order[1..] == [Edge(a, c), Edge(c, b)] && order[1..][1..] == [Edge(c, b)] && order[1..][1..][1..] == [];
    assert {a} + {b} == {a, b} && {a, b} + {c} == {a, b, c};
    assert FirstReached([], {a, b, c}) == [];
    assert FirstReached([Edge(c, b)], {a, b, c}) == [];
    assert FirstReached([Edge(a, c), Edge(c, b)], {a, b}) == [c];
    assert FirstReached(order, {a}) == [b, c];
  }

  /** With predicates `a.k = b.k`, `a.k = c.k` and `b.k = c.k` over FROM a, b, c,
      the code as written scans b twice: c is expanded before b, and b is
      still unvisited then, so the edge c-b is recorded after a-b. */
  lemma TriangleJoinCounterexample(a: string, b: string, c: string)
    requires a != b && a != c && b != c
    ensures CrossJoinFromJoinConditionAsWritten(
      [TableOf(a), TableOf(b), TableOf(c)], [EqOn(a, b), EqOn(a, c), EqOn(b, c)]).Ok?
    ensures Leaves(CrossJoinFromJoinConditionAsWritten(
      [TableOf(a), TableOf(b), TableOf(c)], [EqOn(a, b), EqOn(a, c), EqOn(b, c)]).value)
      == [Named(a), Named(b), Named(c), Named(b)]
  {
    TriangleOrder(a, b, c);
    TriangleInFrom(a, b, c);
    TriangleRemain(a, b, c);
    AsWrittenShape([TableOf(a), TableOf(b), TableOf(c)], [EqOn(a, b), EqOn(a, c), EqOn(b, c)]);
    TriangleAsWrittenRefs(a, b, c);
  }

  lemma TriangleAsWrittenRefs(a: string, b: string, c: string)
    ensures Refs([[Edge(a, b), Edge(a, c), Edge(c, b)][0].src] + Targets([Edge(a, b), Edge(a, c), Edge(c, b)]) + [])
      == [Named(a), Named(b), Named(c), Named(b)]
  {
    assert Targets([Edge(a, b), Edge(a, c), Edge(c, b)]) == [b, c, b];
    assert [a] + [b, c, b] + [] == [a, b, c, b];
  }

  /** The corrected tree of the same query scans each of a, b, c once. */
  lemma TriangleJoinCorrected(a: string, b: string, c: string)
    requires a != b && a != c && b != c
    ensures CrossJoinFromJoinCondition(
      [TableOf(a), TableOf(b), TableOf(c)], [EqOn(a, b), EqOn(a, c), EqOn(b, c)]).Ok?
    ensures Leaves(CrossJoinFromJoinCondition(
      [TableOf(a), TableOf(b), TableOf(c)], [EqOn(a, b), EqOn(a, c), EqOn(b, c)]).value)
      == [Named(a), Named(b), Named(c)]
  {
    TriangleOrder(a, b, c);
    TriangleInFrom(a, b, c);
    TriangleHead(a, b, c);
    TriangleRemainCorrected(a, b, c);
    CorrectedShape([TableOf(a), TableOf(b), TableOf(c)], [EqOn(a, b), EqOn(a, c), EqOn(b, c)]);
    assert [a, b, c] + [] == [a, b, c];
  }
}
