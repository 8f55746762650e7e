/** Join trees built directly from the FROM clause: the cartesian product of
    `createCatasianProduct`, explicit `JOIN ... ON` chains of
    `createExplicitJoinTree_`, and the NATURAL JOIN predicate and schema. */
module Joins {
  import opened Base
  import opened Schemas
  import opened Logical

  /** A CROSS_JOIN node whose schema is the merge of outer then inner. */
  function CrossJoinOf(outer: Node, inner: Node): Node {
    Join(CrossJoin, None, outer, inner, Merge(outer.out, inner.out))
  }

  /** Cross-joins `tables` one by one onto `base`, each as the inner of a new join. */
  function CrossChain(base: Node, tables: seq<FromTable>): Node
    decreases |tables|
  {
    if tables == [] then base else CrossChain(CrossJoinOf(base, ScanOf(tables[0])), tables[1..])
  }

  /** The inner children along the left spine of a join tree, bottom-up. */
  function Spine(n: Node): seq<Node> {
    if n.Join? then Spine(n.outer) + [n.inner] else []
  }

  /** The bottom-left node of the left spine. */
  function SpineBase(n: Node): Node {
    if n.Join? then SpineBase(n.outer) else n
  }

  /** Every join of the left spine is a predicate-less CROSS_JOIN whose schema
      merges outer then inner, and the spine ends in a scan. */
  predicate CrossSpine(n: Node) {
    if n.Join? then n.jtype == CrossJoin && n.qual.None? && n.out == Merge(n.outer.out, n.inner.out) && CrossSpine(n.outer)
    else n.Scan?
  }

  function Scans(tables: seq<FromTable>): (r: seq<Node>)
    ensures |r| == |tables|
    ensures forall i :: 0 <= i < |tables| ==> r[i] == ScanOf(tables[i])
  {
    seq(|tables|, i requires 0 <= i < |tables| => ScanOf(tables[i]))
  }

  function Names(tables: seq<FromTable>): (r: seq<TableRef>)
    ensures |r| == |tables|
    ensures forall i :: 0 <= i < |tables| ==> r[i] == Named(tables[i].name)
  {
    seq(|tables|, i requires 0 <= i < |tables| => Named(tables[i].name))
  }

  function ConcatSchemas(tables: seq<FromTable>): Schema {
    if tables == [] then [] else tables[0].schema + ConcatSchemas(tables[1..])
  }

  /** Cross-joining a list onto a base extends the left spine by one scan per
      table and leaves its bottom node unchanged. */
  lemma {:induction false} CrossChainSpine(base: Node, tables: seq<FromTable>)
    ensures Spine(CrossChain(base, tables)) == Spine(base) + Scans(tables)
    decreases |tables|
  {
    if tables != [] {
      var scan := ScanOf(tables[0]);
      var next := CrossJoinOf(base, scan);
      assert next.outer == base && next.inner == scan;
      assert Spine(next) == Spine(base) + [scan];
      CrossChainSpine(next, tables[1..]);
      ScansCons(tables);
      SeqAssoc(Spine(base), [scan], Scans(tables[1..]));
    }
  }

  lemma SeqAssoc<T>(a: seq<T>, b: seq<T>, c: seq<T>)
    ensures (a + b) + c == a + (b + c)
  {
  }

  lemma ScansCons(tables: seq<FromTable>)
    requires tables != []
    ensures Scans(tables) == [ScanOf(tables[0])] + Scans(tables[1..])
  {
    var r := [ScanOf(tables[0])] + Scans(tables[1..]);
    assert forall i | 1 <= i < |tables| :: r[i] == Scans(tables[1..])[i - 1];
  }

  lemma {:induction false} CrossChainBase(base: Node, tables: seq<FromTable>)
    ensures SpineBase(CrossChain(base, tables)) == SpineBase(base)
    decreases |tables|
  {
    if tables != [] {
      CrossChainBase(CrossJoinOf(base, ScanOf(tables[0])), tables[1..]);
    }
  }

  /** Every join the chain adds is a cross join merging outer then inner. */
  lemma {:induction false} CrossChainIsCross(base: Node, tables: seq<FromTable>)
    requires CrossSpine(base)
    ensures CrossSpine(CrossChain(base, tables))
    decreases |tables|
  {
    if tables != [] {
      CrossChainIsCross(CrossJoinOf(base, ScanOf(tables[0])), tables[1..]);
    }
  }

  /** The chain's schema is the base schema followed by every table's schema. */
  lemma {:induction false} CrossChainSchema(base: Node, tables: seq<FromTable>)
    ensures CrossChain(base, tables).out == base.out + ConcatSchemas(tables)
    decreases |tables|
  {
    if tables != [] {
      CrossChainSchema(CrossJoinOf(base, ScanOf(tables[0])), tables[1..]);
    }
  }

  /** The chain scans the base's tables, then the listed tables in order. */
  lemma {:induction false} CrossChainLeaves(base: Node, tables: seq<FromTable>)
    ensures Leaves(CrossChain(base, tables)) == Leaves(base) + Names(tables)
    decreases |tables|
  {
    if tables != [] {
      var next := CrossJoinOf(base, ScanOf(tables[0]));
      assert Leaves(next) == Leaves(base) + [Named(tables[0].name)];
      CrossChainLeaves(next, tables[1..]);
      assert Names(tables) == [Named(tables[0].name)] + Names(tables[1..]);
    }
  }

  /** `createCatasianProduct`: a left-deep chain of k - 1 cross joins whose
      i-th join has table i as its inner. */
  function CreateCartesianProduct(tables: seq<FromTable>): (r: Result<Node>)
    ensures r.Ok? <==> |tables| >= 1
    ensures r.Ok? ==> |Spine(r.value)| == |tables| - 1
    ensures r.Ok? ==> SpineBase(r.value) == ScanOf(tables[0])
    ensures r.Ok? ==> forall i :: 1 <= i < |tables| ==> Spine(r.value)[i - 1] == ScanOf(tables[i])
    ensures r.Ok? ==> CrossSpine(r.value)
    ensures r.Ok? ==> r.value.out == ConcatSchemas(tables)
    ensures r.Ok? ==> Leaves(r.value) == Names(tables)
  {
    if |tables| == 0 then Err(IndexOutOfBounds)
    else
      CartesianShape(tables);
      CartesianContents(tables);
      Ok(CrossChain(ScanOf(tables[0]), tables[1..]))
  }

  /** The shape of the chain over a non-empty table list. */
  lemma CartesianShape(tables: seq<FromTable>)
    requires |tables| >= 1
    ensures var c := CrossChain(ScanOf(tables[0]), tables[1..]);
      |Spine(c)| == |tables| - 1 && SpineBase(c) == ScanOf(tables[0])
      && (forall i :: 1 <= i < |tables| ==> Spine(c)[i - 1] == ScanOf(tables[i]))
      && CrossSpine(c)
  {
    var c := CrossChain(ScanOf(tables[0]), tables[1..]);
    CrossChainSpine(ScanOf(tables[0]), tables[1..]);
    CrossChainBase(ScanOf(tables[0]), tables[1..]);
    CrossChainIsCross(ScanOf(tables[0]), tables[1..]);
    assert Spine(ScanOf(tables[0])) == [];
    assert Spine(c) == Scans(tables[1..]);
    forall i | 1 <= i < |tables|
      ensures Spine(c)[i - 1] == ScanOf(tables[i])
    {
      assert tables[1..][i - 1] == tables[i];
    }
  }

  /** The schema and the tables of the chain over a non-empty table list. */
  lemma CartesianContents(tables: seq<FromTable>)
    requires |tables| >= 1
    ensures var c := CrossChain(ScanOf(tables[0]), tables[1..]);
      c.out == ConcatSchemas(tables) && Leaves(c) == Names(tables)
  {
    CrossChainSchema(ScanOf(tables[0]), tables[1..]);
    CrossChainLeaves(ScanOf(tables[0]), tables[1..]);
    NamesCons(tables);
  }

  lemma NamesCons(tables: seq<FromTable>)
    requires |tables| >= 1
    ensures Names(tables) == [Named(tables[0].name)] + Names(tables[1..])
  {
    var a := Names(tables);
    var b := [Named(tables[0].name)] + Names(tables[1..]);
    forall i | 0 <= i < |a|
      ensures a[i] == b[i]
    {
      if i > 0 {
        assert b[i] == Names(tables[1..])[i - 1];
      }
    }
  }

  // ---------------------------------------------------------------------
  // NATURAL JOIN

  /** `EQUAL(FieldEval(outer.getColumnByName(name)), FieldEval(inner.getColumnByName(name)))`.
      The fallback to `c` is never taken for a column of `Commons(outer, inner)`. */
  function EqualityOn(outer: Schema, inner: Schema, c: Column): Expr {
    var l := ColumnByName(outer, c.name);
    var r := ColumnByName(inner, c.name);
    Binary(Equal, Field(if l.Some? then l.value else c), Field(if r.Some? then r.value else c))
  }

  /** Folds equalities into a left-nested AND, starting from `acc` (null = None). */
  function AndFold(acc: Option<Expr>, eqs: seq<Expr>): Option<Expr>
    decreases |eqs|
  {
    if eqs == [] then acc
    else AndFold(Some(if acc.None? then eqs[0] else Binary(And, acc.value, eqs[0])), eqs[1..])
  }

  predicate NotConjunction(e: Expr) {
    !(e.Binary? && e.op == And)
  }

  lemma {:induction false} AndFoldConjuncts(acc: Option<Expr>, eqs: seq<Expr>)
    requires forall i :: 0 <= i < |eqs| ==> NotConjunction(eqs[i])
    ensures AndFold(acc, eqs).None? <==> acc.None? && eqs == []
    ensures AndFold(acc, eqs).Some? ==>
      Cnf(AndFold(acc, eqs).value) == (if acc.Some? then Cnf(acc.value) else []) + eqs
    decreases |eqs|
  {
    if eqs != [] {
      var next := if acc.None? then eqs[0] else Binary(And, acc.value, eqs[0]);
      AndFoldConjuncts(Some(next), eqs[1..]);
    }
  }

  function Equalities(outer: Schema, inner: Schema, commons: Schema): (r: seq<Expr>)
    ensures |r| == |commons|
    ensures forall i :: 0 <= i < |commons| ==> r[i] == EqualityOn(outer, inner, commons[i])
  {
    seq(|commons|, i requires 0 <= i < |commons| => EqualityOn(outer, inner, commons[i]))
  }

  /** `getNaturalJoinCondition`: null without common columns, otherwise the
      left-nested AND of one EQUAL per common column, in commons order. */
  function NaturalJoinCondition(outer: Schema, inner: Schema, commons: Schema): (r: Option<Expr>)
    ensures r.None? <==> commons == []
    ensures r.Some? ==> Cnf(r.value) == Equalities(outer, inner, commons)
  {
    AndFoldConjuncts(None, Equalities(outer, inner, commons));
    AndFold(None, Equalities(outer, inner, commons))
  }

  /** Folding one more equality ANDs it onto the right of the fold so far. */
  lemma {:induction false} AndFoldSnoc(acc: Option<Expr>, eqs: seq<Expr>, e: Expr)
    ensures AndFold(acc, eqs + [e])
         == Some(if AndFold(acc, eqs).None? then e else Binary(And, AndFold(acc, eqs).value, e))
    decreases |eqs|
  {
    if eqs == [] {
      assert [] + [e] == [e];
    } else {
      var next := if acc.None? then eqs[0] else Binary(And, acc.value, eqs[0]);
      assert (eqs + [e])[1..] == eqs[1..] + [e];
      AndFoldSnoc(Some(next), eqs[1..], e);
    }
  }

  /** The natural-join predicate is left-nested: one common column gives its
      equality alone, and each further column ANDs its equality onto the
      predicate of the columns before it. */
  lemma NaturalJoinConditionShape(outer: Schema, inner: Schema, commons: Schema)
    requires commons != []
    ensures var last := EqualityOn(outer, inner, commons[|commons| - 1]);
      NaturalJoinCondition(outer, inner, commons).value
      == if |commons| == 1 then last
         else Binary(And, NaturalJoinCondition(outer, inner, commons[..|commons| - 1]).value, last)
  {
    var n := |commons|;
    var eqs := Equalities(outer, inner, commons);
    var front := Equalities(outer, inner, commons[..n - 1]);
    assert eqs == front + [eqs[n - 1]];
    AndFoldSnoc(None, front, eqs[n - 1]);
    if n == 1 {
      assert front == [];
    } else {
      assert NaturalJoinCondition(outer, inner, commons[..n - 1]) == AndFold(None, front);
      assert |commons[..n - 1]| > 0;
    }
  }

  /** Each equality of the natural-join predicate compares the same-named
      column of the outer side with that of the inner side. */
  lemma NaturalEqualityColumns(outer: Schema, inner: Schema, i: nat)
    requires i < |Commons(outer, inner)|
    ensures var e := Equalities(outer, inner, Commons(outer, inner))[i];
      var name := Commons(outer, inner)[i].name;
      e.op == Equal && e.left.col in outer && e.left.col.name == name
      && e.right.col in inner && e.right.col.name == name
  {
  }

  /** The nested loop of `getNaturalJoin` as written: a column is appended once
      for every common column whose name differs from its own. */
  function CopiesAsWritten(c: Column, commons: Schema): Schema {
    if commons == [] then []
    else (if commons[0].name != c.name then [c] else []) + CopiesAsWritten(c, commons[1..])
  }

  function RepeatsAsWritten(cols: Schema, commons: Schema): Schema {
    if cols == [] then [] else CopiesAsWritten(cols[0], commons) + RepeatsAsWritten(cols[1..], commons)
  }

  /** `getNaturalJoin` exactly as written. */
  function NaturalJoinSchemaAsWritten(outer: Schema, inner: Schema): Schema {
    var commons := Commons(outer, inner);
    commons + RepeatsAsWritten(outer, commons) + RepeatsAsWritten(inner, commons)
  }

  /** The columns of `cols` whose name is not a common column name. */
  function NonCommon(cols: Schema, commons: Schema): Schema {
    if cols == [] then []
    else (if HasName(commons, cols[0].name) then [] else [cols[0]]) + NonCommon(cols[1..], commons)
  }

  /** The natural-join schema as intended: the common columns once, then the
      outer side's other columns, then the inner side's. */
  function NaturalJoinSchema(outer: Schema, inner: Schema): Schema {
    var commons := Commons(outer, inner);
    commons + NonCommon(outer, commons) + NonCommon(inner, commons)
  }

  lemma {:induction false} NonCommonCount(cols: Schema, commons: Schema, c: Column)
    ensures multiset(NonCommon(cols, commons))[c] == if HasName(commons, c.name) then 0 else multiset(cols)[c]
  {
    if cols != [] {
      NonCommonCount(cols[1..], commons, c);
      assert cols == [cols[0]] + cols[1..];
    }
  }

  lemma {:induction false} NonCommonNames(cols: Schema, commons: Schema)
    ensures forall i :: 0 <= i < |NonCommon(cols, commons)| ==>
      !HasName(commons, NonCommon(cols, commons)[i].name) && NonCommon(cols, commons)[i] in cols
  {
    if cols != [] {
      NonCommonNames(cols[1..], commons);
    }
  }

  /** The corrected natural-join schema starts with the common columns and
      lists no common column afterwards; every later column comes from one side. */
  lemma NaturalJoinSchemaLayout(outer: Schema, inner: Schema)
    ensures var commons := Commons(outer, inner);
      var r := NaturalJoinSchema(outer, inner);
      r[..|commons|] == commons
      && forall i :: |commons| <= i < |r| ==> !HasName(commons, r[i].name) && (r[i] in outer || r[i] in inner)
  {
    var commons := Commons(outer, inner);
    var r := NaturalJoinSchema(outer, inner);
    var rest := NonCommon(outer, commons) + NonCommon(inner, commons);
    assert r == commons + rest;
    assert r[..|commons|] == commons;
    forall i | |commons| <= i < |r|
      ensures !HasName(commons, r[i].name) && (r[i] in outer || r[i] in inner)
    {
      SchemaAfterCommons(commons, rest, i);
      NonCommonTailAt(outer, inner, commons, i - |commons|);
    }
  }

  /** Past the prefix, a concatenation reads from its second part. */
  lemma SchemaAfterCommons(commons: Schema, rest: Schema, i: int)
    requires |commons| <= i < |commons| + |rest|
    ensures (commons + rest)[i] == rest[i - |commons|]
  {
  }

  /** One column after the common ones: not a common name, and from a side. */
  lemma NonCommonTailAt(outer: Schema, inner: Schema, commons: Schema, k: int)
    requires 0 <= k < |NonCommon(outer, commons) + NonCommon(inner, commons)|
    ensures var c := (NonCommon(outer, commons) + NonCommon(inner, commons))[k];
      !HasName(commons, c.name) && (c in outer || c in inner)
  {
    var left := NonCommon(outer, commons);
    var right := NonCommon(inner, commons);
    NonCommonNames(outer, commons);
    NonCommonNames(inner, commons);
    if k < |left| { assert (left + right)[k] == left[k]; }
    else { assert (left + right)[k] == right[k - |left|]; }
  }

  /** Every column of either side whose name is not common appears in the
      corrected schema exactly as often as the two sides together have it. */
  lemma NaturalJoinSchemaKeepsOthersOnce(outer: Schema, inner: Schema, c: Column)
    requires !HasName(Commons(outer, inner), c.name)
    ensures multiset(NaturalJoinSchema(outer, inner))[c] == multiset(outer)[c] + multiset(inner)[c]
  {
    var commons := Commons(outer, inner);
    NonCommonCount(outer, commons, c);
    NonCommonCount(inner, commons, c);
    assert forall k :: 0 <= k < |commons| ==> commons[k] != c;
    assert c !in multiset(commons);
    assert NaturalJoinSchema(outer, inner) == commons + NonCommon(outer, commons) + NonCommon(inner, commons);
  }

  // The schemas r(a, b, c) and s(b, c, d) of the natural-join example.
  const ColA := Column("r", "a", "int")
  const ColB := Column("r", "b", "int")
  const ColC := Column("r", "c", "int")
  const ColB2 := Column("s", "b", "int")
  const ColC2 := Column("s", "c", "int")
  const ColD := Column("s", "d", "int")
  const CommonB := Column("", "b", "int")
  const CommonC := Column("", "c", "int")

  lemma CounterexampleCommons()
    ensures Commons([ColA, ColB, ColC], [ColB2, ColC2, ColD]) == [CommonB, CommonC]
  {
    var inner := [ColB2, ColC2, ColD];
    assert HasName(inner, "b") by { assert inner[0].name == "b"; }
    assert HasName(inner, "c") by { assert inner[1].name == "c"; }
    assert !HasName(inner, "a") by {
      forall i | 0 <= i < |inner| ensures inner[i].name != "a" {
        assert i == 0 || i == 1 || i == 2;
      }
    }
    assert [ColA, ColB, ColC][1..] == [ColB, ColC];
    assert [ColB, ColC][1..] == [ColC];
    assert Commons([ColC], inner) == [CommonC];
    assert Commons([ColB, ColC], inner) == [CommonB, CommonC];
  }

  lemma CommonNamesOfExample()
    ensures HasName([CommonB, CommonC], "b") && HasName([CommonB, CommonC], "c")
    ensures !HasName([CommonB, CommonC], "a") && !HasName([CommonB, CommonC], "d")
  {
    var commons := [CommonB, CommonC];
    assert commons[0].name == "b" && commons[1].name == "c";
    forall i | 0 <= i < |commons| ensures commons[i].name != "a" && commons[i].name != "d" {
      assert i == 0 || i == 1;
    }
  }

  lemma CopiesOverTwo(c: Column, x: Column, y: Column)
    ensures CopiesAsWritten(c, [x, y])
      == (if x.name != c.name then [c] else []) + (if y.name != c.name then [c] else [])
  {
    var first: Schema := if x.name != c.name then [c] else [];
    var second: Schema := if y.name != c.name then [c] else [];
    assert [x, y][1..] == [y];
    assert [y][1..] == [];
    assert CopiesAsWritten(c, [y]) == second + CopiesAsWritten(c, []);
    assert CopiesAsWritten(c, [x, y]) == first + CopiesAsWritten(c, [y]);
    assert second + [] == second;
  }

  lemma NamesDiffer()
    ensures "a" != "b" && "a" != "c" && "b" != "c" && "d" != "b" && "d" != "c"
  {
    assert "a"[0] != "b"[0] && "a"[0] != "c"[0] && "b"[0] != "c"[0];
    assert "d"[0] != "b"[0] && "d"[0] != "c"[0];
  }

  lemma RepeatsOverThree(x: Column, y: Column, z: Column, commons: Schema)
    ensures RepeatsAsWritten([x, y, z], commons)
      == CopiesAsWritten(x, commons) + CopiesAsWritten(y, commons) + CopiesAsWritten(z, commons)
  {
    assert [x, y, z][1..] == [y, z];
    assert [y, z][1..] == [z];
    assert [z][1..] == [];
    var cx, cy, cz := CopiesAsWritten(x, commons), CopiesAsWritten(y, commons), CopiesAsWritten(z, commons);
    assert RepeatsAsWritten([z], commons) == cz + RepeatsAsWritten([], commons) == cz;
    assert RepeatsAsWritten([y, z], commons) == cy + cz;
    assert RepeatsAsWritten([x, y, z], commons) == cx + (cy + cz);
    assert cx + (cy + cz) == cx + cy + cz;
  }

  lemma NonCommonOverThree(x: Column, y: Column, z: Column, commons: Schema)
    ensures NonCommon([x, y, z], commons)
      == (if HasName(commons, x.name) then [] else [x])
       + (if HasName(commons, y.name) then [] else [y])
       + (if HasName(commons, z.name) then [] else [z])
  {
    assert [x, y, z][1..] == [y, z];
    assert [y, z][1..] == [z];
    assert [z][1..] == [];
    var kx: Schema := if HasName(commons, x.name) then [] else [x];
    var ky: Schema := if HasName(commons, y.name) then [] else [y];
    var kz: Schema := if HasName(commons, z.name) then [] else [z];
    assert NonCommon([z], commons) == kz + NonCommon([], commons) == kz;
    assert NonCommon([y, z], commons) == ky + kz;
    assert NonCommon([x, y, z], commons) == kx + (ky + kz);
    assert kx + (ky + kz) == kx + ky + kz;
  }

  lemma ExampleCopies()
    ensures CopiesAsWritten(ColA, [CommonB, CommonC]) == [ColA, ColA]
    ensures CopiesAsWritten(ColB, [CommonB, CommonC]) == [ColB]
    ensures CopiesAsWritten(ColC, [CommonB, CommonC]) == [ColC]
    ensures CopiesAsWritten(ColB2, [CommonB, CommonC]) == [ColB2]
    ensures CopiesAsWritten(ColC2, [CommonB, CommonC]) == [ColC2]
    ensures CopiesAsWritten(ColD, [CommonB, CommonC]) == [ColD, ColD]
  {
    NamesDiffer();
    CopiesOverTwo(ColA, CommonB, CommonC);
    CopiesOverTwo(ColB, CommonB, CommonC);
    CopiesOverTwo(ColC, CommonB, CommonC);
    CopiesOverTwo(ColB2, CommonB, CommonC);
    CopiesOverTwo(ColC2, CommonB, CommonC);
    CopiesOverTwo(ColD, CommonB, CommonC);
  }

  lemma ExampleRepeats()
    ensures RepeatsAsWritten([ColA, ColB, ColC], [CommonB, CommonC]) == [ColA, ColA, ColB, ColC]
    ensures RepeatsAsWritten([ColB2, ColC2, ColD], [CommonB, CommonC]) == [ColB2, ColC2, ColD, ColD]
  {
    ExampleCopies();
    RepeatsOverThree(ColA, ColB, ColC, [CommonB, CommonC]);
    RepeatsOverThree(ColB2, ColC2, ColD, [CommonB, CommonC]);
  }

  /** For schemas r(a, b, c) and s(b, c, d) the code as written lists a, d and
      the common columns more than once: (b, c, a, a, b, c, b, c, d, d). */
  lemma NaturalJoinSchemaCounterexample()
    ensures NaturalJoinSchemaAsWritten([ColA, ColB, ColC], [ColB2, ColC2, ColD])
      == [CommonB, CommonC, ColA, ColA, ColB, ColC, ColB2, ColC2, ColD, ColD]
  {
    CounterexampleCommons();
    ExampleRepeats();
  }

  /** The corrected schema of the same example is (b, c, a, d). */
  lemma NaturalJoinSchemaExample()
    ensures NaturalJoinSchema([ColA, ColB, ColC], [ColB2, ColC2, ColD]) == [CommonB, CommonC, ColA, ColD]
  {
    CounterexampleCommons();
    CommonNamesOfExample();
    var commons := [CommonB, CommonC];
    NonCommonOverThree(ColA, ColB, ColC, commons);
    NonCommonOverThree(ColB2, ColC2, ColD, commons);
  }

  // ---------------------------------------------------------------------
  // Explicit join clauses

  datatype JoinRight = RightTable(table: FromTable) | RightJoin(clause: JoinClause)

  /** `JoinClause`: `left <jtype> JOIN right [ON qual | USING (usingCols)]`. */
  datatype JoinClause = JoinClause(jtype: JoinType, left: FromTable, qual: Option<Expr>, usingCols: seq<Column>, right: JoinRight)

  /** `createExplicitJoinTree_`: a right-nested chain in the order written; a
      NATURAL join gets the synthesised predicate and schema, any other join
      its ON predicate and the merged schema. A USING list is ignored. */
  function ExplicitJoinTree(c: JoinClause): (r: Node)
    ensures r.Join? && r.jtype == c.jtype && r.outer == ScanOf(c.left)
    ensures c.right.RightTable? ==> r.inner == ScanOf(c.right.table)
    ensures c.right.RightJoin? ==> r.inner == ExplicitJoinTree(c.right.clause)
    ensures c.jtype != NaturalJoin ==> r.qual == c.qual && r.out == Merge(r.outer.out, r.inner.out)
    ensures c.jtype == NaturalJoin ==>
      r.qual == NaturalJoinCondition(r.outer.out, r.inner.out, Commons(r.outer.out, r.inner.out))
      && r.out == NaturalJoinSchemaAsWritten(r.outer.out, r.inner.out)
    decreases c
  {
    var outer := ScanOf(c.left);
    var inner := match c.right
      case RightTable(t) => ScanOf(t)
      case RightJoin(rc) => ExplicitJoinTree(rc);
    if c.jtype == NaturalJoin then
      var commons := Commons(outer.out, inner.out);
      Join(NaturalJoin, NaturalJoinCondition(outer.out, inner.out, commons), outer, inner,
           NaturalJoinSchemaAsWritten(outer.out, inner.out))
    else
      Join(c.jtype, c.qual, outer, inner, Merge(outer.out, inner.out))
  }

  /** The tables of a join clause in the order the query writes them. */
  function ClauseTables(c: JoinClause): (r: seq<FromTable>)
    ensures |r| >= 2 && r[0] == c.left
    decreases c
  {
    [c.left] + match c.right
      case RightTable(t) => [t]
      case RightJoin(rc) => ClauseTables(rc)
  }

  /** A right-deep chain of joins: every outer child is a scan, and the
      innermost inner child too. */
  predicate RightDeep(n: Node) {
    n.Join? && n.outer.Scan? && (n.inner.Scan? || RightDeep(n.inner))
  }

  /** The explicit join tree is a right-deep chain that scans every table of
      the clause once, in the order written. */
  lemma {:induction false} ExplicitJoinLeaves(c: JoinClause)
    ensures RightDeep(ExplicitJoinTree(c))
    ensures Leaves(ExplicitJoinTree(c)) == Names(ClauseTables(c))
    decreases c
  {
    var r := ExplicitJoinTree(c);
    match c.right
    case RightTable(t) =>
      assert Leaves(r) == [Named(c.left.name), Named(t.name)];
    case RightJoin(rc) =>
      ExplicitJoinLeaves(rc);
      assert Leaves(r) == [Named(c.left.name)] + Names(ClauseTables(rc));
  }

  /** The USING column list has no effect on the plan. */
  lemma UsingIsIgnored(c: JoinClause, cols: seq<Column>)
    ensures ExplicitJoinTree(c.(usingCols := cols)) == ExplicitJoinTree(c)
  {
  }
}
