/** `LogicalPlanner`: from a parsed statement to a logical operator tree.
    A SELECT block is planned bottom-up: the join tree of its FROM clause,
    then Selection, GroupBy (or the CUBE union), Sort, Projection and the
    DISTINCT duplicate-removal GroupBy, each layer only when its clause is
    present. */
module Planner {
  import opened Base
  import opened Schemas
  import opened Logical
  import opened Joins
  import opened Cube
  import opened JoinOrder

  /** `GroupType` of a group element; `OtherGrouping` stands for every type
      `buildSelectPlan` has no branch for. */
  datatype GroupType = Plain | CubeGroup | OtherGrouping

  datatype GroupElement = GroupElement(gtype: GroupType, cols: seq<Column>)

  /** The FROM clause: none, a comma-separated table list, or an explicit
      JOIN clause (with the tables it names). */
  datatype FromClause =
    | NoFrom
    | Implicit(tables: seq<FromTable>)
    | Explicit(tables: seq<FromTable>, join: JoinClause)

  /** `QueryBlock`: the clauses of one SELECT. */
  datatype QueryBlock = QueryBlock(
    from: FromClause,
    where: Option<Expr>,
    aggregation: bool,
    distinct: bool,
    groupSet: Option<seq<GroupElement>>,
    having: Option<Expr>,
    sortKeys: Option<seq<Column>>,
    projectAll: bool,
    targets: seq<Target>)

  /** The planning `Context`: its target list and the catalog's table schemas. */
  datatype Context = Context(targets: seq<Target>, catalog: map<string, Schema>)

  datatype SetKind = UnionSet | ExceptSet | IntersectSet

  /** `ParseTree` by statement type. `CreateTableBare` is a CREATE TABLE with
      neither a definition nor a SELECT; `Unsupported` is every other type. */
  datatype ParseTree =
    | Select(block: QueryBlock)
    | SetStmt(kind: SetKind, left: ParseTree, right: ParseTree)
    | CreateIndex(index: string, table: string)
    | CreateTableDef(name: string, schema: Schema)
    | CreateTableAs(name: string, select: QueryBlock)
    | CreateTableBare(name: string)
    | Unsupported

  function FromTables(f: FromClause): seq<FromTable> {
    match f
    case NoFrom => []
    case Implicit(t) => t
    case Explicit(t, _) => t
  }

  /** The conjuncts of the WHERE clause, if there is one. */
  function WhereCnf(q: QueryBlock): Option<seq<Expr>> {
    match q.where
    case None => None
    case Some(w) => Some(Cnf(w))
  }

  /** The join tree of the FROM clause (`createExplicitJoinTree` or
      `createImplicitJoinTree`). */
  function JoinTreeOf(q: QueryBlock): Result<Node>
    requires !q.from.NoFrom?
  {
    match q.from
    case Implicit(tables) => ImplicitJoinTree(tables, WhereCnf(q))
    case Explicit(_, c) => Ok(ExplicitJoinTree(c))
  }

  // ---------------------------------------------------------------------
  // The layers of `buildSelectPlan`

  function WithSelection(q: QueryBlock, sub: Node): Node {
    match q.where
    case None => sub
    case Some(w) => Selection(w, sub, sub.out)
  }

  /** The aggregation layer: a GroupBy, the CUBE union, or nothing; DISTINCT
      with aggregation is rejected, and a HAVING clause on any grouping other
      than a plain GROUP BY dereferences the still-null `groupbyNode`. */
  function WithAggregation(ctx: Context, q: QueryBlock, sub: Node): Result<Node> {
    if !q.aggregation then Ok(sub)
    else if q.distinct then Err(InvalidQuery)
    else
      match q.groupSet
      case None => Ok(GroupBy([], None, ctx.targets, sub, ProjectedSchema(ctx.targets)))
      case Some(gs) =>
        if gs == [] then Err(IndexOutOfBounds)
        else if gs[0].gtype == Plain then
          Ok(GroupBy(gs[0].cols, q.having, ctx.targets, sub, ProjectedSchema(ctx.targets)))
        else
          var grouped :-
            if gs[0].gtype == CubeGroup then
              var u :- CreateGroupByUnionByCube(ctx.targets, sub, gs[0].cols);
              Ok(Union(u.outer, u.inner, ProjectedSchema(ctx.targets)))
            else Ok(sub);
          if q.having.Some? then Err(NullPointer) else Ok(grouped)
  }

  function WithSort(q: QueryBlock, sub: Node): Node {
    match q.sortKeys
    case None => sub
    case Some(keys) => Sort(keys, sub, sub.out)
  }

  function WithProjection(q: QueryBlock, sub: Node): Node {
    if q.projectAll then
      var merged := ConcatSchemas(FromTables(q.from));
      Projection(SchemaToTargets(merged), sub, merged)
    else Projection(q.targets, sub, ProjectedSchema(q.targets))
  }

  function WithDistinct(ctx: Context, q: QueryBlock, sub: Node): Node {
    if q.distinct then GroupBy(sub.out, None, ctx.targets, sub, ProjectedSchema(ctx.targets)) else sub
  }

  /** `buildSelectPlan`. Without a FROM clause the plan is a single EvalExpr
      node over the target list. */
  function BuildSelectPlan(ctx: Context, q: QueryBlock): (r: Result<Node>)
    ensures q.from.NoFrom? ==> r.Ok? && r.value.EvalExpr? && r.value.out == ProjectedSchema(q.targets)
    ensures r.Ok? && !q.from.NoFrom? && q.distinct ==>
      r.value.GroupBy? && r.value.sub.Projection? && r.value.keys == r.value.sub.out
      && r.value.having.None? && r.value.out == ProjectedSchema(ctx.targets)
    ensures r.Ok? && !q.from.NoFrom? && !q.distinct ==> r.value.Projection?
    ensures r.Ok? && !q.from.NoFrom? && q.projectAll ==>
      ProjectionOf(r.value, q).out == ConcatSchemas(FromTables(q.from))
    ensures r.Ok? && !q.from.NoFrom? && !q.projectAll ==>
      ProjectionOf(r.value, q).out == ProjectedSchema(q.targets)
  {
    if q.from.NoFrom? then Ok(EvalExpr(q.targets, ProjectedSchema(q.targets)))
    else
      var joined :- JoinTreeOf(q);
      var grouped :- WithAggregation(ctx, q, WithSelection(q, joined));
      Ok(WithDistinct(ctx, q, WithProjection(q, WithSort(q, grouped))))
  }

  /** The Projection of a select plan: the top node, or the one right under
      the duplicate-removal GroupBy. */
  function ProjectionOf(n: Node, q: QueryBlock): Node {
    if q.distinct && n.GroupBy? then n.sub else n
  }

  // ---------------------------------------------------------------------
  // Properties of the select plan

  /** The node kinds down the chain of single-child nodes, ending with the
      first node that is not single-child (a join, a union, a scan). */
  function Layers(n: Node): seq<Kind> {
    if IsUnary(n) then [KindOf(n)] + Layers(n.sub) else [KindOf(n)]
  }

  /** Along the chain of single-child nodes, every Selection and Sort has its
      child's schema. */
  predicate KeepsSchema(n: Node) {
    IsUnary(n) ==> ((n.Selection? || n.Sort?) ==> n.out == n.sub.out) && KeepsSchema(n.sub)
  }

  predicate IsCube(q: QueryBlock) {
    q.aggregation && q.groupSet.Some? && q.groupSet.value != [] && q.groupSet.value[0].gtype == CubeGroup
  }

  /** The layers the clauses call for above the aggregation, top-down. */
  function UpperLayers(q: QueryBlock): seq<Kind> {
    (if q.distinct then [GroupByK] else []) + [ProjectionK] + (if q.sortKeys.Some? then [SortK] else [])
  }

  /** The aggregation layer, when it is a single-child node. */
  function GroupLayer(q: QueryBlock): seq<Kind> {
    if !q.aggregation then []
    else if q.groupSet.None? then [GroupByK]
    else if q.groupSet.value != [] && q.groupSet.value[0].gtype == Plain then [GroupByK]
    else []
  }

  function LowerLayers(q: QueryBlock): seq<Kind> {
    if q.where.Some? then [SelectionK] else []
  }

  /** When planning fails: the join tree fails, or an aggregation query is
      DISTINCT, has an empty group set, or puts HAVING or an empty CUBE on a
      grouping other than a plain GROUP BY. */
  predicate SelectFails(ctx: Context, q: QueryBlock)
    requires !q.from.NoFrom?
  {
    JoinTreeOf(q).Err?
    || (q.aggregation && (q.distinct
        || (q.groupSet.Some? && (q.groupSet.value == []
            || (q.groupSet.value[0].gtype != Plain
                && (q.having.Some? || (q.groupSet.value[0].gtype == CubeGroup && q.groupSet.value[0].cols == [])))))))
  }

  lemma SelectionLayers(q: QueryBlock, sub: Node)
    ensures Layers(WithSelection(q, sub)) == LowerLayers(q) + Layers(sub)
    ensures KeepsSchema(sub) ==> KeepsSchema(WithSelection(q, sub))
    ensures Leaves(WithSelection(q, sub)) == Leaves(sub)
  {
  }

  lemma SortLayer(q: QueryBlock, sub: Node)
    ensures Layers(WithSort(q, sub)) == (if q.sortKeys.Some? then [SortK] else []) + Layers(sub)
    ensures KeepsSchema(sub) ==> KeepsSchema(WithSort(q, sub))
    ensures Leaves(WithSort(q, sub)) == Leaves(sub)
  {
    if q.sortKeys.Some? {
      var n := WithSort(q, sub);
      assert n.Sort? && n.sub == sub && n.out == sub.out;
    }
  }

  lemma ProjectionLayer(q: QueryBlock, sub: Node)
    ensures Layers(WithProjection(q, sub)) == [ProjectionK] + Layers(sub)
    ensures KeepsSchema(sub) ==> KeepsSchema(WithProjection(q, sub))
    ensures Leaves(WithProjection(q, sub)) == Leaves(sub)
  {
    var n := WithProjection(q, sub);
    assert n.Projection? && n.sub == sub;
  }

  lemma DistinctLayer(ctx: Context, q: QueryBlock, sub: Node)
    ensures Layers(WithDistinct(ctx, q, sub)) == (if q.distinct then [GroupByK] else []) + Layers(sub)
    ensures KeepsSchema(sub) ==> KeepsSchema(WithDistinct(ctx, q, sub))
    ensures Leaves(WithDistinct(ctx, q, sub)) == Leaves(sub)
  {
    if q.distinct {
      var n := WithDistinct(ctx, q, sub);
      assert n.GroupBy? && n.sub == sub;
    }
  }

  lemma UpperLayersOf(ctx: Context, q: QueryBlock, grouped: Node)
    ensures Layers(WithDistinct(ctx, q, WithProjection(q, WithSort(q, grouped)))) == UpperLayers(q) + Layers(grouped)
    ensures KeepsSchema(grouped) ==> KeepsSchema(WithDistinct(ctx, q, WithProjection(q, WithSort(q, grouped))))
    ensures Leaves(WithDistinct(ctx, q, WithProjection(q, WithSort(q, grouped)))) == Leaves(grouped)
  {
    var s := WithSort(q, grouped);
    var p := WithProjection(q, s);
    SortLayer(q, grouped);
    ProjectionLayer(q, s);
    DistinctLayer(ctx, q, p);
    var a: seq<Kind> := if q.distinct then [GroupByK] else [];
    var c: seq<Kind> := if q.sortKeys.Some? then [SortK] else [];
    SeqAssoc(a, [ProjectionK], c);
    SeqAssoc([ProjectionK], c, Layers(grouped));
    SeqAssoc(a, [ProjectionK] + c, Layers(grouped));
  }

  /** Planning a block with a FROM clause fails exactly in the cases of
      `SelectFails`; DISTINCT with aggregation over a valid FROM clause is an
      InvalidQuery error. */
  lemma SelectPlanErrors(ctx: Context, q: QueryBlock)
    requires !q.from.NoFrom?
    ensures BuildSelectPlan(ctx, q).Err? <==> SelectFails(ctx, q)
    ensures JoinTreeOf(q).Ok? && q.aggregation && q.distinct ==> BuildSelectPlan(ctx, q) == Err(InvalidQuery)
  {
    var r := BuildSelectPlan(ctx, q);
    if JoinTreeOf(q).Ok? {
      var sel := WithSelection(q, JoinTreeOf(q).value);
      if q.aggregation && !q.distinct && q.groupSet.Some? && q.groupSet.value != []
        && q.groupSet.value[0].gtype == CubeGroup {
        var cols := q.groupSet.value[0].cols;
        assert CreateGroupByUnionByCube(ctx.targets, sel, cols).Ok? <==> |cols| >= 1;
      }
    }
  }

  /** A successful select plan stacks, top-down, the DISTINCT GroupBy, the
      Projection, the Sort, the aggregation GroupBy and the Selection, each
      only when its clause is present, over the join tree; every Selection
      and Sort keeps its child's schema, and the plan reads exactly the join
      tree's tables. */
  lemma SelectPlanLayers(ctx: Context, q: QueryBlock)
    requires !q.from.NoFrom? && !IsCube(q) && BuildSelectPlan(ctx, q).Ok?
    ensures JoinTreeOf(q).Ok?
    ensures Layers(BuildSelectPlan(ctx, q).value)
      == UpperLayers(q) + GroupLayer(q) + LowerLayers(q) + Layers(JoinTreeOf(q).value)
    ensures Leaves(BuildSelectPlan(ctx, q).value) == Leaves(JoinTreeOf(q).value)
    ensures KeepsSchema(BuildSelectPlan(ctx, q).value)
  {
    var joined := JoinTreeOf(q).value;
    var sel := WithSelection(q, joined);
    SelectionLayers(q, joined);
    assert joined.Join? || joined.Scan?;
    JoinTreeKeepsSchema(joined);
    var grouped := WithAggregation(ctx, q, sel).value;
    AggregationLayer(ctx, q, sel);
    UpperLayersOf(ctx, q, grouped);
    assert BuildSelectPlan(ctx, q).value == WithDistinct(ctx, q, WithProjection(q, WithSort(q, grouped)));
    SeqAssoc(GroupLayer(q), LowerLayers(q), Layers(joined));
    SeqAssoc(UpperLayers(q), GroupLayer(q) + LowerLayers(q), Layers(joined));
    SeqAssoc(UpperLayers(q), GroupLayer(q), LowerLayers(q));
  }

  /** `SELECT * FROM a, b, c, d WHERE a.k = b.k AND c.k = d.k` is planned
      over a join tree that scans only a and b: the tables c and d of the
      second predicate are never read. */
  lemma DisconnectedSelect(ctx: Context, a: string, b: string, c: string, d: string)
    requires a != b && a != c && a != d && b != c && b != d && c != d
    ensures var q := QueryBlock(Implicit([TableOf(a), TableOf(b), TableOf(c), TableOf(d)]),
                                Some(Binary(And, EqOn(a, b), EqOn(c, d))),
                                false, false, None, None, None, true, []);
      BuildSelectPlan(ctx, q).Ok? && Leaves(BuildSelectPlan(ctx, q).value) == [Named(a), Named(b)]
  {
    var tables := [TableOf(a), TableOf(b), TableOf(c), TableOf(d)];
    var q := QueryBlock(Implicit(tables), Some(Binary(And, EqOn(a, b), EqOn(c, d))),
                        false, false, None, None, None, true, []);
    assert Cnf(EqOn(a, b)) == [EqOn(a, b)] && Cnf(EqOn(c, d)) == [EqOn(c, d)];
    assert WhereCnf(q) == Some([EqOn(a, b)] + [EqOn(c, d)]);
    DisconnectedJoinCounterexample(a, b, c, d);
    assert JoinTreeOf(q) == CrossJoinFromJoinConditionAsWritten(tables, [EqOn(a, b), EqOn(c, d)]);
    SelectPlanErrors(ctx, q);
    SelectPlanLayers(ctx, q);
  }

  /** Under CUBE the chain of single-child nodes ends at the Union of the
      cuboid GroupBys, and each branch is a GroupBy over the Selection over
      the join tree. */
  lemma CubePlanLayers(ctx: Context, q: QueryBlock)
    requires !q.from.NoFrom? && IsCube(q) && BuildSelectPlan(ctx, q).Ok?
    ensures JoinTreeOf(q).Ok?
    ensures Layers(BuildSelectPlan(ctx, q).value) == UpperLayers(q) + [UnionK]
    ensures forall b | b in Branches(Descend(BuildSelectPlan(ctx, q).value, |UpperLayers(q)|)) ::
      b.GroupBy? && Layers(b.sub) == LowerLayers(q) + Layers(JoinTreeOf(q).value)
    ensures KeepsSchema(BuildSelectPlan(ctx, q).value)
  {
    var joined := JoinTreeOf(q).value;
    var sel := WithSelection(q, joined);
    SelectionLayers(q, joined);
    var gs := q.groupSet.value;
    var u := CreateGroupByUnionByCube(ctx.targets, sel, gs[0].cols).value;
    var grouped := Union(u.outer, u.inner, ProjectedSchema(ctx.targets));
    assert WithAggregation(ctx, q, sel) == Ok(grouped);
    assert Branches(grouped) == Branches(u);
    assert Layers(grouped) == [UnionK] && KeepsSchema(grouped);
    UpperLayersOf(ctx, q, grouped);
    DescendUpper(ctx, q, grouped);
    forall b | b in Branches(grouped) ensures b.GroupBy? && Layers(b.sub) == LowerLayers(q) + Layers(joined) {
      var i :| 0 <= i < |Branches(grouped)| && Branches(grouped)[i] == b;
    }
  }

  lemma AggregationLayer(ctx: Context, q: QueryBlock, sub: Node)
    requires !IsCube(q) && WithAggregation(ctx, q, sub).Ok?
    ensures Layers(WithAggregation(ctx, q, sub).value) == GroupLayer(q) + Layers(sub)
    ensures KeepsSchema(sub) ==> KeepsSchema(WithAggregation(ctx, q, sub).value)
    ensures Leaves(WithAggregation(ctx, q, sub).value) == Leaves(sub)
  {
    var n := WithAggregation(ctx, q, sub).value;
    if GroupLayer(q) != [] {
      assert n.GroupBy? && n.sub == sub;
    } else {
      assert n == sub;
    }
  }

  lemma JoinTreeKeepsSchema(n: Node)
    requires !IsUnary(n)
    ensures KeepsSchema(n) && Layers(n) == [KindOf(n)]
  {
  }

  /** Going down `k` single-child nodes. */
  function Descend(n: Node, k: nat): Node {
    if k == 0 || !IsUnary(n) then n else Descend(n.sub, k - 1)
  }

  lemma DescendUpper(ctx: Context, q: QueryBlock, grouped: Node)
    ensures Descend(WithDistinct(ctx, q, WithProjection(q, WithSort(q, grouped))), |UpperLayers(q)|) == grouped
  {
    var s := WithSort(q, grouped);
    var p := WithProjection(q, s);
    assert Descend(s, |if q.sortKeys.Some? then [SortK] else []|) == grouped;
    assert Descend(p, 1 + |if q.sortKeys.Some? then [SortK] else []|) == grouped;
  }

  // ---------------------------------------------------------------------
  // Statements

  /** `createPlanInternal`: dispatch on the statement type. A set operation
      takes its outer side's schema; a CREATE TABLE with neither a
      definition nor a SELECT yields no plan, which the caller dereferences. */
  function CreatePlanInternal(ctx: Context, t: ParseTree): (r: Result<Node>)
    ensures t.Unsupported? ==> r == Err(NotSupportQuery)
    ensures t.CreateTableBare? ==> r == Err(NullPointer)
    ensures t.Select? ==> r == BuildSelectPlan(ctx, t.block)
    ensures t.SetStmt? ==> (r.Ok? <==> CreatePlanInternal(ctx, t.left).Ok? && CreatePlanInternal(ctx, t.right).Ok?)
    ensures t.SetStmt? && r.Ok? ==>
      IsBinary(r.value) && r.value.outer == CreatePlanInternal(ctx, t.left).value
      && r.value.inner == CreatePlanInternal(ctx, t.right).value
      && r.value.out == r.value.outer.out
    ensures t.SetStmt? && r.Ok? ==>
      (t.kind == UnionSet <==> r.value.Union?) && (t.kind == ExceptSet <==> r.value.Except?)
      && (t.kind == IntersectSet <==> r.value.Intersect?)
    ensures t.CreateIndex? ==> (r.Ok? <==> t.table in ctx.catalog)
    ensures t.CreateIndex? && r.Ok? ==>
      r.value.IndexWrite? && r.value.sub == Scan(Named(t.table), ctx.catalog[t.table], false)
      && r.value.out == ctx.catalog[t.table]
    ensures t.CreateTableAs? ==> (r.Ok? <==> BuildSelectPlan(ctx, t.select).Ok?)
    ensures t.CreateTableAs? && r.Ok? ==>
      r.value.Store? && r.value.table == Named(t.name) && r.value.sub == BuildSelectPlan(ctx, t.select).value
      && r.value.out == r.value.sub.out
  {
    match t
    case Select(block) => BuildSelectPlan(ctx, block)
    case SetStmt(kind, left, right) =>
      var outer :- CreatePlanInternal(ctx, left);
      var inner :- CreatePlanInternal(ctx, right);
      Ok(match kind
        case UnionSet => Union(outer, inner, outer.out)
        case ExceptSet => Except(outer, inner, outer.out)
        case IntersectSet => Intersect(outer, inner, outer.out))
    case CreateIndex(index, table) =>
      if table !in ctx.catalog then Err(NoSuchTable)
      else
        var schema := ctx.catalog[table];
        Ok(IndexWrite(index, Scan(Named(table), schema, false), schema))
    case CreateTableDef(name, schema) => Ok(CreateTable(name, schema))
    case CreateTableAs(name, block) =>
      var sub :- BuildSelectPlan(ctx, block);
      Ok(Store(Named(name), false, NoPartitioning, sub, sub.out))
    case CreateTableBare(_) => Err(NullPointer)
    case Unsupported => Err(NotSupportQuery)
  }

  /** `createPlan`: the statement's plan under a LogicalRoot of the same schema. */
  function CreatePlan(ctx: Context, t: ParseTree): (r: Result<Node>)
    ensures r.Ok? <==> CreatePlanInternal(ctx, t).Ok?
    ensures r.Ok? ==> r.value.Root? && r.value.sub == CreatePlanInternal(ctx, t).value && r.value.out == r.value.sub.out
  {
    var plan :- CreatePlanInternal(ctx, t);
    Ok(Root(plan, plan.out))
  }

  /** Every plan of a set statement reads the left operand's tables, then the
      right operand's. */
  lemma SetPlanLeaves(ctx: Context, t: ParseTree)
    requires t.SetStmt? && CreatePlan(ctx, t).Ok?
    ensures Leaves(CreatePlan(ctx, t).value)
      == Leaves(CreatePlanInternal(ctx, t.left).value) + Leaves(CreatePlanInternal(ctx, t.right).value)
  {
  }
}
