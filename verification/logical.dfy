/** The logical operator tree and the expression trees it carries. */
module Logical {
  import opened Base
  import opened Schemas

  datatype BinOp = And | Or | Equal | NotEqual | LessThan | GreaterThan

  /** `EvalNode`: field references, literals and binary operators. */
  datatype Expr =
    | Field(col: Column)
    | Const(lit: string)
    | Binary(op: BinOp, left: Expr, right: Expr)

  /** One entry of a target list; `ty` is the type the (external) type inference
      assigns to `expr`. */
  datatype Target = Target(expr: Expr, alias: Option<string>, ty: string)

  /** A table a scan reads or a store writes: a catalog table, or the
      intermediate output of schedule unit `id`. */
  datatype TableRef = Named(name: string) | Stage(id: nat)

  datatype FromTable = FromTable(name: string, schema: Schema)

  datatype JoinType = CrossJoin | InnerJoin | NaturalJoin | LeftOuterJoin | RightOuterJoin | FullOuterJoin

  datatype PartType = List | Hash | Range | Broadcast

  /** `StoreTableNode.setPartitions(type, keys, num)`; unset on a fresh store. */
  datatype Partitioning = Partitioning(ptype: Option<PartType>, keys: seq<Column>, num: nat)

  const NoPartitioning := Partitioning(None, [], 0)

  datatype Node =
    | Root(sub: Node, out: Schema)
    | Scan(table: TableRef, out: Schema, local: bool)
    | Selection(cond: Expr, sub: Node, out: Schema)
    | Projection(targets: seq<Target>, sub: Node, out: Schema)
    | GroupBy(keys: seq<Column>, having: Option<Expr>, targets: seq<Target>, sub: Node, out: Schema)
    | Sort(sortKeys: seq<Column>, sub: Node, out: Schema)
    | Join(jtype: JoinType, qual: Option<Expr>, outer: Node, inner: Node, out: Schema)
    | Union(outer: Node, inner: Node, out: Schema)
    | Except(outer: Node, inner: Node, out: Schema)
    | Intersect(outer: Node, inner: Node, out: Schema)
    | Store(table: TableRef, local: bool, part: Partitioning, sub: Node, out: Schema)
    | CreateTable(name: string, out: Schema)
    | IndexWrite(index: string, sub: Node, out: Schema)
    | EvalExpr(targets: seq<Target>, out: Schema)

  /** `ExprType`, the node-kind tag compared by the planners. */
  datatype Kind = RootK | ScanK | SelectionK | ProjectionK | GroupByK | SortK | JoinK
                | UnionK | ExceptK | IntersectK | StoreK | CreateTableK | IndexWriteK | EvalExprK

  function KindOf(n: Node): Kind {
    match n
    case Root(_, _) => RootK
    case Scan(_, _, _) => ScanK
    case Selection(_, _, _) => SelectionK
    case Projection(_, _, _) => ProjectionK
    case GroupBy(_, _, _, _, _) => GroupByK
    case Sort(_, _, _) => SortK
    case Join(_, _, _, _, _) => JoinK
    case Union(_, _, _) => UnionK
    case Except(_, _, _) => ExceptK
    case Intersect(_, _, _) => IntersectK
    case Store(_, _, _, _, _) => StoreK
    case CreateTable(_, _) => CreateTableK
    case IndexWrite(_, _, _) => IndexWriteK
    case EvalExpr(_, _) => EvalExprK
  }

  /** The `UnaryNode` classes: exactly the nodes with a `sub` child. */
  predicate IsUnary(n: Node) {
    n.Root? || n.Selection? || n.Projection? || n.GroupBy? || n.Sort? || n.Store? || n.IndexWrite?
  }

  /** The `BinaryNode` classes. */
  predicate IsBinary(n: Node) {
    n.Join? || n.Union? || n.Except? || n.Intersect?
  }

  /** The tables the tree scans, left to right. */
  function Leaves(n: Node): seq<TableRef> {
    match n
    case Scan(t, _, _) => [t]
    case Root(s, _) => Leaves(s)
    case Selection(_, s, _) => Leaves(s)
    case Projection(_, s, _) => Leaves(s)
    case GroupBy(_, _, _, s, _) => Leaves(s)
    case Sort(_, s, _) => Leaves(s)
    case Store(_, _, _, s, _) => Leaves(s)
    case IndexWrite(_, s, _) => Leaves(s)
    case Join(_, _, o, i, _) => Leaves(o) + Leaves(i)
    case Union(o, i, _) => Leaves(o) + Leaves(i)
    case Except(o, i, _) => Leaves(o) + Leaves(i)
    case Intersect(o, i, _) => Leaves(o) + Leaves(i)
    case CreateTable(_, _) => []
    case EvalExpr(_, _) => []
  }

  /** The unary node `n` with its child replaced by `s` (`setSubNode`). */
  function WithSub(n: Node, s: Node): (r: Node)
    requires IsUnary(n)
    ensures IsUnary(r) && KindOf(r) == KindOf(n) && r.sub == s
    ensures Leaves(n) == Leaves(n.sub) && Leaves(r) == Leaves(s)
    ensures r.Store? ==> r.table == n.table && r.local == n.local && r.part == n.part
  {
    match n
    case Root(_, out) => Root(s, out)
    case Selection(c, _, out) => Selection(c, s, out)
    case Projection(ts, _, out) => Projection(ts, s, out)
    case GroupBy(keys, h, ts, _, out) => GroupBy(keys, h, ts, s, out)
    case Sort(keys, _, out) => Sort(keys, s, out)
    case Store(t, local, part, _, out) => Store(t, local, part, s, out)
    case IndexWrite(ix, _, out) => IndexWrite(ix, s, out)
  }

  /** The binary node `n` with its children replaced by `o` and `i`
      (`setOuter`, `setInner`). */
  function WithChildren(n: Node, o: Node, i: Node): (r: Node)
    requires IsBinary(n)
    ensures IsBinary(r) && KindOf(r) == KindOf(n) && r.outer == o && r.inner == i
    ensures Leaves(n) == Leaves(n.outer) + Leaves(n.inner) && Leaves(r) == Leaves(o) + Leaves(i)
  {
    match n
    case Join(jt, q, _, _, out) => Join(jt, q, o, i, out)
    case Union(_, _, out) => Union(o, i, out)
    case Except(_, _, out) => Except(o, i, out)
    case Intersect(_, _, out) => Intersect(o, i, out)
  }

  /** The conjuncts of a predicate: every operand of a (nested) AND, left to
      right. Stands for `EvalTreeUtil.getConjNormalForm`. */
  function Cnf(e: Expr): (r: seq<Expr>)
    ensures |r| >= 1
    ensures forall i :: 0 <= i < |r| ==> !(r[i].Binary? && r[i].op == And)
  {
    if e.Binary? && e.op == And then Cnf(e.left) + Cnf(e.right) else [e]
  }

  /** Decimal spelling of a natural number. */
  function NatToString(n: nat): (s: string)
    ensures |s| >= 1
    ensures forall i :: 0 <= i < |s| ==> '0' <= s[i] <= '9'
    decreases n
  {
    var d := [(('0' as int) + n % 10) as char];
    if n < 10 then d else NatToString(n / 10) + d
  }

  /** `EvalNode.getName()`: a field is named after its column, anything else is "?". */
  function EvalName(e: Expr): string {
    if e.Field? then e.col.name else "?"
  }

  /** The name `getProjectedSchema` gives the `i`-th target: its alias, else its
      expression name, else a generated name (`Context.getUnnamedColumn`). */
  function TargetName(t: Target, i: nat): (name: string)
    ensures t.alias.Some? ==> name == t.alias.value
    ensures t.alias.None? && EvalName(t.expr) != "?" ==> name == EvalName(t.expr)
  {
    match t.alias
    case Some(a) => a
    case None => if EvalName(t.expr) == "?" then "?column_" + NatToString(i) else EvalName(t.expr)
  }

  /** `getProjectedSchema(ctx, targets)`: one output column per target, in order. */
  function ProjectedSchema(targets: seq<Target>): (s: Schema)
    ensures |s| == |targets|
    ensures forall i :: 0 <= i < |s| ==> s[i].ty == targets[i].ty && s[i].name == TargetName(targets[i], i)
  {
    seq(|targets|, i requires 0 <= i < |targets| => Column("", TargetName(targets[i], i), targets[i].ty))
  }

  /** `PlannerUtil.schemaToTargets`: one field target per column. */
  function SchemaToTargets(s: Schema): (ts: seq<Target>)
    ensures |ts| == |s|
    ensures forall i :: 0 <= i < |s| ==> ts[i].expr == Field(s[i]) && ts[i].ty == s[i].ty
  {
    seq(|s|, i requires 0 <= i < |s| => Target(Field(s[i]), None, s[i].ty))
  }

  function ScanOf(t: FromTable): Node {
    Scan(Named(t.name), t.schema, false)
  }
}
