/** Schedule units: `GlobalPlanner.recursiveBuildScheduleUnit` and the
    `make*Unit` helpers cut the two-phase plan at its Stores into schedule
    units, choose how each unit partitions its output for its parent, and
    link parents and children. Java mutates the units and the plan in place;
    here every step returns the rewritten plan, the unit being built and the
    map of units built so far. */
module Schedule {
  import opened Base
  import opened Schemas
  import opened Logical

  /** A `ScheduleUnit`: the Store that writes its output (`key`), the order
      in which it was created (`rank`), its output partition type, its plan,
      and its links. `children` holds the keys of the child units, in the
      order they were linked. */
  datatype Unit = Unit(key: TableRef, rank: nat, outType: Option<PartType>, plan: Node,
                       parent: Option<TableRef>, children: seq<TableRef>)

  /** `convertMap`, keyed by the table each unit's Store writes, and the
      number of units created so far. */
  datatype Sched = Sched(units: map<TableRef, Unit>, count: nat)

  /** The unit under construction, its plan so far, and the map. */
  datatype Step = Step(plan: Node, cur: Unit, sc: Sched)

  const Empty := Sched(map[], 0)

  /** `insertScan` and friends: the local Scan that replaces a consumed Store. */
  function LocalScan(store: Node): Node
    requires store.Store?
  {
    Scan(store.table, store.out, true)
  }

  /** Every unit was created before the count and has a Store as its plan,
      and every parent that is in the map was created after its child, except
      possibly `pending`: the unit under construction, which gets the next
      rank once it is done. */
  predicate RankedBut(sc: Sched, pending: Option<TableRef>) {
    forall k {:trigger k in sc.units} | k in sc.units ::
      sc.units[k].rank < sc.count && sc.units[k].plan.Store?
      && (sc.units[k].parent.Some? && Some(sc.units[k].parent.value) != pending && sc.units[k].parent.value in sc.units
          ==> sc.units[sc.units[k].parent.value].rank > sc.units[k].rank)
  }

  /** The unit graph is ranked: every parent was created after each of its
      children, so following parents never comes back to a unit. */
  predicate Ranked(sc: Sched) {
    RankedBut(sc, None)
  }

  /** `prev.setOutputType`, `prev.setParentQuery(cur)` and
      `cur.addChildQuery(scan, prev)` for the unit of a consumed Store, when
      `convertMap` has one; `rename` and `part` are the optional
      `setTableName` and `setPartitions` on that unit's Store. */
  function Link(sc: Sched, cur: Unit, store: Node, outType: PartType,
                rename: Option<TableRef>, part: Option<Partitioning>): (r: (Unit, Sched))
    requires store.Store?
    ensures r.0.key == cur.key && r.0.rank == cur.rank && r.0.outType == cur.outType
    ensures r.1.count == sc.count && r.1.units.Keys == sc.units.Keys
    ensures forall k | k in sc.units && k != store.table :: r.1.units[k] == sc.units[k]
    ensures store.table in sc.units ==>
      var prev := r.1.units[store.table];
      r.0.children == cur.children + [store.table]
      && prev.parent == Some(cur.key) && prev.outType == Some(outType)
      && prev.key == sc.units[store.table].key && prev.rank == sc.units[store.table].rank
      && prev.children == sc.units[store.table].children
      && (prev.plan.Store? <==> sc.units[store.table].plan.Store?)
      && (prev.plan.Store? && rename.Some? ==> prev.plan.table == rename.value)
      && (prev.plan.Store? && part.Some? ==> prev.plan.part == part.value)
    ensures store.table !in sc.units ==> r == (cur, sc)
    ensures RankedBut(sc, Some(cur.key)) ==> RankedBut(r.1, Some(cur.key))
  {
    if store.table in sc.units then
      var prev := sc.units[store.table];
      var p := prev.plan;
      var plan := if p.Store? then
          Store(if rename.Some? then rename.value else p.table, p.local,
                if part.Some? then part.value else p.part, p.sub, p.out)
        else p;
      var prev' := Unit(prev.key, prev.rank, Some(outType), plan, Some(cur.key), prev.children);
      (Unit(cur.key, cur.rank, cur.outType, cur.plan, cur.parent, cur.children + [store.table]),
       Sched(sc.units[store.table := prev'], sc.count))
    else (cur, sc)
  }

  function WithOutType(u: Unit, t: PartType): (r: Unit)
    ensures r.key == u.key && r.rank == u.rank && r.outType == Some(t) && r.children == u.children
  {
    Unit(u.key, u.rank, Some(t), u.plan, u.parent, u.children)
  }

  /** The partitioning `_handleUnionNode` gives a consumed Store when join
      columns are passed in. */
  function UnionPart(cols: Option<seq<Column>>): Option<Partitioning> {
    if cols.Some? then Some(Partitioning(Some(List), cols.value, 1)) else None
  }

  /** The tables of the Stores `_handleUnionNode` reaches from `n`: `n`
      itself if it is a Store, else those under nested Unions. */
  function UnionStores(n: Node): set<TableRef> {
    match n
    case Store(t, _, _, _, _) => {t}
    case Union(o, i, _) => UnionStores(o) + UnionStores(i)
    case _ => {}
  }

  /** `_handleUnionNode`: every Store reached through nested Unions is
      consumed: replaced by a local Scan, its unit renamed to the root Store's
      table, given `prevType` and linked under `cur`. */
  function HandleUnion(root: TableRef, union: Node, cur: Unit, sc: Sched,
                       cols: Option<seq<Column>>, prevType: PartType): (r: Step)
    requires union.Union?
    ensures r.plan.Union? && r.cur.key == cur.key && r.cur.rank == cur.rank && r.cur.outType == cur.outType
    ensures r.sc.count == sc.count && r.sc.units.Keys == sc.units.Keys
    ensures forall k | k in sc.units && k !in UnionStores(union) :: r.sc.units[k] == sc.units[k]
    ensures RankedBut(sc, Some(cur.key)) ==> RankedBut(r.sc, Some(cur.key))
    ensures UnionStores(r.plan) == {}
    ensures forall k | k in UnionStores(union) && k in sc.units ::
      r.sc.units[k].parent == Some(cur.key) && r.sc.units[k].outType == Some(prevType)
    decreases union, 0
  {
    var s1 := HandleSide(root, union.outer, cur, sc, cols, prevType);
    var s2 := HandleSide(root, union.inner, s1.cur, s1.sc, cols, prevType);
    Step(Union(s1.plan, s2.plan, union.out), s2.cur, s2.sc)
  }

  /** One child of a union in `_handleUnionNode`: a Store is consumed and
      linked, a Union is handled recursively, anything else is kept. */
  function HandleSide(root: TableRef, child: Node, cur: Unit, sc: Sched,
                      cols: Option<seq<Column>>, prevType: PartType): (r: Step)
    ensures !child.Store? && !child.Union? ==> r == Step(child, cur, sc)
    ensures child.Store? ==> r.plan == LocalScan(child)
    ensures r.cur.key == cur.key && r.cur.rank == cur.rank && r.cur.outType == cur.outType
    ensures r.sc.count == sc.count && r.sc.units.Keys == sc.units.Keys
    ensures forall k | k in sc.units && k !in UnionStores(child) :: r.sc.units[k] == sc.units[k]
    ensures RankedBut(sc, Some(cur.key)) ==> RankedBut(r.sc, Some(cur.key))
    ensures UnionStores(r.plan) == {}
    ensures forall k | k in UnionStores(child) && k in sc.units ::
      r.sc.units[k].parent == Some(cur.key) && r.sc.units[k].outType == Some(prevType)
    decreases child, 1
  {
    if child.Store? then
      var (c, sc1) := Link(sc, cur, child, prevType, Some(root), UnionPart(cols));
      Step(LocalScan(child), c, sc1)
    else if child.Union? then HandleUnion(root, child, cur, sc, cols, prevType)
    else Step(child, cur, sc)
  }

  /** `makeTwoPhaseUnit` (GroupBy) and `makeSortUnit` (Sort) for the operator
      under `plan`. Over a Store, the Store is consumed; if that Store writes
      a first phase of the same operator, this unit is the second phase: it
      outputs LIST and the child HASH (GroupBy) or RANGE (Sort); otherwise the
      child outputs LIST and this unit HASH, for Sort as well. Over a Scan the
      unit is a first phase: HASH for GroupBy, RANGE for Sort. Over a Union
      the union's Stores become LIST children and the unit's own type is left
      unset. */
  function TwoPhaseUnit(root: TableRef, plan: Node, cur: Unit, sc: Sched): (r: Step)
    requires IsUnary(plan) && (plan.sub.GroupBy? || plan.sub.Sort?)
    ensures IsUnary(r.plan) && KindOf(r.plan) == KindOf(plan) && KindOf(r.plan.sub) == KindOf(plan.sub)
    ensures r.cur.key == cur.key && r.cur.rank == cur.rank
    ensures r.sc.count == sc.count && r.sc.units.Keys == sc.units.Keys
    ensures RankedBut(sc, Some(cur.key)) ==> RankedBut(r.sc, Some(cur.key))
    ensures plan.sub.sub.Scan? ==> r.cur.outType == Some(if plan.sub.Sort? then Range else Hash) && r.sc == sc
    ensures plan.sub.sub.Store? ==>
      var second := KindOf(plan.sub.sub.sub) == KindOf(plan.sub);
      var child := plan.sub.sub.table;
      r.plan.sub.sub == LocalScan(plan.sub.sub)
      && r.cur.outType == Some(if second then List else Hash)
      && (child in sc.units ==>
            r.sc.units[child].parent == Some(cur.key)
            && r.sc.units[child].outType == Some(if !second then List else if plan.sub.Sort? then Range else Hash)
            && r.cur.children == cur.children + [child])
  {
    var op := plan.sub;
    var child := op.sub;
    if child.Store? then PhaseOverStore(plan, cur, sc)
    else if child.Scan? then
      Step(plan, WithOutType(cur, if op.Sort? then Range else Hash), sc)
    else if child.Union? then
      var h := HandleUnion(root, child, cur, sc, None, List);
      Step(WithSub(plan, WithSub(op, h.plan)), h.cur, h.sc)
    else
      Step(plan, cur, sc)
  }

  /** `makeTwoPhaseUnit` / `makeSortUnit` over a Store, which is consumed.
      If that Store writes a first phase of the same operator, this unit is
      the second phase. */
  function PhaseOverStore(plan: Node, cur: Unit, sc: Sched): (r: Step)
    requires IsUnary(plan) && (plan.sub.GroupBy? || plan.sub.Sort?) && plan.sub.sub.Store?
    ensures IsUnary(r.plan) && KindOf(r.plan) == KindOf(plan) && KindOf(r.plan.sub) == KindOf(plan.sub)
    ensures r.cur.key == cur.key && r.cur.rank == cur.rank
    ensures r.sc.count == sc.count && r.sc.units.Keys == sc.units.Keys
    ensures RankedBut(sc, Some(cur.key)) ==> RankedBut(r.sc, Some(cur.key))
    ensures
      var second := KindOf(plan.sub.sub.sub) == KindOf(plan.sub);
      var child := plan.sub.sub.table;
      r.plan.sub.sub == LocalScan(plan.sub.sub)
      && r.cur.outType == Some(if second then List else Hash)
      && (child in sc.units ==>
            r.sc.units[child].parent == Some(cur.key)
            && r.sc.units[child].outType == Some(if !second then List else if plan.sub.Sort? then Range else Hash)
            && r.cur.children == cur.children + [child])
  {
    var op := plan.sub;
    var child := op.sub;
    var second := KindOf(child.sub) == KindOf(op);
    var prevType := if !second then List else if op.Sort? then Range else Hash;
    var (c, sc1) := Link(sc, cur, child, prevType, None, None);
    Step(WithSub(plan, WithSub(op, LocalScan(child))), WithOutType(c, if second then List else Hash), sc1)
  }

  /** The distinct columns a predicate refers to, left to right
      (`EvalTreeUtil.findDistinctRefColumns`). */
  function RefColumns(e: Expr): (r: seq<Column>)
    ensures forall c :: c in r <==> c in Fields(e)
    ensures forall i, j | 0 <= i < j < |r| :: r[i] != r[j]
  {
    Dedup(Fields(e), {})
  }

  /** The columns of the field references of `e`, left to right. */
  function Fields(e: Expr): seq<Column> {
    match e
    case Field(c) => [c]
    case Const(_) => []
    case Binary(_, l, r) => Fields(l) + Fields(r)
  }

  /** The elements of `s` not in `seen`, each at its first occurrence. */
  function Dedup(s: seq<Column>, seen: set<Column>): (r: seq<Column>)
    ensures forall c :: c in r <==> c in s && c !in seen
    ensures forall i, j | 0 <= i < j < |r| :: r[i] != r[j]
  {
    if s == [] then []
    else if s[0] in seen then Dedup(s[1..], seen)
    else [s[0]] + Dedup(s[1..], seen + {s[0]})
  }

  /** The join columns split by side: those the outer schema contains, then
      among the rest those the inner schema contains. */
  function SplitColumns(join: Node): (r: (seq<Column>, seq<Column>))
    requires join.Join?
    ensures forall c :: c in r.0 <==> c in JoinColumns(join) && Contains(join.outer.out, QualifiedName(c))
    ensures forall c :: c in r.1 <==> c in JoinColumns(join) && !Contains(join.outer.out, QualifiedName(c))
                                        && Contains(join.inner.out, QualifiedName(c))
  {
    var cols := JoinColumns(join);
    (OnSide(cols, join.outer.out, []), OnSide(cols, join.inner.out, join.outer.out))
  }

  /** The columns of the join qualifier; none for a join without one. */
  function JoinColumns(join: Node): seq<Column>
    requires join.Join?
  {
    if join.qual.Some? then RefColumns(join.qual.value) else []
  }

  /** The columns of `cols` that `side` contains and `before` does not. */
  function OnSide(cols: seq<Column>, side: Schema, before: Schema): (r: seq<Column>)
    ensures forall c :: c in r <==> c in cols && Contains(side, QualifiedName(c)) && !Contains(before, QualifiedName(c))
  {
    if cols == [] then []
    else
      var rest := OnSide(cols[1..], side, before);
      if Contains(side, QualifiedName(cols[0])) && !Contains(before, QualifiedName(cols[0])) then [cols[0]] + rest else rest
  }

  /** The outer half of `makeJoinUnit`: a Store child is consumed, its unit
      linked with output type HASH and its Store partitioned by HASH on
      `cols` into one partition; a Union child has its Stores consumed by
      `_handleUnionNode` with `cols` (see `JoinUnitAsWritten` for the code as
      written, which never reaches that call). */
  function JoinOuter(root: TableRef, join: Node, cur: Unit, sc: Sched, cols: seq<Column>): (r: Step)
    requires join.Join?
    ensures r.plan.Join? && r.plan.inner == join.inner && !r.plan.outer.Store?
    ensures r.cur.key == cur.key && r.cur.rank == cur.rank && r.cur.outType == cur.outType
    ensures r.sc.count == sc.count && r.sc.units.Keys == sc.units.Keys
    ensures forall k | k in sc.units && k !in UnionStores(join.outer) :: r.sc.units[k] == sc.units[k]
    ensures RankedBut(sc, Some(cur.key)) ==> RankedBut(r.sc, Some(cur.key))
    ensures UnionStores(r.plan.outer) == {}
    ensures forall k | k in UnionStores(join.outer) && k in sc.units ::
      r.sc.units[k].parent == Some(cur.key) && r.sc.units[k].outType == Some(Hash)
    ensures join.outer.Store? && join.outer.table in sc.units ==>
      var u := r.sc.units[join.outer.table];
      u.parent == Some(cur.key) && u.outType == Some(Hash)
      && (u.plan.Store? ==> u.plan.part == Partitioning(Some(Hash), cols, 1))
  {
    if join.outer.Store? then
      var (c, sc1) := Link(sc, cur, join.outer, Hash, None, Some(Partitioning(Some(Hash), cols, 1)));
      Step(WithChildren(join, LocalScan(join.outer), join.inner), c, sc1)
    else if join.outer.Union? then
      var h := HandleUnion(root, join.outer, cur, sc, Some(cols), Hash);
      Step(WithChildren(join, h.plan, join.inner), h.cur, h.sc)
    else Step(join, cur, sc)
  }

  /** The inner half of `makeJoinUnit`, as written: like the outer half. */
  function JoinInner(root: TableRef, join: Node, cur: Unit, sc: Sched, cols: seq<Column>): (r: Step)
    requires join.Join?
    ensures r.plan.Join? && r.plan.outer == join.outer && !r.plan.inner.Store?
    ensures r.cur.key == cur.key && r.cur.rank == cur.rank && r.cur.outType == cur.outType
    ensures r.sc.count == sc.count && r.sc.units.Keys == sc.units.Keys
    ensures forall k | k in sc.units && k !in UnionStores(join.inner) :: r.sc.units[k] == sc.units[k]
    ensures RankedBut(sc, Some(cur.key)) ==> RankedBut(r.sc, Some(cur.key))
    ensures UnionStores(r.plan.inner) == {}
    ensures forall k | k in UnionStores(join.inner) && k in sc.units ::
      r.sc.units[k].parent == Some(cur.key) && r.sc.units[k].outType == Some(Hash)
    ensures join.inner.Store? && join.inner.table in sc.units ==>
      var u := r.sc.units[join.inner.table];
      u.parent == Some(cur.key) && u.outType == Some(Hash)
      && (u.plan.Store? ==> u.plan.part == Partitioning(Some(Hash), cols, 1))
  {
    if join.inner.Store? then
      var (c, sc1) := Link(sc, cur, join.inner, Hash, None, Some(Partitioning(Some(Hash), cols, 1)));
      Step(WithChildren(join, join.outer, LocalScan(join.inner)), c, sc1)
    else if join.inner.Union? then
      var h := HandleUnion(root, join.inner, cur, sc, Some(cols), Hash);
      Step(WithChildren(join, join.outer, h.plan), h.cur, h.sc)
    else Step(join, cur, sc)
  }

  /** `makeJoinUnit`: the unit outputs LIST and both children are consumed,
      each linked with output type HASH and partitioned on its side of the
      join columns. */
  function JoinUnit(root: TableRef, plan: Node, cur: Unit, sc: Sched): (r: Step)
    requires IsUnary(plan) && plan.sub.Join?
    ensures IsUnary(r.plan) && KindOf(r.plan) == KindOf(plan) && r.plan.sub.Join?
    ensures r.cur.key == cur.key && r.cur.rank == cur.rank && r.cur.outType == Some(List)
    ensures r.sc.count == sc.count && r.sc.units.Keys == sc.units.Keys
    ensures RankedBut(sc, Some(cur.key)) ==> RankedBut(r.sc, Some(cur.key))
    ensures !r.plan.sub.outer.Store? && !r.plan.sub.inner.Store?
    ensures UnionStores(r.plan.sub.outer) == {} && UnionStores(r.plan.sub.inner) == {}
    ensures forall k | k in UnionStores(plan.sub.outer) + UnionStores(plan.sub.inner) && k in sc.units ::
      r.sc.units[k].parent == Some(cur.key) && r.sc.units[k].outType == Some(Hash)
    ensures plan.sub.outer.Store? && plan.sub.outer.table in sc.units && plan.sub.outer.table !in UnionStores(plan.sub.inner) ==>
      var u := r.sc.units[plan.sub.outer.table];
      u.parent == Some(cur.key) && u.outType == Some(Hash)
      && (u.plan.Store? ==> u.plan.part == Partitioning(Some(Hash), SplitColumns(plan.sub).0, 1))
    ensures plan.sub.inner.Store? && plan.sub.inner.table in sc.units ==>
      var u := r.sc.units[plan.sub.inner.table];
      u.parent == Some(cur.key) && u.outType == Some(Hash)
      && (u.plan.Store? ==> u.plan.part == Partitioning(Some(Hash), SplitColumns(plan.sub).1, 1))
  {
    var (oc, ic) := SplitColumns(plan.sub);
    var s1 := JoinOuter(root, plan.sub, WithOutType(cur, List), sc, oc);
    var s2 := JoinInner(root, s1.plan, s1.cur, s1.sc, ic);
    Step(WithSub(plan, s2.plan), s2.cur, s2.sc)
  }

  /** `makeJoinUnit` as written: an outer child that is neither a Store nor a
      Union is cast to a Union (a `ClassCastException`), and an outer Union
      is left alone, so its Stores are never consumed nor linked. */
  function JoinUnitAsWritten(root: TableRef, plan: Node, cur: Unit, sc: Sched): (r: Result<Step>)
    requires IsUnary(plan) && plan.sub.Join?
    ensures r.Err? <==> !plan.sub.outer.Store? && !plan.sub.outer.Union?
    ensures r.Err? ==> r.error == ClassCast
    ensures r.Ok? ==> IsUnary(r.value.plan) && KindOf(r.value.plan) == KindOf(plan) && r.value.plan.sub.Join?
    ensures r.Ok? ==> r.value.cur.key == cur.key && r.value.cur.rank == cur.rank && r.value.cur.outType == Some(List)
    ensures r.Ok? ==> r.value.sc.count == sc.count && r.value.sc.units.Keys == sc.units.Keys
    ensures r.Ok? && RankedBut(sc, Some(cur.key)) ==> RankedBut(r.value.sc, Some(cur.key))
    ensures r.Ok? ==> !r.value.plan.sub.inner.Store?
    ensures r.Ok? && plan.sub.outer.Store? && plan.sub.outer.table in sc.units
            && plan.sub.outer.table !in UnionStores(plan.sub.inner) ==>
      var u := r.value.sc.units[plan.sub.outer.table];
      u.parent == Some(cur.key) && u.outType == Some(Hash)
      && (u.plan.Store? ==> u.plan.part == Partitioning(Some(Hash), SplitColumns(plan.sub).0, 1))
    ensures r.Ok? && plan.sub.inner.Store? && plan.sub.inner.table in sc.units ==>
      var u := r.value.sc.units[plan.sub.inner.table];
      u.parent == Some(cur.key) && u.outType == Some(Hash)
      && (u.plan.Store? ==> u.plan.part == Partitioning(Some(Hash), SplitColumns(plan.sub).1, 1))
    ensures r.Ok? && plan.sub.outer.Union? ==> r.value.plan.sub.outer == plan.sub.outer
    ensures r.Ok? && plan.sub.outer.Union? ==>
      forall k | k in sc.units && k !in UnionStores(plan.sub.inner) :: r.value.sc.units[k] == sc.units[k]
  {
    var (oc, ic) := SplitColumns(plan.sub);
    var cur0 := WithOutType(cur, List);
    if !plan.sub.outer.Store? && !plan.sub.outer.Union? then Err(ClassCast)
    else
      var s1 := if plan.sub.outer.Store? then JoinOuter(root, plan.sub, cur0, sc, oc) else Step(plan.sub, cur0, sc);
      var s2 := JoinInner(root, s1.plan, s1.cur, s1.sc, ic);
      Ok(Step(WithSub(plan, s2.plan), s2.cur, s2.sc))
  }

  /** A join whose outer child is a Union of Stores: as written, a Store
      reached only through that Union keeps its unit unlinked and stays in
      the plan; corrected, it is consumed and linked under the join's unit. */
  lemma OuterUnionUnlinked(root: TableRef, plan: Node, cur: Unit, sc: Sched, k: TableRef)
    requires IsUnary(plan) && plan.sub.Join? && plan.sub.outer.Union?
    requires k in UnionStores(plan.sub.outer) && k !in UnionStores(plan.sub.inner)
    requires k in sc.units && sc.units[k].parent.None?
    ensures var w := JoinUnitAsWritten(root, plan, cur, sc);
      w.Ok? && w.value.sc.units[k].parent.None? && k in UnionStores(w.value.plan.sub.outer)
    ensures var c := JoinUnit(root, plan, cur, sc);
      c.sc.units[k].parent == Some(cur.key) && k !in UnionStores(c.plan.sub.outer)
  {
  }

  /** `makeUnionUnit`: the unit outputs LIST; each Store child (and every
      Store under a nested Union) is consumed, its unit renamed to the root
      Store's table, given LIST and linked. For a nested Union the code hands
      the whole union to `_handleUnionNode`, which consumes both sides. */
  function UnionUnit(root: TableRef, plan: Node, cur: Unit, sc: Sched): (r: Step)
    requires IsUnary(plan) && plan.sub.Union?
    ensures IsUnary(r.plan) && KindOf(r.plan) == KindOf(plan) && r.plan.sub.Union?
    ensures r.cur.key == cur.key && r.cur.rank == cur.rank && r.cur.outType == Some(List)
    ensures r.sc.count == sc.count && r.sc.units.Keys == sc.units.Keys
    ensures RankedBut(sc, Some(cur.key)) ==> RankedBut(r.sc, Some(cur.key))
    ensures plan.sub.outer.Store? && plan.sub.outer.table in sc.units && plan.sub.outer.table !in UnionStores(plan.sub.inner) ==>
      var u := r.sc.units[plan.sub.outer.table];
      u.parent == Some(cur.key) && u.outType == Some(List) && (u.plan.Store? ==> u.plan.table == root)
    ensures UnionStores(r.plan.sub) == {}
    ensures forall k | k in UnionStores(plan.sub) && k in sc.units ::
      r.sc.units[k].parent == Some(cur.key) && r.sc.units[k].outType == Some(List)
  {
    var s1 := UnionFirst(root, plan.sub, WithOutType(cur, List), sc);
    var s2 := UnionSecond(root, s1.plan, s1.cur, s1.sc);
    UnionHalves(root, plan.sub, WithOutType(cur, List), sc);
    assert WithOutType(cur, List).key == cur.key;
    Step(WithSub(plan, s2.plan), s2.cur, s2.sc)
  }

  /** Between them, the two halves of `makeUnionUnit` consume every Store of
      the union and link its unit with LIST. */
  lemma UnionHalves(root: TableRef, u: Node, cur: Unit, sc: Sched)
    requires u.Union?
    ensures var s1 := UnionFirst(root, u, cur, sc);
      var s2 := UnionSecond(root, s1.plan, s1.cur, s1.sc);
      UnionStores(s2.plan) == {}
      && (forall k | k in UnionStores(u) && k in sc.units ::
            s2.sc.units[k].parent == Some(cur.key) && s2.sc.units[k].outType == Some(List))
      && (u.outer.Store? && u.outer.table in sc.units && u.outer.table !in UnionStores(u.inner) ==>
            var x := s2.sc.units[u.outer.table];
            x.parent == Some(cur.key) && x.outType == Some(List) && (x.plan.Store? ==> x.plan.table == root))
  {
    var s1 := UnionFirst(root, u, cur, sc);
    var s2 := UnionSecond(root, s1.plan, s1.cur, s1.sc);
    assert UnionStores(s1.plan) == UnionStores(s1.plan.outer) + UnionStores(s1.plan.inner);
    assert UnionStores(u) == UnionStores(u.outer) + UnionStores(u.inner);
    forall k | k in UnionStores(u) && k in sc.units
      ensures s2.sc.units[k].parent == Some(cur.key) && s2.sc.units[k].outType == Some(List)
    {
      if !u.outer.Union? && k in UnionStores(u.inner) {
        assert k in UnionStores(s1.plan.inner);
      }
    }
  }

  /** The outer child of `makeUnionUnit`'s union: a Store is consumed and
      linked; a nested Union sends the whole union to `_handleUnionNode`. */
  function UnionFirst(root: TableRef, u: Node, cur: Unit, sc: Sched): (r: Step)
    requires u.Union?
    ensures r.plan.Union? && UnionStores(r.plan.outer) == {}
    ensures u.outer.Union? ==> UnionStores(r.plan) == {}
    ensures !u.outer.Union? ==> r.plan.inner == u.inner
    ensures r.cur.key == cur.key && r.cur.rank == cur.rank && r.cur.outType == cur.outType
    ensures r.sc.count == sc.count && r.sc.units.Keys == sc.units.Keys
    ensures forall k | k in sc.units && k !in UnionStores(u) :: r.sc.units[k] == sc.units[k]
    ensures RankedBut(sc, Some(cur.key)) ==> RankedBut(r.sc, Some(cur.key))
    ensures forall k | k in UnionStores(u.outer) && k in sc.units ::
      r.sc.units[k].parent == Some(cur.key) && r.sc.units[k].outType == Some(List)
    ensures u.outer.Union? ==> forall k | k in UnionStores(u) && k in sc.units ::
      r.sc.units[k].parent == Some(cur.key) && r.sc.units[k].outType == Some(List)
    ensures u.outer.Store? && u.outer.table in sc.units && r.sc.units[u.outer.table].plan.Store? ==>
      r.sc.units[u.outer.table].plan.table == root
  {
    if u.outer.Store? then
      var (c, sc1) := Link(sc, cur, u.outer, List, Some(root), None);
      Step(Union(LocalScan(u.outer), u.inner, u.out), c, sc1)
    else if u.outer.Union? then HandleUnion(root, u, cur, sc, None, List)
    else Step(u, cur, sc)
  }

  /** The inner child of `makeUnionUnit`'s union: a Store is consumed and
      linked; a nested Union sends the whole union to `_handleUnionNode`
      again. */
  function UnionSecond(root: TableRef, u: Node, cur: Unit, sc: Sched): (r: Step)
    requires u.Union?
    ensures r.plan.Union? && UnionStores(r.plan) <= UnionStores(u.outer)
    ensures r.cur.key == cur.key && r.cur.rank == cur.rank && r.cur.outType == cur.outType
    ensures r.sc.count == sc.count && r.sc.units.Keys == sc.units.Keys
    ensures forall k | k in sc.units && k !in UnionStores(u) :: r.sc.units[k] == sc.units[k]
    ensures RankedBut(sc, Some(cur.key)) ==> RankedBut(r.sc, Some(cur.key))
    ensures forall k | k in UnionStores(u.inner) && k in sc.units ::
      r.sc.units[k].parent == Some(cur.key) && r.sc.units[k].outType == Some(List)
  {
    if u.inner.Store? then
      var (c, sc2) := Link(sc, cur, u.inner, List, Some(root), None);
      Step(Union(u.outer, LocalScan(u.inner), u.out), c, sc2)
    else if u.inner.Union? then HandleUnion(root, u, cur, sc, None, List)
    else Step(u, cur, sc)
  }

  /** `makeUnifiableUnit`: a Selection or Projection joins the unit of the
      operator below it, so the choice is made by that operator. It fails
      exactly when the chain of Selections and Projections ends at a Join
      that `makeJoinUnit` casts wrongly. */
  function Unifiable(root: TableRef, plan: Node, cur: Unit, sc: Sched): (r: Result<Step>)
    requires IsUnary(plan)
    ensures r.Err? <==> UnitCastFails(plan.sub)
    ensures r.Err? ==> r.error == ClassCast
    ensures r.Ok? ==> IsUnary(r.value.plan) && KindOf(r.value.plan) == KindOf(plan)
    ensures r.Ok? ==> r.value.cur.key == cur.key && r.value.cur.rank == cur.rank
    ensures r.Ok? ==> r.value.sc.count == sc.count && r.value.sc.units.Keys == sc.units.Keys
    ensures r.Ok? && RankedBut(sc, Some(cur.key)) ==> RankedBut(r.value.sc, Some(cur.key))
    ensures plan.sub.Scan? ==> r.Ok? && r.value.cur.outType == Some(List) && r.value.sc == sc
    decreases plan
  {
    match KindOf(plan.sub)
    case ScanK => Ok(Step(plan, WithOutType(cur, List), sc))
    case SelectionK =>
      var u :- Unifiable(root, plan.sub, cur, sc);
      Ok(Step(WithSub(plan, u.plan), u.cur, u.sc))
    case ProjectionK =>
      var u :- Unifiable(root, plan.sub, cur, sc);
      Ok(Step(WithSub(plan, u.plan), u.cur, u.sc))
    case SortK => Ok(TwoPhaseUnit(root, plan, cur, sc))
    case GroupByK => Ok(TwoPhaseUnit(root, plan, cur, sc))
    case JoinK => JoinUnitAsWritten(root, plan, cur, sc)
    case UnionK => Ok(UnionUnit(root, plan, cur, sc))
    case _ => Ok(Step(plan, cur, sc))
  }

  /** A Join whose outer child `makeJoinUnit` casts to a Union although it
      is neither a Store nor a Union. */
  predicate JoinCastFails(n: Node) {
    n.Join? && !n.outer.Store? && !n.outer.Union?
  }

  /** Below a Store, the chain of Selections and Projections ends at such a
      Join. */
  predicate UnitCastFails(n: Node)
    decreases n
  {
    if n.Selection? || n.Projection? then UnitCastFails(n.sub) else JoinCastFails(n)
  }

  /** The operators `recursiveBuildScheduleUnit` makes a unit for when they
      sit directly under a Store. */
  predicate Handled(n: Node) {
    n.Scan? || n.Selection? || n.Projection? || n.GroupBy? || n.Sort? || n.Join? || n.Union?
  }

  /** The `switch` of `recursiveBuildScheduleUnit` on the operator under a
      Store: a new unit (next rank, no links yet) shaped by `makeScanUnit`,
      `makeUnifiableUnit`, `makeTwoPhaseUnit`, `makeSortUnit`, `makeJoinUnit`
      or `makeUnionUnit`; `None` for any other operator. `makeJoinUnit` casts
      an outer child that is neither a Store nor a Union to a Union. */
  function MakeUnit(store: Node, sc: Sched): (r: Result<Option<Step>>)
    requires store.Store?
    ensures r.Err? <==> UnitCastFails(store.sub)
    ensures r.Err? ==> r.error == ClassCast
    ensures r.Ok? ==> (r.value.Some? <==> Handled(store.sub))
    ensures r.Ok? && r.value.Some? ==>
      var st := r.value.value;
      st.plan.Store? && st.plan.table == store.table && st.plan.local == store.local && st.plan.part == store.part
      && KindOf(st.plan.sub) == KindOf(store.sub)
      && st.cur.key == store.table && st.cur.rank == sc.count
      && st.sc.count == sc.count && st.sc.units.Keys == sc.units.Keys
      && (Ranked(sc) ==> RankedBut(st.sc, Some(store.table)))
    ensures store.sub.Scan? ==> r.Ok? && r.value.Some? && r.value.value.cur.outType == Some(List)
  {
    var cur := Unit(store.table, sc.count, None, store, None, []);
    assert Ranked(sc) ==> RankedBut(sc, Some(store.table));
    match KindOf(store.sub)
    case ScanK => Ok(Some(Step(store, WithOutType(cur, List), sc)))
    case SelectionK =>
      var u :- Unifiable(store.table, store.sub, cur, sc);
      Ok(Some(Step(WithSub(store, u.plan), u.cur, u.sc)))
    case ProjectionK =>
      var u :- Unifiable(store.table, store.sub, cur, sc);
      Ok(Some(Step(WithSub(store, u.plan), u.cur, u.sc)))
    case GroupByK => Ok(Some(PhasedUnit(store, cur, sc)))
    case SortK => Ok(Some(PhasedUnit(store, cur, sc)))
    case JoinK =>
      var st :- JoinUnitAsWritten(store.table, store, cur, sc);
      Ok(Some(st))
    case UnionK => Ok(Some(PhasedUnit(store, cur, sc)))
    case _ => Ok(None)
  }

  /** The units `makeTwoPhaseUnit`, `makeSortUnit` and `makeUnionUnit`
      shape: the Store keeps its table, placement and operator. */
  function PhasedUnit(store: Node, cur: Unit, sc: Sched): (r: Step)
    requires store.Store? && (store.sub.GroupBy? || store.sub.Sort? || store.sub.Union?)
    requires cur.key == store.table
    ensures r.plan.Store? && r.plan.table == store.table
            && r.plan.local == store.local && r.plan.part == store.part
            && KindOf(r.plan.sub) == KindOf(store.sub)
    ensures r.cur.key == cur.key && r.cur.rank == cur.rank
    ensures r.sc.count == sc.count && r.sc.units.Keys == sc.units.Keys
    ensures RankedBut(sc, Some(cur.key)) ==> RankedBut(r.sc, Some(cur.key))
  {
    if store.sub.Union? then UnionUnit(store.table, store, cur, sc)
    else TwoPhaseUnit(store.table, store, cur, sc)
  }

  /** Some Store of the plan sits, through Selections and Projections, over a
      Join whose outer child is neither a Store nor a Union. */
  predicate CastFails(n: Node)
    decreases n
  {
    if IsUnary(n) then CastFails(n.sub) || (n.Store? && UnitCastFails(n.sub))
    else if IsBinary(n) then CastFails(n.outer) || CastFails(n.inner)
    else false
  }

  /** `recursiveBuildScheduleUnit`: post-order over the plan (outer before
      inner); every Store becomes a unit once everything under it has, and
      is recorded in `convertMap` (a Store over an unhandled operator records
      nothing). Returns the plan as the parents see it and the map; it fails
      with the cast of `makeJoinUnit` exactly when some Store sits over a Join
      whose outer child is neither a Store nor a Union. */
  function Build(n: Node, sc: Sched): (r: Result<(Node, Sched)>)
    ensures r.Err? <==> CastFails(n)
    ensures r.Err? ==> r.error == ClassCast
    ensures r.Ok? ==> KindOf(r.value.0) == KindOf(n)
    ensures r.Ok? && IsBinary(n) ==> IsBinary(r.value.0) && KindOf(r.value.0.outer) == KindOf(n.outer)
    ensures r.Ok? && IsUnary(n) ==> IsUnary(r.value.0) && KindOf(r.value.0.sub) == KindOf(n.sub)
    ensures r.Ok? ==> (UnitCastFails(r.value.0) <==> UnitCastFails(n))
    ensures r.Ok? ==> sc.count <= r.value.1.count
    ensures r.Ok? && Ranked(sc) ==> Ranked(r.value.1)
    ensures r.Ok? && n.Store? ==> r.value.0.Store? && r.value.0.table == n.table
    ensures r.Ok? && n.Store? && Handled(n.sub) ==> n.table in r.value.1.units && r.value.1.units[n.table].plan == r.value.0
    ensures r.Ok? && n.Store? && Handled(n.sub) ==> r.value.1.units[n.table].key == n.table
    decreases n, 1
  {
    if IsUnary(n) then BuildUnary(n, sc)
    else if IsBinary(n) then BuildBinary(n, sc)
    else Ok((n, sc))
  }

  /** `recursiveBuildScheduleUnit` on a node with one child: the child
      first, then a unit if the node is a Store. */
  function BuildUnary(n: Node, sc: Sched): (r: Result<(Node, Sched)>)
    requires IsUnary(n)
    ensures r.Err? <==> CastFails(n)
    ensures r.Err? ==> r.error == ClassCast
    ensures r.Ok? ==> KindOf(r.value.0) == KindOf(n)
    ensures r.Ok? ==> IsUnary(r.value.0) && KindOf(r.value.0.sub) == KindOf(n.sub)
    ensures r.Ok? ==> (UnitCastFails(r.value.0) <==> UnitCastFails(n))
    ensures r.Ok? ==> sc.count <= r.value.1.count
    ensures r.Ok? && Ranked(sc) ==> Ranked(r.value.1)
    ensures r.Ok? && n.Store? ==> r.value.0.Store? && r.value.0.table == n.table
    ensures r.Ok? && n.Store? && Handled(n.sub) ==> n.table in r.value.1.units && r.value.1.units[n.table].plan == r.value.0
    ensures r.Ok? && n.Store? && Handled(n.sub) ==> r.value.1.units[n.table].key == n.table
    decreases n, 0
  {
    var b :- Build(n.sub, sc);
    var m := WithSub(n, b.0);
    SameKind(m, n);
    if m.Store? then StoreUnit(m, b.1) else Ok((m, b.1))
  }

  /** `recursiveBuildScheduleUnit` on a node with two children: the outer
      child, then the inner one. */
  function BuildBinary(n: Node, sc: Sched): (r: Result<(Node, Sched)>)
    requires IsBinary(n)
    ensures r.Err? <==> CastFails(n)
    ensures r.Err? ==> r.error == ClassCast
    ensures r.Ok? ==> KindOf(r.value.0) == KindOf(n)
    ensures r.Ok? ==> IsBinary(r.value.0) && KindOf(r.value.0.outer) == KindOf(n.outer)
    ensures r.Ok? ==> (UnitCastFails(r.value.0) <==> UnitCastFails(n))
    ensures r.Ok? ==> sc.count <= r.value.1.count
    ensures r.Ok? && Ranked(sc) ==> Ranked(r.value.1)
    decreases n, 0
  {
    var bo :- Build(n.outer, sc);
    var bi :- Build(n.inner, bo.1);
    SameKind(bo.0, n.outer);
    Ok((WithChildren(n, bo.0, bi.0), bi.1))
  }

  /** Two nodes of the same kind are built by the same constructor. */
  lemma SameKind(a: Node, b: Node)
    requires KindOf(a) == KindOf(b)
    ensures (a.Store? <==> b.Store?) && (a.Union? <==> b.Union?) && (a.Join? <==> b.Join?)
    ensures (a.Selection? <==> b.Selection?) && (a.Projection? <==> b.Projection?)
  {
  }

  /** A Store whose child is built becomes a unit: the unit made for it is
      recorded under its table with the next rank and no parent yet; a Store
      over an unhandled operator drops its table from the map. */
  function StoreUnit(m: Node, sc: Sched): (r: Result<(Node, Sched)>)
    requires m.Store?
    ensures r.Err? <==> UnitCastFails(m.sub)
    ensures r.Err? ==> r.error == ClassCast
    ensures r.Ok? ==> r.value.0.Store? && r.value.0.table == m.table && KindOf(r.value.0.sub) == KindOf(m.sub)
    ensures r.Ok? ==> sc.count <= r.value.1.count
    ensures r.Ok? && Ranked(sc) ==> Ranked(r.value.1)
    ensures r.Ok? && Handled(m.sub) ==> m.table in r.value.1.units && r.value.1.units[m.table].plan == r.value.0
    ensures r.Ok? && Handled(m.sub) ==> r.value.1.units[m.table].key == m.table
    ensures r.Ok? && Handled(m.sub) ==>
      var u := r.value.1.units[m.table];
      u.rank == sc.count && u.parent.None? && r.value.1.count == sc.count + 1
  {
    var made :- MakeUnit(m, sc);
    match made
    case Some(st) =>
      var u := Unit(m.table, st.cur.rank, st.cur.outType, st.plan, None, st.cur.children);
      Ok((st.plan, Sched(st.sc.units[m.table := u], st.sc.count + 1)))
    case None => Ok((m, Sched(sc.units - {m.table}, sc.count)))
  }

  /** The unit `j` parent links above `k`, as long as every unit on the way
      is in the map. */
  function Up(sc: Sched, k: TableRef, j: nat): Option<TableRef> {
    if j == 0 then (if k in sc.units then Some(k) else None)
    else
      var below := Up(sc, k, j - 1);
      if below.Some? && sc.units[below.value].parent.Some? && sc.units[below.value].parent.value in sc.units
      then sc.units[below.value].parent
      else None
  }

  /** Each parent link climbs at least one rank. */
  lemma {:induction false} UpRank(sc: Sched, k: TableRef, j: nat)
    requires Ranked(sc)
    ensures Up(sc, k, j).Some? ==> k in sc.units && Up(sc, k, j).value in sc.units
                                   && sc.units[Up(sc, k, j).value].rank >= sc.units[k].rank + j
  {
    if j > 0 {
      UpRank(sc, k, j - 1);
    }
  }

  /** In a ranked map the parent links form no cycle: climbing one or more
      links never comes back to the unit it started from. */
  lemma NoCycle(sc: Sched, k: TableRef, j: nat)
    requires Ranked(sc) && j > 0
    ensures Up(sc, k, j) != Some(k)
  {
    UpRank(sc, k, j);
  }

  /** The units `recursiveBuildScheduleUnit` builds from an empty map form no
      cycle. */
  lemma BuildAcyclic(n: Node, k: TableRef, j: nat)
    requires j > 0 && Build(n, Empty).Ok?
    ensures Up(Build(n, Empty).value.1, k, j) != Some(k)
  {
    NoCycle(Build(n, Empty).value.1, k, j);
  }

  /** `convertToGlobalPlan` as written: the root unit is the one of the
      LogicalRoot's child, and a CREATE INDEX plan puts the IndexWrite node
      over the root unit's plan. */
  function ConvertAsWritten(plan: Node, index: bool): (r: Result<(Option<Unit>, Sched)>)
    ensures CastFails(plan) ==> r == Err(ClassCast)
    ensures !CastFails(plan) && !index ==> r.Ok?
    ensures !CastFails(plan) && index && plan.Root? && plan.sub.IndexWrite? ==> r == Err(NullPointer)
  {
    var b :- Build(plan, Empty);
    var (p, sc) := b;
    var root := if p.Root? && p.sub.Store? && p.sub.table in sc.units then Some(sc.units[p.sub.table]) else None;
    if !index then Ok((root, sc))
    else if root.None? || !p.Root? || !IsUnary(p.sub) then Err(NullPointer)
    else Ok((Some(WithPlan(root.value, WithSub(p.sub, root.value.plan))), sc))
  }

  /** `convertToGlobalPlan` with the lookup a CREATE INDEX plan needs: its
      root unit is the one of the Store under the IndexWrite node. */
  function Convert(plan: Node, index: bool): (r: Result<(Option<Unit>, Sched)>)
    ensures CastFails(plan) ==> r == Err(ClassCast)
    ensures !index && plan.Root? ==> r == ConvertAsWritten(plan, index)
  {
    var b :- Build(plan, Empty);
    var (p, sc) := b;
    var top := if index && p.Root? && p.sub.IndexWrite? then p.sub.sub else if p.Root? then p.sub else p;
    var root := if top.Store? && top.table in sc.units then Some(sc.units[top.table]) else None;
    if !index then Ok((root, sc))
    else if root.None? || !p.Root? || !IsUnary(p.sub) then Err(NullPointer)
    else
      var u := WithPlan(root.value, WithSub(p.sub, root.value.plan));
      Ok((Some(u), Sched(sc.units[u.key := u], sc.count)))
  }

  function WithPlan(u: Unit, plan: Node): (r: Unit)
    ensures r.key == u.key && r.rank == u.rank && r.outType == u.outType && r.plan == plan
  {
    Unit(u.key, u.rank, u.outType, plan, u.parent, u.children)
  }

  /** The partition keys `setPartitionNumberForTwoPhase` derives from the
      unit's own operator: the grouping columns of a HASH GroupBy unit, the
      sort keys of a RANGE Sort unit, none otherwise. */
  function TwoPhaseKeys(outType: Option<PartType>, op: Node): Option<seq<Column>> {
    if outType == Some(Hash) && op.GroupBy? then Some(op.keys)
    else if outType == Some(Range) && op.Sort? then Some(op.sortKeys)
    else None
  }

  /** `setPartitionNumberForTwoPhase(unit, n)`: the partitioning of the
      unit's Store. A unit whose parent reads it through a Join keeps its keys
      but gets `n` partitions of its output type; a two-phase unit is
      partitioned on its own keys into `n` partitions, or one partition when
      it has no keys. The unit's and the parent's plans are cast to Stores. */
  function PartitionNumber(sc: Sched, u: Unit, n: nat): (r: Result<Partitioning>)
    ensures r.Ok? <==> u.plan.Store? && (u.parent.Some? && u.parent.value in sc.units ==> sc.units[u.parent.value].plan.Store?)
    ensures r.Ok? && TwoPhaseKeys(u.outType, u.plan.sub).Some? ==>
      var keys := TwoPhaseKeys(u.outType, u.plan.sub).value;
      r.value.ptype == u.outType && r.value.keys == keys && r.value.num == (if keys == [] then 1 else n)
    ensures r.Ok? && TwoPhaseKeys(u.outType, u.plan.sub).None? ==>
      r.value == (if u.parent.Some? && u.parent.value in sc.units && sc.units[u.parent.value].plan.sub.Join?
                  then Partitioning(u.outType, u.plan.part.keys, n) else u.plan.part)
  {
    if !u.plan.Store? then Err(ClassCast)
    else if u.parent.Some? && u.parent.value in sc.units && !sc.units[u.parent.value].plan.Store? then Err(ClassCast)
    else
      var joined := u.parent.Some? && u.parent.value in sc.units && sc.units[u.parent.value].plan.sub.Join?;
      var part := if joined then Partitioning(u.outType, u.plan.part.keys, n) else u.plan.part;
      match TwoPhaseKeys(u.outType, u.plan.sub)
      case Some(keys) => Ok(if keys == [] then Partitioning(u.outType, [], 1) else Partitioning(u.outType, keys, n))
      case None => Ok(part)
  }

  /** On every unit `recursiveBuildScheduleUnit` builds, the casts of
      `setPartitionNumberForTwoPhase` succeed: a HASH GroupBy unit is
      partitioned on its grouping columns and a RANGE Sort unit on its sort
      keys, into `num` partitions, or one when there are no keys. */
  lemma BuiltPartitions(n: Node, k: TableRef, num: nat)
    requires Build(n, Empty).Ok? && k in Build(n, Empty).value.1.units
    ensures var sc := Build(n, Empty).value.1;
      var u := sc.units[k];
      u.plan.Store? && PartitionNumber(sc, u, num).Ok?
      && (u.outType == Some(Hash) && u.plan.sub.GroupBy? ==>
            PartitionNumber(sc, u, num).value
            == Partitioning(Some(Hash), u.plan.sub.keys, if u.plan.sub.keys == [] then 1 else num))
      && (u.outType == Some(Range) && u.plan.sub.Sort? ==>
            PartitionNumber(sc, u, num).value
            == Partitioning(Some(Range), u.plan.sub.sortKeys, if u.plan.sub.sortKeys == [] then 1 else num))
  {
    var sc := Build(n, Empty).value.1;
    assert Ranked(Empty);
    assert Ranked(sc);
    var u := sc.units[k];
    if u.parent.Some? && u.parent.value in sc.units {
      assert sc.units[u.parent.value].plan.Store?;
    }
  }
}
