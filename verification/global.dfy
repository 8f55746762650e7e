/** `GlobalPlanner.build`: the root Store, the two-phase rewrite and the
    schedule units, end to end, with the schedule units' shape for the plans
    the two-phase rewrite is meant for. */
module Global {
  import opened Base
  import opened Schemas
  import opened Logical
  import opened TwoPhase
  import opened Schedule

  /** `build`: insert the root Store, rewrite to two phases, cut into units
      and look up the root unit as `convertToGlobalPlan` does. Returns the
      root unit (absent when the root Store made none) and the units. It
      succeeds exactly on a LogicalRoot that is not a CREATE INDEX: any
      other node fails the cast to LogicalRootNode, and a CREATE INDEX plan
      dereferences the missing root unit. */
  function MasterPlan(plan: Node): (r: Result<(Option<Unit>, Sched)>)
    ensures r.Ok? <==> plan.Root? && !plan.sub.IndexWrite?
    ensures !plan.Root? ==> r == Err(ClassCast)
    ensures plan.Root? && plan.sub.IndexWrite? ==> r == Err(NullPointer)
  {
    var (p1, index, next) :- InsertRootStore(plan, 0);
    RewriteNoCast(p1, next);
    ConvertAsWritten(Rewrite(p1, next).0, index)
  }

  /** `build` with the root unit of a CREATE INDEX plan looked up under the
      IndexWrite node; on every other plan it is `build` as written. */
  function MasterPlanCorrected(plan: Node): (r: Result<(Option<Unit>, Sched)>)
    ensures !plan.Root? ==> r == Err(ClassCast)
    ensures plan.Root? && !plan.sub.IndexWrite? ==> r == MasterPlan(plan)
  {
    var (p1, index, next) :- InsertRootStore(plan, 0);
    RewriteNoCast(p1, next);
    Convert(Rewrite(p1, next).0, index)
  }

  /** The rewritten plan keeps the LogicalRoot, and its IndexWrite child if
      any, and no unit of it fails a cast. */
  lemma RewriteNoCast(p1: Node, next: nat)
    requires p1.Root?
    ensures Rewrite(p1, next).0.Root? && !CastFails(Rewrite(p1, next).0)
    ensures Rewrite(p1, next).0.sub.IndexWrite? <==> p1.sub.IndexWrite?
  {
    RewritePhased(p1, next);
    PhasedNoCast(Rewrite(p1, next).0);
    RewriteRoot(p1.sub, p1.out, next);
    RewriteKeepsTables(p1.sub, next);
  }

  /** After the two-phase rewrite no Store sits over a Join whose outer child
      `makeJoinUnit` would cast wrongly: every Join reads Unions or Stores. */
  lemma {:induction false} PhasedNoCast(n: Node)
    requires Phased(n)
    ensures !CastFails(n) && !UnitCastFails(n)
    decreases n
  {
    if n.GroupBy? || n.Sort? {
      var first := n.sub.sub;
      PhasedNoCast(FirstPhaseChild(n));
      assert !CastFails(first) && !UnitCastFails(first);
      assert !CastFails(n.sub);
    } else if IsUnary(n) {
      PhasedNoCast(n.sub);
    } else if IsBinary(n) {
      PhasedNoCast(n.outer);
      PhasedNoCast(n.inner);
    }
  }

  /** The rewrite of a LogicalRoot is a LogicalRoot over the rewrite of its
      child. */
  lemma RewriteRoot(s: Node, out: Schema, next: nat)
    ensures Rewrite(Root(s, out), next) == (Root(Rewrite(s, next).0, out), Rewrite(s, next).1)
  {
  }

  /** With the lookup under the IndexWrite node, a CREATE INDEX plan over any
      operator a unit can be made for has a root unit whose plan is the
      IndexWrite node over the root Store. */
  lemma IndexPlanCorrected(ix: string, sub: Node, o1: Schema, o2: Schema)
    requires Handled(sub)
    ensures MasterPlanCorrected(Root(IndexWrite(ix, sub, o1), o2)).Ok?
    ensures var r := MasterPlanCorrected(Root(IndexWrite(ix, sub, o1), o2)).value;
            r.0.Some? && r.0.value.key == Stage(0) && r.0.value.plan.IndexWrite? && r.0.value.plan.index == ix
            && r.0.value.plan.sub.Store? && r.0.value.plan.sub.table == Stage(0)
  {
    var store := Store(Stage(0), false, NoPartitioning, sub, sub.out);
    var s' := Rewrite(store, 1).0;
    IndexRewrite(ix, sub, o1, o2);
    RootStoreRewrite(sub);
    RewritePhased(store, 1);
    PhasedNoCast(s');
    IndexConvert(ix, s', o1, o2);
  }

  /** The first two steps of `build` on a CREATE INDEX plan: the root Store
      goes under the IndexWrite node and survives the rewrite. */
  lemma IndexRewrite(ix: string, sub: Node, o1: Schema, o2: Schema)
    requires Handled(sub)
    ensures var s' := Rewrite(Store(Stage(0), false, NoPartitioning, sub, sub.out), 1).0;
      MasterPlanCorrected(Root(IndexWrite(ix, sub, o1), o2)) == Convert(Root(IndexWrite(ix, s', o1), o2), true)
  {
    var store := Store(Stage(0), false, NoPartitioning, sub, sub.out);
    var p1 := Root(IndexWrite(ix, store, o1), o2);
    IndexInsert(ix, sub, o1, o2);
    assert MasterPlanCorrected(Root(IndexWrite(ix, sub, o1), o2)) == Convert(Rewrite(p1, 1).0, true);
    RewriteRoot(IndexWrite(ix, store, o1), o2, 1);
    var (s', k2) := Rewrite(store, 1);
    assert Rewrite(IndexWrite(ix, store, o1), 1).0 == IndexWrite(ix, s', o1);
  }

  /** The root Store of a CREATE INDEX plan goes under the IndexWrite node. */
  lemma IndexInsert(ix: string, sub: Node, o1: Schema, o2: Schema)
    requires Handled(sub)
    ensures InsertRootStore(Root(IndexWrite(ix, sub, o1), o2), 0)
         == Ok((Root(IndexWrite(ix, Store(Stage(0), false, NoPartitioning, sub, sub.out), o1), o2), true, 1))
  {
  }

  /** The rewrite keeps the root Store over an operator a unit can be made
      for. */
  lemma RootStoreRewrite(sub: Node)
    requires Handled(sub)
    ensures var s' := Rewrite(Store(Stage(0), false, NoPartitioning, sub, sub.out), 1).0;
      s'.Store? && s'.table == Stage(0) && Handled(s'.sub)
  {
    var st := Store(Stage(0), false, NoPartitioning, sub, sub.out);
    var (s, k) := Rewrite(sub, 1);
    RewriteKeepsTables(sub, 1);
    assert Rewrite(st, 1) == Visit(WithSub(st, s), k);
    assert WithSub(st, s).sub == s;
  }

  /** The corrected lookup finds the root Store's unit under the IndexWrite
      node. */
  lemma IndexConvert(ix: string, s': Node, o1: Schema, o2: Schema)
    requires s'.Store? && s'.table == Stage(0) && Handled(s'.sub) && !CastFails(s')
    ensures var r := Convert(Root(IndexWrite(ix, s', o1), o2), true);
      r.Ok? && r.value.0.Some? && r.value.0.value.key == Stage(0) && r.value.0.value.plan.IndexWrite?
      && r.value.0.value.plan.index == ix
      && r.value.0.value.plan.sub.Store? && r.value.0.value.plan.sub.table == Stage(0)
  {
    var (b, sc) := Build(s', Empty).value;
    assert Stage(0) in sc.units && b.Store? && b.table == Stage(0);
    IndexBuild(ix, s', o1, o2);
    IndexLookup(Root(IndexWrite(ix, s', o1), o2));
    var u := sc.units[Stage(0)];
    var top := WithSub(IndexWrite(ix, b, o1), u.plan);
    assert Convert(Root(IndexWrite(ix, s', o1), o2), true).value.0 == Some(WithPlan(u, top));
    assert top.IndexWrite? && top.index == ix && top.sub == b;
  }

  /** Building a CREATE INDEX plan builds the Store under the IndexWrite
      node and nothing else. */
  lemma IndexBuild(ix: string, s': Node, o1: Schema, o2: Schema)
    requires s'.Store? && !CastFails(s')
    ensures var (b, sc) := Build(s', Empty).value;
      Build(Root(IndexWrite(ix, s', o1), o2), Empty) == Ok((Root(IndexWrite(ix, b, o1), o2), sc))
  {
    var w := IndexWrite(ix, s', o1);
    BuildOverChild(w, Empty);
    BuildOverChild(Root(w, o2), Empty);
  }

  /** The corrected lookup of a built CREATE INDEX plan: the unit of the
      Store under the IndexWrite node, with the IndexWrite node put over its
      plan. */
  lemma IndexLookup(plan: Node)
    requires Build(plan, Empty).Ok?
    requires var p := Build(plan, Empty).value.0;
      p.Root? && p.sub.IndexWrite? && p.sub.sub.Store? && p.sub.sub.table in Build(plan, Empty).value.1.units
    ensures var (p, sc) := Build(plan, Empty).value;
      var u := sc.units[p.sub.sub.table];
      Convert(plan, true).Ok? && Convert(plan, true).value.0 == Some(WithPlan(u, WithSub(p.sub, u.plan)))
  {
  }

  /** A GROUP BY over a table scan runs as two units: the first phase over
      the table, which hash-partitions its output for the second, and the
      second phase over the first one's output, which lists its result. */
  lemma GroupByOverScan(keys: seq<Column>, having: Option<Expr>, targets: seq<Target>,
                        t: string, schema: Schema, out: Schema, o2: Schema)
    ensures var r := MasterPlan(Root(GroupBy(keys, having, targets, Scan(Named(t), schema, false), out), o2));
      r.Ok? && r.value.0.Some? && Stage(1) in r.value.1.units
      && var root := r.value.0.value;
         var first := r.value.1.units[Stage(1)];
         root.key == Stage(0) && root.outType == Some(List) && root.children == [Stage(1)]
         && root.plan == Store(Stage(0), false, NoPartitioning,
                               GroupBy(keys, having, targets, Scan(Stage(1), out, true), out), out)
         && first.outType == Some(Hash) && first.parent == Some(Stage(0)) && first.children == []
         && first.plan == Store(Stage(1), true, NoPartitioning,
                                GroupBy(keys, having, targets, Scan(Named(t), schema, false), out), out)
  {
    TwoPhaseOverScan(GroupBy(keys, having, targets, Scan(Named(t), schema, false), out), o2);
  }

  /** An ORDER BY over a table scan runs as two units: the first phase over
      the table, which range-partitions its output for the second, and the
      second phase, which lists its result. */
  lemma SortOverScan(keys: seq<Column>,
                     t: string, schema: Schema, out: Schema, o2: Schema)
    ensures var r := MasterPlan(Root(Sort(keys, Scan(Named(t), schema, false), out), o2));
      r.Ok? && r.value.0.Some? && Stage(1) in r.value.1.units
      && var root := r.value.0.value;
         var first := r.value.1.units[Stage(1)];
         root.key == Stage(0) && root.outType == Some(List) && root.children == [Stage(1)]
         && root.plan == Store(Stage(0), false, NoPartitioning,
                               Sort(keys, Scan(Stage(1), out, true), out), out)
         && first.outType == Some(Range) && first.parent == Some(Stage(0)) && first.children == []
         && first.plan == Store(Stage(1), true, NoPartitioning,
                                Sort(keys, Scan(Named(t), schema, false), out), out)
  {
    TwoPhaseOverScan(Sort(keys, Scan(Named(t), schema, false), out), o2);
  }

  /** `build` on a plan whose root operator is neither a Store nor an
      IndexWrite: the root Store `Stage(0)` goes over the operator, then come
      the rewrite and the conversion. */
  lemma PlainRoot(g: Node, o2: Schema)
    requires !g.Store? && !g.IndexWrite?
    ensures MasterPlan(Root(g, o2))
         == ConvertAsWritten(Root(Rewrite(Store(Stage(0), false, NoPartitioning, g, g.out), 1).0, o2), false)
  {
    var s0 := Store(Stage(0), false, NoPartitioning, g, g.out);
    assert InsertRootStore(Root(g, o2), 0) == Ok((Root(s0, o2), false, 1));
    RewriteRoot(s0, o2, 1);
  }

  /** Without CREATE INDEX the conversion reports the unit of the root Store. */
  lemma ConvertRoot(st: Node, o2: Schema)
    requires st.Store? && Handled(st.sub)
    requires !CastFails(st)
    ensures ConvertAsWritten(Root(st, o2), false)
         == Ok((Some(Build(st, Empty).value.1.units[st.table]), Build(st, Empty).value.1))
  {
    var (top, sc) := Build(st, Empty).value;
    assert Build(Root(st, o2), Empty) == Ok((Root(top, o2), sc));
  }

  /** The schedule of a GROUP BY or an ORDER BY over a table scan: the first
      phase is unit `Stage(1)`, HASH for a GROUP BY and RANGE for an ORDER BY,
      under the root unit `Stage(0)`, which reads it and lists its result. */
  lemma TwoPhaseOverScan(g: Node, o2: Schema)
    requires (g.GroupBy? || g.Sort?) && g.sub.Scan? && !g.sub.local
    ensures
      var s1 := Store(Stage(1), true, NoPartitioning, g, g.out);
      var top := Store(Stage(0), false, NoPartitioning, WithSub(g, Scan(Stage(1), g.out, true)), g.out);
      var sc := Sched(map[Stage(1) := Unit(Stage(1), 0, Some(if g.Sort? then Range else Hash), s1, Some(Stage(0)), []),
                          Stage(0) := Unit(Stage(0), 1, Some(List), top, None, [Stage(1)])], 2);
      MasterPlan(Root(g, o2)) == Ok((Some(sc.units[Stage(0)]), sc))
  {
    var s1 := Store(Stage(1), true, NoPartitioning, g, g.out);
    var st0 := Store(Stage(0), false, NoPartitioning, WithSub(g, s1), g.out);
    PlainRoot(g, o2);
    TwoPhaseRewrite(g);
    TwoPhaseBuild(g);
    ConvertRoot(st0, o2);
  }

  /** The rewrite of the root Store over a GROUP BY or an ORDER BY of a
      table scan puts the first phase under a Store of its own. */
  lemma TwoPhaseRewrite(g: Node)
    requires (g.GroupBy? || g.Sort?) && g.sub.Scan? && !g.sub.local
    ensures Rewrite(Store(Stage(0), false, NoPartitioning, g, g.out), 1)
         == (Store(Stage(0), false, NoPartitioning, WithSub(g, Store(Stage(1), true, NoPartitioning, g, g.out)), g.out), 2)
  {
    var g2 := WithSub(g, Store(Stage(1), true, NoPartitioning, g, g.out));
    assert Rewrite(g.sub, 1) == (g.sub, 1);
    assert WithSub(g, g.sub) == g;
    assert Rewrite(g, 1) == (g2, 2);
  }

  /** The units made for the rewritten GROUP BY or ORDER BY of a table scan. */
  lemma TwoPhaseBuild(g: Node)
    requires (g.GroupBy? || g.Sort?) && g.sub.Scan? && !g.sub.local
    ensures
      var s1 := Store(Stage(1), true, NoPartitioning, g, g.out);
      var top := Store(Stage(0), false, NoPartitioning, WithSub(g, Scan(Stage(1), g.out, true)), g.out);
      Build(Store(Stage(0), false, NoPartitioning, WithSub(g, s1), g.out), Empty)
      == Ok((top, Sched(map[Stage(1) := Unit(Stage(1), 0, Some(if g.Sort? then Range else Hash), s1, Some(Stage(0)), []),
                            Stage(0) := Unit(Stage(0), 1, Some(List), top, None, [Stage(1)])], 2)))
  {
    var s1 := Store(Stage(1), true, NoPartitioning, g, g.out);
    var t := if g.Sort? then Range else Hash;
    var sc1 := Sched(map[Stage(1) := Unit(Stage(1), 0, Some(t), s1, None, [])], 1);
    FirstPhaseBuild(g);
    SecondPhaseUnit(g);
    var st0 := Store(Stage(0), false, NoPartitioning, WithSub(g, s1), g.out);
    assert WithSub(st0, WithSub(g, s1)) == st0;
  }

  /** The first phase of a GROUP BY or an ORDER BY over a table scan is a
      unit of its own, HASH or RANGE. */
  lemma FirstPhaseBuild(g: Node)
    requires (g.GroupBy? || g.Sort?) && g.sub.Scan? && !g.sub.local
    ensures var s1 := Store(Stage(1), true, NoPartitioning, g, g.out);
      Build(WithSub(g, s1), Empty)
      == Ok((WithSub(g, s1), Sched(map[Stage(1) := Unit(Stage(1), 0, Some(if g.Sort? then Range else Hash), s1, None, [])], 1)))
  {
    var s1 := Store(Stage(1), true, NoPartitioning, g, g.out);
    FirstPhaseStore(g);
    BuildOverChild(WithSub(g, s1), Empty);
    assert WithSub(WithSub(g, s1), s1) == WithSub(g, s1);
  }

  /** `makeTwoPhaseUnit` / `makeSortUnit` for the first phase over a table
      scan: HASH for a GROUP BY, RANGE for an ORDER BY, no children. */
  lemma FirstPhaseUnit(g: Node)
    requires (g.GroupBy? || g.Sort?) && g.sub.Scan?
    ensures var s1 := Store(Stage(1), true, NoPartitioning, g, g.out);
      MakeUnit(s1, Empty) == Ok(Some(Step(s1, Unit(Stage(1), 0, Some(if g.Sort? then Range else Hash), s1, None, []), Empty)))
  {
  }

  /** `recursiveBuildScheduleUnit` on an operator other than a Store
      rebuilds the operator over its built child. */
  lemma BuildOverChild(n: Node, sc: Sched)
    requires IsUnary(n) && !n.Store? && Build(n.sub, sc).Ok?
    ensures Build(n, sc) == Ok((WithSub(n, Build(n.sub, sc).value.0), Build(n.sub, sc).value.1))
  {
  }

  /** The Store over the first phase of a GROUP BY or an ORDER BY of a
      table scan becomes the first unit. */
  lemma FirstPhaseStore(g: Node)
    requires (g.GroupBy? || g.Sort?) && g.sub.Scan? && !g.sub.local
    ensures var s1 := Store(Stage(1), true, NoPartitioning, g, g.out);
      Build(s1, Empty) == Ok((s1, Sched(map[Stage(1) := Unit(Stage(1), 0, Some(if g.Sort? then Range else Hash), s1, None, [])], 1)))
  {
    var s1 := Store(Stage(1), true, NoPartitioning, g, g.out);
    var u1 := Unit(Stage(1), 0, Some(if g.Sort? then Range else Hash), s1, None, []);
    OperatorOverScan(g);
    BuildOverStore(s1, Empty);
    assert WithSub(s1, g) == s1;
    FirstPhaseUnit(g);
    assert StoreUnit(s1, Empty) == Ok((s1, Sched(Empty.units[Stage(1) := u1], 1)));
    assert Empty.units[Stage(1) := u1] == map[Stage(1) := u1];
  }

  /** An operator directly over a table scan makes no unit of its own. */
  lemma OperatorOverScan(g: Node)
    requires (g.GroupBy? || g.Sort?) && g.sub.Scan?
    ensures Build(g, Empty) == Ok((g, Empty))
  {
    assert Build(g.sub, Empty) == Ok((g.sub, Empty));
    BuildOverChild(g, Empty);
    assert WithSub(g, g.sub) == g;
  }

  /** `recursiveBuildScheduleUnit` on a Store builds its child, then makes
      and records the Store's unit. */
  lemma BuildOverStore(n: Node, sc: Sched)
    requires n.Store? && Build(n.sub, sc).Ok?
    ensures Build(n, sc) == StoreUnit(WithSub(n, Build(n.sub, sc).value.0), Build(n.sub, sc).value.1)
  {
  }

  /** `makeTwoPhaseUnit` / `makeSortUnit` for the second phase links the
      first phase's unit as its child and lists its result. */
  lemma SecondPhaseUnit(g: Node)
    requires (g.GroupBy? || g.Sort?) && g.sub.Scan? && !g.sub.local
    ensures
      var s1 := Store(Stage(1), true, NoPartitioning, g, g.out);
      var t := if g.Sort? then Range else Hash;
      var st0 := Store(Stage(0), false, NoPartitioning, WithSub(g, s1), g.out);
      var top := Store(Stage(0), false, NoPartitioning, WithSub(g, Scan(Stage(1), g.out, true)), g.out);
      MakeUnit(st0, Sched(map[Stage(1) := Unit(Stage(1), 0, Some(t), s1, None, [])], 1))
      == Ok(Some(Step(top, Unit(Stage(0), 1, Some(List), st0, None, [Stage(1)]),
                      Sched(map[Stage(1) := Unit(Stage(1), 0, Some(t), s1, Some(Stage(0)), [])], 1))))
  {
    var s1 := Store(Stage(1), true, NoPartitioning, g, g.out);
    var st0 := Store(Stage(0), false, NoPartitioning, WithSub(g, s1), g.out);
    var t := if g.Sort? then Range else Hash;
    var sc := Sched(map[Stage(1) := Unit(Stage(1), 0, Some(t), s1, None, [])], 1);
    var cur := Unit(Stage(0), 1, None, st0, None, []);
    MakeOverStore(st0, sc);
    PhaseOverFirst(g, cur);
  }

  /** A Store over a grouping or sort over a Store is shaped by the
      two-phase case of the operator switch. */
  lemma MakeOverStore(st: Node, sc: Sched)
    requires st.Store? && (st.sub.GroupBy? || st.sub.Sort?) && st.sub.sub.Store?
    ensures MakeUnit(st, sc) == Ok(Some(PhaseOverStore(st, Unit(st.table, sc.count, None, st, None, []), sc)))
  {
  }

  /** The second phase over the first phase's Store reads it as a local scan
      and lists its result. */
  lemma PhaseOverFirst(g: Node, cur: Unit)
    requires (g.GroupBy? || g.Sort?) && g.sub.Scan? && cur.children == []
    requires cur.plan.Store? && cur.plan.sub == WithSub(g, Store(Stage(1), true, NoPartitioning, g, g.out))
    ensures
      var s1 := Store(Stage(1), true, NoPartitioning, g, g.out);
      var t := if g.Sort? then Range else Hash;
      PhaseOverStore(cur.plan, cur, Sched(map[Stage(1) := Unit(Stage(1), 0, Some(t), s1, None, [])], 1))
      == Step(WithSub(cur.plan, WithSub(g, Scan(Stage(1), g.out, true))),
              Unit(cur.key, cur.rank, Some(List), cur.plan, cur.parent, [Stage(1)]),
              Sched(map[Stage(1) := Unit(Stage(1), 0, Some(t), s1, Some(cur.key), [])], 1))
  {
    var s1 := Store(Stage(1), true, NoPartitioning, g, g.out);
    LinkFirstPhase(g, cur);
    assert KindOf(s1.sub) == KindOf(WithSub(g, s1));
    assert WithSub(WithSub(g, s1), LocalScan(s1)) == WithSub(g, Scan(Stage(1), g.out, true));
  }

  /** The second phase links the first phase's unit: the first phase now
      names the second as its parent. */
  lemma LinkFirstPhase(g: Node, cur: Unit)
    requires (g.GroupBy? || g.Sort?) && cur.children == []
    ensures
      var s1 := Store(Stage(1), true, NoPartitioning, g, g.out);
      var t := if g.Sort? then Range else Hash;
      Link(Sched(map[Stage(1) := Unit(Stage(1), 0, Some(t), s1, None, [])], 1), cur, s1, t, None, None)
      == (Unit(cur.key, cur.rank, cur.outType, cur.plan, cur.parent, [Stage(1)]),
          Sched(map[Stage(1) := Unit(Stage(1), 0, Some(t), s1, Some(cur.key), [])], 1))
  {
    var s1 := Store(Stage(1), true, NoPartitioning, g, g.out);
    var t := if g.Sort? then Range else Hash;
    var sc1 := Sched(map[Stage(1) := Unit(Stage(1), 0, Some(t), s1, None, [])], 1);
    assert Store(s1.table, s1.local, s1.part, s1.sub, s1.out) == s1;
    assert sc1.units[Stage(1) := Unit(Stage(1), 0, Some(t), s1, Some(cur.key), [])]
        == map[Stage(1) := Unit(Stage(1), 0, Some(t), s1, Some(cur.key), [])];
    assert cur.children + [Stage(1)] == [Stage(1)];
  }
}
