/** The two-phase rewrite of `GlobalPlanner`: the visitor `GlobalPlanBuilder`
    applied post-order, which makes every data redistribution explicit as a
    local Store, and the Store `build` inserts under the root. Fresh schedule
    unit ids come from a counter `next` threaded through the traversal. */
module TwoPhase {
  import opened Base
  import opened Schemas
  import opened Logical

  /** `insertStore`: a local Store of intermediate result `id` over `sub`. */
  function LocalStore(id: nat, sub: Node): Node {
    Store(Stage(id), true, NoPartitioning, sub, sub.out)
  }

  /** A GroupBy or Sort child that needs no Store of its own: a Union, a Store or a Scan. */
  predicate Boundary(n: Node) {
    n.Union? || n.Store? || n.Scan?
  }

  /** A Join or Union child that needs no Store of its own: a Union or a Store. */
  predicate Materialized(n: Node) {
    n.Union? || n.Store?
  }

  /** How many Stores of the tree write intermediate result `k`. */
  function Writers(n: Node, k: nat): nat {
    match n
    case Store(t, _, _, s, _) => (if t == Stage(k) then 1 else 0) + Writers(s, k)
    case Root(s, _) => Writers(s, k)
    case Selection(_, s, _) => Writers(s, k)
    case Projection(_, s, _) => Writers(s, k)
    case GroupBy(_, _, _, s, _) => Writers(s, k)
    case Sort(_, s, _) => Writers(s, k)
    case IndexWrite(_, s, _) => Writers(s, k)
    case Join(_, _, o, i, _) => Writers(o, k) + Writers(i, k)
    case Union(o, i, _) => Writers(o, k) + Writers(i, k)
    case Except(o, i, _) => Writers(o, k) + Writers(i, k)
    case Intersect(o, i, _) => Writers(o, k) + Writers(i, k)
    case Scan(_, _, _) => 0
    case CreateTable(_, _) => 0
    case EvalExpr(_, _) => 0
  }

  /** 1 when `k` is one of the ids `a .. b - 1` a step handed out, else 0. */
  function Added(k: nat, a: nat, b: nat): nat {
    if a <= k < b then 1 else 0
  }

  /** The GroupBy-or-Sort two-phase shape: a second-phase operator over a local
      Store over a first-phase copy of it whose child is a boundary. */
  predicate SecondPhase(n: Node) {
    (n.GroupBy? || n.Sort?) && n.sub.Store? && n.sub.local && n.sub.table.Stage?
    && KindOf(n.sub.sub) == KindOf(n) && Boundary(FirstPhaseChild(n))
  }

  /** The child of the first-phase copy under a second-phase operator. */
  function FirstPhaseChild(n: Node): Node
    requires (n.GroupBy? || n.Sort?) && n.sub.Store? && (n.sub.sub.GroupBy? || n.sub.sub.Sort?)
  {
    n.sub.sub.sub
  }

  /** Every GroupBy and Sort of the tree has the two-phase shape, and every
      Join and Union child is a Union or a Store. */
  predicate Phased(n: Node) {
    match n
    case GroupBy(_, _, _, _, _) => SecondPhase(n) && Phased(FirstPhaseChild(n))
    case Sort(_, _, _) => SecondPhase(n) && Phased(FirstPhaseChild(n))
    case Join(_, _, o, i, _) => Materialized(o) && Materialized(i) && Phased(o) && Phased(i)
    case Union(o, i, _) => Materialized(o) && Materialized(i) && Phased(o) && Phased(i)
    case Except(o, i, _) => Phased(o) && Phased(i)
    case Intersect(o, i, _) => Phased(o) && Phased(i)
    case Root(s, _) => Phased(s)
    case Selection(_, s, _) => Phased(s)
    case Projection(_, s, _) => Phased(s)
    case Store(_, _, _, s, _) => Phased(s)
    case IndexWrite(_, s, _) => Phased(s)
    case Scan(_, _, _) => true
    case CreateTable(_, _) => true
    case EvalExpr(_, _) => true
  }

  /** The child below a GroupBy or Sort: the rewritten child itself when it is
      a boundary, else a fresh local Store over it. */
  function StoreUnless(boundary: bool, child: Node, next: nat): (r: (Node, nat))
    ensures boundary ==> r == (child, next)
    ensures !boundary ==> r.0.Store? && r.0.local && r.0.table == Stage(next) && r.0.sub == child && r.1 == next + 1
    ensures Leaves(r.0) == Leaves(child) && Phased(r.0) == Phased(child)
    ensures next <= r.1 && forall k :: Writers(r.0, k) == Writers(child, k) + Added(k, next, r.1)
  {
    if boundary then (child, next) else (LocalStore(next, child), next + 1)
  }

  /** `GlobalPlanBuilder.visit` on a GroupBy or Sort whose child is already
      rewritten: a local Store goes under it unless its child is a boundary,
      then it becomes a second phase over a local Store over a first-phase
      copy (the shape `transformGroupbyTo2PWithStore` and
      `transformSortTo2PWithStore` build). */
  function TwoPhaseOf(n: Node, next: nat): (r: (Node, nat))
    requires n.GroupBy? || n.Sort?
    ensures KindOf(r.0) == KindOf(n) && Leaves(r.0) == Leaves(n)
    ensures next <= r.1 && forall k :: Writers(r.0, k) == Writers(n, k) + Added(k, next, r.1)
    ensures SecondPhase(r.0) && Phased(FirstPhaseChild(r.0)) == Phased(n.sub)
  {
    var (child, k) := StoreUnless(Boundary(n.sub), n.sub, next);
    match n
    case GroupBy(keys, having, targets, _, out) =>
      var first := GroupBy(keys, having, targets, child, out);
      assert Leaves(first) == Leaves(child);
      var store := LocalStore(k, first);
      assert Leaves(store) == Leaves(first);
      assert forall j :: Writers(store, j) == (if j == k then 1 else 0) + Writers(child, j);
      (GroupBy(keys, having, targets, store, out), k + 1)
    case Sort(keys, _, out) =>
      var first := Sort(keys, child, out);
      assert Leaves(first) == Leaves(child);
      var store := LocalStore(k, first);
      assert Leaves(store) == Leaves(first);
      assert forall j :: Writers(store, j) == (if j == k then 1 else 0) + Writers(child, j);
      (Sort(keys, store, out), k + 1)
  }

  /** `GlobalPlanBuilder.visit` on a Join or Union whose children are already
      rewritten: each child that is not a Union or a Store gets a local Store,
      outer first. */
  function MaterializeChildren(n: Node, next: nat): (r: (Node, nat))
    requires n.Join? || n.Union?
    ensures KindOf(r.0) == KindOf(n) && Leaves(r.0) == Leaves(n)
    ensures next <= r.1 && forall k :: Writers(r.0, k) == Writers(n, k) + Added(k, next, r.1)
    ensures r.0.Join? || r.0.Union?
    ensures Materialized(r.0.outer) && Materialized(r.0.inner)
    ensures Phased(r.0.outer) == Phased(n.outer) && Phased(r.0.inner) == Phased(n.inner)
  {
    var (o, k1) := StoreUnless(Materialized(n.outer), n.outer, next);
    var (i, k2) := StoreUnless(Materialized(n.inner), n.inner, k1);
    if n.Join? then (Join(n.jtype, n.qual, o, i, n.out), k2) else (Union(o, i, n.out), k2)
  }

  /** `GlobalPlanBuilder.visit` on a node whose children are already
      rewritten. Every node other than GroupBy, Sort, Join and Union is left
      as is; in particular Except and Intersect get no Stores. */
  function Visit(n: Node, next: nat): (r: (Node, nat))
    ensures !(n.GroupBy? || n.Sort? || n.Join? || n.Union?) ==> r == (n, next)
    ensures KindOf(r.0) == KindOf(n) && Leaves(r.0) == Leaves(n)
    ensures next <= r.1 && forall k :: Writers(r.0, k) == Writers(n, k) + Added(k, next, r.1)
  {
    if n.GroupBy? || n.Sort? then TwoPhaseOf(n, next)
    else if n.Join? || n.Union? then MaterializeChildren(n, next)
    else (n, next)
  }

  /** 1 when `n` is itself a Store writing intermediate result `k`, else 0. */
  function OwnWriter(n: Node, k: nat): nat {
    if n.Store? && n.table == Stage(k) then 1 else 0
  }

  /** How `WithSub` moves the Store counts and the two-phase shape. */
  lemma WithSubCounts(n: Node, s: Node)
    requires IsUnary(n)
    ensures forall k :: Writers(n, k) == OwnWriter(n, k) + Writers(n.sub, k)
    ensures forall k :: Writers(WithSub(n, s), k) == OwnWriter(n, k) + Writers(s, k)
    ensures !(n.GroupBy? || n.Sort?) ==> Phased(WithSub(n, s)) == Phased(s)
  {
  }

  /** How `WithChildren` moves the Store counts and the two-phase shape. */
  lemma WithChildrenCounts(n: Node, o: Node, i: Node)
    requires IsBinary(n)
    ensures forall k :: Writers(n, k) == Writers(n.outer, k) + Writers(n.inner, k)
    ensures forall k :: Writers(WithChildren(n, o, i), k) == Writers(o, k) + Writers(i, k)
    ensures n.Except? || n.Intersect? ==> Phased(WithChildren(n, o, i)) == (Phased(o) && Phased(i))
  {
  }

  /** `root.postOrder(new GlobalPlanBuilder())`: children first (outer before
      inner), then the node itself. */
  function Rewrite(n: Node, next: nat): (r: (Node, nat))
    decreases n
  {
    if IsUnary(n) then
      var (s, k) := Rewrite(n.sub, next);
      Visit(WithSub(n, s), k)
    else if IsBinary(n) then
      var (o, k1) := Rewrite(n.outer, next);
      var (i, k2) := Rewrite(n.inner, k1);
      Visit(WithChildren(n, o, i), k2)
    else
      Visit(n, next)
  }

  /** The rewrite keeps the kind of the root node and the tables scanned. */
  lemma {:induction false} RewriteKeepsTables(n: Node, next: nat)
    ensures KindOf(Rewrite(n, next).0) == KindOf(n)
    ensures Leaves(Rewrite(n, next).0) == Leaves(n)
    decreases n
  {
    if IsUnary(n) {
      RewriteKeepsTables(n.sub, next);
    } else if IsBinary(n) {
      var (o, k1) := Rewrite(n.outer, next);
      RewriteKeepsTables(n.outer, next);
      RewriteKeepsTables(n.inner, k1);
    }
  }

  /** The rewrite adds one Store for each fresh id `next .. r.1 - 1` and
      keeps every Store the plan had. */
  lemma {:induction false} RewriteWriters(n: Node, next: nat, k: nat)
    ensures next <= Rewrite(n, next).1
    ensures Writers(Rewrite(n, next).0, k) == Writers(n, k) + Added(k, next, Rewrite(n, next).1)
    decreases n
  {
    if IsUnary(n) {
      var (s, _) := Rewrite(n.sub, next);
      RewriteWriters(n.sub, next, k);
      WithSubCounts(n, s);
    } else if IsBinary(n) {
      var (o, k1) := Rewrite(n.outer, next);
      var (i, _) := Rewrite(n.inner, k1);
      RewriteWriters(n.outer, next, k);
      RewriteWriters(n.inner, k1, k);
      WithChildrenCounts(n, o, i);
    }
  }

  /** After the rewrite every GroupBy and Sort runs in two phases across a
      local Store, and every Join and Union reads Unions or Stores. */
  lemma {:induction false} RewritePhased(n: Node, next: nat)
    ensures Phased(Rewrite(n, next).0)
    decreases n
  {
    if IsUnary(n) {
      var (s, k) := Rewrite(n.sub, next);
      RewritePhased(n.sub, next);
      WithSubCounts(n, s);
      if n.GroupBy? || n.Sort? {
        var r := TwoPhaseOf(WithSub(n, s), k).0;
        assert Phased(r) == (SecondPhase(r) && Phased(FirstPhaseChild(r)));
      }
    } else if IsBinary(n) {
      var (o, k1) := Rewrite(n.outer, next);
      var (i, k2) := Rewrite(n.inner, k1);
      RewritePhased(n.outer, next);
      RewritePhased(n.inner, k1);
      WithChildrenCounts(n, o, i);
    }
  }

  /** When every intermediate result the plan already writes has an id below
      `next`, the rewrite's Stores write pairwise distinct ids: the old ones
      and exactly the fresh ids `next .. r.1 - 1`. */
  lemma RewriteFresh(n: Node, next: nat, k: nat)
    requires forall j: nat :: Writers(n, j) > 0 ==> j < next
    ensures k < next ==> Writers(Rewrite(n, next).0, k) == Writers(n, k)
    ensures next <= k < Rewrite(n, next).1 ==> Writers(Rewrite(n, next).0, k) == 1
    ensures Rewrite(n, next).1 <= k ==> Writers(Rewrite(n, next).0, k) == 0
  {
    RewriteWriters(n, next, k);
  }

  /** `build`: the plan under a LogicalRoot; under a CREATE INDEX the root is
      the IndexWrite node. Unless that root's child is already a Store, a
      non-local Store of a fresh id is inserted under it. Returns the plan,
      whether an IndexWrite was found, and the next free id. */
  function InsertRootStore(plan: Node, next: nat): (r: Result<(Node, bool, nat)>)
    ensures r.Ok? <==> plan.Root?
    ensures r.Ok? ==> r.value.0.Root? && r.value.1 == plan.sub.IndexWrite?
    ensures r.Ok? && !plan.sub.IndexWrite? ==> r.value.0.sub.Store? && r.value.0.sub.sub == (if plan.sub.Store? then plan.sub.sub else plan.sub)
    ensures r.Ok? && plan.sub.IndexWrite? ==> r.value.0.sub.IndexWrite? && r.value.0.sub.sub.Store?
    ensures r.Ok? ==> Leaves(r.value.0) == Leaves(plan)
    ensures r.Ok? ==> next <= r.value.2 <= next + 1 && forall k :: Writers(r.value.0, k) == Writers(plan, k) + Added(k, next, r.value.2)
  {
    if !plan.Root? then Err(ClassCast)
    else
      match plan.sub
      case IndexWrite(ix, s, out) =>
        var (s', k) := RootStore(s, next);
        Ok((Root(IndexWrite(ix, s', out), plan.out), true, k))
      case _ =>
        var (s', k) := RootStore(plan.sub, next);
        Ok((Root(s', plan.out), false, k))
  }

  /** The non-local Store `build` puts over `sub` unless `sub` is already one. */
  function RootStore(sub: Node, next: nat): (r: (Node, nat))
    ensures r.0.Store? && Leaves(r.0) == Leaves(sub)
    ensures sub.Store? ==> r == (sub, next)
    ensures !sub.Store? ==> r.0 == Store(Stage(next), false, NoPartitioning, sub, sub.out) && r.1 == next + 1
    ensures next <= r.1 && forall k :: Writers(r.0, k) == Writers(sub, k) + Added(k, next, r.1)
  {
    if sub.Store? then (sub, next)
    else (Store(Stage(next), false, NoPartitioning, sub, sub.out), next + 1)
  }
}
