/** CUBE expansion: `generateCuboids`, `createGroupByUnion` and
    `createGroupByUnionByCube` of LogicalPlanner.java. */
module Cube {
  import opened Base
  import opened Schemas
  import opened Logical

  function Pow2(k: nat): (p: nat)
    ensures p >= 1
  {
    if k == 0 then 1 else 2 * Pow2(k - 1)
  }

  /** Bit `j` of `id`: `(id & (1 << j)) == (1 << j)` for a non-negative `id`. */
  predicate Bit(id: nat, j: nat) {
    if j == 0 then id % 2 == 1 else Bit(id / 2, j - 1)
  }

  /** The columns `cols[j..]` whose bit is set in `id`, in column order. */
  function Select(cols: seq<Column>, id: nat, j: nat): (r: seq<Column>)
    ensures |r| <= |cols| - j || (j > |cols| && r == [])
    decreases |cols| - j
  {
    if j >= |cols| then []
    else (if Bit(id, j) then [cols[j]] else []) + Select(cols, id, j + 1)
  }

  /** Cuboid number `id`: the grouping columns selected by its bit pattern. */
  function Cuboid(cols: seq<Column>, id: nat): seq<Column> {
    Select(cols, id, 0)
  }

  /** `generateCuboids`: cuboid 0 is the empty (grand total) column set, then
      cuboids 1 .. 2^k - 1 by bit pattern. */
  function GenerateCuboids(cols: seq<Column>): (cube: seq<seq<Column>>)
    ensures |cube| == Pow2(|cols|)
    ensures cube[0] == []
    ensures forall i :: 0 <= i < |cube| ==> cube[i] == Cuboid(cols, i)
  {
    ZeroSelectsNothing(cols, 0);
    [[]] + seq(Pow2(|cols|) - 1, i requires 0 <= i < Pow2(|cols|) - 1 => Cuboid(cols, i + 1))
  }

  lemma {:induction false} ZeroSelectsNothing(cols: seq<Column>, j: nat)
    ensures Select(cols, 0, j) == []
    decreases |cols| - j
  {
    if j < |cols| {
      ZeroBitClear(j);
      ZeroSelectsNothing(cols, j + 1);
    }
  }

  lemma {:induction false} ZeroBitClear(j: nat)
    ensures !Bit(0, j)
  {
    if j > 0 {
      ZeroBitClear(j - 1);
    }
  }

  lemma {:induction false} AllOnesBit(k: nat, j: nat)
    requires j < k
    ensures Bit(Pow2(k) - 1, j)
  {
    if j > 0 {
      assert (Pow2(k) - 1) / 2 == Pow2(k - 1) - 1;
      AllOnesBit(k - 1, j - 1);
    }
  }

  lemma {:induction false} SelectAll(cols: seq<Column>, j: nat)
    requires j <= |cols|
    ensures Select(cols, Pow2(|cols|) - 1, j) == cols[j..]
    decreases |cols| - j
  {
    if j < |cols| {
      AllOnesBit(|cols|, j);
      SelectAll(cols, j + 1);
      assert cols[j..] == [cols[j]] + cols[j + 1..];
    }
  }

  /** The last cuboid groups by every column, in the original order. */
  lemma LastCuboidIsAll(cols: seq<Column>)
    ensures GenerateCuboids(cols)[Pow2(|cols|) - 1] == cols
  {
    SelectAll(cols, 0);
  }

  predicate Distinct<T(==)>(s: seq<T>) {
    forall a, b :: 0 <= a < b < |s| ==> s[a] != s[b]
  }

  lemma {:induction false} SelectMembership(cols: seq<Column>, id: nat, j0: nat)
    requires Distinct(cols)
    ensures forall j :: 0 <= j < |cols| ==> (cols[j] in Select(cols, id, j0) <==> j0 <= j && Bit(id, j))
    decreases |cols| - j0
  {
    if j0 < |cols| {
      SelectMembership(cols, id, j0 + 1);
    }
  }

  /** With distinct grouping columns, cuboid `i` contains `cols[j]` exactly when
      bit `j` of `i` is set. */
  lemma CuboidMembership(cols: seq<Column>, i: nat, j: nat)
    requires Distinct(cols)
    requires i < Pow2(|cols|) && j < |cols|
    ensures cols[j] in GenerateCuboids(cols)[i] <==> Bit(i, j)
  {
    SelectMembership(cols, i, 0);
  }

  /** The GroupBy built for one cuboid: over its own copy of the source, with
      the context target list and its projected output schema. */
  function GroupOf(targets: seq<Target>, source: Node, cols: seq<Column>): Node {
    GroupBy(cols, None, targets, source, ProjectedSchema(targets))
  }

  /** The branches of a right-nested Union chain, left to right. */
  function Branches(n: Node): seq<Node> {
    if n.Union? then [n.outer] + Branches(n.inner) else [n]
  }

  /** Every Union along the right spine has output schema `s`. */
  predicate UnionsOut(n: Node, s: Schema) {
    n.Union? ==> n.out == s && (n.inner.Union? ==> UnionsOut(n.inner, s))
  }

  /** `createGroupByUnion(ctx, subNode, cuboids, idx)`. */
  function CreateGroupByUnion(targets: seq<Target>, source: Node, cuboids: seq<seq<Column>>, idx: nat): (r: Result<Node>)
    ensures r.Ok? <==> idx + 2 <= |cuboids|
    ensures r.Ok? ==> r.value.Union? && UnionsOut(r.value, ProjectedSchema(targets))
    ensures r.Ok? ==> |Branches(r.value)| == |cuboids| - idx
    ensures r.Ok? ==> forall i :: 0 <= i < |cuboids| - idx ==> Branches(r.value)[i] == GroupOf(targets, source, cuboids[idx + i])
    decreases |cuboids| - idx
  {
    if |cuboids| - idx > 2 then
      var g1 := GroupOf(targets, source, cuboids[idx]);
      var rest := CreateGroupByUnion(targets, source, cuboids, idx + 1).value;
      Ok(Union(g1, rest, g1.out))
    else if idx + 1 < |cuboids| then
      var g1 := GroupOf(targets, source, cuboids[idx]);
      var g2 := GroupOf(targets, source, cuboids[idx + 1]);
      Ok(Union(g1, g2, g1.out))
    else
      Err(IndexOutOfBounds)
  }

  /** `createGroupByUnionByCube`: one GroupBy per cuboid of the first group element. */
  function CreateGroupByUnionByCube(targets: seq<Target>, source: Node, cols: seq<Column>): (r: Result<Node>)
    ensures r.Ok? <==> |cols| >= 1
    ensures r.Ok? ==> |Branches(r.value)| == Pow2(|cols|)
    ensures r.Ok? ==> forall i :: 0 <= i < Pow2(|cols|) ==>
      Branches(r.value)[i].GroupBy? && Branches(r.value)[i].sub == source && Branches(r.value)[i].keys == Cuboid(cols, i)
    ensures r.Ok? ==> Branches(r.value)[0].keys == []
    ensures r.Ok? ==> Branches(r.value)[Pow2(|cols|) - 1].keys == cols
  {
    var cube := GenerateCuboids(cols);
    LastCuboidIsAll(cols);
    assert |cols| >= 1 ==> Pow2(|cols|) >= 2;
    CreateGroupByUnion(targets, source, cube, 0)
  }
}
