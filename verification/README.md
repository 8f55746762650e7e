# Tajo query compiler: logical planning and global planning

A Dafny model of the two sequential, I/O-free parts of the Tajo query
compiler (the `nta.engine` package).

- **Logical planning** (`LogicalPlanner`) turns a parsed statement into an
  operator tree. A SELECT block becomes, bottom up:
  - a join tree: explicit, a cartesian product, or ordered by the join
    predicates of the WHERE clause;
  - a Selection;
  - a GroupBy, or a Union of one GroupBy per CUBE cuboid;
  - a Sort;
  - a Projection;
  - a duplicate-removal GroupBy for DISTINCT.

  Set operations, CREATE INDEX and CREATE TABLE get their own plans, and
  every plan sits under a LogicalRoot.
- **Global planning** (`GlobalPlanner`) turns that tree into a master plan:
  - it inserts a root Store;
  - it rewrites GroupBy and Sort into two phases across local Stores, and
    materializes the children of Join and Union;
  - it cuts the plan into schedule units at every Store. Each unit gets an
    output partitioning (LIST, HASH or RANGE) and links to its child and
    parent units;
  - `localize` splits a unit into query units. It deals file fragments and
    fetch URIs over at most `n` units: round robin, by hash key (the text
    after the last `=` of a URI), or by hash key matched across the two scans
    of a join.

Modules follow the program's structure:

| file | module | models |
|---|---|---|
| base.dfy | Base | `Result`/`Option`; the exceptions the code throws, as `PlanError` values |
| schemas.dfy | Schemas | columns, schemas, `getCommons`, `getColumnByName` |
| logical.dfy | Logical | the logical operator tree and expressions, `getProjectedSchema` |
| cube.dfy | Cube | `generateCuboids`, `createGroupByUnion`, `createGroupByUnionByCube` |
| joins.dfy | Joins | the cartesian product, the natural-join predicate and schema, explicit join trees |
| joinorder.dfy | JoinOrder | `createCrossJoinFromJoinCondition`: the join graph, its traversal, the join chain |
| planner.dfy | Planner | `buildSelectPlan`, `buildSetPlan`, `createPlanInternal`, `createPlan` |
| twophase.dfy | TwoPhase | the root-Store insertion of `build` and the `GlobalPlanBuilder` rewrite |
| schedule.dfy | Schedule | `recursiveBuildScheduleUnit`, the `make*Unit` helpers, `_handleUnionNode`, `convertToGlobalPlan`, `setPartitionNumberForTwoPhase` |
| global.dfy | Global | `build` end to end, with worked GROUP BY / ORDER BY / CREATE INDEX plans |
| roundrobin.dfy | RoundRobin | the unary and binary `assignFragmentsByRoundRobin` loops |
| hashing.dfy | Hashing | `hashFetches`, `hashFragments`, the unary and binary hash assignments |
| queryunits.dfy | QueryUnits | `makeUnaryQueryUnit`, `makeBinaryQueryUnit`, `assignEqualFragment`, the dispatch of `localize` |

Modelling choices:

- Java exceptions become `Err` values: a null dereference is `NullPointer`,
  a failed cast is `ClassCast`, a bad list index is `IndexOutOfBounds`,
  `InvalidQueryException` is `InvalidQuery`, and so on.
- Object identity is replaced by names. A Store is identified by the table
  it writes, and `convertMap` is keyed by that table. Fresh schedule-unit
  ids are `Stage(k)`, taken from a counter threaded through the rewrite.
- A schedule unit carries a creation rank. The proof that parent links form
  no cycle rests on it.
- Storage, catalog and query-manager lookups are inputs. These are the
  fragments of a table, the fetch URIs of a child's partitions and, for a
  RANGE child, those URIs already grouped by range.
- Round robin and modulo arithmetic are written by repeated subtraction
  (`Slot`, `Turn`), and Java's `String.compareTo` as a lexicographic order
  on character sequences.

Every operation is modelled as the code is written, bugs included, and the
end-to-end members (`Planner.BuildSelectPlan`, `Schedule.Build`,
`Global.MasterPlan`, `QueryUnits.Localize`) call only those as-written
operations. Each bug listed under Findings also has a corrected definition
beside it, with the intended property proved about it; the pipeline does not
use the corrected definitions. In particular:

- The FROM tables that the join predicates do not reach are meant to be
  cross-joined onto the tree. The code removes every table of the join graph
  from that list, so a disconnected component is lost
  (`Planner.DisconnectedSelect`).
- `makeSortUnit` gives a first phase over a Store the output type HASH, not
  RANGE (`GlobalPlanner.java:437-439`). `Schedule.TwoPhaseUnit` keeps HASH.
- A USING join-column list has no effect (`Joins.UsingIsIgnored`).
- On the CUBE path a HAVING clause dereferences a null GroupBy, so such a
  query fails with `NullPointer` (`Planner.WithAggregation`).
- The two-phase rewrite leaves Except and Intersect alone. No Store is
  inserted under them, and no schedule unit is made for a Store over them.
- A Store over a Join whose outer child is neither a Store nor a Union fails
  the cast to UnionNode (`ClassCast`). After the two-phase rewrite every Join
  child is a Store or a Union, so `build` never reaches that cast
  (`Global.PhasedNoCast`).

## Model

| member | source | states |
|---|---|---|
| Schemas.Commons | engine/src/main/java/nta/engine/planner/LogicalPlanner.java:576-577 | the common columns are outer columns whose name both sides have, and every outer column whose name the inner side has is represented |
| Schemas.ColumnByName | engine/src/main/java/nta/engine/planner/LogicalPlanner.java:415-416 | a column is found exactly when the schema has one of that name, and the one found belongs to the schema and carries the name |
| Logical.ProjectedSchema | engine/src/main/java/nta/engine/planner/LogicalPlanner.java:556-572 | one output column per target, in target order, with the target's type and its alias, else its field name |
| Logical.TargetName | engine/src/main/java/nta/engine/planner/LogicalPlanner.java:561-567 | an alias wins; without one a field target is named after its column |
| Logical.SchemaToTargets | engine/src/main/java/nta/engine/planner/LogicalPlanner.java:252-253 | one field target per column, in order, with the column's type |
| Logical.WithSub | engine/src/main/java/nta/engine/query/GlobalPlanner.java:92-97 | replacing a unary node's child keeps the node's kind and Store placement, and the tree then scans exactly the new child's tables |
| Logical.WithChildren | engine/src/main/java/nta/engine/query/GlobalPlanner.java:141-154 | replacing a binary node's children keeps its kind, and the tree scans the new outer's tables, then the new inner's |
| Cube.GenerateCuboids | engine/src/main/java/nta/engine/planner/LogicalPlanner.java:336-355 | k columns give exactly 2^k cuboids; cuboid 0 is the empty set, and cuboid i is the column selection of i's bit pattern |
| Cube.CuboidMembership | engine/src/main/java/nta/engine/planner/LogicalPlanner.java:344-353 | with distinct columns, cuboid i contains column j exactly when bit j of i is set (both directions) |
| Cube.LastCuboidIsAll | engine/src/main/java/nta/engine/planner/LogicalPlanner.java:344-353 | the last cuboid groups by all k columns, in their original order |
| Cube.CreateGroupByUnion | engine/src/main/java/nta/engine/planner/LogicalPlanner.java:292-330 | succeeds exactly when at least two cuboids remain from idx; the result is a right-nested Union chain whose branches are one GroupBy per remaining cuboid, in list order, each over the source with the projected schema, and every Union has that schema |
| Cube.CreateGroupByUnionByCube | engine/src/main/java/nta/engine/planner/LogicalPlanner.java:284-290 | with at least one grouping column there are 2^k branches; branch i is a GroupBy over the source on cuboid i, the first on no columns and the last on all of them |
| Joins.CrossChainLeaves | engine/src/main/java/nta/engine/planner/LogicalPlanner.java:541-551 | cross-joining a table list onto a tree scans the tree's tables, then the listed tables in order |
| Joins.CrossChainSchema | engine/src/main/java/nta/engine/planner/LogicalPlanner.java:541-551 | the chain's schema is the base schema followed by each table's schema, in order |
| Joins.CrossChainIsCross | engine/src/main/java/nta/engine/planner/LogicalPlanner.java:541-551 | every join added is a predicate-less CROSS_JOIN whose schema merges outer then inner |
| Joins.CrossChainSpine | engine/src/main/java/nta/engine/planner/LogicalPlanner.java:541-551 | the chain lengthens the left spine by one scan per table, in table order |
| Joins.CreateCartesianProduct | engine/src/main/java/nta/engine/planner/LogicalPlanner.java:537-554 | k ≥ 1 tables give a left-deep chain of k − 1 CROSS_JOINs over a scan of table 0; join i has table i as its inner, each schema merges outer then inner, the whole schema concatenates the tables' schemas, and the plan scans exactly the tables in order |
| Joins.NaturalJoinCondition | engine/src/main/java/nta/engine/planner/LogicalPlanner.java:408-428 | null exactly when there is no common column; otherwise its conjuncts are one EQUAL per common column, in commons order |
| Joins.AndFoldConjuncts | engine/src/main/java/nta/engine/planner/LogicalPlanner.java:419-424 | folding equalities into a left-nested AND yields exactly the accumulated conjuncts followed by the equalities |
| Joins.AndFoldSnoc | engine/src/main/java/nta/engine/planner/LogicalPlanner.java:419-424 | folding one more equality ANDs it onto the right of the predicate folded so far |
| Joins.NaturalJoinConditionShape | engine/src/main/java/nta/engine/planner/LogicalPlanner.java:408-428 | the predicate is left-nested: one common column gives its equality alone, and each further column ANDs its equality onto the predicate of the columns before it |
| Joins.NaturalEqualityColumns | engine/src/main/java/nta/engine/planner/LogicalPlanner.java:414-418 | the i-th equality compares the outer column with the i-th common name against the inner column with that name |
| Joins.NaturalJoinSchemaCounterexample | engine/src/main/java/nta/engine/planner/LogicalPlanner.java:574-595 | for r(a, b, c) and s(b, c, d) the schema as written is (b, c, a, a, b, c, b, c, d, d) |
| Joins.NaturalJoinSchemaLayout | engine/src/main/java/nta/engine/planner/LogicalPlanner.java:574-595 | the corrected natural-join schema starts with the common columns, and every later column is a non-common column of one side |
| Joins.NaturalJoinSchemaKeepsOthersOnce | engine/src/main/java/nta/engine/planner/LogicalPlanner.java:574-595 | every non-common column occurs in the corrected schema as often as the two sides together have it |
| Joins.NaturalJoinSchemaExample | engine/src/main/java/nta/engine/planner/LogicalPlanner.java:574-595 | for r(a, b, c) and s(b, c, d) the corrected schema is (b, c, a, d) |
| Joins.ExplicitJoinTree | engine/src/main/java/nta/engine/planner/LogicalPlanner.java:362-406 | a right-nested join chain in the order written; a NATURAL join gets the synthesised predicate and the natural-join schema as the code builds it (common columns repeated), any other join its ON predicate and the merged schema |
| Joins.ExplicitJoinLeaves | engine/src/main/java/nta/engine/planner/LogicalPlanner.java:362-406 | the explicit join tree is right-deep and scans exactly the clause's tables, each once, in the order the query writes them |
| Joins.UsingIsIgnored | engine/src/main/java/nta/engine/planner/LogicalPlanner.java:368-370 | the plan does not depend on the USING column list |
| JoinOrder.JoinGraphSpec | engine/src/main/java/nta/engine/planner/LogicalPlanner.java:446-450 | every join predicate adds an edge in both directions, and the graph is empty exactly when no conjunct is an equality of two columns |
| JoinOrder.EdgesFromSpec | engine/src/main/java/nta/engine/planner/LogicalPlanner.java:482 | `getEdges(t)` yields exactly the graph's edges that leave t |
| JoinOrder.JoinOrderSpec | engine/src/main/java/nta/engine/planner/LogicalPlanner.java:464-488 | every recorded edge is a graph edge and not a self-loop; it expands the seed or an already reached table, and it never leads back to a table expanded at or before it |
| JoinOrder.TargetsReached | engine/src/main/java/nta/engine/planner/LogicalPlanner.java:482-486 | every table pushed on the traversal stack is the target of a recorded edge |
| JoinOrder.CrossJoinFromJoinConditionAsWritten | engine/src/main/java/nta/engine/planner/LogicalPlanner.java:438-534 | the tree as written is a chain of CROSS_JOINs that scans only FROM tables; without any join predicate it fails exactly on an empty FROM list and otherwise scans every FROM table once |
| JoinOrder.AsWrittenShape | engine/src/main/java/nta/engine/planner/LogicalPlanner.java:452-531 | as written, the tree scans the seed, then every recorded target, then only the FROM tables that no join predicate mentions |
| JoinOrder.DisconnectedJoinCounterexample | engine/src/main/java/nta/engine/planner/LogicalPlanner.java:452-453 | with a.k = b.k and c.k = d.k over FROM a, b, c, d, the code as written scans only a and b |
| JoinOrder.TriangleJoinCounterexample | engine/src/main/java/nta/engine/planner/LogicalPlanner.java:474-503 | with a.k = b.k, a.k = c.k and b.k = c.k over FROM a, b, c, the code as written scans b twice |
| JoinOrder.CrossJoinFromJoinCondition | engine/src/main/java/nta/engine/planner/LogicalPlanner.java:438-534 | the corrected tree: the traversal's tables, each once, then every FROM table the traversal did not reach |
| JoinOrder.ScannedOnce | engine/src/main/java/nta/engine/planner/LogicalPlanner.java:509-531 | the scanned tables followed by the unreached ones list every FROM table, each exactly once |
| JoinOrder.HeadCoversOrder | engine/src/main/java/nta/engine/planner/LogicalPlanner.java:490-503 | the corrected head scans exactly the seed and the recorded targets, and every recorded source is among them |
| JoinOrder.CorrectedShape | engine/src/main/java/nta/engine/planner/LogicalPlanner.java:490-531 | the corrected tree scans the head, then the FROM tables the head leaves out |
| JoinOrder.DisconnectedJoinCorrected | engine/src/main/java/nta/engine/planner/LogicalPlanner.java:509-531 | the corrected tree of the disconnected query scans all four tables |
| JoinOrder.TriangleJoinCorrected | engine/src/main/java/nta/engine/planner/LogicalPlanner.java:464-503 | the corrected tree of the triangle query scans each of a, b and c once |
| JoinOrder.ImplicitJoinTree | engine/src/main/java/nta/engine/planner/LogicalPlanner.java:430-436 | without a WHERE clause the tree is the cartesian product; with one it is the join-condition tree as written; every result is a left-deep chain of predicate-less CROSS_JOINs over FROM tables, and a WHERE clause without join predicates scans every FROM table once |
| JoinOrder.ProductLeaves | engine/src/main/java/nta/engine/planner/LogicalPlanner.java:537-554 | every table the cartesian product scans is named in FROM |
| JoinOrder.ImplicitJoinLeaves | engine/src/main/java/nta/engine/planner/LogicalPlanner.java:430-436 | with a join predicate the implicit tree scans the first recorded source, every recorded target, then the FROM tables outside the join graph |
| Planner.BuildSelectPlan | engine/src/main/java/nta/engine/planner/LogicalPlanner.java:176-282 | without FROM, one EvalExpr with the targets' projected schema; otherwise the top is the DISTINCT GroupBy over the Projection, grouping by all the projection's columns, or the Projection itself; the Projection outputs the merged FROM schemas under `*` and the projected targets otherwise |
| Planner.SelectPlanErrors | engine/src/main/java/nta/engine/planner/LogicalPlanner.java:207-230 | planning fails exactly in the listed error cases; DISTINCT together with aggregation is InvalidQuery |
| Planner.SelectPlanLayers | engine/src/main/java/nta/engine/planner/LogicalPlanner.java:199-280 | top-down the plan is DISTINCT GroupBy, Projection, Sort, aggregation GroupBy, Selection, each only when its clause is present, over the join tree; Selection and Sort keep their input schema, and the plan scans exactly the join tree's tables |
| Planner.DisconnectedSelect | engine/src/main/java/nta/engine/planner/LogicalPlanner.java:452-453 | SELECT * FROM a, b, c, d WHERE a.k = b.k AND c.k = d.k plans successfully over a tree that scans only a and b |
| Planner.CubePlanLayers | engine/src/main/java/nta/engine/planner/LogicalPlanner.java:221-225 | under CUBE the unary layers end at a Union whose every branch is a GroupBy over the Selection over the join tree |
| Planner.AggregationLayer | engine/src/main/java/nta/engine/planner/LogicalPlanner.java:208-242 | the aggregation adds one GroupBy layer when the query aggregates (with or without GROUP BY) and none otherwise, keeping the tables scanned |
| Planner.SortLayer | engine/src/main/java/nta/engine/planner/LogicalPlanner.java:244-250 | ORDER BY adds one Sort layer that keeps its input schema and tables |
| Planner.SelectionLayers | engine/src/main/java/nta/engine/planner/LogicalPlanner.java:199-206 | a WHERE clause adds one Selection layer that keeps its input schema and tables |
| Planner.DistinctLayer | engine/src/main/java/nta/engine/planner/LogicalPlanner.java:272-280 | DISTINCT adds one GroupBy layer on top, keeping the tables scanned |
| Planner.CreatePlanInternal | engine/src/main/java/nta/engine/planner/LogicalPlanner.java:70-168 | unsupported statements are NotSupportQuery; a set operation succeeds exactly when both operands do, is the matching binary node over them and takes the outer side's schema; CREATE INDEX needs the table in the catalog and scans it; CREATE TABLE AS stores the SELECT plan; a bare CREATE TABLE is a null dereference |
| Planner.CreatePlan | engine/src/main/java/nta/engine/planner/LogicalPlanner.java:57-68 | a plan exists exactly when the statement plans, and it sits under a LogicalRoot of the same schema |
| Planner.SetPlanLeaves | engine/src/main/java/nta/engine/planner/LogicalPlanner.java:106-128 | a set statement's plan scans the left operand's tables, then the right operand's |
| TwoPhase.StoreUnless | engine/src/main/java/nta/engine/query/GlobalPlanner.java:110-132 | a boundary child (Union, Store, Scan) is left as is; any other gets a fresh local Store directly above it, and exactly one new Store id is consumed |
| TwoPhase.TwoPhaseOf | engine/src/main/java/nta/engine/query/GlobalPlanner.java:110-132 | a GroupBy or Sort becomes a second phase over a local Store over its first phase, keeping the operator kind and tables and adding only Stores with fresh ids |
| TwoPhase.MaterializeChildren | engine/src/main/java/nta/engine/query/GlobalPlanner.java:136-172 | every Join or Union child that is not a Union or Store gets a fresh local Store, and the others are untouched |
| TwoPhase.Visit | engine/src/main/java/nta/engine/query/GlobalPlanner.java:106-176 | nodes other than GroupBy, Sort, Join and Union are left unchanged; no node changes kind or tables, and only fresh Stores are added |
| TwoPhase.RewriteKeepsTables | engine/src/main/java/nta/engine/query/GlobalPlanner.java:183-187 | the rewrite keeps the root's kind and the sequence of tables scanned |
| TwoPhase.RewriteWriters | engine/src/main/java/nta/engine/query/GlobalPlanner.java:183-187 | the rewrite keeps every existing Store and adds exactly one Store per fresh id it consumes |
| TwoPhase.RewritePhased | engine/src/main/java/nta/engine/query/GlobalPlanner.java:106-187 | after the rewrite every GroupBy and Sort runs in two phases across a local Store, and every Join and Union reads only Unions or Stores |
| TwoPhase.RewriteFresh | engine/src/main/java/nta/engine/query/GlobalPlanner.java:183-187 | if the plan's Stores use ids below the counter, the rewritten plan writes each id at most once |
| TwoPhase.InsertRootStore | engine/src/main/java/nta/engine/query/GlobalPlanner.java:67-97 | under the LogicalRoot, or under its IndexWrite child, a non-local Store with a fresh id is inserted unless a Store is already there; the tables scanned are unchanged |
| TwoPhase.RootStore | engine/src/main/java/nta/engine/query/GlobalPlanner.java:78-81 | an existing Store is kept; otherwise a non-local Store of the next id goes over the node |
| Schedule.Link | engine/src/main/java/nta/engine/query/GlobalPlanner.java:321-332 | a consumed Store's unit, if it has one, gets the output type and the current unit as parent, and becomes its child; no other unit changes and the ranking is kept |
| Schedule.HandleUnion | engine/src/main/java/nta/engine/query/GlobalPlanner.java:537-581 | every Store under the nested Unions is consumed, and its unit, if any, is renamed to the root table, typed and linked; no other unit changes |
| Schedule.TwoPhaseUnit | engine/src/main/java/nta/engine/query/GlobalPlanner.java:306-351 | `makeTwoPhaseUnit` and `makeSortUnit` (lines 405-452): over a Scan the unit is a first phase, HASH for GroupBy and RANGE for Sort; over a Store of the same operator it is the second phase, LIST, with the child HASH (GroupBy) or RANGE (Sort); over another Store the child is LIST and the unit HASH, for Sort too |
| Schedule.RefColumns | engine/src/main/java/nta/engine/query/GlobalPlanner.java:469 | the join columns are exactly the columns the predicate refers to, each once |
| Schedule.SplitColumns | engine/src/main/java/nta/engine/query/GlobalPlanner.java:469-478 | a join column goes to the outer side exactly when the outer schema has it, and to the inner side otherwise |
| Schedule.JoinUnit | engine/src/main/java/nta/engine/query/GlobalPlanner.java:454-525 | the join unit outputs LIST; both children's Stores, including those under Unions, are consumed and their units linked with HASH on their side's columns |
| Schedule.JoinUnitAsWritten | engine/src/main/java/nta/engine/query/GlobalPlanner.java:454-525 | fails with ClassCast exactly when the outer child is neither a Store nor a Union; otherwise the unit outputs LIST, an outer or inner Store's unit is linked with HASH on that side's join columns, and an outer Union is left untouched |
| Schedule.OuterUnionUnlinked | engine/src/main/java/nta/engine/query/GlobalPlanner.java:501-504 | a Store under an outer Union keeps its unit unlinked as written, and is linked under the join unit once corrected |
| Schedule.UnionUnit | engine/src/main/java/nta/engine/query/GlobalPlanner.java:362-403 | the union unit outputs LIST; every Store of the union, nested ones included, is consumed and its unit linked with LIST |
| Schedule.UnionHalves | engine/src/main/java/nta/engine/query/GlobalPlanner.java:362-403 | the two halves of `makeUnionUnit` together consume every Store of the union |
| Schedule.Unifiable | engine/src/main/java/nta/engine/query/GlobalPlanner.java:269-294 | a Selection or Projection takes the unit shape of the operator below it and fails exactly when that operator is a Join whose outer child casts wrongly; over a Scan the unit is LIST and nothing is linked |
| Schedule.MakeUnit | engine/src/main/java/nta/engine/query/GlobalPlanner.java:213-243 | fails exactly on the Join cast error; otherwise a unit is made exactly for the handled operators, keyed by the Store's table with the next rank, keeping the unit map's keys and the ranking, and a Store over a Scan is LIST |
| Schedule.StoreUnit | engine/src/main/java/nta/engine/query/GlobalPlanner.java:204-244 | a handled Store's unit is recorded under its table with the next rank, that Store as plan and no parent yet; the walk fails exactly on the Join cast error |
| Schedule.Build | engine/src/main/java/nta/engine/query/GlobalPlanner.java:198-253 | the walk fails with ClassCast exactly when some Store sits over a wrongly cast Join; otherwise it keeps every node's kind and Store names, keeps the unit graph ranked, and records each handled Store's unit under its table with that Store as its plan |
| Schedule.NoCycle | engine/src/main/java/nta/engine/query/GlobalPlanner.java:198-253 | in a ranked unit map, following parent links one or more times never returns to the start |
| Schedule.BuildAcyclic | engine/src/main/java/nta/engine/query/GlobalPlanner.java:198-253 | the unit graph built from an empty map has no cycle of parent links |
| Schedule.ConvertAsWritten | engine/src/main/java/nta/engine/query/GlobalPlanner.java:616-625 | a cast error in the walk is ClassCast; otherwise a plan without CREATE INDEX succeeds, and a CREATE INDEX plan is a null dereference: the root unit is looked up under a node no unit is recorded for |
| Schedule.Convert | engine/src/main/java/nta/engine/query/GlobalPlanner.java:616-625 | the corrected lookup fails with ClassCast on a cast error and agrees with the code as written on every plan without CREATE INDEX |
| Schedule.PartitionNumber | engine/src/main/java/nta/engine/query/GlobalPlanner.java:627-666 | a GroupBy HASH unit or Sort RANGE unit is partitioned on its keys into n parts, or one part without keys; a unit feeding a Join keeps its keys with n parts |
| Schedule.BuiltPartitions | engine/src/main/java/nta/engine/query/GlobalPlanner.java:627-666 | every unit the walk records can be partitioned: a HASH GroupBy unit is keyed by its grouping columns and a RANGE Sort unit by its sort keys, into n parts, or one part without keys |
| Global.MasterPlan | engine/src/main/java/nta/engine/query/GlobalPlanner.java:67-90 | `build` succeeds exactly on a LogicalRoot that is not a CREATE INDEX; any other node is ClassCast, and every CREATE INDEX plan is a null dereference |
| Global.MasterPlanCorrected | engine/src/main/java/nta/engine/query/GlobalPlanner.java:67-90 | with the corrected lookup, `build` fails with ClassCast off a LogicalRoot and agrees with `build` as written on every plan without CREATE INDEX |
| Global.PhasedNoCast | engine/src/main/java/nta/engine/query/GlobalPlanner.java:501-504 | in a plan in two-phase shape no Store sits over a Join whose outer child fails the UnionNode cast |
| Global.RewriteNoCast | engine/src/main/java/nta/engine/query/GlobalPlanner.java:83-87 | the rewritten plan keeps the LogicalRoot and any IndexWrite child, and building it raises no cast error |
| Global.IndexPlanCorrected | engine/src/main/java/nta/engine/query/GlobalPlanner.java:616-625 | with the corrected lookup, a CREATE INDEX plan over a handled operator has a root unit Stage(0) whose plan is the IndexWrite node over the root Store |
| Global.GroupByOverScan | engine/src/main/java/nta/engine/query/GlobalPlanner.java:67-90 | a GROUP BY over a table yields two units: the first phase over the table, HASH, child of the second phase, which reads its output locally and is LIST |
| Global.SortOverScan | engine/src/main/java/nta/engine/query/GlobalPlanner.java:67-90 | an ORDER BY over a table yields a RANGE first phase and a LIST second phase that reads it locally |
| Global.TwoPhaseOverScan | engine/src/main/java/nta/engine/query/GlobalPlanner.java:67-90 | the whole master plan of a GROUP BY or ORDER BY over a table: exactly units Stage(1) and Stage(0), linked as child and parent |
| Global.PlainRoot | engine/src/main/java/nta/engine/query/GlobalPlanner.java:67-90 | without an existing Store or IndexWrite, `build` is the root Store Stage(0), then the rewrite, then the conversion |
| Global.ConvertRoot | engine/src/main/java/nta/engine/query/GlobalPlanner.java:616-625 | without CREATE INDEX the master plan's root is the root Store's unit |
| RoundRobin.Deal | engine/src/main/java/nta/engine/query/GlobalPlanner.java:1191-1209 | fails exactly when no unit is allowed and there is an item; otherwise Min(n, f) units, unit j holding the items at positions j, j + n, … |
| RoundRobin.DealAllSpec | engine/src/main/java/nta/engine/query/GlobalPlanner.java:1191-1209 | the advancing loop produces the reference buckets, with its cursor at f mod n once all n units exist |
| RoundRobin.RoundRobinBalanced | engine/src/main/java/nta/engine/query/GlobalPlanner.java:1191-1209 | Min(n, f) units, none empty, sizes differing by at most one, and item k is entry k div n of unit k mod n |
| RoundRobin.PicksCount | engine/src/main/java/nta/engine/query/GlobalPlanner.java:1191-1209 | the first f mod n units get one item more than f div n, the others exactly f div n |
| RoundRobin.PicksPosition | engine/src/main/java/nta/engine/query/GlobalPlanner.java:1191-1209 | every item is dealt to one place: entry k div n of unit k mod n |
| RoundRobin.PicksFlattenIn | engine/src/main/java/nta/engine/query/GlobalPlanner.java:952-974 | when whole groups are dealt, an element is in a unit's contents exactly when a group dealt to it holds the element |
| RoundRobin.BinaryRoundRobinAsWritten | engine/src/main/java/nta/engine/query/GlobalPlanner.java:1153-1179 | fails exactly on unequal fragment counts (IllegalArgument) or when no unit is allowed and there is work; otherwise Min(n, f) units, unit j > 0 holding only pair j and unit 0 pair 0 followed by every pair from n on |
| RoundRobin.NoUnitFails | engine/src/main/java/nta/engine/query/GlobalPlanner.java:1163-1175 | with no unit allowed the first item fails, and with no item there is no unit |
| RoundRobin.StuckShape | engine/src/main/java/nta/engine/query/GlobalPlanner.java:1163-1175 | with the cursor stuck, unit 0 takes every item past the first n, and each other unit keeps only the item that opened it |
| RoundRobin.BinaryRoundRobinUnbalanced | engine/src/main/java/nta/engine/query/GlobalPlanner.java:1167 | with n ≥ 2 and at least n + 2 pairs, unit 0 holds more than one pair more than unit 1 as written; with the advancing cursor, sizes differ by at most one |
| RoundRobin.BinaryRoundRobin | engine/src/main/java/nta/engine/query/GlobalPlanner.java:1153-1179 | fails exactly on unequal fragment counts or on no units with work; otherwise the position-paired fragments dealt like the unary round robin |
| Hashing.After | engine/src/main/java/nta/engine/query/GlobalPlanner.java:1066 | the result is the suffix of the URI after its last `=`: it has no `=`, and it is the whole string or is preceded by `=` |
| Hashing.AfterUnique | engine/src/main/java/nta/engine/query/GlobalPlanner.java:1066 | that suffix is the only one with those properties |
| Hashing.LessTransitive | engine/src/main/java/nta/engine/query/GlobalPlanner.java:1061 | the TreeMap key order is transitive (with LessIrreflexive and LessTotal: a strict total order) |
| Hashing.InsertSpec | engine/src/main/java/nta/engine/query/GlobalPlanner.java:1067-1074 | filing an item keeps the keys ascending and the groups non-empty, adds its key, and appends it to that key's group only |
| Hashing.GroupAllSpec | engine/src/main/java/nta/engine/query/GlobalPlanner.java:1060-1077 | the groups are ascending by key, non-empty, exist exactly for the keys that occur, and each holds exactly the items with its key in input order |
| Hashing.GroupMembers | engine/src/main/java/nta/engine/query/GlobalPlanner.java:1060-1077 | an item is in group i exactly when it is an input item with group i's key |
| Hashing.GroupCount | engine/src/main/java/nta/engine/query/GlobalPlanner.java:1060-1077 | there are no more groups than items, and at least one when there is an item |
| Hashing.AssignByHash | engine/src/main/java/nta/engine/query/GlobalPlanner.java:952-974 | fails exactly when no unit is allowed and there is an item; otherwise at most n units and at most one per item |
| Hashing.HashAssignment | engine/src/main/java/nta/engine/query/GlobalPlanner.java:952-974 | every URI lands in some unit, and two URIs with the same hash key land in exactly the same units |
| Hashing.Tagged | engine/src/main/java/nta/engine/query/GlobalPlanner.java:1030-1058 | a fetch is tagged outer exactly when it is an outer URI, and inner exactly when it is an inner URI |
| Hashing.Matched | engine/src/main/java/nta/engine/query/GlobalPlanner.java:918-920 | keeps exactly the groups that hold fetches of both scans |
| Hashing.AssignToBinaryByHash | engine/src/main/java/nta/engine/query/GlobalPlanner.java:910-940 | fails exactly when no unit is allowed and some key is matched; otherwise at most n units |
| Hashing.BinaryHashMatched | engine/src/main/java/nta/engine/query/GlobalPlanner.java:910-940 | a key gets work exactly when both scans have a fetch with it; matched keys stay ascending, and each matched group holds every fetch of both scans with its key |
| Hashing.BothSides | engine/src/main/java/nta/engine/query/GlobalPlanner.java:918-920 | a key's fetches come from both scans exactly when each scan has a fetch with that key |
| QueryUnits.FirstFragment | engine/src/main/java/nta/engine/query/GlobalPlanner.java:856-857 | the first fragment, or IndexOutOfBounds for an empty list |
| QueryUnits.MaxUnits | engine/src/main/java/nta/engine/query/GlobalPlanner.java:837-847 | one unit when the child stores a GroupBy without grouping columns, else n |
| QueryUnits.WithFragment | engine/src/main/java/nta/engine/query/GlobalPlanner.java:1218-1226 | every unit keeps its fetches and fragments and additionally reads the shared fragment |
| QueryUnits.EqualFragments | engine/src/main/java/nta/engine/query/GlobalPlanner.java:1233-1241 | fails exactly when there is a unit and either scan has no fragment; otherwise every unit also reads the first fragment of each scan |
| QueryUnits.EqualFragmentsOnePerScan | engine/src/main/java/nta/engine/query/GlobalPlanner.java:1233-1241 | every unit reads exactly one more fragment of each scan and keeps its fetches |
| QueryUnits.MakeUnary | engine/src/main/java/nta/engine/query/GlobalPlanner.java:831-892 | at most MaxUnits units; an unset child type is a null dereference, BROADCAST is NotImplemented, RANGE over a non-local scan a null dereference, a local scan without fragments fails, and a local scan's units all read its first fragment |
| QueryUnits.UnaryRoundRobin | engine/src/main/java/nta/engine/query/GlobalPlanner.java:1191-1208 | without a child: Min(n, f) units, fragment k in unit k mod n, fragment counts differing by at most one |
| QueryUnits.UnaryHashGrouped | engine/src/main/java/nta/engine/query/GlobalPlanner.java:952-974 | over a local HASH child, every fetch reaches some unit, and fetches with the same hash key reach exactly the same units |
| QueryUnits.MakeBinary | engine/src/main/java/nta/engine/query/GlobalPlanner.java:790-820 | at most n units; a child on the inner scan only is a null dereference; BROADCAST, LIST and non-local HASH are NotImplemented; RANGE yields no units; without a child it fails exactly on unequal fragment counts (IllegalArgument) or no units with work; with a child every unit reads each scan's first fragment |
| QueryUnits.BinaryRoundRobinUnits | engine/src/main/java/nta/engine/query/GlobalPlanner.java:814-817 | without a child, Min(n, f) units: unit j > 0 reads only the outer and inner fragment j, unit 0 reads 2(f − n + 1) fragments when f > n, and every fragment of both scans is read by the unit `StuckUnit` names |
| QueryUnits.StuckPair | engine/src/main/java/nta/engine/query/GlobalPlanner.java:1163-1175 | pair k of the stuck dealing is read, outer and inner fragment, by unit k when k < n and by unit 0 otherwise |
| QueryUnits.Localize | engine/src/main/java/nta/engine/query/GlobalPlanner.java:765-774 | a scan count other than one or two is a null dereference; an unset child type is a null dereference and BROADCAST NotImplemented; without a child one scan fails exactly when no unit is allowed and there are fragments, two scans also on unequal fragment counts; at most n units (one for a zero-key GroupBy child) |
| QueryUnits.LocalizeReadsAll | engine/src/main/java/nta/engine/query/GlobalPlanner.java:765-774 | without a child every fragment of every scan is read by some query unit |

## Left out

- Storage, catalog and query-manager calls in `localize` (table paths, file listings, `sm.split`, table statistics) are inputs: each scan's fragments, fetch URIs and range-grouped URIs.
- `rangeFetches`, TupleUtil range computation and TupleRange ordering are value- and statistics-dependent. A RANGE child's URIs arrive already grouped by range, in range order, and `assignFetchesByRange` deals those groups round robin.
- `hashFragments(Map)` and `assignFetchesByBroadcast` are never called by the modelled code.
- The PlannerUtil transforms and `insertNode`, `AlgebraicUtil.simplify`, `getConjNormalForm` and `findDistinctRefColumns` are not part of this model. Their effect is modelled by the shapes they produce: `Logical.Cnf` returns conjuncts, and `Schedule.RefColumns` returns distinct referenced columns in a fixed order.
- `SchemaUtil.getCommons` and `SchemaUtil.merge` are not part of this model. They are modelled from how they are used: common columns in outer order; merge as concatenation.
- `getProjectedSchema`'s type inference: a target carries its type.
- `Logical.TargetName`: a target that is neither aliased nor a field is named by `Context.getUnnamedColumn`, whose counter is not modelled.
- Schedule-unit ids (`QueryIdFactory`) are `Stage(k)` from a counter. `convertMap` is keyed by the Store's table, not by object identity.
- Hash and set iteration orders are fixed. The traversal seed is the first join predicate's left table (`getTables().iterator().next()`). The remaining FROM tables keep FROM order (`fromTableMap.keySet()`). Within a binary hash group, the outer scan's fetches come before the inner scan's (`HashMap` over scans).
- `JoinTree` is not part of this model. Its edges are modelled as an edge list in insertion order, both directions per predicate.
- Java's UTF-16 `String.compareTo` is modelled as ordering by Dafny `char`, which differs for characters outside the Basic Multilingual Plane.
- Negative `n` is not modelled (`n: nat`).
- Cube.GenerateCuboids: the model gives 2^k cuboids for every k. The code computes the count as `(int) Math.pow(2, k)`, which saturates at 2^31 − 1 for k ≥ 31, and tests bit j with `1 << j`, which wraps at 32 (`LogicalPlanner.java:337-353`), so with 31 or more CUBE columns it yields fewer than 2^k cuboids (with exactly 31, every cuboid but the all-columns one). That 32-bit arithmetic is not modelled.
- Logging, cloning and the `TableMeta`/`StoreType` of inserted scans are left out, and so are ScanNode targets.
- The I/O-bound index and physical-operator code (`IndexWriteExec`, the BST index tests) is outside the planner.

## Findings

Each as-written member below is the one the rest of the model uses; the
corrected member is a separate definition that states what the code
evidently intends.

| source | as written | input that shows it | evidently intended | confidence | as-written member | corrected member |
|---|---|---|---|---|---|---|
| engine/src/main/java/nta/engine/planner/LogicalPlanner.java:579-592 | the nested loop adds a column once for every common column whose name differs from its own | r(a, b, c) NATURAL JOIN s(b, c, d) gives (b, c, a, a, b, c, b, c, d, d) | common columns once, then each side's other columns: (b, c, a, d) | high, not executed | Joins.NaturalJoinSchemaCounterexample | Joins.NaturalJoinSchemaLayout |
| engine/src/main/java/nta/engine/planner/LogicalPlanner.java:452-453 | every join-graph table is removed from the remaining list, but the traversal reaches only the seed's component | FROM a, b, c, d WHERE a.k = b.k AND c.k = d.k scans only a and b | tables the traversal does not reach are cross-joined | high, not executed | JoinOrder.DisconnectedJoinCounterexample | JoinOrder.DisconnectedJoinCorrected |
| engine/src/main/java/nta/engine/planner/LogicalPlanner.java:474-503 | a table pushed twice before it is popped is recorded, and scanned, twice | FROM a, b, c WHERE a.k = b.k AND a.k = c.k AND b.k = c.k scans b twice | each table scanned once | high, not executed | JoinOrder.TriangleJoinCounterexample | JoinOrder.TriangleJoinCorrected |
| engine/src/main/java/nta/engine/query/GlobalPlanner.java:501-503 | the outer branch tests `!= UNION` and then casts to UnionNode | a join whose outer child is a Union of Stores leaves those Stores' units unlinked; a Scan outer child is a ClassCast | test `== UNION`, as the inner branch does | high, not executed | Schedule.OuterUnionUnlinked | Schedule.JoinUnit |
| engine/src/main/java/nta/engine/query/GlobalPlanner.java:619-623 | the root unit is looked up under the LogicalRoot's child, which is the IndexWrite node for CREATE INDEX | any CREATE INDEX plan | look up the Store under the IndexWrite node | medium, not executed | Global.MasterPlan | Global.IndexPlanCorrected |
| engine/src/main/java/nta/engine/query/GlobalPlanner.java:1167 | the binary round robin reads `unitList.get(i)` without advancing `i` | n = 2 with four fragment pairs puts three pairs in unit 0 and one in unit 1 | `unitList.get(i++)`, as in the unary version | high, not executed | RoundRobin.BinaryRoundRobinUnbalanced | RoundRobin.BinaryRoundRobin |
