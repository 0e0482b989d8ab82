# IncQL, verified

IncQL is a relational query layer for Incan programs. Query blocks are desugared into carrier method calls, carriers
append nodes to a Prism plan, and analyses over that plan report lineage, differences between plans, and evidence. This
project models those compiler and analysis parts and proves what they promise.

Run `dafny verify dfyconfig.toml` in this directory (Dafny 4.11).

## What is modelled

- **Plans and their meaning.** `Tables`, `Expressions` and `Plans` give every Prism node a table: reads, filters, joins,
  projections with sequential add-or-replace bindings, grouping, aggregation, generators, windows, ordering and limits.
  Scalar functions, aggregates, generators, windows and sort orders are arbitrary functions of an `Engine`, so every
  theorem holds for every backend. Column names follow the planner's own schema rules.
- **Lineage.** `Lineage` builds the edges with the loops of the source and against a specification function.
  `LineageEdges` says, on edges alone, exactly which edges that are: ends, relationship, transformation, confidence.
  `LineageShape` proves the graph well formed and acyclic. `LineageReach` says what the edges of a node reach, from the
  edge lists alone; `LineageReads` says what a node reads, from its meaning, and proves for every node kind exactly when
  the edges reach all of it. `LineageSlices` proves that databases agreeing on what is read give the same columns, and
  `LineageSoundness` puts the two together: a column that is not reachable backwards cannot influence the output.
  `LineageLimits` has a plan that breaks for every condition, and `QueryLineage` carries the theorem to query blocks and
  their joins.
- **Plan rewrites.** `Rewrites` is the canonical rewrite pass before lowering. Along safe rule applications it keeps the
  columns and the table of every node, and `RewriteShape` proves that it really merges what it is there to merge.
  `RewriteLimits` takes the rules that are not always safe, runs plans with
  arbitrary keys, measures, windows and orderings through the pass, and proves exactly when the pass keeps their meaning
  on every backend and database.
- **Stores.** `Reachability` is the walk from a tip to the nodes it depends on. `Adoption` copies such a subgraph into
  another store, sharing structurally equal nodes, as a join across stores does, and packs a rewritten view. A copy has
  the columns and the table of its original, so a cross-store join is the join of the two tables, and the whole
  canonical pass keeps the meaning of the tip. `NodeShapes` says exactly what the structural comparison tells apart.
- **Query blocks.** `Incan` is the vocabulary tree, `Desugar` and `Queries` are the desugarer, `QueryShape` says exactly
  which blocks it accepts, what chain it builds, and which methods each spelling of a clause adds to it. `QueryMeaning` holds two interpreters that share only the carrier
  operations of `Carriers`: one reads clauses and surface expressions, the other only helper calls and carrier methods.
  `QueryValues`, `SelectCorrect` and `QueryCorrect` prove that they agree. `QueryLimits` proves what happens outside the
  conditions. `Quality` does the quality-block lowering, against the exported helper names of `Manifest`, and
  `QualityValues` gives quality expressions a meaning and proves that lowering keeps it.
- **From query blocks to plans.** `QueryPlans` builds the node every carrier method appends and proves that the plan of a
  chain evaluates to the chain's table. `QueryBuilds` proves that every accepted block builds such a plan.
  `PlannedQueries` joins this to the clauses, so that lineage and the rewrite pass speak about what a query block means.
- **Plan diffs.** `KeyedDiff` is the one algorithm behind all families, with its theory; `PlanDiffs` instantiates it
  and says what its signatures tell apart. `DiffRecords` says what the records of a whole diff claim: grade, side,
  references, family, and when there is nothing to say.
- **Ingress analysis.** `Ingress` folds the steps of an ingress plan into plan nodes; `IngressMeaning` gives the steps
  themselves a meaning, as table operations, and proves that the plan has it.
- **The RFC catalog.** `CatalogMarkers` is its marked region, `CatalogBlock` its rendered block, and `CatalogTable`
  reads the table of that block back.
- **The function registry** (`Registry`), **generators** (`Generators`) and **bundle sections** (`Bundle`).

State the source updates in place is a class or an array here (`FunctionRegistry`, `SectionList`, `PrismStore`,
`StripDistinctPrefix`); its loops are loops, each proved against a specification function, and the properties are proved
about those functions.

## Where the obvious claim is false

- Lineage is not sound for every join. Under a relation alias, which every query-block join sets, the right side is
  still searched under its unqualified names, so `c.i` is blamed on the left input (`AliasedJoinUnsound`). The exact
  condition is on the whole predicate (`JoinCompleteExactly`). Joins on one key name, as the how-to guide writes them,
  meet it, because the name also finds the right column (`SameKeyTraced`, `KeyedJoinSound`, `GuideJoinTraceable`); joins
  on differently named keys are the failing ones (`EquiJoinExactly`).
- A window output that reuses a column name is appended to the plan's schema but its edge points at the old column,
  against the add-or-replace helper in src/window_builders.incn:318-328 (`CollidingWindowUnsound`,
  `WindowCompleteExactly`).
- A measure's filter and ordering are not traced (`FilteredCountUnsound`), except through columns that its arguments or
  the grouping keys name (`MeasureCompleteExactly`, `GroupedFilteredCountTraced`). A lateral alias that shadows an input
  column is traced to the input column (`ShadowedSelectUnsound`): a selected column is traced exactly when every shadow
  it reads depends only on columns it names itself (`SelectColumnExactly`), which covers a column selected under its own
  name and read again (`ReselectTraced`), and a name of an add-or-replace projection exactly when some assignment to it
  names what its last binding reads (`ProjectCompleteExactly`). A generator without output columns has no edge
  (`SilentGeneratorUnsound`, `GenerateCompleteExactly`). An aggregate over an aggregate has more planned names than
  columns (`DoubleAggregateWidths`) exactly when it inherits grouping names (`EvalWidthExactly`).
- The rewrite pass is called semantics-preserving. `order_by([a]).order_by([b])` becomes `order_by([b])`, which some
  backend always tells (`OrderTwiceChanges`, `OrderStackExactly`; per backend and table `ReorderExactly`, and
  `DistinctKeysReorder` for backends that sort by key). Erasing `filter(true)` between `group_by` and `agg` makes them
  fuse into a grouped aggregate (`FilteredGroupChanges`, `FilteredStackExactly`, `RegroupedStackExactly`). An aggregate
  is merged into the aggregate below it (`GroupedTwiceChanges`, `CountTwiceChanges`, `AggregateStackExactly`,
  `GroupedStackExactly`, `FilteredPairExactly`, `SplitPairExactly`). Windows that read each other are merged
  (`WindowStackExactly`, `WindowMergeExactly`). `SafeStep` excludes what these conditions exclude for windows and
  orderings, and every aggregate that would land on an aggregate.
- Adopting a subgraph shares nodes that compare as equal, and the comparison skips a measure's sketch type: two HLL
  sketches of one column in different value domains become one (`CopiedExactly`, `TwinsLost`, `SketchesMerged`).
- An unaliased `sum(col("x"))` is called `sum_expr` by the desugarer and `sum_x` by the library
  (`AggregateNamesAgree`, exact).
- A SELECT list with aggregates means what it says exactly when no item is disturbed by the measures in view
  (`AggregateProjectionExactly`, `SelectExactly`), and on every backend and database exactly when its names stay apart
  (`SelectAlwaysExactly`): a plain item or a group key with the name of a later aggregate
  captures it (`CapturedExactly`, `CapturedInput`, `KeyInput`), an earlier reference to it sees the measure
  (`MentionedExactly`, `MentionedInput`), and one the two layers name differently is not found (`MisnamedExactly`,
  `MisnamedInput`). SELECT DISTINCT is right exactly when every column is the first of its name (`DistinctExactly`,
  `DuplicateInput`), and a list behind it exactly when it has no aggregate (`AfterDistinctExactly`,
  `AggregateAfterDistinct`): an aggregate still sees the grouping that removed the duplicates. An empty list keeps every
  column (`EmptyProjection`, `EmptyInput`).
- Swapping two output columns leaves an empty diff exactly when they differ in kind or nullability (`SwapUnseen`,
  `OutputSilentExactly`); families other than output columns, requirements and lineage do not record the signature of an
  addition (`EvidenceReplay`). Two lineage edges can show one signature when a source name holds an arrow
  (`ArrowCollides`), and only then (`LineageTold`, `EndsTold`).
- Plan diffs are not symmetric when a key is repeated: every item is compared with the first item of its key on the
  other side, so [x, y] against [x] reports y as changed and [x] against [x, y] reports nothing
  (`RepeatedKeyAsymmetric`, `RepeatedOutputAsymmetric`). Unaliased joins and reused window names repeat output names.
  `DiffSymmetricExactly` and `PlanDiffSymmetric` are the exact conditions.
- Once the RFC index has been rewritten it can be rewritten again exactly when no table cell spells a marker
  (`RewritableExactly`): a title that contains the end marker is written once and refused from then on
  (`MarkerTitleRefused`). The link of a table row is not escaped: a bare pipe in it, as in a file name, moves the columns
  (`LinesUpExactly`).
- Attaching an alias overwrites the entry's alias policy, so repeating an earlier alias under its own policy fails
  (`AliasRepeatExactly`); attaching any alias makes repeating the declaration fail (`RepeatExactly`).

The soundness theorem of lineage assumes `AllTraceable`: the conditions above, node by node, below the tip. The theorem
on query blocks assumes `Faithful`: a SELECT list names something, DISTINCT output names differ, no aggregate list
follows a DISTINCT directly, and an aggregate's name differs from the group keys and from every earlier item's name, is
not mentioned by an earlier plain item, and is the same in both layers. Plain items may read group keys and earlier
items. These are conditions on names; `QueryLimits` says exactly when a block without one of them is still right.

## Model

| member | source | states |
|---|---|---|
| `Names.IndexOf` | src/inspect.incn:1340-1345 | The field index is the first position carrying the name, or -1 when no field has it. |
| `Names.CountMatches` | src/inspect.incn:1331-1337 | The match count is the number of fields with the name; zero exactly when the name is absent. |
| `Names.InsertAllFacts` | src/projection_builders.incn:325-335 | Add-or-replace keeps the input columns as an unchanged prefix, adds exactly the new names, and never introduces a duplicate. |
| `Names.InsertAllAppend` | src/projection_builders.incn:325-335 | Projecting a and then b gives the same columns as projecting a followed by b at once. |
| `Names.InsertAllOrder` | src/window_builders.incn:318-328 | The added names are the first occurrences of the new ones, in order. |
| `Names.InsertAllKnown` | src/projection_builders.incn:325-335 | Reassigning only existing columns leaves the column list as it is. |
| `Expressions.CollectExprNames` | src/inspect.incn:1021-1031 | The recursive walk returns the dependency names of an expression tree in first-mention order. |
| `Expressions.DependencyNamesExact` | src/inspect.incn:1012-1031 | The collected names are exactly the referenced columns, each once. |
| `Expressions.EvalDependsOnReferences` | src/projection_builders.incn:210-226 | A scalar expression's value depends only on the columns its tree references. |
| `Plans.EvalWidthExactly` | src/prism/output_columns.incn:42-81 | Whatever lowers yields at most one table column per planned output name, and exactly one per name if and only if no aggregate behind it inherits grouping names from an aggregate. |
| `Plans.EvalWidth` | src/prism/output_columns.incn:42-81 | In a plan whose aggregates keep their width, whatever lowers yields one table column per planned output name. |
| `Lineage.BuildDependencyEdges` | src/inspect.incn:979-1009 | The loop emits one edge per dependency name: exact with its ordinal for a unique match, conservative otherwise. |
| `Lineage.BuildJoinNameEdges` | src/inspect.incn:646-704 | One predicate name: the edges of each side by match count, and the left side alone when neither has it. |
| `Lineage.BuildNodeEdges` | src/inspect.incn:554-567 | The edges of every node kind, as built by its own loops. |
| `Lineage.BuildLineageGraph` | src/inspect.incn:542-551 | The graph is the concatenation of the node edges over the nodes the tip depends on, in store order. |
| `LineageSoundness.LineageSound` | src/inspect.incn:542-1031 | Main result: databases that agree on every read-root column lineage traces output column f back to, and on table sizes, give the same row count and the same column f, for every backend and every plan whose nodes meet their conditions. |
| `LineageSoundness.ClosedSlices` | src/inspect.incn:542-1031 | In such a plan every backward-closed set of fields is a slice: it holds, below the tip, everything the rows of a node read, and with a column everything the column reads. |
| `LineageSlices.NodesAgree` | src/inspect.incn:554-567 | Along the whole plan: two databases that agree on the read columns of a slice agree at every node that feeds the tip, on its rows and on each of its columns in the slice. |
| `LineageSlices.SliceSound` | src/inspect.incn:554-567 | The same at the tip, with no condition on lineage: agreeing on all the fields a plan's nodes read is enough for the columns of the slice, on every backend. |
| `LineageSoundness.SourcesClosed` | src/inspect.incn:542-551 | The traced fields are closed under going backwards over field edges and over every control, join, sort, grouping and generator edge. |
| `LineageShape.GraphWellFormed` | src/inspect.incn:570-1009 | Every edge of the graph goes from a read root or strictly earlier node to its own node, lands on a real field, and is exact only with the right ordinal and, for expressions, only on the one field of that name. |
| `LineageShape.NodeEdgesWellFormed` | src/inspect.incn:554-567 | The same for each node kind alone. |
| `LineageShape.DependencyFits` | src/inspect.incn:979-1009 | Every dependency edge is well formed between its two schemas. |
| `LineageLimits.SourcesMinimal` | src/inspect.incn:542-551 | The traced fields are contained in every backward-closed set: lineage claims nothing beyond its edges. |
| `LineageReads.TraceableExactly` | src/inspect.incn:542-1031 | Main result: for every node kind, the node's edges reach everything its rows and columns read exactly when the node meets its condition; an aggregate must have as many columns as names. |
| `LineageSoundness.HeldExactly` | src/inspect.incn:542-1031 | Main result on one node: following its edges backwards from any set of fields always finds everything the node reads there exactly when it meets its condition. |
| `LineageReads.JoinCompleteExactly` | src/inspect.incn:607-704 | A join's edges reach all it reads exactly when every right column the predicate resolves to is named by some name of the predicate that the right input has under its own spelling, or both inputs are one node. |
| `LineageLimits.EquiJoinExactly` | src/inspect.incn:607-704 | Under an alias, a predicate over .a and rel.b is traced exactly when a and b are one name or the right side has a more than once. |
| `LineageLimits.SameKeyTraced` | docs/language/how-to/joins.md:34-38 | A join on one key name is traced, whatever the predicate does with the two columns. |
| `QueryLineage.KeyedJoinTraceable` | docs/language/how-to/joins.md:46-64 | FROM source [LEFT] JOIN rel ON .key == rel.key SELECT items: the plan of the block is traceable whenever its sources are, the source has the key, and no item reads an earlier alias. |
| `QueryLineage.KeyedJoinSound` | docs/language/how-to/joins.md:46-64 | Main result on documented joins: lineage of such a block is sound, with no condition left on its join. |
| `QueryLineage.GuideJoinTraceable` | docs/language/how-to/joins.md:46-64 | The block of the how-to guide lowers, builds a plan, and the plan is traceable in every catalog whose orders have the key. |
| `QueryLineage.BlockTraceable` | vocab_companion/src/desugar.rs:165-286 | A block's plan is traceable when the joins, projections and windows it appends meet their conditions; filters, groupings, aggregates, generators, orderings and limits need nothing. |
| `LineageReads.WindowCompleteExactly` | src/inspect.incn:908-940 | A window node's edges reach all it reads exactly when each output name is new to the input and to the earlier windows, or its window reads no column. |
| `LineageReads.MeasureCompleteExactly` | src/inspect.incn:792-880 | A measure's edges and the grouping edges of its node reach all the measure reads exactly when its filter and ordering read only columns that its arguments or the grouping keys name. |
| `LineageLimits.GroupedFilteredCountTraced` | src/inspect.incn:792-880 | group_by([k]).agg([count().filter(k == 1)]) is traced; without the grouping it is not. |
| `LineageReads.SelectColumnExactly` | src/inspect.incn:730-746 | The edges of one assignment of an exclusive projection reach every input column it reads, through the earlier bindings of its node too, exactly when each earlier binding that hides an input column from it reads only columns it names itself. |
| `LineageReads.ProjectCompleteExactly` | src/inspect.incn:708-727 | An add-or-replace projection's edges reach all it reads exactly when what the last binding of each assigned name reads is named by some assignment to that name. |
| `LineageLimits.ShadowsBind` | src/inspect.incn:708-746 | The condition on selected columns is enough for add-or-replace projections too, where a later assignment may also name what an earlier one reads. |
| `LineageLimits.ReselectTraced` | vocab_companion/src/desugar.rs:526-545 | Selecting a column under its own name and reading it again is traced. |
| `LineageReads.GenerateCompleteExactly` | src/inspect.incn:882-905 | A generator's edges reach all it reads exactly when it has an output column or reads no column. |
| `LineageLimits.AliasedJoinUnsound` | src/inspect.incn:694-704 | A join under a relation alias: two databases agree on all traced columns and give different results. |
| `LineageLimits.CollidingWindowUnsound` | src/prism/output_columns.incn:212-220 | A window output that reuses a column name: the traced columns agree and the column differs. |
| `LineageLimits.FilteredCountUnsound` | src/inspect.incn:855-865 | A filtered count: its filter column is untraced and decides the result. |
| `LineageLimits.ShadowedSelectUnsound` | src/inspect.incn:730-746 | A lateral alias that shadows an input column is traced to the input column instead. |
| `LineageLimits.SilentGeneratorUnsound` | src/inspect.incn:882-905 | A generator without output columns: the traced columns agree, and the untraced argument decides which rows are left. |
| `LineageLimits.DoubleAggregateWidths` | src/prism/output_columns.incn:230-239 | An aggregate over an aggregate: the planned columns outnumber the columns of its table. |
| `QueryValues.LoweringPreservesValue` | vocab_companion/src/desugar.rs:556-640 | Main result on expressions: whatever expression lowers, the helper-call tree evaluates on every row to the value of the expression as written. |
| `QueryValues.LowersExactly` | vocab_companion/src/desugar.rs:556-640 | Lowering accepts exactly the supported forms and always ends in a tree without field shorthands, relation fields, leading-dot paths or bare names. |
| `QueryValues.AggregateNamesAgree` | vocab_companion/src/desugar.rs:483-507 | The default name of an unaliased aggregate equals the library's measure name exactly when its first argument is not a written-out `col(...)` of a column not called expr. |
| `Queries.LowerQueryBlock` | vocab_companion/src/desugar.rs:165-285 | The clause loop with its staged join and SELECT flag accepts exactly what the specification accepts and returns its call chain. |
| `Queries.LowerWindowFields` | vocab_companion/src/desugar.rs:233-248 | One window call per field, in order, or the first field's error. |
| `Queries.FindFrom` | vocab_companion/src/desugar.rs:166-167 | The FROM clause used is the first one. |
| `Queries.StripDistinctPrefix` | vocab_companion/src/desugar.rs:333-368 | The in-place edit of the first item: its stripped expression and the flag, and no change on an error. |
| `Queries.StripDistinctExact` | vocab_companion/src/desugar.rs:370-387 | For every item the flag is set exactly when it is a path whose dotted name starts with `DISTINCT.`; what stays is a path with the rest of the name, and an unflagged item is untouched. |
| `Desugar.LowerSelect` | vocab_companion/src/desugar.rs:389-454 | The SELECT loops push one measure and one reference per aggregate and one assignment per plain item, then append the carrier calls. |
| `Desugar.ChainAppend` | vocab_companion/src/desugar.rs:680-688 | Appending calls to a chain is extending the chain. |
| `QueryShape.AcceptedExactly` | vocab_companion/src/desugar.rs:165-294 | Main result: a block lowers exactly when its first FROM holds an expression, the recognised clauses pair every JOIN with an ON right behind it, one of them selects, and every clause lowers; the chain is then the ordered expansion of the clauses. |
| `QueryCorrect.QueryPreserved` | vocab_companion/src/desugar.rs:165-454 | Main result: whatever block lowers, the carrier chain and the clauses run one by one yield the same named table, on every database and backend, within the stated conditions. |
| `QueryCorrect.StepPreserved` | vocab_companion/src/desugar.rs:174-280 | Each clause keeps the two carriers alike: JOIN..ON, WHERE, GROUP BY, EXPLODE, WINDOW BY, SELECT, SELECT DISTINCT, ORDER BY, LIMIT. |
| `QueryCorrect.WindowPreserved` | vocab_companion/src/desugar.rs:233-248 | A window clause is its calls one after the other. |
| `SelectCorrect.AggregateProjectionExactly` | vocab_companion/src/desugar.rs:394-433 | Main result on aggregate lists: the measures-first chain yields the written list exactly when no item is disturbed, each one still getting its own column with the measures in view behind the names bound before it. |
| `SelectCorrect.AggregateProjectionPreserved` | vocab_companion/src/desugar.rs:394-433 | Where the aggregates' names stay apart nothing is disturbed, lateral references included. |
| `SelectCorrect.PlainProjectionPreserved` | vocab_companion/src/desugar.rs:435-445 | A plain SELECT with lateral aliases means its sequential assignments. |
| `SelectCorrect.DistinctExactly` | vocab_companion/src/desugar.rs:446-452 | Grouping by all output columns leaves the first of every set of equal rows exactly when every column is the first of its name. |
| `SelectCorrect.DistinctPreserved` | vocab_companion/src/desugar.rs:446-452 | Distinct output names suffice for that. |
| `SelectCorrect.DirectPreserved` | vocab_companion/src/desugar.rs:556-640 | Lowering keeps direct column references direct and creates no new ones, so group keys keep their names. |
| `SelectCorrect.SurfaceDepends` | vocab_companion/src/desugar.rs:556-640 | A query expression's value depends only on the columns it mentions. |
| `Carriers.DedupeExact` | vocab_companion/src/desugar.rs:446-452 | What DISTINCT must yield: no two equal rows remain and every row is still shown. |
| `QueryLimits.SelectExactly` | vocab_companion/src/desugar.rs:389-454 | A SELECT list without DISTINCT means what it says exactly when an empty list meets no columns and no item of an aggregate list is disturbed. |
| `QueryLimits.EmptyProjection` | src/prism/mod.incn:118-137 | An empty select keeps every column; the written empty list asks for none. |
| `QueryLimits.SelectAlwaysExactly` | vocab_companion/src/desugar.rs:394-433 | Main result on names: a list whose output names differ and are the same in both layers comes out as written on every backend and every database exactly when no aggregate has the name of a group key and no item mentions an aggregate behind it. |
| `QueryLimits.CapturedExactly` | vocab_companion/src/desugar.rs:394-433 | On one backend, an aggregate under the name of a group key or of an earlier item is undisturbed exactly when the column it is looked up as happens to be its own. |
| `QueryLimits.MisnamedExactly` | vocab_companion/src/desugar.rs:483-507 | An aggregate the two layers name differently, under a name nothing else has, is undisturbed exactly when it is null in every group. |
| `QueryLimits.MentionedExactly` | vocab_companion/src/desugar.rs:394-433 | A reference to an aggregate still to come is undisturbed exactly when the measure under that name is null in every group. |
| `QueryLimits.AggregateAfterDistinct` | vocab_companion/src/desugar.rs:446-452 | An aggregate list right behind SELECT DISTINCT: the chain still groups and yields one row per distinct row, the clauses yield one; the counts agree exactly when one distinct row is left. |
| `QueryLimits.AfterDistinctExactly` | vocab_companion/src/desugar.rs:446-452 | Behind a plain SELECT DISTINCT over a relation, a list means what it says on every database and backend exactly when it has no aggregate. |
| `QueryLimits.CapturedInput` | vocab_companion/src/desugar.rs:394-433 | `SELECT .k as n, count() as n`: the aggregate comes out as the plain item. |
| `QueryLimits.KeyInput` | vocab_companion/src/desugar.rs:394-433 | `GROUP BY n SELECT count() as n`: the aggregate comes out as the key. |
| `QueryLimits.MentionedInput` | vocab_companion/src/desugar.rs:394-433 | `SELECT .n as z, count() as n`: the chain reads the measure before it is selected. |
| `QueryLimits.MisnamedInput` | vocab_companion/src/desugar.rs:483-507 | `SELECT sum(col("x"))`: the chain looks for `sum_expr` where the library has `sum_x`. |
| `QueryLimits.EmptyInput` | src/prism/mod.incn:118-137 | A written empty list over one column: the chain keeps the column. |
| `QueryLimits.DuplicateInput` | vocab_companion/src/desugar.rs:446-452 | `SELECT DISTINCT .a as x, .b as x`: both columns come out as the first. |
| `QueryPlans.BuiltValue` | src/projection_builders.incn:166-244 | The expression tree a lowered helper call builds has the value of that call on every row. |
| `QueryPlans.CallDenotes` | src/prism/mod.incn:68-221 | One carrier method on a cursor that shows a carrier: the node it appends shows the carrier the method yields, groupings included. |
| `QueryPlans.PushedAggregate` | src/prism/mod.incn:163-173 | The aggregate node on a grouping reads the ungrouped rows under the grouping's keys: key columns and names, then the measures and theirs. |
| `QueryPlans.SelectBuilt` | src/prism/mod.incn:118-137 | The ordered assignments of a projection node bind and yield the columns the chain's sequential assignments do. |
| `QueryPlans.PushedJoin` | src/prism/mod.incn:88-116 | A join node over two shown carriers shows their join under the relation's qualified names. |
| `QueryPlans.ChainFollows` | src/prism/mod.incn:68-221 | Whatever chain of carrier calls builds nodes, the last node shows the carrier the chain means, as long as no `agg` is called on an `agg`. |
| `PlannedQueries.QueryPlanned` | src/prism/mod.incn:68-221 | Main result: the plan a query block appends has the block's column names, and wherever it lowers it evaluates to the table the clauses mean. |
| `PlannedQueries.BlockBuilds` | vocab_companion/src/desugar.rs:165-454 | Every accepted block whose `lit`s are given literals and whose joined relations stand in the store builds a plan, one node per call. |
| `QueryBuilds.ColumnBuilds` | vocab_companion/src/desugar.rs:556-640 | Whatever expression lowers builds a tree, as long as every written-out `lit` is given a literal. |
| `PlannedQueries.RewrittenQueryPlanned` | src/prism/rewrite.incn:35-157 | The canonically rewritten and compacted plan of a block shows what its clauses mean too, along safe steps. |
| `PlannedQueries.QueryLineageSound` | src/inspect.incn:542-1031 | Lineage of a query block: databases that agree on every column the plan traces an output column back to give that column the same values in what the clauses mean. |
| `Quality.LowerQualityBlock` | vocab_companion/src/desugar.rs:48-86 | The assertion loop collects the lowered expressions in order or returns the first error. |
| `Quality.LoweringIdempotent` | vocab_companion/src/desugar.rs:88-163 | Main result: lowering a lowered expression returns it unchanged, and the unchanged expressions are exactly those with nothing left to rewrite. |
| `Quality.LoweringSettles` | vocab_companion/src/desugar.rs:88-163 | Every accepted expression lowers to a tree without field shorthands, operators or direct calls of exported names. |
| `Quality.HelpersExported` | vocab_companion/src/lib.rs:343-345 | For any manifest that exports `col` and the operator helpers: every helper of the result was in the input or is exported. |
| `Quality.ManifestExportsOperators` | vocab_companion/src/lib.rs:25-260 | The package manifest is such a manifest: it exports `col` and the helper of every operator. |
| `Quality.ManifestCovers` | vocab_companion/src/lib.rs:25-345 | Lowering against the package manifest introduces exported helpers only. |
| `KeyedDiff.FindByKey` | src/plan_diff.incn:1133-1138 | Lookup returns the first item with the key. |
| `KeyedDiff.CompareLists` | src/plan_diff.incn:608-673 | The nested loops emit removals and changes in before-order, then additions in after-order. |
| `KeyedDiff.ReplayedAt` | src/plan_diff.incn:482-521 | Key by key, what replaying a diff on the before facts yields, for every family. |
| `KeyedDiff.ReplayExact` | src/plan_diff.incn:608-673 | Main result: replaying the records on the before artifact gives the after artifact's facts exactly when no newly added key shows two signatures. |
| `KeyedDiff.DistinctKeysReplay` | src/plan_diff.incn:608-673 | Pairwise-distinct after-keys suffice for the replay. |
| `KeyedDiff.DiffSymmetricExactly` | src/plan_diff.incn:608-673 | Main result: for any two mirrored reporters, swapping the artifacts yields the same records with added and removed and before and after exchanged, up to order, exactly when under every shared key both sides show only the two first signatures and, if these differ, show them equally often. |
| `KeyedDiff.DiffSymmetric` | src/plan_diff.incn:608-673 | Distinct keys are enough, and so are keys that show one signature. |
| `KeyedDiff.RepeatedKeyAsymmetric` | src/plan_diff.incn:608-673 | Two items of one key with different signatures against the first of them: one order reports a change, the other reports nothing. |
| `KeyedDiff.EmptyExactly` | src/plan_diff.incn:482-521 | No record exactly when every before item shows the signature the after list has for its key and every after key was there before. |
| `KeyedDiff.SelfDiff` | src/plan_diff.incn:482-521 | A list compared with itself is silent exactly when equal keys show equal signatures. |
| `KeyedDiff.EmptyMeansSameFacts` | src/plan_diff.incn:271-336 | Under distinct before-keys an empty diff means equal key-to-signature maps. |
| `PlanDiffs.CompareOutputs` | src/plan_diff.incn:271-368 | Rename detection by ordinal, then the keyed comparison of output columns. |
| `PlanDiffs.OutputReplay` | src/plan_diff.incn:271-336 | Replaying output records, rename records ignored, rebuilds the after schema. |
| `PlanDiffs.OutputSilentExactly` | src/plan_diff.incn:271-368 | Two schemas compare as equal exactly when every column before is there after with its kind and nullability, every name after was there before, and no position holds different names of one kind and nullability. |
| `PlanDiffs.SwapUnseen` | src/plan_diff.incn:278-336 | Swapping two columns leaves no record exactly when they differ in kind or nullability. |
| `PlanDiffs.LineageReplay` | src/plan_diff.incn:440-479 | Replaying lineage records on the before signatures gives the after signatures. |
| `PlanDiffs.EvidenceReplay` | src/plan_diff.incn:988-1058 | The other keyed families keep every key and every changed signature, but an added key comes back without its signature. |
| `PlanDiffs.CompareNodes` | src/plan_diff.incn:371-437 | Plan nodes by ordinal: changed kinds, then the surplus of the longer list. |
| `PlanDiffs.NodesSilentExactly` | src/plan_diff.incn:371-437 | Node lists compare as equal exactly when their kinds are equal in order. |
| `PlanDiffs.MergeRefs` | src/plan_diff.incn:1367-1376 | Merged references are the first-seen union, without repetition. |
| `PlanDiffs.DiffPlans` | src/plan_diff.incn:167-183 | One unknown-impact record when schema versions differ, otherwise all families in order. |
| `PlanDiffs.SelfPlanDiff` | src/plan_diff.incn:167-183 | An inspection compared with itself is silent exactly when none of its keyed lists shows one key with two signatures. |
| `PlanDiffs.PlanDiffSymmetric` | src/plan_diff.incn:167-221 | Main result: diffing two inspections in the other order gives the same records of every family, renames and plan nodes included, with added and removed and before and after exchanged, exactly when the schema versions differ or every keyed list is balanced. |
| `PlanDiffs.DistinctPlansMirror` | src/plan_diff.incn:167-221 | Distinct keys are enough. |
| `PlanDiffs.RepeatedOutputAsymmetric` | src/plan_diff.incn:271-368 | Two output columns of one name that differ in kind or nullability against the first of them: the plan diff is not symmetric. |
| `PlanDiffs.OutputsMirror` | src/plan_diff.incn:271-368 | Output columns, with each rename mirrored by the rename of the two names exchanged, exactly when the output names are balanced. |
| `PlanDiffs.LineageMirror` | src/plan_diff.incn:440-479 | Lineage edges, repeated ones included. |
| `PlanDiffs.NodesMirror` | src/plan_diff.incn:371-437 | Plan nodes, by ordinal. |
| `PlanDiffs.EvidenceMirror` | src/plan_diff.incn:988-1058 | The evidence families, whose additions carry no signature, exactly when their keys are balanced. |
| `PlanDiffs.BlastRadius` | src/plan_diff.incn:931-949 | One input per record that is not Unchanged, in order. |
| `PlanDiffs.BlastOnePerRecord` | src/plan_diff.incn:229-248 | Every record of a plan diff gets exactly its own blast-radius input. |
| `Registry.FunctionRegistry.AddEntry` | src/function_registry.incn:516-561 | Accepts a declaration exactly when it repeats its own entry unchanged or brings only free names; appends it or leaves the registry alone; keeps the invariant. |
| `Registry.FunctionRegistry.AddAlias` | src/function_registry.incn:563-606 | Accepts an alias exactly when its target exists and the name is free, or already this entry's under its current policy; replaces the entry in place; keeps the invariant. |
| `Registry.FunctionRegistry.EntryByNamespaceAndName` | src/function_registry.incn:619-627 | The canonical pass and the alias pass together find the one entry that owns the name, or none. |
| `Registry.FunctionRegistry.FunctionRefs` | src/function_registry.incn:629-631 | References in registry order. |
| `Registry.RunKeeps` | src/function_registry.incn:516-606 | Main result: after any sequence of registrations all public names in a namespace are distinct, entries keep their place and only gain aliases, and earlier references keep their order. |
| `Registry.Unambiguous` | src/function_registry.incn:516-627 | After any run, every public name and every reference leads to at most one entry. |
| `Registry.RefInjective` | src/function_registry.incn:681-685 | The namespaced reference is injective because a canonical name has no dot. |
| `Registry.RepeatExactly` | src/function_registry.incn:516-561 | Repeating an accepted declaration after any further registrations is accepted exactly when its entry has gained no alias since, and changes nothing. |
| `Registry.AliasRepeatExactly` | src/function_registry.incn:563-606 | Repeating an accepted alias is accepted exactly while its policy is still the entry's latest. |
| `Ingress.AnalyzeIngressPlan` | src/ingress.incn:429-545 | The two loops return the specified plan, diagnostics, coverage and origins. |
| `Ingress.AnalyzeSteps` | src/ingress.incn:438-511 | The loop over relation steps with its optional relation. |
| `Ingress.AnalyzedExactly` | src/ingress.incn:429-545 | Main result: Analyzed exactly on one read followed by transforms without commands; the plan is then the left fold of the transforms; Unknown never happens; coverage is one answer per step and then per command. |
| `Generators.StackRows` | src/generator_builders.incn:193-218 | Exactly the accepted shapes yield rows, every index is in range, and the rows in order are the values. |
| `Generators.StackLossless` | src/generator_builders.incn:208-218 | Rows of equal width are determined by their concatenation, so reshaping loses nothing. |
| `Generators.StackCell` | src/generator_builders.incn:208-218 | Row r, column c is value r * columns + c. |
| `Generators.GeneratorOutputColumns` | src/generator_builders.incn:132-142 | Succeeds exactly when no generated name repeats a kept or earlier one; the result has no duplicates when the input has none. |
| `Generators.ValidateOutputColumns` | src/generator_builders.incn:177-192 | Accepts exactly non-empty lists of distinct non-empty aliases. |
| `Bundle.SectionList.AppendUnsupported` | src/bundle.incn:598-615 | Relabels the first section of the family if it is unavailable, leaves any other, appends a new family. |
| `Bundle.SectionList.MarkAll` | src/bundle.incn:542-550 | Plan markers first, reserved families second, over the same list. |
| `Bundle.SectionList.SectionAvailable` | src/bundle.incn:153-157 | A family is available exactly when its first section is. |
| `Bundle.FamiliesInserted` | src/bundle.incn:598-615 | Families grow by ordered insertion of the marked ones. |
| `Bundle.MarkersSettle` | src/bundle.incn:542-550 | Main result: for every marker list, families stay distinct, sections keep place, requirement, count and references, and change only from Unavailable to Unsupported, exactly when marked. |
| `Bundle.MarkedPresent` | src/bundle.incn:542-550 | Every marked family ends up present and not Unavailable. |
| `Bundle.BuildSections` | src/bundle.incn:273-550 | The section builder yields the literal sections under the markers of the inspection and the reserved families. |
| `Bundle.BundleComplete` | src/bundle.incn:273-550 | Main result: whatever was inspected and supplied, a bundle's families are distinct, its thirty literal sections come first and settle under the markers, and each of the sixteen reserved families is there, Unsupported. |
| `Bundle.BaseDistinct` | src/bundle.incn:287-541 | No two of the thirty literal sections share a family. |
| `Bundle.ReservedApart` | src/bundle.incn:667-669 | No reserved family is one of the literal sections. |
| `Bundle.LocalAvailable` | src/bundle.incn:287-379 | The ten local sections of a bundle are available, the input references only when there are any. |
| `Bundle.CallerAvailable` | src/bundle.incn:380-541 | An optional section of a bundle is available exactly when the caller supplied records for it; the Substrait artifact never is. |
| `CatalogMarkers.ReplacesExactly` | utils/rfc_catalog.py:646-661 | The rewrite succeeds on one ordered marker pair only, and splices the block between the outside texts. |
| `CatalogMarkers.CountOne` | utils/rfc_catalog.py:649-650 | The non-overlapping count is one exactly when the marker occurs at one position. |
| `CatalogMarkers.SpliceKeepsPair` | utils/rfc_catalog.py:646-661 | The rewritten text has exactly one marker pair, at the ends of the block. |
| `CatalogMarkers.RewriteOverwrites` | utils/rfc_catalog.py:781-802 | Rewriting with a framed block and then another equals rewriting with the other, so writing and then checking finds nothing to do. |
| `CatalogMarkers.MarkersApart` | utils/rfc_catalog.py:23-24 | The two markers cannot overlap themselves or each other. |
| `CatalogBlock.RenderIndexBlock` | utils/rfc_catalog.py:609-643 | The rendering loop yields the fixed lines and one escaped table row per record, between the two marker lines. |
| `CatalogBlock.BlockFramedExactly` | utils/rfc_catalog.py:605-643 | The rendered block begins and ends with its only markers exactly when no table cell spells one once line breaks read as spaces; the payload never does. |
| `CatalogBlock.RewritableExactly` | utils/rfc_catalog.py:609-661 | Main result: once the block of some records has been written, the index can be written again exactly when no cell of those records spells a marker, and then the next block replaces it completely. |
| `CatalogBlock.MarkerTitleRefused` | utils/rfc_catalog.py:609-661 | A title that contains the end marker: an empty index is written once and refused from then on. |
| `Rewrites.Rewrite` | src/prism/rewrite.incn:61-148 | The loop over authored nodes in dependency order maps each to an erased, collapsed or redirected node, as the specification does. |
| `Rewrites.PassPreserves` | src/prism/rewrite.incn:35-42 | Main result: along a pass whose rule applications are safe, every authored node is mapped to a rewritten node with the same columns and the same table, on every database and backend. |
| `Rewrites.StepPreserved` | src/prism/rewrite.incn:72-140 | One rule application, any rule: equal inputs give an equal node. |
| `Rewrites.EvalStays` | src/prism/rewrite.incn:61-148 | Appending to a view changes the meaning of no earlier node. |
| `Rewrites.TrueFilterIdle` | src/prism/rewrite.incn:159-161 | Erasing a filter that is always true changes nothing. |
| `Rewrites.LimitTwice` | src/prism/rewrite.incn:171-195 | Two limits are the smaller limit. |
| `Rewrites.ProjectTwice` | src/prism/rewrite.incn:209-235 | Two projections are the concatenated assignment list, bindings and names included. |
| `Rewrites.WindowTwice` | src/prism/rewrite.incn:364-390 | Two window groups with one boundary are one group when the later reads no column that only the earlier adds. |
| `Rewrites.AggregatePreserved` | src/prism/rewrite.incn:285-309 | Fusing a grouping with the aggregate directly on it keeps groups, keys and measures. |
| `RewriteLimits.WindowStackExactly` | src/prism/rewrite.incn:364-390 | Two window groups with one boundary: the pass keeps the meaning on every backend and database exactly when, wherever the authored plan is accepted, the later group reads no column only the earlier adds. |
| `RewriteLimits.WindowMergeExactly` | src/prism/rewrite.incn:364-390 | On one backend and table where the authored windows have a result, merging keeps it exactly when the groups are independent. |
| `RewriteLimits.OrderStackExactly` | src/prism/rewrite.incn:124-132 | Two orderings: the pass keeps the meaning on every backend and database exactly when the later one is refused anyway, or the table has no columns and the earlier one is not refused. |
| `RewriteLimits.ReorderExactly` | src/prism/rewrite.incn:124-132 | On one backend and table, replacing the ordering is right exactly when ordering the once ordered rows by the later keys shows the same row in every place as ordering the original rows by them. |
| `RewriteLimits.DistinctKeysReorder` | src/prism/rewrite.incn:124-132 | So it is right on a backend that sorts by key whenever the later keys tell all rows apart. |
| `RewriteLimits.OrderTwiceChanges` | src/prism/rewrite.incn:124-132 | The pass does not keep `order_by([a]).order_by([b])`. |
| `RewriteLimits.AggregateStackExactly` | src/prism/rewrite.incn:256-282 | Two aggregates without groups: merging keeps the meaning exactly when the lower one has no measures and the upper ones cannot tell its rows from its one result row. |
| `RewriteLimits.GroupedStackExactly` | src/prism/rewrite.incn:256-282 | An aggregate over a grouped aggregate: merging keeps the meaning exactly when the lower one has no measures and its groups are idle. |
| `RewriteLimits.FilteredStackExactly` | src/prism/rewrite.incn:76-120 | Erasing a true filter between a grouping and an aggregate: the meaning is kept exactly when there are no keys and the measures cannot tell the rows from the one row the grouping leaves. |
| `RewriteLimits.RegroupedStackExactly` | src/prism/rewrite.incn:76-120 | Fusing with an empty grouping over a grouping: the meaning is kept exactly when the lower grouping is empty too and the measures cannot tell the rows apart. |
| `RewriteLimits.FilteredPairExactly` | src/prism/rewrite.incn:76-120 | Aggregates that merge across an erased filter: the meaning is kept exactly without groups and lower measures, when the upper measures cannot tell the rows apart. |
| `RewriteLimits.SplitPairExactly` | src/prism/rewrite.incn:256-309 | Fusing with an empty grouping over an aggregate: the meaning is kept exactly when that one has no groups. |
| `RewriteLimits.FilteredGroupChanges` | src/prism/rewrite.incn:76-120 | The pass does not keep `group_by([k]).filter(true).agg([count()])`. |
| `RewriteLimits.GroupedTwiceChanges` | src/prism/rewrite.incn:256-282 | Nor `group_by([k]).agg([count()]).agg([count()])`. |
| `RewriteLimits.CountTwiceChanges` | src/prism/rewrite.incn:256-282 | Nor `agg([count()]).agg([count()])`. |
| `Reachability.ReachableNodeIds` | src/prism/store.incn:229-248 | The worklist walk returns exactly the nodes that feed the tip, in store order. |
| `Reachability.FeedersVisited` | src/prism/store.incn:235-244 | A visited set that is closed under inputs holds everything that feeds its members. |
| `Expressions.SameExprMeans` | src/prism/store.incn:491-527 | Structurally equal expressions have one value on every row, whatever their typed helpers claim. |
| `Expressions.SameExprShared` | src/prism/store.incn:491-527 | Structural equality of expressions is Euclidean: two trees equal to a third are equal. |
| `Adoption.SameUnary` | src/prism/store.incn:277-322 | Nodes that compare as equal, and agree in what the comparison skips, do the same to every input. |
| `Adoption.CopyMeans` | src/prism/store.incn:131-220 | Whenever every image compares as equal to its original over the images of its inputs and agrees in what the comparison skips, every mapped node has the columns and the table of its original, on every database and backend. |
| `Adoption.CopyPreserves` | src/prism/store.incn:151-217 | Copying in dependency order into any target, shared or not, gives every copied node such an image. |
| `Adoption.SharesExactly` | src/prism/store.incn:263-274 | Two nodes of the source are mapped to one target node exactly when their trees are structurally equal all the way down. |
| `Adoption.CopiedExactly` | src/prism/store.incn:324-352 | Every image agrees with its original in everything exactly when no two structurally equal trees differ in a sketch type or a row count. |
| `Adoption.StandInExactly` | src/prism/store.incn:324-352 | Measures that compare as equal answer alike on a backend that sees the sketch type exactly when its suffix is equal, and then alike on every backend; default names are equal exactly then too. |
| `Adoption.TwinsLost` | src/prism/store.incn:324-352 | A join of two structurally equal trees under different column names never keeps its columns when it is adopted. |
| `Adoption.SketchesMerged` | src/aggregate_builders.incn:288-311 | Two HLL sketches of one column in different value domains are such twins. |
| `Adoption.PrismStore.AppendNode` | src/prism/store.incn:50-93 | Appends an accepted node under the next id, or leaves the store alone. |
| `Adoption.FindExisting` | src/prism/store.incn:263-274 | The first adopted node that compares as equal. |
| `Adoption.PrismStore.AdoptSubgraph` | src/prism/store.incn:131-220 | The loop over reachable source nodes leaves the specified store, adopted tip and count. |
| `Adoption.PrismStore.Join` | src/prism/mod.incn:88-116 | Within one store a join is one node; across stores the other side is adopted first. |
| `Adoption.CrossStoreJoin` | src/prism/mod.incn:88-116 | Main result: a join across stores has the columns and the table of joining the two authored tables, and every node of the target keeps its meaning. |
| `Adoption.PrefixMeans` | src/prism/store.incn:67-71 | Whatever is appended to a store, earlier nodes keep their columns and their table. |
| `Adoption.Compact` | src/prism/rewrite.incn:440-500 | The compaction loop yields the specified view, one node per reachable node. |
| `Adoption.CompactDense` | src/prism/rewrite.incn:448-478 | New ids are the positions in the walk's order. |
| `Adoption.CanonicalPassPreserves` | src/prism/rewrite.incn:35-157 | Main result: rewriting along safe steps and then compacting keeps the columns and the table of the tip. |
| `LineageEdges.NodeEdgesExactly` | src/inspect.incn:554-1009 | Main result on labels: an edge is among a node's edges exactly when the node's kind states it, with its two ends, relationship, transformation, expression and confidence. Filters control, orderings sort, join predicates are join keys, keys group, measures aggregate, windows and generators have their own steps, and what is handed on is an identity. |
| `LineageEdges.GraphExactly` | src/inspect.incn:542-551 | Main result: a lineage graph holds exactly the edges stated by the nodes that feed its tip. |
| `LineageEdges.DependenciesRead` | src/inspect.incn:979-1009 | The edges of an expression list are exactly the mentions of the columns it reads: exact on the one field of a name, conservative otherwise. |
| `LineageEdges.PredicateJoins` | src/inspect.incn:646-704 | The edges of a join predicate: a name of the predicate points at every side that has it, and at the left side when neither has it. |
| `Queries.KeywordRead` | vocab_companion/src/desugar.rs:165-286 | Which of the twelve spellings a clause has decides, in both directions, what it is read as. |
| `QueryShape.ClauseAdds` | vocab_companion/src/desugar.rs:209-272 | Main result on the clause text: a clause spelled WHERE, GROUP BY, EXPLODE, ORDER BY or LIMIT adds exactly one call, filter, group_by, generate, order_by or limit. |
| `QueryShape.SelectClauseAdds` | vocab_companion/src/desugar.rs:246-257 | A clause spelled SELECT adds agg in front exactly when an item measures, select, and group_by behind exactly when it is distinct, by its own spelling or by the prefix of its first item. |
| `QueryShape.WindowClauseAdds` | vocab_companion/src/desugar.rs:230-245 | A clause spelled WINDOW BY adds one window call per field. |
| `QueryShape.JoinAdds` | vocab_companion/src/desugar.rs:180-208 | A JOIN or LEFT JOIN with its ON adds one join or left_join. |
| `QueryShape.IdleAdds` | vocab_companion/src/desugar.rs:179-275 | FROM, and whatever has none of the spellings, adds nothing. |
| `QueryMeaning.PlainNameExactly` | vocab_companion/src/desugar.rs:526-545 | An unaliased plain item has a name exactly when it is a path, and then it is the name of the column the path reads. |
| `PlanDiffs.ColumnsTold` | src/plan_diff.incn:1116-1130 | Columns of one name show one signature exactly when they have one kind, unknown when not given, and one nullability. |
| `PlanDiffs.OutputFactsTold` | src/plan_diff.incn:1116-1130 | Two schemas show the same facts exactly when under every name both or neither have a column, of one kind and one nullability. |
| `PlanDiffs.ChangeSeen` | src/plan_diff.incn:271-336 | One column against itself changed: no record exactly when kind and nullability are the same. |
| `PlanDiffs.LineageTold` | src/plan_diff.incn:1164-1166 | Edges show one signature exactly when source kind, relationship, transformation and confidence agree and their ends read alike. |
| `PlanDiffs.EndsTold` | src/plan_diff.incn:1164-1166 | Without an arrow head in the source names, ends that read alike are alike. |
| `PlanDiffs.ArrowCollides` | src/plan_diff.incn:1164-1166 | With one they need not be: two different edges that show one signature. |
| `PlanDiffs.RequirementKeysTold` | src/plan_diff.incn:1236-1243 | Requirements have one key exactly when they name one target and one capability. |
| `PlanDiffs.RequirementsTold` | src/plan_diff.incn:1236-1243 | Requirements of one key show one signature exactly when guarantee and reason read alike; the same guarantee and reason where the guarantee has no colon. |
| `PlanDiffs.BlastTells` | src/plan_diff.incn:931-967 | A blast-radius input names each target id of its record once, and the same ids as requirements exactly for adapter requirements. |
| `DiffRecords.PlanRecordsFair` | src/plan_diff.incn:970-1108 | Main result: the compatibility and confidence of every record a plan diff can hold, by family and kind; a removal points at the before side alone, an addition at the after side alone, and a target's id is the id of its side. |
| `DiffRecords.FieldIds` | src/plan_diff.incn:1141-1154 | An output record points at the first field of its name on its side, or spells the name when there is none. |
| `DiffRecords.PlanSilentExactly` | src/plan_diff.incn:167-183 | Main result: a plan diff is empty exactly when versions, output columns, node kinds and lineage signatures agree, and each evidence family agrees. |
| `DiffRecords.DiffSays` | src/plan_diff.incn:608-673 | A keyed comparison has exactly these records: a removal for every key that is gone, a change against the first item of the key that shows another signature, an addition for every new key. |
| `DiffRecords.EvidenceCites` | src/plan_diff.incn:1367-1376 | An evidence record cites the references of the item it is about; a change those of both sides, each once, the before side first. |
| `DiffRecords.RequirementCites` | src/plan_diff.incn:1367-1376 | The same for adapter requirements. |
| `DiffRecords.LineageCites` | src/plan_diff.incn:440-479 | A lineage record cites the references of the edge whose signature it shows. |
| `DiffRecords.FamilyViews` | src/plan_diff.incn:167-183 | Main result: what a plan diff says of a family is exactly what that family's own comparison, before against after, says of it. |
| `DiffRecords.RecordsForFamily` | src/plan_diff.incn:1111-1113 | The loop yields the records of one family, in order. |
| `DiffRecords.RenamesTell` | src/plan_diff.incn:339-368 | Every rename tells of a position with two names of one kind and nullability, and every such position has one. |
| `DiffRecords.NodesTell` | src/plan_diff.incn:371-437 | One record per ordinal where the node kinds differ or one list has ended, in order, with both kinds and both ids. |
| `QualityValues.LoweringPreservesMeaning` | vocab_companion/src/desugar.rs:88-163 | Main result: whatever quality expression lowers has, on every row, the value of the expression as written, operators, field shorthands, relation fields, paths and called names included. |
| `QualityValues.LowersExactly` | vocab_companion/src/desugar.rs:88-163 | Lowering accepts exactly the expressions with supported operators and paths. |
| `QualityValues.BlockExactly` | vocab_companion/src/desugar.rs:48-86 | Main result: a block lowers exactly when it has no header, holds only assertions and passes, and every assertion lowers; its k-th expression is the lowering of its k-th assertion and has the same value on every row. |
| `IngressMeaning.AnalyzedMeans` | src/ingress.incn:429-545 | Main result: an analyzed plan has the columns and the table that its steps yield one after the other: filter, exclusive select, group, aggregate, order, limit over the read table. |
| `IngressMeaning.PlanMeans` | src/ingress.incn:429-545 | Whatever plan an analysis carries, rejected or not, means its first read and the transforms behind it; it carries one exactly when something is read. |
| `IngressMeaning.EvidenceExactly` | src/ingress.incn:429-545 | Main result: which diagnostics and which origins an analysis carries, and in which order. |
| `IngressMeaning.CoverageNames` | src/ingress.incn:548-557 | The coverage answer of a step names the step's own feature. |
| `Bundle.LocalTells` | src/bundle.incn:287-379 | Main result: the family, requirement, count and references of each local section, whatever the markers. |
| `Bundle.CallerTells` | src/bundle.incn:380-541 | Each optional section has the count and references the caller supplied, and none otherwise; the Substrait artifact never has any. |
| `Bundle.FirstMarkerExplains` | src/bundle.incn:598-615 | A section that a marker relabelled or added gives the reason of the first marker of its family. |
| `CatalogTable.EscapedReads` | utils/rfc_catalog.py:605-606 | An escaped cell reads back as the value with its line breaks as spaces, and nothing in it ends the cell or the line. |
| `CatalogTable.RowUnderHeading` | utils/rfc_catalog.py:609-643 | Main result: a row has one field per heading, and under each heading stands what the record shows for it. |
| `CatalogTable.LinesUpExactly` | utils/rfc_catalog.py:609-643 | The columns of a row line up with the headings exactly when the link, which is not escaped, has no bare pipe. |
| `RewriteShape.PassSettles` | src/prism/rewrite.incn:61-148 | Main result: behind the pass no always-true filter is left, and no limit, projection, ordering or window group stands directly on one it could be merged with. |
| `NodeShapes.SameExprExactly` | src/prism/store.incn:491-527 | Expressions compare as equal exactly when their trees are equal without what typed helpers claim. |
| `NodeShapes.SameNodeExactly` | src/prism/store.incn:277-322 | Nodes compare as equal exactly when their inputs do and nothing else tells them apart but typed facts, sketch types and declared row counts. |
| `Tables.PairsExactly` | src/prism/lower.incn:165-169 | Join pairs are exactly the hits, and in an outer join exactly the left rows without one stand alone. |
| `Tables.JoinedRow` | src/prism/lower.incn:165-169 | A joined row is its left row beside its right row, or beside nulls. |
| `Plans.UnnamedApart` | src/prism/output_columns.incn:259 | Unnamed group keys in different places get different names. |

## Left out

- Schema facts other than names: primitive kinds and nullability of planned columns (src/prism/output_columns.incn:128-262), which no proved property reads.
- Target and edge identifier strings, artifact summaries, and the adapter-requirement inference of src/inspect.incn:300-540: record construction with only easy facts.
- QueryPreserved: a name that no column carries reads as null in both interpreters, where the carriers report an unknown column; window applications are read as one argument value per row.
- QueryPlanned: where the plan refuses a column name nothing carries, the carriers read null, so the theorem speaks of plans that lower; a window application stays one argument of its node. `BlockBuilds` needs `lit` around literals, as the helper's type does.
- First-occurrence order of groups is one admissible order; a backend may produce another.
- Names of approximate and sketch measures end in an opaque suffix; their parameter spelling (src/aggregate_builders.incn:373-400) is not modelled.
- Frame bounds of windows are one frame text; null treatment and argument offsets are part of the window function's name.
- Typed validation of helper calls by the Incan compiler; helpers and methods the desugarer does not name are uninterpreted.
- QueryValues.LoweringPreservesValue: `col` applied to anything but one text literal is an uninterpreted function rather than a column reference.
- ScopedSymbolCall nodes inside quality blocks pass through unlowered, as in the source; their arguments are therefore not settled.
- diff_plan_bundles composes the same families over bundles, and quality assertions are keyed by id but recorded by name; neither composition is modelled. The evidence-reference list is the keyed diff with the reference as key and signature.
- Record ids of diffs (`diff:...`), which are formatted from the record's other fields.
- BundleComplete: the wording of the builder's own reasons is left out; what the optional families hold is a count and a reference list each, and bundle fields other than the sections are not modelled.
- AnalyzeIngressPlan: negative row limits, which the plan store rejects, are excluded by the type; profile assessments are copied, not computed.
- BlockFramedExactly: the JSON payload of the catalog block is an arbitrary text, and the records come already in the order of their numbers.
- PassPreserves: the origin ids and rule names that the pass records for explanations (src/prism/rewrite.incn:149-157) are not modelled; a step is safe when every backend agrees, so a replaced ordering is not called safe, although a backend that breaks ties by all columns would not tell.
- JSON output, file access, sessions and execution.
