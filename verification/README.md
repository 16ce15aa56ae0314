# The query and create runtime of peeringdb-plus, verified

The generated `ent` package of peeringdb-plus holds a small compiler and executor. A GraphQL selection becomes a tree
of query builders; running a builder sends one batched `IN` query per eagerly loaded edge and joins the answers to the
nodes by foreign key; builders are changed by running. Creating rows goes through chains of hooks that, in bulk, nest
one builder's chain inside the other's. This project models that runtime and proves what it promises.

The seven generated query builders follow one template. They are modelled once, over a schema given as data: a table
has columns and edges, an edge is unique (its foreign key is on its own table) or a list (its foreign key is on the
target). `PeeringDB` instantiates it with the real tables, columns and edges of campuses, carriers, carrier
facilities, facilities and their leaves.

| module | what it holds |
|---|---|
| `Storage` | schema, rows, and the one contract that is assumed of the storage engine for queries (`QueryNodes`) |
| `Query` | a builder tree and a node tree as values; what one run computes, when it succeeds, what it leaves behind |
| `NestedLoops` | the meaning a run must have: one lookup per node; one shared answer splits over the nodes |
| `Extents` | how many nodes can share a query, told from the builder tree; batching computes what nested loops do |
| `Forest`, `Reach`, `Windows` | a database on which every such number is reached; exactly when a limit or an offset on a child breaks the meaning |
| `Failures` | which column a failing run reports |
| `Projection` | selecting columns only cuts columns |
| `Stepwise`, `Builder` | the builders as heap objects with in-place methods, proved against `Query` |
| `Rerun`, `Clones`, `Client` | running again, cloning, `First` and `Only`, and two builders used side by side |
| `Diagonal` | a database with one neighbour for each node, for clones |
| `EdgeStatus` | what nodes report about their edges; nothing is lost in the joins |
| `Traversal` | chained `Query<Edge>` calls against eager loading |
| `Selection`, `Readback`, `Collecting` | field collection, what the resolvers read back, and exactly which selections are answered |
| `Slices` | the lists that field collection appends to, with shared backing arrays |
| `PeeringDB` | the concrete schema |
| `Campus` | defaults, checks, create specification, scanning: the create/read round trip |
| `Chain`, `BulkCreate` | hook chains as values, and the create builders that run them on the heap |
| `HookKinds` | exactly which kinds of hooks a create can have without writing unchecked rows, half a save, or nothing unnoticed |
| `Upsert` | histories of bulk upserts with `UpdateNewValues` |
| `SortLists` | the REST sort lists and their in-place deletions |

## Assumed of the storage engine

- A query filters its table by all predicates, orders the rows, cuts them to offset and limit, and projects the
  columns that it was given. Rows that no order term separates stay in table order. A limit or an offset of zero or
  less is none. `In` and `InValues` over an empty list select nothing.
- IDs are primary keys and rows have the declared columns (`Storage.WellFormed`).
- The closures given to `Where` and `Order` are named by numbers; what each does to a row is any function, given along
  with the tables.
- A batch create is refused or taken whole, and numbers the rows that came without an ID. In an upsert the
  columns are those that any row of the batch sets, a row that does not set one proposes NULL, and rows are taken one
  after the other, so a later row of a batch may conflict with an earlier one.
- JSON, times and integers survive storing and reading.

## Results that may surprise

- `Windows.WindowExact`: all parents share one query, so a limit or an offset on a child cuts across them. A tree means
  what it says on every database if and only if each window treats so many rows as can share its query as it treats
  each alone (`Extents.Fits`): a list needs at most one parent, a unique edge a limit, or an offset, of at least the
  number of targets. Without a limit on the root that means no windows at all (`Windows.UnlimitedExact`).
- `PeeringDB.ThereAndBackExact`: that number is not just the number of nodes. From a few campuses over all their
  facilities back to the campus there are no more targets than campuses, however many facilities there are, so a limit
  on the way back is harmless if and only if it is at least the first limit.
- `Builder.ListsRightExactly`: a list loader hands every node its own list if and only if the nodes' IDs are distinct;
  of nodes with equal IDs the last one gets everything.
- `Client.OnlyIs`: `Only` replaces the query's own limit, so on a query that is limited to one of several rows it
  reports that the result is not singular.
- `Collecting.CompileExact`: two aliases of one unique edge share one builder, and the later selection replaces the
  earlier. A selection reads back on every database if and only if it answers itself: at every level the last field
  that names an edge asks for whatever the earlier ones ask for (`Collecting.Answers`). `Collecting.AliasesClash` is
  the smallest selection that does not. `Readback.ReadbackExact` gives the condition for all builder trees.
- `Clones.CloneExact`: in a tree without offsets, or without limits, a clone returns the original's nodes on every
  database if and only if no builder has a named load, at any depth. With both, windows can shut a named load off: an
  offset of three on a unique edge under a root limited to two. `Clones.CloneFits` is the exact theorem for trees whose
  windows are harmless, and `Clones.CloneExactAt` the one for a given database.
- `Chain.CreatedIsWritten`: a single create can report no error although nothing was written, when a hook swallows the
  error of an operation that ran and failed: the nil node that goes up with it is of the right type.
  `HookKinds.CreatedExactly` says which kinds of hooks allow that. Hooks that never call the operation are noticed.
- `HookKinds.UncheckedExactly`: a bulk create checks the builder's own mutation before it takes over the one that its
  hooks hand down. What bulks write is always checked if and only if some hook stops them, or every builder's hooks
  hand down no other mutation or end by handing down a complete one: after a replacement, later edits touch only what
  is written (`HookKinds.EditedAfterReplace`). A single create checks after taking it over (`Chain.WrappedChecked`).
- `HookKinds.HarmlessExactly`: which kinds of hooks, in whatever order and number, keep a bulk all or nothing;
  `HookKinds.OneHook` reads it off for a single hook.
- `Chain.BulkOfOneExactly`: a bulk of one and a single create agree unless the check says different things of the kept
  and the handed-down mutation, or the hooks stop without an error, which only a single create reports.
- `Campus.RoundTripExact`: only the status can read back differently from what `Save` returned, when it was never set.

## Model

| member | source | states |
|---|---|---|
| Storage.ArrangeSorts | ent/facility_query.go:831-837 | under order terms that compare as values do, no row comes after one that it precedes by the first term that separates them, and rows that no term separates stay in table order |
| Storage.WindowIs | ent/facility_query.go:825-830 | a window is the run of rows that starts at a positive offset and has as many rows as are left, or a smaller positive limit |
| Storage.NodesDistinct | ent/facility_query.go:519-550 | the nodes of a run never share an ID, as long as the ID is selected |
| Query.ForeignKeysExact | ent/facility_query.go:618-633 | the ID list of a unique loader has no duplicates and holds exactly the foreign keys that are set |
| Query.ProjectKeeps | ent/facility_query.go:801-816 | a column is in the node if and only if it is selected, the ID, or the foreign key of a unique edge that is loaded |
| Query.LinkedTrees | ent/facility_query.go:660-680 | every neighbour that a loader gets refers to a requested parent: its foreign-key error branches are never reached |
| NestedLoops.ListSplits | ent/campus_query.go:467-499 | one batched answer splits over the parents: each gets exactly the child query's rows with its ID as foreign key, in the child query's order |
| NestedLoops.TargetFound | ent/campus_query.go:500-532 | for each foreign key the batched answer holds exactly the visible row with that ID, or none |
| NestedLoops.JoinColumns | ent/facility_query.go:801-816 | whatever columns are selected, the keys that the joins read are those of the full row |
| Extents.BatchedIsNestedAt | ent/facility_query.go:618-682 | a child run under its link to the parents returns the nested-loop node of each of its rows |
| Extents.BelowWithin | ent/facility_query.go:618-682 | in every run the nodes of a child are no more, and refer to no more rows, than the builder tree foretells |
| Extents.BatchedIsNested | ent/facility_query.go:519-617 | batched eager loading of any tree of builders returns what nested loops return, if every window treats the rows that can share its query as it treats each alone |
| Reach.BelowReached | ent/facility_query.go:618-682 | on the forest a child whose window is harmless finds as many nodes, referring to as many rows, as the builder tree foretells |
| Windows.WindowExact | ent/campus_query.go:467-499 | a tree of builders with the program's own predicates, its root limited or not, equals nested loops on every database if and only if every window at any depth treats the rows that can share its query as it treats each alone |
| Windows.UnlimitedExact | ent/campus_query.go:467-499 | if the root has no limit, this is so if and only if no child at any depth has a limit or an offset |
| Projection.SelectionOnlyCuts | ent/facility_query.go:794-816 | for every choice of fields at every level the result is the full result cut to those fields plus ID and needed foreign keys |
| Builder.QueryBuilder.Where | ent/facility_query.go:46-50 | appends predicates; nothing else in the tree changes |
| Builder.QueryBuilder.Limit | ent/facility_query.go:52-56 | overwrites the limit; nothing else in the tree changes |
| Builder.QueryBuilder.Offset | ent/facility_query.go:58-62 | overwrites the offset; nothing else in the tree changes |
| Builder.QueryBuilder.Order | ent/facility_query.go:71-75 | appends order terms; nothing else in the tree changes |
| Builder.QueryBuilder.Select | ent/facility_query.go:480-486 | appends selected fields; nothing else in the tree changes |
| Builder.QueryBuilder.AppendFieldOnce | ent/facility_query.go:660-662 | adds a field if it is not selected yet |
| Builder.QueryBuilder.With | ent/facility_query.go:390-400 | sets the builder of an eager load, dropping an earlier one for the same key |
| Builder.QueryBuilder.Clone | ent/facility_query.go:367-389 | returns a tree of new builders and contexts at every depth, with the value of the original without its named loads |
| Builder.QueryBuilder.QuerySpec | ent/facility_query.go:794-838 | builds the specification of the builder's value: forced ID and foreign keys, predicates, order, limit, offset |
| Builder.QueryBuilder.PrepareQuery | ent/facility_query.go:493-517 | fails if and only if a selected field is no column, naming the first such field |
| Builder.GroupNodes | ent/facility_query.go:618-631 | collects each foreign key once, in order of first use, and the positions of the nodes that have it |
| Builder.AssignGroup | ent/facility_query.go:637-647 | gives one neighbour to every node of its group and to no other |
| Builder.AssignUnique | ent/facility_query.go:637-648 | every node gets the neighbour with its foreign key or stays unset; fails if and only if a neighbour was not asked for |
| Builder.InitLists | ent/facility_query.go:650-659 | every node starts with an empty list; the index maps each ID to the last node that has it |
| Builder.AssignLists | ent/facility_query.go:669-681 | each list gets its neighbours in order, all to the last of nodes with equal IDs; fails if and only if a neighbour refers to no node |
| Builder.ListsRightExactly | ent/campus_query.go:468-475 | every node is handed its own neighbours, whatever they are, if and only if no two nodes have the same ID |
| Builder.LinkAndRun | ent/facility_query.go:660-668 | adds the `IN` predicate and the forced field to the child builder and runs it |
| Builder.NothingSkipped | ent/facility_query.go:631-633 | when no node has the foreign key, the early return skips no neighbour |
| Builder.LoadUnique | ent/facility_query.go:618-649 | a unique loader, early return included, joins the neighbours and leaves the child builder as specified |
| Builder.LoadList | ent/facility_query.go:650-682 | a list loader does the same, also for nodes with equal IDs |
| Builder.QueryBuilder.LoadPlainEdges | ent/facility_query.go:554-588 | the plain loads run in the order of the edges; the first error stops them |
| Builder.QueryBuilder.LoadNamedEdges | ent/facility_query.go:589-609 | the named loads run in any order, with one result |
| Builder.QueryBuilder.LoadEdges | ent/facility_query.go:554-609 | all loads run and are joined to the nodes; fails if and only if one of them does |
| Builder.QueryBuilder.All | ent/facility_query.go:287-295 | returns the specified nodes and leaves the specified builder tree; fails if and only if a builder that is reached selects an unknown column, and reports the specified one |
| Failures.FailureReported | ent/facility_query.go:493-609 | a run reports a column if and only if it fails |
| Failures.OneReport | ent/facility_query.go:554-588 | without named loads there is one column that a failing run reports: the first unknown one of the first failing load |
| Builder.QueryBuilder.First | ent/facility_query.go:187-198 | runs under a limit of one, which stays; returns the first node, or not found if and only if there is none; an unknown column that fails it is the specified one |
| Builder.QueryBuilder.Only | ent/facility_query.go:232-248 | runs under a limit of two, which stays; returns the node if there is one, not found if and only if there is none, not singular if and only if there are more |
| Rerun.RunKeepsMeaning | ent/facility_query.go:660-668 | after a run the builder tree still returns the same nodes on the same database |
| Rerun.RunKeepsSuccess | ent/facility_query.go:493-517 | after a run that succeeded the next one succeeds |
| Rerun.FieldsSettle | ent/facility_query.go:660-662 | after the first run no builder of the tree selects any further field |
| Rerun.RunsStable | ent/facility_query.go:618-682 | any number of runs return the same nodes, and fields stop growing after the first |
| Clones.CloneMeans | ent/facility_query.go:367-389 | a clone returns the original's nodes with the named lists erased at every depth |
| Clones.CloneIsSame | ent/facility_query.go:367-389 | a clone has the original's value if and only if no builder of the tree has a named load |
| Clones.CloneExactAt | ent/facility_query.go:367-389 | on a given database a clone returns the original's nodes if and only if no run comes to a named load with nodes to load it for |
| Clones.CloneExact | ent/facility_query.go:367-389 | without offsets, or without limits, a clone returns the original's nodes on every database if and only if no builder of the tree, at any depth, has a named load |
| Clones.CloneFits | ent/facility_query.go:367-389 | where every window is harmless, limits and offsets together, it does if and only if no builder that can find a node has a named load |
| Clones.CloneSucceeds | ent/facility_query.go:367-389 | a clone does not fail where the original does not |
| Client.FirstIs | ent/facility_query.go:187-198 | if the windows below fit under a single node, `First` returns the query's own first node, whatever limit it has, and not found if and only if it has none |
| Client.OnlyIs | ent/facility_query.go:232-248 | under the same condition `Only` reports on the query without its limit: the node if it has one, not found if none, not singular if more; it disagrees with the query exactly when that is limited to one of several rows |
| Client.RunTimes | ent/facility_query.go:287-295 | running a builder n times on the heap gives n equal results |
| Client.UseBoth | ent/facility_query.go:367-389 | after a clone, any interleaving of configuration and runs on the two builders returns from each, and leaves each, what using it alone would |
| EdgeStatus.UniqueStatus | ent/facility.go:136-145 | not loaded if and only if not requested; not found if and only if requested and the foreign key is NULL or its target invisible; otherwise the target, which is the nested-loop node of the visible row with that ID if no child has a window |
| EdgeStatus.ListStatus | ent/facility.go:147-154 | a requested list reports no error and holds exactly the node's children |
| EdgeStatus.NamedStatus | ent/facility.go:687-698 | an alias returns its own list, and reports not loaded if and only if it was not loaded |
| EdgeStatus.NamedIndependent | ent/facility_query.go:589-609 | loading one more alias changes no other edge of any node |
| EdgeStatus.NothingLost | ent/campus_query.go:489-497 | handing neighbours to nodes with distinct IDs loses and duplicates none |
| EdgeStatus.RunLosesNothing | ent/campus_query.go:467-499 | the lists of all nodes of a run together are the batched answer, as a multiset |
| Traversal.ChainIsEagerLoading | ent/facility_query.go:99-119 | a chain of traversals of any length reaches exactly the rows at the leaves of the matching eager loads |
| Selection.ClassifyIs | ent/gql_collection.go:44-157 | an edge's name comes before a field's, a field's before `id` and `__typename`, and every other name is unknown |
| Selection.CollectField | ent/gql_collection.go:528-806 | the selected fields stay as they are if and only if some field's name is none of an edge, a column field, `id` and `__typename`; otherwise the ID is appended and, each once and in order of first use, the columns and unique foreign keys that the fields ask for; each load is compiled from the last field for it |
| Selection.CollectEdge | ent/gql_collection.go:47-72 | an edge's builder is compiled from its own selection and set in the parent builder |
| Readback.ScalarReads | ent/gql_collection.go:74-157 | a field that is no edge reads, from the node and directly, as its column, as the ID if it is `id`, as the type's name if it is `__typename`, and as elsewhere if unknown |
| Readback.EdgeInterp | ent/gql_edge.go:11-32 | the direct interpretation of an edge is that of the row with the foreign key as its ID, or of all rows that refer to the node, in table order |
| Readback.BareReads | ent/gql_edge.go:11-32 | resolvers that start from a node fetched by itself read the direct interpretation |
| Readback.CoveredReads | ent/gql_edge.go:11-32 | if the builder tree covers the selection, the resolvers read the direct interpretation from its nodes |
| Readback.ReadbackExact | ent/gql_edge.go:11-32 | the resolvers read the direct interpretation on every database if and only if the builder tree covers the selection |
| Collecting.AnswersIsCovers | ent/gql_collection.go:37-163 | the builder that one selection compiles to covers another if and only if the first selection answers the second |
| Collecting.UniqueOnceAnswers | ent/gql_collection.go:37-163 | a selection answers itself if each level names each unique edge at most once |
| Collecting.CompilerCorrect | ent/gql_collection.go:528-806 | for every selection that answers itself, collecting, running and reading back gives its direct interpretation for every row of the builder |
| Collecting.CompileExact | ent/gql_collection.go:37-163 | what is compiled from a selection reads back on every database if and only if the selection answers itself, last field of an edge against all earlier ones |
| Collecting.AliasesClash | ent/gql_collection.go:60-73 | two aliases of one unique edge: the earlier loses the columns that only it selects |
| PeeringDB.OrganizationAliasesClash | ent/gql_collection.go:60-73 | the same for the organization of a campus |
| PeeringDB.ThereAndBackExact | ent/facility_query.go:618-649 | campuses under a limit, all their facilities, and their campus again under a second limit: nested loops on every database if and only if the first limit is no larger |
| PeeringDB.TheSchemaIsValid | ent/campus/campus.go:11-103 | every edge leads to a declared table, every foreign key and GraphQL field is a declared column, and every edge has its way back in the other table over the same foreign key |
| Slices.Append | ent/gql_collection.go:2671 | an append never changes the slice that it starts from, whether it writes in place or copies |
| Slices.MayAddCondition | ent/gql_collection.go:2663-2674 | computes the union and leaves the caller's list as it was, though it may share its array |
| Slices.AddAllIsUnion | ent/gql_collection.go:2663-2674 | the union keeps the old list as prefix, has exactly the members of both, and adds each new one once, in order |
| Slices.AddTwice | ent/gql_collection.go:2663-2674 | adding the same conditions again changes nothing |
| Slices.CollectShared | ent/gql_collection.go:528-541 | collection over shared lists makes exactly the calls that it would make over copies, and its caller's lists stay as they were |
| Slices.VisitsExactly | ent/gql_collection.go:37-45 | the calls are exactly those at the end of a way down on which every type condition is satisfied, by the start or by a type on the way; their paths are the response keys of the way |
| Slices.CollectChild | ent/gql_collection.go:541-552 | one child's appends are invisible to the enclosing call |
| Campus.BuildSpec | ent/campus_create.go:389-497 | the specification says exactly what the mutation sets, and the node shows it |
| Campus.ScanValues | ent/campus.go:100-117 | one holder per column, of the column's type |
| Campus.Entity.AssignValues | ent/campus.go:121-250 | fails if and only if values are missing or of another type, after assigning the columns before it; otherwise assigns column by column and keeps the last value of each unknown column by name |
| Campus.ScannedAccepted | ent/campus.go:100-250 | the holders made for any column list are accepted for it, whatever the row holds |
| Campus.ColumnsReadBack | ent/campus.go:121-250 | reading any columns of the stored row gives the created node's value in those and zero in the others |
| Campus.RoundTripExact | ent/campus_create.go:389-497 | reading the stored row back gives the created node if and only if the status was set; the table accepts it if and only if name, created and updated are set |
| Campus.CheckedReadsBack | ent/campus_create.go:348-367 | a mutation that passes the check is insertable and reads back as the created node |
| Campus.DefaultsFill | ent/campus_create.go:308-345 | after defaults a field has the value that was set, else the default that the table declares for it, else none; ID and edges stay |
| Campus.DefaultsLeaveFour | ent/campus_create.go:308-367 | after defaults the check can fail on name, created, updated and the sign of the ID only; defaults are idempotent |
| Chain.MutateShape | ent/campus_create.go:1238-1275 | for any hooks: checks and specifications in index order, at most one write after all of them, marks in reverse order after it |
| Chain.SaveShape | ent/campus_create.go:1226-1283 | the same for a whole save, with all defaults before everything else |
| Chain.SaveWrites | ent/campus_create.go:1242-1246 | for any hooks: a write means that every builder's own mutation passed its check, and holds what the hooks handed down |
| Chain.SaveWritesExactly | ent/campus_create.go:1238-1275 | for any hooks: a bulk writes if and only if no builder's hooks stop, every own mutation passes its check and the database accepts; it writes exactly what the hooks handed down |
| Chain.SaveAllOrNothing | ent/campus_create.go:1226-1283 | with hooks that call on once and hand on the outcome, or fail, a save writes and marks all or nothing |
| Chain.SaveExactly | ent/campus_create.go:1226-1283 | such a save fails with the first fault, else with the refusal, else writes exactly the arrived mutations once |
| Chain.PassingArrives | ent/campus_create.go:1272-1275 | with hooks that only pass, what is checked and written is the mutation edited by all of them in order |
| Chain.HooksNest | ent/campus_create.go:1272-1275 | hooks are entered in order, the innermost mutator runs once, they are left in reverse |
| HookKinds.HarmlessExactly | ent/campus_create.go:1238-1271 | lists of kinds of hooks keep every save all or nothing if and only if, whoever fails the check first and whatever the database says, they foresee a whole save or none |
| HookKinds.UncheckedExactly | ent/campus_create.go:1242-1245 | whatever bulks with these lists of kinds of hooks write is checked if and only if some hook stops them, or each list replaces nothing or ends in a complete replacement |
| HookKinds.EditedAfterReplace | ent/campus_create.go:1242-1245 | two hooks, a complete replacement and an edit, get an incomplete mutation written |
| HookKinds.OneHook | ent/campus_create.go:1238-1271 | a single hook keeps every save all or nothing if and only if it neither skips, nor swallows errors, nor fails after the write |
| Chain.WrappedChecked | ent/ent.go:524-532 | a single create only ever writes a mutation that passed its check, whatever the hooks do |
| Chain.CreatedIsWritten | ent/ent.go:516-547 | for any hooks: what a single create writes, when it reports no error, and that it reports none without a write if and only if the operation ran and failed and a hook hides that |
| HookKinds.CreatedExactly | ent/ent.go:516-547 | whatever the mutations, edits and answers are, a single create with these kinds of hooks that reports no error has written, if and only if some hook stops it or none hides errors |
| Chain.HooksWrap | ent/ent.go:516-547 | passing hooks run in order around one operation on the edited mutation; with a nil hook nothing runs |
| Chain.BulkOfOneExactly | ent/campus_create.go:1238-1275 | for any hooks: a bulk of one runs like a single create if and only if they stop with an error, or do not stop and the check says the same of the kept and the handed-down mutation |
| BulkCreate.CampusCreate.Defaults | ent/campus_create.go:308-345 | every field that was set keeps its value, every other one with a declared default gets it, and nothing else changes |
| BulkCreate.CampusCreate.Check | ent/campus_create.go:348-367 | passes if and only if the required fields are set and the ID is positive; otherwise reports the first of these that fails |
| BulkCreate.CampusCreate.Save | ent/campus_create.go:280-283 | runs as the chain of values says: trace, batch, mark and error; returns the written node, none beside an error, and neither when the hooks hide a failure |
| BulkCreate.CampusCreate.WithHooks | ent/ent.go:516-547 | the same for the hooks around the operation, with a nil hook and with a value of no type, of a nil node or of a node coming up |
| BulkCreate.CampusCreate.SqlSave | ent/campus_create.go:369-387 | the operation: check, specification, one write, ID and mark |
| BulkCreate.CampusCreateBulk.Save | ent/campus_create.go:1226-1283 | the nested run on the heap is the chain of values: error, trace, batch, marks; every finished builder of a written batch returns the node of its written mutation with its own ID or the one that the database gave its row, and its mutation has that ID |
| BulkCreate.CampusCreateBulk.Mutate | ent/campus_create.go:1272-1277 | one builder's hooks on the heap, terminating by builders left and hooks left |
| BulkCreate.CampusCreateBulk.Innermost | ent/campus_create.go:1238-1271 | one builder's innermost mutator on the heap |
| Upsert.IgnoredColumns | ent/campus_create.go:1359-1372 | the ignored columns are the ID and the creation time, each if any mutation of the batch has one |
| Upsert.CreatedKept | ent/campus_create.go:1359-1372 | over any writes from batches a row's creation time is that of its first write |
| Upsert.LatestKept | ent/campus_create.go:1359-1372 | every other column holds what the last write of it proposed |
| Upsert.ProposesSpec | ent/campus_create.go:389-497 | a mutation proposes for each column what its specification holds |
| Upsert.ColumnsExact | ent/campus_create.go:389-497 | the columns of a batch are those that some specification of it sets |
| Upsert.InsertsSpec | ent/campus_create.go:1359-1372 | upserting one mutation whose row is not there yet stores, column by column, the row that its specification describes, and touches no other row |
| Upsert.HistoryTellsRow | ent/campus_create.go:1359-1372 | over every history of batches, with or without IDs: a row exists if and only if it was written, its creation time is what the specification of its first write holds, and every other column what the specification of the last write from a batch with that column holds, or the default |
| Upsert.CreatedSetExactly | ent/campus_create.go:1359-1372 | the creation time is set if and only if the first write had one, which the check makes sure of |
| Upsert.WrittenExactly | ent/campus_create.go:1226-1283 | a sequence of bulk saves leaves one batch for each save that wrote, in their order, and no other |
| Upsert.SavesKeepCreated | ent/campus_create.go:1359-1372 | over every sequence of bulk saves, failed ones included, whose kinds of hooks write only checked mutations, each row keeps the creation time of its first write |
| Upsert.ReplayExactly | ent/campus_create.go:1359-1372 | upserting the last batch again changes nothing if and only if every mutation of it brings its ID |
| SortLists.DeleteFunc | ent/entc.go:175-178 | deletes in place, keeping the order of the rest and clearing the tail |
| SortLists.RestSortableFields | ent/entc.go:168-181 | keeps, in order, exactly the sorts that lead over no edge to a type with a policy |
| SortLists.RefusedExactly | ent/entc.go:170-179 | a sort is refused if and only if it is the name of an edge to a type with a policy, a dot and anything |
| SortLists.DropPolicyEdgeSorts | ent/entc.go:185-199 | drops from each type's enum, in place, what the type is not served; other enums stay |
| SortLists.ListsAgree | ent/entc.go:163-199 | an enum that decodes to a type's base list ends up decoding, in order, to what all types with that enum are served; the type's served list if and only if none of them is refused a part of it |

## Left out

- Traversal.ChainIsEagerLoading: a builder that was reached by `Query<Edge>` carries a path; the model has the rows that
  the path denotes, not the closure that computes the selector, and no column selection on the builder before it.
- Interceptors, `modifiers` and `loadTotal`, and `Unique` on a builder without a path: they run code or SQL that is
  not part of this model. A clone drops `modifiers`, `loadTotal` and the named loads; the model has the last of these.
- Nodes are values in an array. Where the loaders keep pointers to nodes, the model keeps positions; that one node
  found over a unique edge is shared by its parents is not modelled.
- `*wq = *query` in field collection is modelled as setting the collected builder itself; the copied struct shares its
  context with the original, which nothing else refers to afterwards.
- Edges of campuses, facilities and organizations to entity types other than campuses, carriers, carrier facilities,
  facilities, organizations, exchange facilities and network facilities.
- Windows.WindowExact: the predicates are closures of the program, as before any run.
- Clones.CloneExact: leaves out builder trees with both limits and offsets some of which are not harmless;
  `Clones.CloneExactAt` is about all builders.
- Collecting.CompileExact: the list of collected fields has one entry per response key; how fragments and directives
  are merged into it happens outside the repository.
- Errors of the database during a query, contexts and cancellation: a query always answers.
- Hooks are data: an edit of the mutation and one of six ways to go on. A hook that calls the next mutator more than
  once, reaches into another builder's mutation, or hands up another value than it got, is not modelled; a nil hook in
  a bulk create stops the program and is excluded by a precondition.
- Two builders of a bulk that share a mutation, or the same builder twice.
- Upsert.HistoryTellsRow: the number of a row without an ID is given along with its mutation; which one the table
  takes is not modelled, and a batch may mix rows with and without IDs.
- BulkCreate.CampusCreateBulk.Save: what the driver reports back as an ID is a number here; the assertion on its Go type
  is not modelled.
- Facilities that are attached while creating a campus are part of the specification, but what they change in their
  own table is not followed.
- Update and delete builders, `IDs`, `Count`, `GroupBy` and `Aggregate`, pagination arguments, transactions, drivers,
  and the sync, web and gRPC surfaces: they would add further instances or easy members.
