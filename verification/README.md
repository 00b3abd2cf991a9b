# InvariantQL in Dafny

InvariantQL promises that a query means the same wherever its parts run. This project models its
planner, its validator, its binder and its translators over one shared meaning, and proves them
against it. A row maps column names to values; an expression has a three-valued meaning on a row
(`Expressions.Eval`, ISO/IEC 9075-2 sections 8.4 and 8.5 for IN and LIKE); a plan means filter,
then project, then take (`Plans.Denote`). `Fault` is the value of an operation outside its domain:
the binder is proved to exclude it, and the translators are proved on rows where the predicate has
an SQL value.

## How the files fit together

- `Wrappers`, `Values`: options, results, values, their order, three-valued logic, arithmetic.
- `Like`, `Types`, `Expressions`, `Plans`: the domain layer and its meaning.
- `Execution`, `Planner`, `Engines`, `Binding`: the pushdown contract as a relation (a FULL predicate
  is exact, a PARTIAL one is any superset in table order, a PARTIAL limit is any long enough prefix),
  the validator, the planner, the two engines, and type soundness.
- `Streams`, `IcebergFilter`, `IcebergScan`, `Delta`, `Mongo`, `Neo4j`: the predicate compilers under
  three-valued logic and the streaming loops around them.
- `Service`: a whole query over Iceberg, from the plan to the rows. The concrete scan returns what
  `Engines.InnerSelect` does with the pushed half (`Service.ScannedIsInnerSelect`), which
  `Engines.ExactScanIsAllowed` places inside the contract the planner relies on.
- `SqlText`, `Postgres`, `XmlRows`, `XmlInference`, `Serialization`: the stateful generator, the
  connection protocol, the XML event loop, schema inference, and the JSON forms.

`dafny verify dfyconfig.toml` checks everything.

## What the proofs found

- `Planner.PlanQuery`: the planner's output always passes its own validator, so the assertion at
  the end of `plan` cannot fire; and it accepts a plan exactly when some validated split exists.
- `Service.Execute`: for Iceberg the parts compose. What binds, plans and scans returns the rows the
  bound plan denotes, and a failure has one of five causes.
- `Neo4j.LimitIsExactIff`: LIMIT 0 with conjuncts kept local yields one row when a row matches.
- `SqlText.ExpressionInOrderIff`: in a `%s` dialect an IN whose operand and list both bind values
  swaps them, because the list is rendered first. The PostgreSQL generator inherits this
  (`SqlText.SwapChangesTheAnswer`: `5 IN (6, 5)` is sent as `6 IN (5, 5)`); MySQL's override does not
  have it, and DuckDB's `$n` is immune.
- `Mongo.BareColumnStopsScan`: a bare boolean column is a pushable predicate with no native form that
  raises in-process. `Mongo.Scan`, through `Mongo.RaisesIffStops`, says exactly which scans raise.
- `IcebergFilter.RoomyColumnRefused`: binding a literal to a decimal column goes through the decimal
  library's default 28-digit context, so a literal that needs more digits at the column's scale raises
  although the column could hold it. `IcebergFilter.AbortsIff` says which predicates do, from their
  tests, parameters and column types, and `IcebergScan.Scan` fails exactly there.
- `Types.JoinWidensIffItFits`: unification of two decimals without an operation keeps both inputs'
  values exactly when integral digits and scale fit in 76 together (`Types.JoinCanLoseFractions` is a
  pair where they do not). `Types.CommonAssociatesIff`: it groups freely on numeric types; over all
  types the grouping matters exactly when neighbours clash, none of the three is null or unknown, and
  the outer two differ.
- `Postgres.NothingLeaks`: an exception between the two locked sections of a scan leaves its connection
  open past the close (`Postgres.AbandonedScanLeaks`); nothing else does.

## Model

| member | source | states |
|---|---|---|
| LikePatterns.BuildRegex | src/invariantql/adapters/sources/mongodb.py:904-919 | the compiling loop emits, for every pattern and both dialects, the opening, one piece per pattern character, and the absolute end anchor |
| LikePatterns.CompiledTextReadsBack | src/invariantql/adapters/sources/neo4j.py:132-152 | read back with a regular-expression grammar, the emitted text is exactly the pattern's own tokens and the end anchor: no pattern character becomes a metacharacter |
| LikePatterns.CompiledRegexMatchesLike | src/invariantql/adapters/sources/neo4j.py:132-152 | the compiled expression accepts a string, newlines included, if and only if the recursive definition of LIKE does |
| LikePatterns.LookaheadIsNeeded | src/invariantql/adapters/sources/neo4j.py:149-151 | without the trailing lookahead the expression for `a` would accept `a` followed by a newline, which LIKE rejects |
| Types.UnifyCommutes | src/invariantql/domain/types.py:183-269 | the common type of two types, with or without an operation, does not depend on their order |
| Types.UnifyIsValid | src/invariantql/domain/types.py:183-291 | a common type always passes its own constructor's checks |
| Types.UnifyInDigits | src/invariantql/domain/types.py:227-269 | over exact operands +, - and * are refused if and only if the exact result needs more than 38 digits; otherwise the type has exactly the digits and scale needed |
| Types.DecimalResultsFit | src/invariantql/domain/types.py:183-291 | whenever + - or * types as decimal(p,s), the exact result of any two values of the operand types is representable in p <= 38 digits at scale s, and is NULL only for a NULL operand |
| Types.IntegersFitTheirDigits | src/invariantql/domain/types.py:272-278 | every integer of 8, 16, 32 or 64 bits fits the digits the capacity table gives its width |
| Types.UnifyIsJoin | src/invariantql/domain/types.py:212-291 | without an operation unification of numeric types never fails and is a join in closed form |
| Types.JoinAssociates | src/invariantql/domain/types.py:212-291 | that join is associative, including where the 76-digit cap trims scale |
| Types.JoinIdempotent | src/invariantql/domain/types.py:212-291 | joining a numeric type with itself changes nothing |
| Types.JoinAllOrderFree | src/invariantql/adapters/sources/mongodb.py:719-723 | folding the join over an unordered collection of numeric kinds has one answer: any two orders of the same kinds give the same type |
| Types.CommonAssociatesIff | src/invariantql/domain/types.py:183-269 | over all valid types the grouping of three does not matter if and only if one is null or unknown, the outer two are equal, or neither neighbouring pair clashes (both known, different and not both numeric) |
| Types.UnifyDoesNotAssociateOverAllTypes | src/invariantql/domain/types.py:212-222 | text, boolean and date, grouped both ways, unify to different types |
| Types.JoinWidensIffItFits | src/invariantql/domain/types.py:212-291 | the join of two decimals represents every value of both if and only if the larger integral part and the larger scale fit in 76 digits together |
| Types.JoinCanLoseFractions | src/invariantql/domain/types.py:212-291 | decimal(76,0) with decimal(76,76) unifies to decimal(76,0), which cannot hold 10^-76 |
| Expressions.ReferencedColumns | src/invariantql/domain/expressions.py:476-484 | exactly the columns of the trees, each once, in the order in which they are first mentioned |
| Expressions.ConjunctsOfAndAll | src/invariantql/domain/expressions.py:496-515 | conjoining clauses and flattening the result gives the clauses back |
| Expressions.TrueIffConjunctsTrue | src/invariantql/domain/expressions.py:496-506 | a nested conjunction is TRUE on a row if and only if each flattened conjunct is |
| Expressions.EvalFootprint | src/invariantql/domain/expressions.py:468-484 | an expression has the same value on any two rows that agree on the columns it references |
| Expressions.SubstituteKeepsMeaning | src/invariantql/domain/expressions.py:530-572 | an expression with its parameters replaced means what it meant with them bound, on every row |
| Expressions.SubstituteKeepsForm | src/invariantql/domain/expressions.py:530-572 | substitution keeps every constructor's invariant, and turns constants into literals |
| Expressions.SubstituteSucceedsIff | src/invariantql/domain/expressions.py:530-538 | substitution fails if and only if a referenced parameter was not supplied |
| Plans.DenoteByParts | src/invariantql/domain/plan.py:145-163 | the stage-by-stage meaning of a valid chain is filter, then project, then take, of its three optional parts |
| Plans.ChainParts | src/invariantql/domain/plan.py:188-207 | the chain rebuilt from three parts is valid and has exactly those parts |
| Plans.BuildIsOrderFreeAcrossKinds | src/invariantql/domain/plan.py:165-207 | any interleaving of where, select and limit calls builds the conjuncts in call order, the last selection and the smallest limit |
| Plans.WhereNarrows | src/invariantql/domain/plan.py:170-175 | adding a condition keeps exactly the rows the plan kept before and the condition finds TRUE |
| Execution.CheckCompleteness | src/invariantql/domain/execution.py:125-265 | the validator reports no problem if and only if the split is complete: conjuncts as multisets, projection and limit placed by declared support, all within the engine |
| Execution.CoveredFiltersAgree | src/invariantql/domain/execution.py:144-197 | clauses compared only as multisets still decide which rows are kept |
| Execution.AccountedSplitIsCorrect | src/invariantql/domain/execution.py:125-265 | any split the accounting accepts, however built, gives the plan's rows for every outcome the FULL, PARTIAL and NONE contracts allow the scan |
| Execution.AcceptedSplitIsCorrect | src/invariantql/domain/execution.py:125-265 | the validator is sound: an executable split with no reported problem means its logical plan |
| Planner.SplitClauses | src/invariantql/application/planner.py:93-214 | the clause loop sends each conjunct to exactly its fate: pushed, rechecked, left or rejected |
| Planner.PlanQuery | src/invariantql/application/planner.py:42-449 | the planner's pass over the chain gives the planned halves, is executable if and only if the source is reachable and nothing is rejected, and always passes its own validator, so the final assertion cannot fire |
| Planner.PlannedSplitAccounted | src/invariantql/application/planner.py:42-449 | the validator accepts every split the planner accepts, under every capability combination |
| Planner.PlannerLeavesLeast | src/invariantql/application/planner.py:93-214 | of all splits the validator accepts, the planner's leaves no clause to the engine that another one pushes |
| Planner.PlannerMissesNoSplit | src/invariantql/application/planner.py:42-449 | if any split of a plan at all passes the validator, the planner accepts the plan |
| Planner.AcceptedIffSomeSplitExists | src/invariantql/application/planner.py:42-449 | the planner accepts a plan if and only if some split of it passes the validator |
| Planner.PlannerPreservesMeaning | src/invariantql/application/planner.py:42-449 | the residual half applied to any allowed outcome of the pushed half is exactly what the logical plan denotes |
| Engines.ExactScanIsAllowed | src/invariantql/adapters/duckdb_engine/engine.py:169-187 | running the pushed half exactly is an outcome every capability level allows |
| Engines.DuckDbExecute | src/invariantql/adapters/duckdb_engine/engine.py:169-206 | the outer SELECT over the inner one returns the plan's rows, for every accounted split |
| Engines.SparkCompile | src/invariantql/adapters/spark_engine/engine.py:204-232 | the data frame filtered by both halves conjoined, projected, and limited by the smaller limit, returns the plan's rows |
| Engines.EnginesAgree | src/invariantql/adapters/spark_engine/engine.py:204-232 | both engines return the same rows on every accounted split and table |
| Binding.ResolveFinds | src/invariantql/domain/schema.py:67-77 | a name resolves to the field that bears it exactly; failing that, to the only field that bears it up to case; and to nothing when none or several do |
| Binding.ResolvedNamesAreExact | src/invariantql/domain/schema.py:67-77 | resolving a resolved name finds the same field, so binding again changes nothing |
| Binding.BindOutputs | src/invariantql/application/binding.py:76-98 | the output loop succeeds if and only if every output binds and no two names collide, and then matches the source one by one |
| Binding.BindPlan | src/invariantql/application/binding.py:51-118 | binding fails if and only if no bound plan exists: predicate, outputs and portability checks decide; the bound plan is valid and has exactly the bound parts |
| Binding.BindIsSound | src/invariantql/application/binding.py:130-277 | type soundness: on every row conforming to the schema a bound expression is never stuck, and is NULL or inside its derived type |
| Binding.ArithmeticConforms | src/invariantql/domain/semantics.py:24-51 | arithmetic on conforming operands gives NULL or a value of the unified type; int64 overflow and division by zero give NULL |
| Binding.BoundFilterIsSound | src/invariantql/application/binding.py:61-74 | a bound WHERE is TRUE, FALSE or UNKNOWN on every conforming row and keeps the rows the bound predicate keeps |
| Binding.BoundOutputIsSound | src/invariantql/application/binding.py:76-118 | every output of a bound plan conforms to its declared output field on every conforming row |
| Binding.BoundAnswerConforms | src/invariantql/application/binding.py:51-118 | every row a bound plan answers with, on a conforming table, conforms to its output schema, which is itself valid |
| IcebergFilter.ConvertedIsSame | src/invariantql/adapters/formats/iceberg.py:589-660 | a literal converted to a column type is the same value: every comparison against it is unchanged |
| IcebergFilter.OppositeNegates | src/invariantql/adapters/formats/iceberg.py:539-546 | the negation table turns each comparison into its complement on ordered values |
| IcebergFilter.InIsFaithful | src/invariantql/adapters/formats/iceberg.py:746-776 | IN and NOT IN filters with NULL members and NULL operands keep every row SQL keeps, and no other when exact |
| IcebergFilter.TranslationIsFaithful | src/invariantql/adapters/formats/iceberg.py:663-776 | for every predicate, possibly negated, the row filter passes every row where SQL finds it TRUE, and only those when flagged exact; by induction through De Morgan |
| IcebergFilter.AbortsIff | src/invariantql/adapters/formats/iceberg.py:562-776 | translating a predicate raises if and only if some test below AND, OR and NOT has a missing parameter, or compares a decimal column with an exact number that needs more than 28 digits at the column's scale |
| IcebergFilter.RoomyColumnRefused | src/invariantql/adapters/formats/iceberg.py:589-596 | 10^20 against decimal(38,10): the column holds it in 31 digits and a row exceeds it, yet the comparison does not translate |
| IcebergScan.EvaluateIsEval | src/invariantql/adapters/formats/iceberg.py:783-853 | row by row, the vectorised recheck with its scalars and columns is the three-valued meaning of the predicate |
| IcebergScan.RecheckIsFilter | src/invariantql/adapters/formats/iceberg.py:790-802 | filtering a batch by the recheck keeps exactly the rows where the predicate is TRUE |
| IcebergScan.Slices | src/invariantql/adapters/formats/iceberg.py:515-516 | a batch yielded in slices keeps its rows in order, each slice of 1 to batch_size rows |
| IcebergScan.Deliver | src/invariantql/adapters/formats/iceberg.py:504-516 | one batch delivers its rechecked rows cut to what the limit leaves, and the limit counts them |
| IcebergScan.Batches | src/invariantql/adapters/formats/iceberg.py:491-523 | for any input batching the stream is take(limit, filter(all rows)), trimmed, in batches of 1 to batch_size rows |
| IcebergScan.ReadColumns | src/invariantql/adapters/formats/iceberg.py:417-430 | without a projection everything is read; otherwise the projection first, then the predicate columns it lacks in first-seen order, and the first table column when that names none |
| IcebergScan.LimitPlacementIsInvisible | src/invariantql/adapters/formats/iceberg.py:206-215 | pushed under an exact filter or withheld under an inexact one, the limit gives the same rows |
| IcebergScan.Scan | src/invariantql/adapters/formats/iceberg.py:182-237 | with or without a projection, the scan returns exactly the filtered and limited rows under its output columns, and fails if and only if it asks for an unknown column or a test of the predicate cannot be translated |
| Streams.BatchRows | src/invariantql/adapters/_shared/arrow.py:185-204 | batching keeps the rows in order; every batch has 1 to batch_size rows and all but the last are full |
| Mongo.ComparisonMatches | src/invariantql/adapters/sources/mongodb.py:964-982 | a comparison document, with its null guard for `$ne`, matches exactly where the comparison is TRUE |
| Mongo.InMatches | src/invariantql/adapters/sources/mongodb.py:984-1005 | an `$in` or guarded `$nin` document matches exactly where IN or NOT IN is TRUE |
| Mongo.LikeMatches | src/invariantql/adapters/sources/mongodb.py:1007-1019 | a compiled `$regex` or guarded `$not` document matches exactly where LIKE or NOT LIKE is TRUE |
| Mongo.NativeMatchesTruth | src/invariantql/adapters/sources/mongodb.py:922-1036 | for every translatable conjunct the native document matches a document if and only if the conjunct is TRUE on its row, although `$ne`, `$nin` and `$not` match null |
| Mongo.LocalIsEval | src/invariantql/adapters/sources/mongodb.py:1038-1101 | whenever the short-circuiting in-process evaluation does not raise, it gives the conjunct's SQL truth value |
| Mongo.RejectsIff | src/invariantql/adapters/sources/mongodb.py:1038-1101 | in-process evaluation raises if and only if it meets a node that is no test, or a test of something neither column nor literal, where an operand of AND is met when none before it is FALSE and one of OR when none before it is TRUE |
| Mongo.EvaluableNeverRaises | src/invariantql/adapters/sources/mongodb.py:1038-1101 | a conjunct built from tests of columns and literals never raises in-process |
| Mongo.BareColumnRaises | src/invariantql/adapters/sources/mongodb.py:1093-1093 | a bare boolean column has no native document and raises in-process, also where SQL finds it TRUE |
| Mongo.SplitClauses | src/invariantql/adapters/sources/mongodb.py:345-352 | every conjunct goes to exactly one side, in order |
| Mongo.SplitMeansAll | src/invariantql/adapters/sources/mongodb.py:345-353 | on every document, the server's verdict and the local conjuncts together are the predicate |
| Mongo.Fetched | src/invariantql/adapters/sources/mongodb.py:355-358 | the fetched columns are the output columns and every column of a local conjunct, each once, in first-seen order |
| Mongo.Rows | src/invariantql/adapters/sources/mongodb.py:504-526 | the cursor loop yields take(limit, kept rows), and raises if and only if a document it reaches before the limit does not convert or cannot be evaluated |
| Mongo.RaisesIffStops | src/invariantql/adapters/sources/mongodb.py:504-542 | the loop over what the server returns raises if and only if, in collection order, some document on which every translated conjunct is TRUE does not convert or has a rejected conjunct, and fewer rows than the limit satisfy the predicate before it |
| Mongo.HandledNeverRaises | src/invariantql/adapters/sources/mongodb.py:345-352 | where fields convert and every clause is translatable or evaluable, the scan never raises |
| Mongo.BareColumnStopsScan | src/invariantql/adapters/sources/mongodb.py:1093-1093 | `WHERE active` over one active document: SQL returns the row, the scan raises |
| Mongo.Scan | src/invariantql/adapters/sources/mongodb.py:308-409 | for every native/local split the scan returns exactly the filtered, limited, trimmed rows in batches; it fails if and only if a column is unknown, a parameter is missing, or it cannot get past a document |
| Delta.ScalarIsLiteral | src/invariantql/adapters/formats/delta.py:379-408 | a literal cast to its column's type is the same value, and falls back where the cast would lose digits |
| Delta.RebuiltIsMember | src/invariantql/adapters/formats/delta.py:328-354 | every branch of the rebuilt IN (one set, a set with NULL, the OR chain) gives SQL's TRUE, FALSE or UNKNOWN |
| Delta.TranslationIsEval | src/invariantql/adapters/formats/delta.py:270-354 | the Arrow expression has the SQL predicate's value on every row, through any nesting of AND, OR and NOT |
| Delta.PredicateTranslatesIff | src/invariantql/adapters/formats/delta.py:244-306 | a pushed predicate translates if and only if its parameters are supplied and its nodes are of pushable kinds |
| Delta.Batches | src/invariantql/adapters/formats/delta.py:660-676 | for any batching by the scanner the loop yields take(limit, rows), each batch a prefix of the one read |
| Delta.Scan | src/invariantql/adapters/formats/delta.py:497-531 | with or without a projection the scan returns exactly the filtered and limited rows, and fails if and only if a parameter is missing or a node of the predicate is not pushable |
| Neo4j.SplitFilters | src/invariantql/adapters/sources/neo4j.py:641-649 | Cypher's filter followed by the local one is the whole predicate |
| Neo4j.EvaluateIsEval | src/invariantql/adapters/sources/neo4j.py:911-976 | in-process evaluation of a conjunct gives the value SQL gives it |
| Neo4j.Batches | src/invariantql/adapters/sources/neo4j.py:851-889 | the fused loop yields the kept rows up to the limit, a limit of zero acting as one, in batches of 1 to batch_size rows |
| Neo4j.Scan | src/invariantql/adapters/sources/neo4j.py:620-740 | the scan fails if and only if the output is empty, a parameter is missing, or a fetched column is unknown; otherwise it returns the filtered, trimmed rows under the limit it honours |
| Neo4j.LimitIsExactIff | src/invariantql/adapters/sources/neo4j.py:873-882 | the rows are the limited rows if and only if it is not LIMIT 0 with local conjuncts and a matching row |
| Neo4j.ZeroLimitYieldsRow | src/invariantql/adapters/sources/neo4j.py:873-882 | a concrete LIMIT 0 scan, testing a text-normalised column, that yields a row |
| SqlText.QuotedReadsBack | src/invariantql/adapters/_shared/sqltext.py:42-44 | a quoted identifier reads back whole whatever follows it: none can end its quotation early |
| SqlText.NumberedIsInline | src/invariantql/adapters/_shared/sqltext.py:151-154 | `$n` names its own value wherever the fragment ends up: filling the placeholders gives the intended text |
| SqlText.EachValueOnce | src/invariantql/adapters/_shared/sqltext.py:104-154 | every rendering splices each value it appended exactly once |
| SqlText.TextOrderIff | src/invariantql/adapters/_shared/sqltext.py:104-154 | the k-th placeholder stands for the k-th value if and only if no binding text was rendered ahead of binding text before it |
| SqlText.PositionalIsInlineIff | src/invariantql/adapters/_shared/sqltext.py:46-49 | over distinct values, a `%s` statement read by position is the intended text if and only if the layout is in order |
| SqlText.ExpressionInOrderIff | src/invariantql/adapters/_shared/sqltext.py:129-131 | an expression is in order if and only if no IN binds in both its operand and its list, or the generator renders the operand first |
| SqlText.SwappedIsMembership | src/invariantql/adapters/_shared/sqltext.py:129-131 | the base generator lays `x IN (y, z)` over constants with the list rendered first |
| SqlText.MembersTradePlaces | src/invariantql/adapters/_shared/sqltext.py:129-131 | read by position, that statement of `x IN (y, z)` is the statement of `y IN (z, x)` |
| SqlText.SwapChangesTheAnswer | src/invariantql/adapters/sources/postgres.py:74-106 | through the PostgreSQL generator `5 IN (6, 5)`, which is TRUE, reads as `6 IN (5, 5)`, which is FALSE; it holds no node that is not pushed there |
| SqlText.StatementInOrderIff | src/invariantql/adapters/_shared/sqltext.py:67-93 | a statement over a named relation is in order if and only if its IN tests are |
| SqlText.SqlGenerator.Bind | src/invariantql/adapters/_shared/sqltext.py:151-154 | binding appends the value and returns the placeholder of its position |
| SqlText.SqlGenerator.Expression | src/invariantql/adapters/_shared/sqltext.py:104-142 | rendering appends exactly the expression's values and gives the text of its layout, casts and ESCAPE clause included, or fails on a missing parameter or a misplaced alias |
| SqlText.SqlGenerator.Membership | src/invariantql/adapters/sources/mysql.py:316-319 | IN is rendered operand first by MySQL and list first by the base generator, with the text the same |
| SqlText.SqlGenerator.Select | src/invariantql/adapters/_shared/sqltext.py:67-95 | a SELECT over an already rendered relation appends its values after the relation's |
| SqlText.Statement | src/invariantql/adapters/sources/postgres.py:359-366 | a `%s` statement and its values read by position are the intended text for MySQL always, and for the base generator when its IN tests are in order |
| SqlText.NestedStatement | src/invariantql/adapters/duckdb_engine/engine.py:159-206 | on one generator shared by the inner and the outer SELECT, and inside the SELECT that casts the output, every `$n` is its own value |
| Postgres.StepKeepsInv | src/invariantql/adapters/sources/postgres.py:283-448 | every critical section, by any thread, keeps each open owned connection with exactly one holder and every live stream where the close will find it |
| Postgres.RunKeepsInv | src/invariantql/adapters/sources/postgres.py:283-448 | over every interleaving of scans, schema reads, stream closes, the source's close and dropped connections |
| Postgres.OneHolderEach | src/invariantql/adapters/sources/postgres.py:452-503 | in every run of an owning source an open connection belongs to exactly one of the primary slot, one scan in flight or one live stream, or to nobody if a scan was abandoned between its locked sections |
| Postgres.OnlyTheHolderCloses | src/invariantql/adapters/sources/postgres.py:367-438 | a connection under a scan or stream is closed only by that scan's end, that stream's hook, or the server |
| Postgres.NothingOpensInRunsAfterClose | src/invariantql/adapters/sources/postgres.py:436-448 | after the close no connection is opened and no scan starts |
| Postgres.OpenAfterClose | src/invariantql/adapters/sources/postgres.py:436-448 | once the close has returned, an open connection belongs to a scan in flight, a close in progress, or an abandoned scan |
| Postgres.NothingLeaks | src/invariantql/adapters/sources/postgres.py:436-448 | closed, returned and nothing in flight: what an owning source has left open are abandoned connections only; nothing if no scan was abandoned, and exactly those while the server drops none |
| Postgres.AbandonedScanLeaks | src/invariantql/adapters/sources/postgres.py:399-424 | one scan that raises between its two locked sections leaves its connection open past the close |
| Postgres.InjectedSurvives | src/invariantql/adapters/sources/postgres.py:512-520 | a connection the user supplied is never opened, replaced or closed by the source, in any run |
| Postgres.PostgresSource.SchemaSection | src/invariantql/adapters/sources/postgres.py:283-309 | the locked body of `schema` is the model's transition |
| Postgres.PostgresSource.TakeScanConnection | src/invariantql/adapters/sources/postgres.py:486-503 | an owned scan takes the primary connection away or opens its own; an injected one is shared |
| Postgres.PostgresSource.ScanSection | src/invariantql/adapters/sources/postgres.py:367-398 | the first locked section of `scan` |
| Postgres.PostgresSource.RegisterSection | src/invariantql/adapters/sources/postgres.py:424-434 | the second locked section of `scan`: hand the stream out unless the source closed meanwhile |
| Postgres.PostgresSource.ReleaseStream | src/invariantql/adapters/sources/postgres.py:413-419 | the hook a closing stream runs under the lock |
| Postgres.PostgresSource.CloseSection | src/invariantql/adapters/sources/postgres.py:436-443 | the locked section of `close` |
| Service.SupportedIsEvaluable | src/invariantql/adapters/formats/iceberg.py:77-89 | every kind the Iceberg handler declares is one its recheck evaluates |
| Service.PushedNeverStuck | src/invariantql/application/service.py:109-130 | on conforming rows what the planner pushes of a bound predicate has an SQL value |
| Service.ScannedIsInnerSelect | src/invariantql/adapters/formats/iceberg.py:217-222 | the scan of the planned half returns what the exact inner SELECT does, so the planner's contract covers it |
| Service.Execute | src/invariantql/application/service.py:109-168 | end to end over Iceberg: for any plan, engine and batching, the rows are those the bound plan denotes and conform to its output schema; the query fails if and only if a parameter is missing or unexpected, the plan does not bind, no accepted split exists, or the scan cannot translate a test |
| XmlRows.NamespacesAreStripped | src/invariantql/adapters/formats/xml.py:85-88 | a namespaced and a plain tag have the same local name |
| XmlRows.FeedOutside | src/invariantql/adapters/formats/xml.py:128-163 | an element read outside a row adds exactly its outermost row elements, subtrees intact, and leaves nothing else behind |
| XmlRows.DocumentRows | src/invariantql/adapters/formats/xml.py:128-169 | a whole document gives exactly its outermost rows in document order; a broken-off one gives a prefix of them |
| XmlRows.FeedStaysLean | src/invariantql/adapters/formats/xml.py:157-163 | after every event of any stream only the path of open elements and the current row are held |
| XmlRows.IterRowElements | src/invariantql/adapters/formats/xml.py:128-163 | the loop over stack and row depth yields exactly the outermost rows of every document |
| XmlRows.RecordHoldsChildren | src/invariantql/adapters/formats/xml.py:100-119 | under each name a record holds the element's own entry and then its children's values, in order: one alone, several as a list, none dropped |
| XmlRows.ElementToRecord | src/invariantql/adapters/formats/xml.py:100-119 | the loops over attributes and children build that record |
| XmlRows.IterRecords | src/invariantql/adapters/formats/xml.py:172-194 | the records are the first `limit` of the document's rows; a limit of zero or less yields none |
| XmlInference.ScalarsConvert | src/invariantql/adapters/formats/xml.py:211-226 | each text converts under the scalar type inferred for its column to the value it reads as |
| XmlInference.InferenceIsLossless | src/invariantql/adapters/formats/xml.py:199-304 | converting any sampled value with the inferred type leaves no non-null leaf null and no leaf misread, through lists, structs and mixes of them with scalars |
| XmlInference.SampledRecordSurvives | src/invariantql/adapters/formats/xml.py:239-252 | a sampled record read under the inferred schema keeps every column |
| Serialization.TypeRoundTrip | src/invariantql/domain/types.py:333-359 | a valid type reads back as written |
| Serialization.ReadTypesAreValid | src/invariantql/domain/types.py:333-359 | whatever JSON is read, the type that comes out is valid |
| Serialization.ExpressionRoundTrip | src/invariantql/domain/expressions.py:575-617 | a well-formed expression reads back as written |
| Serialization.ReadExpressionsAreWellFormed | src/invariantql/domain/expressions.py:575-617 | whatever JSON is read, the expression that comes out is one the constructors accept at every node |
| Serialization.PlanRoundTrip | src/invariantql/domain/plan.py:280-320 | a valid plan reads back as written |
| Serialization.ReadPlansAreValid | src/invariantql/domain/plan.py:289-320 | whatever JSON is read, the plan that comes out is a valid chain |

## Left out

- Mongo.Scan: on rows where the predicate has an SQL value; which stored values a converter accepts is a parameter, and an accepted value compares as stored. Errors of the server and of batching into Arrow are left out.
- Mongo.NativeMatchesTruth: assumes no ObjectId columns, and that value conversion leaves comparisons unchanged, because both depend on the BSON library (including its 34-digit decimals).
- Neo4j.Scan: Cypher's text is not modelled; it is taken to evaluate SQL's three-valued logic.
- IcebergFilter.TranslationIsFaithful: floats are exact reals without NaN, so the negation table is a complement.
- IcebergScan.Scan: a missing parameter that only the recheck meets (in a test of constants, say) raises when the first batch arrives, which is not modelled; nested column names are left out.
- Service.Execute: schemas of known scalar columns; the reader is pyiceberg's scan in any batching, and the engine's own SQL is its residual half. The other sources' scans are proved against the same exact scan but not composed with the planner.
- Delta.Scan: the dataset scanner is the rows where the Arrow filter is TRUE, projected, in any batching; it is asked for columns the dataset has.
- SqlText.SqlGenerator.Expression: which cast a generator writes around an operand or a constant is a parameter of the dialect, because it depends on provider type names.
- Postgres.NothingLeaks: an abandoned connection is open until the server drops it; that a garbage collector may close it earlier is not modelled, nor is a second concurrent `close`, which returns while the first still works.
- XmlRows.IterRowElements: text that follows a child, the parser's read-ahead and parse errors are left out; blank text is recognised by ASCII white space.
- XmlInference.InferenceIsLossless: how text parses as a number, date or timestamp is abstract.
- Serialization.ExpressionRoundTrip: the texts of decimals, dates, timestamps and byte strings are atoms, member names and tags are an enumeration, and values the source coerces (a width given as text, a name that is not text) are refused here.
- Binding.ResolveFinds: lower-casing is ASCII only.
- Engines.SparkCompile: the casts of projected columns to their output types are not modelled.
- The SQL parser: a third-party library; the model starts from expression trees.
- Provider libraries (DuckDB, pyarrow, pyiceberg, delta-rs, pymongo, psycopg, Spark, Neo4j): each is a small evaluator with the null behaviour the source relies on.
- Floating-point rounding, time zones, calendars and collations.
- MySQL's connection handling, and MongoDB's and Neo4j's stream registration: variants of the PostgreSQL protocol.
- Storage adapters, credentials, redaction, reader specifications, the registry, builders, explain text and fingerprints: plumbing that would add only easy members.
