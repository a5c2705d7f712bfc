# Xazz: a verified model

Xazz is a small language for data pipelines with differential privacy, model training and an audit log. This project
models the parts of it that decide something and proves what they decide, for all inputs.

Six groups of modules follow the program's own structure.

**The static analyser, its typed IR and column lineage.** `Ast`, `Ir`, `Lowering` and `Checking` give the syntax tree, the
intermediate representation, type inference and, as functions, what the analyser reports and builds. `Checker` is the
analyser itself, an object whose methods update the symbol tables, the diagnostics, the per-pipeline state and the IR; every
method is proved to compute the corresponding function. `Frames`, `Programs` and `Plans` are two interpreters that know
nothing of the checker: one runs source programs statement by statement, one runs the IR node by node. Both take an
`Engine`, a record of functions for arithmetic, row choices (sorting, sampling, quartile filters), casts, noise, aggregates,
joins and prediction, with a flag that says whether a rename of an absent column stops a run or is skipped; every theorem
holds for all engines, strict and lenient. On top of them:

- `Preservation`, `ProgramPreservation`: the steps of a checked pipeline are its operators, one for one up to the first
  `train`, and an error-free program and its IR bind the same frames and models or stop in the same way.
- `MissingByOperator`, `MissingByStatement`, `MissingColumns`: a program whose names resolve stops on a missing column exactly
  when one that the backend needs is reported or a train target is missed, on every input that has the declared columns.
  `LenientRename` compares one engine with strict and with lenient renames.
- `Cleanliness`, `WellFormed`: the operators, options and networks that are not reported at all, and the programs, by a
  judgement over their declarations.
- `CheckerReports`, `CheckerKinds`: what is reported otherwise: which columns, in which order, for which mistake, and how
  many reports a whole program gets.
- `DeclaredTypes`: what a declared type means, in the checker's table and in the IR, and what becomes of it along a pipeline.
- `RowChoices`, `Meanings`: what the operators do to rows, and what they compute on an engine whose parts are ordinary.
- `Scoping`, `BoundRuns`: an error-free program has a well-scoped IR, and running it never looks up an unbound name, with
  one exception that is characterised exactly.
- `StoppedRuns`: programs whose report and run part.
- `Catalog`, `Trackers`, `ProgramTrackers`, `LineageTruth`, `CatalogSources`: the catalog's provenance table, when its columns
  are those of the checker's output schema, what a lineage entry says about each row of the data, and why the columns it
  names are the ones the step cannot do without.
- `Segments`: cutting the token stream into one slice per statement.

**The differential-privacy engine.** `Words`, `SplitMix`, `SplitMixVectors`, `Noise`, `NoiseLaws`, `DpFrames`,
`PrivacyLedger`: the generator in its Python and Rust forms, its full period and its published first output, the rejection
loop, the samplers and why they are those of the two mechanisms, ordered noise injection and the ε ledger.

**The audit chain.** `AuditChain`, the browser's replay, and `AuditWriter`, the server that writes the log, with `Text` for
decimal numerals.

**The benchmark verifier.** `BenchOracle`, `BenchScan`, `BenchTopK`, `BenchTotals`, with `Ordering` for stable sorting.

**Chunked bodies.** `Chunked`, `ChunkFraming`, `ChunkGrammar`, `ChunkReceived` and `Utf8`: the decoder of the transfer coding
of section 7.1 of RFC 9112, the inputs it accepts, the grammar of that section, and the decoding of a response that was made
into text first.

**Smaller algorithms.** `ChartStats` and `ChartQuartiles`, `SchemaInference` and `CellKinds`, `Subtitles`, `SubtitleStamps`
and `SubtitleFiles`.

`dafny verify dfyconfig.toml` checks everything.

## What the proofs found

Some promises do not hold as a reader might take them. The code is modelled as it is; each has a lemma that says when it does
hold.

- A `run v |> train(M)` statement is accepted when `v` is itself a trained model, though no frame of that name exists when
  it runs (`Scoping.RunOnModelIsAccepted`, `StoppedRuns.RunOnModelStops`). Every source is a frame if and only if no `run`
  statement names such a variable (`Scoping.SourcesAreFramesExactly`); no run ends when one does (`BoundRuns.UnboundExactly`).
- The target column of a `train` operator inside a pipeline is not checked; only the `run` statement checks it
  (`StoppedRuns.AbsentTargetIsAcceptedAndStops`, `MissingByOperator.TrainStopsExactly`).
- The polars backend calls `rename` without strictness (xazz-exec/src/lower.rs:344-348), so it skips a rename of an absent
  column that the checker reports: a program whose one error is such a report runs to the end
  (`StoppedRuns.AbsentRenameIsReportedAndRuns`). The checker is right about a run if and only if, where it reports a missing
  column, one of those reported is needed, that is, not a rename's on such a backend, or a train target is missed, and where
  it reports none, no train target is missed (`MissingColumns.ReportIsRightExactly`). A lenient backend ends a program that
  a strict one stops exactly when the missing columns reported are renames' alone and no target is missed
  (`LenientRename.BackendsPartExactly`).
- The catalog's columns and the checker's part at a bare `count()`, a rename onto an existing column, a `groupBy` that is
  not the only column, a `corr` and a `predict(as:)` (`Trackers.StepAgreesExactly` gives the guard, both directions).
- A bare `count()` is catalogued as derived from a column without a name, and reads no column at all
  (`CatalogSources.BareCountReadsNothing`).
- The `bin` column of a histogram is typed `str`, a name that no declaration gives: the IR has no type for it, and a fill of
  it is refused (`DeclaredTypes.HistogramBinIsUntyped`). A field declared an option of an option has no known type
  (`DeclaredTypes.NestedOptionsAreUnknown`).
- Polars spends a noise sample on a NaN and pandas does not. On one stream the two DataFrame paths agree if and only if every
  number takes the same sample on both, which for pairwise different samples means that no NaN precedes a number
  (`DpFrames.PathsAgreeOn`, `DpFrames.PathsAgreeOnDistinct`, with a frame in `DpFrames.NaNThenNumber`).
- `apply_dp` in Python charges ε before it refuses an unsupported frame or one without numeric columns, while the Rust
  runtime charges only after noise was injected, xazz-exec/src/runtime.rs:1802-1810 (`PrivacyLedger.RefusedButCharged`).
  A request is refused at a cost if and only if it is charged and cannot be served (`PrivacyLedger.FailsAtACostExactly`), and
  charges equal service if and only if every charged request could be served (`PrivacyLedger.ChargesMatchServiceExactly`).
- Optional audit fields are skipped when null, so moving a value from one optional field to the next leaves the record hash
  unchanged (`AuditChain.MovedFieldKeepsTheHash`); equal encodings have all fields equal if and only if the same fields are
  present (`AuditChain.EncodingDetermines`).
  Cutting the tail off an audit log leaves it intact (`AuditChain.PrefixIsIntact`), and no other selection of its
  records does (`AuditChain.OnlyPrefixesAreIntact`).
- `dechunk` skips the CRLF after a chunk when it is there and does not require it, reads size lines the grammar does not have,
  and stops at the zero line without looking for the end of the body (`ChunkGrammar.UnclosedIsAccepted`,
  `ChunkGrammar.NamelessIsAccepted`, `ChunkGrammar.UnendedIsAccepted`). `ChunkFraming.AcceptedExactly` says which inputs it
  accepts and `ChunkGrammar.RfcFramedExactly` which of them section 7.1 of RFC 9112 allows.
- The client makes a response into text before it decodes the chunks, so a character that a server splits between two chunks
  is replaced and the sizes no longer fit (`ChunkReceived.SplitCharacterIsLost`). A chunked text is received intact if and
  only if every chunk holds whole characters, its size fitting a machine word (`ChunkReceived.TextIsReceivedExactly`).
- `whiskerLow ≤ q1` and `q3 ≤ whiskerHigh` can fail with interpolated quartiles (`ChartStats.WhiskersOutsideTheBox`);
  `ChartStats.LowWhiskerReachesTheBox` and `ChartStats.HighWhiskerReachesTheBox` say when they hold.
- The subtitle round trip is exact if and only if all times are below 100 hours (`SubtitleFiles.RoundTrip`).

## Model

| member | source | states |
|---|---|---|
| `Checker.Analyzer.CheckSelectOp` | xazz-compiler/src/checker.rs:1061-1074 | one report per selected column that is absent, in order; the columns kept are the selected ones that exist |
| `Checker.Analyzer.CheckWithDpOp` | xazz-compiler/src/checker.rs:1374-1400 | every numeric column becomes float with its nullability, the others stay |
| `Checker.Analyzer.ValidateTrainSweep` | xazz-compiler/src/checker.rs:476-576 | an incompatible split, then one report per zero epoch count, non-positive rate and zero batch size |
| `Checker.Analyzer.CheckOp` | xazz-compiler/src/checker.rs:837-883 | the pipeline state after any operator: its columns, one more step, the waiting group key, the model flag and the reports; true exactly for train |
| `Checker.Analyzer.CheckOps` | xazz-compiler/src/checker.rs:699-703 | operators are checked in order until one halts the pipeline |
| `Checker.Analyzer.ResolvePipelineSource` | xazz-compiler/src/checker.rs:742-831 | the columns, the IR source and the reports of every source: declared or undeclared schema, frame, model or unknown variable |
| `Checker.Analyzer.CheckPipeline` | xazz-compiler/src/checker.rs:684-740 | the whole analyser state after a pipeline, with the missing-aggregate report, the IR node and the binding |
| `Checker.Analyzer.CheckModelDecl` | xazz-compiler/src/checker.rs:320-442 | a duplicate changes nothing else; otherwise layer reports in order, then the table and the IR grow |
| `Checker.Analyzer.CheckVarDecl` | xazz-compiler/src/checker.rs:444-467 | a duplicate name is reported and skipped; a pipeline that trains makes its variable a model |
| `Checker.Analyzer.CheckTrainStmt` | xazz-compiler/src/checker.rs:578-676 | reports and the IR node of a run statement, stopping at an unknown variable or network |
| `Checker.Analyzer.CheckStmt` | xazz-compiler/src/checker.rs:254-292 | the whole analyser state after each kind of statement |
| `Checker.Analyzer.CheckProgram` | xazz-compiler/src/checker.rs:247-252 | the state after all statements in order |
| `Checker.CheckFresh` | xazz-compiler/src/checker.rs:110-118 | a fresh analyser run over any program ends with exactly the errors, tables and IR of the checking function |
| `Cleanliness.OperatorCleanExactly` | xazz-compiler/src/checker.rs:837-883 | any operator is free of errors if and only if the columns it needs exist and the names, types, options and vocabularies it uses are allowed |
| `Cleanliness.OptionsCleanExactly` | xazz-compiler/src/checker.rs:476-576 | a training configuration is free of errors if and only if its sweep values are in range and timed rows are split in order |
| `Cleanliness.NetworkCleanExactly` | xazz-compiler/src/checker.rs:340-442 | a network is free of errors if and only if some layer trains, convolutions and embeddings have sizes, and an embedding comes first |
| `WellFormed.CleanProgramsAreWellFormed` | xazz-compiler/src/checker.rs:247-292 | the checker reports nothing if and only if the program is well formed, a judgement over its declarations that mentions neither the checker's reports nor its IR |
| `CheckerReports.ReportsNameTheAbsentColumns` | xazz-compiler/src/checker.rs:837-883 | for every operator the columns reported missing are the absent ones among those it needs, one by one and in the order it needs them; a join also of its partner's |
| `CheckerReports.SweepReportsCount` | xazz-compiler/src/checker.rs:476-576 | one report about the split, first, and then as many as there are zero epoch counts, non-positive rates and zero batch sizes |
| `CheckerReports.NetworkReportsCount` | xazz-compiler/src/checker.rs:320-442 | as many reports of each kind as layers are wrong in that way, and one when nothing in the network trains |
| `CheckerReports.LayersAreReportedInOrder` | xazz-compiler/src/checker.rs:320-442 | one more layer only adds reports behind the others, and the report about the whole network comes first |
| `CheckerReports.FeaturesCount` | xazz-compiler/src/checker.rs:935-984 | a column is one more feature if and only if it is an int or a float and not the target |
| `CheckerReports.WaitingGroupIsTheRuns` | xazz-compiler/src/checker.rs:1076-1173 | the group the checker thinks is waiting is the one a run has waiting, after every operator that runs |
| `CheckerKinds.ReportsAreOfTheirKind` | xazz-compiler/src/checker.rs:837-883 | every operator is reported for each kind of mistake, and for an undeclared name, if and only if it makes it |
| `CheckerKinds.ReportsNameTheirOperator` | xazz-compiler/src/checker.rs:837-883 | a report of an absent column carries the word of the operator that reads it |
| `CheckerKinds.GroupIsLeftExactly` | xazz-compiler/src/checker.rs:699-716 | a group is left waiting if and only if some groupBy that is reached has no aggregate behind it that is reached |
| `CheckerKinds.PipelineReportsInOrder` | xazz-compiler/src/checker.rs:684-740 | a pipeline's source is reported before its operators, and a group left waiting after them |
| `CheckerKinds.RunReportsInOrder` | xazz-compiler/src/checker.rs:578-680 | a run statement is reported for its options first and then for the one thing it misses: its variable, its network, its target, or a vocabulary that fits |
| `CheckerKinds.MistakesAreCounted` | xazz-compiler/src/checker.rs:254-318 | whatever else is wrong, a program gets one report per import, per second declaration of a schema, model or variable and per checked pipeline that leaves a group waiting |
| `DeclaredTypes.PlainFields` | xazz-compiler/src/checker.rs:1663-1680 | a field declared with a plain type has it in the table and in the IR, without nulls |
| `DeclaredTypes.OptionalFields` | xazz-compiler/src/checker.rs:1663-1669 | a field declared Option<T> has nulls, whatever T is, and the base type of one declared T, in the table and in the IR |
| `DeclaredTypes.NestedOptionsAreUnknown` | xazz-compiler/src/checker.rs:1663-1669 | an option of an option has no known type |
| `DeclaredTypes.FieldTypes` | xazz-compiler/src/checker.rs:1749-1762 | the table has the type of the last declaration of a name, and the IR schema the type of each field in order |
| `DeclaredTypes.TableTypes` | xazz-compiler/src/checker.rs:1764-1772 | a schema made of a table lists its columns in name order, each with its type |
| `DeclaredTypes.FillIsReportedExactly` | xazz-compiler/src/checker.rs:1203-1236 | a fill of a declared column is reported if and only if its last declaration is a plain type |
| `DeclaredTypes.FillProgramsExactly` | xazz-compiler/src/checker.rs:1203-1236 | the same for whole programs: filling a column declared Option<T> is never reported, one declared with a plain type always |
| `DeclaredTypes.ExpressionTypes` | xazz-compiler/src/checker.rs:1683-1722 | an expression is bool if and only if it is a truth value, a comparison or a bool column; other operations are float; only bare columns have nulls |
| `DeclaredTypes.TypesAreKept` | xazz-compiler/src/checker.rs:1309-1400 | through any operator a column that is not made anew keeps its nulls, and its type save for a cast of it and noise on numbers |
| `DeclaredTypes.MadeColumns` | xazz-compiler/src/checker.rs:1284-1355 | what a column made by a rename, a prediction, a histogram or an expression can hold |
| `DeclaredTypes.HistogramBinIsUntyped` | xazz-compiler/src/checker.rs:1127-1139 | the bin column has a type no declaration gives, unknown to the IR, and a fill of it is reported |
| `Lowering.TypingErases` | xazz-compiler/src/checker.rs:1683-1722 | erasing the inferred types of a typed expression gives the source expression back |
| `Lowering.LoweringIsFaithful` | xazz-compiler/src/checker.rs:837-883 | every IR step determines the operator it came from, whatever the columns were |
| `Preservation.PipelineStepsAreTheOperators` | xazz-compiler/src/checker.rs:699-703 | the steps of a pipeline are, one for one and in order, its operators up to and including the first train |
| `Scoping.YieldsExactlyWithTrain` | xazz-compiler/src/checker.rs:1012-1018 | a pipeline yields a model exactly when a train operator occurs in it |
| `Preservation.StepMeansOperator` | xazz-exec/src/lower.rs:130-361 | an operator of the source and the step it lowers to do the same to every state, on every engine |
| `Preservation.StepsMeanOperators` | xazz-exec/src/runtime.rs:1636-1883 | running the steps of an error-free pipeline is running its operators |
| `RowChoices.FilterKeepsTrueRows` | xazz-exec/src/lower.rs:137-139 | a filter keeps the rows whose condition is true, in order, and the columns |
| `RowChoices.DropNullKeepsPresentRows` | xazz-exec/src/lower.rs:274-276 | dropNull keeps the rows with a value in its column, in order |
| `RowChoices.TakeKeepsFirstRows` | xazz-exec/src/lower.rs:258-267 | take keeps the first n rows, or all of them |
| `RowChoices.FillChangesNulls` | xazz-exec/src/lower.rs:277-289 | a fill changes nothing but the nulls of its column, into the value, the mean, the median or 0 |
| `Meanings.OrderBySorts` | xazz-exec/src/lower.rs:251-257 | on an engine that sorts integers, orderBy puts an integer column in the order asked for and keeps the number of rows |
| `Meanings.ExpressionsCompute` | xazz-exec/src/lower.rs:26-50 | on an engine that computes integers as usual, an integer expression has the value of arithmetic on the row |
| `Meanings.AggregatesSay` | xazz-exec/src/lower.rs:147-154 | on an engine whose statistics are the usual ones, sum, count, min and max of an integer column say its sum, its size, its least and its largest value |
| `Meanings.QuantileEnds` | xazz-exec/src/lower.rs:168-175 | on such an engine the outermost quantiles are the least and the largest value |
| `Meanings.HistogramAccountsForRows` | xazz-exec/src/lower.rs:190-209 | on an engine that puts every integer into one bin, the counts of a histogram of integers add up to the number of rows |
| `Meanings.ListsAskForTheSame` | xazz-exec/src/lower.rs:155-167 | a list of aggregates asks for the statistics its functions ask for alone, in order and under the same group |
| `Meanings.GroupsReachTheAggregate` | xazz-exec/src/lower.rs:144-154 | a groupBy hands its key to the aggregate after it, whatever key was waiting before |
| `Meanings.JoinRunsExactly` | xazz-exec/src/lower.rs:290-319 | a join runs if and only if its partner is bound and both sides have their keys |
| `Meanings.LeftJoinsKeepThePipeline` | xazz-exec/src/lower.rs:290-319 | on an engine whose left joins keep the left side, a left join loses no column and no row of the pipeline |
| `Meanings.TrainingUsesThePipeline` | xazz-exec/src/runtime.rs:1636-1883 | a train at the end of a pipeline trains its network, with its options, on the frame the pipeline ends with, or stops at its absent target |
| `ProgramPreservation.PipelineMeans` | xazz-exec/src/runtime.rs:1559-1636 | a checked pipeline's node binds what the source pipeline binds, or stops in the same way |
| `ProgramPreservation.LoweringKeepsMeaning` | xazz-compiler/src/checker.rs:110-118 | for every engine, an error-free program and its IR end with the same frames and models, or stop on the same column or name |
| `MissingByOperator.ReportsAreExact` | xazz-compiler/src/checker.rs:1535-1541 | an operator is reported for a missing column if and only if a column it reads is absent |
| `MissingByOperator.OperatorIsExact` | xazz-compiler/src/checker.rs:1054-1074 | running an operator stops on a column if and only if one it needs is reported, a rename needing its column on strict backends only; otherwise the tracked columns are the frame's |
| `MissingByStatement.OperatorsAreExact` | xazz-compiler/src/checker.rs:684-740 | a pipeline of simple operators, training included, stops on a column if and only if one it needs is reported or its train target is absent from the columns tracked there; past a skipped rename the tracked columns stay the frame's |
| `MissingColumns.MissingColumnsAreExact` | xazz-compiler/src/checker.rs:247-292 | whole programs of the sixteen operators that neither aggregate, join nor predict, and of train, on every conforming input, strict or lenient: a run stops on a column if and only if one that the backend needs is reported or some train target is missed, otherwise it ends |
| `MissingColumns.NeededReportsAreErrors` | xazz-compiler/src/checker.rs:247-292 | for a strict backend the needed reports are all missing columns reported; for a lenient one those of every operator but rename, in every program without a variable called by the keyword `rename` |
| `MissingColumns.ReportIsRightExactly` | xazz-compiler/src/checker.rs:247-292 | report and run agree if and only if a needed column is among those reported or a target is missed, where there is a report, and no target is missed, where there is none |
| `MissingColumns.ReportsMatchRuns` | xazz-compiler/src/checker.rs:247-292 | without train operators the run stops on a column if and only if a needed one is reported; on strict backends that is any |
| `MissingColumns.DataDoesNotDecide` | xazz-compiler/src/checker.rs:247-292 | any two conforming engines and inputs that treat renames alike agree on whether such a program stops on a missing column |
| `MissingColumns.DryRunDecides` | xazz-compiler/src/checker.rs:98-105 | a run on empty tables stops on a column exactly for the programs with a needed report or a missed target |
| `MissingByOperator.TrainStopsExactly` | xazz-compiler/src/checker.rs:986-1018 | training runs if and only if its target column is there and otherwise stops on it, while no column is ever reported for it |
| `StoppedRuns.AbsentTargetIsAcceptedAndStops` | xazz-compiler/src/checker.rs:986-1018 | a concrete program without errors that every conforming run stops on, at its train target |
| `StoppedRuns.AbsentRenameIsReportedAndRuns` | xazz-exec/src/lower.rs:344-348 | a concrete program whose one error is a rename's missing column: every strict conforming run stops on it and every lenient one ends |
| `LenientRename.OperatorsAgree` | xazz-exec/src/lower.rs:344-348 | one operator does the same on both backends, except a rename of an absent column, which the strict one stops on and the lenient one skips |
| `LenientRename.BackendsPartExactly` | xazz-exec/src/lower.rs:344-348 | a program the strict backend ends has the same result on the lenient one, and the lenient one ends a program the strict one does not exactly when only renames' columns are reported missing and no target is missed |
| `Scoping.StmtKeepsSound` | xazz-compiler/src/checker.rs:254-292 | each statement without errors keeps the IR scoped and the symbol tables equal to the names the nodes bind |
| `Scoping.ErrorFreeIsWellScoped` | xazz-compiler/src/checker.rs:723-738 | id equals index, names are distinct, a model-yielding node ends in train, and sources, join partners, predict models and trained networks all name something declared, earlier and of the right kind |
| `Scoping.SourcesAreFramesExactly` | xazz-compiler/src/checker.rs:578-615 | in an error-free program every source is an earlier frame if and only if no run statement names a variable whose declaration trains |
| `Scoping.RunOnModelIsAccepted` | xazz-compiler/src/checker.rs:578-615 | a concrete program without errors whose run statement has a model as its source |
| `BoundRuns.RunsLookUpBoundNames` | xazz-exec/src/runtime.rs:1624-1633 | on every engine the only name a run can miss is a model named by a run statement, and a run that ends binds exactly the nodes' names |
| `BoundRuns.RunsNeverUnbound` | xazz-exec/src/runtime.rs:1624-1633 | without such a run statement no lookup ever fails |
| `BoundRuns.UnboundExactly` | xazz-exec/src/runtime.rs:1624-1633 | on every engine a run that ends implies that no run statement names a model, and a run that misses no column stops at an unbound name if and only if one does |
| `StoppedRuns.RunOnModelStops` | xazz-exec/src/runtime.rs:1624-1633 | the concrete program without errors whose IR every conforming run stops at the model's name |
| `Catalog.RefCollector.Walk` | xazz-compiler/src/catalog.rs:201-215 | the walk appends the columns of the expression from left to right |
| `Catalog.ProvenanceTable.Retain` | xazz-compiler/src/catalog.rs:116-119 | exactly the entries of the kept columns stay, in order |
| `Catalog.ProvenanceTable.ApplyDataOp` | xazz-compiler/src/catalog.rs:101-198 | the provenance table after each data operation |
| `Catalog.BuildPipelineEntry` | xazz-compiler/src/catalog.rs:58-98 | the catalog entry of a node: seeded with its input columns, walked through its data steps numbered from 1 |
| `CatalogSources.NewEntriesNameWhatIsRead` | xazz-compiler/src/catalog.rs:101-198 | every entry that a corr, quantile, aggregate, withColumn or histogram adds has the step's number, and its `from` columns are, in order, exactly those without which the step stops on a missing column |
| `CatalogSources.ListedAggregatesNameTheirColumns` | xazz-compiler/src/catalog.rs:154-160 | a list of aggregates adds entries with the one column each aggregate cannot do without |
| `CatalogSources.JoinedKeysStandForThemselves` | xazz-compiler/src/catalog.rs:187-197 | a join adds entries for its left keys only, without which it does not run |
| `CatalogSources.ListedEntriesStay` | xazz-compiler/src/catalog.rs:145-197 | statistics and joins keep what was listed, in front of what is new |
| `CatalogSources.RenamedIsListedLast` | xazz-compiler/src/catalog.rs:121-127 | a renamed column moves behind the others with the sources and the step it had |
| `CatalogSources.MadeIsListedLast` | xazz-compiler/src/catalog.rs:129-137 | a made column is listed behind the others, in place of the entry it had |
| `CatalogSources.KeptInPlace` | xazz-compiler/src/catalog.rs:115-143 | select and groupBy keep the entries of their columns where they are |
| `CatalogSources.BareCountReadsNothing` | xazz-compiler/src/catalog.rs:145-151 | a bare count lists a source without a name and reads no column |
| `Trackers.StepAgreesExactly` | xazz-compiler/src/catalog.rs:101-198 | from equal columns, an operator without errors keeps catalog and checker equal if and only if its guard holds |
| `Trackers.StepStaysWithin` | xazz-compiler/src/catalog.rs:101-198 | under a weaker guard the catalog's columns stay distinct and among the checker's, grouping and predictions included |
| `Trackers.EveryPrefixListsItsOutputExactly` | xazz-compiler/src/catalog.rs:58-98 | the catalogs of an error-free pipeline cut after each of its operators all list their output columns once each, and nothing else, if and only if every operator meets its guard |
| `Trackers.CatalogListsTheOutput` | xazz-compiler/src/catalog.rs:58-98 | the catalog of an error-free pipeline under the guard lists each output column once and nothing else |
| `Trackers.CatalogStaysWithinTheOutput` | xazz-compiler/src/catalog.rs:58-98 | under the weaker guard it lists only output columns, each once |
| `ProgramTrackers.EveryCatalogListsItsOutput` | xazz-compiler/src/catalog.rs:51-98 | in an error-free program under the guards, the catalog of every node lists its output columns, or stays within them |
| `Trackers.BareCountListsNoName` | xazz-compiler/src/catalog.rs:152-160 | a bare count adds a nameless column to the catalog though the checker reports nothing |
| `Trackers.RenameCollides` | xazz-compiler/src/catalog.rs:122-127 | renaming onto an existing column lists it twice though the checker reports nothing |
| `LineageTruth.RunIsEvaluation` | xazz-exec/src/runtime.rs:1636-1883 | running steps prefix by prefix is what the runtime computes |
| `LineageTruth.RowComesFrom` | xazz-exec/src/lower.rs:130-361 | every row after a step was made by that step from a row before it: chosen, projected, renamed, derived, cast, replaced, filled or noised |
| `LineageTruth.StepKeepsTruth` | xazz-compiler/src/catalog.rs:101-142 | a step keeps every lineage entry true of a row and of that row's past |
| `LineageTruth.LineageIsTrue` | xazz-compiler/src/catalog.rs:58-142 | every output row has a history, and of every history of it the catalog is true: a step-0 entry names the one input column its cell comes from, a step-k entry is the value of that step's expression on the row entering it, each put through the casts, replacements, fills and noise applied to its column since, followed through renames |
| `LineageTruth.CarriedUnchanged` | xazz-compiler/src/catalog.rs:101-142 | without those the cell is the input cell or the derived value itself |
| `LineageTruth.ValuesComeFromRefs` | xazz-compiler/src/catalog.rs:200-215 | an expression's value depends on no column but those the catalog lists for it |
| `Segments.SegmentStatements` | xazz-compiler/src/checker.rs:177-230 | one slice per statement when the boundaries give the expected number, otherwise one slice; no token is lost, added or moved |
| `Segments.SegmentsAreUnique` | xazz-compiler/src/checker.rs:190-223 | the boundaries allow only one way to cut the tokens |
| `Segments.StatementsAreCut` | xazz-compiler/src/checker.rs:177-230 | cutting undoes writing statements one after the other, each starting with a keyword or as `name |>` after the end of the one before |
| `SplitMix.MixIsBijection` | python/xazz_dp.py:62-65 | the output mix is a bijection on 64-bit words, with its inverse given |
| `SplitMix.StateIsReachedOnce` | python/xazz_dp.py:61 | from any state, any state is reached at exactly one draw count modulo 2^64 |
| `SplitMix.FullPeriod` | python/xazz_dp.py:60-65 | every word is output at exactly one position modulo 2^64, and the position is given |
| `SplitMix.OutputsRepeatOnlyAfterAPeriod` | python/xazz_dp.py:60-65 | two draws give the same word if and only if they are a multiple of 2^64 apart |
| `SplitMix.RejectionStops` | python/xazz_dp.py:67-72 | the rejection loop keeps one of the first 2049 draws, from every state |
| `SplitMix.UnitInterval` | python/xazz_dp.py:70-71 | the scaled draw is in [0, 1), and positive exactly when the word is at least 2^11 |
| `SplitMix.UniformOverThePeriod` | python/xazz_dp.py:67-72 | over a period each of the 2^53 scaled values comes up the same number of times, 2048 |
| `SplitMix.PySplitMix64.NextU64` | python/xazz_dp.py:60-65 | the masked-integer form advances the state by one and returns its output |
| `SplitMix.PySplitMix64.NextF64` | python/xazz_dp.py:67-72 | the loop ends with the first kept draw, strictly between 0 and 1 |
| `SplitMix.RustSplitMix64.NextU64` | src/sde.rs:25-31 | the wrapping form advances the state by one and returns its output |
| `SplitMix.RustSplitMix64.NextF64` | src/sde.rs:33-36 | one draw, scaled into [0, 1) without rejection |
| `SplitMix.EmitBoth` | src/sde.rs:20-31 | for every seed the Python and Rust generators emit the same sequence |
| `SplitMixVectors.KnownVector` | python/test_xazz_dp.py:24-29 | seed 0 gives the published first output, which fixes the constants and shifts |
| `Noise.Sampler.Sample` | python/xazz_dp.py:225-228 | a sample and the state after it, for both mechanisms; logarithm and root arguments are in their domains |
| `Noise.NoiseSequence` | python/xazz_dp.py:109-125 | the first refusal in the order of the checks, or the first n samples of the seeded generator |
| `Noise.DeltaReadingsAgree` | python/xazz_dp.py:128-142 | the two ways the code defaults delta agree on every request that passes validation |
| `NoiseLaws.ValidateExactly` | python/xazz_dp.py:128-142 | which argument is refused, and when none is |
| `NoiseLaws.LaplaceScaleExactly` | python/xazz_dp.py:82-84 | the Laplace parameter is the one number that times ε is the sensitivity |
| `NoiseLaws.GaussianSigmaExactly` | python/xazz_dp.py:87-91 | σ²ε² = 2·ln(1.25/δ)·Δ² for every square root |
| `NoiseLaws.DefaultSigma` | python/xazz_dp.py:87-91 | without δ the Gaussian mechanism uses one in a hundred thousand |
| `NoiseLaws.StricterIsNoisier` | python/xazz_dp.py:82-91 | a smaller ε gives a larger parameter, for both mechanisms |
| `NoiseLaws.LaplaceInvertsCdf` | python/xazz_dp.py:94-97 | the distribution function of the Laplace distribution takes each sample back to its uniform variate |
| `NoiseLaws.LaplaceIsOdd` | python/xazz_dp.py:94-97 | samples are symmetric around zero |
| `NoiseLaws.GaussianOnTheCircle` | python/xazz_dp.py:100-104 | the sample is a coordinate of a point on the Box-Muller circle, at the angle of the second variate |
| `NoiseLaws.SamplesUseVariates` | python/xazz_dp.py:94-104 | the j-th Laplace sample uses variate j, the j-th Gaussian sample variates 2j and 2j + 1 in this order |
| `NoiseLaws.UnitIsTheTop53Bits` | python/xazz_dp.py:67-72 | a variate is the word over 2^64 rounded down to a multiple of 2^-53 |
| `DpFrames.RankIncreases` | python/xazz_dp.py:258-296 | noised cells take samples in column-major order |
| `DpFrames.EverySampleIsUsedOnce` | python/xazz_dp.py:258-296 | each sample drawn goes to exactly one noised cell, and no other sample goes anywhere |
| `DpFrames.NoiseIsAdded` | python/xazz_dp.py:258-296 | a number becomes itself plus its sample, and everything else stays, save how pandas spells a null |
| `DpFrames.NamesInOrder` | python/xazz_dp.py:258-296 | the reported columns come in frame order: those of a frame in two parts are those of its parts |
| `DpFrames.ApplyPandas` | python/xazz_dp.py:258-273 | the noised frame: the j-th sample on the j-th numeric cell, nulls, other columns and shape unchanged |
| `DpFrames.ApplyPolars` | python/xazz_dp.py:276-296 | the same for polars, where a NaN also takes a sample |
| `DpFrames.PathsAgreeOn` | python/xazz_dp.py:258-296 | on one stream of samples the two paths agree if and only if every number takes the same sample on both |
| `DpFrames.PathsAgreeOnDistinct` | python/xazz_dp.py:258-296 | on a stream whose used samples are pairwise different they agree if and only if no NaN precedes a number |
| `DpFrames.PathsAgreeExactly` | python/xazz_dp.py:258-296 | they agree on every stream if and only if no NaN precedes a number |
| `DpFrames.NaNThenNumber` | python/xazz_dp.py:269-292 | on a NaN followed by a number they agree exactly for streams whose first two samples are equal |
| `PrivacyLedger.PrivacyBudget.Spend` | python/xazz_dp.py:171-181 | charged exactly when ε is positive and fits the rest of the budget; otherwise nothing changes |
| `PrivacyLedger.PrivacyBudget.Remaining` | python/xazz_dp.py:183-185 | never negative, and spent plus remaining is the total unless overspent |
| `PrivacyLedger.ApplyDp` | python/xazz_dp.py:193-255 | the first failure in the order of the checks, or the noised frame and its report; what the ledger holds after either |
| `PrivacyLedger.FailuresExactly` | python/xazz_dp.py:193-255 | which of the checks fails first: an argument, the budget, the library, no numeric column |
| `PrivacyLedger.LedgerIsTheSumOfCharges` | python/xazz_dp.py:171-181 | over any run of requests spent is the sum of the charged ε, never falls and never exceeds the total |
| `PrivacyLedger.ChargesMatchServiceExactly` | python/xazz_dp.py:213-244 | charges equal what was served if and only if every charged request could be served |
| `PrivacyLedger.RefusedButCharged` | python/xazz_dp.py:240-244 | a text-only frame is refused and charged |
| `PrivacyLedger.Serve` | python/xazz_dp.py:193-255 | a run of requests against one ledger: what each gets and what the ledger ends with |
| `AuditChain.RecordHash` | visual-ide/src/auditChain.js:16-22 | the hash of the present fields, each closed by a NUL, then the link |
| `AuditWriter.ComputeRecordHash` | xazz-server/src/audit_log.rs:98-126 | the server hashes its fields one by one, each followed by a zero byte, the optional ones when present, then the link |
| `AuditWriter.BrowserTextIsServerText` | xazz-server/src/audit_log.rs:98-126 | for every record the browser hashes exactly the bytes the server does |
| `AuditWriter.AuditLog.Append` | xazz-server/src/audit_log.rs:235-262 | one record is added behind the others, with its place, the last hash and its own |
| `AuditWriter.AuditLog.VerifyChain` | xazz-server/src/audit_log.rs:337-346 | the server accepts exactly the logs in which the browser finds no break |
| `AuditWriter.AppendedIsIntact` | xazz-server/src/audit_log.rs:202-262 | every log built by appending is intact for the browser, and each record holds what it was appended with |
| `AuditChain.EncodingDetermines` | visual-ide/src/auditChain.js:16-22 | equal encodings fix every mandatory field, the list of present optional ones and the link; and all fields if and only if the same ones are present |
| `AuditChain.MovedFieldKeepsTheHash` | visual-ide/src/auditChain.js:18-20 | two different records with the same encoding |
| `AuditChain.FindFirstBreak` | visual-ide/src/auditChain.js:28-38 | null exactly for an intact log, otherwise the least bad position and its reason |
| `AuditChain.FirstBreakIsUnique` | visual-ide/src/auditChain.js:28-38 | there is one least bad position and one reason |
| `AuditChain.HeadFixesLog` | visual-ide/src/auditChain.js:28-38 | intact non-empty logs with the same last hash have the same length and the same parts and links throughout |
| `AuditChain.HashesAreDistinct` | visual-ide/src/auditChain.js:28-38 | no two positions of an intact log expect the same link |
| `AuditChain.PrefixIsIntact` | visual-ide/src/auditChain.js:28-38 | every prefix of an intact log is intact |
| `AuditChain.EditIsFound` | visual-ide/src/auditChain.js:28-38 | editing a record's hashed parts is reported as a hash break at that record |
| `AuditChain.RehashedEditIsFound` | visual-ide/src/auditChain.js:28-38 | editing and rehashing a record is reported as a link break at the next one |
| `AuditChain.DeletionIsFound` | visual-ide/src/auditChain.js:28-38 | deleting a record is reported at its position, and is invisible exactly for the last one |
| `AuditChain.SwapIsFound` | visual-ide/src/auditChain.js:28-38 | swapping neighbours is reported as a link break at the first of them |
| `AuditChain.MisplacedIsFound` | visual-ide/src/auditChain.js:28-38 | any selection of records of an intact log, with deletions, repetitions and rearrangements, is reported as a link break at the first record out of place |
| `AuditChain.OnlyPrefixesAreIntact` | visual-ide/src/auditChain.js:28-38 | such a selection is intact if and only if it is a prefix of the log |
| `BenchOracle.Oracle` | benches/benchmark_semantics.py:22-36 | the four stages as filtered rows, sums, the ten largest means and the five largest counts, ties in order of first appearance |
| `BenchTotals.SumsAddUp` | benches/benchmark_semantics.py:27-30 | the sums per station add up to the sum of all values |
| `BenchTotals.CountsAddUp` | benches/benchmark_semantics.py:33 | the counts per station add up to the number of rows |
| `BenchTotals.BoundsAreOpen` | benches/benchmark_semantics.py:25-33 | a row on a bound is not kept, and one without a value is not |
| `BenchScan.ScanCsv` | benches/verify_benchmark_results.py:78-122 | the one-pass scan gives the batch definition of every total, or the first problem row by row |
| `BenchTotals.RefusedExactly` | benches/verify_benchmark_results.py:91-98 | a file is refused exactly for its first row whose date or station is blank or reserved, the date looked at first |
| `BenchScan.SameRanking` | benches/verify_benchmark_results.py:115-122 | breaking ties by name or by appearance gives the same ranked values |
| `BenchScan.CompareWithOracle` | benches/verify_benchmark_results.py:78-122 | on every clean non-empty input scan and oracle agree on row counts, sums, ranked means and counts, and list the same stations except for ties with the last listed mean |
| `BenchTopK.CheckP7` | benches/verify_benchmark_results.py:125-137 | accepts exactly the lists that are the first five of some ordering by descending count |
| `BenchTopK.TopFiveExactly` | benches/verify_benchmark_results.py:125-137 | the row checks together are equivalent to being such a list, any choice among ties at the cutoff included |
| `BenchTopK.OracleIsAccepted` | benches/benchmark_semantics.py:22-36 | the oracle's own list is always accepted |
| `Chunked.FindFrom` | src/http.rs:217-221 | the first occurrence of the needle at or after a position, or none |
| `Chunked.Dechunk` | src/http.rs:191-215 | the loop decodes as the recursive definition does, always in bounds |
| `Chunked.SizeLineParses` | src/http.rs:196-203 | a hexadecimal size with spaces and an extension is read as its value |
| `Utf8.PrintedSizesAreRead` | src/http.rs:198-200 | every size that fits a machine word is read back from its hexadecimal digits in either case, and no larger one |
| `Utf8.LeadingBlanksAreSkipped` | src/http.rs:198-200 | blanks in front of a size line do not count |
| `Utf8.SignsAreRead` | src/http.rs:198-200 | a plus sign in front of the digits does not count; alone, like a minus sign or nothing, it is no size |
| `Utf8.DecodesExactly` | src/http.rs:197 | a size line is text if and only if it is the encoding of that text by section 3 of RFC 3629 |
| `Chunked.DecodingUndoesEncoding` | src/http.rs:191-215 | decoding any list of encoded chunks, payloads with CRLF and extensions included, gives their concatenation |
| `Chunked.TruncationIsRefused` | src/http.rs:191-215 | every input cut before the end of the last-chunk line is refused |
| `ChunkFraming.AcceptedExactly` | src/http.rs:191-215 | a body is returned if and only if the input is pieces of a readable size line, that many bytes and perhaps a CRLF, then a zero line and anything; the body is the pieces' data |
| `ChunkGrammar.RfcBodyDecodesExactly` | src/http.rs:191-215 | a body of section 7.1 of RFC 9112, with its chunk extensions and trailer fields by the grammar, decodes to its payload if every size line is UTF-8 and fits a machine word, and is refused otherwise |
| `ChunkGrammar.RfcFramedExactly` | src/http.rs:191-215 | an accepted input is such a body if and only if it also has what the decoder does not look at: grammatical size lines, a CRLF after each chunk, and an ended trailer section of field lines |
| `ChunkGrammar.UnclosedIsAccepted` | src/http.rs:210-212 | a concrete body without the CRLF after its chunk is accepted |
| `ChunkGrammar.UnendedIsAccepted` | src/http.rs:202-204 | a concrete body that nothing ends is accepted |
| `ChunkGrammar.NamelessIsAccepted` | src/http.rs:198-200 | a concrete body with an extension that has no name is accepted |
| `ChunkReceived.LossyKeepsExactly` | src/http.rs:162 | making bytes into text keeps them if and only if they are UTF-8 |
| `ChunkReceived.BodyIsSplitOff` | src/http.rs:167-170 | the end of the header stays where it is, so the body is made into text on its own |
| `ChunkReceived.TextBodyIsAcceptedExactly` | src/http.rs:191-215 | on text a body of the grammar decodes to its payload unless a size does not fit a machine word |
| `ChunkReceived.TextIsReceivedExactly` | src/http.rs:158-215 | a text sent as any body of the grammar is received intact if and only if every chunk holds whole characters and its size fits, whatever the extensions and the trailer hold |
| `ChunkReceived.SplitCharacterIsLost` | src/http.rs:158-215 | a concrete body of the grammar with a two-byte character split between its chunks is refused |
| `ChartStats.QuantileMonotone` | visual-ide/src/chartStats.js:15-20 | quantiles grow with p and stay within the data |
| `ChartStats.FencesHoldAPoint` | visual-ide/src/chartStats.js:23-41 | some datum always lies within the fences, so the whisker range is never empty |
| `ChartStats.FiveNumberMeans` | visual-ide/src/chartStats.js:23-41 | min ≤ q1 ≤ median ≤ q3 ≤ max, whiskers are the extremes of the points within the fences, and these and the outliers partition the data |
| `ChartQuartiles.MedianIsTheMiddle` | visual-ide/src/chartStats.js:34 | twice the median is the sum of the two middle values, the same one twice when their number is odd |
| `ChartQuartiles.QuartilesInterpolate` | visual-ide/src/chartStats.js:15-36 | the outer quartiles lie between neighbouring order statistics, by quarters |
| `ChartQuartiles.QuartilesSplitTheData` | visual-ide/src/chartStats.js:23-41 | at least a quarter of the data is at or below q1, half on either side of the median and a quarter at or above q3 |
| `ChartStats.LowWhiskerReachesTheBox` | visual-ide/src/chartStats.js:23-41 | the low whisker reaches q1 if and only if the datum just below q1 is within the fence |
| `ChartStats.HighWhiskerReachesTheBox` | visual-ide/src/chartStats.js:23-41 | the high whisker reaches q3 if and only if the datum at or just above q3 is within the fence |
| `ChartStats.WhiskersOutsideTheBox` | visual-ide/src/chartStats.js:23-41 | the summaries of two data sets, one with its low whisker above q1 and one with its high whisker below q3 |
| `ChartStats.BinCount` | visual-ide/src/chartStats.js:47 | the default number of bins is one more than the least exponent whose power of two reaches n |
| `ChartStats.BinIsUnique` | visual-ide/src/chartStats.js:47-61 | the computed index is the one bin whose interval holds the value |
| `ChartStats.Histogram` | visual-ide/src/chartStats.js:47-61 | bins tile the range, each count is the number of values in its bin, and the counts sum to n |
| `SchemaInference.MergeIsJoin` | src/schema.rs:46-58 | merging is the least upper bound of the type order |
| `SchemaInference.CellIsExact` | src/schema.rs:21-34 | a cell reads at a type if and only if its inferred type is below it |
| `CellKinds.IntegersInPrint` | src/schema.rs:28-30 | a printed integer, signed or not, is an integer cell if and only if it fits 64 bits, and always a number |
| `CellKinds.FractionsInPrint` | src/schema.rs:31-33 | a printed fraction is a number, with an exponent or nothing after it, and no integer |
| `CellKinds.BlankExactly` | src/schema.rs:217-221 | a cell is blank, and has no type, if and only if it holds nothing but white space |
| `CellKinds.PaddedCellsReadTheSame` | src/schema.rs:21-22 | white space around a value does not count for its type |
| `SchemaInference.ColumnIsExact` | src/schema.rs:211-238 | every cell reads at the column type, and it is the least type with that property |
| `SchemaInference.ColumnSplits` | src/schema.rs:211-238 | inferring over A followed by B is merging the inferences over A and B |
| `SchemaInference.OrderDoesNotMatter` | src/schema.rs:211-238 | a permutation of the rows gives the same type and nullability |
| `SchemaInference.InferColumns` | src/schema.rs:178-238 | the column loop computes that type of the first hundred records, nullable exactly when a blank was seen |
| `Subtitles.WriteSrt` | demo/make_video.py:383-387 | numbered blocks from 1, separated by blank lines |
| `Subtitles.ReadSrt` | demo/make_voice.py:44-67 | the line loop parses as the recursive definition does, failing where a block has fewer than two times |
| `SubtitleStamps.TimeLineParses` | demo/make_voice.py:41-60 | a printed time line is found to hold exactly its two times |
| `SubtitleStamps.TimeIsExact` | demo/make_video.py:375-380 | a time in whole milliseconds is read back exactly if and only if it is below 100 hours |
| `SubtitleStamps.RoundIsNearest` | demo/make_video.py:375-376 | a time is rounded to the nearest millisecond, halves to the even one |
| `SubtitleStamps.TimeIsNearest` | demo/make_video.py:375-380 | any time below 100 hours is read back to the nearest millisecond |
| `SubtitleFiles.FileParses` | demo/make_voice.py:44-67 | every written file parses, whatever the times, one cue per block with its text on one line |
| `SubtitleFiles.FileSplits` | demo/make_video.py:383-387 | a reader of lines finds the number, the time line and the text of each block, with one blank line between blocks |
| `SubtitleFiles.LinesAreTrimmed` | demo/make_voice.py:44-67 | a block is read alike however its text lines are padded, and the cue has the trimmed lines joined by blanks |
| `SubtitleFiles.RoundTrip` | demo/make_video.py:375-387 | for trimmed one-line texts and whole milliseconds, parsing the written file gives the cues back if and only if all times are below 100 hours |

## Left out

- MissingColumns.MissingColumnsAreExact: aggregates, `groupBy`, `corr`, `join` and `predict` operators are outside it, since the checker keeps all columns after grouping, never adds a join partner's, and does not look at the columns a model was trained on.
- Preservation.StepMeansOperator: neither interpreter refuses a non-positive `take`, an oversized `sample`, an unknown cast type, a `select` that names a column twice or a rename onto an existing column, where the cited runtime or polars under it does; both run them.
- LineageTruth.LineageIsTrue: one level deep, as the catalog records it; aggregates, histograms, joins and predictions are outside it, since they make no row from one row, and fresh renames are required.
- Trackers.CatalogListsTheOutput: for the whole pipeline alone the guard is sufficient; it is exact when every prefix is asked (`Trackers.EveryPrefixListsItsOutputExactly`), since a later `select` or `histogram` can hide an earlier disagreement.
- Warnings (non-numeric aggregates and targets, output dimension, division by zero, large ε, ignored options) are not modelled; neither are diagnostic texts, spans and did-you-mean hints.
- Of a training configuration only the fields that static checks read are kept.
- Aggregates, joins, prediction, noise and loading are arbitrary functions of the engine; type bridging on load is part of loading.
- Null and arithmetic type soundness of inferred expression types is not claimed.
- Meanings.HistogramAccountsForRows: for columns of integers, since the runtime leaves nulls and non-finite values out of every bin.
- Reals stand for floating point: IEEE rounding, infinities and NaN outside `DpFrames` are not modelled, and sums are exact, so Kahan compensation stays zero.
- Logarithm, square root and cosine are functions with the sign facts the code needs; SHA-256 is an injective function that never yields "GENESIS".
- The environment, clocks and random seeds are parameters; budget construction from the environment is left out.
- CSV parsing, sockets, HTTP status lines and headers, file digests and sizes are left out; the scan starts from parsed rows and the chunked body from its bytes.
- File locks, the JSON lines of the audit log and its reading back are left out; a log is the sequence of its records, and texts are hashed as the bytes they are made of.
- The benchmark verifier's log checks, self test and row-count comparison are left out.
- Unicode digits and universal newlines in subtitle files are left out: digits are ASCII and lines end as the writer ends them.
- `quantile` on empty data and histograms with fewer than one bin are undefined in the source and not modelled.
- The parser, lexer, optimiser, policy engine, server, code generator and user interfaces are not part of this model.
