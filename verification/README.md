# Verified models of the concurrent, migration and load-test code

Dafny models of the parts of the repository where loops, worklists, interleavings and sequences of
statements change shared state, with proofs of what they keep and what they end in. `dafny verify
dfyconfig.toml` checks everything.

| module | models |
|---|---|
| QuestionTasks, QuestionRunner, QuestionReplies, AnswerFile, AnswerResume, PrintedRecords | the benchmark question runner: coroutines sharing a semaphore, two locks, counters and an append-only file; resuming from that file after crashes |
| MigrationPool, MigrationEvents, MigrationRunner, SchemaArgs, TenantRange | the parallel multi-tenant migration runner, its worker threads, monitor and child processes, and the arguments between them |
| OpenApi, OpenApiTransform, OpenApiInternal | pruning the OpenAPI document for publication: what is kept, what the clean-up removes and what survives it |
| DriveUrls, SqlText, DriveIds, DriveChunks, DriveReferences, DriveLosses, DriveMigration | canonical Google Drive ids, the copy-and-swap rename to them, and what the deletion of duplicates does to every table |
| KgTriggers | the triggers that keep a name cached in entity rows |
| MockStream, MockTools, MockChoice | the mock LLM: its streamed replies against a reassembling client, its tool chooser over whole conversations and what it picks for each request |
| StreamParser, ChatUser | the load-test client: the incremental stream analyser and the session kept between turns |
| EnvVisitor, EnvDuplicates | the syntax-tree visitor of the environment inventory, and its report of constants assigned twice |
| WikiZips, BatchLoops | batched loops whose ending needs a counting argument |
| Outcomes, Text, Counting, Lists | results, Python string operations, sizes and division, leaving elements out of a list |

Each stateful routine is a method or a class in the form of the source, proved against a function
or relation on values; the theorems are about those. What the environment decides (which coroutine
or thread moves, what a server answers, which rows a LIMIT picks, whether an upgrade succeeds) is a
parameter or an unconstrained choice, so every statement holds for all of it. Schedules are sequences
of atomic steps of any length.

Where the code and its documentation disagree, the model follows the code:

- the range bounds of `filter_tenants_by_range` are documented as counted from one and inclusive; the
  code takes a half-open slice from zero, and a negative end counts from the back (`TenantRange.RangeIsZeroBased`);
- `find_duplicate_assignments` says it merges assignments on one line; the code merges by the
  identity of the statement, so two statements on one line are reported (`EnvDuplicates.ReportsAgreeIff`);
- the chunk pattern `id__%` is meant as a separator, but underscores are wildcards of LIKE, those of
  the id included (`SqlText.ChunkPatternTakes`, `DriveIds.DeleteReachesOtherDocuments`);
- the clean-up of OpenAPI schemas is documented as recursive, but never goes into the values of
  `properties` or of keywords it does not know (`OpenApiInternal.SurvivesIff`);
- the deletion of a duplicate document is said to remove all references first; it deletes entities before
  the relationships that name them, and forgets the personas that use a file (`DriveReferences.DeletionAcceptedIff`);
- the monitor is said to list batches still running; a batch whose worker raised stays listed
  (`MigrationPool.CrashedStaysInTable`).

Properties that fail as first expected are stated with the exact condition under which they hold:
`AnswerResume.NextWorkIsTheFailures`, `AnswerResume.CleanStartIff`, `TenantRange.RangeIsZeroBased`,
`OpenApiTransform.StableIff`, `OpenApiInternal.SurvivesIff`, `DriveUrls.NormalizingTwice`, `DriveIds.UniqueIff`,
`DriveIds.CanonicalSurvivesIff`, `DriveIds.DeleteReachesOtherDocuments`, `DriveChunks.RenameKeepsStepIff`,
`DriveReferences.DeletionAcceptedIff`, `DriveLosses.LoopAcceptedIff`, `StreamParser.AnswerDeniedIff`,
`MigrationPool.FalseThoughMigratedIff`, `EnvDuplicates.ReportsAgreeIff`, `BatchLoops.UserFileTables.FillReferences`.

## Model

| member | source | states |
|---|---|---|
| `QuestionRunner.StepKeepsInv` | core/backend/scripts/run_enterpriserag_bench_questions.py:539-640 | Every atomic step of any coroutine keeps the invariant tying permits, counters, file lines and failures to where the coroutines stand, and brings the run closer to its end. |
| `QuestionRunner.PlayKeepsInv` | core/backend/scripts/run_enterpriserag_bench_questions.py:489-644 | The invariant holds in every state any schedule can reach, and no schedule is longer than 14 steps per question. |
| `QuestionRunner.EveryInterleaving` | core/backend/scripts/run_enterpriserag_bench_questions.py:489-644 | At each moment of every interleaving: at most `parallelism` requests in flight, completed is successful plus failed, lines are at least successful, no question is written or failed twice; and the run can only come to rest with every question written once or failed once, within three attempts. |
| `QuestionRunner.NeverStuck` | core/backend/scripts/run_enterpriserag_bench_questions.py:548-588 | While a question is unfinished some coroutine can move: the permit is back before the retry pause, so waiting coroutines never block each other for good. |
| `QuestionReplies.EndsAsReplied` | core/backend/scripts/run_enterpriserag_bench_questions.py:560-632 | How each coroutine ended, told from the replies its requests got: answered with a text if and only if the last reply is that answer and the ones before are timeouts, failed with an error likewise, given up if and only if there were exactly three replies, all timeouts. |
| `QuestionReplies.FileIsReplies` | core/backend/scripts/run_enterpriserag_bench_questions.py:610-632 | When all have returned, the file holds each record, text included, once for each coroutine of that id whose requests ended with that answer. |
| `QuestionReplies.FailuresAreReplies` | core/backend/scripts/run_enterpriserag_bench_questions.py:577-608 | And the failures hold each error once for each coroutine whose requests ended with it or timed out three times. |
| `QuestionReplies.RestIsReplied` | core/backend/scripts/run_enterpriserag_bench_questions.py:570-588 | At rest all have returned and the stuck counter is the number of requests that timed out. |
| `QuestionRunner.FinishedIsSettled` | core/backend/scripts/run_enterpriserag_bench_questions.py:610-640 | When all coroutines have returned, each question has exactly one line or one failure, and giving up took exactly three requests. |
| `QuestionRunner.AnswerRun.Resume` | core/backend/scripts/run_enterpriserag_bench_questions.py:539-640 | Running a coroutine to its next suspension point changes the shared state exactly as the step relation says, which `QuestionReplies` describes by the replies: after a timeout the question is asked again, up to the third time. |
| `QuestionRunner.AnswerRun.Gather` | core/backend/scripts/run_enterpriserag_bench_questions.py:642-644 | Gathering all coroutines terminates under every scheduler and server, settles every question and ends where some schedule ends at rest, so that all that is proved of schedules holds of it. |
| `QuestionRunner.GenerateAnswers` | core/backend/scripts/run_enterpriserag_bench_questions.py:444-644 | A parallelism below one is refused before anything runs; otherwise the run settles, was safe, and is one of the schedules. |
| `AnswerFile.LoadCompletedQuestionIds` | core/backend/scripts/run_enterpriserag_bench_questions.py:131-149 | The ids loaded are exactly those some line of the file gives as a non-empty string; a JSON value that is not an object makes the loader raise. |
| `AnswerFile.ReadIdIs` | core/backend/scripts/run_enterpriserag_bench_questions.py:137-147 | What one line gives: an id exactly when it is not blank and parses to an object with that non-empty id; it raises exactly on a broken character or a value that is no object. |
| `AnswerFile.PlanRun` | core/backend/scripts/run_enterpriserag_bench_questions.py:691-704 | The work list is the considered questions without a loaded id, in order; skipped plus remaining is what was considered; a limit below one is an error. |
| `AnswerFile.RemainingPicks` | core/backend/scripts/run_enterpriserag_bench_questions.py:703-703 | The questions left are those without a loaded id, as often and in the order in which they stand in the list. |
| `AnswerFile.LoadedIsRecorded` | core/backend/scripts/run_enterpriserag_bench_questions.py:131-149 | For any file built by appends and torn writes, the ids its lines give are exactly those of complete records alone on a line. |
| `AnswerFile.LoadableIff` | core/backend/scripts/run_enterpriserag_bench_questions.py:131-149 | The loader raises on such a file exactly when some write was torn inside a character. |
| `AnswerFile.TornCharacterIff` | core/backend/scripts/run_enterpriserag_bench_questions.py:131-149 | So after any history of runs and crashes it raises exactly when some crash tore a character in two. |
| `PrintedRecords.JsonLikeIsPossible` | core/backend/scripts/run_enterpriserag_bench_questions.py:613-614 | The assumption about printing and parsing records is consistent: a printer and a parser that meet it are given. |
| `AnswerFile.CleanRunRecords` | core/backend/scripts/run_enterpriserag_bench_questions.py:612-615 | What a run adds to the loadable ids: all it wrote, unless it began on a torn line, which swallows its first record. |
| `AnswerFile.HistoryIsSound` | core/backend/scripts/run_enterpriserag_bench_questions.py:612-632 | Over any sequence of runs and crashes a question is skipped only if some run wrote a complete record for it. |
| `AnswerFile.ClosedLinesSurvive` | core/backend/scripts/run_enterpriserag_bench_questions.py:470-470 | Lines that got their newline are never lost by later runs or crashes. |
| `AnswerResume.NextWorkIsTheFailures` | core/backend/scripts/run_enterpriserag_bench_questions.py:696-704 | For every question file and every settled end of a run, the next work list is exactly the failed questions if and only if no failed id has an answer standing, the first answer of a run that began on a torn line is not missed, and the torn line was not the complete record of a question. |
| `AnswerResume.DistinctWorkIff` | core/backend/scripts/run_enterpriserag_bench_questions.py:696-704 | When no id is asked twice, as with distinct ids in the question file, that is: if and only if the run did not start on a torn line or wrote nothing. |
| `AnswerResume.CleanStartIff` | core/backend/scripts/run_enterpriserag_bench_questions.py:152-184 | From a file without torn line, every run leaves exactly its failures to the next if and only if no id is to be asked twice; the question file may repeat ids. |
| `AnswerResume.RepeatedIsMissed` | core/backend/scripts/run_enterpriserag_bench_questions.py:152-184 | With a repeated id there is a run that fails it and is followed by one that does not ask it. |
| `AnswerResume.EveryOutcomeHappens` | core/backend/scripts/run_enterpriserag_bench_questions.py:539-644 | Every pattern of answers and failures is the outcome of some run of the coroutines. |
| `AnswerResume.TornStartHappens` | core/backend/scripts/run_enterpriserag_bench_questions.py:470-470 | A run can start on a torn line that is a complete record; the next write then loses that answer too. |
| `AnswerResume.TornLineCostsAnAnswer` | core/backend/scripts/run_enterpriserag_bench_questions.py:470-470 | Started on a torn line, the run's first answer is not seen and its question is asked again, unless a later line of the run has it; with distinct ids it always is, although it did not fail. |
| `SchemaArgs.ReadXArgs` | core/backend/alembic/env.py:112-119 | The loop over the raw arguments gives the dictionary of stripped keys and values split at the first `=`, or raises on an argument without one. |
| `SchemaArgs.GetSchemaOptions` | core/backend/alembic/env.py:109-202 | Raises exactly on an argument without `=` or a refused combination; otherwise every option is told from the arguments. |
| `SchemaArgs.ErrIffRefused` | core/backend/alembic/env.py:127-196 | Refused are exactly: a bound that is no number, crossed bounds, a range or all tenants together with a non-blank name, and in multi-tenant mode none of the three. |
| `SchemaArgs.OkIsDecided` | core/backend/alembic/env.py:152-202 | Accepted options never hold tenants and names at once, a range implies all tenants, bounds are in order, and in multi-tenant mode there are all tenants or some names. |
| `SchemaArgs.BatchRoundTrip` | core/backend/alembic/run_multitenant_migrations.py:65-91 | The child migrates exactly the batch the parent printed, in order, if and only if the batch is not empty and each name is non-empty, without comma and without outer white space; names may hold `=`. |
| `SchemaArgs.NamesPick` | core/backend/alembic/env.py:157-163 | The names given are the stripped parts of the argument that are not empty, in order. |
| `TenantRange.FilterTenantsByRange` | core/backend/alembic/env.py:60-106 | Without bounds the list itself; otherwise the input, in order, with the tenants outside the chosen slice left out. |
| `TenantRange.FilterPicks` | core/backend/alembic/env.py:100-106 | Leaving names out of a list leaves the others as often and in the order in which they stand there. |
| `TenantRange.LessIff` | core/backend/alembic/env.py:83-87 | The order of tenants is decided at the first character where two names differ, or by which one ends. |
| `TenantRange.ChosenByRank` | core/backend/alembic/env.py:77-98 | A tenant is taken exactly when its alphabetical rank lies in the half-open range counted from zero. |
| `TenantRange.RankIsAPosition` | core/backend/alembic/env.py:83-87 | Ranks number the tenants from zero without repetition. |
| `TenantRange.AdjacentRangesPartition` | core/backend/alembic/env.py:89-106 | Ranges (a, b) and (b, c) split the tenants of (a, c) into two disjoint parts, and every other schema goes to both. |
| `TenantRange.FilterIsSubsequence` | core/backend/alembic/env.py:100-106 | The result is the input with some positions left out, in order. |
| `TenantRange.RangeIsZeroBased` | core/backend/alembic/env.py:68-69 | The tenants taken are those of the documented reading, counted from one with both bounds included, exactly when the start bound names no existing tenant up to the end bound, or for a negative end when nothing is left to take. |
| `TenantRange.FirstTenantIsSkipped` | core/backend/alembic/env.py:68-69 | An instance: with two tenants and the bounds 1 and 2 the first is left out. |
| `MigrationRunner.CutIntoBatches` | core/backend/alembic/run_multitenant_migrations.py:117-117 | The batches in order are the schema list, all full but the last, none empty. |
| `MigrationRunner.BatchCount` | core/backend/alembic/run_multitenant_migrations.py:117-118 | Their number is the ceiling of schemas by batch size. |
| `MigrationRunner.MigrateEach` | core/backend/alembic/env.py:291-313 | A child without `continue` stops at the first failure and exits non-zero; with it every schema is tried and each whose upgrade succeeds is at head. |
| `MigrationRunner.ChildEndsAsItsLoop` | core/backend/alembic/env.py:291-313 | The pool's steps of a child that is not killed end as the loop over its schemas does, with the same schemas at head. |
| `MigrationPool.StepKeepsInv` | core/backend/alembic/run_multitenant_migrations.py:131-205 | Every step of a worker, the collector or the monitor keeps the invariant linking phases, in-flight table, results and heads. |
| `MigrationPool.TrueMeansMigrated` | core/backend/alembic/run_multitenant_migrations.py:57-97 | For every schedule: the result is True exactly when every first child exited cleanly, and then every schema is at head; after a failed batch's retry each schema whose own upgrade succeeded is at head. |
| `MigrationPool.HeadIsHistory` | core/backend/alembic/run_multitenant_migrations.py:57-97 | For every schedule: what is at head was there before or was brought there by a step of some child. |
| `MigrationPool.FailureIsHistory` | core/backend/alembic/run_multitenant_migrations.py:57-97 | A batch counts as failed exactly when some event of the schedule ended its first child badly: a failed upgrade, a killed child, or a worker that raised. |
| `MigrationEvents.FailedBatchRanTwice` | core/backend/alembic/run_multitenant_migrations.py:65-97 | For every schedule, a batch that failed had exactly two children: the first upgraded some schemas and ended badly, by a failed upgrade or by being killed, and the second began anew and tried schemas one by one, all of them unless it was killed too. |
| `MigrationEvents.GoodBatchRanOnce` | core/backend/alembic/run_multitenant_migrations.py:65-79 | A batch that succeeded had exactly one child, which upgraded every schema of the batch and ended by itself. |
| `MigrationEvents.SecondChildBegins` | core/backend/alembic/run_multitenant_migrations.py:76-91 | Right after an event that ended a first child badly, other than an exception in the worker, a second child stands at the beginning of the batch. |
| `MigrationEvents.SecondChildMigrates` | core/backend/alembic/run_multitenant_migrations.py:88-97 | If the second child is not killed, it tried every schema of the batch and those whose upgrade succeeded are at head. |
| `MigrationEvents.BringsIff` | core/backend/alembic/env.py:291-313 | An event brings a schema to head exactly when it is a successful upgrade of the schema that the child of its worker had come to. |
| `MigrationPool.FalseThoughMigratedIff` | core/backend/alembic/run_multitenant_migrations.py:80-97 | The result is False although every schema is at head if and only if some event of the schedule ended a first child badly and every schema was at head before or was brought there by some event. |
| `MigrationPool.FalseMayStillBeMigrated` | core/backend/alembic/run_multitenant_migrations.py:80-97 | So it can be: a schedule in which the retry repairs the only failure. |
| `MigrationPool.InTableIsAnInterval` | core/backend/alembic/run_multitenant_migrations.py:164-174 | A batch present at two moments was in the in-flight table throughout: it enters and leaves at most once. |
| `MigrationPool.ReportedSinceLastTick` | core/backend/alembic/run_multitenant_migrations.py:137-156 | A batch the monitor reports was in the table at every moment since the previous tick, and was running all that time if and only if its worker has not crashed. |
| `MigrationPool.ReportedIff` | core/backend/alembic/run_multitenant_migrations.py:137-156 | A tick reports a batch if and only if it was in the table at this tick and at the one before. |
| `MigrationPool.CrashedStaysInTable` | core/backend/alembic/run_multitenant_migrations.py:164-174 | A worker that raises leaves its entry in the table for good. |
| `MigrationPool.StepDropsRank` | core/backend/alembic/run_multitenant_migrations.py:161-205 | Every event but a tick brings the run closer to its end. |
| `MigrationPool.NeverStuck` | core/backend/alembic/run_multitenant_migrations.py:161-205 | While a result is missing, a worker or the collector can move. |
| `MigrationPool.MigrationRun.Advance` | core/backend/alembic/run_multitenant_migrations.py:164-174 | One step of a worker thread changes the shared state as the step relation says, which `MigrationEvents` describes by what happened to the children: whatever ends the first one badly, a second one runs. |
| `MigrationPool.MigrationRun.MonitorTick` | core/backend/alembic/run_multitenant_migrations.py:137-156 | A tick reports the batches present now and at the tick before, and remembers the present ones. |
| `MigrationPool.MigrationRun.Drain` | core/backend/alembic/run_multitenant_migrations.py:180-205 | Collecting all futures terminates for every order of events, with every result in and in a state that some schedule leads to. |
| `MigrationRunner.RunMigrationsParallel` | core/backend/alembic/run_multitenant_migrations.py:107-210 | Every batch's result is collected, and the run is one of the schedules; True exactly when every first child exited cleanly, and then every schema of the list is at head; no schema ever leaves head. |
| `OpenApi.CollectSchemaRefs` | core/backend/scripts/transform_openapi_for_docs.py:21-32 | Adds exactly the schema names a value refers to, at any depth. |
| `OpenApi.RefsIff` | core/backend/scripts/transform_openapi_for_docs.py:21-32 | A name is referred to exactly when some dictionary at some depth of the value has a `$ref` whose text ends in it behind the last slash. |
| `OpenApi.GetAllReferencedSchemas` | core/backend/scripts/transform_openapi_for_docs.py:35-55 | The worklist ends, cycles or not, with exactly the names reachable from the start. |
| `OpenApi.ReachableIsLeast` | core/backend/scripts/transform_openapi_for_docs.py:35-55 | Reachability by paths is the least set that holds the start and is closed under the references of defined schemas. |
| `OpenApi.RemoveInternalProperties` | core/backend/scripts/transform_openapi_for_docs.py:58-86 | The step-by-step clean-up of a schema tree gives the cleaned tree, which `OpenApiInternal` is about. |
| `OpenApi.CleaningOnlyRemovesRefs` | core/backend/scripts/transform_openapi_for_docs.py:58-86 | Cleaning never adds a reference. |
| `OpenApi.CleaningIsIdempotent` | core/backend/scripts/transform_openapi_for_docs.py:58-86 | Cleaning a cleaned schema changes nothing. |
| `OpenApiInternal.NothingInternalVisited` | core/backend/scripts/transform_openapi_for_docs.py:58-86 | No schema the clean-up goes to is left with an internal property, or an internal name in the list of required ones beside its properties. |
| `OpenApiInternal.SurvivesIff` | core/backend/scripts/transform_openapi_for_docs.py:58-86 | An internal name survives, at whatever depth of the value, if and only if a schema the clean-up goes to has one in a part that it spares: the value of an external property, or what stands under a keyword it does not look at. |
| `OpenApiInternal.PublishedSchemas` | core/backend/scripts/transform_openapi_for_docs.py:89-106 | So a published schema holds an internal name if and only if its original has one in such a part. |
| `OpenApiInternal.PropertiesKept` | core/backend/scripts/transform_openapi_for_docs.py:63-66 | Exactly the external properties stay, with the values they came with. |
| `OpenApiInternal.SchemasAreClean` | core/backend/scripts/transform_openapi_for_docs.py:58-86 | What stays of a published schema, key by key and at every schema the clean-up goes to: the external properties, the external required names in order as long as there are any, and every key it does not look at, each with its value. |
| `OpenApiInternal.NestedTenantSurvives` | core/backend/scripts/transform_openapi_for_docs.py:59-66 | `tenant_id` of a nested property is published, although the clean-up is documented as recursive. |
| `OpenApiInternal.UnknownKeywordSurvives` | core/backend/scripts/transform_openapi_for_docs.py:58-86 | Under any other keyword `tenant_id` is published. |
| `OpenApiInternal.PrefixItemsSurvive` | core/backend/scripts/transform_openapi_for_docs.py:58-86 | So it is for the elements of `prefixItems`. |
| `OpenApiInternal.EndpointsAreClean` | core/backend/scripts/transform_openapi_for_docs.py:91-146 | A published endpoint lists exactly the external parameters of its original, in order and never as an empty list, asks for the bearer token where it had security of its own, and keeps every other key with its value, a value of `parameters` that is no list included. |
| `OpenApiInternal.PublicIff` | core/backend/scripts/transform_openapi_for_docs.py:134-139 | An endpoint is public exactly when `public` is an element of its list of tags, a key of it, or a part of it when it is a text. |
| `OpenApiTransform.TransformOpenApi` | core/backend/scripts/transform_openapi_for_docs.py:108-160 | The loops over paths and schemas give the transformed document; `EndpointsAreClean` and `SchemasAreClean` say what each part of it keeps. |
| `OpenApiTransform.RefsStillResolve` | core/backend/scripts/transform_openapi_for_docs.py:89-160 | Every schema reference left in the output that resolved in the input still resolves. |
| `OpenApiTransform.KeptIsReachable` | core/backend/scripts/transform_openapi_for_docs.py:131-156 | A schema is kept exactly when it is defined and reachable from a public endpoint of the input; an endpoint exactly when it is public, a path exactly when it has one; versions stay, or get their defaults. |
| `OpenApiTransform.StableIffNoOrphans` | core/backend/scripts/transform_openapi_for_docs.py:108-160 | A second pass changes nothing exactly when the first left no orphaned schema. |
| `OpenApiTransform.StableIff` | core/backend/scripts/transform_openapi_for_docs.py:108-160 | Publishing twice is publishing once if and only if every defined schema that the public endpoints lead to is still led to when all endpoints and schemas of the input are cleaned. |
| `OpenApiTransform.SecondPassHasNoOrphans` | core/backend/scripts/transform_openapi_for_docs.py:108-160 | The second pass leaves no orphans. |
| `OpenApiTransform.ThirdPassChangesNothing` | core/backend/scripts/transform_openapi_for_docs.py:108-160 | A third pass changes nothing after the second. |
| `OpenApiTransform.FirstPassMayLeaveOrphans` | core/backend/scripts/transform_openapi_for_docs.py:152-158 | A document whose first pass keeps a schema that only a deleted property referred to, and whose second pass drops it. |
| `DriveUrls.NormalizeGoogleDriveUrl` | core/backend/alembic/versions/12635f6655b7_drive_canonical_ids.py:74-85 | The result is printed from a url without query, with the segments of the given path but for one trailing view segment, and otherwise the same parts. |
| `DriveUrls.SplitOfWritten` | core/backend/alembic/versions/12635f6655b7_drive_canonical_ids.py:74-85 | How a url with a host is taken apart: at the first colon, the slashes, the first `#` and the first `?`, with the scheme in lower case. |
| `DriveUrls.NormalizingTwice` | core/backend/alembic/versions/12635f6655b7_drive_canonical_ids.py:74-85 | Printed and parsed again, a canonical id normalises to itself exactly when the original path does not end in a view segment below one that is a view segment up to its first semicolon, or whose last semicolon is followed by nothing. |
| `DriveUrls.SplitOfNormal` | core/backend/alembic/versions/12635f6655b7_drive_canonical_ids.py:74-85 | Split again, a canonical id has the scheme, host and fragment of its url, no query, and the tidied path, with a slash in front where the printer adds one. |
| `DriveUrls.HiddenView` | core/backend/alembic/versions/12635f6655b7_drive_canonical_ids.py:74-85 | A view segment with parameters hidden below another one goes only in the second pass. |
| `SqlText.ChunkPatternTakes` | core/backend/alembic/versions/12635f6655b7_drive_canonical_ids.py:478-481 | For every id: the chunk pattern takes exactly the keys whose front the id matches as a pattern and that go on by two characters; an id ending in a lone backslash quotes the first underscore. |
| `SqlText.ChunkPatternMatches` | core/backend/alembic/versions/12635f6655b7_drive_canonical_ids.py:478-481 | For an id without percent sign and backslash these are the keys that begin with the id, read with each of its underscores as any character. |
| `SqlText.ReplaceLeftmost` | core/backend/alembic/versions/12635f6655b7_drive_canonical_ids.py:249-262 | Replacing takes the leftmost occurrence and goes on behind it. |
| `DriveIds.SwapStaysIntact` | core/backend/alembic/versions/12635f6655b7_drive_canonical_ids.py:129-248 | After each statement of a rename no row of a table with a foreign key names a missing document, and the two tables without one (search_doc, user_file) are right if they were. |
| `DriveIds.RenameStaysIntact` | core/backend/alembic/versions/12635f6655b7_drive_canonical_ids.py:129-270 | So it is after the chunk keys are rewritten and the old document is dropped. |
| `DriveIds.RenameConservesRows` | core/backend/alembic/versions/12635f6655b7_drive_canonical_ids.py:164-262 | A rename keeps every row of every table and changes only the document a row of the old one names, and matching chunk keys. |
| `DriveIds.RenameConservesDocuments` | core/backend/alembic/versions/12635f6655b7_drive_canonical_ids.py:129-270 | The document is stored under the new id with the old content, and all others are unchanged. |
| `DriveIds.ClearStaysIntact` | core/backend/alembic/versions/12635f6655b7_drive_canonical_ids.py:392-476 | After each statement of a deletion likewise, and no link names a missing search_doc row. |
| `DriveIds.DeleteRemoves` | core/backend/alembic/versions/12635f6655b7_drive_canonical_ids.py:387-492 | Exactly which rows a deletion removes from the ten tables: those of the document, and chunk rows whose key matches the pattern; the links are in `DeletedLinks`. |
| `DriveIds.DeletedLinks` | core/backend/alembic/versions/12635f6655b7_drive_canonical_ids.py:394-413 | And which links to search_doc rows, in both tables: a link stays if and only if its row names another document or none, and then keeps its target. |
| `DriveIds.DeleteReachesOtherDocuments` | core/backend/alembic/versions/12635f6655b7_drive_canonical_ids.py:478-481 | A row of another document is lost if and only if it is a chunk row whose key the pattern takes. |
| `DriveIds.ExtensionsLoseTheirChunks` | core/backend/alembic/versions/12635f6655b7_drive_canonical_ids.py:478-481 | Deleting a document takes the chunk rows of every document whose id extends its id. |
| `DriveIds.StrangersLoseTheirChunks` | core/backend/alembic/versions/12635f6655b7_drive_canonical_ids.py:478-481 | With an underscore in the id, chunk rows of documents whose ids only look alike go too. |
| `DriveChunks.RenameKeepsStepIff` | core/backend/alembic/versions/12635f6655b7_drive_canonical_ids.py:249-262 | A rename leaves the key of a chunk row in step with its document if and only if, for the renamed document, the pattern takes the key and the id does not occur in its number part, and for any other document the pattern leaves the key alone or finds nothing to replace. |
| `DriveChunks.UrlKeysFollow` | core/backend/alembic/versions/12635f6655b7_drive_canonical_ids.py:249-262 | For ids such as urls, with some character besides digits and underscores and no backslash, the document's own keys follow. |
| `DriveChunks.ExtensionsGetWrongKeys` | core/backend/alembic/versions/12635f6655b7_drive_canonical_ids.py:249-262 | The keys of a document whose id extends the renamed one are rewritten although it is not renamed. |
| `DriveReferences.ClearedReferencesIff` | core/backend/alembic/versions/12635f6655b7_drive_canonical_ids.py:392-476 | After each statement of a deletion, exactly when all foreign keys hold, those of relationships to entities and of personas to user files included. |
| `DriveReferences.DeletionAcceptedIff` | core/backend/alembic/versions/12635f6655b7_drive_canonical_ids.py:388-488 | The foreign keys let every statement of a deletion through if and only if no persona uses a file of the document and no relationship, not even its own, names an entity of it: entities are deleted before relationships. |
| `DriveReferences.DeletedReferencesIff` | core/backend/alembic/versions/12635f6655b7_drive_canonical_ids.py:388-488 | Once it is through they all hold if and only if no persona uses a file of the document and no relationship of another document names an entity of it. |
| `DriveReferences.RenameKeepsReferences` | core/backend/alembic/versions/12635f6655b7_drive_canonical_ids.py:129-270 | After each statement of a rename all of them hold. |
| `DriveReferences.RelationshipBlocks` | core/backend/alembic/versions/12635f6655b7_drive_canonical_ids.py:449-464 | A database in which a relationship names an entity of the document: the deletion is refused, and would leave the relationship of another document without nodes. |
| `DriveReferences.PersonaBlocks` | core/backend/alembic/versions/12635f6655b7_drive_canonical_ids.py:442-445 | And one in which a persona uses a file of the document. |
| `DriveLosses.LoopRow` | core/backend/alembic/versions/12635f6655b7_drive_canonical_ids.py:524-551 | What the loop makes of every row of every table but chunk_stats: gone with its document, or kept under the id where the document ends up, told from the list. |
| `DriveLosses.LoopLinks` | core/backend/alembic/versions/12635f6655b7_drive_canonical_ids.py:524-551 | After the whole loop a link stays, with its target, if and only if its search_doc row is not gone. |
| `DriveLosses.LoopReferencesIff` | core/backend/alembic/versions/12635f6655b7_drive_canonical_ids.py:524-551 | After the loop all foreign keys hold if and only if it loses no user file that a persona uses and no entity without its relationships. |
| `DriveLosses.LoopAcceptedIff` | core/backend/alembic/versions/12635f6655b7_drive_canonical_ids.py:524-551 | They let every statement of the whole loop through if and only if no visit loses a user file that a persona uses, or an entity while one of its relationships is still there. |
| `DriveIds.LoopStaysIntact` | core/backend/alembic/versions/12635f6655b7_drive_canonical_ids.py:524-566 | Nor after the whole loop of the migration. |
| `DriveIds.LoopOutcome` | core/backend/alembic/versions/12635f6655b7_drive_canonical_ids.py:524-551 | Exactly which documents exist after the loop, for every list and every way to normalise: normal forms of listed ids that are not listed after one of their variants, and documents never listed. |
| `DriveIds.UniqueIff` | core/backend/alembic/versions/12635f6655b7_drive_canonical_ids.py:520-551 | Two Drive documents are left with one canonical id if and only if two different normal forms of listed ids normalise alike and neither is listed after one of its variants. |
| `DriveIds.CanonicalSurvivesIff` | core/backend/alembic/versions/12635f6655b7_drive_canonical_ids.py:530-551 | The canonical document of a listed id exists afterwards if and only if it was not listed after one of its variants; other documents are untouched. |
| `DriveIds.LateIff` | core/backend/alembic/versions/12635f6655b7_drive_canonical_ids.py:530-540 | That is, for an id that is its own normal form, if it was not listed, or once and before its variants. |
| `DriveIds.UrlsAreUnique` | core/backend/alembic/versions/12635f6655b7_drive_canonical_ids.py:74-85 | With the real normal form, canonical ids are unique when no listed url would lose more in a second pass. |
| `DriveIds.HiddenViewLeavesTwo` | core/backend/alembic/versions/12635f6655b7_drive_canonical_ids.py:524-551 | A listed url that would lose more leaves two documents with one canonical id. |
| `DriveIds.ListedLateIsLost` | core/backend/alembic/versions/12635f6655b7_drive_canonical_ids.py:530-540 | Listed after a variant, the canonical document is deleted as a duplicate and none is left. |
| `DriveIds.UnstableLeavesTwo` | core/backend/alembic/versions/12635f6655b7_drive_canonical_ids.py:524-551 | With a normal form that is not stable two documents with one canonical id remain. |
| `DriveMigration.Migration.UpdateDocumentId` | core/backend/alembic/versions/12635f6655b7_drive_canonical_ids.py:110-270 | The sequence of statements has that effect; all references hold afterwards, except exactly when the new id exists and something else uses what the deletion takes. |
| `DriveMigration.Migration.DeleteDocument` | core/backend/alembic/versions/12635f6655b7_drive_canonical_ids.py:387-492 | Likewise for the deletion, whose rows and links `DeleteRemoves` and `DeletedLinks` give: all references hold afterwards if and only if nothing outside the document uses what it takes. |
| `DriveMigration.Migration.Upgrade` | core/backend/alembic/versions/12635f6655b7_drive_canonical_ids.py:524-566 | The loop visits the list with the set of ids seen so far; all references hold afterwards if and only if it loses nothing that is used. |
| `KgTriggers.BeforeEntitySyncs` | core/backend/alembic/versions/36e9220ab794_update_kg_trigger_functions.py:45-68 | Whatever is written to an entity, the row the first trigger stores is in step with its document; it fails exactly when the document does not exist. |
| `KgTriggers.InsertStores` | core/backend/alembic/versions/36e9220ab794_update_kg_trigger_functions.py:45-68 | An accepted insert stores the document and kind as written, as name the lowered semantic id of the document, or the lowered written name when there is none, and its trigrams; no other entity and no document changes. |
| `KgTriggers.RenameStores` | core/backend/alembic/versions/36e9220ab794_update_kg_trigger_functions.py:45-68 | So does an accepted update of the name, with the written name in place of the old one. |
| `KgTriggers.TrigramsOf` | core/backend/alembic/versions/36e9220ab794_update_kg_trigger_functions.py:56-64 | The trigrams are those of exactly the alphanumeric characters of the name, in order, up to the limit. |
| `KgTriggers.UpdateStores` | core/backend/alembic/versions/36e9220ab794_update_kg_trigger_functions.py:104-109 | A new semantic id leaves every entity's key, document and kind, names those of the document by its lower case, and changes no other one. |
| `KgTriggers.DocumentStatements` | core/backend/alembic/versions/12635f6655b7_drive_canonical_ids.py:129-248 | The statements on documents change only them; a change of id carries the content over and points the entities of the document at the new one. |
| `KgTriggers.RefiringAgrees` | core/backend/alembic/versions/36e9220ab794_update_kg_trigger_functions.py:92-111 | The second trigger's UPDATE fires the first, which stores the same name and trigrams. |
| `KgTriggers.StatementKeepsInv` | core/backend/alembic/versions/36e9220ab794_update_kg_trigger_functions.py:40-123 | Every statement keeps all entities in step with their documents and the unique constraint in force; one that would break a constraint is refused. |
| `KgTriggers.AcceptedIff` | core/backend/alembic/versions/495cb26ce93e_create_knowlege_graph_tables.py:269-276 | Exactly which statements the constraints refuse; as all entities of a document get one name, it can have one entity of a kind, and a document that an entity names cannot be deleted. |
| `KgTriggers.CacheStaysRight` | core/backend/alembic/versions/36e9220ab794_update_kg_trigger_functions.py:40-123 | So does every sequence of statements. |
| `KgTriggers.SemanticIdReachesItsEntities` | core/backend/alembic/versions/36e9220ab794_update_kg_trigger_functions.py:104-109 | A new semantic id reaches exactly the entities of that document. |
| `KgTriggers.DocumentNameWins` | core/backend/alembic/versions/36e9220ab794_update_kg_trigger_functions.py:48-51 | Renaming an entity that belongs to a document changes nothing. |
| `KgTriggers.RepointingIsSafeIff` | core/backend/alembic/versions/12635f6655b7_drive_canonical_ids.py:209-215 | Pointing an entity at another document fires no trigger and stays right if and only if that document's lowered semantic id is the stored name, as it is in the id rename, which copies the semantic id. |
| `KgTriggers.KgTables.InsertEntityRow` | core/backend/alembic/versions/36e9220ab794_update_kg_trigger_functions.py:40-80 | Inserting a row through the trigger and the constraints has the effect of the statement, which `InsertStores` gives. |
| `KgTriggers.KgTables.RenameEntityRow` | core/backend/alembic/versions/36e9220ab794_update_kg_trigger_functions.py:40-80 | Likewise for an update of the name and `RenameStores`. |
| `KgTriggers.KgTables.UpdateSemanticIdOf` | core/backend/alembic/versions/36e9220ab794_update_kg_trigger_functions.py:104-123 | The row-by-row update through the first trigger has the effect of the statement as a whole and keeps the invariant. |
| `MockStream.WordsOfSpelled` | core/loadtest/mock_llm/app.py:476-484 | The words put back together from the content chunks are the words that were sent. |
| `MockStream.WordsOfJoined` | core/loadtest/mock_llm/app.py:393-396 | Joining words with blanks and splitting gives the same words. |
| `MockStream.EmitCalls` | core/loadtest/mock_llm/app.py:423-467 | Merging the deltas by index gives the table of calls; exactly one finish reason, on the last chunk before the end marker. |
| `MockStream.EmitText` | core/loadtest/mock_llm/app.py:468-489 | The content chunks are as many as the words of the answer and spell them in order; exactly one finish reason, on the last chunk. |
| `MockStream.Generate` | core/loadtest/mock_llm/app.py:420-490 | A client that merges the stream ends up with the calls of the reply (id, name, arguments, in order), or with its words. |
| `MockTools.Knobs.constructor` | core/loadtest/mock_llm/app.py:108-130 | The loop over the matches leaves the values of the last setting of each knob, with at least one agent. |
| `MockChoice.SetChangesOne` | core/loadtest/mock_llm/app.py:108-132 | A setting gives its own knob the number its digits write, agents at least one, and leaves the others. |
| `MockChoice.NumberOfDecimal` | core/loadtest/mock_llm/app.py:116-132 | The decimal notation of a number is read as that number. |
| `MockTools.FindAllSplits` | core/loadtest/mock_llm/app.py:89-89 | A setting's match never reaches over the next dash, so matches of a model name are those of its parts. |
| `MockTools.LastSettingWins` | core/loadtest/mock_llm/app.py:108-130 | Appending one more setting to any model name changes that knob to that value and nothing else. |
| `MockTools.OnlyOfferedToolsAreCalled` | core/loadtest/mock_llm/app.py:219-292 | Only offered tools are ever called. |
| `MockChoice.ByNameIff` | core/loadtest/mock_llm/app.py:222-222 | A name stands for the last tool defined under it, and for none exactly when there is none. |
| `MockChoice.AvailableIs` | core/loadtest/mock_llm/app.py:269-285 | The tools available under the retrieval names are one for each name that is offered, in the fixed order. |
| `MockChoice.LastUserTextIs` | core/loadtest/mock_llm/app.py:159-166 | The text answered to is that of the last message of the user that holds any, or the fallback. |
| `MockChoice.ForcedIsCalled` | core/loadtest/mock_llm/app.py:238-252 | A forced function is called, and nothing else, by the tool of its name; it is an error exactly when no tool has it. |
| `MockChoice.RequiredIs` | core/loadtest/mock_llm/app.py:259-276 | What REQUIRED picks, case by case: as many agents as the knob says, each for its numbered aspect; or the report; or the first retrieval tool offered; or the first tool. |
| `MockChoice.AutoIs` | core/loadtest/mock_llm/app.py:278-292 | What AUTO picks: the plan; or before any tool result the first so many of the retrieval tools offered, in order, or else the first tool; or nothing. |
| `MockTools.TextIff` | core/loadtest/mock_llm/app.py:254-292 | Exactly when the mock answers with text: no forced function, and either no tools or none wanted, or AUTO without a plan tool and with no retrieval knob or a tool result present; so REQUIRED with tools is never empty. |
| `MockTools.KnobAtFinds` | core/loadtest/mock_llm/app.py:89-89 | A name followed by digits is found among the alternatives whatever their order, as long as no other one matches there. |
| `MockTools.ReportIffPrepared` | core/loadtest/mock_llm/app.py:259-276 | REQUIRED calls the report exactly when the agents, or else the search, were already called. |
| `MockTools.ReportWithinTwoCycles` | core/loadtest/mock_llm/app.py:259-276 | Whatever the history and whatever the client adds, a REQUIRED conversation offered the report calls it, and only it, in every cycle after the first. |
| `MockTools.AutoStopsAfterResults` | core/loadtest/mock_llm/app.py:279-292 | Without a plan tool, an AUTO conversation calls nothing once a tool result is in its history. |
| `MockTools.ReportedTokensAreWords` | core/loadtest/mock_llm/app.py:383-396 | The reported completion tokens of a text reply are the number of words of the answer, filler or echo. |
| `MockChoice.TextIs` | core/loadtest/mock_llm/app.py:181-193 | An echo flow is answered with the last 300 characters of the user's text, anything else with the filler words in turn, as many as the capped knob says. |
| `MockChoice.CapIs` | core/loadtest/mock_llm/app.py:383-386 | The limit of the request caps the number of words, at one at least; a zero in the first field leaves it to the second. |
| `MockChoice.DecisionIs` | core/loadtest/mock_llm/app.py:370-410 | Which of the four answers a request gets: the overflow error exactly when a quarter of its text and four characters a message exceeds the limit, then the error of the chooser, then the calls picked, in order, or the text. |
| `MockTools.ChatCompletions` | core/loadtest/mock_llm/app.py:370-490 | The streamed and the whole answer to one request agree: same calls or words, one finish reason, as many content chunks as reported tokens; nothing is streamed on an error. |
| `StreamParser.MilestonesReturnedOnce` | core/loadtest/onyx_client/stream_parser.py:71-131 | Over any stream each milestone is returned at most once, and when no line raises exactly the marked ones are returned. |
| `StreamParser.MilestonesMatchCounters` | core/loadtest/onyx_client/stream_parser.py:71-131 | First packet, answer token and search document are marked exactly when their counters moved, the other two exactly when their packet was seen. |
| `StreamParser.SummaryDescribesLines` | core/loadtest/onyx_client/stream_parser.py:71-131 | Characters, documents, last error, last id and flags of the summary, each told from the lines alone. |
| `StreamParser.ErrorsStay` | core/loadtest/onyx_client/stream_parser.py:78-104 | No later line clears an error. |
| `StreamParser.CompleteIff` | core/loadtest/onyx_client/stream_parser.py:133-141 | A stream counts as complete exactly when its lines hold a start packet, answer text and a stop packet and report no error. |
| `StreamParser.ReasonIsSpecific` | core/loadtest/onyx_client/stream_parser.py:143-154 | The fall-through reason is given exactly for complete streams. |
| `StreamParser.ReasonIsTold` | core/loadtest/onyx_client/stream_parser.py:143-155 | The reason for any stream, told from its lines: the last error; else the missing answer with the number of packets and whether a stop was seen; else the missing stop with packets and characters; else unknown. |
| `StreamParser.AnswerDeniedIff` | core/loadtest/onyx_client/stream_parser.py:146-150 | An answer that arrived is reported as missing if and only if no line reports an error, some line has answer characters, and no line is a start packet. |
| `StreamParser.AnswerMayBeDenied` | core/loadtest/onyx_client/stream_parser.py:146-150 | So it is for a lone delta with text. |
| `StreamParser.ChatStreamAnalyzer.Feed` | core/loadtest/onyx_client/stream_parser.py:71-131 | Feeding a line updates the fields and returns milestones as the line function says, also when it raises. |
| `ChatUser.RunInvariant` | core/loadtest/onyx_client/chat_user.py:163-271 | After any run the kept session, parent and turn count describe the turns of the open session, turns are in session order, and each sent turn owed what it sent to the turns before it. |
| `ChatUser.ParentsWereReserved` | core/loadtest/onyx_client/chat_user.py:168-177 | A sent parent id is the last one reserved by a stream of the same session. |
| `ChatUser.SessionsAreBounded` | core/loadtest/onyx_client/chat_user.py:168-175 | No session is sent to more often than the setting allows. |
| `ChatUser.BadSessionsAreLeft` | core/loadtest/onyx_client/chat_user.py:218-255 | A session sent to again had its earlier turn read to the end, and keeps its id; after an error status, an exception or a disconnect it is never used again. |
| `ChatUser.SessionOfTurn` | core/loadtest/onyx_client/chat_user.py:163-183 | A user that keeps sessions sends each turn to the session of the turn before while that was read to the end and has turns left; else to a new one, without parent, if the server creates it; else nothing is sent. |
| `ChatUser.TurnsEndAsAnswered` | core/loadtest/onyx_client/chat_user.py:218-271 | How every sent turn of a run ended, told from the answer of the server: where reading stopped, with success exactly when the lines read are complete, which milestones were reported in order, and the last id reserved up to there. |
| `ChatUser.SingleTurnsNameNothing` | core/loadtest/onyx_client/chat_user.py:178-183 | A user that keeps no sessions never names a session or a parent; messages go round in order. |
| `ChatUser.OneFinalRecord` | core/loadtest/onyx_client/chat_user.py:218-271 | Every sent turn reports each milestone at most once and then exactly one of total_turn and disconnected, the latter just when the target milestone arrived. |
| `ChatUser.OnyxChatUser.Next` | core/loadtest/onyx_client/chat_user.py:163-191 | The payload and the session fields after building it, for every outcome of creating a session. |
| `ChatUser.OnyxChatUser.ReadStream` | core/loadtest/onyx_client/chat_user.py:232-239 | Reading stops at the end, at the disconnect target, or at a line that raises, with the milestones up to there reported. |
| `ChatUser.OnyxChatUser.ChatTurn` | core/loadtest/onyx_client/chat_user.py:194-271 | One turn changes the user and reports as the turn function says. |
| `EnvVisitor.EnvVisitor.Visit` | core/backend/scripts/env_inventory.py:253-259 | Visiting a tree appends exactly its reads and touches the tables only below it. |
| `EnvVisitor.EnvVisitor.FindAssignment` | core/backend/scripts/env_inventory.py:288-303 | The walk up the parent map finds the nearest assignment among the first eight ancestors. |
| `EnvVisitor.ReadsInFile` | core/backend/scripts/env_inventory.py:408-411 | The reads of a file are those of its tree. |
| `EnvVisitor.ReadsArePreorder` | core/backend/scripts/env_inventory.py:334-368 | Every read is recorded once, in pre-order, and nothing else is. |
| `EnvVisitor.RecognisedIff` | core/backend/scripts/env_inventory.py:334-368 | Which nodes are reads, of which name and in which of the four styles. |
| `EnvVisitor.ModuleScopeIff` | core/backend/scripts/env_inventory.py:253-259 | A read is at module scope exactly when its node is inside no function or lambda. |
| `EnvVisitor.AssignmentIff` | core/backend/scripts/env_inventory.py:288-303 | The walk gives a constant exactly when the nearest assignment among the ancestors is at most eight levels up and has that constant as its only target. |
| `EnvVisitor.AssignmentsAreNodes` | core/backend/scripts/env_inventory.py:288-303 | The identity a read carries is that of an assignment statement of the tree with that target. |
| `EnvDuplicates.FindDuplicateAssignments` | core/backend/scripts/env_inventory.py:418-446 | The loop over the reads groups them by file and constant and keeps the constants with two identities. |
| `EnvDuplicates.ReadsHavePlaces` | core/backend/scripts/env_inventory.py:253-259 | The reads of a tree are those of its nodes, each with the node's actual chain of ancestors. |
| `EnvDuplicates.ReadsSay` | core/backend/scripts/env_inventory.py:305-330 | What a read records of its node: name, style, line, whether a function or lambda is above it, and the nearest assignment. |
| `EnvDuplicates.IdIsNode` | core/backend/scripts/env_inventory.py:426-428 | In a tree without repeated identities, nodes with one identity are one node. |
| `EnvDuplicates.TiesIff` | core/backend/scripts/env_inventory.py:288-303 | A module-scope read ties a constant to an identity and a line if and only if a statement of the tree with that identity and line is the nearest assignment, at most eight levels up, of a read outside all functions. |
| `EnvDuplicates.CollectReads` | core/backend/scripts/env_inventory.py:396-415 | The reads of all files are those of the trees of the files that parse. |
| `EnvDuplicates.ReportDuplicates` | core/backend/scripts/env_inventory.py:418-446 | From the trees: a constant is reported if and only if two different statements of its file assign it from module-scope reads, and each such statement is listed once with its line. |
| `EnvDuplicates.ReportsAgreeIff` | core/backend/scripts/env_inventory.py:419-425 | What is reported by line is reported by statement, and the reports agree if and only if no two statements that assign the constant stand on one line. |
| `EnvDuplicates.OneLineIsReported` | core/backend/scripts/env_inventory.py:419-425 | Two assignments of a constant on one line are reported, though they stand on one line. |
| `WikiZips.Sanitized` | core/backend/scripts/get_wikidocs.py:19-47 | Always a non-empty name of at most 200 letters, digits, underscores and hyphens. |
| `WikiZips.SanitizedKeeps` | core/backend/scripts/get_wikidocs.py:33-47 | It is made of the safe characters of the title with blanks replaced, in order, cut at 200; `untitled` when there are none. |
| `WikiZips.UnderscoredRun` | core/backend/scripts/get_wikidocs.py:34-34 | Each run of white space becomes one underscore and everything else stays. |
| `WikiZips.SanitizedIsStable` | core/backend/scripts/get_wikidocs.py:19-47 | Sanitising a sanitised name changes nothing. |
| `WikiZips.CandidatesDiffer` | core/backend/scripts/get_wikidocs.py:122-125 | The names tried for a page are pairwise different. |
| `WikiZips.FreeName` | core/backend/scripts/get_wikidocs.py:119-125 | The duplicate-name loop ends for every set of names in the zip, with the first candidate that is free. |
| `WikiZips.WritePage` | core/backend/scripts/get_wikidocs.py:95-131 | A page goes to the open zip, or to a new one when that is full, under a name no entry of it has. |
| `WikiZips.StreamToZips` | core/backend/scripts/get_wikidocs.py:83-141 | The pages taken are written once each, in order, with distinct names per zip; all zips but the last are full and their number is the ceiling; an empty dataset makes the closing message raise. |
| `BatchLoops.UserFileTables.FillNewIds` | core/backend/alembic/versions/0cd424f32b1d_user_file_data_preparation_and_backfill.py:39-83 | Whatever rows each statement picks, the loop ends with every file numbered, as many updated as counted, and the check does not raise. |
| `BatchLoops.FilledRows` | core/backend/alembic/versions/0cd424f32b1d_user_file_data_preparation_and_backfill.py:39-83 | Numbered files keep their id and every file its folder; the others get one of the generated ids. |
| `BatchLoops.UserFileTables.FillReferences` | core/backend/alembic/versions/0cd424f32b1d_user_file_data_preparation_and_backfill.py:99-152 | The loop that picks rows but updates whole personas ends; its check raises exactly when a row without id refers to no file, and otherwise each row has the id of its file and was counted once. |
| `BatchLoops.ResolvedRows` | core/backend/alembic/versions/0cd424f32b1d_user_file_data_preparation_and_backfill.py:99-152 | Filled rows stay as they are, the others get the new id of their file. |
| `BatchLoops.AdvancedTo` | core/backend/alembic/versions/0cd424f32b1d_user_file_data_preparation_and_backfill.py:141-152 | Where such updates end: nothing left, or exactly the rows no update can reach. |
| `BatchLoops.UserFileTables.LinkPersonaFiles` | core/backend/alembic/versions/16c37a30adf2_user_file_relationship_migration.py:44-97 | In the end there is a row for every pair wanted, old rows are untouched, and as many were inserted as counted missing. |
| `BatchLoops.WantedIff` | core/backend/alembic/versions/16c37a30adf2_user_file_relationship_migration.py:44-57 | A pair of persona and file is wanted exactly when the file is in a folder of the persona. |
| `BatchLoops.UserFileTables.LinkProjectFiles` | core/backend/alembic/versions/16c37a30adf2_user_file_relationship_migration.py:125-174 | With the unique constraint on new ids, every filed file gets its row and each is counted once. |
| `BatchLoops.PairsIff` | core/backend/alembic/versions/16c37a30adf2_user_file_relationship_migration.py:125-167 | A pair of project and new id is wanted exactly when some file with that id is filed in that project. |
| `BatchLoops.PairsKeepSize` | core/backend/alembic/versions/16c37a30adf2_user_file_relationship_migration.py:147-167 | Unique ids make distinct files give distinct rows, so skipped conflicts cannot stop the loop early. |
| `BatchLoops.Table.BatchDelete` | core/backend/alembic/versions/3a78dba1080a_user_file_legacy_data_cleanup.py:28-94 | Exactly the ids of the batches that did not fail are gone, no other row is touched, and the call returns normally, with the rows deleted, exactly when no batch failed. |
| `BatchLoops.ReachedMore` | core/backend/alembic/versions/3a78dba1080a_user_file_legacy_data_cleanup.py:56-63 | One more batch adds exactly its slice of the list to the ids reached, unless it fails. |
| `BatchLoops.NormalReturnClears` | core/backend/alembic/versions/3a78dba1080a_user_file_legacy_data_cleanup.py:79-94 | After a normal return none of the listed ids is left. |
| `Text.SplitJoin` | core/backend/alembic/run_multitenant_migrations.py:65-65 | Splitting undoes joining as long as no part holds the separator. |
| `Text.StripIs` | core/backend/alembic/run_multitenant_migrations.py:65-65 | Stripping takes white space off both ends and nothing else; the rest has none at its ends. |
| `Text.DecimalInjective` | core/backend/scripts/get_wikidocs.py:124-124 | Different counters are written differently. |
| `Counting.CeilingOf` | core/backend/scripts/get_wikidocs.py:199-199 | Some full groups and a last one are as many as the rounded-up quotient. |

## Left out

- HTTP, subprocesses, clocks, logging, progress bars and argument parsers: their outcomes are parameters or arbitrary choices.
- `request_json_with_retries`, `extract_document_ids` and loading the questions file: no shared state, and sums and sorts only.
- Cancelling the question runner from outside (KeyboardInterrupt) other than as a crash between or within writes.
- A write of an answer that raises, such as one of a lone surrogate: the exception leaves the coroutine and ends the gathering.
- Universal newlines: a lone carriage return inside the answer file is not treated as a line end.
- `AnswerFile.JsonLike` asks of JSON printing and parsing only what its comment lists; the JSON grammar itself is not modelled; `PrintedRecords.JsonLikeIsPossible` shows that they can be met together.
- The upgrade of one schema: an oracle that succeeds, leaving the schema at head, or fails, leaving it unchanged.
- Offline migrations and the branch of the environment script that lists all tenants from the database.
- OpenAPI documents with a `$ref` that is not a string, or with paths, tags or parameters of the wrong shape, where the source raises.
- In-place aliasing of JSON dictionaries: the clean-up is modelled on values, entry by entry.
- Vespa, and the exception fallbacks of the Drive migration (missing knowledge-graph tables, reduced column list): the full path is taken. What happens after a refused statement is not modelled either; the models say when none is refused, and what the statements would leave behind.
- Tables referencing a document that the Drive migration does not touch, and primary-key conflicts when chunk keys are rewritten.
- Urls that the library changes or refuses before splitting them: outer white space, tabs and line breaks, square brackets in the host. Its lists of known schemes are a parameter.
- The text of error messages of the schema options, which is abridged.
- `lower` and `show_trgm`: uninterpreted functions of the models that use them.
- The wire framing of `_sse`, call ids, timing, and argument synthesis from a tool's JSON schema; arguments are any function of the call.
- Digits beyond ASCII in model names, and the fractional part of the timing knobs, which are kept in milliseconds.
- Type strings of stream packets are an enumeration; any string the analyser does not look for is one value.
- Payload fields that do not change between turns: model override, deep research flag, attachments.
- `_enclosing_type` and literal defaults of environment reads, import aliases found by the scan, and the parsing of Helm values.
- `EnvDuplicates.FindDuplicateAssignments`: gives the lines of each constant by assignment and does not model sorting them.
- Zip files on disk: entries are kept as lists, and rewriting an existing zip of an earlier run is not modelled.
- Collisions of generated UUIDs, locks, and PostgreSQL's refusal of statements after a failed one in the same transaction: any pattern of failing batches is allowed.
- `BatchLoops.UserFileTables.LinkProjectFiles`: assumes the unique constraint on `user_file.new_id`, which core/backend/alembic/versions/9b66d3156fc6_user_file_schema_additions.py creates.
- The order in which the legacy clean-up empties its tables, and the remaining schema migrations.
- The key-rotation scripts, load shapes, resource limits and user interfaces.
