# Verification of the delivery, load and policy tooling

This project models the parts of the repository that issue evidence, decide whether to
accept it, or guard shared state, and proves what they promise. Each module follows one
component; loops and objects that update state are methods and classes proved against a
specification function, and the properties are proved about that function.

| files | component |
|---|---|
| `StableJson`, `JsonStrings`, `JsonNumbers`, `JsonLayout`, `Decimal` | canonical JSON text behind a plan digest, with a parser for it and its layout letter by letter (sections 6 and 7 of RFC 8259; ECMA-262 `Number::toString`) |
| `CommandLine` | shell text of a command, with a reader of shell words (POSIX Shell Command Language, sections 2.2 and 2.6) |
| `DeliveryPlan`, `ExecutionAudit` | the plan executor and the auditor of its reports |
| `PolicySchema`, `PolicyKeywords`, `PolicyTermination`, `PathSegments` | the schema validator with local references (JSON Schema draft-07 core, section 8.3), what its keywords mean, and its recursion counted in stack frames |
| `Percentiles`, `JobLoadBudget`, `LoadGate`, `LoadRuns` | nearest-rank percentiles and the two load gates; what the second decides, in events of a run |
| `DeployBootstrap`, `BootstrapRuns` | migrations and seeding before the first request, by any number of processes; what becomes of every bootstrap and request |
| `SoakTenants`, `SoakCleanup`, `ChildProcess` | tenants of soak runs, scoped cleanups, supervision of one window |
| `DiffLines`, `HunkGrammar`, `MaterialRanges`, `Complexity`, `DuplicateBlocks`, `PyText`, `Selections`, `Sequences` | diff reader, section index, complexity visitor, repeated blocks |
| `LintAllowlist`, `AllowlistRules` | exceptions to readability findings, and what the texts of an allowlist mean |

## Where the code and its promise differ

For each of these the promise is proved exactly where it holds: a lemma or a contract says
for which inputs the code meets it, and for which it does not.

- The digest does not tell `undefined`, `NaN`, an infinity and `null` apart, nor `-0` and
  `0` (`StableJson.LostDistinctions`). `Meaning` identifies these and nothing else, up to
  key order, and `StableJson.CanonicalText` is an equivalence.
- The text of a command holds a bare `$` wherever an unquoted argument does. A shell is bound
  to read the argument vector literally exactly when there is none
  (`CommandLine.CommandLineReads`).
- A schema can refer to itself, and then the validator never returns
  (`PolicyTermination.SelfReferenceNeverReturns`): exactly when, with all earlier checks in
  order, it comes to a chain of references without end (`NeverReturnsIff`). A cycle it does
  not come to does no harm, and otherwise a number of stack frames fixed in advance is enough
  (`ReturnsOrNever`).
- A settled bootstrap with its own pool can leave the advisory lock held
  (`DeployBootstrap.TwoFaultsLeaveLock`): exactly when it was granted the lock, its unlock
  query failed without taking effect and closing the pool failed too (`LockLeftBehind`); no
  process ever migrates again (`LeftBehindForever`). Whenever it is not left behind, every
  request can still be answered (`BootstrapRuns.EveryRequestCanBeAnswered`).
- Lines of a diff are split where Python's `splitlines` splits, not only at line feeds. An
  added line without a leading `++ b/` can forge a hunk (`DiffLines.ForgedLineIsReported`).
  Where no piece of a line looks like a `+++ b/` mark, the reader is right exactly when every
  forged range, in the file it occurs in, covers only lines that are added anyway
  (`RecordsIffHarmless`); a forged range of no lines does no harm (`EmptyForgeryIsHarmless`),
  and a forged mark of a file outside the diff always does (`StrayFileDoesHarm`). For text
  without other line separators the workspace rule about `++ b/` is enough (`PlainIsQuiet`),
  and it is needed (`PlusMarkNamesAnotherFile`).
- The 63-character cut of a soak tenant id can lose the window index: the cleanup selects its
  own tenant exactly when the prefix leaves room for a digit
  (`SoakTenants.CleanupSelectsOwnTenants`).
- A run tag whose random part is empty, and no other, is one the cleanup refuses
  (`GeneratedPrefixAccepted`).
- The side-effect checks of the load gate do not imply exactly-once by themselves
  (`LoadGate.FailuresMustBeChecked`); with no failure counted they are equivalent to it
  (`SideEffectChecks`).
- The latency checks pass on an empty sample, and on a non-empty one exactly when enough
  measurements are below the bound (`JobLoadBudget.AcceptedMeans`); in the second gate an
  empty sample has the figure 0 (`LoadRuns.AcceptedIff`).
- A cleanup can throw after its rows are gone (`SoakCleanup.LostCommitReply`,
  `LostLoadCommitReply`): exactly when the target had rows, COMMIT took effect and its reply,
  and no earlier one, was lost (`DeleteTargetApplicationRows`, `DeleteLoadRows`). Every other
  throw leaves the tables as they were. When the reply of BEGIN is lost, the soak cleanup
  releases its connection with the transaction open.
- A duplication failure always comes with a warning exactly when the hard limit is not below
  the warning limit, or is off (`DuplicateBlocks.FailureImpliesWarning`); otherwise equal
  lines, one more than the hard limit, fail without one (`CopiesFailUnwarned`).
- The `path|rule` key is injective exactly on rules without a bar (`LintAllowlist.KeyIsPair`,
  `KeysCollide`); every rule a scan reports is such a rule.

## Model

| member | source | states |
|---|---|---|
| StableJson.CanonicalText | scripts/execute-real-autonomous-delivery-plan.js:49-56 | two values have the same canonical text if and only if they are equal up to key order at every depth |
| StableJson.RoundTrip | scripts/execute-real-autonomous-delivery-plan.js:49-56 | an independent parser recovers the value's meaning, and exactly the text that follows, from the canonical text followed by any suffix that cannot prolong a numeral |
| StableJson.SelfDelimiting | scripts/execute-real-autonomous-delivery-plan.js:49-56 | if two texts with suffixes agree, their values and their suffixes agree |
| StableJson.SameMeaningSameText | scripts/execute-real-autonomous-delivery-plan.js:49-56 | reordering keys at any depth does not change the text |
| StableJson.LostDistinctions | scripts/execute-real-autonomous-delivery-plan.js:50-55 | undefined, NaN, an infinity and null share one text, and so do both zeros |
| StableJson.TextWellFormed | scripts/execute-real-autonomous-delivery-plan.js:49-64 | the text never holds a lone surrogate, whatever strings the value holds, so the bytes that are hashed determine it |
| StableJson.DigestIdentifies | scripts/execute-real-autonomous-delivery-plan.js:58-64 | a digest by a hash that does not collide on two texts is equal exactly for values equal up to key order |
| JsonStrings.StringRoundTrip | scripts/execute-real-autonomous-delivery-plan.js:53-55 | reading undoes escaping for every string of UTF-16 units, lone surrogates and control characters included |
| JsonStrings.QuotedWellFormed | scripts/execute-real-autonomous-delivery-plan.js:53-55 | a quoted string is well-formed UTF-16 even when the string is not |
| JsonNumbers.NumberRoundTrip | scripts/execute-real-autonomous-delivery-plan.js:55 | in each of the four notations, reading a printed number gives it back; which numbers get which notation is what the four rows below say |
| JsonLayout.WholeNumberText | scripts/execute-real-autonomous-delivery-plan.js:55 | every whole number above 0 and below 10^21 is written as its decimal digits, with a minus sign if negative |
| JsonLayout.PlainNumberText | scripts/execute-real-autonomous-delivery-plan.js:55 | a number of at least 10^-6 and below 10^21 is written as people write it: its whole part and, if any, a point and the digits after it |
| JsonLayout.ExponentIff | scripts/execute-real-autonomous-delivery-plan.js:55 | a number is written with an exponent if and only if its decimal point is more than 21 places after its first digit or 6 or more zeros lie between the point and that digit |
| JsonLayout.ExponentForm | scripts/execute-real-autonomous-delivery-plan.js:55 | one digit, a point and the others if any, the letter e, the sign and the digits of the exponent |
| JsonLayout.PlainIsCopied | scripts/execute-real-autonomous-delivery-plan.js:53-55 | a string without quotes, backslashes, control characters and surrogates is written as it is |
| JsonLayout.UnitsWritten | scripts/execute-real-autonomous-delivery-plan.js:53-55 | how every single code unit is written: seven have two-character escapes, other control characters and lone surrogates four hexadecimal digits in lower case, all others stand for themselves |
| JsonLayout.WrittenApart | scripts/execute-real-autonomous-delivery-plan.js:53-55 | the text of a string is that of its parts, unless a surrogate pair is cut |
| JsonLayout.BeforeMeans | scripts/execute-real-autonomous-delivery-plan.js:53-54 | keys are ordered by their first different code unit, a prefix before what it prolongs |
| JsonLayout.ObjectText | scripts/execute-real-autonomous-delivery-plan.js:53-54 | an object is its members in the order of their keys, between braces |
| JsonLayout.CommasJoin | scripts/execute-real-autonomous-delivery-plan.js:52-54 | members and items are separated by one comma and nothing else |
| JsonLayout.ItemsInOrder | scripts/execute-real-autonomous-delivery-plan.js:52 | the items of an array are written in their order |
| CommandLine.ReadArg | lib/task-platform/real-autonomous-delivery-plan-commands.js:22-26 | one quoted argument is read back as exactly that argument, up to its end; the reading that refuses a bare dollar sign fails exactly on an unquoted argument holding one |
| CommandLine.CommandLineReads | lib/task-platform/real-autonomous-delivery-plan-commands.js:22-30 | word splitting and quote removal give exactly the argument vector back; a shell is bound to take it literally if and only if no unquoted argument holds a dollar sign |
| CommandLine.CommandLineInjective | lib/task-platform/real-autonomous-delivery-plan-commands.js:28-30 | different argument vectors have different texts |
| CommandLine.QuotedUnless | lib/task-platform/real-autonomous-delivery-plan-commands.js:22-26 | an argument is left bare exactly when it is not empty and holds only letters, digits and `_./:=@%+$-`, and otherwise stands between single quotes |
| CommandLine.CommandLineJoins | lib/task-platform/real-autonomous-delivery-plan-commands.js:28-30 | the texts of the arguments are separated by one space |
| DeliveryPlan.WithIdKeeps | scripts/execute-real-autonomous-delivery-plan.js:87-91 | the command filter keeps every command with the id as often as it occurs and no other, and drops none exactly when all have the id |
| DeliveryPlan.PlanExecutionFailures | scripts/execute-real-autonomous-delivery-plan.js:108-123 | the failures collected by the loop, empty exactly when the plan is ok, unblocked and every selected command is ready with an argument vector |
| DeliveryPlan.PlanFailuresEmpty | scripts/execute-real-autonomous-delivery-plan.js:93-123 | no failure exactly when plan and commands are ready, field by field |
| DeliveryPlan.RequiredEnvFailures | scripts/execute-real-autonomous-delivery-plan.js:125-133 | the missing variables of every command, in order |
| DeliveryPlan.MaterializeCommand | scripts/execute-real-autonomous-delivery-plan.js:135-152 | the arguments with `$NAME` placeholders replaced, and a failure for every missing one |
| DeliveryPlan.MaterializedExactly | scripts/execute-real-autonomous-delivery-plan.js:135-152 | with nothing missing, each argument is itself or its variable's value, at its own position |
| DeliveryPlan.EnvironmentFailuresEmpty | scripts/execute-real-autonomous-delivery-plan.js:125-152 | no environment failure exactly when every required variable and every placeholder has a value |
| DeliveryPlan.ExecutableCommands | scripts/execute-real-autonomous-delivery-plan.js:154-167 | the commands with materialized arguments and all failures, in plan order |
| DeliveryPlan.PreflightEmpty | scripts/execute-real-autonomous-delivery-plan.js:201-218 | the checks before execution pass exactly when plan, commands and environment are ready |
| DeliveryPlan.RunCommands | scripts/execute-real-autonomous-delivery-plan.js:218-229 | results, failures and spawned vectors of the loop that stops after the first command that does not exit 0 |
| DeliveryPlan.RunFromShape | scripts/execute-real-autonomous-delivery-plan.js:218-229 | each result is that of its own command; all but the last have status 0; an early stop ends with a failure |
| DeliveryPlan.RunDiscipline | scripts/execute-real-autonomous-delivery-plan.js:154-229 | the spawned vectors are a prefix of the ready commands, exactly materialized, and the run is free of failures exactly when all exited 0 |
| DeliveryPlan.ExecutePlan | scripts/execute-real-autonomous-delivery-plan.js:201-229 | the whole execution: report and spawned vectors are those of the specification that `RunIsAbout`, `FailuresReported` and `SpawnDiscipline` are about |
| DeliveryPlan.SpawnDiscipline | scripts/execute-real-autonomous-delivery-plan.js:93-229 | what is spawned is a prefix of the selected commands (`RunIsAbout` says which those are), all but possibly the last exiting 0; nothing is spawned unless execution was asked for and everything is ready; a report is ok exactly when the whole sequence ran with status 0 |
| DeliveryPlan.RunIsAbout | scripts/execute-real-autonomous-delivery-plan.js:80-91 | a run reports, and from the first on spawns, exactly the commands of its stage, pre-merge before post-merge, whose id is the one asked for, or all without one, in plan order and as often as they occur |
| DeliveryPlan.FailuresReported | scripts/execute-real-autonomous-delivery-plan.js:93-152 | a report lists a failure if and only if it is a fault of the plan, of a selected command, of the environment of one when executing, or the last process not exiting 0 |
| DeliveryPlan.EmptyVariableBlocks | scripts/execute-real-autonomous-delivery-plan.js:125-143 | a variable that a command requires or names in an argument and that is missing or empty keeps everything from being spawned |
| DeliveryPlan.PlaceholderIs | scripts/execute-real-autonomous-delivery-plan.js:136 | a placeholder is a dollar sign and the name of a variable in capitals, and nothing else |
| DeliveryPlan.ReportedTextIs | scripts/execute-real-autonomous-delivery-plan.js:184 | the reported text of a command is its own, or that of its arguments as they stand in the plan |
| ExecutionAudit.CommandListFailures | scripts/verify-real-autonomous-delivery-plan-execution.js:97-115 | the failures of the command list, for reports of any length |
| ExecutionAudit.CommandListEmpty | scripts/verify-real-autonomous-delivery-plan-execution.js:97-115 | no failure exactly when ids and command texts match one for one and every command is ready; so no report fits two lists that differ in length, order, an id or a text |
| ExecutionAudit.ResultFailures | scripts/verify-real-autonomous-delivery-plan-execution.js:117-132 | the failures of the result list |
| ExecutionAudit.ResultsEmpty | scripts/verify-real-autonomous-delivery-plan-execution.js:117-132 | no failure exactly when ids match one for one with status 0 and no signal |
| ExecutionAudit.ExecutionReportFailures | scripts/verify-real-autonomous-delivery-plan-execution.js:303-322 | all failures of a report, none exactly when it attests what was expected |
| ExecutionAudit.CommandFailureListed | scripts/verify-real-autonomous-delivery-plan-execution.js:97-115 | for each command, each kind of failure is listed exactly when the reported command at its place is missing or differs in that field |
| ExecutionAudit.ResultFailureListed | scripts/verify-real-autonomous-delivery-plan-execution.js:117-132 | the same of results: id, status and signal |
| ExecutionAudit.HeaderFailureListed | scripts/verify-real-autonomous-delivery-plan-execution.js:303-322 | the same of the nine header fields |
| ExecutionAudit.ReportShape | scripts/execute-real-autonomous-delivery-plan.js:169-191 | what the header of an executor report says for every plan, selection and outcome |
| ExecutionAudit.ExecutorMeetsAuditor | scripts/verify-real-autonomous-delivery-plan-execution.js:303-322 | a report the executor writes is accepted if and only if it is ok, has the expected digest, stage and mode, selected every command of the stage and saw no signal |
| ExecutionAudit.AcceptedMeansExecuted | scripts/verify-real-autonomous-delivery-plan-execution.js:59-62 | whatever plan a report was made from, acceptance for a saved plan means every post-merge command of it was spawned once, in order, with its materialized arguments, and exited 0 |
| ExecutionAudit.AcceptedDryRun | scripts/verify-real-autonomous-delivery-plan-execution.js:303-322 | an accepted dry run spawned nothing and its plan was ready |
| ExecutionAudit.AcceptedTextIsArgv | scripts/verify-real-autonomous-delivery-plan-execution.js:52-57 | the text in an accepted report, split into words and unquoted, is the planned argument vector, and literally so exactly when it leaves no dollar sign bare |
| PolicySchema.ResolveRef | dev-standards/tooling/validate_policy_files.py:24-30 | the loop over the parts of a reference finds the node the path names; a reference not starting with `#/` is a validation error, a missing part another exception |
| PolicySchema.ChaseDecides | dev-standards/tooling/validate_policy_files.py:34-36 | following references ends exactly when some finite number of hops reaches a node without one, finds that node, and within as many hops as there are distinct texts |
| PolicySchema.EndingIsFound | dev-standards/tooling/validate_policy_files.py:24-36 | a chain that ends is followed to its end, which is no further away than there are distinct texts in the schema |
| PolicySchema.ValidIffConforms | dev-standards/tooling/validate_policy_files.py:33-102 | for every schema and instance, validate returns normally exactly when the instance conforms by a declarative relation |
| PolicySchema.ErrorNamesViolation | dev-standards/tooling/validate_policy_files.py:33-102 | a validation error names a path to a real sub-instance, governed by a real sub-schema that it breaks in the way reported |
| PolicyTermination.RunAgrees | dev-standards/tooling/validate_policy_files.py:33-102 | whenever the literal recursion, one call for each `$ref`, returns within some number of stack frames, it returns what the reference definition says |
| PolicyTermination.ReturnsOrNever | dev-standards/tooling/validate_policy_files.py:33-102 | the recursion returns with Height(instance) * (distinct schema texts + 1) frames and any larger number, or with none at all |
| PolicyTermination.NeverReturnsIff | dev-standards/tooling/validate_policy_files.py:33-102 | it never returns if and only if, in its own order and with everything before conforming, it comes to a schema node whose chain of references never ends |
| PolicyTermination.EndsMeansReturns | dev-standards/tooling/validate_policy_files.py:33-102 | when every schema node the instance can lead to has a chain that ends, validation returns, whatever other cycles the schema holds |
| PolicyTermination.SelfReferenceNeverReturns | dev-standards/tooling/validate_policy_files.py:34-36 | a definition that refers to itself, on which no number of frames is enough |
| PolicySchema.RefSiblingsIgnored | dev-standards/tooling/validate_policy_files.py:34-36 | keywords beside `$ref` have no effect |
| PolicySchema.LocalPasses | dev-standards/tooling/validate_policy_files.py:38-68 | the type, enum and pattern checks pass exactly when each keyword's condition holds |
| PolicySchema.RequiredPasses | dev-standards/tooling/validate_policy_files.py:71-75 | the required check passes exactly when every listed name is present |
| PolicyKeywords.ObjectPassesIff | dev-standards/tooling/validate_policy_files.py:71-89 | read off the schema's own entries: an object passes exactly when its own checks hold, every declared key conforms to its schema, and an undeclared key is forbidden by `additionalProperties: false`, governed by a mapping there, and otherwise free |
| PolicyKeywords.ClosedObject | dev-standards/tooling/validate_policy_files.py:85-86 | with `additionalProperties: false` every key of a valid object is a key of `properties` |
| PolicyKeywords.BlamedKey | dev-standards/tooling/validate_policy_files.py:78-89 | an error below an object never blames an undeclared key that is neither forbidden nor governed |
| PolicyKeywords.TypeChecked | dev-standards/tooling/validate_policy_files.py:55-68 | which types each kind of value has |
| PolicyKeywords.EqualityIs | dev-standards/tooling/validate_policy_files.py:42-43 | the equality behind `enum`: numbers by value with true as 1 and false as 0, texts and lists by content, never across kinds |
| PolicyKeywords.MappingEqualityIs | dev-standards/tooling/validate_policy_files.py:42-43 | mappings are equal when they have the same keys with equal values, in any order |
| PolicyKeywords.TypeIsFirst | dev-standards/tooling/validate_policy_files.py:38-40 | a wrong type is reported before anything else, an unknown type name as such |
| PolicyKeywords.EnumIsNext | dev-standards/tooling/validate_policy_files.py:42-43 | then a value that is not listed |
| PolicyKeywords.PatternIsNext | dev-standards/tooling/validate_policy_files.py:45-47 | then a pattern that is not matched, or a value that is not a string |
| PolicyKeywords.RequiredIsNext | dev-standards/tooling/validate_policy_files.py:71-75 | then the first missing key, in the order of the schema |
| PolicyKeywords.FirstEntryDecides | dev-standards/tooling/validate_policy_files.py:77-89 | then the first entry that is not allowed, in the order of the instance, with the outcome of its value at its path |
| PolicyKeywords.ItemsInOrder | dev-standards/tooling/validate_policy_files.py:92-102 | of an array, too few items first, then the first bad item with the outcome at its index |
| PolicyKeywords.ReferenceLeads | dev-standards/tooling/validate_policy_files.py:24-30 | `#/a/b` leads to the value of b in the value of a |
| Percentiles.NearestRank | scripts/run-job-runtime-load-test.js:12-15 | the percentile is the one sample value that at least ceil(q n) values do not exceed and fewer than ceil(q n) fall below |
| Percentiles.BelowIffCounted | scripts/run-job-runtime-load-test.js:12-15 | the percentile is below a bound exactly when at least ceil(q n) values are |
| Percentiles.PercentileUnder | scripts/run-job-runtime-load-test.js:12-15 | the 0.95 (0.99) percentile is below a bound exactly when at least 95 (99) of a hundred measurements are |
| Percentiles.PermutationInvariant | scripts/run-langgraph-load.js:9-12 | the order of measurements does not matter |
| Percentiles.QuantileMonotone | scripts/run-job-runtime-load-test.js:12-15 | a larger quantile never gives a smaller percentile |
| JobLoadBudget.MultiplierMeans | scripts/run-job-runtime-load-test.js:258-266 | with E the seconds of the run times the expected rate, the multiplier check fails exactly when submitted + frac(E) < required * E |
| JobLoadBudget.NeverShortByOne | scripts/run-job-runtime-load-test.js:258-266 | no accepted run is short by a whole submission |
| JobLoadBudget.UnitMultiplier | scripts/run-job-runtime-load-test.js:22-29 | at multiplier 1 the check accepts exactly from floor(E) submissions on |
| JobLoadBudget.AcceptedMeans | scripts/run-job-runtime-load-test.js:258-276 | acceptance if and only if the submission count, delivery, each latency count (95 of a hundred enqueues under 100 ms, 99 of a hundred under 250 ms and so on, counted over the raw sample, or an empty sample) and the pool figures are within budget |
| LoadGate.RunIdInjective | scripts/run-langgraph-load.js:48 | run ids are injective in worker and sequence number |
| LoadGate.Counters.Execute | scripts/run-langgraph-load.js:32-37 | one execution raises the count of its run and of no other |
| LoadGate.Counters.RecordFailure | scripts/run-langgraph-load.js:60-65 | a failed attempt is counted, and apart if it had executed |
| LoadGate.StepKeepsInv | scripts/run-langgraph-load.js:44-88 | every step of any worker or of the runtime keeps: completed + failures = finished attempts, and the map holds only attempted runs, each once, with a positive count |
| LoadGate.RunKeepsInv | scripts/run-langgraph-load.js:44-88 | the same over every interleaving |
| LoadGate.ObservedIsDistinctPlusDuplicates | scripts/run-langgraph-load.js:122-125 | observed executions are the distinct runs plus the duplicates |
| LoadGate.SideEffectChecks | scripts/run-langgraph-load.js:123-143 | without failures, the two side-effect checks hold exactly when every run executed the node once |
| LoadGate.AcceptedMeansExactlyOnce | scripts/run-langgraph-load.js:189-198 | for any number of workers, any interleaving and any runtime, an accepted artifact means every attempted run completed and executed the node exactly once, and the measurements were within budget |
| LoadGate.ExactlyOnceIsAccepted | scripts/run-langgraph-load.js:189-198 | a faultless exactly-once run is accepted exactly when at least 95 of a hundred measurements of each non-empty sample are below its bound, bounds are positive where a sample is empty, and overhead, pool and cleanup are within budget |
| LoadGate.FailuresMustBeChecked | scripts/run-langgraph-load.js:118-146 | a run that passes both side-effect checks without being exactly-once |
| LoadRuns.AcceptedIff | scripts/run-langgraph-load.js:189-198 | in events alone: the gate accepts exactly the runs in which no attempt failed, every attempt that began completed, the node executed once for each of them and for nothing else, and the raw measurements are within budget |
| LoadRuns.NextIff | scripts/run-langgraph-load.js:44-66 | what can happen next, in terms of what happened: a worker starts one attempt after the other, and the node may execute for any attempt that ever began, at any time and any number of times |
| LoadRuns.FromTheStart | scripts/run-langgraph-load.js:32-65 | after any run each count of the map is the number of executions of its run, and failures and late failures are those that happened |
| DeployBootstrap.StepKeepsInv | scripts/bootstrap-deploy-auth.js:156-197 | every step of any process or request, faulty or not, keeps the invariant |
| DeployBootstrap.RunKeepsInv | scripts/bootstrap-deploy-auth.js:156-197 | the same over every run |
| DeployBootstrap.Safety | api/_server.js:80-102 | sections of two processes never overlap, seeding follows migrations, a process starts at most once, a connected client is released exactly once, no request is dispatched before its process settled ok, and settled ok means all steps were done |
| DeployBootstrap.LockLeftBehind | scripts/bootstrap-deploy-auth.js:81-95 | a settled bootstrap still holds the lock if and only if the lock was granted to it (with or without a reply), its unlock query failed without taking effect, and its pool was not its own or failed to close |
| DeployBootstrap.LeftBehindForever | scripts/bootstrap-deploy-auth.js:81-95 | a lock left behind keeps every other process out in every continuation |
| DeployBootstrap.TwoFaultsLeaveLock | scripts/bootstrap-deploy-auth.js:164-197 | a run with an owned pool that leaves the lock held |
| BootstrapRuns.SettlesAs | scripts/bootstrap-deploy-auth.js:139-197 | how a bootstrap settles, for any interleaving and any faults: ok if it is off; not ok if its configuration is unsound; otherwise ok exactly when its pool opened and none of its steps faulted |
| BootstrapRuns.OkMeansDone | scripts/bootstrap-deploy-auth.js:156-197 | one that settled ok migrated exactly if migrations are on, and seeded exactly if the seed is on and not skipped |
| BootstrapRuns.ResumedRequest | api/_server.js:80-102 | a resumed request is dispatched exactly when its bootstrap settled ok and this resume does not throw or a request was dispatched there before; refused exactly when it settled not ok; and errors otherwise |
| BootstrapRuns.WaitsUntilResumed | api/_server.js:88-89 | a request that was not resumed is still waiting |
| BootstrapRuns.RequestsAreArrivals | api/_server.js:88-89 | the requests are the arrivals, in order, each at its own process |
| BootstrapRuns.CanSettle | scripts/bootstrap-deploy-auth.js:81-197 | from every reachable state in which the lock is not left behind, the started bootstraps can all settle without a further fault: there is no deadlock |
| BootstrapRuns.EveryRequestCanBeAnswered | api/_server.js:80-102 | and then every request can be answered |
| DiffLines.ParseAddedLines | dev-standards/tooling/repo_policy_utils.py:218-237 | the loop computes the fold of its line reader |
| DiffLines.ReadMarker | dev-standards/tooling/repo_policy_utils.py:221-236 | a hunk marker is read back with its start and count, count given or omitted, zero counts included |
| HunkGrammar.HunkIs | dev-standards/tooling/repo_policy_utils.py:221-236 | a line is read as a hunk header if and only if it is `@@ -`, a range, ` +`, a range with the start and count read, and ` @@` |
| PyText.SplitLinesIs | dev-standards/tooling/repo_policy_utils.py:222 | splitting into lines loses the line breaks and nothing else, and leaves none |
| PyText.LineCount | dev-standards/tooling/repo_policy_utils.py:222 | there are as many lines as breaks, and one more for a text that does not end with one |
| DiffLines.ReadsEvents | dev-standards/tooling/repo_policy_utils.py:221-236 | reading lines is handling the file and range markers among them, in order |
| DiffLines.ReadsWhatWasPrinted | dev-standards/tooling/repo_policy_utils.py:221-236 | the markers found are exactly the printed ones, in order, if and only if no piece of another line looks like a marker |
| DiffLines.RecordsIffSaid | dev-standards/tooling/repo_policy_utils.py:218-237 | for any diffs: each path gets exactly its added lines if and only if every file found is in the diff and the ranges found, each in the file last named, cover exactly the added lines |
| DiffLines.RecordsIffHarmless | dev-standards/tooling/repo_policy_utils.py:218-237 | where no piece looks like a file mark: each path gets exactly its added lines if and only if every stray range covers only lines added to the file it occurs in |
| DiffLines.StrayFileDoesHarm | dev-standards/tooling/repo_policy_utils.py:222-225 | a stray mark of a file outside the diff always makes the result wrong |
| DiffLines.RoundTrip | dev-standards/tooling/repo_policy_utils.py:218-237 | reading the print of any set of zero-context diffs in which nothing looks like a marker gives exactly each path's set of added line numbers |
| DiffLines.PlainIsQuiet | scripts/check-source-integrity.js:47-50 | text without odd line separators in which no added line starts with `++ b/` meets that condition |
| DiffLines.SeparatorForgesHunk | dev-standards/tooling/repo_policy_utils.py:221-236 | each of the nine separators at which Python splits and git does not, put before a marker inside an added line, makes it read as a change |
| DiffLines.ForgedLineIsReported | dev-standards/tooling/repo_policy_utils.py:218-237 | such a line makes the reader report a line the diff did not add |
| DiffLines.EmptyForgeryIsHarmless | dev-standards/tooling/repo_policy_utils.py:231-235 | a forged hunk that adds no lines is read as a marker, and the result is still right |
| DiffLines.PlusMarkNamesAnotherFile | scripts/check-source-integrity.js:47-50 | an added line that starts with `++ b/` and goes on with another file's name makes the result wrong |
| SoakTenants.CleanupSelectsOwnTenants | scripts/cleanup-runtime-soak-run.js:19-22 | the cleanup pattern of a run selects a generated tenant exactly when the 63-character cut leaves a digit of the window index |
| SoakTenants.NoTenantOfTwoRuns | scripts/cleanup-runtime-soak-run.js:11-22 | no tenant id matches the patterns of two run prefixes |
| SoakTenants.SelectsMeans | scripts/cleanup-runtime-soak-run.js:19-22 | the pattern of a run matches exactly its prefix, an underscore and one or more digits |
| SoakTenants.OtherRunsUntouched | scripts/run-runtime-soak.js:79-89 | the pattern of one run never matches a tenant generated for another valid run prefix of any length, cut or not |
| SoakTenants.WindowsStayApart | scripts/run-runtime-soak.js:79-89 | uncut tenants of different windows differ |
| SoakTenants.GeneratedPrefixAccepted | scripts/run-runtime-soak.js:196 | the prefix of a generated tag is accepted by the cleanup exactly when its random part is not empty |
| SoakCleanup.CompleteBatches | scripts/cleanup-runtime-soak-run.js:86-107 | batches cover each listed job; the completed count is the number of jobs gone; jobs outside the list stay |
| SoakCleanup.CompleteTargetJobs | scripts/cleanup-runtime-soak-run.js:86-107 | without faults no job of the target is left; only target jobs ever go; the unlocked workers are those that held one |
| SoakCleanup.DeleteTargetApplicationRows | scripts/cleanup-runtime-soak-run.js:109-120 | it returns exactly when none of its five calls faults; the rows are gone exactly when COMMIT took effect; it throws with rows gone exactly when only the reply of COMMIT was lost and there were rows |
| SoakCleanup.LostCommitReply | scripts/cleanup-runtime-soak-run.js:115-118 | a server on which the deletion throws and the rows are gone |
| SoakCleanup.CleanupSoakRun | scripts/cleanup-runtime-soak-run.js:122-143 | a normal return leaves no row and no job of the target, every other row and job in place, and reports exactly the jobs and locking workers there were |
| SoakCleanup.AllTargetsGone | scripts/cleanup-runtime-soak-run.js:122-143 | when only target jobs went and none is left, the queue shrank by exactly their number |
| SoakCleanup.NoneLeft | scripts/cleanup-runtime-soak-run.js:86-107 | completing every listed id leaves no target job |
| SoakCleanup.RunsCleanApart | scripts/cleanup-runtime-soak-run.js:109-120 | cleaning up one run removes all its rows and keeps every row of every other run |
| SoakCleanup.CleanupGraphileBatch | scripts/run-job-runtime-load-test.js:277-294 | completed and residual jobs together are what the batch found, through both attempts; the workers unlocked are those that held what the first attempt left |
| SoakCleanup.CleanupReferencedJobs | scripts/run-job-runtime-load-test.js:295-315 | over all batches, completed + residual is the number of referenced jobs that were queued, and the residual is what still is |
| SoakCleanup.BatchStep | scripts/run-job-runtime-load-test.js:304-310 | one batch changes the counts of its own ids and of no other batch |
| SoakCleanup.DeleteLoadRows | scripts/run-job-runtime-load-test.js:321-344 | the same for the six calls of the load cleanup's transaction, with its row counts and residual count |
| SoakCleanup.LostLoadCommitReply | scripts/run-job-runtime-load-test.js:333-344 | a server on which this deletion throws and the rows are gone |
| SoakCleanup.CleanupLoadData | scripts/run-job-runtime-load-test.js:316-348 | a normal return leaves no target row and no referenced job, everything else in place, and reports the jobs, references and rows of every table exactly; no transaction stays open |
| SoakCleanup.SoakCleanedMeans | scripts/cleanup-runtime-soak-run.js:122-143 | row by row and job by job, what the contract of a normal return of the soak cleanup means: exactly the target's are gone and every other is as it was |
| SoakCleanup.LoadCleanedMeans | scripts/run-job-runtime-load-test.js:295-348 | the same of the load cleanup: exactly the target's rows and the jobs its deliveries referred to |
| ChildProcess.BufferedIsTail | scripts/run-runtime-soak.js:30-32 | however output is cut into chunks, the buffer is the last bytes of all of it |
| ChildProcess.NeverOverLimit | scripts/run-runtime-soak.js:30-51 | in no order of events does the buffer, or what a result captured, exceed the diagnostic limit |
| ChildProcess.Supervisor.OnData | scripts/run-runtime-soak.js:50-51 | a chunk changes the buffer and nothing else |
| ChildProcess.Supervisor.OnTimeout | scripts/run-runtime-soak.js:52-56 | the timeout sends SIGTERM and arms the kill timer |
| ChildProcess.Supervisor.OnKillTimeout | scripts/run-runtime-soak.js:55 | the kill timer sends SIGKILL |
| ChildProcess.Supervisor.SettleWith | scripts/run-runtime-soak.js:57-69 | settling resolves once, disarms both timers and later calls do nothing |
| ChildProcess.Supervisor.OnError | scripts/run-runtime-soak.js:70-72 | a spawn error settles as failed |
| ChildProcess.Supervisor.OnClose | scripts/run-runtime-soak.js:73-75 | a close settles by exit code and timeout flag |
| ChildProcess.AllOrders | scripts/run-runtime-soak.js:41-77 | after any order of events the flags, both timers, the signals and the buffer say exactly what happened: SIGTERM was sent if and only if the timeout fired, and SIGKILL if and only if the kill timer did |
| ChildProcess.ResultAtFirst | scripts/run-runtime-soak.js:57-75 | the result is fixed by the first settling event |
| ChildProcess.ResolvesOnce | scripts/run-runtime-soak.js:41-77 | in every order it resolves at most once, ok exactly when the first settling event is a close with code 0 before the timeout, with the code or signal of that event and exactly the last bytes received until then |
| ChildProcess.SignalsStop | scripts/run-runtime-soak.js:52-61 | no signal is sent after settling |
| ChildProcess.NextIff | scripts/run-runtime-soak.js:41-77 | which event can happen next, in terms of those that did: timers fire once and not after settling, the kill timer only after the timeout, error and close come once each |
| Complexity.ComplexityVisitor.Visit | dev-standards/tooling/maintainability_core.py:169-190 | one visit adds the tree's cost, raises the maximum to the tree's depth below the current nesting, and restores the nesting counter |
| Complexity.ComplexityVisitor.VisitBoolOp | dev-standards/tooling/maintainability_core.py:174-176 | a boolean operator adds its operands after the first |
| Complexity.ComplexityVisitor.GenericVisit | dev-standards/tooling/maintainability_core.py:178-187 | branch nodes count once, nesting nodes deepen their children only |
| Complexity.CostCountsNodes | dev-standards/tooling/maintainability_core.py:147-190 | the cost of a tree is its number of branch nodes plus the operands after the first of each boolean operator, over all nodes |
| Complexity.DepthBoundsPaths | dev-standards/tooling/maintainability_core.py:178-187 | no way down a tree passes more nesting nodes than its depth |
| Complexity.DepthIsReached | dev-standards/tooling/maintainability_core.py:178-187 | some way down passes that many |
| Complexity.KindsWeigh | dev-standards/tooling/maintainability_core.py:147-190 | the cost and the depth of a single node, kind by kind |
| Complexity.LengthCountsLines | dev-standards/tooling/maintainability_core.py:204-220 | the length of a function is the number of its lines; it is long exactly when there is at least one more than the limit |
| Complexity.FlattenIsFlat | dev-standards/tooling/maintainability_core.py:174-176 | flattening leaves no boolean operator directly under its like |
| Complexity.FlattenKeeps | dev-standards/tooling/maintainability_core.py:174-176 | flattening nested boolean expressions at every depth keeps complexity and nesting |
| Complexity.PythonMetrics | dev-standards/tooling/maintainability_core.py:197-220 | in any walking order, the running maxima are the maxima over all functions of the file and the over-limit count is the number of long functions |
| Complexity.FileMaximaAtOutermost | dev-standards/tooling/maintainability_core.py:204-216 | the file maxima of complexity and nesting are attained at functions inside no other function, and that of length too when the lines of an inner function lie within the outer one's |
| DuplicateBlocks.RepeatedBlockCount | dev-standards/tooling/check_maintainability.py:162-171 | the loop counts the windows that occurred before |
| DuplicateBlocks.CountIsWindowsLessDistinct | dev-standards/tooling/check_maintainability.py:162-171 | the count is the number of windows less the number of distinct windows |
| DuplicateBlocks.CountsRepeats | dev-standards/tooling/check_maintainability.py:162-171 | of plain lines, a block is counted exactly when the same lines stand at an earlier place |
| DuplicateBlocks.BlankLinesIgnored | dev-standards/tooling/check_maintainability.py:163 | blank lines do not count, wherever they are |
| DuplicateBlocks.IndentationIgnored | dev-standards/tooling/check_maintainability.py:163 | nor does the white space around a line |
| DuplicateBlocks.LargerRepeatsLess | dev-standards/tooling/check_maintainability.py:162-171 | a larger block size never gives a larger count, for any two integers |
| DuplicateBlocks.NegativeSizes | dev-standards/tooling/check_maintainability.py:166-167 | with a negative size at least every line counts as a repeat |
| DuplicateBlocks.FailureImpliesWarning | dev-standards/tooling/check_maintainability.py:138-159 | every duplication failure comes with a warning, for all texts, if and only if the hard limit is not below the warning limit or is not positive |
| DuplicateBlocks.CopiesFailUnwarned | dev-standards/tooling/check_maintainability.py:138-159 | for limits the wrong way round, equal lines, one more than the hard limit, fail without a warning |
| MaterialRanges.FrontMatterEndLine | dev-standards/tooling/validate_visual_identity.py:190-196 | a line is in the front matter exactly when it is not after the end found |
| MaterialRanges.FindHeadings | dev-standards/tooling/validate_visual_identity.py:178-181 | exactly the headings, in order, with nothing but plain lines between |
| MaterialRanges.MaterialLineRanges | dev-standards/tooling/validate_visual_identity.py:171-187 | a line is in some range if and only if it is in the front matter or its nearest heading at or above is a material section; heading ranges are disjoint, ordered and inside the file |
| MaterialRanges.SectionsAgree | dev-standards/tooling/validate_visual_identity.py:182-187 | sections cut by the list of headings are those given by the nearest heading |
| MaterialRanges.HeadingDecides | dev-standards/tooling/validate_visual_identity.py:171-187 | outside the front matter one heading alone, the nearest, decides |
| MaterialRanges.MaterialHeading | dev-standards/tooling/validate_visual_identity.py:24-30 | letter by letter: the nearest line starting with two hash marks and a space makes a line material exactly when one of five titles follows, with any white space around it |
| MaterialRanges.FenceIs | dev-standards/tooling/validate_visual_identity.py:190-196 | a front matter fence is three dashes with any white space around them |
| MaterialRanges.IsMaterialDesignChange | dev-standards/tooling/validate_visual_identity.py:158-168 | the decision equals its line-by-line definition for touched and untouched files, with and without added lines |
| LintAllowlist.Validation.ExpandAllowlistEntry | scripts/lint-repo.js:199-212 | one entry for each path, or one error and none |
| LintAllowlist.Validation.ValidateAllowlistEntry | scripts/lint-repo.js:214-236 | the errors of an entry in order, duplicates judged against every key seen before |
| LintAllowlist.ValidateAllowlist | scripts/lint-repo.js:178-197 | accepted entries and all errors of a payload |
| LintAllowlist.AllErrorsEmpty | scripts/lint-repo.js:178-236 | no errors exactly when every entry names paths, every expanded entry is well formed and no key comes twice |
| LintAllowlist.AllowlistKeys | scripts/lint-repo.js:238-244 | the set of all keys of the entries |
| LintAllowlist.ApplyAllowlist | scripts/lint-repo.js:246-259 | active and suppressed findings partition the findings, each in their order |
| LintAllowlist.StaleAllowlistFindings | scripts/lint-repo.js:261-272 | a stale finding for each listed pair whose key no finding has |
| LintAllowlist.KeyIsPair | scripts/lint-repo.js:226 | without a bar in the rule, equal keys mean equal path and rule |
| LintAllowlist.KeysCollide | scripts/lint-repo.js:226 | with one, different pairs share a key |
| LintAllowlist.RunLint | scripts/lint-repo.js:278-300 | the failures of a run: allowlist errors, stale entries, active findings |
| LintAllowlist.PassMeansSameSet | scripts/lint-repo.js:278-300 | a run has no failures if and only if the allowlist is sound (metadata, safe scanned paths, allowlistable rules, nothing listed twice) and its pairs are exactly the pairs found |
| AllowlistRules.PassesIff | scripts/lint-repo.js:178-300 | in terms of the payload itself: a run passes if and only if the version is 1, every entry names scanned files by safe paths, lists some of the three rules and gives informative texts, no path and rule come twice, and a path and a rule are listed exactly when the scan finds them |
| AllowlistRules.SafePathIs | scripts/lint-repo.js:41-48 | a path is safe exactly when it is not empty, does not start with a slash and, but for a leading `./`, has no segment of two dots |
| AllowlistRules.InformativeIs | scripts/lint-repo.js:172-176 | a text is informative exactly when it says something between its white space that is none of five fillers, in any case |
| AllowlistRules.AllExpandedAre | scripts/lint-repo.js:199-212 | the entries are one for each path of each raw entry that names its paths by strings |
| AllowlistRules.AllErrorsHave | scripts/lint-repo.js:178-236 | each kind of error is reported exactly for the entries that have that fault |
| AllowlistRules.AllDuplicates | scripts/lint-repo.js:227-231 | a duplicate is reported exactly where a key was seen before, with the path and rule that repeat it |
| AllowlistRules.StaleReported | scripts/lint-repo.js:261-272 | a listed rule is reported as no longer found exactly when its path is safe and no finding has its key |
| AllowlistRules.FindingReported | scripts/lint-repo.js:246-259 | a finding is reported exactly when it is not of one of the three rules or no accepted entry has its key |

## Left out

- What is required from `lib/` and only called: the audit store, `decideMirrorAction`, release gates, the LangGraph runtime and Graphile's own tables appear as abstract steps or not at all.
- The engine's choice of the shortest digits for a double: a number is given by its digits and exponent.
- Sparse arrays, functions, dates, symbols and `toJSON` in a plan; plans come from JSON.
- SHA-256: an abstract function from text to digest.
- The `source` field of a digest, which the auditor does not compare.
- The auditor's checks that re-read files or call the evidence verifier.
- Ids and texts that are not strings, beyond being absent or present.
- Spawned commands: a function of position and argument vector.
- What a shell makes of a command text beyond words, quotes and the presence of a bare dollar sign: the values of expansions, and a first word that is an assignment or a reserved word.
- Schema keywords of the wrong YAML type are modelled as a crash, that is, as some exception other than a validation error; Python reads a few of them otherwise, such as `properties` given as a list.
- YAML keys that are not strings, dates and NaN; the regular expression engine is a parameter.
- Python's recursion limit: an endless chain of references is the outcome `Diverges`.
- Floating-point rounding and `toFixed`: rates and latencies are reals, and the graph overhead figure is given.
- The load gate's own database cleanup, whose result enters as a flag.
- The internals of a connection pool beyond connect, release and end; a session that drops during a migration. Sessions survive until closed.
- The order of ids in a cleanup query, and concurrent writers during a cleanup.
- CleanupReferencedJobs: bounds the total of unlocked workers by the jobs found, because which jobs the first attempt passes over is the server's choice; the count of each batch is exact.
- A ROLLBACK that fails: an open transaction is taken to be dropped either way.
- Force-unlocking a worker also unlocks its jobs outside the target: the frame says a job outside is unlocked only if its worker also held a job in scope.
- Redaction of diagnostics, and the second output stream, which is handled as the first.
- Git's quoting of unusual paths and the tab after paths with spaces; "no newline" lines can be taken as hunks' lines that add nothing.
- Digits other than 0 to 9 in hunk markers.
- Git numbers lines by line feeds and the section index by `splitlines`; how the two numberings differ in a document with other separators is not stated.
- Python's parsing of source text into a syntax tree: trees are given, with the operands of a boolean operator as its children.
- The other columns of the file metrics (line count, export count).
- Reading the document and asking Git for added lines and statistics: parameters of `IsMaterialDesignChange`.
- Wording of lint messages, the sort order of failures, discovery of files and the scans that produce findings: findings are given, with the five rules a scan can report.
- Allowlist entries that are not objects, on which the source throws.
- Windows path separators.
- Command-line reading, report writing, usage text, network calls and user-interface code.
