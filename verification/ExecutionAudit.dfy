// The auditor of execution reports, written without the executor: it decides
// whether a report is evidence that a saved plan was carried out.
module ExecutionAudit {
  import opened Wrappers
  import opened DeliveryPlan
  import opened Sequences
  import CommandLine

  // What one audit compares a report with. Both audits expect dryRun to be the
  // opposite of execute.
  datatype Expectations = Expectations(planDigest: Digest, stage: Stage, execute: bool, commands: seq<Command>)

  datatype AuditFailure =
    | CommandsNotArray
    | CommandCount
    | CommandId(index: nat)
    | CommandText(index: nat)
    | CommandNotReady(index: nat)
    | ResultsNotArray
    | ResultCount
    | ResultId(index: nat)
    | ResultStatus(index: nat)
    | ResultSignal(index: nat)
    | ReportSchema
    | ReportNotOk
    | ReportPlanSchema
    | DigestMismatch
    | WrongStage
    | WrongExecute
    | WrongDryRun
    | WrongCommandCount
    | ReportHasFailures
    | DryRunHasResults

  // --- the auditor -----------------------------------------------------------

  function ExpectedId(c: Command): Text {
    if c.id.Truthy() then c.id else NullText
  }

  // command.command || commandLine(command.argv || [])
  function ExpectedText(c: Command): string {
    if c.text == "" then CommandLine.CommandLine(ShownArguments(c)) else c.text
  }

  function ShownArguments(c: Command): (shown: seq<string>)
    ensures |shown| == |ArgvOf(c)|
  {
    seq(|ArgvOf(c)|, i requires 0 <= i < |ArgvOf(c)| => ArgText(ArgvOf(c)[i]))
  }

  // Executor and auditor derive the same text, each in its own way.
  lemma TextsAgree(c: Command)
    ensures ExpectedText(c) == ReportedText(c)
  {
    assert ShownArguments(c) == seq(|ArgvOf(c)|, i requires 0 <= i < |ArgvOf(c)| => ArgText(ArgvOf(c)[i]));
  }

  function CommandAt(list: seq<ReportedCommand>, i: nat): ReportedCommand {
    if i < |list| then list[i] else ReportedCommand(Undefined, Undefined, false)
  }

  function ResultAt(list: seq<Result>, i: nat): Result {
    if i < |list| then list[i] else Result(Undefined, None, "")
  }

  function CommandMismatch(i: nat, c: Command, actual: ReportedCommand): seq<AuditFailure> {
    (if actual.id == ExpectedId(c) then [] else [CommandId(i)])
    + (if actual.text == Given(ExpectedText(c)) then [] else [CommandText(i)])
    + (if actual.ready then [] else [CommandNotReady(i)])
  }

  function ResultMismatch(i: nat, c: Command, actual: Result): seq<AuditFailure> {
    (if actual.id == c.id then [] else [ResultId(i)])
    + (if actual.status == Some(0) then [] else [ResultStatus(i)])
    + (if actual.signal == "" then [] else [ResultSignal(i)])
  }

  function CommandMismatches(list: seq<ReportedCommand>, expected: seq<Command>, n: nat): seq<AuditFailure>
    requires n <= |expected|
  {
    if n == 0 then []
    else CommandMismatches(list, expected, n - 1) + CommandMismatch(n - 1, expected[n - 1], CommandAt(list, n - 1))
  }

  function ResultMismatches(list: seq<Result>, expected: seq<Command>, n: nat): seq<AuditFailure>
    requires n <= |expected|
  {
    if n == 0 then []
    else ResultMismatches(list, expected, n - 1) + ResultMismatch(n - 1, expected[n - 1], ResultAt(list, n - 1))
  }

  // What is wrong with the command list of a report, in the order of the plan.
  function CommandListProblems(report: Report, expected: seq<Command>): seq<AuditFailure> {
    match report.commands
    case None => [CommandsNotArray]
    case Some(list) =>
      (if |list| == |expected| then [] else [CommandCount]) + CommandMismatches(list, expected, |expected|)
  }

  function ResultProblems(report: Report, expected: seq<Command>): seq<AuditFailure> {
    match report.results
    case None => [ResultsNotArray]
    case Some(list) =>
      (if |list| == |expected| then [] else [ResultCount]) + ResultMismatches(list, expected, |expected|)
  }

  method CommandListFailures(report: Report, expected: seq<Command>) returns (failures: seq<AuditFailure>)
    ensures failures == CommandListProblems(report, expected)
  {
    if report.commands.None? {
      return [CommandsNotArray];
    }
    var list := report.commands.value;
    var header := if |list| == |expected| then [] else [CommandCount];
    failures := [];
    for i := 0 to |expected|
      invariant failures == CommandMismatches(list, expected, i)
    {
      failures := failures + CommandMismatch(i, expected[i], CommandAt(list, i));
    }
    failures := header + failures;
  }

  method ResultFailures(report: Report, expected: seq<Command>) returns (failures: seq<AuditFailure>)
    ensures failures == ResultProblems(report, expected)
  {
    if report.results.None? {
      return [ResultsNotArray];
    }
    var list := report.results.value;
    var header := if |list| == |expected| then [] else [ResultCount];
    failures := [];
    for i := 0 to |expected|
      invariant failures == ResultMismatches(list, expected, i)
    {
      failures := failures + ResultMismatch(i, expected[i], ResultAt(list, i));
    }
    failures := header + failures;
  }

  function Unless(met: bool, failure: AuditFailure): seq<AuditFailure> {
    if met then [] else [failure]
  }

  function DocumentFailures(report: Report): seq<AuditFailure> {
    Unless(report.schemaVersion == Given(EXECUTION_SCHEMA), ReportSchema)
    + Unless(report.ok, ReportNotOk)
    + Unless(report.planSchemaVersion == Given(PLAN_SCHEMA), ReportPlanSchema)
  }

  function RequestFailures(report: Report, expected: Expectations): seq<AuditFailure> {
    Unless(report.planDigest == Some(expected.planDigest), DigestMismatch)
    + Unless(report.stage == expected.stage, WrongStage)
    + Unless(report.execute == Some(expected.execute), WrongExecute)
  }

  function SummaryFailures(report: Report, expected: Expectations): seq<AuditFailure> {
    Unless(report.dryRun == Some(!expected.execute), WrongDryRun)
    + Unless(report.commandCount == |expected.commands|, WrongCommandCount)
    + Unless(report.failures == [], ReportHasFailures)
  }

  function HeaderFailures(report: Report, expected: Expectations): seq<AuditFailure> {
    DocumentFailures(report) + RequestFailures(report, expected) + SummaryFailures(report, expected)
  }

  function ModeProblems(report: Report, expected: Expectations): seq<AuditFailure> {
    if expected.execute then ResultProblems(report, expected.commands)
    else if report.results.Some? && report.results.value != [] then [DryRunHasResults]
    else []
  }

  method ExecutionReportFailures(report: Report, expected: Expectations) returns (failures: seq<AuditFailure>)
    ensures failures == HeaderFailures(report, expected)
                        + (CommandListProblems(report, expected.commands) + ModeProblems(report, expected))
    ensures failures == [] <==> Attests(report, expected)
  {
    var header := HeaderFailures(report, expected);
    var list := CommandListFailures(report, expected.commands);
    var results;
    if expected.execute {
      results := ResultFailures(report, expected.commands);
    } else {
      results := if report.results.Some? && report.results.value != [] then [DryRunHasResults] else [];
    }
    failures := header + (list + results);
    HeaderEmpty(report, expected);
    CommandListEmpty(report, expected.commands);
    ResultsEmpty(report, expected.commands);
  }

  // --- what acceptance means ---------------------------------------------------

  // The report lists exactly the plan's commands, in order, by id and by text,
  // each of them ready.
  predicate CommandsMatch(report: Report, expected: seq<Command>) {
    && report.commands.Some?
    && |report.commands.value| == |expected|
    && forall i :: 0 <= i < |expected| ==>
         report.commands.value[i] == ReportedCommand(ExpectedId(expected[i]), Given(ExpectedText(expected[i])), true)
  }

  // Every command of the plan, in order, exited 0 and not by a signal.
  predicate ResultsMatch(report: Report, expected: seq<Command>) {
    && report.results.Some?
    && |report.results.value| == |expected|
    && forall i :: 0 <= i < |expected| ==> report.results.value[i] == Result(expected[i].id, Some(0), "")
  }

  predicate HeaderMatches(report: Report, expected: Expectations) {
    && report.schemaVersion == Given(EXECUTION_SCHEMA)
    && report.ok
    && report.planSchemaVersion == Given(PLAN_SCHEMA)
    && report.planDigest == Some(expected.planDigest)
    && report.stage == expected.stage
    && report.execute == Some(expected.execute)
    && report.dryRun == Some(!expected.execute)
    && report.commandCount == |expected.commands|
    && report.failures == []
  }

  predicate Attests(report: Report, expected: Expectations) {
    && HeaderMatches(report, expected)
    && CommandsMatch(report, expected.commands)
    && (if expected.execute then ResultsMatch(report, expected.commands)
        else report.results.Some? ==> report.results.value == [])
  }

  lemma HeaderEmpty(report: Report, expected: Expectations)
    ensures HeaderFailures(report, expected) == [] <==> HeaderMatches(report, expected)
  {}

  // No problem exactly when the list matches one for one; so one report has no
  // problem with two lists only if they agree in length, ids, texts and order.
  lemma CommandListEmpty(report: Report, expected: seq<Command>)
    ensures CommandListProblems(report, expected) == [] <==> CommandsMatch(report, expected)
    ensures forall other: seq<Command> ::
              CommandListProblems(report, expected) == [] && CommandsMatch(report, other) ==> SameCommands(expected, other)
  {
    if report.commands.Some? {
      CommandMismatchesEmpty(report.commands.value, expected, |expected|);
    }
    forall other: seq<Command> | CommandsMatch(report, expected) && CommandsMatch(report, other)
      ensures SameCommands(expected, other)
    {
      forall i | 0 <= i < |expected| ensures SameCommand(expected[i], other[i]) {
        assert report.commands.value[i] == report.commands.value[i];
      }
    }
  }

  predicate SameCommand(a: Command, b: Command) {
    ExpectedId(a) == ExpectedId(b) && ExpectedText(a) == ExpectedText(b)
  }

  predicate SameCommands(a: seq<Command>, b: seq<Command>) {
    |a| == |b| && forall i :: 0 <= i < |a| ==> SameCommand(a[i], b[i])
  }

  lemma ResultsEmpty(report: Report, expected: seq<Command>)
    ensures ResultProblems(report, expected) == [] <==> ResultsMatch(report, expected)
  {
    if report.results.Some? {
      ResultMismatchesEmpty(report.results.value, expected, |expected|);
    }
  }

  lemma {:induction false} CommandMismatchesEmpty(list: seq<ReportedCommand>, expected: seq<Command>, n: nat)
    requires n <= |expected|
    ensures CommandMismatches(list, expected, n) == [] <==>
              forall i :: 0 <= i < n ==>
                CommandAt(list, i) == ReportedCommand(ExpectedId(expected[i]), Given(ExpectedText(expected[i])), true)
  {
    if n > 0 {
      CommandMismatchesEmpty(list, expected, n - 1);
      var c := expected[n - 1];
      var actual := CommandAt(list, n - 1);
      assert CommandMismatch(n - 1, c, actual) == []
        <==> actual == ReportedCommand(ExpectedId(c), Given(ExpectedText(c)), true);
    }
  }

  lemma {:induction false} ResultMismatchesEmpty(list: seq<Result>, expected: seq<Command>, n: nat)
    requires n <= |expected|
    ensures ResultMismatches(list, expected, n) == [] <==>
              forall i :: 0 <= i < n ==> ResultAt(list, i) == Result(expected[i].id, Some(0), "")
  {
    if n > 0 {
      ResultMismatchesEmpty(list, expected, n - 1);
      var c := expected[n - 1];
      var actual := ResultAt(list, n - 1);
      assert ResultMismatch(n - 1, c, actual) == [] <==> actual == Result(c.id, Some(0), "");
    }
  }

  // --- executor and auditor agree ------------------------------------------------

  // No result of the run was ended by a signal.
  predicate NoSignals(report: Report) {
    report.results.Some? ==>
      forall i :: 0 <= i < |report.results.value| ==> report.results.value[i].signal == ""
  }

  // A report the executor writes about a plan is accepted exactly when it says
  // ok, carries the digest, stage and mode the auditor expects, selected every
  // command of the stage, and no process was ended by a signal. In particular
  // a --command filter is accepted only when it dropped nothing.
  lemma ExecutorMeetsAuditor(plan: Plan, options: Options, objectDigest: Plan -> Digest, spawn: Spawn,
                             digest: Digest, stage: Stage, execute: bool)
    requires stage == PreMerge || stage == PostMerge
    requires Selected(plan, options).Some?
    ensures var report := Execution(plan, options, objectDigest, spawn).0.report;
            Attests(report, Expectations(digest, stage, execute, CommandGroups(plan, stage).value)) <==>
              && report.ok
              && report.planDigest == Some(digest)
              && options.stage == stage
              && options.execute == execute
              && |Selected(plan, options).value| == |CommandGroups(plan, stage).value|
              && NoSignals(report)
  {
    var commands := Selected(plan, options).value;
    var report := Execution(plan, options, objectDigest, spawn).0.report;
    var expected := Expectations(digest, stage, execute, CommandGroups(plan, stage).value);
    ReportShape(plan, commands, options, objectDigest, spawn);
    if report.ok {
      OkCommandsMatch(plan, commands, options, objectDigest, spawn);
    }
    AcceptedReport(report, options, expected, commands, plan.schemaVersion == Given(PLAN_SCHEMA));
  }

  // The same of any report that has the shape of the executor's.
  lemma AcceptedReport(report: Report, options: Options, expected: Expectations, commands: seq<Command>,
                       schemaOk: bool)
    requires report.schemaVersion == Given(EXECUTION_SCHEMA)
    requires report.planSchemaVersion == Given(PLAN_SCHEMA) <==> schemaOk
    requires report.stage == options.stage && report.commandCount == |commands|
    requires report.execute == Some(options.execute) && report.dryRun == Some(!options.execute)
    requires report.ok <==> report.failures == []
    requires report.ok ==> schemaOk && CommandsMatch(report, commands)
    requires report.ok && options.execute ==> (ResultsMatch(report, commands) <==> NoSignals(report))
    requires report.ok && !options.execute ==> report.results == Some([])
    requires options.stage == expected.stage && |commands| == |expected.commands| ==> commands == expected.commands
    ensures Attests(report, expected) <==>
              && report.ok && report.planDigest == Some(expected.planDigest)
              && options.stage == expected.stage && options.execute == expected.execute
              && |commands| == |expected.commands| && NoSignals(report)
  {}

  // The part of an execution report that does not depend on what was run.
  lemma ReportShape(plan: Plan, commands: seq<Command>, options: Options, objectDigest: Plan -> Digest, spawn: Spawn)
    requires Selected(plan, options) == Some(commands)
    ensures Execution(plan, options, objectDigest, spawn).0.Finished?
    ensures var report := Execution(plan, options, objectDigest, spawn).0.report;
            && report.schemaVersion == Given(EXECUTION_SCHEMA)
            && (plan.schemaVersion.Given? && plan.schemaVersion.s != "" ==>
                  report.planSchemaVersion == plan.schemaVersion)
            && (!plan.schemaVersion.Given? || plan.schemaVersion.s == "" ==> report.planSchemaVersion == NullText)
            && report.stage == options.stage
            && report.execute == Some(options.execute) && report.dryRun == Some(!options.execute)
            && report.commandCount == |commands|
            && (report.ok <==> report.failures == [])
            && report.planDigest.Some?
            && (options.planDigest.None? ==> report.planDigest == Some(objectDigest(plan)))
            && (options.planDigest.Some? ==> report.planDigest == options.planDigest)
  {}

  // What an ok report of the executor contains, but for signals.
  lemma OkCommandsMatch(plan: Plan, commands: seq<Command>, options: Options, objectDigest: Plan -> Digest,
                        spawn: Spawn)
    requires Selected(plan, options) == Some(commands)
    requires Execution(plan, options, objectDigest, spawn).0.report.ok
    ensures plan.schemaVersion == Given(PLAN_SCHEMA)
    ensures var report := Execution(plan, options, objectDigest, spawn).0.report;
            && CommandsMatch(report, commands)
            && (options.execute ==> (ResultsMatch(report, commands) <==> NoSignals(report)))
            && (!options.execute ==> report.results == Some([]))
  {
    PreflightEmpty(plan, commands, options);
    assert FullyReady(plan, commands, options);
    ReadyCommandsMatch(plan, commands, options, objectDigest, spawn);
    if options.execute {
      OkResults(commands, options.env, spawn);
      OkResultsMatch(Execution(plan, options, objectDigest, spawn).0.report, commands);
    }
  }

  lemma OkResultsMatch(report: Report, commands: seq<Command>)
    requires report.results.Some? && |report.results.value| == |commands|
    requires forall i :: 0 <= i < |commands| ==>
      report.results.value[i].id == commands[i].id && report.results.value[i].status == Some(0)
    ensures ResultsMatch(report, commands) <==> NoSignals(report)
  {}

  lemma ReadyCommandsMatch(plan: Plan, commands: seq<Command>, options: Options, objectDigest: Plan -> Digest,
                           spawn: Spawn)
    requires Selected(plan, options) == Some(commands)
    requires FullyReady(plan, commands, options)
    ensures CommandsMatch(Execution(plan, options, objectDigest, spawn).0.report, commands)
  {
    forall i | 0 <= i < |commands|
      ensures Reported(commands[i])
           == ReportedCommand(ExpectedId(commands[i]), Given(ExpectedText(commands[i])), true)
    {
      assert CommandReady(commands[i]);
      TextsAgree(commands[i]);
    }
  }

  lemma OkResults(commands: seq<Command>, env: Env, spawn: Spawn)
    requires commands != []
    requires forall i :: 0 <= i < |commands| ==> CommandReady(commands[i]) && EnvironmentReady(commands[i], env)
    requires RunFailures(Results(Executables(commands, env), spawn)) == []
    ensures var rs := Results(Executables(commands, env), spawn);
            && |rs| == |commands|
            && forall i :: 0 <= i < |rs| ==> rs[i].id == commands[i].id && rs[i].status == Some(0)
  {
    RunDiscipline(commands, env, spawn);
  }

  // The chain of evidence. Whatever plan a report was really made from, if the
  // auditor accepts it for a saved plan and the two digests can only agree on
  // the same plan, then every post-merge command of the saved plan was spawned,
  // once, in plan order, with exactly its materialized arguments, and exited 0
  // without a signal.
  lemma AcceptedMeansExecuted(executed: Plan, saved: Plan, options: Options, objectDigest: Plan -> Digest,
                              spawn: Spawn, digestOf: Plan -> Digest)
    requires Selected(executed, options).Some?
    requires options.planDigest == Some(digestOf(executed))
    requires digestOf(executed) == digestOf(saved) ==> executed == saved
    ensures var (outcome, log) := Execution(executed, options, objectDigest, spawn);
            Attests(outcome.report, Expectations(digestOf(saved), PostMerge, true, saved.postMergeCommands)) ==>
              && |log| == |saved.postMergeCommands|
              && forall i :: 0 <= i < |log| ==>
                   && SpawnedAs(log[i], saved.postMergeCommands[i], options.env)
                   && spawn(i, log[i]) == Exit(Some(0), "")
  {
    var (outcome, log) := Execution(executed, options, objectDigest, spawn);
    if Attests(outcome.report, Expectations(digestOf(saved), PostMerge, true, saved.postMergeCommands)) {
      var commands := Selected(executed, options).value;
      ExecutorMeetsAuditor(executed, options, objectDigest, spawn, digestOf(saved), PostMerge, true);
      assert executed == saved && commands == saved.postMergeCommands;
      SpawnDiscipline(executed, options, objectDigest, spawn);
      PreflightEmpty(executed, commands, options);
      RunDiscipline(commands, options.env, spawn);
      forall i | 0 <= i < |log| ensures spawn(i, log[i]) == Exit(Some(0), "") {
        assert outcome.report.results.value[i].signal == "";
      }
    }
  }

  // An accepted dry run spawned nothing.
  lemma AcceptedDryRun(plan: Plan, options: Options, objectDigest: Plan -> Digest, spawn: Spawn, digest: Digest)
    requires Selected(plan, options).Some?
    requires Attests(Execution(plan, options, objectDigest, spawn).0.report,
                     Expectations(digest, PreMerge, false, plan.commands))
    ensures Execution(plan, options, objectDigest, spawn).1 == []
    ensures PlanReady(plan, plan.commands)
  {
    ExecutorMeetsAuditor(plan, options, objectDigest, spawn, digest, PreMerge, false);
    SpawnDiscipline(plan, options, objectDigest, spawn);
    assert Selected(plan, options).value == plan.commands;
  }

  // When a plan's command text was written by the planner, an accepted report
  // names the argument vector itself: a shell reads it back from the text.
  lemma AcceptedTextIsArgv(report: Report, expected: Expectations, i: nat, argv: seq<string>)
    requires Attests(report, expected) && i < |expected.commands|
    requires argv != [] && expected.commands[i].text == CommandLine.CommandLine(argv)
    ensures report.commands.value[i].text.Given?
    ensures CommandLine.ShellWords(report.commands.value[i].text.s, false) == Some(argv)
    ensures CommandLine.ShellWords(report.commands.value[i].text.s, true) == Some(argv) <==>
              CommandLine.NoBareDollar(argv)
  {
    CommandLine.CommandLineReads(argv, false);
    CommandLine.CommandLineReads(argv, true);
    assert CommandLine.ShellWords("", false) == Some([]);
  }

  // --- which failure is listed for what -----------------------------------------------

  lemma CommandMismatchHas(c: Command, actual: ReportedCommand, i: nat)
    ensures CommandId(i) in CommandMismatch(i, c, actual) <==> actual.id != ExpectedId(c)
    ensures CommandText(i) in CommandMismatch(i, c, actual) <==> actual.text != Given(ExpectedText(c))
    ensures CommandNotReady(i) in CommandMismatch(i, c, actual) <==> !actual.ready
  {}

  lemma ResultMismatchHas(c: Command, actual: Result, i: nat)
    ensures ResultId(i) in ResultMismatch(i, c, actual) <==> actual.id != c.id
    ensures ResultStatus(i) in ResultMismatch(i, c, actual) <==> actual.status != Some(0)
    ensures ResultSignal(i) in ResultMismatch(i, c, actual) <==> actual.signal != ""
  {}

  predicate IsAbout(failure: AuditFailure, i: nat) {
    || failure == CommandId(i) || failure == CommandText(i) || failure == CommandNotReady(i)
    || failure == ResultId(i) || failure == ResultStatus(i) || failure == ResultSignal(i)
  }

  lemma CommandMismatchIsAbout(i: nat, c: Command, actual: ReportedCommand, failure: AuditFailure)
    ensures failure in CommandMismatch(i, c, actual) ==> IsAbout(failure, i)
  {}

  lemma ResultMismatchIsAbout(i: nat, c: Command, actual: Result, failure: AuditFailure)
    ensures failure in ResultMismatch(i, c, actual) ==> IsAbout(failure, i)
  {}

  // A failure is listed when it is found for the command it is about.
  lemma {:induction false} CommandMismatchesAt(list: seq<ReportedCommand>, expected: seq<Command>, n: nat,
                                               failure: AuditFailure)
    requires n <= |expected|
    ensures failure in CommandMismatches(list, expected, n) <==>
              exists i :: 0 <= i < n && failure in CommandMismatch(i, expected[i], CommandAt(list, i))
  {
    if n > 0 {
      CommandMismatchesAt(list, expected, n - 1, failure);
      InTwo(CommandMismatches(list, expected, n - 1),
            CommandMismatch(n - 1, expected[n - 1], CommandAt(list, n - 1)), failure);
    }
  }

  lemma {:induction false} ResultMismatchesAt(list: seq<Result>, expected: seq<Command>, n: nat, failure: AuditFailure)
    requires n <= |expected|
    ensures failure in ResultMismatches(list, expected, n) <==>
              exists i :: 0 <= i < n && failure in ResultMismatch(i, expected[i], ResultAt(list, i))
  {
    if n > 0 {
      ResultMismatchesAt(list, expected, n - 1, failure);
      InTwo(ResultMismatches(list, expected, n - 1),
            ResultMismatch(n - 1, expected[n - 1], ResultAt(list, n - 1)), failure);
    }
  }

  lemma CommandProblemsHave(report: Report, expected: seq<Command>, i: nat, failure: AuditFailure)
    requires report.commands.Some? && i < |expected| && IsAbout(failure, i)
    ensures failure in CommandListProblems(report, expected) <==>
              failure in CommandMismatch(i, expected[i], CommandAt(report.commands.value, i))
    ensures CommandCount in CommandListProblems(report, expected) <==> |report.commands.value| != |expected|
  {
    var list := report.commands.value;
    CommandMismatchesAt(list, expected, |expected|, failure);
    CommandMismatchesAt(list, expected, |expected|, CommandCount);
    forall j | 0 <= j < |expected| {
      CommandMismatchIsAbout(j, expected[j], CommandAt(list, j), failure);
    }
    forall j | 0 <= j < |expected| {
      CommandMismatchIsAbout(j, expected[j], CommandAt(list, j), CommandCount);
    }
  }

  lemma ResultProblemsHave(report: Report, expected: seq<Command>, i: nat, failure: AuditFailure)
    requires report.results.Some? && i < |expected| && IsAbout(failure, i)
    ensures failure in ResultProblems(report, expected) <==>
              failure in ResultMismatch(i, expected[i], ResultAt(report.results.value, i))
    ensures ResultCount in ResultProblems(report, expected) <==> |report.results.value| != |expected|
  {
    var list := report.results.value;
    ResultMismatchesAt(list, expected, |expected|, failure);
    ResultMismatchesAt(list, expected, |expected|, ResultCount);
    forall j | 0 <= j < |expected| {
      ResultMismatchIsAbout(j, expected[j], ResultAt(list, j), failure);
    }
    forall j | 0 <= j < |expected| {
      ResultMismatchIsAbout(j, expected[j], ResultAt(list, j), ResultCount);
    }
  }

  // For each command of the plan, each kind of failure is listed exactly when
  // the reported command at its place is missing or differs in that field.
  lemma CommandFailureListed(report: Report, expected: seq<Command>, i: nat)
    requires report.commands.Some? && i < |expected|
    ensures var list, problems := report.commands.value, CommandListProblems(report, expected);
            && (CommandId(i) in problems <==> i >= |list| || list[i].id != ExpectedId(expected[i]))
            && (CommandText(i) in problems <==> i >= |list| || list[i].text != Given(ExpectedText(expected[i])))
            && (CommandNotReady(i) in problems <==> i >= |list| || !list[i].ready)
            && (CommandCount in problems <==> |list| != |expected|)
  {
    var list := report.commands.value;
    CommandMismatchHas(expected[i], CommandAt(list, i), i);
    CommandProblemsHave(report, expected, i, CommandId(i));
    CommandProblemsHave(report, expected, i, CommandText(i));
    CommandProblemsHave(report, expected, i, CommandNotReady(i));
  }

  // The same of results; the id of a missing result is undefined, and so equal
  // to that of a command without one.
  lemma ResultFailureListed(report: Report, expected: seq<Command>, i: nat)
    requires report.results.Some? && i < |expected|
    ensures var list, problems := report.results.value, ResultProblems(report, expected);
            && (ResultId(i) in problems <==> (if i < |list| then list[i].id else Undefined) != expected[i].id)
            && (ResultStatus(i) in problems <==> i >= |list| || list[i].status != Some(0))
            && (ResultSignal(i) in problems <==> i < |list| && list[i].signal != "")
            && (ResultCount in problems <==> |list| != |expected|)
  {
    var list := report.results.value;
    ResultMismatchHas(expected[i], ResultAt(list, i), i);
    ResultProblemsHave(report, expected, i, ResultId(i));
    ResultProblemsHave(report, expected, i, ResultStatus(i));
    ResultProblemsHave(report, expected, i, ResultSignal(i));
  }

  // And of the header.
  lemma HeaderFailureListed(report: Report, expected: Expectations, failure: AuditFailure)
    ensures failure in HeaderFailures(report, expected) <==>
              || (failure == ReportSchema && report.schemaVersion != Given(EXECUTION_SCHEMA))
              || (failure == ReportNotOk && !report.ok)
              || (failure == ReportPlanSchema && report.planSchemaVersion != Given(PLAN_SCHEMA))
              || (failure == DigestMismatch && report.planDigest != Some(expected.planDigest))
              || (failure == WrongStage && report.stage != expected.stage)
              || (failure == WrongExecute && report.execute != Some(expected.execute))
              || (failure == WrongDryRun && report.dryRun != Some(!expected.execute))
              || (failure == WrongCommandCount && report.commandCount != |expected.commands|)
              || (failure == ReportHasFailures && report.failures != [])
  {
    InThree(DocumentFailures(report), RequestFailures(report, expected), SummaryFailures(report, expected), failure);
    UnlessHas(report.schemaVersion == Given(EXECUTION_SCHEMA), ReportSchema, report.ok, ReportNotOk,
              report.planSchemaVersion == Given(PLAN_SCHEMA), ReportPlanSchema, failure);
    UnlessHas(report.planDigest == Some(expected.planDigest), DigestMismatch, report.stage == expected.stage,
              WrongStage, report.execute == Some(expected.execute), WrongExecute, failure);
    UnlessHas(report.dryRun == Some(!expected.execute), WrongDryRun, report.commandCount == |expected.commands|,
              WrongCommandCount, report.failures == [], ReportHasFailures, failure);
  }

  lemma UnlessHas(p: bool, a: AuditFailure, q: bool, b: AuditFailure, r: bool, c: AuditFailure, x: AuditFailure)
    ensures x in Unless(p, a) + Unless(q, b) + Unless(r, c) <==> (x == a && !p) || (x == b && !q) || (x == c && !r)
  {
    InThree(Unless(p, a), Unless(q, b), Unless(r, c), x);
  }
}
