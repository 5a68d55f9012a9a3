// The executor of a saved delivery plan: it refuses a plan that is not ready,
// and otherwise runs the selected commands in order until one fails.
module DeliveryPlan {
  import opened Selections
  import opened Sequences
  import opened Wrappers
  import CommandLine

  const PLAN_SCHEMA := "real-autonomous-delivery-plan.v1"
  const EXECUTION_SCHEMA := "real-autonomous-delivery-plan-execution.v1"

  // A string field of a JSON document, which may be missing or null.
  datatype Text = Undefined | NullText | Given(s: string) {
    predicate Truthy() { Given? && s != "" }
  }

  datatype Arg = Str(s: string) | NotAString(shown: string)

  // blockedBy is empty when the document has no array there; argv is None.
  datatype Command = Command(
    id: Text,
    ready: bool,
    blockedBy: seq<string>,
    argv: Option<seq<Arg>>,
    text: string,
    needs: seq<string>)

  datatype Plan = Plan(
    schemaVersion: Text,
    ok: bool,
    blocked: bool,
    failures: seq<string>,
    commands: seq<Command>,
    postMergeCommands: seq<Command>)

  datatype Stage = PreMerge | PostMerge | All | OtherStage(name: string)

  datatype Digest = Digest(algorithm: string, value: string)

  type Env = map<string, string>

  datatype Options = Options(
    stage: Stage,
    commandId: string,
    execute: bool,
    planDigest: Option<Digest>,
    env: Env)

  datatype Failure =
    | PlanSchema
    | PlanNotOk
    | PlanBlocked
    | PlanHasFailures(listed: seq<string>)
    | CommandNotFound(wanted: string)
    | NothingSelected
    | MissingId
    | NotReady(id: Text)
    | BlockedCommand(id: Text, reasons: seq<string>)
    | MissingArgv(id: Text)
    | ArgvNotStrings(id: Text)
    | RequiresVariable(id: Text, key: string)
    | CannotMaterialize(id: Text, name: string)
    | FailedExit(id: Text, status: Option<int>)

  // What a spawned process reports: no status when a signal ended it.
  datatype Exit = Exit(status: Option<int>, signal: string)

  // The operating system, as an arbitrary answer to the k-th spawn.
  type Spawn = (nat, seq<string>) -> Exit

  datatype Executable = Executable(id: Text, argv: seq<string>)
  datatype Result = Result(id: Text, status: Option<int>, signal: string)
  datatype ReportedCommand = ReportedCommand(id: Text, text: Text, ready: bool)

  // An execution report as the auditor may find it; the flags are None when
  // they are not booleans and the lists are None when they are not arrays.
  datatype Report = Report(
    ok: bool,
    schemaVersion: Text,
    planSchemaVersion: Text,
    planDigest: Option<Digest>,
    stage: Stage,
    execute: Option<bool>,
    dryRun: Option<bool>,
    commandCount: int,
    failures: seq<Failure>,
    commands: Option<seq<ReportedCommand>>,
    results: Option<seq<Result>>)

  datatype Outcome = BadStage | Finished(report: Report)

  // --- selection -----------------------------------------------------------

  function CommandGroups(plan: Plan, stage: Stage): Option<seq<Command>> {
    match stage
    case PreMerge => Some(plan.commands)
    case PostMerge => Some(plan.postMergeCommands)
    case All => Some(plan.commands + plan.postMergeCommands)
    case OtherStage(_) => None
  }

  function HasId(id: string): Command -> bool {
    (c: Command) => c.id == Given(id)
  }

  function WithId(commands: seq<Command>, id: string): (r: seq<Command>)
    ensures |r| <= |commands|
    ensures |r| == |commands| ==> r == commands
  {
    SelectFewer(commands, HasId(id));
    Select(commands, HasId(id))
  }

  // The filter keeps every command with the id, as often as it occurs, and no
  // other; it drops none exactly when all have the id.
  lemma WithIdKeeps(commands: seq<Command>, id: string)
    ensures forall c :: multiset(WithId(commands, id))[c] == if c.id == Given(id) then multiset(commands)[c] else 0
    ensures WithId(commands, id) == commands <==> forall c :: c in commands ==> c.id == Given(id)
  {
    forall c ensures multiset(WithId(commands, id))[c] == if c.id == Given(id) then multiset(commands)[c] else 0 {
      SelectCounts(commands, HasId(id), c);
    }
    if WithId(commands, id) == commands {
      forall c | c in commands ensures c.id == Given(id) {
        assert multiset(commands)[c] > 0;
      }
    } else if forall c :: c in commands ==> c.id == Given(id) {
      SelectAll(commands, HasId(id));
      assert false;
    }
  }

  function Selected(plan: Plan, options: Options): Option<seq<Command>> {
    match CommandGroups(plan, options.stage)
    case None => None
    case Some(commands) => Some(if options.commandId == "" then commands else WithId(commands, options.commandId))
  }

  // --- checks before anything runs ------------------------------------------

  predicate AllStrings(argv: seq<Arg>) {
    forall i :: 0 <= i < |argv| ==> argv[i].Str?
  }

  function CommandFailures(c: Command): seq<Failure> {
    (if c.id.Truthy() then [] else [MissingId])
    + (if c.ready then [] else [NotReady(c.id)])
    + (if c.blockedBy == [] then [] else [BlockedCommand(c.id, c.blockedBy)])
    + (if c.argv.None? || c.argv.value == [] then [MissingArgv(c.id)]
       else if !AllStrings(c.argv.value) then [ArgvNotStrings(c.id)] else [])
  }

  // The failures of each element, in order.
  function Each<T, F>(f: T -> seq<F>, xs: seq<T>): seq<F> {
    if xs == [] then [] else Each(f, xs[..|xs| - 1]) + f(xs[|xs| - 1])
  }

  lemma {:induction false} EachEmpty<T, F>(f: T -> seq<F>, xs: seq<T>)
    ensures Each(f, xs) == [] <==> forall i :: 0 <= i < |xs| ==> f(xs[i]) == []
  {
    if xs != [] {
      EachEmpty(f, xs[..|xs| - 1]);
      assert forall i :: 0 <= i < |xs| - 1 ==> xs[..|xs| - 1][i] == xs[i];
    }
  }

  lemma EachNext<T, F>(f: T -> seq<F>, xs: seq<T>, i: nat)
    requires i < |xs|
    ensures Each(f, xs[..i + 1]) == Each(f, xs[..i]) + f(xs[i])
  {
    assert xs[..i + 1][..i] == xs[..i];
  }

  lemma EachAll<T, F>(f: T -> seq<F>, xs: seq<T>)
    ensures Each(f, xs[..|xs|]) == Each(f, xs)
  {
    assert xs[..|xs|] == xs;
  }

  function HeaderFailures(plan: Plan, commands: seq<Command>, commandId: string): seq<Failure> {
    (if plan.schemaVersion == Given(PLAN_SCHEMA) then [] else [PlanSchema])
    + (if plan.ok then [] else [PlanNotOk])
    + (if plan.blocked then [PlanBlocked] else [])
    + (if plan.failures == [] then [] else [PlanHasFailures(plan.failures)])
    + (if commands != [] then [] else if commandId != "" then [CommandNotFound(commandId)] else [NothingSelected])
  }

  function PlanFailures(plan: Plan, commands: seq<Command>, commandId: string): seq<Failure> {
    HeaderFailures(plan, commands, commandId) + Each(CommandFailures, commands)
  }

  method PlanHeaderFailures(plan: Plan, commands: seq<Command>, commandId: string) returns (failures: seq<Failure>)
    ensures failures == HeaderFailures(plan, commands, commandId)
  {
    failures := if plan.schemaVersion == Given(PLAN_SCHEMA) then [] else [PlanSchema];
    failures := failures + if plan.ok then [] else [PlanNotOk];
    failures := failures + if plan.blocked then [PlanBlocked] else [];
    failures := failures + if plan.failures == [] then [] else [PlanHasFailures(plan.failures)];
    failures := failures +
      if commands != [] then [] else if commandId != "" then [CommandNotFound(commandId)] else [NothingSelected];
  }

  method PlanExecutionFailures(plan: Plan, commands: seq<Command>, commandId: string)
    returns (failures: seq<Failure>)
    ensures failures == PlanFailures(plan, commands, commandId)
    ensures failures == [] <==> PlanReady(plan, commands)
  {
    var header := PlanHeaderFailures(plan, commands, commandId);
    failures := header;
    for i := 0 to |commands|
      invariant failures == header + Each(CommandFailures, commands[..i])
    {
      EachNext(CommandFailures, commands, i);
      failures := failures + CommandFailures(commands[i]);
    }
    EachAll(CommandFailures, commands);
    PlanFailuresEmpty(plan, commands, commandId);
  }

  predicate CommandReady(c: Command) {
    c.id.Truthy() && c.ready && c.blockedBy == [] && c.argv.Some? && c.argv.value != [] && AllStrings(c.argv.value)
  }

  predicate PlanReady(plan: Plan, commands: seq<Command>) {
    && plan.schemaVersion == Given(PLAN_SCHEMA)
    && plan.ok && !plan.blocked && plan.failures == []
    && commands != []
    && forall i :: 0 <= i < |commands| ==> CommandReady(commands[i])
  }

  lemma PlanFailuresEmpty(plan: Plan, commands: seq<Command>, commandId: string)
    ensures PlanFailures(plan, commands, commandId) == [] <==> PlanReady(plan, commands)
  {
    EachEmpty(CommandFailures, commands);
    HeaderEmpty(plan, commands, commandId);
    forall i | 0 <= i < |commands| ensures CommandFailures(commands[i]) == [] <==> CommandReady(commands[i]) {
      CommandFailuresEmpty(commands[i]);
    }
  }

  lemma HeaderEmpty(plan: Plan, commands: seq<Command>, commandId: string)
    ensures HeaderFailures(plan, commands, commandId) == []
       <==> plan.schemaVersion == Given(PLAN_SCHEMA) && plan.ok && !plan.blocked && plan.failures == [] && commands != []
  {}

  lemma CommandFailuresEmpty(c: Command)
    ensures CommandFailures(c) == [] <==> CommandReady(c)
  {}

  // --- environment -----------------------------------------------------------

  predicate HasValue(env: Env, key: string) {
    key in env && env[key] != ""
  }

  function VariableFailure(env: Env, id: Text): string -> seq<Failure> {
    (key: string) => if HasValue(env, key) then [] else [RequiresVariable(id, key)]
  }

  function VariableFailures(env: Env): Command -> seq<Failure> {
    (c: Command) => Each(VariableFailure(env, c.id), c.needs)
  }

  // The inner loop: the missing variables of one command.
  method AddVariableFailures(failures: seq<Failure>, c: Command, env: Env) returns (more: seq<Failure>)
    ensures more == failures + VariableFailures(env)(c)
  {
    more := failures;
    for j := 0 to |c.needs|
      invariant more == failures + Each(VariableFailure(env, c.id), c.needs[..j])
    {
      EachNext(VariableFailure(env, c.id), c.needs, j);
      if !HasValue(env, c.needs[j]) {
        more := more + [RequiresVariable(c.id, c.needs[j])];
      }
    }
    EachAll(VariableFailure(env, c.id), c.needs);
  }

  method RequiredEnvFailures(commands: seq<Command>, env: Env) returns (failures: seq<Failure>)
    ensures failures == Each(VariableFailures(env), commands)
  {
    failures := [];
    for i := 0 to |commands|
      invariant failures == Each(VariableFailures(env), commands[..i])
    {
      EachNext(VariableFailures(env), commands, i);
      failures := AddVariableFailures(failures, commands[i], env);
    }
    EachAll(VariableFailures(env), commands);
  }

  predicate IsNameChar(c: char) {
    'A' <= c <= 'Z' || c == '_' || '0' <= c <= '9'
  }

  // ^\$([A-Z_][A-Z0-9_]*)$
  predicate IsPlaceholder(s: string) {
    |s| >= 2 && s[0] == '$' && IsNameChar(s[1]) && !('0' <= s[1] <= '9')
    && forall i :: 1 <= i < |s| ==> IsNameChar(s[i])
  }

  function ArgText(arg: Arg): string {
    match arg
    case Str(s) => s
    case NotAString(shown) => shown
  }

  function MaterializeArg(arg: Arg, env: Env): Option<string> {
    var s := ArgText(arg);
    if !IsPlaceholder(s) then Some(s)
    else if HasValue(env, s[1..]) then Some(env[s[1..]])
    else None
  }

  function ArgvOf(c: Command): seq<Arg> {
    if c.argv.Some? then c.argv.value else []
  }

  function ArgValue(env: Env): Arg -> seq<string> {
    (arg: Arg) =>
      match MaterializeArg(arg, env)
      case Some(value) => [value]
      case None => []
  }

  function ArgFailure(env: Env, id: Text): Arg -> seq<Failure> {
    (arg: Arg) => if MaterializeArg(arg, env).Some? then [] else [CannotMaterialize(id, ArgText(arg)[1..])]
  }

  function MaterializedArgs(argv: seq<Arg>, env: Env): seq<string> {
    Each(ArgValue(env), argv)
  }

  function ArgFailures(env: Env): Command -> seq<Failure> {
    (c: Command) => Each(ArgFailure(env, c.id), ArgvOf(c))
  }

  method MaterializeCommand(c: Command, env: Env) returns (argv: seq<string>, failures: seq<Failure>)
    ensures argv == MaterializedArgs(ArgvOf(c), env) && failures == ArgFailures(env)(c)
  {
    argv, failures := [], [];
    var args := ArgvOf(c);
    for i := 0 to |args|
      invariant argv == Each(ArgValue(env), args[..i])
      invariant failures == Each(ArgFailure(env, c.id), args[..i])
    {
      EachNext(ArgValue(env), args, i);
      EachNext(ArgFailure(env, c.id), args, i);
      var materialized := MaterializeArg(args[i], env);
      if materialized.Some? {
        argv := argv + [materialized.value];
      } else {
        failures := failures + [CannotMaterialize(c.id, ArgText(args[i])[1..])];
      }
    }
    EachAll(ArgValue(env), args);
    EachAll(ArgFailure(env, c.id), args);
  }

  function ExecutableOf(c: Command, env: Env): Executable {
    Executable(c.id, MaterializedArgs(ArgvOf(c), env))
  }

  function Executables(commands: seq<Command>, env: Env): (es: seq<Executable>)
    ensures |es| == |commands|
    ensures forall i :: 0 <= i < |es| ==> es[i] == ExecutableOf(commands[i], env)
  {
    seq(|commands|, i requires 0 <= i < |commands| => ExecutableOf(commands[i], env))
  }

  // The first i commands, materialized.
  ghost predicate AreExecutables(executables: seq<Executable>, commands: seq<Command>, env: Env, i: nat) {
    |executables| == i <= |commands| && forall j :: 0 <= j < i ==> executables[j] == ExecutableOf(commands[j], env)
  }

  lemma OneMoreExecutable(executables: seq<Executable>, commands: seq<Command>, env: Env, i: nat)
    requires i < |commands| && AreExecutables(executables, commands, env, i)
    ensures AreExecutables(executables + [ExecutableOf(commands[i], env)], commands, env, i + 1)
  {}

  lemma AllExecutables(commands: seq<Command>, env: Env, executables: seq<Executable>)
    requires AreExecutables(executables, commands, env, |commands|)
    ensures executables == Executables(commands, env)
  {}

  method ExecutableCommands(commands: seq<Command>, env: Env)
    returns (executables: seq<Executable>, failures: seq<Failure>)
    ensures executables == Executables(commands, env)
    ensures failures == Each(ArgFailures(env), commands)
  {
    executables, failures := [], [];
    for i := 0 to |commands|
      invariant AreExecutables(executables, commands, env, i)
      invariant failures == Each(ArgFailures(env), commands[..i])
    {
      EachNext(ArgFailures(env), commands, i);
      OneMoreExecutable(executables, commands, env, i);
      var argv, faults := MaterializeCommand(commands[i], env);
      failures := failures + faults;
      executables := executables + [Executable(commands[i].id, argv)];
    }
    EachAll(ArgFailures(env), commands);
    AllExecutables(commands, env, executables);
  }

  // Every variable a command names, in its requirements or its arguments, has
  // a value.
  predicate EnvironmentReady(c: Command, env: Env) {
    && (forall i :: 0 <= i < |c.needs| ==> HasValue(env, c.needs[i]))
    && (forall i :: 0 <= i < |ArgvOf(c)| ==> ArgReady(ArgvOf(c)[i], env))
  }

  predicate ArgReady(arg: Arg, env: Env) {
    IsPlaceholder(ArgText(arg)) ==> HasValue(env, ArgText(arg)[1..])
  }

  lemma VariablesPresent(c: Command, env: Env)
    ensures VariableFailures(env)(c) == [] <==> forall i :: 0 <= i < |c.needs| ==> HasValue(env, c.needs[i])
  {
    EachEmpty(VariableFailure(env, c.id), c.needs);
    assert VariableFailures(env)(c) == Each(VariableFailure(env, c.id), c.needs);
  }

  lemma ArgumentsPresent(c: Command, env: Env)
    ensures ArgFailures(env)(c) == [] <==> forall i :: 0 <= i < |ArgvOf(c)| ==> ArgReady(ArgvOf(c)[i], env)
  {
    var argv := ArgvOf(c);
    EachEmpty(ArgFailure(env, c.id), argv);
    assert ArgFailures(env)(c) == Each(ArgFailure(env, c.id), argv);
    forall i | 0 <= i < |argv| ensures ArgFailure(env, c.id)(argv[i]) == [] <==> ArgReady(argv[i], env) {
      ArgumentPresent(argv[i], env, c.id);
    }
  }

  lemma ArgumentPresent(arg: Arg, env: Env, id: Text)
    ensures ArgFailure(env, id)(arg) == [] <==> ArgReady(arg, env)
  {}

  lemma EnvironmentFailuresEmpty(c: Command, env: Env)
    ensures VariableFailures(env)(c) == [] && ArgFailures(env)(c) == [] <==> EnvironmentReady(c, env)
  {
    VariablesPresent(c, env);
    ArgumentsPresent(c, env);
  }

  // When nothing is missing, every argument is itself or its variable's value.
  lemma {:induction false} MaterializedExactly(argv: seq<Arg>, env: Env)
    requires forall i :: 0 <= i < |argv| ==> MaterializeArg(argv[i], env).Some?
    ensures |MaterializedArgs(argv, env)| == |argv|
    ensures forall i :: 0 <= i < |argv| ==> MaterializedArgs(argv, env)[i] == MaterializeArg(argv[i], env).value
  {
    if argv != [] {
      var n := |argv| - 1;
      MaterializedExactly(argv[..n], env);
      assert MaterializedArgs(argv, env) == MaterializedArgs(argv[..n], env) + [MaterializeArg(argv[n], env).value];
    }
  }

  // --- running ---------------------------------------------------------------

  // The results of running from the k-th command on, up to the first failure.
  function RunFrom(executables: seq<Executable>, spawn: Spawn, k: nat): (results: seq<Result>)
    requires k <= |executables|
    ensures |results| <= |executables| - k
    decreases |executables| - k
  {
    if k == |executables| then []
    else
      var e := executables[k];
      var exit := spawn(k, e.argv);
      [Result(e.id, exit.status, exit.signal)]
      + if exit.status == Some(0) then RunFrom(executables, spawn, k + 1) else []
  }

  function Results(executables: seq<Executable>, spawn: Spawn): seq<Result> {
    RunFrom(executables, spawn, 0)
  }

  // The argument vectors handed to the operating system, in order.
  function SpawnLog(executables: seq<Executable>, spawn: Spawn): seq<seq<string>> {
    var n := |Results(executables, spawn)|;
    seq(n, i requires 0 <= i < n => executables[i].argv)
  }

  function ReportedText(c: Command): string {
    if c.text != "" then c.text
    else CommandLine.CommandLine(seq(|ArgvOf(c)|, i requires 0 <= i < |ArgvOf(c)| => ArgText(ArgvOf(c)[i])))
  }

  function Reported(c: Command): ReportedCommand {
    ReportedCommand(c.id, Given(ReportedText(c)), c.ready)
  }

  function ReportedCommands(commands: seq<Command>): seq<ReportedCommand> {
    seq(|commands|, i requires 0 <= i < |commands| => Reported(commands[i]))
  }

  function ReportFor(plan: Plan, commands: seq<Command>, options: Options, objectDigest: Plan -> Digest,
                     failures: seq<Failure>, results: seq<Result>): Report
  {
    Report(
      failures == [],
      Given(EXECUTION_SCHEMA),
      if plan.schemaVersion.Truthy() then plan.schemaVersion else NullText,
      Some(if options.planDigest.Some? then options.planDigest.value else objectDigest(plan)),
      options.stage,
      Some(options.execute),
      Some(!options.execute),
      |commands|,
      failures,
      Some(ReportedCommands(commands)),
      Some(results))
  }

  function PreflightFailures(plan: Plan, commands: seq<Command>, options: Options): seq<Failure> {
    var failures := PlanFailures(plan, commands, options.commandId);
    if !options.execute then failures
    else failures + (Each(VariableFailures(options.env), commands) + Each(ArgFailures(options.env), commands))
  }

  predicate AllPassed(results: seq<Result>) {
    forall i :: 0 <= i < |results| ==> results[i].status == Some(0)
  }

  function RunFailures(results: seq<Result>): seq<Failure> {
    if results == [] || results[|results| - 1].status == Some(0) then []
    else [FailedExit(results[|results| - 1].id, results[|results| - 1].status)]
  }

  // The whole run: the report, and the argument vectors that were spawned.
  function Execution(plan: Plan, options: Options, objectDigest: Plan -> Digest, spawn: Spawn)
    : (Outcome, seq<seq<string>>)
  {
    match Selected(plan, options)
    case None => (BadStage, [])
    case Some(commands) =>
      var failures := PreflightFailures(plan, commands, options);
      if failures != [] || !options.execute then
        (Finished(ReportFor(plan, commands, options, objectDigest, failures, [])), [])
      else
        var executables := Executables(commands, options.env);
        var results := Results(executables, spawn);
        (Finished(ReportFor(plan, commands, options, objectDigest, RunFailures(results), results)),
         SpawnLog(executables, spawn))
  }

  // Spawns the commands in order and stops after the first that does not exit 0.
  method RunCommands(executables: seq<Executable>, spawn: Spawn)
    returns (results: seq<Result>, failures: seq<Failure>, log: seq<seq<string>>)
    ensures results == Results(executables, spawn)
    ensures failures == RunFailures(results)
    ensures log == SpawnLog(executables, spawn)
  {
    results, failures, log := [], [], [];
    for i := 0 to |executables|
      invariant failures == [] && RunSoFar(executables, spawn, i, results, log)
    {
      var exit := spawn(i, executables[i].argv);
      if exit.status == Some(0) {
        RunOn(executables, spawn, i, results, log);
      } else {
        RunStops(executables, spawn, i, results, log);
        failures := [FailedExit(executables[i].id, exit.status)];
      }
      log := log + [executables[i].argv];
      results := results + [Result(executables[i].id, exit.status, exit.signal)];
      if exit.status != Some(0) { return; }
    }
    RunEnds(executables, spawn, results, log);
  }

  // The first i commands ran and exited 0.
  ghost predicate RunSoFar(executables: seq<Executable>, spawn: Spawn, i: nat, results: seq<Result>,
                           log: seq<seq<string>>)
    requires i <= |executables|
  {
    && |results| == |log| == i && AllPassed(results)
    && Results(executables, spawn) == results + RunFrom(executables, spawn, i)
    && forall j :: 0 <= j < i ==> log[j] == executables[j].argv
  }

  function ResultOf(executables: seq<Executable>, spawn: Spawn, i: nat): Result
    requires i < |executables|
  {
    var exit := spawn(i, executables[i].argv);
    Result(executables[i].id, exit.status, exit.signal)
  }

  lemma RunOn(executables: seq<Executable>, spawn: Spawn, i: nat, results: seq<Result>, log: seq<seq<string>>)
    requires i < |executables| && RunSoFar(executables, spawn, i, results, log)
    requires ResultOf(executables, spawn, i).status == Some(0)
    ensures RunSoFar(executables, spawn, i + 1, results + [ResultOf(executables, spawn, i)],
                     log + [executables[i].argv])
  {
    Regroup3(results, [ResultOf(executables, spawn, i)], RunFrom(executables, spawn, i + 1));
  }

  lemma RunStops(executables: seq<Executable>, spawn: Spawn, i: nat, results: seq<Result>, log: seq<seq<string>>)
    requires i < |executables| && RunSoFar(executables, spawn, i, results, log)
    requires ResultOf(executables, spawn, i).status != Some(0)
    ensures results + [ResultOf(executables, spawn, i)] == Results(executables, spawn)
    ensures log + [executables[i].argv] == SpawnLog(executables, spawn)
  {
    assert RunFrom(executables, spawn, i) == [ResultOf(executables, spawn, i)];
    LogOf(executables, spawn, results + [ResultOf(executables, spawn, i)], log + [executables[i].argv]);
  }

  lemma RunEnds(executables: seq<Executable>, spawn: Spawn, results: seq<Result>, log: seq<seq<string>>)
    requires RunSoFar(executables, spawn, |executables|, results, log)
    ensures results == Results(executables, spawn) && log == SpawnLog(executables, spawn)
    ensures RunFailures(results) == []
  {
    assert results + [] == results;
    LogOf(executables, spawn, results, log);
  }

  lemma LogOf(executables: seq<Executable>, spawn: Spawn, results: seq<Result>, log: seq<seq<string>>)
    requires results == Results(executables, spawn) && |log| == |results|
    requires forall j :: 0 <= j < |log| ==> log[j] == executables[j].argv
    ensures log == SpawnLog(executables, spawn)
  {}

  method ExecutePlan(plan: Plan, options: Options, objectDigest: Plan -> Digest, spawn: Spawn)
    returns (outcome: Outcome, log: seq<seq<string>>)
    ensures (outcome, log) == Execution(plan, options, objectDigest, spawn)
  {
    var selected := Selected(plan, options);
    if selected.None? {
      return BadStage, [];
    }
    var commands := selected.value;
    var failures := PlanExecutionFailures(plan, commands, options.commandId);
    var executables := [];
    if options.execute {
      var missing := RequiredEnvFailures(commands, options.env);
      var unmaterialized;
      executables, unmaterialized := ExecutableCommands(commands, options.env);
      failures := failures + (missing + unmaterialized);
    }
    if failures != [] || !options.execute {
      return Finished(ReportFor(plan, commands, options, objectDigest, failures, [])), [];
    }
    var results;
    results, failures, log := RunCommands(executables, spawn);
    outcome := Finished(ReportFor(plan, commands, options, objectDigest, failures, results));
  }

  // --- what every run keeps -----------------------------------------------------

  lemma {:induction false} RunFromShape(executables: seq<Executable>, spawn: Spawn, k: nat)
    requires k <= |executables|
    ensures var rs := RunFrom(executables, spawn, k);
            && (forall i :: 0 <= i < |rs| ==>
                  rs[i] == Result(executables[k + i].id, spawn(k + i, executables[k + i].argv).status,
                                  spawn(k + i, executables[k + i].argv).signal))
            && (forall i :: 0 <= i < |rs| - 1 ==> rs[i].status == Some(0))
            && (|rs| < |executables| - k ==> rs != [] && rs[|rs| - 1].status != Some(0))
    decreases |executables| - k
  {
    if k < |executables| {
      RunFromShape(executables, spawn, k + 1);
      var rs := RunFrom(executables, spawn, k);
      var tail := RunFrom(executables, spawn, k + 1);
      if spawn(k, executables[k].argv).status == Some(0) {
        assert rs[1..] == tail;
        forall i | 0 <= i < |rs|
          ensures rs[i] == Result(executables[k + i].id, spawn(k + i, executables[k + i].argv).status,
                                  spawn(k + i, executables[k + i].argv).signal)
        {
          if i > 0 {
            assert rs[i] == tail[i - 1];
          }
        }
        forall i | 0 <= i < |rs| - 1 ensures rs[i].status == Some(0) {
          if i > 0 {
            assert rs[i] == tail[i - 1];
          }
        }
        if |rs| < |executables| - k {
          assert tail != [] && rs[|rs| - 1] == tail[|tail| - 1];
        }
      }
    }
  }

  predicate FullyReady(plan: Plan, commands: seq<Command>, options: Options) {
    && PlanReady(plan, commands)
    && (options.execute ==> forall i :: 0 <= i < |commands| ==> EnvironmentReady(commands[i], options.env))
  }

  lemma PreflightEmpty(plan: Plan, commands: seq<Command>, options: Options)
    ensures PreflightFailures(plan, commands, options) == [] <==> FullyReady(plan, commands, options)
  {
    PlanFailuresEmpty(plan, commands, options.commandId);
    EachEmpty(VariableFailures(options.env), commands);
    EachEmpty(ArgFailures(options.env), commands);
    forall i | 0 <= i < |commands|
      ensures VariableFailures(options.env)(commands[i]) == [] && ArgFailures(options.env)(commands[i]) == []
         <==> EnvironmentReady(commands[i], options.env)
    {
      EnvironmentFailuresEmpty(commands[i], options.env);
    }
  }

  // The arguments a ready command is spawned with: one for each argument of
  // the plan, with $NAME replaced by the value of NAME.
  ghost predicate SpawnedAs(argv: seq<string>, c: Command, env: Env) {
    && |argv| == |ArgvOf(c)| > 0
    && forall i :: 0 <= i < |argv| ==>
         var s := ArgText(ArgvOf(c)[i]);
         if IsPlaceholder(s) then HasValue(env, s[1..]) && argv[i] == env[s[1..]] else argv[i] == s
  }

  // In every run, what is spawned is a prefix of the selected commands in plan
  // order, each exactly as materialized, all but possibly the last exiting 0;
  // nothing is spawned unless the stage exists, execution was asked for and
  // everything is ready; and an execution reports ok exactly when all of it ran
  // with status 0.
  lemma SpawnDiscipline(plan: Plan, options: Options, objectDigest: Plan -> Digest, spawn: Spawn)
    ensures Selected(plan, options).None? ==> Execution(plan, options, objectDigest, spawn) == (BadStage, [])
    ensures Selected(plan, options).Some? ==>
            var commands := Selected(plan, options).value;
            var (outcome, log) := Execution(plan, options, objectDigest, spawn);
            && |log| <= |commands|
            && (forall i :: 0 <= i < |log| ==> SpawnedAs(log[i], commands[i], options.env))
            && (forall i :: 0 <= i < |log| - 1 ==> spawn(i, log[i]).status == Some(0))
            && (log != [] ==> options.execute && FullyReady(plan, commands, options))
            && (options.execute ==>
                  (outcome.report.ok <==>
                     && FullyReady(plan, commands, options)
                     && |log| == |commands|
                     && forall i :: 0 <= i < |log| ==> spawn(i, log[i]).status == Some(0)))
            && (!options.execute ==> log == [] && (outcome.report.ok <==> FullyReady(plan, commands, options)))
  {
    if Selected(plan, options).Some? {
      var commands := Selected(plan, options).value;
      PreflightEmpty(plan, commands, options);
      if options.execute && FullyReady(plan, commands, options) {
        RunDiscipline(commands, options.env, spawn);
      }
    }
  }

  lemma RunDiscipline(commands: seq<Command>, env: Env, spawn: Spawn)
    requires commands != []
    requires forall i :: 0 <= i < |commands| ==> CommandReady(commands[i]) && EnvironmentReady(commands[i], env)
    ensures var executables := Executables(commands, env);
            var rs := Results(executables, spawn);
            var log := SpawnLog(executables, spawn);
            && |log| == |rs| <= |commands|
            && (forall i :: 0 <= i < |log| ==> SpawnedAs(log[i], commands[i], env))
            && (forall i :: 0 <= i < |rs| ==>
                  rs[i] == Result(commands[i].id, spawn(i, log[i]).status, spawn(i, log[i]).signal))
            && (forall i :: 0 <= i < |log| - 1 ==> spawn(i, log[i]).status == Some(0))
            && (RunFailures(rs) == [] <==>
                  |log| == |commands| && forall i :: 0 <= i < |log| ==> spawn(i, log[i]).status == Some(0))
  {
    SpawnedArguments(commands, env);
    RunOutcome(Executables(commands, env), spawn);
  }

  lemma SpawnedArguments(commands: seq<Command>, env: Env)
    requires forall i :: 0 <= i < |commands| ==> CommandReady(commands[i]) && EnvironmentReady(commands[i], env)
    ensures forall i :: 0 <= i < |commands| ==> SpawnedAs(Executables(commands, env)[i].argv, commands[i], env)
  {
    forall i | 0 <= i < |commands|
      ensures SpawnedAs(Executables(commands, env)[i].argv, commands[i], env)
    {
      var args := ArgvOf(commands[i]);
      assert forall j :: 0 <= j < |args| ==> ArgReady(args[j], env);
      MaterializedExactly(args, env);
    }
  }

  lemma RunOutcome(executables: seq<Executable>, spawn: Spawn)
    requires executables != []
    ensures var rs := Results(executables, spawn);
            var log := SpawnLog(executables, spawn);
            && |log| == |rs| <= |executables|
            && (forall i :: 0 <= i < |log| ==> log[i] == executables[i].argv)
            && (forall i :: 0 <= i < |rs| ==>
                  rs[i] == Result(executables[i].id, spawn(i, log[i]).status, spawn(i, log[i]).signal))
            && (forall i :: 0 <= i < |log| - 1 ==> spawn(i, log[i]).status == Some(0))
            && (RunFailures(rs) == [] <==>
                  |log| == |executables| && forall i :: 0 <= i < |log| ==> spawn(i, log[i]).status == Some(0))
  {
    WholeRunShape(executables, spawn);
    NoFailureMeans(Results(executables, spawn), |executables|);
    OutcomeShape(executables, spawn, Results(executables, spawn), SpawnLog(executables, spawn));
  }

  lemma WholeRunShape(executables: seq<Executable>, spawn: Spawn)
    ensures var rs := Results(executables, spawn);
            && |rs| <= |executables|
            && (forall i :: 0 <= i < |rs| ==> rs[i] == ResultOf(executables, spawn, i))
            && (forall i :: 0 <= i < |rs| - 1 ==> rs[i].status == Some(0))
            && (|rs| < |executables| ==> rs != [] && rs[|rs| - 1].status != Some(0))
  {
    RunFromShape(executables, spawn, 0);
  }

  lemma OutcomeShape(executables: seq<Executable>, spawn: Spawn, rs: seq<Result>, log: seq<seq<string>>)
    requires |rs| == |log| <= |executables|
    requires forall i :: 0 <= i < |rs| ==> rs[i] == ResultOf(executables, spawn, i)
    requires forall i :: 0 <= i < |log| ==> log[i] == executables[i].argv
    requires forall i :: 0 <= i < |rs| - 1 ==> rs[i].status == Some(0)
    ensures forall i :: 0 <= i < |rs| ==>
              rs[i] == Result(executables[i].id, spawn(i, log[i]).status, spawn(i, log[i]).signal)
    ensures forall i :: 0 <= i < |log| - 1 ==> spawn(i, log[i]).status == Some(0)
    ensures AllPassed(rs) <==> forall i :: 0 <= i < |log| ==> spawn(i, log[i]).status == Some(0)
  {
    forall i | 0 <= i < |log| ensures rs[i].status == spawn(i, log[i]).status {}
  }

  // A run without a failure went through to the end.
  lemma NoFailureMeans(rs: seq<Result>, n: nat)
    requires n > 0 && |rs| <= n && forall i :: 0 <= i < |rs| - 1 ==> rs[i].status == Some(0)
    requires |rs| < n ==> rs != [] && rs[|rs| - 1].status != Some(0)
    ensures RunFailures(rs) == [] <==> |rs| == n && AllPassed(rs)
  {}

  // --- which commands a run is about ----------------------------------------------

  function Wanted(commandId: string): Command -> bool {
    (c: Command) => commandId == "" || c.id == Given(commandId)
  }

  // Each of the commands is reported, and no other.
  predicate ListsAll(commands: seq<Command>, report: Report) {
    && report.commandCount == |commands|
    && report.commands.Some? && |report.commands.value| == |commands|
    && forall k :: 0 <= k < |commands| ==>
         && report.commands.value[k].id == commands[k].id
         && report.commands.value[k].ready == commands[k].ready
         && report.commands.value[k].text == Given(ReportedText(commands[k]))
  }

  // It is these, from the first on, that are spawned and have results.
  ghost predicate RanFirst(commands: seq<Command>, report: Report, log: seq<seq<string>>, env: Env) {
    && report.results.Some? && |report.results.value| == |log| <= |commands|
    && forall k :: 0 <= k < |log| ==>
         SpawnedAs(log[k], commands[k], env) && report.results.value[k].id == commands[k].id
  }

  ghost predicate IsRunOf(commands: seq<Command>, report: Report, log: seq<seq<string>>, env: Env) {
    ListsAll(commands, report) && RanFirst(commands, report, log, env)
  }

  // A run is about the commands of its stage, pre-merge before post-merge, and
  // among them about those with the id asked for, if any, in the order of the
  // plan and as often as they occur.
  lemma RunIsAbout(plan: Plan, options: Options, objectDigest: Plan -> Digest, spawn: Spawn)
    returns (at: seq<nat>)
    requires !options.stage.OtherStage?
    ensures var whole := match options.stage
                         case PreMerge => plan.commands
                         case PostMerge => plan.postMergeCommands
                         case _ => plan.commands + plan.postMergeCommands;
            var (outcome, log) := Execution(plan, options, objectDigest, spawn);
            && ArePositions(whole, Wanted(options.commandId), at)
            && outcome.Finished? && IsRunOf(ElementsAt(whole, at), outcome.report, log, options.env)
  {
    var whole := CommandGroups(plan, options.stage).value;
    at := SelectPositions(whole, Wanted(options.commandId));
    SelectionIs(whole, options.commandId);
    SelectedIsRun(plan, Select(whole, Wanted(options.commandId)), options, objectDigest, spawn);
  }

  lemma SelectedIsRun(plan: Plan, commands: seq<Command>, options: Options, objectDigest: Plan -> Digest, spawn: Spawn)
    requires Selected(plan, options) == Some(commands)
    ensures var (outcome, log) := Execution(plan, options, objectDigest, spawn);
            outcome.Finished? && IsRunOf(commands, outcome.report, log, options.env)
  {
    var failures := PreflightFailures(plan, commands, options);
    if options.execute && failures == [] {
      PreflightEmpty(plan, commands, options);
      RunDiscipline(commands, options.env, spawn);
      var rs := Results(Executables(commands, options.env), spawn);
      ListsItsCommands(plan, commands, options, objectDigest, RunFailures(rs), rs);
    } else {
      ListsItsCommands(plan, commands, options, objectDigest, failures, []);
    }
  }

  lemma ListsItsCommands(plan: Plan, commands: seq<Command>, options: Options, objectDigest: Plan -> Digest,
                         failures: seq<Failure>, results: seq<Result>)
    ensures ListsAll(commands, ReportFor(plan, commands, options, objectDigest, failures, results))
  {}

  lemma SelectionIs(whole: seq<Command>, commandId: string)
    ensures Select(whole, Wanted(commandId)) == if commandId == "" then whole else WithId(whole, commandId)
  {
    if commandId == "" {
      SelectAll(whole, Wanted(commandId));
    } else {
      SamePick(whole, Wanted(commandId), HasId(commandId));
    }
  }

  lemma {:induction false} SamePick(s: seq<Command>, p: Command -> bool, q: Command -> bool)
    requires forall c :: p(c) == q(c)
    ensures Select(s, p) == Select(s, q)
  {
    if s != [] {
      SamePick(s[..|s| - 1], p, q);
    }
  }

  // A variable that is missing or empty keeps everything from being spawned.
  lemma EmptyVariableBlocks(plan: Plan, options: Options, objectDigest: Plan -> Digest, spawn: Spawn, c: Command,
                            key: string)
    requires Selected(plan, options).Some? && c in Selected(plan, options).value && options.execute
    requires key in c.needs || (exists arg :: arg in ArgvOf(c) && ArgText(arg) == "$" + key && IsVariable(key))
    requires key !in options.env || options.env[key] == ""
    ensures var (outcome, log) := Execution(plan, options, objectDigest, spawn);
            log == [] && outcome.Finished? && !outcome.report.ok
  {
    var commands := Selected(plan, options).value;
    var k :| 0 <= k < |commands| && commands[k] == c;
    if key in c.needs {
      var i :| 0 <= i < |c.needs| && c.needs[i] == key;
      assert !HasValue(options.env, c.needs[i]);
    } else {
      var arg :| arg in ArgvOf(c) && ArgText(arg) == "$" + key && IsVariable(key);
      var i :| 0 <= i < |ArgvOf(c)| && ArgvOf(c)[i] == arg;
      PlaceholderIs("$" + key);
      assert ("$" + key)[1..] == key;
      assert !ArgReady(ArgvOf(c)[i], options.env);
    }
    assert !EnvironmentReady(commands[k], options.env);
    SpawnDiscipline(plan, options, objectDigest, spawn);
  }

  // [A-Z_][A-Z0-9_]*
  predicate IsVariable(name: string) {
    && name != "" && !(48 <= name[0] as int <= 57)
    && forall c :: c in name ==> 65 <= c as int <= 90 || c as int == 95 || 48 <= c as int <= 57
  }

  // A placeholder is a dollar sign and the name of a variable, and nothing else.
  lemma PlaceholderIs(s: string)
    ensures IsPlaceholder(s) <==> s != "" && s[0] as int == 36 && IsVariable(s[1..])
  {
    if s != "" {
      if IsPlaceholder(s) {
        forall c | c in s[1..] ensures IsNameChar(c) {
          var i :| 0 <= i < |s[1..]| && s[1..][i] == c;
          assert s[i + 1] == c;
        }
      }
      if s[0] as int == 36 && IsVariable(s[1..]) {
        forall i | 1 <= i < |s| ensures IsNameChar(s[i]) {
          var c := s[1..][i - 1];
          assert c in s[1..] && s[i] == c;
          assert 65 <= c as int <= 90 || c as int == 95 || 48 <= c as int <= 57;
        }
        assert s[1] == s[1..][0];
      }
    }
  }

  // --- which failures a report lists ------------------------------------------------

  predicate PlanFault(plan: Plan, commands: seq<Command>, commandId: string, f: Failure) {
    match f
    case PlanSchema => plan.schemaVersion != Given(PLAN_SCHEMA)
    case PlanNotOk => !plan.ok
    case PlanBlocked => plan.blocked
    case PlanHasFailures(listed) => listed == plan.failures != []
    case CommandNotFound(wanted) => commands == [] && wanted == commandId != ""
    case NothingSelected => commands == [] && commandId == ""
    case _ => false
  }

  predicate CommandFault(c: Command, f: Failure) {
    match f
    case MissingId => !c.id.Given? || c.id.s == ""
    case NotReady(id) => id == c.id && !c.ready
    case BlockedCommand(id, reasons) => id == c.id && reasons == c.blockedBy != []
    case MissingArgv(id) => id == c.id && (c.argv.None? || c.argv.value == [])
    case ArgvNotStrings(id) => id == c.id && exists i :: 0 <= i < |ArgvOf(c)| && ArgvOf(c)[i].NotAString?
    case _ => false
  }

  predicate EnvironmentFault(c: Command, env: Env, f: Failure) {
    match f
    case RequiresVariable(id, key) => id == c.id && key in c.needs && !HasValue(env, key)
    case CannotMaterialize(id, name) =>
      && id == c.id && IsVariable(name) && !HasValue(env, name)
      && exists i :: 0 <= i < |ArgvOf(c)| && ArgText(ArgvOf(c)[i]) == "$" + name
    case _ => false
  }

  predicate LastFault(commands: seq<Command>, log: seq<seq<string>>, spawn: Spawn, f: Failure)
    requires |log| <= |commands|
  {
    f.FailedExit? && log != []
    && var n := |log| - 1;
       f == FailedExit(commands[n].id, spawn(n, log[n]).status) && f.status != Some(0)
  }

  predicate PreflightFault(plan: Plan, commands: seq<Command>, options: Options, f: Failure) {
    || PlanFault(plan, commands, options.commandId, f)
    || (exists i :: 0 <= i < |commands| && CommandFault(commands[i], f))
    || (options.execute && exists i :: 0 <= i < |commands| && EnvironmentFault(commands[i], options.env, f))
  }

  // A report lists exactly the faults of the plan and of the selected commands,
  // those of their environment if they were to be executed, and the last
  // process if it did not exit 0.
  lemma FailuresReported(plan: Plan, commands: seq<Command>, options: Options, objectDigest: Plan -> Digest,
                         spawn: Spawn, f: Failure)
    requires Selected(plan, options) == Some(commands)
    ensures var (outcome, log) := Execution(plan, options, objectDigest, spawn);
            && outcome.Finished? && |log| <= |commands|
            && (f in outcome.report.failures <==>
                  PreflightFault(plan, commands, options, f) || LastFault(commands, log, spawn, f))
  {
    PreflightHas(plan, commands, options, f);
    if options.execute && PreflightFailures(plan, commands, options) == [] {
      PreflightEmpty(plan, commands, options);
      LastFaultReported(commands, options.env, spawn, f);
    }
  }

  lemma LastFaultReported(commands: seq<Command>, env: Env, spawn: Spawn, f: Failure)
    requires commands != []
    ensures var executables := Executables(commands, env);
            && |SpawnLog(executables, spawn)| <= |commands|
            && (f in RunFailures(Results(executables, spawn)) <==>
                  LastFault(commands, SpawnLog(executables, spawn), spawn, f))
  {
    RunOutcome(Executables(commands, env), spawn);
  }

  lemma {:induction false} EachHas<T, F>(f: T -> seq<F>, xs: seq<T>, y: F)
    ensures y in Each(f, xs) <==> exists i :: 0 <= i < |xs| && y in f(xs[i])
  {
    if xs != [] {
      var n := |xs| - 1;
      EachHas(f, xs[..n], y);
      assert forall i :: 0 <= i < n ==> xs[..n][i] == xs[i];
    }
  }

  lemma PreflightHas(plan: Plan, commands: seq<Command>, options: Options, f: Failure)
    ensures f in PreflightFailures(plan, commands, options) <==> PreflightFault(plan, commands, options, f)
  {
    HeaderHas(plan, commands, options.commandId, f);
    EachHas(CommandFailures, commands, f);
    EachHas(VariableFailures(options.env), commands, f);
    EachHas(ArgFailures(options.env), commands, f);
    forall i | 0 <= i < |commands|
      ensures f in CommandFailures(commands[i]) <==> CommandFault(commands[i], f)
      ensures f in VariableFailures(options.env)(commands[i]) || f in ArgFailures(options.env)(commands[i])
         <==> EnvironmentFault(commands[i], options.env, f)
    {
      CommandHas(commands[i], f);
      EnvironmentHas(commands[i], options.env, f);
    }
  }

  lemma HeaderHas(plan: Plan, commands: seq<Command>, commandId: string, f: Failure)
    ensures f in HeaderFailures(plan, commands, commandId) <==> PlanFault(plan, commands, commandId, f)
  {}

  lemma CommandHas(c: Command, f: Failure)
    ensures f in CommandFailures(c) <==> CommandFault(c, f)
  {
    if c.argv.Some? {
      assert forall i :: 0 <= i < |c.argv.value| ==> ArgvOf(c)[i] == c.argv.value[i];
      assert AllStrings(c.argv.value) <==> forall i :: 0 <= i < |ArgvOf(c)| ==> !ArgvOf(c)[i].NotAString?;
    }
  }

  lemma EnvironmentHas(c: Command, env: Env, f: Failure)
    ensures f in VariableFailures(env)(c) || f in ArgFailures(env)(c) <==> EnvironmentFault(c, env, f)
  {
    EachHas(VariableFailure(env, c.id), c.needs, f);
    EachHas(ArgFailure(env, c.id), ArgvOf(c), f);
    forall i | 0 <= i < |ArgvOf(c)| {
      ArgumentHas(ArgvOf(c)[i], env, c.id, f);
    }
  }

  lemma ArgumentHas(arg: Arg, env: Env, id: Text, f: Failure)
    ensures f in ArgFailure(env, id)(arg) <==>
              && f.CannotMaterialize? && f.id == id && IsVariable(f.name) && !HasValue(env, f.name)
              && ArgText(arg) == "$" + f.name
  {
    var s := ArgText(arg);
    PlaceholderIs(s);
    if s != "" {
      assert s == [s[0]] + s[1..];
    }
  }

  // The text reported for a command is its own, or that of its arguments as
  // they stand in the plan, placeholders included.
  lemma ReportedTextIs(c: Command, argv: seq<string>)
    requires |argv| == |ArgvOf(c)| && forall i :: 0 <= i < |argv| ==> ArgvOf(c)[i] == Str(argv[i])
    ensures c.text != "" ==> ReportedText(c) == c.text
    ensures c.text == "" ==> ReportedText(c) == CommandLine.CommandLine(argv)
  {
    assert argv == seq(|ArgvOf(c)|, i requires 0 <= i < |ArgvOf(c)| => ArgText(ArgvOf(c)[i]));
  }
}
