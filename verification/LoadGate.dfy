// The LangGraph load gate. Workers start runs, the runtime executes the counted
// node when and as often as it likes, and the gate must not accept unless every
// run executed that node exactly once.
module LoadGate {
  import opened Wrappers
  import opened Decimal
  import opened Sequences
  import Percentiles

  // --- run ids -----------------------------------------------------------------

  // `${prefix}:${workerId}:${sequence}`
  function RunId(prefix: string, worker: nat, sequence: nat): string {
    prefix + ":" + Numeral(worker) + ":" + Numeral(sequence)
  }

  lemma RunIdInjective(prefix: string, w: nat, k: nat, v: nat, j: nat)
    requires RunId(prefix, w, k) == RunId(prefix, v, j)
    ensures w == v && k == j
  {
    RunIdParts(prefix, w, k);
    RunIdParts(prefix, v, j);
    PairInjective(w, k, v, j);
  }

  lemma RunIdParts(prefix: string, w: nat, k: nat)
    ensures var head := prefix + ":";
            |RunId(prefix, w, k)| >= |head| && RunId(prefix, w, k)[|head|..] == Numeral(w) + (":" + Numeral(k))
  {
    Regroup4(prefix + ":", Numeral(w), ":", Numeral(k));
    Cut(prefix + ":", Numeral(w) + (":" + Numeral(k)));
  }

  // A numeral ends where the colon is.
  lemma PairInjective(w: nat, k: nat, v: nat, j: nat)
    requires Numeral(w) + (":" + Numeral(k)) == Numeral(v) + (":" + Numeral(j))
    ensures w == v && k == j
  {
    DigitRunOfNumeral(Numeral(w), ":" + Numeral(k));
    DigitRunOfNumeral(Numeral(v), ":" + Numeral(j));
    SplitAt(Numeral(w), ":", Numeral(k), Numeral(v), ":", Numeral(j));
    NumeralInjective(w, v);
    NumeralInjective(k, j);
  }

  lemma SplitAt(a: string, c: string, b: string, x: string, d: string, y: string)
    requires a + (c + b) == x + (d + y) && |a| == |x| && |c| == |d|
    ensures a == x && b == y
  {
    assert (a + (c + b))[..|a|] == a && (x + (d + y))[..|x|] == x;
    assert (a + (c + b))[|a| + |c|..] == b && (x + (d + y))[|x| + |d|..] == y;
  }

  // --- the counters -------------------------------------------------------------

  // One entry of the nodeExecutions map, in insertion order.
  datatype Execution = Execution(runId: string, count: nat)

  datatype Tally = Tally(
    executions: seq<Execution>,
    completed: nat,
    failures: nat,
    failedAfterSideEffect: nat)

  predicate Has(executions: seq<Execution>, id: string) {
    exists i :: 0 <= i < |executions| && executions[i].runId == id
  }

  // nodeExecutions.set(id, (nodeExecutions.get(id) || 0) + 1)
  function Bump(executions: seq<Execution>, id: string): seq<Execution> {
    if executions == [] then [Execution(id, 1)]
    else if executions[0].runId == id then [Execution(id, executions[0].count + 1)] + executions[1..]
    else [executions[0]] + Bump(executions[1..], id)
  }

  function CountOf(executions: seq<Execution>, id: string): nat {
    if executions == [] then 0
    else if executions[0].runId == id then executions[0].count
    else CountOf(executions[1..], id)
  }

  function Failed(t: Tally, id: string): Tally {
    t.(failures := t.failures + 1,
       failedAfterSideEffect := t.failedAfterSideEffect + if Has(t.executions, id) then 1 else 0)
  }

  // The objects the workers share: the result record and the map of node
  // executions.
  class Counters {
    var executions: seq<Execution>
    var completed: nat
    var failures: nat
    var failedAfterSideEffect: nat

    constructor ()
      ensures Value() == Tally([], 0, 0, 0)
    {
      executions, completed, failures, failedAfterSideEffect := [], 0, 0, 0;
    }

    function Value(): Tally
      reads this
    {
      Tally(executions, completed, failures, failedAfterSideEffect)
    }

    // The counted node.
    method Execute(id: string)
      modifies this`executions
      ensures Value() == old(Value()).(executions := Bump(old(executions), id))
    {
      var i := 0;
      while i < |executions| && executions[i].runId != id
        invariant i <= |executions| && executions == old(executions)
        invariant Bump(old(executions), id) == executions[..i] + Bump(executions[i..], id)
      {
        BumpLater(executions, i, id);
        i := i + 1;
      }
      if i < |executions| {
        executions := executions[..i] + [Execution(id, executions[i].count + 1)] + executions[i + 1..];
      } else {
        executions := executions + [Execution(id, 1)];
      }
    }

    method RecordCompleted()
      modifies this`completed
      ensures Value() == old(Value()).(completed := old(completed) + 1)
    {
      completed := completed + 1;
    }

    method RecordFailure(id: string)
      modifies this`failures, this`failedAfterSideEffect
      ensures Value() == Failed(old(Value()), id)
    {
      failures := failures + 1;
      if Has(executions, id) {
        failedAfterSideEffect := failedAfterSideEffect + 1;
      }
    }
  }

  lemma BumpLater(executions: seq<Execution>, i: nat, id: string)
    requires i < |executions| && executions[i].runId != id
    ensures executions[..i] + Bump(executions[i..], id) == executions[..i + 1] + Bump(executions[i + 1..], id)
  {
    assert executions[i..][1..] == executions[i + 1..];
  }

  // --- interleavings ---------------------------------------------------------------

  // A worker has finished some attempts and may be inside another.
  datatype Worker = Idle(finished: nat) | Running(finished: nat) | Stopped(finished: nat)

  datatype State = State(workers: seq<Worker>, tally: Tally)

  // One step of the event loop. Execute is the runtime running the counted
  // node for a run that some worker has invoked, during it or later.
  datatype Event =
    | Begin(worker: nat)
    | Execute(worker: nat, sequence: nat)
    | Complete(worker: nat)
    | Fail(worker: nat)
    | Deadline(worker: nat)

  function Started(w: Worker): nat {
    if w.Running? then w.finished + 1 else w.finished
  }

  predicate Enabled(s: State, e: Event) {
    && e.worker < |s.workers|
    && match e
       case Begin(w) => s.workers[w].Idle?
       case Execute(w, sequence) => sequence < Started(s.workers[w])
       case Complete(w) => s.workers[w].Running?
       case Fail(w) => s.workers[w].Running?
       case Deadline(w) => s.workers[w].Idle?
  }

  function Apply(prefix: string, s: State, e: Event): State
    requires Enabled(s, e)
  {
    var w := s.workers[e.worker];
    match e
    case Begin(i) => s.(workers := s.workers[i := Running(w.finished)])
    case Execute(i, sequence) =>
      s.(tally := s.tally.(executions := Bump(s.tally.executions, RunId(prefix, i, sequence))))
    case Complete(i) =>
      State(s.workers[i := Idle(w.finished + 1)], s.tally.(completed := s.tally.completed + 1))
    case Fail(i) =>
      State(s.workers[i := Idle(w.finished + 1)], Failed(s.tally, RunId(prefix, i, w.finished)))
    case Deadline(i) => s.(workers := s.workers[i := Stopped(w.finished)])
  }

  function Initial(concurrency: nat): State {
    State(seq(concurrency, _ => Idle(0)), Tally([], 0, 0, 0))
  }

  // The events can happen one after the other.
  predicate Possible(prefix: string, s: State, events: seq<Event>)
    decreases |events|
  {
    events == [] || (Enabled(s, events[0]) && Possible(prefix, Apply(prefix, s, events[0]), events[1..]))
  }

  function After(prefix: string, s: State, events: seq<Event>): State
    requires Possible(prefix, s, events)
    decreases |events|
  {
    if events == [] then s else After(prefix, Apply(prefix, s, events[0]), events[1..])
  }

  // --- what every step keeps ----------------------------------------------------------

  function Finishes(workers: seq<Worker>): nat {
    if workers == [] then 0 else Finishes(workers[..|workers| - 1]) + workers[|workers| - 1].finished
  }

  // A run id some worker has started.
  ghost predicate Attempted(prefix: string, workers: seq<Worker>, id: string) {
    exists w, k :: 0 <= w < |workers| && 0 <= k < Started(workers[w]) && id == RunId(prefix, w, k)
  }

  ghost predicate DistinctIds(executions: seq<Execution>) {
    forall i, j :: 0 <= i < j < |executions| ==> executions[i].runId != executions[j].runId
  }

  // Attempts are accounted for, and the map holds each attempted run at most
  // once, with a positive count.
  ghost predicate Inv(prefix: string, s: State) {
    && s.tally.completed + s.tally.failures == Finishes(s.workers)
    && s.tally.failedAfterSideEffect <= s.tally.failures
    && DistinctIds(s.tally.executions)
    && forall i :: 0 <= i < |s.tally.executions| ==>
         s.tally.executions[i].count > 0 && Attempted(prefix, s.workers, s.tally.executions[i].runId)
  }

  lemma {:induction false} FinishesUpdate(workers: seq<Worker>, i: nat, w: Worker)
    requires i < |workers|
    ensures Finishes(workers[i := w]) == Finishes(workers) - workers[i].finished + w.finished
  {
    var n := |workers| - 1;
    if i == n {
      assert workers[i := w][..n] == workers[..n];
    } else {
      FinishesUpdate(workers[..n], i, w);
      assert workers[i := w][..n] == workers[..n][i := w];
    }
  }

  lemma {:induction false} BumpKeeps(executions: seq<Execution>, id: string)
    requires DistinctIds(executions)
    ensures var r := Bump(executions, id);
            && DistinctIds(r)
            && (forall i :: 0 <= i < |r| ==> r[i].runId == id || r[i] in executions)
            && (forall i :: 0 <= i < |r| && r[i].runId == id ==> r[i].count > 0)
  {
    if executions != [] && executions[0].runId != id {
      BumpKeeps(executions[1..], id);
      var r := Bump(executions[1..], id);
      forall j | 0 <= j < |r| ensures executions[0].runId != r[j].runId {
        if r[j].runId != id {
          assert r[j] in executions[1..];
        }
      }
    }
  }

  lemma StillAttempted(prefix: string, before: seq<Worker>, after: seq<Worker>, id: string)
    requires |before| == |after| && forall w :: 0 <= w < |before| ==> Started(before[w]) <= Started(after[w])
    requires Attempted(prefix, before, id)
    ensures Attempted(prefix, after, id)
  {
    var w, k :| 0 <= w < |before| && 0 <= k < Started(before[w]) && id == RunId(prefix, w, k);
    assert 0 <= k < Started(after[w]);
  }

  lemma StepKeepsInv(prefix: string, s: State, e: Event)
    requires Inv(prefix, s) && Enabled(s, e)
    ensures Inv(prefix, Apply(prefix, s, e))
  {
    var t := Apply(prefix, s, e);
    if e.Execute? {
      var id := RunId(prefix, e.worker, e.sequence);
      assert Attempted(prefix, s.workers, id);
      BumpKeeps(s.tally.executions, id);
    } else {
      FinishesUpdate(s.workers, e.worker, t.workers[e.worker]);
      forall i | 0 <= i < |t.tally.executions|
        ensures Attempted(prefix, t.workers, t.tally.executions[i].runId)
      {
        StillAttempted(prefix, s.workers, t.workers, s.tally.executions[i].runId);
      }
    }
  }

  lemma {:induction false} RunKeepsInv(prefix: string, s: State, events: seq<Event>)
    requires Inv(prefix, s) && Possible(prefix, s, events)
    ensures Inv(prefix, After(prefix, s, events))
    ensures |After(prefix, s, events).workers| == |s.workers|
    decreases |events|
  {
    if events != [] {
      StepKeepsInv(prefix, s, events[0]);
      RunKeepsInv(prefix, Apply(prefix, s, events[0]), events[1..]);
    }
  }

  lemma {:induction false} NothingFinished(n: nat)
    ensures Finishes(seq(n, _ => Idle(0))) == 0
  {
    if n > 0 {
      var workers: seq<Worker> := seq(n, _ => Idle(0));
      assert workers[..n - 1] == seq(n - 1, _ => Idle(0));
      NothingFinished(n - 1);
    }
  }

  lemma InitialInv(prefix: string, concurrency: nat)
    ensures Inv(prefix, Initial(concurrency))
  {
    NothingFinished(concurrency);
  }

  // --- the artifact -------------------------------------------------------------------

  function Observed(executions: seq<Execution>): nat {
    if executions == [] then 0 else executions[0].count + Observed(executions[1..])
  }

  function Duplicates(executions: seq<Execution>): nat {
    if executions == [] then 0
    else (if executions[0].count > 1 then executions[0].count - 1 else 0) + Duplicates(executions[1..])
  }

  // Everything else the gate looks at.
  datatype Measured = Measured(
    checkpointWrites: seq<real>,
    checkpointReads: seq<real>,
    statuses: seq<real>,
    resumes: seq<real>,
    writeBudget: real,
    readBudget: real,
    graphOverheadPercent: real,
    poolPeak: int,
    poolBudget: int,
    endingActive: int,
    endingWaiters: int,
    cleanupPassed: bool)

  datatype Artifact = Artifact(
    failures: nat,
    duplicateSideEffects: nat,
    sideEffectCountMatchesCompleted: bool,
    writeP95: real,
    readP95: real,
    statusP95: real,
    resumeP95: real,
    measured: Measured)

  // percentile(...) || 0
  function P95(values: seq<real>): real {
    match Percentiles.Percentile(values, 0.95)
    case None => 0.0
    case Some(v) => v
  }

  function BuildArtifact(tally: Tally, m: Measured): Artifact {
    Artifact(tally.failures, Duplicates(tally.executions), Observed(tally.executions) == tally.completed,
             P95(m.checkpointWrites), P95(m.checkpointReads), P95(m.statuses), P95(m.resumes), m)
  }

  predicate EvaluateArtifact(a: Artifact) {
    && a.failures == 0
    && a.writeP95 < a.measured.writeBudget
    && a.readP95 < a.measured.readBudget
    && a.statusP95 < 250.0 && a.resumeP95 < 2000.0
    && a.measured.graphOverheadPercent < 10.0
    && a.duplicateSideEffects == 0 && a.sideEffectCountMatchesCompleted
    && a.measured.poolPeak == a.measured.poolBudget
    && a.measured.endingActive == 0 && a.measured.endingWaiters == 0 && a.measured.cleanupPassed
  }

  // Observed executions are the distinct runs plus the duplicates.
  lemma {:induction false} ObservedIsDistinctPlusDuplicates(executions: seq<Execution>)
    requires forall i :: 0 <= i < |executions| ==> executions[i].count > 0
    ensures Observed(executions) == |executions| + Duplicates(executions)
  {
    if executions != [] {
      ObservedIsDistinctPlusDuplicates(executions[1..]);
    }
  }

  lemma {:induction false} NoDuplicatesMeansOnce(executions: seq<Execution>)
    requires forall i :: 0 <= i < |executions| ==> executions[i].count > 0
    ensures Duplicates(executions) == 0 <==> forall i :: 0 <= i < |executions| ==> executions[i].count == 1
  {
    if executions != [] {
      NoDuplicatesMeansOnce(executions[1..]);
      assert forall i :: 1 <= i < |executions| ==> executions[i] == executions[1..][i - 1];
    }
  }

  lemma {:induction false} CountAt(executions: seq<Execution>, i: nat)
    requires DistinctIds(executions) && i < |executions|
    ensures CountOf(executions, executions[i].runId) == executions[i].count
  {
    if i > 0 {
      CountAt(executions[1..], i - 1);
    }
  }

  lemma {:induction false} CountAbsent(executions: seq<Execution>, id: string)
    requires forall i :: 0 <= i < |executions| ==> executions[i].runId != id
    ensures CountOf(executions, id) == 0
  {
    if executions != [] {
      CountAbsent(executions[1..], id);
    }
  }

  // --- pigeonhole ---------------------------------------------------------------------

  ghost function ExecutedIds(executions: seq<Execution>): set<string> {
    set i | 0 <= i < |executions| :: executions[i].runId
  }

  lemma {:induction false} ExecutedCardinality(executions: seq<Execution>)
    requires DistinctIds(executions)
    ensures |ExecutedIds(executions)| == |executions|
  {
    if executions != [] {
      var n := |executions| - 1;
      ExecutedCardinality(executions[..n]);
      assert ExecutedIds(executions) == ExecutedIds(executions[..n]) + {executions[n].runId};
      assert executions[n].runId !in ExecutedIds(executions[..n]);
    }
  }

  // The ids of the finished attempts of worker w.
  ghost function IdsOf(prefix: string, w: nat, n: nat): set<string> {
    set k | 0 <= k < n :: RunId(prefix, w, k)
  }

  lemma {:induction false} IdsOfCardinality(prefix: string, w: nat, n: nat)
    ensures |IdsOf(prefix, w, n)| == n
  {
    if n > 0 {
      IdsOfCardinality(prefix, w, n - 1);
      assert IdsOf(prefix, w, n) == IdsOf(prefix, w, n - 1) + {RunId(prefix, w, n - 1)};
      NextIdIsNew(prefix, w, n - 1);
    }
  }

  lemma NextIdIsNew(prefix: string, w: nat, n: nat)
    ensures RunId(prefix, w, n) !in IdsOf(prefix, w, n)
  {
    forall k: nat | k < n ensures RunId(prefix, w, k) != RunId(prefix, w, n) {
      if RunId(prefix, w, k) == RunId(prefix, w, n) {
        RunIdInjective(prefix, w, k, w, n);
      }
    }
  }

  ghost function AllIds(prefix: string, workers: seq<Worker>): set<string> {
    if workers == [] then {}
    else AllIds(prefix, workers[..|workers| - 1]) + IdsOf(prefix, |workers| - 1, workers[|workers| - 1].finished)
  }

  lemma {:induction false} AllIdsAre(prefix: string, workers: seq<Worker>, id: string)
    ensures id in AllIds(prefix, workers) <==>
              exists w, k :: 0 <= w < |workers| && 0 <= k < workers[w].finished && id == RunId(prefix, w, k)
  {
    if workers != [] {
      var n := |workers| - 1;
      AllIdsAre(prefix, workers[..n], id);
      if id in AllIds(prefix, workers[..n]) {
        var w, k :| 0 <= w < n && 0 <= k < workers[..n][w].finished && id == RunId(prefix, w, k);
        assert workers[..n][w] == workers[w];
      }
      if w, k :| 0 <= w < |workers| && 0 <= k < workers[w].finished && id == RunId(prefix, w, k) {
        if w < n {
          assert workers[..n][w] == workers[w];
        }
      }
    }
  }

  // Run ids of different attempts differ, so there are as many as attempts.
  lemma {:induction false} AllIdsCardinality(prefix: string, workers: seq<Worker>)
    ensures |AllIds(prefix, workers)| == Finishes(workers)
  {
    if workers != [] {
      var n := |workers| - 1;
      var rest := AllIds(prefix, workers[..n]);
      var last := IdsOf(prefix, n, workers[n].finished);
      AllIdsCardinality(prefix, workers[..n]);
      IdsOfCardinality(prefix, n, workers[n].finished);
      forall id | id in rest ensures id !in last {
        AllIdsAre(prefix, workers[..n], id);
        var w, k :| 0 <= w < n && 0 <= k < workers[..n][w].finished && id == RunId(prefix, w, k);
        if id in last {
          var j :| 0 <= j < workers[n].finished && id == RunId(prefix, n, j);
          RunIdInjective(prefix, w, k, n, j);
        }
      }
      assert rest !! last;
    }
  }

  lemma SubsetOfSameSize(a: set<string>, b: set<string>)
    requires a <= b && |a| == |b|
    ensures a == b
  {
    assert |b - a| == |b| - |a|;
  }

  // --- the gate -------------------------------------------------------------------------

  predicate AllStopped(s: State) {
    forall w :: 0 <= w < |s.workers| ==> s.workers[w].Stopped?
  }

  // Every run any worker started executed the counted node exactly once.
  ghost predicate EachOnce(prefix: string, s: State) {
    forall w, k :: 0 <= w < |s.workers| && 0 <= k < Started(s.workers[w]) ==>
      CountOf(s.tally.executions, RunId(prefix, w, k)) == 1
  }

  // Once the workers have stopped, and no attempt failed, the two side-effect
  // checks of the gate hold exactly when every run executed the node once.
  lemma SideEffectChecks(prefix: string, s: State)
    requires Inv(prefix, s) && AllStopped(s) && s.tally.failures == 0
    ensures Duplicates(s.tally.executions) == 0 && Observed(s.tally.executions) == s.tally.completed
       <==> EachOnce(prefix, s)
  {
    var es := s.tally.executions;
    ObservedIsDistinctPlusDuplicates(es);
    NoDuplicatesMeansOnce(es);
    ExecutedCardinality(es);
    AllIdsCardinality(prefix, s.workers);
    forall id | id in ExecutedIds(es) ensures id in AllIds(prefix, s.workers) {
      var i :| 0 <= i < |es| && es[i].runId == id;
      AllIdsAre(prefix, s.workers, id);
    }
    if Duplicates(es) == 0 && Observed(es) == s.tally.completed {
      SubsetOfSameSize(ExecutedIds(es), AllIds(prefix, s.workers));
      forall w, k | 0 <= w < |s.workers| && 0 <= k < Started(s.workers[w])
        ensures CountOf(es, RunId(prefix, w, k)) == 1
      {
        AllIdsAre(prefix, s.workers, RunId(prefix, w, k));
        var i :| 0 <= i < |es| && es[i].runId == RunId(prefix, w, k);
        CountAt(es, i);
      }
    }
    if EachOnce(prefix, s) {
      OnceMeansAllExecuted(prefix, s);
    }
  }

  lemma OnceMeansAllExecuted(prefix: string, s: State)
    requires Inv(prefix, s) && AllStopped(s) && EachOnce(prefix, s)
    ensures ExecutedIds(s.tally.executions) == AllIds(prefix, s.workers)
    ensures forall i :: 0 <= i < |s.tally.executions| ==> s.tally.executions[i].count == 1
  {
    var es := s.tally.executions;
    forall id ensures id in ExecutedIds(es) <==> id in AllIds(prefix, s.workers) {
      AllIdsAre(prefix, s.workers, id);
      if id in AllIds(prefix, s.workers) {
        var w, k :| 0 <= w < |s.workers| && 0 <= k < s.workers[w].finished && id == RunId(prefix, w, k);
        if !Has(es, id) {
          CountAbsent(es, id);
        }
      }
      if id in ExecutedIds(es) {
        var i :| 0 <= i < |es| && es[i].runId == id;
        assert Attempted(prefix, s.workers, id);
      }
    }
    forall i | 0 <= i < |es| ensures es[i].count == 1 {
      CountAt(es, i);
      assert Attempted(prefix, s.workers, es[i].runId);
      var w, k :| 0 <= w < |s.workers| && 0 <= k < Started(s.workers[w]) && es[i].runId == RunId(prefix, w, k);
      assert CountOf(es, RunId(prefix, w, k)) == 1;
    }
  }

  // For any number of workers, any interleaving and any runtime, an accepted
  // artifact means that every attempted run completed and executed the counted
  // node exactly once.
  lemma AcceptedMeansExactlyOnce(prefix: string, concurrency: nat, events: seq<Event>, m: Measured)
    requires Possible(prefix, Initial(concurrency), events)
    requires AllStopped(After(prefix, Initial(concurrency), events))
    requires EvaluateArtifact(BuildArtifact(After(prefix, Initial(concurrency), events).tally, m))
    ensures var s := After(prefix, Initial(concurrency), events);
            && |s.workers| == concurrency
            && s.tally.failures == 0
            && s.tally.completed == Finishes(s.workers)
            && EachOnce(prefix, s)
            && WithinBudget(m)
  {
    InitialInv(prefix, concurrency);
    RunKeepsInv(prefix, Initial(concurrency), events);
    SideEffectChecks(prefix, After(prefix, Initial(concurrency), events));
    FiguresUnder(m);
  }

  // A figure is under its bound when enough of the sample is; an empty sample
  // has the figure 0.
  ghost predicate Mostly(sample: seq<real>, bound: real) {
    if sample == [] then 0.0 < bound else Percentiles.NinetyFive(sample, bound)
  }

  lemma FigureUnder(sample: seq<real>, bound: real)
    ensures P95(sample) < bound <==> Mostly(sample, bound)
  {
    if sample != [] {
      Percentiles.PercentileUnder(sample, bound);
    }
  }

  // Everything the gate asks of the measurements, in counts over the samples.
  ghost predicate WithinBudget(m: Measured) {
    && Mostly(m.checkpointWrites, m.writeBudget)
    && Mostly(m.checkpointReads, m.readBudget)
    && Mostly(m.statuses, 250.0)
    && Mostly(m.resumes, 2000.0)
    && m.graphOverheadPercent < 10.0
    && m.poolPeak == m.poolBudget
    && m.endingActive == 0 && m.endingWaiters == 0
    && m.cleanupPassed
  }

  lemma FiguresUnder(m: Measured)
    ensures Mostly(m.checkpointWrites, m.writeBudget) <==> P95(m.checkpointWrites) < m.writeBudget
    ensures Mostly(m.checkpointReads, m.readBudget) <==> P95(m.checkpointReads) < m.readBudget
    ensures Mostly(m.statuses, 250.0) <==> P95(m.statuses) < 250.0
    ensures Mostly(m.resumes, 2000.0) <==> P95(m.resumes) < 2000.0
  {
    FigureUnder(m.checkpointWrites, m.writeBudget);
    FigureUnder(m.checkpointReads, m.readBudget);
    FigureUnder(m.statuses, 250.0);
    FigureUnder(m.resumes, 2000.0);
  }

  // And a run with no failure in which every attempt executed once is accepted
  // exactly when the measurements are within budget.
  lemma ExactlyOnceIsAccepted(prefix: string, concurrency: nat, events: seq<Event>, m: Measured)
    requires Possible(prefix, Initial(concurrency), events)
    requires AllStopped(After(prefix, Initial(concurrency), events))
    requires var s := After(prefix, Initial(concurrency), events); s.tally.failures == 0 && EachOnce(prefix, s)
    ensures EvaluateArtifact(BuildArtifact(After(prefix, Initial(concurrency), events).tally, m)) <==> WithinBudget(m)
  {
    InitialInv(prefix, concurrency);
    RunKeepsInv(prefix, Initial(concurrency), events);
    SideEffectChecks(prefix, After(prefix, Initial(concurrency), events));
    FiguresUnder(m);
  }

  lemma Next(prefix: string, s: State, e: Event, rest: seq<Event>)
    requires Enabled(s, e) && Possible(prefix, Apply(prefix, s, e), rest)
    ensures Possible(prefix, s, [e] + rest)
    ensures After(prefix, s, [e] + rest) == After(prefix, Apply(prefix, s, e), rest)
  {
    assert ([e] + rest)[1..] == rest;
  }

  // The side-effect checks alone would not do: one failed run that executed
  // and one completed run that did not cancel out.
  lemma FailuresMustBeChecked(prefix: string)
    ensures exists events ::
              && Possible(prefix, Initial(1), events)
              && var s := After(prefix, Initial(1), events);
                 && AllStopped(s) && !EachOnce(prefix, s)
                 && Duplicates(s.tally.executions) == 0
                 && Observed(s.tally.executions) == s.tally.completed
  {
    var s0 := Initial(1);
    var s1 := Apply(prefix, s0, Begin(0));
    var s2 := Apply(prefix, s1, Execute(0, 0));
    var s3 := Apply(prefix, s2, Fail(0));
    var s4 := Apply(prefix, s3, Begin(0));
    var s5 := Apply(prefix, s4, Complete(0));
    var s6 := Apply(prefix, s5, Deadline(0));
    Next(prefix, s5, Deadline(0), []);
    Next(prefix, s4, Complete(0), [Deadline(0)] + []);
    Next(prefix, s3, Begin(0), [Complete(0)] + ([Deadline(0)] + []));
    Next(prefix, s2, Fail(0), [Begin(0)] + ([Complete(0)] + ([Deadline(0)] + [])));
    Next(prefix, s1, Execute(0, 0), [Fail(0)] + ([Begin(0)] + ([Complete(0)] + ([Deadline(0)] + []))));
    var events := [Begin(0)] + ([Execute(0, 0)] + ([Fail(0)] + ([Begin(0)] + ([Complete(0)] + ([Deadline(0)] + [])))));
    Next(prefix, s0, Begin(0), events[1..]);
    assert events == [Begin(0)] + events[1..];
    assert s6.tally.executions == [Execution(RunId(prefix, 0, 0), 1)];
    assert s6.workers == [Stopped(2)];
    NotOnce(prefix, s6);
    assert Possible(prefix, Initial(1), events);
    assert After(prefix, Initial(1), events) == s6;
    assert Duplicates(s6.tally.executions) == 0;
    assert Observed(s6.tally.executions) == s6.tally.completed == 1;
    assert AllStopped(s6);
  }

  lemma NotOnce(prefix: string, s: State)
    requires s.tally.executions == [Execution(RunId(prefix, 0, 0), 1)] && s.workers == [Stopped(2)]
    ensures !EachOnce(prefix, s)
  {
    if RunId(prefix, 0, 0) == RunId(prefix, 0, 1) {
      RunIdInjective(prefix, 0, 0, 0, 1);
    }
    CountAbsent(s.tally.executions, RunId(prefix, 0, 1));
    assert CountOf(s.tally.executions, RunId(prefix, 0, 1)) == 0;
    assert 0 <= 1 < Started(s.workers[0]);
  }
}
