// What becomes of every bootstrap and of every request, in terms of the events
// of a run.
module BootstrapRuns {
  import opened Wrappers
  import opened Sequences
  import opened DeployBootstrap

  lemma {:induction false} RunInParts(s: State, events: seq<Event>, j: nat)
    requires Possible(s, events) && j <= |events|
    ensures Possible(s, events[..j]) && Possible(After(s, events[..j]), events[j..])
    ensures After(s, events) == After(After(s, events[..j]), events[j..])
    decreases |events|
  {
    if j == 0 {
      assert events[0..] == events;
    } else {
      RunInParts(Apply(s, events[0]), events[1..], j - 1);
      assert events[1..][..j - 1] == events[..j][1..] && events[1..][j - 1..] == events[j..];
    }
  }

  lemma InitialInv(configs: seq<Config>)
    ensures Inv(Initial(configs))
  {}

  // --- how a bootstrap settles ------------------------------------------------------

  // The environment names what it switches on.
  predicate Sound(c: Config) {
    && (c.migrations || c.adminSeed ==> c.hasDatabaseUrl)
    && (c.adminSeed ==> c.seedPlanOk)
  }

  ghost predicate Arrived(events: seq<Event>, i: nat) {
    Arrive(i, true) in events || Arrive(i, false) in events
  }

  // The request that started the bootstrap could not open a pool.
  ghost predicate PoolThrew(events: seq<Event>, i: nat) {
    exists j :: 0 <= j < |events| && events[j] == Arrive(i, true) && !Arrived(events[..j], i)
  }

  ghost predicate Faulty(events: seq<Event>, i: nat) {
    || Connect(i, true) in events
    || Lock(i, LockFault) in events || Lock(i, LockFaultAfterGrant) in events
    || Migrate(i, true) in events
    || Seed(i, true) in events
    || Unlock(i, UnlockFault) in events || Unlock(i, UnlockFaultAfterRelease) in events
    || End(i, true) in events
  }

  ghost function Verdict(c: Config, events: seq<Event>, i: nat): Outcome {
    if !c.enabled then Ok
    else if !Sound(c) then NotOk
    else if PoolThrew(events, i) || Faulty(events, i) then Rejected
    else Ok
  }

  // The phase of a process against the events so far.
  ghost predicate Remembers(p: Process, events: seq<Event>, i: nat) {
    && (p.phase.NotStarted? <==> !Arrived(events, i))
    && (p.phase.NotStarted? ==> !Faulty(events, i))
    && (!p.phase.NotStarted? && !p.phase.Settled? ==> p.config.enabled && Sound(p.config) && !PoolThrew(events, i))
    && match p.phase
       case NotStarted => true
       case Unlocking(ok) => ok <==> !Faulty(events, i)
       case Ending(ok) => ok <==> !Faulty(events, i)
       case Settled(outcome) => outcome == Verdict(p.config, events, i)
       case _ => !Faulty(events, i)
  }

  // The work of a process against the events so far: it does only what it is
  // configured to do, and knows what it did.
  ghost predicate Worked(p: Process, events: seq<Event>, i: nat) {
    && (p.phase.Migrating? ==> p.config.migrations)
    && (p.phase.Seeding? ==> p.config.adminSeed && !p.config.seedSkipped)
    && (p.migrated <==> Migrate(i, false) in events)
    && (p.seeded <==> Seed(i, false) in events)
    && (p.migrated ==> p.config.migrations)
    && (p.seeded ==> p.config.adminSeed && !p.config.seedSkipped)
  }

  ghost predicate Memory(s: State, events: seq<Event>) {
    forall i :: 0 <= i < |s.processes| ==> Remembers(s.processes[i], events, i) && Worked(s.processes[i], events, i)
  }

  // Only the first arrival at a process starts its bootstrap.
  lemma PoolThrewNext(events: seq<Event>, e: Event, i: nat)
    ensures PoolThrew(events + [e], i) <==> PoolThrew(events, i) || (e == Arrive(i, true) && !Arrived(events, i))
  {
    var n := |events|;
    assert (events + [e])[..n] == events;
    forall j | 0 <= j < n ensures (events + [e])[..j] == events[..j] && (events + [e])[j] == events[j] {}
    if e == Arrive(i, true) && !Arrived(events, i) {
      assert (events + [e])[n] == Arrive(i, true) && !Arrived((events + [e])[..n], i);
    }
    if j :| 0 <= j < n && events[j] == Arrive(i, true) && !Arrived(events[..j], i) {
      assert (events + [e])[j] == Arrive(i, true) && !Arrived((events + [e])[..j], i);
    }
  }

  lemma ArrivedNext(events: seq<Event>, e: Event, i: nat)
    ensures Arrived(events + [e], i) <==> Arrived(events, i) || e == Arrive(i, true) || e == Arrive(i, false)
  {}

  ghost predicate FaultOf(e: Event, i: nat) {
    || e == Connect(i, true)
    || e == Lock(i, LockFault) || e == Lock(i, LockFaultAfterGrant)
    || e == Migrate(i, true)
    || e == Seed(i, true)
    || e == Unlock(i, UnlockFault) || e == Unlock(i, UnlockFaultAfterRelease)
    || e == End(i, true)
  }

  lemma FaultyNext(events: seq<Event>, e: Event, i: nat)
    ensures Faulty(events + [e], i) <==> Faulty(events, i) || FaultOf(e, i)
  {}

  lemma OthersRemember(p: Process, events: seq<Event>, e: Event, i: nat)
    requires Remembers(p, events, i) && (e.Resume? || e.process != i)
    ensures Remembers(p, events + [e], i)
  {
    PoolThrewNext(events, e, i);
    ArrivedNext(events, e, i);
    FaultyNext(events, e, i);
  }

  lemma ThrewMeansArrived(events: seq<Event>, i: nat)
    ensures PoolThrew(events, i) ==> Arrived(events, i)
  {}

  lemma StarterRemembers(p: Process, events: seq<Event>, e: Event, i: nat, holds: bool)
    requires Remembers(p, events, i) && e.Arrive? && e.process == i
    ensures Remembers(Advance(p, e, holds), events + [e], i)
  {
    PoolThrewNext(events, e, i);
    ArrivedNext(events, e, i);
    FaultyNext(events, e, i);
    ThrewMeansArrived(events, i);
  }

  lemma SelfRemembers(s: State, events: seq<Event>, e: Event)
    requires Inv(s) && Enabled(s, e) && !e.Resume? && !e.Arrive?
    requires Remembers(s.processes[e.process], events, e.process)
    ensures Remembers(Advance(s.processes[e.process], e, s.lock == Some(e.process)), events + [e], e.process)
  {
    PoolThrewNext(events, e, e.process);
    ArrivedNext(events, e, e.process);
    FaultyNext(events, e, e.process);
  }

  lemma OthersWorked(p: Process, events: seq<Event>, e: Event, i: nat, built: bool)
    requires Worked(p, events, i) && (e.Resume? || e.process != i)
    ensures Worked(p.(serverBuilt := built), events + [e], i)
  {}

  lemma SelfWorked(s: State, events: seq<Event>, e: Event)
    requires Enabled(s, e) && !e.Resume? && Worked(s.processes[e.process], events, e.process)
    ensures Worked(Advance(s.processes[e.process], e, s.lock == Some(e.process)), events + [e], e.process)
  {}

  lemma OnlyBuilds(s: State, e: Event, i: nat)
    requires Enabled(s, e) && i < |s.processes| && (e.Resume? || e.process != i)
    ensures i < |Apply(s, e).processes|
    ensures Apply(s, e).processes[i] == s.processes[i].(serverBuilt := Apply(s, e).processes[i].serverBuilt)
  {}

  lemma OtherKeepsMemory(p: Process, events: seq<Event>, e: Event, i: nat, built: bool)
    requires e.Resume? || e.process != i
    requires Remembers(p, events, i) && Worked(p, events, i)
    ensures Remembers(p.(serverBuilt := built), events + [e], i) && Worked(p.(serverBuilt := built), events + [e], i)
  {
    OthersRemember(p, events, e, i);
    assert Remembers(p.(serverBuilt := built), events + [e], i);
    OthersWorked(p, events, e, i, built);
  }

  lemma ProcessKeepsMemory(s: State, e: Event, events: seq<Event>, i: nat)
    requires Inv(s) && Enabled(s, e) && i < |s.processes| && |Apply(s, e).processes| == |s.processes|
    requires Remembers(s.processes[i], events, i) && Worked(s.processes[i], events, i)
    ensures Remembers(Apply(s, e).processes[i], events + [e], i) && Worked(Apply(s, e).processes[i], events + [e], i)
  {
    if e.Resume? || e.process != i {
      OnlyBuilds(s, e, i);
      OtherKeepsMemory(s.processes[i], events, e, i, Apply(s, e).processes[i].serverBuilt);
    } else {
      SelfWorked(s, events, e);
      if e.Arrive? {
        StarterRemembers(s.processes[i], events, e, i, s.lock == Some(i));
      } else {
        SelfRemembers(s, events, e);
      }
    }
  }

  lemma StepKeepsMemory(s: State, e: Event, events: seq<Event>)
    requires Inv(s) && Memory(s, events) && Enabled(s, e)
    ensures Memory(Apply(s, e), events + [e])
  {
    StepKeepsInv(s, e);
    forall i | 0 <= i < |s.processes|
      ensures Remembers(Apply(s, e).processes[i], events + [e], i) && Worked(Apply(s, e).processes[i], events + [e], i)
    {
      ProcessKeepsMemory(s, e, events, i);
    }
  }

  lemma {:induction false} RunKeepsMemory(s: State, history: seq<Event>, events: seq<Event>)
    requires Inv(s) && Memory(s, history) && Possible(s, events)
    ensures Memory(After(s, events), history + events)
    ensures |After(s, events).processes| == |s.processes|
    ensures forall i :: 0 <= i < |s.processes| ==> After(s, events).processes[i].config == s.processes[i].config
    decreases |events|
  {
    if events == [] {
      assert history + events == history;
    } else {
      StepKeepsInv(s, events[0]);
      StepKeepsMemory(s, events[0], history);
      RunKeepsMemory(Apply(s, events[0]), history + [events[0]], events[1..]);
      MoveOne(history, events);
    }
  }

  // For any processes, any interleaving and any faults, how a bootstrap settles:
  // ok if it is switched off; not ok if its configuration is unsound; otherwise
  // ok exactly when its pool was opened and none of its steps faulted.
  lemma SettlesAs(configs: seq<Config>, events: seq<Event>, i: nat)
    requires Possible(Initial(configs), events) && i < |configs|
    ensures var s := After(Initial(configs), events);
            && |s.processes| == |configs|
            && (s.processes[i].phase.NotStarted? <==> !Arrived(events, i))
            && (s.processes[i].phase.Settled? ==>
                  var outcome := s.processes[i].phase.outcome;
                  && (outcome == Ok <==>
                        || !configs[i].enabled
                        || (Sound(configs[i]) && !PoolThrew(events, i) && !Faulty(events, i)))
                  && (outcome == NotOk <==> configs[i].enabled && !Sound(configs[i])))
  {
    FromTheStart(configs, events);
    assert Remembers(After(Initial(configs), events).processes[i], events, i);
  }

  lemma FromTheStart(configs: seq<Config>, events: seq<Event>)
    requires Possible(Initial(configs), events)
    ensures Inv(After(Initial(configs), events)) && Memory(After(Initial(configs), events), events)
    ensures |After(Initial(configs), events).processes| == |configs|
    ensures forall i :: 0 <= i < |configs| ==> After(Initial(configs), events).processes[i].config == configs[i]
  {
    InitialInv(configs);
    RunKeepsMemory(Initial(configs), [], events);
    RunKeepsInv(Initial(configs), events);
    assert [] + events == events;
  }

  // A bootstrap that settled ok migrated exactly if migrations are switched on,
  // and seeded exactly if the seed is switched on and not skipped.
  lemma OkMeansDone(configs: seq<Config>, events: seq<Event>, i: nat)
    requires Possible(Initial(configs), events) && i < |configs| && configs[i].enabled
    ensures i < |After(Initial(configs), events).processes|
    ensures After(Initial(configs), events).processes[i].phase == Settled(Ok) ==>
              && (Migrate(i, false) in events <==> configs[i].migrations)
              && (Seed(i, false) in events <==> configs[i].adminSeed && !configs[i].seedSkipped)
  {
    FromTheStart(configs, events);
    var p := After(Initial(configs), events).processes[i];
    assert Worked(p, events, i) && ProcessInv(p);
  }

  // The k-th request is the k-th arrival.
  function Arrival(e: Event): seq<nat> {
    if e.Arrive? then [e.process] else []
  }

  function Arrivals(events: seq<Event>): seq<nat> {
    if events == [] then []
    else Arrival(events[0]) + Arrivals(events[1..])
  }

  function Asked(requests: seq<Request>): seq<nat> {
    seq(|requests|, r requires 0 <= r < |requests| => requests[r].process)
  }

  lemma StepAsks(s: State, e: Event)
    requires Enabled(s, e)
    ensures Asked(Apply(s, e).requests) == Asked(s.requests) + Arrival(e)
  {}

  lemma {:induction false} RequestsAreArrivals(s: State, events: seq<Event>)
    requires Possible(s, events)
    ensures Asked(After(s, events).requests) == Asked(s.requests) + Arrivals(events)
    decreases |events|
  {
    if events != [] {
      StepAsks(s, events[0]);
      RequestsAreArrivals(Apply(s, events[0]), events[1..]);
      Regroup3(Asked(s.requests), Arrival(events[0]), Arrivals(events[1..]));
    }
  }

  // --- what each request gets -------------------------------------------------------

  // A server was built exactly when some request was handed to it.
  ghost predicate Built(s: State) {
    forall i :: 0 <= i < |s.processes| ==>
      (s.processes[i].serverBuilt <==> Request(i, Dispatched) in s.requests)
  }

  lemma StepKeepsBuilt(s: State, e: Event)
    requires Inv(s) && Built(s) && Enabled(s, e)
    ensures Built(Apply(s, e))
  {
    var t := Apply(s, e);
    forall i | 0 <= i < |t.processes| ensures t.processes[i].serverBuilt <==> Request(i, Dispatched) in t.requests {
      assert s.processes[i].serverBuilt <==> Request(i, Dispatched) in s.requests;
      if e.Resume? {
        ReplacedIn(s.requests, e.request, t.requests[e.request], Request(i, Dispatched));
      }
    }
  }

  lemma ReplacedIn(requests: seq<Request>, r: nat, replacement: Request, other: Request)
    requires r < |requests| && requests[r] != other
    ensures other in requests[r := replacement] <==> other in requests || replacement == other
  {
    if k :| 0 <= k < |requests| && requests[k] == other {
      assert requests[r := replacement][k] == other;
    }
    assert requests[r := replacement][r] == replacement;
  }

  lemma {:induction false} RunKeepsBuilt(s: State, events: seq<Event>)
    requires Inv(s) && Built(s) && Possible(s, events)
    ensures Inv(After(s, events)) && Built(After(s, events))
    decreases |events|
  {
    if events != [] {
      StepKeepsInv(s, events[0]);
      StepKeepsBuilt(s, events[0]);
      RunKeepsBuilt(Apply(s, events[0]), events[1..]);
    }
  }

  lemma StepKeepsAnswers(s: State, e: Event, r: nat)
    requires Inv(s) && Enabled(s, e) && r < |s.requests|
    ensures r < |Apply(s, e).requests| && Apply(s, e).requests[r].process == s.requests[r].process
    ensures !s.requests[r].status.Waiting? ==> Apply(s, e).requests[r] == s.requests[r]
  {}

  lemma StepKeepsOutcomes(s: State, e: Event, i: nat)
    requires Inv(s) && Enabled(s, e) && i < |s.processes| && s.processes[i].phase.Settled?
    ensures i < |Apply(s, e).processes| && Apply(s, e).processes[i].phase == s.processes[i].phase
  {}

  // An answered request keeps its answer.
  lemma {:induction false} AnswersStay(s: State, events: seq<Event>, r: nat)
    requires Inv(s) && Possible(s, events) && r < |s.requests|
    ensures r < |After(s, events).requests| && After(s, events).requests[r].process == s.requests[r].process
    ensures !s.requests[r].status.Waiting? ==> After(s, events).requests[r] == s.requests[r]
    decreases |events|
  {
    if events != [] {
      StepKeepsInv(s, events[0]);
      StepKeepsAnswers(s, events[0], r);
      AnswersStay(Apply(s, events[0]), events[1..], r);
    }
  }

  // A settled bootstrap keeps its outcome.
  lemma {:induction false} OutcomesStay(s: State, events: seq<Event>, i: nat)
    requires Inv(s) && Possible(s, events) && i < |s.processes| && s.processes[i].phase.Settled?
    ensures i < |After(s, events).processes| && After(s, events).processes[i].phase == s.processes[i].phase
    decreases |events|
  {
    if events != [] {
      StepKeepsInv(s, events[0]);
      StepKeepsOutcomes(s, events[0], i);
      OutcomesStay(Apply(s, events[0]), events[1..], i);
    }
  }

  // The answer that a resume gives, against the outcome of the bootstrap and the
  // requests answered before.
  ghost predicate Answers(status: Status, phase: Phase, throws: bool, built: bool) {
    && phase.Settled?
    && (status == Dispatched <==> phase == Settled(Ok) && (!throws || built))
    && (status == Refused <==> phase == Settled(NotOk))
    && (status == Errored <==> phase == Settled(Rejected) || (phase == Settled(Ok) && throws && !built))
  }

  lemma ResumeAnswers(s: State, e: Event)
    requires Inv(s) && Built(s) && Enabled(s, e) && e.Resume?
    ensures var i := s.requests[e.request].process;
            var t := Apply(s, e);
            && i < |s.processes| == |t.processes| && t.processes[i].phase == s.processes[i].phase
            && |t.requests| == |s.requests|
            && t.requests[e.request].process == i && !t.requests[e.request].status.Waiting?
            && Answers(t.requests[e.request].status, t.processes[i].phase, e.serverThrows,
                       Request(i, Dispatched) in s.requests)
  {}

  // For any processes, any interleaving and any faults, what a resumed request
  // gets: it is dispatched exactly when its bootstrap settled ok and this resume
  // does not throw or an earlier request already built the server; it is refused
  // exactly when its bootstrap settled not ok; and otherwise it ends in an error.
  lemma ResumedRequest(configs: seq<Config>, events: seq<Event>, j: nat)
    requires Possible(Initial(configs), events) && j < |events| && events[j].Resume?
    ensures Possible(Initial(configs), events[..j])
    ensures var before, s := After(Initial(configs), events[..j]), After(Initial(configs), events);
            var r, throws := events[j].request, events[j].serverThrows;
            && r < |s.requests| && s.requests[r].process < |s.processes|
            && var i := s.requests[r].process;
               Answers(s.requests[r].status, s.processes[i].phase, throws, Request(i, Dispatched) in before.requests)
  {
    var start := Initial(configs);
    InitialInv(configs);
    RunInParts(start, events, j);
    var before := After(start, events[..j]);
    RunKeepsBuilt(start, events[..j]);
    assert events[j..][0] == events[j] && events[j..][1..] == events[j + 1..];
    StepKeepsInv(before, events[j]);
    ResumeAnswers(before, events[j]);
    AnswersStay(Apply(before, events[j]), events[j + 1..], events[j].request);
    OutcomesStay(Apply(before, events[j]), events[j + 1..], before.requests[events[j].request].process);
  }

  lemma StepKeepsWaiting(s: State, e: Event, r: nat)
    requires Enabled(s, e) && r < |s.requests| && e != Resume(r, true) && e != Resume(r, false)
    ensures r < |Apply(s, e).requests| && Apply(s, e).requests[r] == s.requests[r]
  {}

  // A request that no event resumed is still waiting.
  lemma {:induction false} WaitsUntilResumed(s: State, events: seq<Event>, r: nat)
    requires Inv(s) && Possible(s, events) && r < |s.requests| && s.requests[r].status.Waiting?
    requires Resume(r, true) !in events && Resume(r, false) !in events
    ensures r < |After(s, events).requests| && After(s, events).requests[r] == s.requests[r]
    decreases |events|
  {
    if events != [] {
      StepKeepsInv(s, events[0]);
      StepKeepsWaiting(s, events[0], r);
      assert events == [events[0]] + events[1..];
      WaitsUntilResumed(Apply(s, events[0]), events[1..], r);
    }
  }

  // --- what can happen next ----------------------------------------------------------

  // A request may arrive at any process at any time; each step may end in a
  // fault, the lock query with or without the lock granted when it is free; and
  // a waiting request of a settled bootstrap may be resumed.
  lemma MayHappen(s: State, i: nat, fault: bool)
    requires i < |s.processes|
    ensures Enabled(s, Arrive(i, fault))
    ensures var phase := s.processes[i].phase;
            && (phase.Connecting? ==> Enabled(s, Connect(i, fault)))
            && (phase.Locking? ==> Enabled(s, Lock(i, LockFault)))
            && (phase.Locking? && s.lock.None? ==> forall reply :: Enabled(s, Lock(i, reply)))
            && (phase.Locking? && s.lock.Some? ==> forall reply :: reply != LockFault ==> !Enabled(s, Lock(i, reply)))
            && (phase.Migrating? ==> Enabled(s, Migrate(i, fault)))
            && (phase.Seeding? ==> Enabled(s, Seed(i, fault)))
            && (phase.Unlocking? ==> forall reply :: Enabled(s, Unlock(i, reply)))
            && (phase.Ending? ==> Enabled(s, End(i, fault)))
            && (phase.Settled? ==> forall r: nat :: r < |s.requests| && s.requests[r] == Request(i, Waiting) ==>
                  Enabled(s, Resume(r, fault)))
  {}

  // --- every bootstrap can settle -----------------------------------------------------

  // How many steps a started process has left at most.
  function Left(phase: Phase): nat {
    match phase
    case NotStarted => 0
    case Connecting => 6
    case Locking => 5
    case Migrating => 4
    case Seeding => 3
    case Unlocking(_) => 2
    case Ending(_) => 1
    case Settled(_) => 0
  }

  function AllLeft(processes: seq<Process>): nat {
    if processes == [] then 0
    else AllLeft(processes[..|processes| - 1]) + Left(processes[|processes| - 1].phase)
  }

  lemma {:induction false} AllLeftUpdate(processes: seq<Process>, i: nat, p: Process)
    requires i < |processes|
    ensures AllLeft(processes[i := p]) == AllLeft(processes) - Left(processes[i].phase) + Left(p.phase)
  {
    var n := |processes| - 1;
    if i == n {
      assert processes[i := p][..n] == processes[..n];
    } else {
      AllLeftUpdate(processes[..n], i, p);
      assert processes[i := p][..n] == processes[..n][i := p];
    }
  }

  lemma {:induction false} NoneLeft(processes: seq<Process>, i: nat)
    requires i < |processes| && AllLeft(processes) == 0
    ensures Left(processes[i].phase) == 0
  {
    if i < |processes| - 1 {
      NoneLeft(processes[..|processes| - 1], i);
    }
  }

  lemma {:induction false} SomeLeft(processes: seq<Process>) returns (i: nat)
    requires AllLeft(processes) > 0
    ensures i < |processes| && Left(processes[i].phase) > 0
  {
    var n := |processes| - 1;
    if Left(processes[n].phase) > 0 {
      i := n;
    } else {
      i := SomeLeft(processes[..n]);
    }
  }

  // The lock is held by a process that will not step again.
  predicate LeftBehind(s: State) {
    s.lock.Some? && s.lock.value < |s.processes| && s.processes[s.lock.value].phase.Settled?
  }

  // The next step of a process, without a fault.
  function NextStep(phase: Phase, i: nat): Event {
    match phase
    case Connecting => Connect(i, false)
    case Locking => Lock(i, Granted)
    case Migrating => Migrate(i, false)
    case Seeding => Seed(i, false)
    case Unlocking(_) => Unlock(i, Unlocked)
    case _ => End(i, false)
  }

  lemma NextIsEnabled(s: State, i: nat)
    requires Inv(s) && i < |s.processes| && Left(s.processes[i].phase) > 0
    requires s.processes[i].phase.Locking? ==> s.lock.None?
    ensures var e := NextStep(s.processes[i].phase, i);
            Enabled(s, e) && !e.Resume? && e.process == i && forall k :: !FaultOf(e, k)
  {}

  lemma NextLeavesNothing(s: State, i: nat)
    requires Inv(s) && !LeftBehind(s) && i < |s.processes| && Left(s.processes[i].phase) > 0
    requires s.processes[i].phase.Locking? ==> s.lock.None?
    ensures Enabled(s, NextStep(s.processes[i].phase, i))
    ensures !LeftBehind(Apply(s, NextStep(s.processes[i].phase, i)))
  {
    NextIsEnabled(s, i);
    assert ProcessInv(s.processes[i]);
    assert s.lock.Some? ==> ProcessInv(s.processes[s.lock.value]);
  }

  lemma NextIsNearer(p: Process, i: nat, holds: bool)
    requires ProcessInv(p) && Left(p.phase) > 0
    ensures Left(Advance(p, NextStep(p.phase, i), holds).phase) < Left(p.phase)
  {}

  lemma FaultlessStep(s: State, i: nat)
    requires Inv(s) && !LeftBehind(s) && i < |s.processes| && Left(s.processes[i].phase) > 0
    requires s.processes[i].phase.Locking? ==> s.lock.None?
    ensures var e := NextStep(s.processes[i].phase, i);
            && Enabled(s, e) && (forall k :: !FaultOf(e, k))
            && Inv(Apply(s, e)) && !LeftBehind(Apply(s, e))
            && |Apply(s, e).processes| == |s.processes|
            && AllLeft(Apply(s, e).processes) < AllLeft(s.processes)
  {
    var e := NextStep(s.processes[i].phase, i);
    NextIsEnabled(s, i);
    NextLeavesNothing(s, i);
    StepKeepsInv(s, e);
    NextIsNearer(s.processes[i], i, s.lock == Some(i));
    AllLeftUpdate(s.processes, i, Advance(s.processes[i], e, s.lock == Some(i)));
  }

  // Unless a faulty unlock has left the lock behind, the started bootstraps can
  // always all settle, whatever happened before: there is no deadlock.
  lemma {:induction false} CanSettle(s: State) returns (events: seq<Event>)
    requires Inv(s) && !LeftBehind(s)
    ensures Possible(s, events)
    ensures |After(s, events).processes| == |s.processes|
    ensures forall i :: 0 <= i < |s.processes| ==>
              After(s, events).processes[i].phase.NotStarted? || After(s, events).processes[i].phase.Settled?
    ensures forall e, i :: e in events ==> !FaultOf(e, i)
    decreases AllLeft(s.processes)
  {
    if AllLeft(s.processes) == 0 {
      events := [];
      forall i | 0 <= i < |s.processes| ensures s.processes[i].phase.NotStarted? || s.processes[i].phase.Settled? {
        NoneLeft(s.processes, i);
      }
    } else {
      var i := SomeLeft(s.processes);
      if s.processes[i].phase.Locking? && s.lock.Some? {
        i := s.lock.value;
        assert ProcessInv(s.processes[i]);
      }
      FaultlessStep(s, i);
      var e := NextStep(s.processes[i].phase, i);
      var rest := CanSettle(Apply(s, e));
      Next(s, e, rest);
      events := [e] + rest;
    }
  }

  function Waits(requests: seq<Request>): nat {
    if requests == [] then 0
    else Waits(requests[..|requests| - 1]) + if requests[|requests| - 1].status.Waiting? then 1 else 0
  }

  lemma {:induction false} OneAnswered(requests: seq<Request>, r: nat, answer: Request)
    requires r < |requests| && requests[r].status.Waiting? && !answer.status.Waiting?
    ensures Waits(requests[r := answer]) < Waits(requests)
  {
    var n := |requests| - 1;
    if r == n {
      assert requests[r := answer][..n] == requests[..n];
    } else {
      OneAnswered(requests[..n], r, answer);
      assert requests[r := answer][..n] == requests[..n][r := answer];
    }
  }

  // Once the bootstraps have settled, every waiting request can be resumed.
  lemma {:induction false} CanAnswer(s: State) returns (events: seq<Event>)
    requires Inv(s)
    requires forall i :: 0 <= i < |s.processes| ==> s.processes[i].phase.NotStarted? || s.processes[i].phase.Settled?
    ensures Possible(s, events)
    ensures |After(s, events).requests| == |s.requests|
    ensures forall r :: 0 <= r < |s.requests| ==> !After(s, events).requests[r].status.Waiting?
    decreases Waits(s.requests)
  {
    if r :| 0 <= r < |s.requests| && s.requests[r].status.Waiting? {
      assert RequestInv(s, s.requests[r]);
      var e := Resume(r, false);
      StepKeepsInv(s, e);
      ResumeSettles(s, e);
      OneAnswered(s.requests, r, Apply(s, e).requests[r]);
      var rest := CanAnswer(Apply(s, e));
      Next(s, e, rest);
      events := [e] + rest;
    } else {
      events := [];
    }
  }

  lemma ResumeSettles(s: State, e: Event)
    requires Inv(s) && Enabled(s, e) && e.Resume?
    ensures var t := Apply(s, e);
            && |t.processes| == |s.processes| && |t.requests| == |s.requests|
            && (forall i :: 0 <= i < |s.processes| ==> t.processes[i].phase == s.processes[i].phase)
            && !t.requests[e.request].status.Waiting?
            && t.requests == s.requests[e.request := t.requests[e.request]]
  {}

  lemma {:induction false} JoinRuns(s: State, first: seq<Event>, second: seq<Event>)
    requires Possible(s, first) && Possible(After(s, first), second)
    ensures Possible(s, first + second) && After(s, first + second) == After(After(s, first), second)
    decreases |first|
  {
    if first == [] {
      assert first + second == second;
    } else {
      JoinRuns(Apply(s, first[0]), first[1..], second);
      assert (first + second)[1..] == first[1..] + second;
    }
  }

  // Whatever happened before, unless the lock was left behind, every request
  // can still be answered.
  lemma EveryRequestCanBeAnswered(s: State) returns (events: seq<Event>)
    requires Inv(s) && !LeftBehind(s)
    ensures Possible(s, events)
    ensures forall r :: 0 <= r < |After(s, events).requests| ==> !After(s, events).requests[r].status.Waiting?
  {
    var settling := CanSettle(s);
    RunKeepsInv(s, settling);
    var answering := CanAnswer(After(s, settling));
    JoinRuns(s, settling, answering);
    events := settling + answering;
  }
}
