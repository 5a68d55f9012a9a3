// The deploy bootstrap: every API process memoises one bootstrap, which takes a
// database-wide advisory lock, migrates, seeds, unlocks and closes its pool.
// Each await is one step, and each step may fault. A session keeps its lock
// until it unlocks or is closed.
module DeployBootstrap {
  import opened Wrappers

  // The parts of the environment the bootstrap looks at. The API server never
  // injects a pool, so its bootstraps own theirs.
  datatype Config = Config(
    enabled: bool,
    migrations: bool,
    adminSeed: bool,
    hasDatabaseUrl: bool,
    seedPlanOk: bool,
    seedSkipped: bool,
    ownsPool: bool)

  datatype Outcome = Ok | NotOk | Rejected

  // Which await the bootstrap of a process is at. The flag of the last two is
  // whether the steps under the lock returned normally.
  datatype Phase =
    | NotStarted
    | Connecting
    | Locking
    | Migrating
    | Seeding
    | Unlocking(ok: bool)
    | Ending(ok: bool)
    | Settled(outcome: Outcome)

  datatype Client = Unconnected | InUse | Released

  datatype Process = Process(
    config: Config,
    phase: Phase,
    client: Client,
    starts: nat,
    releases: nat,
    migrated: bool,
    seeded: bool,
    lockKept: bool,      // the unlock query failed and left the lock held
    endFailed: bool,     // closing the owned pool failed
    serverBuilt: bool)

  datatype Status = Waiting | Dispatched | Refused | Errored

  datatype Request = Request(process: nat, status: Status)

  datatype State = State(processes: seq<Process>, lock: Option<nat>, requests: seq<Request>)

  datatype LockReply = Granted | LockFault | LockFaultAfterGrant
  datatype UnlockReply = Unlocked | UnlockFault | UnlockFaultAfterRelease

  datatype Event =
    | Arrive(process: nat, poolThrows: bool)
    | Connect(process: nat, fault: bool)
    | Lock(process: nat, reply: LockReply)
    | Migrate(process: nat, fault: bool)
    | Seed(process: nat, fault: bool)
    | Unlock(process: nat, unlockReply: UnlockReply)
    | End(process: nat, fault: bool)
    | Resume(request: nat, serverThrows: bool)

  // --- steps -----------------------------------------------------------------

  // runDeployAuthBootstrap up to its first await.
  function Start(p: Process, poolThrows: bool): Process {
    var c := p.config;
    p.(starts := p.starts + 1,
       phase :=
         if !c.enabled then Settled(Ok)
         else if (c.migrations || c.adminSeed) && !c.hasDatabaseUrl then Settled(NotOk)
         else if c.adminSeed && !c.seedPlanOk then Settled(NotOk)
         else if poolThrows then Settled(Rejected)
         else Connecting)
  }

  // The await after the migrations.
  function SeedPhase(c: Config): Phase {
    if c.adminSeed && !c.seedSkipped then Seeding else Unlocking(true)
  }

  // The await after the lock is granted.
  function FirstLockedPhase(c: Config): Phase {
    if c.migrations then Migrating else SeedPhase(c)
  }

  function Outcomes(ok: bool): Outcome {
    if ok then Ok else Rejected
  }

  // The await after the lock scope is left: closing an owned pool.
  function ClosePhase(c: Config, ok: bool): Phase {
    if c.ownsPool then Ending(ok) else Settled(Outcomes(ok))
  }

  predicate Enabled(s: State, e: Event) {
    if e.Resume? then
      && e.request < |s.requests|
      && s.requests[e.request].status == Waiting
      && s.requests[e.request].process < |s.processes|
      && s.processes[s.requests[e.request].process].phase.Settled?
    else
      && e.process < |s.processes|
      && var phase := s.processes[e.process].phase;
         match e
         case Arrive(_, _) => true
         case Connect(_, _) => phase.Connecting?
         case Lock(_, reply) => phase.Locking? && (reply != LockFault ==> s.lock.None?)
         case Migrate(_, _) => phase.Migrating?
         case Seed(_, _) => phase.Seeding?
         case Unlock(_, _) => phase.Unlocking?
         case End(_, _) => phase.Ending?
  }

  // The effect of a step on the process that takes it.
  function Advance(p: Process, e: Event, holdsLock: bool): Process {
    match e
    case Arrive(_, poolThrows) => if p.phase.NotStarted? then Start(p, poolThrows) else p
    case Connect(_, fault) =>
      if fault then p.(phase := ClosePhase(p.config, false)) else p.(phase := Locking, client := InUse)
    case Lock(_, reply) =>
      p.(phase := if reply == Granted then FirstLockedPhase(p.config) else Unlocking(false))
    case Migrate(_, fault) =>
      if fault then p.(phase := Unlocking(false)) else p.(phase := SeedPhase(p.config), migrated := true)
    case Seed(_, fault) =>
      if fault then p.(phase := Unlocking(false)) else p.(phase := Unlocking(true), seeded := true)
    case Unlock(_, reply) =>
      p.(phase := ClosePhase(p.config, p.phase.Unlocking? && p.phase.ok && reply == Unlocked),
         client := Released, releases := p.releases + 1, lockKept := holdsLock && reply == UnlockFault)
    case End(_, fault) =>
      p.(phase := Settled(Outcomes(p.phase.Ending? && p.phase.ok && !fault)), endFailed := fault)
    case Resume(_, _) => p
  }

  // Who holds the advisory lock after a step of process i.
  function LockAfter(lock: Option<nat>, i: nat, e: Event): Option<nat> {
    match e
    case Lock(_, reply) => if reply == LockFault then lock else Some(i)
    case Unlock(_, reply) => if lock == Some(i) && reply != UnlockFault then None else lock
    case End(_, fault) => if lock == Some(i) && !fault then None else lock
    case _ => lock
  }

  function ResumeRequest(s: State, r: nat, serverThrows: bool): State
    requires Enabled(s, Resume(r, serverThrows))
  {
    var i := s.requests[r].process;
    var p := s.processes[i];
    match p.phase.outcome
    case Rejected => s.(requests := s.requests[r := Request(i, Errored)])
    case NotOk => s.(requests := s.requests[r := Request(i, Refused)])
    case Ok =>
      if !p.serverBuilt && serverThrows then s.(requests := s.requests[r := Request(i, Errored)])
      else s.(requests := s.requests[r := Request(i, Dispatched)],
              processes := s.processes[i := p.(serverBuilt := true)])
  }

  function Apply(s: State, e: Event): State
    requires Enabled(s, e)
  {
    if e.Resume? then ResumeRequest(s, e.request, e.serverThrows)
    else
      var i := e.process;
      State(s.processes[i := Advance(s.processes[i], e, s.lock == Some(i))],
            LockAfter(s.lock, i, e),
            if e.Arrive? then s.requests + [Request(i, Waiting)] else s.requests)
  }

  function Initial(configs: seq<Config>): State {
    State(seq(|configs|, i requires 0 <= i < |configs| =>
                Process(configs[i], NotStarted, Unconnected, 0, 0, false, false, false, false, false)),
          None, [])
  }

  predicate Possible(s: State, events: seq<Event>)
    decreases |events|
  {
    events == [] || (Enabled(s, events[0]) && Possible(Apply(s, events[0]), events[1..]))
  }

  function After(s: State, events: seq<Event>): State
    requires Possible(s, events)
    decreases |events|
  {
    if events == [] then s else After(Apply(s, events[0]), events[1..])
  }

  // --- the invariant -----------------------------------------------------------

  predicate InSection(p: Process) {
    p.phase.Migrating? || p.phase.Seeding?
  }

  // Everything configured under the lock was done.
  predicate StepsDone(p: Process) {
    && (p.config.migrations ==> p.migrated)
    && (p.config.adminSeed && !p.config.seedSkipped ==> p.seeded)
  }

  predicate ProcessInv(p: Process) {
    && p.starts == (if p.phase.NotStarted? then 0 else 1)
    && p.releases == (if p.client.Released? then 1 else 0)
    && (p.client.InUse? <==> p.phase.Locking? || InSection(p) || p.phase.Unlocking?)
    && (p.phase.NotStarted? || p.phase.Connecting? ==> p.client.Unconnected?)
    && (p.phase.Seeding? && p.config.migrations ==> p.migrated)
    && (p.phase.Migrating? ==> p.config.migrations)
    && (p.phase.Unlocking? && p.phase.ok ==> StepsDone(p))
    && (p.phase.Ending? && p.phase.ok ==> StepsDone(p) && p.client.Released? && !p.lockKept)
    && (p.phase == Settled(Ok) && p.config.enabled ==>
          StepsDone(p) && p.client.Released? && !p.lockKept && !p.endFailed)
    && (p.phase.Ending? ==> p.config.ownsPool)
    && (p.lockKept ==> p.client.Released? && (p.phase.Ending? || p.phase.Settled?))
    && (p.endFailed ==> p.phase.Settled? && p.config.ownsPool)
    && (p.serverBuilt ==> p.phase == Settled(Ok))
  }

  // The processes that hold the lock.
  predicate Holding(p: Process) {
    || InSection(p)
    || (p.lockKept && (p.phase.Ending? || (p.phase.Settled? && (!p.config.ownsPool || p.endFailed))))
  }

  predicate LockInv(s: State) {
    && (s.lock.Some? ==>
          s.lock.value < |s.processes|
          && (Holding(s.processes[s.lock.value]) || s.processes[s.lock.value].phase.Unlocking?))
    && forall i :: 0 <= i < |s.processes| ==> Holding(s.processes[i]) ==> s.lock == Some(i)
  }

  predicate RequestInv(s: State, r: Request) {
    && r.process < |s.processes|
    && var phase := s.processes[r.process].phase;
       match r.status
       case Waiting => !phase.NotStarted?
       case Dispatched => phase == Settled(Ok)
       case Refused => phase == Settled(NotOk)
       case Errored => phase == Settled(Rejected) || phase == Settled(Ok)
  }

  predicate Inv(s: State) {
    && (forall i :: 0 <= i < |s.processes| ==> ProcessInv(s.processes[i]))
    && LockInv(s)
    && (forall r :: 0 <= r < |s.requests| ==> RequestInv(s, s.requests[r]))
  }

  lemma AdvanceKeepsInv(p: Process, e: Event, holdsLock: bool, s: State)
    requires ProcessInv(p) && !e.Resume? && Enabled(s, e) && s.processes[e.process] == p
    ensures ProcessInv(Advance(p, e, holdsLock))
    ensures p.phase.Settled? ==> Advance(p, e, holdsLock).phase == p.phase
    ensures !p.phase.NotStarted? ==> !Advance(p, e, holdsLock).phase.NotStarted?
    ensures e.Arrive? ==> !Advance(p, e, holdsLock).phase.NotStarted?
  {}

  lemma StepKeepsLockInv(s: State, e: Event)
    requires Inv(s) && Enabled(s, e) && !e.Resume?
    ensures LockInv(Apply(s, e))
  {
    var t := Apply(s, e);
    var i := e.process;
    assert ProcessInv(s.processes[i]);
    forall j | 0 <= j < |t.processes| && Holding(t.processes[j]) ensures t.lock == Some(j) {
      assert ProcessInv(s.processes[j]);
      if j != i {
        assert Holding(s.processes[j]);
      }
    }
  }

  lemma StepKeepsInv(s: State, e: Event)
    requires Inv(s) && Enabled(s, e)
    ensures Inv(Apply(s, e))
    ensures |Apply(s, e).processes| == |s.processes|
    ensures forall i :: 0 <= i < |s.processes| ==> Apply(s, e).processes[i].config == s.processes[i].config
  {
    if e.Resume? {
      ResumeKeepsInv(s, e);
    } else {
      assert ProcessInv(s.processes[e.process]);
      AdvanceKeepsInv(s.processes[e.process], e, s.lock == Some(e.process), s);
      StepKeepsLockInv(s, e);
      StepKeepsRequestInv(s, e);
    }
  }

  lemma StepKeepsRequestInv(s: State, e: Event)
    requires Inv(s) && Enabled(s, e) && !e.Resume?
    ensures forall r :: 0 <= r < |Apply(s, e).requests| ==> RequestInv(Apply(s, e), Apply(s, e).requests[r])
  {
    var t := Apply(s, e);
    assert ProcessInv(s.processes[e.process]);
    AdvanceKeepsInv(s.processes[e.process], e, s.lock == Some(e.process), s);
    forall r | 0 <= r < |t.requests| ensures RequestInv(t, t.requests[r]) {
      if r < |s.requests| {
        assert RequestInv(s, s.requests[r]);
      }
    }
  }

  lemma ResumeKeepsInv(s: State, e: Event)
    requires Inv(s) && Enabled(s, e) && e.Resume?
    ensures Inv(Apply(s, e))
  {
    var t := Apply(s, e);
    assert RequestInv(s, s.requests[e.request]);
    assert ProcessInv(s.processes[s.requests[e.request].process]);
    forall r | 0 <= r < |t.requests| ensures RequestInv(t, t.requests[r]) {
      assert RequestInv(s, s.requests[r]);
    }
    assert forall j :: 0 <= j < |s.processes| ==> Holding(t.processes[j]) == Holding(s.processes[j]);
  }

  lemma {:induction false} RunKeepsInv(s: State, events: seq<Event>)
    requires Inv(s) && Possible(s, events)
    ensures Inv(After(s, events))
    ensures |After(s, events).processes| == |s.processes|
    decreases |events|
  {
    if events != [] {
      StepKeepsInv(s, events[0]);
      RunKeepsInv(Apply(s, events[0]), events[1..]);
    }
  }

  // --- safety over every run ------------------------------------------------------

  // For any processes, any interleaving and any faults: no two processes are
  // migrating or seeding at once; seeding starts only after this process's
  // migrations; a bootstrap starts at most once per process; a connected client
  // is released exactly once; no request is dispatched before its process's
  // bootstrap settled ok; and a bootstrap that settled ok did all its steps.
  lemma Safety(configs: seq<Config>, events: seq<Event>)
    requires Possible(Initial(configs), events)
    ensures var s := After(Initial(configs), events);
            && |s.processes| == |configs|
            && (forall i, j :: 0 <= i < j < |s.processes| ==> !(InSection(s.processes[i]) && InSection(s.processes[j])))
            && (forall i :: 0 <= i < |s.processes| ==>
                  var p := s.processes[i];
                  && (p.phase.Seeding? && p.config.migrations ==> p.migrated)
                  && p.starts <= 1
                  && p.releases <= 1
                  && (p.phase.Settled? ==> !p.client.InUse? && (p.client.Released? <==> p.releases == 1))
                  && (p.phase == Settled(Ok) && p.config.enabled ==> StepsDone(p) && p.releases == 1))
            && (forall r :: 0 <= r < |s.requests| && s.requests[r].status.Dispatched? ==>
                  s.requests[r].process < |s.processes|
                  && s.processes[s.requests[r].process].phase == Settled(Ok))
  {
    RunKeepsInv(Initial(configs), events);
    var s := After(Initial(configs), events);
    forall i | 0 <= i < |s.processes|
      ensures ProcessInv(s.processes[i]) && (InSection(s.processes[i]) ==> s.lock == Some(i))
    {
      assert Holding(s.processes[i]) ==> s.lock == Some(i);
    }
    forall r | 0 <= r < |s.requests| ensures RequestInv(s, s.requests[r]) {}
  }

  // --- faults and the lock they leave ----------------------------------------------

  // What the events so far say about a process.
  ghost predicate GotLock(history: seq<Event>, i: nat) {
    Lock(i, Granted) in history || Lock(i, LockFaultAfterGrant) in history
  }

  ghost predicate Before(p: Process) {
    p.phase.NotStarted? || p.phase.Connecting? || p.phase.Locking?
  }

  // How far a process is, and what it left, against the events that took it there.
  ghost predicate Recalls(p: Process, holds: bool, history: seq<Event>, i: nat) {
    && (Before(p) ==> !GotLock(history, i))
    && (Before(p) || InSection(p) || p.phase.Unlocking? ==>
          Unlock(i, UnlockFault) !in history && End(i, true) !in history)
    && (InSection(p) ==> holds)
    && (InSection(p) || p.phase.Unlocking? ==> (holds <==> GotLock(history, i)))
    && (p.phase.Ending? || p.phase.Settled? ==>
          (p.lockKept <==> GotLock(history, i) && Unlock(i, UnlockFault) in history))
    && (p.phase.Ending? ==> End(i, true) !in history)
    && (p.endFailed <==> End(i, true) in history)
  }

  ghost predicate History(s: State, history: seq<Event>) {
    forall i :: 0 <= i < |s.processes| ==> Recalls(s.processes[i], s.lock == Some(i), history, i)
  }

  lemma StepOfOther(p: Process, holds: bool, history: seq<Event>, e: Event, i: nat)
    requires Recalls(p, holds, history, i) && (e.Resume? || e.process != i)
    ensures Recalls(p, holds, history + [e], i)
  {}

  lemma StepOfSelf(s: State, e: Event, history: seq<Event>)
    requires Inv(s) && Enabled(s, e) && !e.Resume?
    requires Recalls(s.processes[e.process], s.lock == Some(e.process), history, e.process)
    ensures var t := Apply(s, e);
            Recalls(t.processes[e.process], t.lock == Some(e.process), history + [e], e.process)
  {
    assert ProcessInv(s.processes[e.process]);
    assert e in history + [e];
  }

  lemma StepKeepsHistory(s: State, e: Event, history: seq<Event>)
    requires Inv(s) && History(s, history) && Enabled(s, e)
    ensures History(Apply(s, e), history + [e])
  {
    var t := Apply(s, e);
    StepKeepsInv(s, e);
    forall i | 0 <= i < |t.processes| ensures Recalls(t.processes[i], t.lock == Some(i), history + [e], i) {
      assert Recalls(s.processes[i], s.lock == Some(i), history, i);
      if !e.Resume? && e.process == i {
        StepOfSelf(s, e, history);
      } else {
        StepOfOther(s.processes[i], s.lock == Some(i), history, e, i);
      }
    }
  }

  lemma {:induction false} RunKeepsHistory(s: State, history: seq<Event>, events: seq<Event>)
    requires Inv(s) && History(s, history) && Possible(s, events)
    ensures var t := After(s, events);
            && History(t, history + events)
            && |t.processes| == |s.processes|
            && forall i :: 0 <= i < |s.processes| ==> t.processes[i].config == s.processes[i].config
    decreases |events|
  {
    if events == [] {
      assert history + events == history;
    } else {
      StepKeepsInv(s, events[0]);
      StepKeepsHistory(s, events[0], history);
      RunKeepsHistory(Apply(s, events[0]), history + [events[0]], events[1..]);
      assert history + [events[0]] + events[1..] == history + events;
    }
  }

  // Exactly when a settled bootstrap still holds the lock, in terms of what
  // happened: the lock was granted, whether or not the reply arrived, the unlock
  // query failed without taking effect, and the pool was not its own or failed
  // to close.
  lemma LockLeftBehind(configs: seq<Config>, events: seq<Event>, i: nat)
    requires Possible(Initial(configs), events) && i < |configs|
    ensures var s := After(Initial(configs), events);
            && |s.processes| == |configs|
            && (s.processes[i].phase.Settled? ==>
                  (s.lock == Some(i) <==>
                     && (Lock(i, Granted) in events || Lock(i, LockFaultAfterGrant) in events)
                     && Unlock(i, UnlockFault) in events
                     && (!configs[i].ownsPool || End(i, true) in events)))
  {
    RunKeepsInv(Initial(configs), events);
    RunKeepsHistory(Initial(configs), [], events);
    assert [] + events == events;
    var s := After(Initial(configs), events);
    assert ProcessInv(s.processes[i]);
    assert Recalls(s.processes[i], s.lock == Some(i), events, i);
    assert Holding(s.processes[i]) ==> s.lock == Some(i);
  }

  // A lock left behind is never taken again: no other process gets to migrate
  // or seed, whatever happens next.
  lemma {:induction false} LeftBehindForever(s: State, i: nat, events: seq<Event>)
    requires Inv(s) && Possible(s, events)
    requires s.lock == Some(i) && s.processes[i].phase.Settled?
    ensures var t := After(s, events);
            && t.lock == Some(i)
            && |t.processes| == |s.processes|
            && forall j :: 0 <= j < |t.processes| ==> !InSection(t.processes[j])
    decreases |events|
  {
    if events == [] {
      forall j | 0 <= j < |s.processes| ensures !InSection(s.processes[j]) {
        assert Holding(s.processes[j]) ==> s.lock == Some(j);
      }
    } else {
      StepKeepsInv(s, events[0]);
      LeftBehindForever(Apply(s, events[0]), i, events[1..]);
    }
  }

  lemma Next(s: State, e: Event, rest: seq<Event>)
    requires Enabled(s, e) && Possible(Apply(s, e), rest)
    ensures Possible(s, [e] + rest) && After(s, [e] + rest) == After(Apply(s, e), rest)
  {
    assert ([e] + rest)[1..] == rest;
  }

  // Both faults together do leave the lock behind, even with an owned pool.
  lemma TwoFaultsLeaveLock()
    ensures exists configs: seq<Config>, events: seq<Event> ::
              && |configs| == 1 && configs[0].ownsPool
              && Possible(Initial(configs), events)
              && var s := After(Initial(configs), events);
                 |s.processes| == 1 && s.processes[0].phase.Settled? && s.lock == Some(0)
  {
    var configs := [Config(true, true, false, true, true, true, true)];
    var s0 := Initial(configs);
    var s1 := Apply(s0, Arrive(0, false));
    var s2 := Apply(s1, Connect(0, false));
    var s3 := Apply(s2, Lock(0, Granted));
    var s4 := Apply(s3, Migrate(0, false));
    var s5 := Apply(s4, Unlock(0, UnlockFault));
    var s6 := Apply(s5, End(0, true));
    var e5 := [End(0, true)] + [];
    var e4 := [Unlock(0, UnlockFault)] + e5;
    var e3 := [Migrate(0, false)] + e4;
    var e2 := [Lock(0, Granted)] + e3;
    var e1 := [Connect(0, false)] + e2;
    var e0 := [Arrive(0, false)] + e1;
    Next(s5, End(0, true), []);
    Next(s4, Unlock(0, UnlockFault), e5);
    Next(s3, Migrate(0, false), e4);
    Next(s2, Lock(0, Granted), e3);
    Next(s1, Connect(0, false), e2);
    Next(s0, Arrive(0, false), e1);
    assert After(s0, e0) == s6;
    assert s6.lock == Some(0) && |s6.processes| == 1 && s6.processes[0].phase.Settled?;
    assert Possible(Initial(configs), e0);
  }
}
