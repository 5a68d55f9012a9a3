// Scoped cleanup of load-test data: jobs of the target are completed in
// batches, its application rows are deleted in one transaction, and nothing of
// any other tenant may go. Every query is an await that may fault, sometimes
// after it took effect. No other writer runs during a cleanup.
module SoakCleanup {
  import opened Selections
  import opened Wrappers
  import SoakTenants

  datatype Job = Job(tenant: string, lockedBy: Option<string>)
  type Queue = map<nat, Job>

  datatype Delivery = Delivery(tenant: string, jobId: Option<nat>)

  // Operator actions and effects carry only their tenant here.
  datatype Tables = Tables(actions: map<nat, string>, effects: map<nat, string>, deliveries: map<nat, Delivery>)

  type Target = string -> bool

  function KeepOthers(rows: map<nat, string>, target: Target): map<nat, string> {
    map id | id in rows && !target(rows[id]) :: rows[id]
  }

  function KeepOtherDeliveries(rows: map<nat, Delivery>, target: Target): map<nat, Delivery> {
    map id | id in rows && !target(rows[id].tenant) :: rows[id]
  }

  // The tables with every row of the target deleted, and no other.
  function Without(t: Tables, target: Target): Tables {
    Tables(KeepOthers(t.actions, target), KeepOthers(t.effects, target), KeepOtherDeliveries(t.deliveries, target))
  }

  function TargetJobs(jobs: Queue, target: Target): set<nat> {
    set id | id in jobs && target(jobs[id].tenant)
  }

  function TargetRows(t: Tables, target: Target): nat {
    |set id | id in t.actions && target(t.actions[id])|
    + |set id | id in t.effects && target(t.effects[id])|
    + |set id | id in t.deliveries && target(t.deliveries[id].tenant)|
  }

  // Job ids the delivery registry refers to for a target.
  function References(t: Tables, target: Target): set<nat> {
    set id | id in t.deliveries && target(t.deliveries[id].tenant) && t.deliveries[id].jobId.Some?
        :: t.deliveries[id].jobId.value
  }

  function Members(ids: seq<nat>): set<nat> {
    set id | id in ids
  }

  // The listed jobs that are in the queue.
  function Queued(jobs: Queue, ids: seq<nat>): set<nat> {
    set id | id in ids && id in jobs
  }

  function Lockers(jobs: Queue, ids: set<nat>): set<string> {
    set id | id in ids && id in jobs && jobs[id].lockedBy.Some? :: jobs[id].lockedBy.value
  }

  function UnlockedBy(jobs: Queue, workers: set<string>): Queue {
    map id | id in jobs ::
      if jobs[id].lockedBy.Some? && jobs[id].lockedBy.value in workers then jobs[id].(lockedBy := None) else jobs[id]
  }

  // The worker that holds a job also holds a job in scope.
  ghost predicate HeldBy(jobs: Queue, job: Job, scope: set<nat>) {
    job.lockedBy.Some? && exists id :: id in scope && id in jobs && jobs[id].lockedBy == job.lockedBy
  }

  // Only jobs in scope are gone; every other job is still there, of the same
  // tenant, and unlocked only if its worker also held a job in scope.
  ghost predicate Framed(before: Queue, after: Queue, scope: set<nat>) {
    && (forall id :: id in before && id !in scope ==> id in after)
    && (forall id :: id in after ==>
          id in before && after[id].tenant == before[id].tenant
          && (|| after[id].lockedBy == before[id].lockedBy
              || (after[id].lockedBy == None && HeldBy(before, before[id], scope))))
  }

  // --- the database and the job queue ---------------------------------------------

  // A database server with one client. The k-th call faults when faulty(k), and
  // has then taken effect anyway when late(k). completeJobs may pass over any
  // job, as refuses says.
  class Server {
    const faulty: nat -> bool
    const late: nat -> bool
    const refuses: (nat, nat) -> bool
    var calls: nat
    var jobs: Queue
    var tables: Tables
    var working: Tables
    var inTransaction: bool

    constructor (jobs: Queue, tables: Tables, faulty: nat -> bool, late: nat -> bool, refuses: (nat, nat) -> bool)
      ensures this.jobs == jobs && this.tables == tables && !inTransaction && calls == 0
      ensures this.faulty == faulty && this.late == late && this.refuses == refuses
    {
      this.faulty, this.late, this.refuses := faulty, late, refuses;
      this.calls, this.jobs, this.tables, this.working, this.inTransaction := 0, jobs, tables, tables, false;
    }

    // A query that only reads: the caller sees a fault or the current state.
    method Read() returns (ok: bool)
      modifies this`calls
      ensures calls == old(calls) + 1 && ok == !faulty(old(calls))
    {
      ok := !faulty(calls);
      calls := calls + 1;
    }

    function Completed(ids: seq<nat>): set<nat>
      reads this
    {
      set id | id in ids && id in jobs && !refuses(calls, id)
    }

    // workerUtils.completeJobs: deletes some of the listed jobs and returns
    // them.
    method CompleteJobs(ids: seq<nat>) returns (ok: bool, completed: nat)
      modifies this`calls, this`jobs
      ensures calls == old(calls) + 1 && ok == !faulty(old(calls))
      ensures ok ==> completed == |old(Completed(ids))|
      ensures jobs == (if ok || late(old(calls)) then old(jobs) - old(Completed(ids)) else old(jobs))
    {
      ok := !faulty(calls);
      completed := |Completed(ids)|;
      if ok || late(calls) {
        jobs := jobs - Completed(ids);
      }
      calls := calls + 1;
    }

    method ForceUnlockWorkers(workers: set<string>) returns (ok: bool)
      modifies this`calls, this`jobs
      ensures calls == old(calls) + 1 && ok == !faulty(old(calls))
      ensures jobs == (if ok || late(old(calls)) then UnlockedBy(old(jobs), workers) else old(jobs))
    {
      ok := !faulty(calls);
      if ok || late(calls) {
        jobs := UnlockedBy(jobs, workers);
      }
      calls := calls + 1;
    }

    // BEGIN opens a transaction even when only its reply is lost.
    method Begin() returns (ok: bool)
      modifies this`calls, this`working, this`inTransaction
      ensures calls == old(calls) + 1 && ok == !faulty(old(calls))
      ensures ok ==> working == tables
      ensures inTransaction == (old(inTransaction) || ok || late(old(calls)))
    {
      ok := !faulty(calls);
      if ok || late(calls) {
        inTransaction, working := true, tables;
      }
      calls := calls + 1;
    }

    // A statement inside the transaction; what it changes is seen by nobody
    // before the commit.
    method Delete(working': Tables) returns (ok: bool)
      requires inTransaction
      modifies this`calls, this`working
      ensures calls == old(calls) + 1 && ok == !faulty(old(calls))
      ensures ok ==> working == working'
    {
      ok := !faulty(calls);
      calls := calls + 1;
      working := working';
    }

    method Commit() returns (ok: bool)
      requires inTransaction
      modifies this`calls, this`tables, this`inTransaction
      ensures calls == old(calls) + 1 && ok == !faulty(old(calls))
      ensures tables == (if ok || late(old(calls)) then working else old(tables))
      ensures inTransaction == !(ok || late(old(calls)))
    {
      ok := !faulty(calls);
      if ok || late(calls) {
        tables, inTransaction := working, false;
      }
      calls := calls + 1;
    }

    // ROLLBACK, whose own failure is swallowed: an open transaction is dropped
    // either way.
    method Rollback()
      modifies this`calls, this`working, this`inTransaction
      ensures calls == old(calls) + 1 && !inTransaction
    {
      calls := calls + 1;
      inTransaction, working := false, tables;
    }

    // The calls from the first one up to the second one do not fault.
    ghost predicate Clear(first: nat, end: nat) {
      forall k :: first <= k < end ==> !faulty(k)
    }

    // The call fails although it took effect: only its reply is lost.
    ghost predicate ReplyLost(k: nat) {
      faulty(k) && late(k)
    }

    // A transaction of n calls, the last of which is COMMIT, took effect.
    ghost predicate Commits(first: nat, n: nat)
      requires n > 0
    {
      Clear(first, first + n - 1) && (!faulty(first + n - 1) || late(first + n - 1))
    }

    ghost predicate NoFaults() {
      (forall k :: !faulty(k)) && (forall k, id :: !refuses(k, id))
    }
  }

  datatype Outcome = Returned(completed: nat, unlockedWorkers: nat) | Thrown

  // --- small facts -------------------------------------------------------------------

  lemma RemoveCounts(jobs: Queue, removed: set<nat>)
    requires removed <= jobs.Keys
    ensures |jobs - removed| == |jobs| - |removed|
  {
    assert (jobs - removed).Keys == jobs.Keys - removed;
    assert |(jobs - removed).Keys| == |jobs.Keys| - |removed|;
    assert |jobs.Keys| == |jobs| && |(jobs - removed).Keys| == |jobs - removed|;
  }

  lemma UnlockCounts(jobs: Queue, workers: set<string>)
    ensures UnlockedBy(jobs, workers).Keys == jobs.Keys
    ensures |UnlockedBy(jobs, workers)| == |jobs|
  {
    assert UnlockedBy(jobs, workers).Keys == jobs.Keys;
    assert |UnlockedBy(jobs, workers).Keys| == |jobs.Keys|;
  }

  // The distinct ids of a query, as the program iterates over them.
  method ListIds(ids: set<nat>) returns (list: seq<nat>)
    ensures NoRepeat(list) && Members(list) == ids
  {
    list := [];
    var rest := ids;
    while rest != {}
      invariant rest <= ids && rest !! Members(list) && rest + Members(list) == ids
      invariant NoRepeat(list)
      decreases rest
    {
      var id :| id in rest;
      assert id !in Members(list);
      assert Members(list + [id]) == Members(list) + {id};
      list := list + [id];
      rest := rest - {id};
    }
  }

  // --- cleanup of a soak run ---------------------------------------------------------

  const BATCH: nat := 2000

  lemma FramedRemove(before: Queue, jobs: Queue, removed: set<nat>, scope: set<nat>)
    requires Framed(before, jobs, scope) && removed <= scope
    ensures Framed(before, jobs - removed, scope)
  {}

  lemma FramedUnlock(before: Queue, jobs: Queue, workers: set<string>, scope: set<nat>)
    requires Framed(before, jobs, scope) && workers <= Lockers(jobs, scope)
    ensures Framed(before, UnlockedBy(jobs, workers), scope)
  {
    var after := UnlockedBy(jobs, workers);
    forall id | id in after && after[id].lockedBy != before[id].lockedBy ensures HeldBy(before, before[id], scope) {
      if jobs[id].lockedBy == before[id].lockedBy {
        var other :| other in scope && other in jobs && jobs[other].lockedBy == jobs[id].lockedBy;
        assert before[other].lockedBy == before[id].lockedBy;
      }
    }
  }

  // Completes the listed jobs in batches of 2000; each id is in exactly one
  // batch.
  method CompleteBatches(server: Server, jobIds: seq<nat>) returns (ok: bool, completedJobs: nat)
    modifies server`calls, server`jobs
    ensures Framed(old(server.jobs), server.jobs, Members(jobIds))
    ensures ok ==> completedJobs == |old(server.jobs)| - |server.jobs|
    ensures server.NoFaults() ==> ok && forall i :: 0 <= i < |jobIds| ==> jobIds[i] !in server.jobs
  {
    completedJobs, ok := 0, true;
    ghost var before := server.jobs;
    ghost var scope := Members(jobIds);
    var index := 0;
    while index < |jobIds|
      invariant 0 <= index <= |jobIds| && ok
      invariant Framed(before, server.jobs, scope)
      invariant |server.jobs| + completedJobs == |before|
      invariant server.NoFaults() ==> forall i :: 0 <= i < index ==> jobIds[i] !in server.jobs
    {
      var next := if index + BATCH <= |jobIds| then index + BATCH else |jobIds|;
      var batch := jobIds[index..next];
      ghost var removed := server.Completed(batch);
      ghost var jobs := server.jobs;
      InScope(jobIds, index, next, removed);
      FramedRemove(before, jobs, removed, scope);
      RemoveCounts(jobs, removed);
      var completed;
      ok, completed := server.CompleteJobs(batch);
      if !ok { return; }
      completedJobs := completedJobs + completed;
      assert server.NoFaults() ==> forall i :: index <= i < next ==> jobIds[i] !in server.jobs by {
        assert forall i :: index <= i < next ==> jobIds[i] == batch[i - index];
      }
      index := next;
    }
  }

  lemma InScope(ids: seq<nat>, index: nat, next: nat, removed: set<nat>)
    requires index <= next <= |ids| && forall id :: id in removed ==> id in ids[index..next]
    ensures removed <= Members(ids)
  {
    assert forall id :: id in ids[index..next] ==> id in ids;
  }

  method CompleteTargetJobs(server: Server, target: Target)
    returns (ok: bool, completedJobs: nat, unlockedWorkers: nat)
    modifies server`calls, server`jobs
    ensures Framed(old(server.jobs), server.jobs, TargetJobs(old(server.jobs), target))
    ensures ok ==> completedJobs == |old(server.jobs)| - |server.jobs|
    ensures ok ==> unlockedWorkers == |Lockers(old(server.jobs), TargetJobs(old(server.jobs), target))|
    ensures server.NoFaults() ==> ok && TargetJobs(server.jobs, target) == {}
  {
    completedJobs, unlockedWorkers := 0, 0;
    ghost var before := server.jobs;
    ghost var scope := TargetJobs(before, target);
    ok := server.Read();
    if !ok { return; }
    var jobIds := ListIds(TargetJobs(server.jobs, target));
    if jobIds == [] {
      assert scope == Members(jobIds) == {};
      assert Lockers(server.jobs, scope) == {};
      return;
    }
    ok := server.Read();
    if !ok { return; }
    var workerIds := Lockers(server.jobs, TargetJobs(server.jobs, target));
    if workerIds != {} {
      UnlockCounts(server.jobs, workerIds);
      FramedUnlock(before, server.jobs, workerIds, scope);
      ok := server.ForceUnlockWorkers(workerIds);
      if !ok { return; }
    }
    unlockedWorkers := |workerIds|;
    ghost var unlocked := server.jobs;
    ok, completedJobs := CompleteBatches(server, jobIds);
    FramedTwice(before, unlocked, server.jobs, scope);
    if server.NoFaults() {
      NoneLeft(before, server.jobs, jobIds, target);
    }
  }

  lemma FramedTwice(a: Queue, b: Queue, c: Queue, scope: set<nat>)
    requires Framed(a, b, scope) && Framed(b, c, scope)
    ensures Framed(a, c, scope)
  {
    forall id | id in c && c[id].lockedBy != a[id].lockedBy ensures HeldBy(a, a[id], scope) {
      if b[id].lockedBy == a[id].lockedBy {
        var other :| other in scope && other in b && b[other].lockedBy == b[id].lockedBy;
        assert a[other].lockedBy == a[id].lockedBy;
      }
    }
  }

  // What is framed in part of a scope is framed in all of it.
  lemma FramedWider(a: Queue, b: Queue, scope: set<nat>, wider: set<nat>)
    requires Framed(a, b, scope) && scope <= wider
    ensures Framed(a, b, wider)
  {}

  lemma NoneLeft(before: Queue, after: Queue, ids: seq<nat>, target: Target)
    requires Framed(before, after, TargetJobs(before, target)) && Members(ids) == TargetJobs(before, target)
    requires forall i :: 0 <= i < |ids| ==> ids[i] !in after
    ensures TargetJobs(after, target) == {}
  {
    forall id | id in after ensures !target(after[id].tenant) {
      assert id in Members(ids) <==> id in TargetJobs(before, target);
    }
  }

  // A transaction of n calls from the k-th on that deletes the target's rows. It
  // returns exactly when none of its calls faults; the rows are gone exactly
  // when COMMIT took effect; so it throws with rows gone exactly when there were
  // some and only the reply of COMMIT was lost.
  ghost predicate Transacted(server: Server, k: nat, n: nat, before: Tables, target: Target, ok: bool)
    requires n > 0
    reads server
  {
    && (ok <==> server.Clear(k, k + n))
    && server.tables == (if server.Commits(k, n) then Without(before, target) else before)
    && (!ok && server.tables != before <==>
          server.Clear(k, k + n - 1) && server.ReplyLost(k + n - 1) && TargetRows(before, target) > 0)
  }

  // The three deletions between BEGIN and COMMIT: five calls. A lost reply of
  // BEGIN, which is sent outside the try, leaves a transaction open on the
  // connection.
  method DeleteTargetApplicationRows(server: Server, target: Target) returns (ok: bool)
    modifies server`calls, server`tables, server`working, server`inTransaction
    ensures Transacted(server, old(server.calls), 5, old(server.tables), target, ok)
    ensures !old(server.inTransaction) ==> (server.inTransaction <==> server.ReplyLost(old(server.calls)))
  {
    ghost var k, before := server.calls, server.tables;
    ok := server.Begin();
    if ok {
      ok := DeleteRows(server, target);
      if ok {
        ok := server.Commit();
      }
      if !ok {
        server.Rollback();
      }
    }
    assert ok <==> server.Clear(k, k + 5);
    ThrewAfterCommit(server, k, 5, before, target, ok);
  }

  // A transaction that threw has changed the tables exactly when there was
  // something to delete and only the reply of COMMIT was lost.
  lemma ThrewAfterCommit(server: Server, k: nat, n: nat, before: Tables, target: Target, ok: bool)
    requires n > 0 && (ok <==> server.Clear(k, k + n))
    requires server.tables == (if server.Commits(k, n) then Without(before, target) else before)
    ensures Transacted(server, k, n, before, target, ok)
  {
    WithoutChanges(before, target);
    assert server.Clear(k, k + n) <==> server.Clear(k, k + n - 1) && !server.faulty(k + n - 1);
  }

  // COMMIT, the last of n calls, is sent if no other faulted.
  lemma CommitsIff(server: Server, k: nat, n: nat, began: bool, ok: bool)
    requires n > 0 && (began <==> server.Clear(k, k + n - 1)) && (ok <==> began && !server.faulty(k + n - 1))
    ensures ok <==> server.Clear(k, k + n)
    ensures server.Commits(k, n) <==> began && (ok || server.late(k + n - 1))
  {}

  lemma Committed(server: Server, k: nat, n: nat, before: Tables, target: Target, began: bool, ok: bool)
    requires n > 0 && (began <==> server.Clear(k, k + n - 1)) && (ok <==> began && !server.faulty(k + n - 1))
    requires server.tables == (if began && (ok || server.late(k + n - 1)) then Without(before, target) else before)
    ensures Transacted(server, k, n, before, target, ok)
  {
    CommitsIff(server, k, n, began, ok);
    ThrewAfterCommit(server, k, n, before, target, ok);
  }

  // The three DELETE statements of either cleanup.
  method DeleteRows(server: Server, target: Target) returns (ok: bool)
    requires server.inTransaction
    modifies server`calls, server`working
    ensures ok <==> server.Clear(old(server.calls), old(server.calls) + 3)
    ensures ok ==> server.calls == old(server.calls) + 3 && server.working == Without(old(server.working), target)
  {
    ok := server.Delete(server.working.(actions := KeepOthers(server.working.actions, target)));
    if !ok { return; }
    ok := server.Delete(server.working.(effects := KeepOthers(server.working.effects, target)));
    if !ok { return; }
    ok := server.Delete(server.working.(deliveries := KeepOtherDeliveries(server.working.deliveries, target)));
  }

  // Deleting the target's rows changes the tables exactly when there are some.
  lemma WithoutChanges(t: Tables, target: Target)
    ensures Without(t, target) != t <==> TargetRows(t, target) > 0
  {
    var a := set id | id in t.actions && target(t.actions[id]);
    var b := set id | id in t.effects && target(t.effects[id]);
    var c := set id | id in t.deliveries && target(t.deliveries[id].tenant);
    if TargetRows(t, target) == 0 {
      assert a == {} && b == {} && c == {};
      assert KeepOthers(t.actions, target) == t.actions by {
        assert forall id :: id in t.actions ==> id !in a;
      }
      assert KeepOthers(t.effects, target) == t.effects by {
        assert forall id :: id in t.effects ==> id !in b;
      }
      assert KeepOtherDeliveries(t.deliveries, target) == t.deliveries by {
        assert forall id :: id in t.deliveries ==> id !in c;
      }
    } else if a != {} {
      var id :| id in a;
      assert id !in KeepOthers(t.actions, target);
    } else if b != {} {
      var id :| id in b;
      assert id !in KeepOthers(t.effects, target);
    } else {
      var id :| id in c;
      assert id !in KeepOtherDeliveries(t.deliveries, target);
    }
  }

  function OnlyCall(n: nat): nat -> bool {
    (k: nat) => k == n
  }

  function NothingRefused(): (nat, nat) -> bool {
    (k: nat, id: nat) => false
  }

  // A fresh server that loses the reply of COMMIT: the cleanup throws and the
  // rows are gone all the same.
  method LostCommitReply(tables: Tables, target: Target) returns (ok: bool, left: Tables)
    ensures !ok && left == Without(tables, target)
  {
    var server := new Server(map[], tables, OnlyCall(4), OnlyCall(4), NothingRefused());
    ok := DeleteTargetApplicationRows(server, target);
    left := server.tables;
  }

  method CleanupSoakRun(server: Server, target: Target) returns (outcome: Outcome)
    modifies server`calls, server`jobs, server`tables, server`working, server`inTransaction
    ensures Framed(old(server.jobs), server.jobs, TargetJobs(old(server.jobs), target))
    ensures server.tables == old(server.tables) || server.tables == Without(old(server.tables), target)
    ensures outcome.Returned? ==>
              && server.tables == Without(old(server.tables), target)
              && TargetJobs(server.jobs, target) == {}
              && TargetRows(server.tables, target) == 0
              && outcome.completed == |TargetJobs(old(server.jobs), target)|
              && outcome.unlockedWorkers == |Lockers(old(server.jobs), TargetJobs(old(server.jobs), target))|
    ensures server.NoFaults() ==> outcome.Returned?
  {
    var ok := server.Read();
    if !ok { return Thrown; }
    var jobsBefore := |TargetJobs(server.jobs, target)|;
    ghost var before := server.jobs;
    var completedJobs, unlockedWorkers;
    ok, completedJobs, unlockedWorkers := CompleteTargetJobs(server, target);
    if !ok { return Thrown; }
    AllTargetsGone(before, server.jobs, target);
    ok := server.Read();
    if !ok { return Thrown; }
    var remaining := |TargetJobs(server.jobs, target)|;
    if remaining != 0 || completedJobs != jobsBefore { return Thrown; }
    ok := DeleteTargetApplicationRows(server, target);
    if !ok { return Thrown; }
    WithoutHasNoRows(server.tables, target);
    ok := server.Read();
    if !ok { return Thrown; }
    if TargetRows(server.tables, target) != 0 || |TargetJobs(server.jobs, target)| != 0 { return Thrown; }
    outcome := Returned(completedJobs, unlockedWorkers);
  }

  // When no target job is left and nothing else went, as many jobs are gone as
  // there were target jobs.
  lemma AllTargetsGone(before: Queue, after: Queue, target: Target)
    requires Framed(before, after, TargetJobs(before, target))
    ensures TargetJobs(after, target) == {} ==> |before| - |after| == |TargetJobs(before, target)|
  {
    if TargetJobs(after, target) == {} {
      var scope := TargetJobs(before, target);
      assert forall id :: id in after && id in scope ==> id in TargetJobs(after, target);
      assert after.Keys == before.Keys - scope;
      assert |after.Keys| == |before.Keys| - |scope|;
      assert |after.Keys| == |after| && |before.Keys| == |before|;
    }
  }

  lemma WithoutHasNoRows(t: Tables, target: Target)
    requires exists old' :: t == Without(old', target)
    ensures TargetRows(t, target) == 0
  {
    assert (set id | id in t.actions && target(t.actions[id])) == {};
    assert (set id | id in t.effects && target(t.effects[id])) == {};
    assert (set id | id in t.deliveries && target(t.deliveries[id].tenant)) == {};
  }

  function RunTarget(prefix: string): Target {
    (tenant: string) => SoakTenants.Selects(prefix, tenant)
  }

  // The cleanup of one run leaves every row of every other run in place, and
  // none of its own.
  lemma RunsCleanApart(t: Tables, p: string, q: string)
    requires p != q
    ensures var left := Without(t, RunTarget(p));
            && TargetRows(left, RunTarget(p)) == 0
            && (forall id :: id in t.actions && RunTarget(q)(t.actions[id]) ==>
                  id in left.actions && left.actions[id] == t.actions[id])
            && (forall id :: id in t.effects && RunTarget(q)(t.effects[id]) ==>
                  id in left.effects && left.effects[id] == t.effects[id])
            && (forall id :: id in t.deliveries && RunTarget(q)(t.deliveries[id].tenant) ==>
                  id in left.deliveries && left.deliveries[id] == t.deliveries[id])
  {
    WithoutHasNoRows(Without(t, RunTarget(p)), RunTarget(p));
    forall tenant | RunTarget(q)(tenant) ensures !RunTarget(p)(tenant) {
      if RunTarget(p)(tenant) {
        SoakTenants.NoTenantOfTwoRuns(p, q, tenant);
      }
    }
  }

  // --- cleanup of a load test ------------------------------------------------------------

  // Completes one batch, unlocking the workers of what is left and trying once
  // more. Completed and residual jobs together are what the batch found.
  method CleanupGraphileBatch(server: Server, batch: seq<nat>)
    returns (ok: bool, completed: nat, residual: nat, workersUnlocked: nat)
    modifies server`calls, server`jobs
    ensures Framed(old(server.jobs), server.jobs, Members(batch))
    ensures ok ==> completed + residual == |Queued(old(server.jobs), batch)|
    ensures ok ==> residual == |Queued(server.jobs, batch)|
    ensures ok ==> workersUnlocked ==
                     |Lockers(old(server.jobs), Queued(old(server.jobs), batch) - old(server.Completed(batch)))|
    ensures server.NoFaults() ==> ok && residual == 0
  {
    residual, workersUnlocked := 0, 0;
    ghost var before := server.jobs;
    ghost var first := server.Completed(batch);
    QueuedAfter(before, batch, first);
    FramedRemove(before, before, first, Members(batch));
    ok, completed := server.CompleteJobs(batch);
    if !ok { return; }
    ok := server.Read();
    if !ok { return; }
    var left := Queued(server.jobs, batch);
    residual := |left|;
    var workerIds := Lockers(server.jobs, left);
    workersUnlocked := |workerIds|;
    LockersAfter(before, first, batch);
    if workerIds != {} {
      UnlockCounts(server.jobs, workerIds);
      FramedUnlock(before, server.jobs, workerIds, Members(batch));
      QueuedSame(server.jobs, UnlockedBy(server.jobs, workerIds), batch);
      ok := server.ForceUnlockWorkers(workerIds);
      if !ok { return; }
    }
    if left != {} {
      ghost var middle := server.jobs;
      var more;
      ok, more := RetryLeft(server, batch, left);
      FramedTwice(before, middle, server.jobs, Members(batch));
      if !ok { return; }
      completed := completed + more;
      ok := server.Read();
      if !ok { return; }
      residual := |Queued(server.jobs, batch)|;
    }
  }

  lemma LockersAfter(jobs: Queue, removed: set<nat>, batch: seq<nat>)
    requires removed <= Queued(jobs, batch)
    ensures Lockers(jobs - removed, Queued(jobs - removed, batch)) == Lockers(jobs, Queued(jobs, batch) - removed)
  {
    assert Queued(jobs - removed, batch) == Queued(jobs, batch) - removed;
    assert forall id :: id in jobs - removed ==> (jobs - removed)[id] == jobs[id];
  }

  // The second attempt, on what the first one passed over.
  method RetryLeft(server: Server, batch: seq<nat>, left: set<nat>) returns (ok: bool, more: nat)
    requires left == Queued(server.jobs, batch)
    modifies server`calls, server`jobs
    ensures Framed(old(server.jobs), server.jobs, Members(batch))
    ensures ok ==> more + |Queued(server.jobs, batch)| == |left|
    ensures server.NoFaults() ==> ok && Queued(server.jobs, batch) == {}
  {
    var ids := ListIds(left);
    ghost var jobs := server.jobs;
    ghost var removed := server.Completed(ids);
    assert forall id :: id in ids ==> id in Members(ids);
    QueuedAfter(jobs, batch, removed);
    FramedRemove(jobs, jobs, removed, Members(batch));
    ok, more := server.CompleteJobs(ids);
    if server.NoFaults() {
      assert forall id :: id in left ==> id in Members(ids);
      assert removed == left;
    }
  }

  lemma QueuedSame(a: Queue, b: Queue, batch: seq<nat>)
    requires a.Keys == b.Keys
    ensures Queued(a, batch) == Queued(b, batch)
  {
    assert forall id :: id in a <==> id in a.Keys;
    assert forall id :: id in b <==> id in b.Keys;
  }

  lemma QueuedAfter(jobs: Queue, batch: seq<nat>, removed: set<nat>)
    requires removed <= Queued(jobs, batch)
    ensures Queued(jobs - removed, batch) == Queued(jobs, batch) - removed
    ensures |Queued(jobs - removed, batch)| == |Queued(jobs, batch)| - |removed|
  {
    assert Queued(jobs - removed, batch) == Queued(jobs, batch) - removed;
  }

  lemma QueuedParts(jobs: Queue, ids: seq<nat>, index: nat, next: nat)
    requires NoRepeat(ids) && index <= next <= |ids|
    ensures |Queued(jobs, ids[..next])| == |Queued(jobs, ids[..index])| + |Queued(jobs, ids[index..next])|
  {
    var a, b := Queued(jobs, ids[..index]), Queued(jobs, ids[index..next]);
    assert ids[..next] == ids[..index] + ids[index..next];
    assert Queued(jobs, ids[..next]) == a + b;
    OtherPositions(ids, index, next);
    assert a !! b by {
      assert forall id :: id in b ==> id in Members(ids[index..next]);
    }
  }

  // All jobs the registry refers to for the target, batch by batch.
  method CleanupReferencedJobs(server: Server, target: Target, batchSize: nat)
    returns (ok: bool, completed: nat, references: nat, residual: nat, unlocked: nat)
    requires batchSize > 0
    modifies server`calls, server`jobs
    ensures Framed(old(server.jobs), server.jobs, References(server.tables, target))
    ensures ok ==> references == |References(server.tables, target)|
    ensures ok ==> completed + residual == |References(server.tables, target) * old(server.jobs).Keys|
    ensures ok ==> residual == |References(server.tables, target) * server.jobs.Keys|
    ensures ok ==> unlocked <= completed + residual
    ensures server.NoFaults() ==> ok && residual == 0
  {
    completed, references, residual, unlocked := 0, 0, 0, 0;
    ghost var before := server.jobs;
    ghost var scope := References(server.tables, target);
    ok := server.Read();
    if !ok { return; }
    var jobIds := ListIds(References(server.tables, target));
    references := |References(server.tables, target)|;
    var index := 0;
    while index < |jobIds|
      invariant 0 <= index <= |jobIds| && ok
      invariant Framed(before, server.jobs, scope)
      invariant completed + residual == |Queued(before, jobIds[..index])|
      invariant residual == |Queued(server.jobs, jobIds[..index])| && unlocked <= completed + residual
      invariant Queued(server.jobs, jobIds[index..]) == Queued(before, jobIds[index..])
      invariant server.NoFaults() ==> residual == 0
    {
      var next := if index + batchSize <= |jobIds| then index + batchSize else |jobIds|;
      ghost var jobs := server.jobs;
      var done, left, workers;
      ghost var first := server.Completed(jobIds[index..next]);
      ok, done, left, workers := CleanupGraphileBatch(server, jobIds[index..next]);
      BatchStep(before, jobs, server.jobs, jobIds, index, next);
      if !ok { return; }
      LockersAtMost(jobs, Queued(jobs, jobIds[index..next]) - first);
      FewerLeft(Queued(jobs, jobIds[index..next]), first);
      completed, residual, unlocked := completed + done, residual + left, unlocked + workers;
      index := next;
    }
    assert jobIds[..index] == jobIds;
    WholeList(before, jobIds, scope);
    WholeList(server.jobs, jobIds, scope);
  }

  lemma FewerLeft(all: set<nat>, some: set<nat>)
    ensures |all - some| <= |all|
  {
    assert all == (all - some) + (all * some);
    assert |all| == |all - some| + |all * some|;
  }

  // Each job is locked by one worker at most.
  lemma {:induction false} LockersAtMost(jobs: Queue, ids: set<nat>)
    ensures |Lockers(jobs, ids)| <= |ids|
    decreases |ids|
  {
    if ids == {} {
      assert Lockers(jobs, ids) == {};
    } else {
      var id :| id in ids;
      var rest := ids - {id};
      LockersAtMost(jobs, rest);
      if id in jobs && jobs[id].lockedBy.Some? {
        assert Lockers(jobs, ids) == Lockers(jobs, rest) + {jobs[id].lockedBy.value};
      } else {
        assert Lockers(jobs, ids) == Lockers(jobs, rest);
      }
    }
  }

  lemma WholeList(jobs: Queue, ids: seq<nat>, scope: set<nat>)
    requires Members(ids) == scope
    ensures Queued(jobs, ids) == scope * jobs.Keys
  {
    forall id ensures id in Queued(jobs, ids) <==> id in scope * jobs.Keys {
      assert id in Members(ids) <==> id in ids;
    }
  }

  // One batch changes the counts of that batch and of no other.
  lemma BatchStep(before: Queue, jobs: Queue, after: Queue, ids: seq<nat>, index: nat, next: nat)
    requires NoRepeat(ids) && index <= next <= |ids|
    requires Framed(before, jobs, Members(ids)) && Framed(jobs, after, Members(ids[index..next]))
    requires Queued(jobs, ids[index..]) == Queued(before, ids[index..])
    ensures Framed(before, after, Members(ids))
    ensures Queued(after, ids[..index]) == Queued(jobs, ids[..index])
    ensures Queued(jobs, ids[index..next]) == Queued(before, ids[index..next])
    ensures Queued(after, ids[next..]) == Queued(before, ids[next..])
    ensures |Queued(before, ids[..next])| == |Queued(before, ids[..index])| + |Queued(before, ids[index..next])|
    ensures |Queued(after, ids[..next])| == |Queued(after, ids[..index])| + |Queued(after, ids[index..next])|
  {
    QueuedParts(before, ids, index, next);
    QueuedParts(after, ids, index, next);
    assert forall id :: id in ids[index..next] ==> id in ids;
    FramedWider(jobs, after, Members(ids[index..next]), Members(ids));
    FramedTwice(before, jobs, after, Members(ids));
    OtherPositions(ids, index, next);
    SameOutside(jobs, after, Members(ids[index..next]), ids[..index]);
    SameOutside(jobs, after, Members(ids[index..next]), ids[next..]);
    PartOf(jobs, before, ids[index..], ids[index..next]);
    assert forall k :: 0 <= k < next - index ==> ids[index..next][k] == ids[index..][k];
    assert forall k :: 0 <= k < |ids| - next ==> ids[next..][k] == ids[index..][next - index + k];
    PartOf(jobs, before, ids[index..], ids[next..]);
  }

  lemma OtherPositions(ids: seq<nat>, index: nat, next: nat)
    requires NoRepeat(ids) && index <= next <= |ids|
    ensures forall id :: id in ids[..index] ==> id !in Members(ids[index..next])
    ensures forall id :: id in ids[next..] ==> id !in Members(ids[index..next])
    ensures forall id :: id in ids[index..next] ==> id in ids[index..]
    ensures forall id :: id in ids[next..] ==> id in ids[index..]
  {
    var mid := ids[index..next];
    assert forall k :: 0 <= k < |mid| ==> mid[k] == ids[index + k] == ids[index..][k];
    assert forall k :: 0 <= k < |ids[..index]| ==> ids[..index][k] == ids[k];
    assert forall k :: 0 <= k < |ids[next..]| ==> ids[next..][k] == ids[next + k] == ids[index..][next - index + k];
  }

  lemma SameOutside(a: Queue, b: Queue, scope: set<nat>, ids: seq<nat>)
    requires Framed(a, b, scope) && forall id :: id in ids ==> id !in scope
    ensures Queued(b, ids) == Queued(a, ids)
  {}

  lemma PartOf(a: Queue, b: Queue, whole: seq<nat>, part: seq<nat>)
    requires Queued(a, whole) == Queued(b, whole) && forall id :: id in part ==> id in whole
    ensures Queued(a, part) == Queued(b, part)
  {
    forall id | id in part ensures id in a <==> id in b {
      assert id in Queued(a, whole) <==> id in a;
      assert id in Queued(b, whole) <==> id in b;
    }
  }

  // The rows of a target, table by table.
  datatype Rows = Rows(actions: nat, effects: nat, deliveries: nat)

  function RowsOf(t: Tables, target: Target): Rows {
    Rows(|set id | id in t.actions && target(t.actions[id])|,
         |set id | id in t.effects && target(t.effects[id])|,
         |set id | id in t.deliveries && target(t.deliveries[id].tenant)|)
  }

  // The load cleanup's own transaction, which also counts what is left of the
  // target before it commits: six calls, of which COMMIT is the last.
  method DeleteLoadRows(server: Server, target: Target) returns (ok: bool, deleted: Rows, residual: nat)
    modifies server`calls, server`tables, server`working, server`inTransaction
    ensures Transacted(server, old(server.calls), 6, old(server.tables), target, ok)
    ensures ok ==> deleted == RowsOf(old(server.tables), target) && residual == 0 && !server.inTransaction
  {
    ghost var k, before := server.calls, server.tables;
    deleted := RowsOf(server.tables, target);
    ok, residual := LoadStatements(server, target);
    ghost var began := ok;
    if ok {
      ok := server.Commit();
    }
    Committed(server, k, 6, before, target, began, ok);
  }

  // Everything of that transaction before COMMIT.
  method LoadStatements(server: Server, target: Target) returns (ok: bool, residual: nat)
    modifies server`calls, server`working, server`inTransaction
    ensures ok <==> server.Clear(old(server.calls), old(server.calls) + 5)
    ensures ok ==> server.calls == old(server.calls) + 5 && server.inTransaction && residual == 0
    ensures ok ==> server.working == Without(server.tables, target)
  {
    residual := 0;
    ok := server.Begin();
    if !ok { return; }
    ok := DeleteRows(server, target);
    if !ok { return; }
    ok := server.Read();
    if !ok { return; }
    assert server.working == Without(server.tables, target);
    WithoutHasNoRows(server.working, target);
    residual := TargetRows(server.working, target);
  }

  // A fresh server that loses the reply of this COMMIT.
  method LostLoadCommitReply(tables: Tables, target: Target) returns (ok: bool, left: Tables)
    ensures !ok && left == Without(tables, target)
  {
    var server := new Server(map[], tables, OnlyCall(5), OnlyCall(5), NothingRefused());
    var deleted, residual;
    ok, deleted, residual := DeleteLoadRows(server, target);
    left := server.tables;
  }

  datatype LoadOutcome =
    | LoadReturned(jobs: nat, references: nat, residualJobs: nat, workersUnlocked: nat, deleted: Rows, residual: nat)
    | LoadThrown

  // What a normal return of the load cleanup promises.
  ghost predicate LoadCleaned(jobsBefore: Queue, before: Tables, jobs: Queue, tables: Tables, target: Target,
                              outcome: LoadOutcome)
    requires outcome.LoadReturned?
  {
    && tables == Without(before, target)
    && TargetRows(tables, target) == 0
    && References(before, target) * jobs.Keys == {}
    && outcome.jobs == |References(before, target) * jobsBefore.Keys|
    && outcome.references == |References(before, target)|
    && outcome.residualJobs == 0 && outcome.workersUnlocked <= outcome.jobs
    && outcome.deleted == RowsOf(before, target) && outcome.residual == 0
  }

  // What the cleanup of one load tenant leaves behind and reports. Whatever it
  // throws on, the transaction it may have opened is rolled back.
  method CleanupLoadData(server: Server, target: Target, batchSize: nat) returns (outcome: LoadOutcome)
    requires batchSize > 0
    modifies server`calls, server`jobs, server`tables, server`working, server`inTransaction
    ensures Framed(old(server.jobs), server.jobs, References(old(server.tables), target))
    ensures server.tables == old(server.tables) || server.tables == Without(old(server.tables), target)
    ensures outcome.LoadReturned? ==>
              LoadCleaned(old(server.jobs), old(server.tables), server.jobs, server.tables, target, outcome)
    ensures !old(server.inTransaction) ==> !server.inTransaction
    ensures server.NoFaults() ==> outcome.LoadReturned?
  {
    ghost var before, jobsBefore := server.tables, server.jobs;
    var ok, completed, references, residual, unlocked := CleanupReferencedJobs(server, target, batchSize);
    if !ok || residual != 0 {
      server.Rollback();
      return LoadThrown;
    }
    var deleted, rows;
    ok, deleted, rows := DeleteOrRollBack(server, target);
    if !ok { return LoadThrown; }
    outcome := LoadReturned(completed, references, residual, unlocked, deleted, rows);
    NothingReferenced(References(before, target), server.jobs);
    WithoutHasNoRows(server.tables, target);
  }

  lemma NothingReferenced(references: set<nat>, jobs: Queue)
    requires |references * jobs.Keys| == 0
    ensures references * jobs.Keys == {}
  {}

  // The transaction inside its try and catch.
  method DeleteOrRollBack(server: Server, target: Target) returns (ok: bool, deleted: Rows, residual: nat)
    modifies server`calls, server`tables, server`working, server`inTransaction
    ensures server.tables == old(server.tables) || server.tables == Without(old(server.tables), target)
    ensures ok ==> server.tables == Without(old(server.tables), target)
    ensures ok ==> deleted == RowsOf(old(server.tables), target) && residual == 0
    ensures !server.inTransaction
    ensures server.NoFaults() ==> ok
  {
    ok, deleted, residual := DeleteLoadRows(server, target);
    if !ok {
      server.Rollback();
    }
  }

  // --- what a normal return means, row by row and job by job ------------------------------

  // Exactly the rows of the target are gone, and every other is as it was.
  ghost predicate RowsCleaned(before: Tables, after: Tables, target: Target) {
    && (forall id :: id in after.actions <==> id in before.actions && !target(before.actions[id]))
    && (forall id :: id in after.effects <==> id in before.effects && !target(before.effects[id]))
    && (forall id :: id in after.deliveries <==> id in before.deliveries && !target(before.deliveries[id].tenant))
    && (forall id :: id in after.actions ==> after.actions[id] == before.actions[id])
    && (forall id :: id in after.effects ==> after.effects[id] == before.effects[id])
    && (forall id :: id in after.deliveries ==> after.deliveries[id] == before.deliveries[id])
  }

  // A delivery of the target refers to the job.
  ghost predicate Referred(before: Tables, target: Target, id: nat) {
    exists d :: d in before.deliveries && target(before.deliveries[d].tenant) && before.deliveries[d].jobId == Some(id)
  }

  lemma ReferencesAre(before: Tables, target: Target, id: nat)
    ensures id in References(before, target) <==> Referred(before, target, id)
  {
    if Referred(before, target, id) {
      var d :| d in before.deliveries && target(before.deliveries[d].tenant) && before.deliveries[d].jobId == Some(id);
      assert before.deliveries[d].jobId.value == id;
    }
  }

  lemma WithoutIs(before: Tables, target: Target)
    ensures RowsCleaned(before, Without(before, target), target)
  {}

  // What a normal return of the soak cleanup, as its contract states it, means:
  // exactly the jobs and the rows of the target are gone.
  lemma SoakCleanedMeans(jobsBefore: Queue, before: Tables, jobs: Queue, tables: Tables, target: Target)
    requires Framed(jobsBefore, jobs, TargetJobs(jobsBefore, target)) && TargetJobs(jobs, target) == {}
    requires tables == Without(before, target)
    ensures RowsCleaned(before, tables, target)
    ensures forall id :: id in jobs <==> id in jobsBefore && !target(jobsBefore[id].tenant)
  {
    WithoutIs(before, target);
    forall id | id in jobs ensures !target(jobs[id].tenant) {
      assert id !in TargetJobs(jobs, target);
    }
  }

  // And of the load cleanup: exactly the rows of the target and the jobs that
  // its deliveries referred to.
  lemma LoadCleanedMeans(jobsBefore: Queue, before: Tables, jobs: Queue, tables: Tables, target: Target,
                         outcome: LoadOutcome)
    requires outcome.LoadReturned? && LoadCleaned(jobsBefore, before, jobs, tables, target, outcome)
    requires Framed(jobsBefore, jobs, References(before, target))
    ensures RowsCleaned(before, tables, target)
    ensures forall id: nat :: id in jobs <==> id in jobsBefore && !Referred(before, target, id)
  {
    WithoutIs(before, target);
    forall id: nat ensures id in jobs <==> id in jobsBefore && !Referred(before, target, id) {
      ReferencesAre(before, target, id);
      assert id in References(before, target) * jobs.Keys <==> id in References(before, target) && id in jobs;
    }
  }

  // The workers counted as unlocked are those that hold a job in scope, and
  // exactly their jobs lose their lock.
  lemma LockersAre(jobs: Queue, ids: set<nat>, worker: string)
    ensures worker in Lockers(jobs, ids) <==> exists id :: id in ids && id in jobs && jobs[id].lockedBy == Some(worker)
    ensures forall id :: id in jobs ==>
              var after := UnlockedBy(jobs, {worker});
              && id in after && after[id].tenant == jobs[id].tenant
              && after[id].lockedBy == if jobs[id].lockedBy == Some(worker) then None else jobs[id].lockedBy
  {
    if id :| id in ids && id in jobs && jobs[id].lockedBy == Some(worker) {
      assert jobs[id].lockedBy.value == worker;
    }
  }
}
