// What the load gate decides, in terms of the events of a run alone: which
// attempts began, completed and failed, and which executed the counted node.
module LoadRuns {
  import opened LoadGate
  import opened Decimal
  import opened Sequences

  // How often an event occurred.
  function Times(events: seq<Event>, e: Event): nat {
    multiset(events)[e]
  }

  // The attempts a worker has finished.
  function Finished(events: seq<Event>, w: nat): nat {
    Times(events, Complete(w)) + Times(events, Fail(w))
  }

  // The event is the failure of an attempt that had executed the node.
  predicate IsLate(events: seq<Event>, e: Event) {
    e.Fail? && Execute(e.worker, Finished(events, e.worker)) in events
  }

  // The failed attempts that had executed the node before they failed.
  function LateFailures(events: seq<Event>): nat {
    if events == [] then 0
    else
      var n := |events| - 1;
      LateFailures(events[..n]) + if IsLate(events[..n], events[n]) then 1 else 0
  }

  // The state of the workers and the counters say what happened.
  ghost predicate Counted(prefix: string, s: State, events: seq<Event>) {
    && (forall e :: e in events ==> e.worker < |s.workers|)
    && (forall w :: 0 <= w < |s.workers| ==>
          && Started(s.workers[w]) == Times(events, Begin(w))
          && s.workers[w].finished == Finished(events, w)
          && (s.workers[w].Stopped? <==> Deadline(w) in events))
    && (forall w: nat, k: nat :: CountOf(s.tally.executions, RunId(prefix, w, k)) == Times(events, Execute(w, k)))
    && (s.tally.failures == 0 <==> forall w :: Fail(w) !in events)
    && s.tally.failedAfterSideEffect == LateFailures(events)
  }

  lemma {:induction false} CountAfterBump(executions: seq<Execution>, id: string, other: string)
    ensures CountOf(Bump(executions, id), other) == CountOf(executions, other) + if id == other then 1 else 0
  {
    if executions != [] && executions[0].runId != id {
      CountAfterBump(executions[1..], id, other);
    }
  }

  lemma OneMore(events: seq<Event>, e: Event, other: Event)
    ensures Times(events + [e], other) == Times(events, other) + if e == other then 1 else 0
    ensures other in events + [e] <==> other in events || e == other
  {}

  lemma LateFailuresNext(events: seq<Event>, e: Event)
    ensures LateFailures(events + [e]) == LateFailures(events) + if IsLate(events, e) then 1 else 0
  {
    assert (events + [e])[..|events|] == events;
  }

  lemma {:induction false} HasIffCounted(executions: seq<Execution>, id: string)
    requires DistinctIds(executions) && forall i :: 0 <= i < |executions| ==> executions[i].count > 0
    ensures Has(executions, id) <==> CountOf(executions, id) > 0
  {
    if i :| 0 <= i < |executions| && executions[i].runId == id {
      CountAt(executions, i);
    } else {
      CountAbsent(executions, id);
    }
  }

  lemma CountsStep(prefix: string, s: State, e: Event, events: seq<Event>)
    requires Counted(prefix, s, events) && Enabled(s, e)
    ensures forall w: nat, k: nat ::
              CountOf(Apply(prefix, s, e).tally.executions, RunId(prefix, w, k)) == Times(events + [e], Execute(w, k))
  {
    var t := Apply(prefix, s, e);
    forall w: nat, k: nat
      ensures CountOf(t.tally.executions, RunId(prefix, w, k)) == Times(events + [e], Execute(w, k))
    {
      OneMore(events, e, Execute(w, k));
      assert CountOf(s.tally.executions, RunId(prefix, w, k)) == Times(events, Execute(w, k));
      if e.Execute? {
        CountAfterBump(s.tally.executions, RunId(prefix, e.worker, e.sequence), RunId(prefix, w, k));
        if RunId(prefix, e.worker, e.sequence) == RunId(prefix, w, k) {
          RunIdInjective(prefix, e.worker, e.sequence, w, k);
        }
      }
    }
  }

  lemma WorkerStep(prefix: string, s: State, e: Event, events: seq<Event>, w: nat)
    requires Enabled(s, e) && w < |s.workers|
    requires Started(s.workers[w]) == Times(events, Begin(w)) && s.workers[w].finished == Finished(events, w)
    requires s.workers[w].Stopped? <==> Deadline(w) in events
    ensures var t := Apply(prefix, s, e);
            && |t.workers| == |s.workers|
            && Started(t.workers[w]) == Times(events + [e], Begin(w))
            && t.workers[w].finished == Finished(events + [e], w)
            && (t.workers[w].Stopped? <==> Deadline(w) in events + [e])
  {
    OneMore(events, e, Deadline(w));
    OneMore(events, e, Begin(w));
    OneMore(events, e, Complete(w));
    OneMore(events, e, Fail(w));
  }

  lemma WorkersStep(prefix: string, s: State, e: Event, events: seq<Event>)
    requires Counted(prefix, s, events) && Enabled(s, e)
    ensures var t := Apply(prefix, s, e);
            && |t.workers| == |s.workers|
            && (forall d :: d in events + [e] ==> d.worker < |t.workers|)
            && (forall w :: 0 <= w < |t.workers| ==>
                  && Started(t.workers[w]) == Times(events + [e], Begin(w))
                  && t.workers[w].finished == Finished(events + [e], w)
                  && (t.workers[w].Stopped? <==> Deadline(w) in events + [e]))
  {
    var t := Apply(prefix, s, e);
    forall w | 0 <= w < |s.workers|
      ensures Started(t.workers[w]) == Times(events + [e], Begin(w))
      ensures t.workers[w].finished == Finished(events + [e], w)
      ensures t.workers[w].Stopped? <==> Deadline(w) in events + [e]
    {
      WorkerStep(prefix, s, e, events, w);
    }
  }

  lemma FailuresStep(prefix: string, s: State, e: Event, events: seq<Event>)
    requires Counted(prefix, s, events) && Enabled(s, e)
    ensures Apply(prefix, s, e).tally.failures == 0 <==> forall w :: Fail(w) !in events + [e]
  {
    forall v {
      OneMore(events, e, Fail(v));
    }
    if e.Fail? {
      assert Fail(e.worker) in events + [e];
    }
  }

  // The map holds the run a worker is in exactly if the node was executed for it.
  lemma HasIffExecuted(prefix: string, s: State, events: seq<Event>, w: nat, k: nat)
    requires Inv(prefix, s) && Counted(prefix, s, events)
    ensures Has(s.tally.executions, RunId(prefix, w, k)) <==> Execute(w, k) in events
  {
    HasIffCounted(s.tally.executions, RunId(prefix, w, k));
    assert CountOf(s.tally.executions, RunId(prefix, w, k)) == Times(events, Execute(w, k));
  }

  lemma CountsLate(prefix: string, s: State, e: Event, late: bool)
    requires Enabled(s, e)
    requires late <==> e.Fail? && Has(s.tally.executions, RunId(prefix, e.worker, s.workers[e.worker].finished))
    ensures Apply(prefix, s, e).tally.failedAfterSideEffect
         == s.tally.failedAfterSideEffect + if late then 1 else 0
  {}

  lemma LateFailuresStep(prefix: string, s: State, e: Event, events: seq<Event>)
    requires Inv(prefix, s) && Counted(prefix, s, events) && Enabled(s, e)
    ensures Apply(prefix, s, e).tally.failedAfterSideEffect == LateFailures(events + [e])
  {
    LateFailuresNext(events, e);
    HasIffExecuted(prefix, s, events, e.worker, s.workers[e.worker].finished);
    CountsLate(prefix, s, e, IsLate(events, e));
  }

  lemma StepCounts(prefix: string, s: State, e: Event, events: seq<Event>)
    requires Inv(prefix, s) && Counted(prefix, s, events) && Enabled(s, e)
    ensures Counted(prefix, Apply(prefix, s, e), events + [e])
  {
    CountsStep(prefix, s, e, events);
    WorkersStep(prefix, s, e, events);
    FailuresStep(prefix, s, e, events);
    LateFailuresStep(prefix, s, e, events);
  }

  lemma {:induction false} RunCounts(prefix: string, s: State, history: seq<Event>, events: seq<Event>)
    requires Inv(prefix, s) && Counted(prefix, s, history) && Possible(prefix, s, events)
    ensures Counted(prefix, After(prefix, s, events), history + events)
    decreases |events|
  {
    if events == [] {
      assert history + events == history;
    } else {
      StepKeepsInv(prefix, s, events[0]);
      StepCounts(prefix, s, events[0], history);
      RunCounts(prefix, Apply(prefix, s, events[0]), history + [events[0]], events[1..]);
      MoveOne(history, events);
    }
  }

  // After any run the workers, the map of executions and the failure counters
  // say exactly what happened.
  lemma FromTheStart(prefix: string, concurrency: nat, events: seq<Event>)
    requires Possible(prefix, Initial(concurrency), events)
    ensures Counted(prefix, After(prefix, Initial(concurrency), events), events)
    ensures Inv(prefix, After(prefix, Initial(concurrency), events))
    ensures |After(prefix, Initial(concurrency), events).workers| == concurrency
  {
    InitialInv(prefix, concurrency);
    RunCounts(prefix, Initial(concurrency), [], events);
    RunKeepsInv(prefix, Initial(concurrency), events);
    assert [] + events == events;
  }

  // What can happen next, in terms of what happened: a worker between attempts
  // begins another or stops; one in an attempt completes or fails it; and the
  // node may execute for any attempt that ever began, however often it already
  // did and whatever became of the attempt.
  lemma NextIff(prefix: string, concurrency: nat, events: seq<Event>, e: Event)
    requires Possible(prefix, Initial(concurrency), events)
    ensures Possible(prefix, Initial(concurrency), events + [e]) <==>
              && e.worker < concurrency
              && var began, finished := Times(events, Begin(e.worker)), Finished(events, e.worker);
                 match e
                 case Begin(w) => began == finished && Deadline(w) !in events
                 case Execute(_, k) => k < began
                 case Complete(_) => began > finished
                 case Fail(_) => began > finished
                 case Deadline(w) => began == finished && Deadline(w) !in events
  {
    FromTheStart(prefix, concurrency, events);
    ExtendRun(prefix, Initial(concurrency), events, e);
  }

  lemma {:induction false} ExtendRun(prefix: string, s: State, events: seq<Event>, e: Event)
    requires Possible(prefix, s, events)
    ensures Possible(prefix, s, events + [e]) <==> Enabled(After(prefix, s, events), e)
    decreases |events|
  {
    if events == [] {
      assert events + [e] == [e] && [e][1..] == [];
      assert Enabled(s, e) ==> Possible(prefix, Apply(prefix, s, e), []);
    } else {
      ExtendRun(prefix, Apply(prefix, s, events[0]), events[1..], e);
      assert (events + [e])[1..] == events[1..] + [e];
    }
  }

  // No attempt failed, every attempt that began completed, and the node was
  // executed once for each of them and for nothing else.
  ghost predicate ExactlyOnce(concurrency: nat, events: seq<Event>) {
    && (forall w :: Fail(w) !in events)
    && (forall w :: 0 <= w < concurrency ==> Times(events, Complete(w)) == Times(events, Begin(w)))
    && (forall w: nat, k: nat :: Times(events, Execute(w, k)) == if k < Times(events, Begin(w)) then 1 else 0)
  }

  // For any number of workers, any interleaving and any runtime: once the
  // workers have stopped, the gate accepts exactly the runs that were exactly
  // once and whose measurements are within budget.
  lemma AcceptedIff(prefix: string, concurrency: nat, events: seq<Event>, m: Measured)
    requires Possible(prefix, Initial(concurrency), events)
    requires AllStopped(After(prefix, Initial(concurrency), events))
    ensures EvaluateArtifact(BuildArtifact(After(prefix, Initial(concurrency), events).tally, m))
       <==> ExactlyOnce(concurrency, events) && WithinBudget(m)
  {
    var s := After(prefix, Initial(concurrency), events);
    FromTheStart(prefix, concurrency, events);
    OnceMeans(prefix, s, concurrency, events);
    if EvaluateArtifact(BuildArtifact(s.tally, m)) {
      AcceptedMeansExactlyOnce(prefix, concurrency, events, m);
    }
    if ExactlyOnce(concurrency, events) {
      ExactlyOnceIsAccepted(prefix, concurrency, events, m);
    }
  }

  lemma OnceMeans(prefix: string, s: State, concurrency: nat, events: seq<Event>)
    requires Inv(prefix, s) && Counted(prefix, s, events) && AllStopped(s) && |s.workers| == concurrency
    ensures ExactlyOnce(concurrency, events) <==> s.tally.failures == 0 && EachOnce(prefix, s)
  {
    if s.tally.failures == 0 && EachOnce(prefix, s) {
      forall w: nat, k: nat ensures Times(events, Execute(w, k)) == if k < Times(events, Begin(w)) then 1 else 0 {
        ExecutedOnce(prefix, s, events, w, k);
      }
      forall w | 0 <= w < concurrency ensures Times(events, Complete(w)) == Times(events, Begin(w)) {
        assert s.workers[w].Stopped?;
        assert Times(events, Fail(w)) == 0;
      }
    }
    if ExactlyOnce(concurrency, events) {
      forall w, k | 0 <= w < |s.workers| && 0 <= k < Started(s.workers[w])
        ensures CountOf(s.tally.executions, RunId(prefix, w, k)) == 1
      {
        assert Times(events, Execute(w, k)) == 1;
      }
    }
  }

  lemma ExecutedOnce(prefix: string, s: State, events: seq<Event>, w: nat, k: nat)
    requires Inv(prefix, s) && Counted(prefix, s, events) && EachOnce(prefix, s)
    ensures Times(events, Execute(w, k)) == if k < Times(events, Begin(w)) then 1 else 0
  {
    var es := s.tally.executions;
    assert CountOf(es, RunId(prefix, w, k)) == Times(events, Execute(w, k));
    HasIffCounted(es, RunId(prefix, w, k));
    if w >= |s.workers| {
      assert Begin(w) !in events && Execute(w, k) !in events;
    } else if k >= Started(s.workers[w]) && Has(es, RunId(prefix, w, k)) {
      var i :| 0 <= i < |es| && es[i].runId == RunId(prefix, w, k);
      var v, j :| 0 <= v < |s.workers| && 0 <= j < Started(s.workers[v]) && es[i].runId == RunId(prefix, v, j);
      RunIdInjective(prefix, w, k, v, j);
    }
  }
}
