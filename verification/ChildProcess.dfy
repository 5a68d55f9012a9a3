// The supervisor of a soak-test child process: timers, signals, a bounded
// diagnostic buffer and a promise that must resolve once.
module ChildProcess {
  import opened Wrappers

  type Byte = b: nat | b < 256

  const DIAGNOSTIC_LIMIT: nat := 16384

  // --- the bounded buffer ------------------------------------------------------

  // Buffer.subarray(-limit), where -0 is 0 and so keeps everything.
  function LastBytes(s: seq<Byte>, limit: nat): seq<Byte> {
    if limit == 0 || |s| <= limit then s else s[|s| - limit..]
  }

  function AppendTail(current: seq<Byte>, chunk: seq<Byte>, limit: nat): seq<Byte> {
    LastBytes(current + chunk, limit)
  }

  function Received(chunks: seq<seq<Byte>>): seq<Byte> {
    if chunks == [] then [] else Received(chunks[..|chunks| - 1]) + chunks[|chunks| - 1]
  }

  function Buffered(chunks: seq<seq<Byte>>, limit: nat): seq<Byte> {
    if chunks == [] then []
    else AppendTail(Buffered(chunks[..|chunks| - 1], limit), chunks[|chunks| - 1], limit)
  }

  lemma TailOfTail(s: seq<Byte>, chunk: seq<Byte>, limit: nat)
    ensures LastBytes(LastBytes(s, limit) + chunk, limit) == LastBytes(s + chunk, limit)
  {
    if limit > 0 && |s| > limit {
      var cut := |s| - limit;
      assert s + chunk == s[..cut] + (s[cut..] + chunk);
      if |s[cut..] + chunk| > limit {
        assert (s + chunk)[|s + chunk| - limit..] == (s[cut..] + chunk)[|s[cut..] + chunk| - limit..];
      }
    }
  }

  lemma {:induction false} BufferedIsLast(chunks: seq<seq<Byte>>, limit: nat)
    ensures Buffered(chunks, limit) == LastBytes(Received(chunks), limit)
  {
    if chunks != [] {
      BufferedIsLast(chunks[..|chunks| - 1], limit);
      TailOfTail(Received(chunks[..|chunks| - 1]), chunks[|chunks| - 1], limit);
    }
  }

  // However the output is cut into chunks, the buffer is the end of all of it.
  lemma BufferedIsTail(chunks: seq<seq<Byte>>, limit: nat)
    ensures var all := Received(chunks);
            Buffered(chunks, limit) == if limit == 0 || |all| <= limit then all else all[|all| - limit..]
  {
    BufferedIsLast(chunks, limit);
  }

  // The buffer is bounded by its limit exactly when the limit is positive or
  // nothing was received.
  lemma BoundedIffLimited(chunks: seq<seq<Byte>>, limit: nat)
    ensures |Buffered(chunks, limit)| <= limit <==> limit > 0 || Received(chunks) == []
  {
    BufferedIsTail(chunks, limit);
  }

  // --- events ---------------------------------------------------------------------

  datatype Signal = Sigterm | Sigkill

  datatype Code = SpawnError | SignalCode(name: string) | ExitCode(code: Option<int>)

  datatype Result = Result(ok: bool, code: Code, timedOut: bool, stdout: seq<Byte>)

  datatype Event =
    | Data(chunk: seq<Byte>)
    | Timeout
    | KillTimeout
    | Error
    | Close(exit: Option<int>, signal: string)

  // A timer is armed until it fires or is cleared; listeners are once-only.
  datatype State = State(
    stdout: seq<Byte>,
    timedOut: bool,
    timeoutArmed: bool,
    killArmed: bool,
    errorSeen: bool,
    closeSeen: bool,
    signals: seq<Signal>,
    results: seq<Result>)

  const START := State([], false, true, false, false, false, [], [])

  predicate SettledIn(s: State) { s.results != [] }

  // Timers fire only while armed; error and close are delivered once each.
  predicate Enabled(s: State, e: Event) {
    match e
    case Data(_) => true
    case Timeout => s.timeoutArmed
    case KillTimeout => s.killArmed
    case Error => !s.errorSeen
    case Close(_, _) => !s.closeSeen
  }

  function Settle(s: State, ok: bool, code: Code): State {
    if SettledIn(s) then s
    else s.(timeoutArmed := false, killArmed := false, results := s.results + [Result(ok, code, s.timedOut, s.stdout)])
  }

  function CloseCode(exit: Option<int>, signal: string): Code {
    if signal != "" then SignalCode(signal) else ExitCode(exit)
  }

  function Handle(s: State, e: Event): State
    requires Enabled(s, e)
  {
    match e
    case Data(chunk) => s.(stdout := AppendTail(s.stdout, chunk, DIAGNOSTIC_LIMIT))
    case Timeout =>
      s.(timedOut := true, timeoutArmed := false, killArmed := true, signals := s.signals + [Sigterm])
    case KillTimeout => s.(killArmed := false, signals := s.signals + [Sigkill])
    case Error => Settle(s.(errorSeen := true), false, SpawnError)
    case Close(exit, signal) =>
      Settle(s.(closeSeen := true), !s.timedOut && exit == Some(0), CloseCode(exit, signal))
  }

  predicate Possible(events: seq<Event>)
    decreases |events|, 0
  {
    events == [] || (Possible(events[..|events| - 1]) && Enabled(After(events[..|events| - 1]), events[|events| - 1]))
  }

  function After(events: seq<Event>): State
    requires Possible(events)
    decreases |events|, 1
  {
    if events == [] then START else Handle(After(events[..|events| - 1]), events[|events| - 1])
  }

  // The variables captured by the callbacks of childProcess.
  class Supervisor {
    var stdout: seq<Byte>
    var timedOut: bool
    var settled: bool
    var timeoutArmed: bool
    var killArmed: bool
    var errorSeen: bool
    var closeSeen: bool
    var signals: seq<Signal>
    var results: seq<Result>

    ghost predicate Valid()
      reads this
    {
      settled <==> results != []
    }

    function Value(): State
      reads this
    {
      State(stdout, timedOut, timeoutArmed, killArmed, errorSeen, closeSeen, signals, results)
    }

    constructor ()
      ensures Valid() && Value() == START
    {
      stdout, timedOut, settled, timeoutArmed, killArmed := [], false, false, true, false;
      errorSeen, closeSeen, signals, results := false, false, [], [];
    }

    method OnData(chunk: seq<Byte>)
      requires Valid()
      modifies this
      ensures Valid() && Value() == Handle(old(Value()), Data(chunk))
    {
      stdout := AppendTail(stdout, chunk, DIAGNOSTIC_LIMIT);
    }

    method OnTimeout()
      requires Valid() && Enabled(Value(), Timeout)
      modifies this
      ensures Valid() && Value() == Handle(old(Value()), Timeout)
    {
      timedOut, timeoutArmed := true, false;
      signals := signals + [Sigterm];
      killArmed := true;
    }

    method OnKillTimeout()
      requires Valid() && Enabled(Value(), KillTimeout)
      modifies this
      ensures Valid() && Value() == Handle(old(Value()), KillTimeout)
    {
      killArmed := false;
      signals := signals + [Sigkill];
    }

    method SettleWith(ok: bool, code: Code)
      requires Valid()
      modifies this
      ensures Valid() && Value() == Settle(old(Value()), ok, code)
    {
      if settled {
        return;
      }
      settled := true;
      timeoutArmed, killArmed := false, false;
      results := results + [Result(ok, code, timedOut, stdout)];
    }

    method OnError()
      requires Valid() && Enabled(Value(), Error)
      modifies this
      ensures Valid() && Value() == Handle(old(Value()), Error)
    {
      errorSeen := true;
      SettleWith(false, SpawnError);
    }

    method OnClose(exit: Option<int>, signal: string)
      requires Valid() && Enabled(Value(), Close(exit, signal))
      modifies this
      ensures Valid() && Value() == Handle(old(Value()), Close(exit, signal))
    {
      closeSeen := true;
      SettleWith(!timedOut && exit == Some(0), CloseCode(exit, signal));
    }
  }

  // --- every order of events -----------------------------------------------------------

  predicate Settles(e: Event) { e.Error? || e.Close? }

  predicate Unsettled(events: seq<Event>) {
    forall i :: 0 <= i < |events| ==> !Settles(events[i])
  }

  function Chunks(events: seq<Event>): seq<seq<Byte>> {
    if events == [] then []
    else
      var rest := Chunks(events[..|events| - 1]);
      var e := events[|events| - 1];
      if e.Data? then rest + [e.chunk] else rest
  }

  predicate Inv(s: State) {
    && |s.results| <= 1
    && (s.results != [] ==> !s.timeoutArmed && !s.killArmed)
    && (s.timeoutArmed ==> !s.timedOut)
    && (s.killArmed ==> s.timedOut && s.signals == [Sigterm])
    && (if s.timedOut then s.signals == [Sigterm] || s.signals == [Sigterm, Sigkill] else s.signals == [])
  }

  lemma StepKeepsInv(s: State, e: Event)
    requires Inv(s) && Enabled(s, e)
    ensures Inv(Handle(s, e))
  {}

  // The state after any events: the invariant, and what the flags, the timers,
  // the signals and the buffer say about the past. SIGTERM was sent exactly if
  // the timeout fired, and SIGKILL exactly if the kill timer did.
  lemma {:induction false} AllOrders(events: seq<Event>)
    requires Possible(events)
    ensures Inv(After(events))
    ensures After(events).timedOut <==> Timeout in events
    ensures After(events).results == [] <==> Unsettled(events)
    ensures After(events).timeoutArmed <==> Timeout !in events && Unsettled(events)
    ensures After(events).killArmed <==> Timeout in events && KillTimeout !in events && Unsettled(events)
    ensures After(events).signals == (if Timeout in events then [Sigterm] else [])
                                     + (if KillTimeout in events then [Sigkill] else [])
    ensures After(events).stdout == Buffered(Chunks(events), DIAGNOSTIC_LIMIT)
  {
    if events != [] {
      var n := |events| - 1;
      AllOrders(events[..n]);
      StepKeepsInv(After(events[..n]), events[n]);
      LastEvent(events);
      Buffering(events);
    }
  }

  lemma LastEvent(events: seq<Event>)
    requires events != []
    ensures Timeout in events <==> Timeout in events[..|events| - 1] || events[|events| - 1] == Timeout
    ensures KillTimeout in events <==> KillTimeout in events[..|events| - 1] || events[|events| - 1] == KillTimeout
    ensures Unsettled(events) <==> Unsettled(events[..|events| - 1]) && !Settles(events[|events| - 1])
  {
    assert events == events[..|events| - 1] + [events[|events| - 1]];
    assert forall i :: 0 <= i < |events| - 1 ==> events[..|events| - 1][i] == events[i];
  }

  lemma Buffering(events: seq<Event>)
    requires events != []
    ensures var before := Buffered(Chunks(events[..|events| - 1]), DIAGNOSTIC_LIMIT);
            var e := events[|events| - 1];
            Buffered(Chunks(events), DIAGNOSTIC_LIMIT)
              == if e.Data? then AppendTail(before, e.chunk, DIAGNOSTIC_LIMIT) else before
  {
    var chunks := Chunks(events);
    if events[|events| - 1].Data? {
      assert chunks[..|chunks| - 1] == Chunks(events[..|events| - 1]);
    }
  }

  lemma {:induction false} PrefixPossible(events: seq<Event>, k: nat)
    requires Possible(events) && k <= |events|
    ensures Possible(events[..k])
  {
    if k == |events| {
      assert events[..k] == events;
    } else {
      PrefixPossible(events[..|events| - 1], k);
      assert events[..|events| - 1][..k] == events[..k];
    }
  }

  // The result is fixed by the first event that settles, and does not change.
  lemma {:induction false} ResultAtFirst(events: seq<Event>, k: nat)
    requires Possible(events) && k < |events|
    requires Settles(events[k]) && forall i :: 0 <= i < k ==> !Settles(events[i])
    ensures Possible(events[..k])
    ensures After(events).results ==
              var s := After(events[..k]);
              [match events[k]
               case Close(exit, signal) =>
                 Result(!s.timedOut && exit == Some(0), CloseCode(exit, signal), s.timedOut, s.stdout)
               case _ => Result(false, SpawnError, s.timedOut, s.stdout)]
  {
    PrefixPossible(events, k);
    var n := |events| - 1;
    if k == n {
      AllOrders(events[..k]);
      assert forall i :: 0 <= i < k ==> events[..k][i] == events[i];
      SettlesFresh(After(events[..k]), events[k]);
    } else {
      assert events[..n][..k] == events[..k];
      ResultAtFirst(events[..n], k);
      KeepsResults(After(events[..n]), events[n]);
    }
  }

  lemma SettlesFresh(s: State, e: Event)
    requires s.results == [] && Enabled(s, e) && Settles(e)
    ensures Handle(s, e).results ==
              [match e
               case Close(exit, signal) =>
                 Result(!s.timedOut && exit == Some(0), CloseCode(exit, signal), s.timedOut, s.stdout)
               case _ => Result(false, SpawnError, s.timedOut, s.stdout)]
  {}

  lemma KeepsResults(s: State, e: Event)
    requires SettledIn(s) && Enabled(s, e)
    ensures Handle(s, e).results == s.results
  {}

  predicate FirstSettling(events: seq<Event>, k: int) {
    0 <= k < |events| && Settles(events[k]) && forall i :: 0 <= i < k ==> !Settles(events[i])
  }

  // The signal that ended the process, or else its exit code.
  function CodeOf(e: Event): Code {
    match e
    case Close(exit, signal) => if |signal| > 0 then SignalCode(signal) else ExitCode(exit)
    case _ => SpawnError
  }

  // What a promise resolved with, if its first settling event is the k-th.
  ghost predicate ResolvedBy(events: seq<Event>, k: nat, r: Result)
    requires k < |events|
  {
    var all := Received(Chunks(events[..k]));
    && (r.ok <==> events[k].Close? && events[k].exit == Some(0) && Timeout !in events[..k])
    && (r.timedOut <==> Timeout in events[..k])
    && r.code == CodeOf(events[k])
    && r.stdout == if |all| <= DIAGNOSTIC_LIMIT then all else all[|all| - DIAGNOSTIC_LIMIT..]
  }

  // In every order of events the promise resolves at most once; it resolves ok
  // exactly when the first settling event is a close with code 0 before the
  // timeout fired; and what it captured is exactly the last bytes of the output
  // received until then.
  lemma ResolvesOnce(events: seq<Event>)
    requires Possible(events)
    ensures |After(events).results| <= 1
    ensures After(events).results == [] <==> Unsettled(events)
    ensures forall k :: FirstSettling(events, k) ==>
              |After(events).results| == 1 && ResolvedBy(events, k, After(events).results[0])
  {
    AllOrders(events);
    forall k | FirstSettling(events, k)
      ensures |After(events).results| == 1 && ResolvedBy(events, k, After(events).results[0])
    {
      ResolvedAt(events, k);
    }
  }

  lemma ResolvedAt(events: seq<Event>, k: nat)
    requires Possible(events) && FirstSettling(events, k)
    ensures |After(events).results| == 1 && ResolvedBy(events, k, After(events).results[0])
  {
    ResultAtFirst(events, k);
    AllOrders(events[..k]);
    BufferedIsTail(Chunks(events[..k]), DIAGNOSTIC_LIMIT);
  }

  // In no order of events does the buffer, or what a result captured of it,
  // exceed the limit.
  lemma NeverOverLimit(events: seq<Event>)
    requires Possible(events)
    ensures |After(events).stdout| <= DIAGNOSTIC_LIMIT
    ensures forall r :: r in After(events).results ==> |r.stdout| <= DIAGNOSTIC_LIMIT
  {
    AllOrders(events);
    BoundedIffLimited(Chunks(events), DIAGNOSTIC_LIMIT);
    if !Unsettled(events) {
      var k :| 0 <= k < |events| && Settles(events[k]);
      var first := FirstOf(events, k);
      ResolvedAt(events, first);
      ShortResult(events, first, After(events).results[0]);
    }
  }

  lemma ShortResult(events: seq<Event>, k: nat, r: Result)
    requires k < |events| && ResolvedBy(events, k, r)
    ensures |r.stdout| <= DIAGNOSTIC_LIMIT
  {}

  lemma {:induction false} FirstOf(events: seq<Event>, k: nat) returns (first: nat)
    requires k < |events| && Settles(events[k])
    ensures FirstSettling(events, first)
    decreases k
  {
    if i :| 0 <= i < k && Settles(events[i]) {
      first := FirstOf(events, i);
    } else {
      first := k;
    }
  }

  lemma StaysSettled(s: State, e: Event)
    requires Inv(s) && Enabled(s, e) && SettledIn(s)
    ensures SettledIn(Handle(s, e)) && Handle(s, e).signals == s.signals
  {}

  // No signal is sent after settling.
  lemma {:induction false} SignalsStop(events: seq<Event>, k: nat)
    requires Possible(events) && k <= |events|
    ensures Possible(events[..k])
    ensures SettledIn(After(events[..k])) ==>
              SettledIn(After(events)) && After(events).signals == After(events[..k]).signals
  {
    PrefixPossible(events, k);
    if k == |events| {
      assert events[..k] == events;
    } else {
      var n := |events| - 1;
      AllOrders(events[..n]);
      SignalsStop(events[..n], k);
      assert events[..n][..k] == events[..k];
      if SettledIn(After(events[..k])) {
        StaysSettled(After(events[..n]), events[n]);
      }
    }
  }

  // SIGKILL only ever follows SIGTERM.
  lemma KillAfterTerm(events: seq<Event>)
    requires Possible(events)
    ensures After(events).signals <= [Sigterm, Sigkill]
  {
    AllOrders(events);
  }

  // What can happen next, in terms of what happened: a timer fires once, the
  // kill timer only after the other, and neither after settling; an error and a
  // close come once each; output may come at any time.
  lemma NextIff(events: seq<Event>, e: Event)
    requires Possible(events)
    ensures Possible(events + [e]) <==>
              match e
              case Data(_) => true
              case Timeout => Timeout !in events && Unsettled(events)
              case KillTimeout => Timeout in events && KillTimeout !in events && Unsettled(events)
              case Error => Error !in events
              case Close(_, _) => forall d :: d in events ==> !d.Close?
  {
    assert (events + [e])[..|events|] == events;
    AllOrders(events);
    SeenOnce(events);
  }

  lemma {:induction false} SeenOnce(events: seq<Event>)
    requires Possible(events)
    ensures After(events).errorSeen <==> Error in events
    ensures After(events).closeSeen <==> exists d :: d in events && d.Close?
  {
    if events != [] {
      var n := |events| - 1;
      SeenOnce(events[..n]);
      assert events == events[..n] + [events[n]];
    }
  }
}
