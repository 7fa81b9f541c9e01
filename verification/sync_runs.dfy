/** How overlapping sync requests are folded into runs. The code between two awaits is one step: a request
    arriving, the awaited execution finishing, the awaited execution throwing. */
module SyncRuns {

  datatype Entry = Requested | Cleared | Started | Threw

  /** `log` lists what happened, oldest first; the flags are the service's two fields. */
  datatype Runs = Runs(isSyncRunning: bool, queuedRunRequested: bool, inFlight: nat, log: seq<Entry>)

  datatype Event = Request | Finish | Throw

  const IDLE: Runs := Runs(false, false, 0, [])

  function Step(s: Runs, e: Event): Runs {
    match e
    case Request =>
      if s.isSyncRunning then s.(queuedRunRequested := true, log := s.log + [Requested])
      else s.(isSyncRunning := true, inFlight := s.inFlight + 1, log := s.log + [Requested, Started])
    case Finish =>
      if s.inFlight == 0 then s
      else if s.queuedRunRequested then s.(queuedRunRequested := false, log := s.log + [Cleared, Started])
      else s.(isSyncRunning := false, inFlight := s.inFlight - 1)
    case Throw =>
      if s.inFlight == 0 then s
      else s.(isSyncRunning := false, inFlight := s.inFlight - 1, log := s.log + [Threw])
  }

  function Run(events: seq<Event>): Runs {
    if events == [] then IDLE else Step(Run(events[..|events| - 1]), events[|events| - 1])
  }

  function Count(log: seq<Entry>, entry: Entry): nat {
    if log == [] then 0 else Count(log[..|log| - 1], entry) + (if log[|log| - 1] == entry then 1 else 0)
  }

  /** A request after which no execution has started. */
  ghost predicate Unserved(log: seq<Entry>, i: int) {
    0 <= i < |log| && log[i] == Requested && forall j :: i < j < |log| ==> log[j] != Started
  }

  ghost predicate SomeUnserved(log: seq<Entry>) { exists i :: Unserved(log, i) }

  ghost predicate ClearedOnlyToStart(log: seq<Entry>) {
    forall i :: 0 <= i < |log| && log[i] == Cleared ==> i + 1 < |log| && log[i + 1] == Started
  }

  ghost predicate Inv(s: Runs) {
    && s.inFlight == (if s.isSyncRunning then 1 else 0)
    && ClearedOnlyToStart(s.log)
    && Count(s.log, Started) + (if s.queuedRunRequested then 1 else 0) <= Count(s.log, Requested)
    && (SomeUnserved(s.log) ==> s.queuedRunRequested)
    && (Threw !in s.log ==> (s.queuedRunRequested <==> SomeUnserved(s.log) && s.isSyncRunning))
  }

  lemma CountLast(log: seq<Entry>, e: Entry, entry: Entry)
    ensures Count(log + [e], entry) == Count(log, entry) + (if e == entry then 1 else 0)
  {
    assert (log + [e])[..|log|] == log;
  }

  lemma CountLastTwo(log: seq<Entry>, d: Entry, e: Entry, entry: Entry)
    ensures Count(log + [d, e], entry) ==
      Count(log, entry) + (if d == entry then 1 else 0) + (if e == entry then 1 else 0)
  {
    assert log + [d, e] == (log + [d]) + [e];
    CountLast(log, d, entry);
    CountLast(log + [d], e, entry);
  }

  lemma StartServesAll(log: seq<Entry>, d: Entry)
    requires d != Started
    ensures !SomeUnserved(log + [d, Started])
  {
    var now := log + [d, Started];
    assert now[|now| - 1] == Started;
  }

  lemma OtherLeavesUnserved(log: seq<Entry>, e: Entry)
    requires e != Started
    ensures SomeUnserved(log + [e]) <==> SomeUnserved(log) || e == Requested
  {
    var now := log + [e];
    if e == Requested { assert Unserved(now, |log|); }
    if SomeUnserved(log) {
      var i :| Unserved(log, i);
      assert Unserved(now, i);
    }
    if SomeUnserved(now) {
      var i :| Unserved(now, i);
      if i < |log| {
        forall j | i < j < |log| ensures log[j] != Started { assert now[j] == log[j]; }
        assert Unserved(log, i);
      }
    }
  }

  lemma StartingKeepsInv(s: Runs, d: Entry, t: Runs)
    requires Inv(s) && t == Runs(true, t.queuedRunRequested, 1, s.log + [d, Started])
    requires if s.isSyncRunning then d == Cleared && s.queuedRunRequested && !t.queuedRunRequested
             else d == Requested && t.queuedRunRequested == s.queuedRunRequested
    ensures Inv(t)
  {
    CountLastTwo(s.log, d, Started, Started);
    CountLastTwo(s.log, d, Started, Requested);
    StartServesAll(s.log, d);
  }

  lemma LoggingKeepsInv(s: Runs, e: Entry, t: Runs)
    requires Inv(s) && s.isSyncRunning && (e == Requested || e == Threw)
    requires t == if e == Requested
      then Runs(true, true, 1, s.log + [e]) else Runs(false, s.queuedRunRequested, 0, s.log + [e])
    ensures Inv(t)
  {
    CountLast(s.log, e, Started);
    CountLast(s.log, e, Requested);
    OtherLeavesUnserved(s.log, e);
    assert e in t.log;
    forall i | 0 <= i < |t.log| && t.log[i] == Cleared ensures i + 1 < |t.log| && t.log[i + 1] == Started {
      assert s.log[i] == Cleared;
    }
  }

  lemma StepKeepsInv(s: Runs, e: Event)
    requires Inv(s)
    ensures Inv(Step(s, e))
  {
    var t := Step(s, e);
    match e
    case Request =>
      if s.isSyncRunning { LoggingKeepsInv(s, Requested, t); } else { StartingKeepsInv(s, Requested, t); }
    case Finish =>
      if s.inFlight > 0 && s.queuedRunRequested { StartingKeepsInv(s, Cleared, t); }
    case Throw =>
      if s.inFlight > 0 { LoggingKeepsInv(s, Threw, t); }
  }

  lemma {:induction false} RunKeepsInv(events: seq<Event>)
    ensures Inv(Run(events))
  {
    if events != [] {
      RunKeepsInv(events[..|events| - 1]);
      StepKeepsInv(Run(events[..|events| - 1]), events[|events| - 1]);
    }
  }

  /** In every interleaving: one execution at a time, never more executions than requests, and the queue
      flag is cleared only right before an execution starts. */
  lemma RunsCoalesce(events: seq<Event>)
    ensures Run(events).inFlight <= 1
    ensures Count(Run(events).log, Started) <= Count(Run(events).log, Requested)
    ensures ClearedOnlyToStart(Run(events).log)
  {
    RunKeepsInv(events);
  }

  /** A waiting request always has the queue flag set; without a throw the flag means just that. */
  lemma WaitingIsQueued(events: seq<Event>)
    ensures SomeUnserved(Run(events).log) ==> Run(events).queuedRunRequested
    ensures Throw !in events ==> (SomeUnserved(Run(events).log) <==> Run(events).queuedRunRequested)
  {
    RunKeepsInv(events);
    if Throw !in events { NoThrowLogged(events); }
  }

  /** When an execution ends normally nobody is left waiting. */
  lemma NormalEndServesAll(events: seq<Event>)
    requires Run(events).isSyncRunning
    ensures !SomeUnserved(Run(events + [Finish]).log)
  {
    RunKeepsInv(events);
    RunLast(events, Finish);
    if Run(events).queuedRunRequested { StartServesAll(Run(events).log, Cleared); }
  }

  // ----- who is lost when an execution throws -----

  /** No execution ends in between. */
  predicate Quiet(events: seq<Event>) { Finish !in events && Throw !in events }

  /** The i-th event began an execution. */
  ghost predicate StartsAt(events: seq<Event>, i: int) {
    && 1 <= i <= |events|
    && |Run(events[..i]).log| > |Run(events[..i - 1]).log|
    && Run(events[..i]).log[|Run(events[..i]).log| - 1] == Started
  }

  lemma {:induction false} QuietWindow(events: seq<Event>, window: seq<Event>)
    requires Run(events).isSyncRunning && !SomeUnserved(Run(events).log) && Quiet(window)
    ensures Run(events + window).isSyncRunning
    ensures SomeUnserved(Run(events + window).log) <==> Request in window
  {
    if window == [] {
      assert events + window == events;
    } else {
      var before, last := window[..|window| - 1], window[|window| - 1];
      assert window == before + [last] && events + window == (events + before) + [last];
      assert last == Request;
      QuietWindow(events, before);
      RunKeepsInv(events + before);
      RunLast(events + before, last);
      OtherLeavesUnserved(Run(events + before).log, Requested);
    }
  }

  /** An execution that throws leaves requests waiting exactly when one arrived while it ran. */
  lemma ThrowLosesWhatArrived(events: seq<Event>, window: seq<Event>)
    requires Run(events).isSyncRunning && !SomeUnserved(Run(events).log) && Quiet(window)
    ensures !Run(events + window + [Throw]).isSyncRunning
    ensures SomeUnserved(Run(events + window + [Throw]).log) <==> Request in window
  {
    QuietWindow(events, window);
    RunKeepsInv(events + window);
    RunLast(events + window, Throw);
    OtherLeavesUnserved(Run(events + window).log, Threw);
  }

  /** When an execution has just begun, it runs and nobody waits. */
  lemma StartMeansRunning(events: seq<Event>, i: int)
    requires StartsAt(events, i)
    ensures Run(events[..i]).isSyncRunning && !SomeUnserved(Run(events[..i]).log)
  {
    var before := events[..i - 1];
    assert events[..i] == before + [events[i - 1]];
    RunLast(before, events[i - 1]);
    RunKeepsInv(before);
    var log := Run(events[..i]).log;
    assert log[|log| - 1] == Started;
  }

  /** Some execution threw after a request had arrived while it ran, and no request came later. */
  ghost predicate LostByThrow(events: seq<Event>) {
    exists i, j :: LostBetween(events, i, j)
  }

  ghost predicate LostBetween(events: seq<Event>, i: int, j: int) {
    && StartsAt(events, i) && i <= j < |events| && events[j] == Throw
    && Quiet(events[i..j]) && Request in events[i..j] && Request !in events[j..]
  }

  /** An idle service stays idle until the next request. */
  lemma {:induction false} IdleUntilRequest(events: seq<Event>, more: seq<Event>)
    requires !Run(events).isSyncRunning && Request !in more
    ensures Run(events + more) == Run(events)
  {
    if more == [] {
      assert events + more == events;
    } else {
      var before, last := more[..|more| - 1], more[|more| - 1];
      assert more == before + [last] && events + more == (events + before) + [last];
      IdleUntilRequest(events, before);
      RunKeepsInv(events);
      RunLast(events + before, last);
    }
  }

  lemma LostStaysLost(events: seq<Event>, i: int, j: int)
    requires LostBetween(events, i, j)
    ensures !Run(events).isSyncRunning && SomeUnserved(Run(events).log)
  {
    StartMeansRunning(events, i);
    assert events[..i] + events[i..j] + [Throw] == events[..j + 1];
    ThrowLosesWhatArrived(events[..i], events[i..j]);
    assert events[..j + 1] + events[j + 1..] == events;
    assert events[j..] == [events[j]] + events[j + 1..];
    IdleUntilRequest(events[..j + 1], events[j + 1..]);
  }

  /** Since the i-th event one execution has been running. */
  ghost predicate RunningSince(events: seq<Event>, i: int) { StartsAt(events, i) && Quiet(events[i..]) }

  lemma StartsAtLater(events: seq<Event>, e: Event, i: int)
    requires 1 <= i <= |events|
    ensures StartsAt(events + [e], i) <==> StartsAt(events, i)
  {
    assert (events + [e])[..i] == events[..i] && (events + [e])[..i - 1] == events[..i - 1];
  }

  lemma JustStarted(events: seq<Event>, e: Event)
    requires |Run(events + [e]).log| > |Run(events).log|
    requires Run(events + [e]).log[|Run(events + [e]).log| - 1] == Started
    ensures RunningSince(events + [e], |events| + 1)
  {
    var now := events + [e];
    assert now[..|now|] == now && now[..|now| - 1] == events && now[|now|..] == [];
  }

  lemma {:induction false} SomeStart(events: seq<Event>) returns (i: int)
    requires Run(events).isSyncRunning
    ensures RunningSince(events, i)
  {
    var before, e := events[..|events| - 1], events[|events| - 1];
    assert events == before + [e];
    RunLast(before, e);
    RunKeepsInv(before);
    if Run(before).isSyncRunning && e == Request {
      i := SomeStart(before);
      StartsAtLater(before, e, i);
      assert events[i..] == before[i..] + [e];
    } else {
      i := |events|;
      JustStarted(before, e);
    }
  }

  lemma LostEarlier(events: seq<Event>, e: Event, i: int, j: int)
    requires e != Request && LostBetween(events, i, j)
    ensures LostBetween(events + [e], i, j)
  {
    var now := events + [e];
    StartsAtLater(events, e, i);
    assert now[i..j] == events[i..j] && now[j..] == events[j..] + [e];
  }

  /** For every run that ends idle: a request is left waiting exactly when it arrived during an execution that
      threw, and none has come since. */
  lemma {:induction false} IdleLosesIff(events: seq<Event>)
    requires !Run(events).isSyncRunning
    ensures SomeUnserved(Run(events).log) <==> LostByThrow(events)
  {
    if LostByThrow(events) {
      var i, j :| LostBetween(events, i, j);
      LostStaysLost(events, i, j);
    }
    if events != [] && SomeUnserved(Run(events).log) {
      var before, e := events[..|events| - 1], events[|events| - 1];
      assert events == before + [e];
      RunLast(before, e);
      RunKeepsInv(before);
      if !Run(before).isSyncRunning {
        IdleLosesIff(before);
        var i, j :| LostBetween(before, i, j);
        LostEarlier(before, e, i, j);
      } else if e == Finish {
        NormalEndServesAll(before);
      } else {
        LostNow(before);
      }
    }
  }

  lemma LostNow(before: seq<Event>)
    requires Run(before).isSyncRunning && SomeUnserved(Run(before + [Throw]).log)
    ensures LostByThrow(before + [Throw])
  {
    var i := SomeStart(before);
    var now, n := before + [Throw], |before|;
    StartMeansRunning(before, i);
    ThrowLosesWhatArrived(before[..i], before[i..]);
    assert before[..i] + before[i..] == before;
    StartsAtLater(before, Throw, i);
    assert now[i..n] == before[i..] && now[n..] == [Throw];
    assert LostBetween(now, i, n);
  }

  /** Without a throw, once the service is idle every request has been followed by an execution. */
  lemma NoRequestLost(events: seq<Event>)
    requires Throw !in events && !Run(events).isSyncRunning
    ensures !SomeUnserved(Run(events).log)
  {
    RunKeepsInv(events);
    NoThrowLogged(events);
  }

  lemma {:induction false} NoThrowLogged(events: seq<Event>)
    requires Throw !in events
    ensures Threw !in Run(events).log
  {
    if events != [] {
      NoThrowLogged(events[..|events| - 1]);
    }
  }

  /** With a throw one can be lost: the second request waits although nothing runs. */
  lemma ThrowLosesRequest()
    ensures var s := Run([Request, Request, Throw]); !s.isSyncRunning && SomeUnserved(s.log)
  {
    RunLast([], Request);
    RunLast([Request], Request);
    RunLast([Request, Request], Throw);
    assert [] + [Request] == [Request];
    assert [Request] + [Request] == [Request, Request];
    assert [Request, Request] + [Throw] == [Request, Request, Throw];
    assert Unserved(Run([Request, Request, Throw]).log, 2);
  }

  lemma RunLast(events: seq<Event>, e: Event)
    ensures Run(events + [e]) == Step(Run(events), e)
  {
    assert (events + [e])[..|events|] == events;
  }

  /** The fields of the service; `log` is the history they leave. */
  class StartupSyncRuns {
    var isSyncRunning: bool
    var queuedRunRequested: bool
    ghost var inFlight: nat
    ghost var log: seq<Entry>

    ghost function State(): Runs
      reads this
    {
      Runs(isSyncRunning, queuedRunRequested, inFlight, log)
    }

    constructor ()
      ensures State() == IDLE
    {
      isSyncRunning, queuedRunRequested, inFlight, log := false, false, 0, [];
    }

    /** `run_sync`, up to its first await. The caller awaits an execution when `started`. */
    method RunSync() returns (started: bool)
      modifies this
      ensures State() == Step(old(State()), Request)
      ensures started <==> |log| > |old(log)| && log[|log| - 1] == Started
    {
      log := log + [Requested];
      if isSyncRunning {
        queuedRunRequested := true;
        return false;
      }
      isSyncRunning := true;
      BeginExecution();
      return true;
    }

    /** The awaited execution returned: the loop condition, and either the next execution or the end. */
    method ExecutionFinished() returns (started: bool)
      requires inFlight > 0
      modifies this
      ensures State() == Step(old(State()), Finish)
      ensures started <==> old(queuedRunRequested)
    {
      inFlight := inFlight - 1;
      if queuedRunRequested {
        queuedRunRequested := false;
        log := log + [Cleared];
        BeginExecution();
        return true;
      }
      isSyncRunning := false;
      return false;
    }

    /** The awaited execution threw: the loop is left, the queue flag is not touched. */
    method ExecutionThrew()
      requires inFlight > 0
      modifies this
      ensures State() == Step(old(State()), Throw)
    {
      inFlight := inFlight - 1;
      log := log + [Threw];
      isSyncRunning := false;
    }

    ghost method BeginExecution()
      modifies this`inFlight, this`log
      ensures inFlight == old(inFlight) + 1 && log == old(log) + [Started]
    {
      inFlight := inFlight + 1;
      log := log + [Started];
    }
  }
}
