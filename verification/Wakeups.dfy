/** Signals sent and consumed when one application thread runs and is suspended promptly, and what goes wrong
    otherwise. */
module Wakeups {
  import opened Words
  import opened Types
  import opened Resolve
  import opened Instrument
  import opened Tables
  import opened Protocol
  import opened ProtocolSafety

  /** A thread that has signalled since the last resume starts no further clean call. */
  predicate Prompt(s: State, l: Label) {
    l.ThreadNext? && l.act.Call? ==> s.history.sentInEpoch == 0
  }

  predicate IsPromptRun(s: State, run: seq<Label>)
    decreases |run|
  {
    run == [] || (Enabled(s, run[0]) && Prompt(s, run[0]) && IsPromptRun(Step(s, run[0]), run[1..]))
  }

  lemma {:induction false} PromptRunIsRun(s: State, run: seq<Label>)
    requires IsPromptRun(s, run)
    ensures IsRun(s, run)
    decreases |run|
  {
    if run != [] { PromptRunIsRun(Step(s, run[0]), run[1..]); }
  }

  /** The thread is inside a clean call and may still signal. */
  predicate MaySignal(th: Thread) {
    ((th.Blocked? || th.Owning?) && th.job.Count?) || (th.Stopping? && th.stage != Sleep)
  }

  /** The server has seen the signal of this resume. */
  predicate Woken(s: State) {
    s.server.ExecSetParams? || s.server.ExecSuspend? || s.server.ExecCheck? || s.server.Returned?
  }

  predicate AwaitsSignal(s: State) {
    s.server.ExecClearParams? || s.server.ExecWait?
  }

  ghost predicate Balanced(s: State) {
    && |s.threads| == 1 && !s.history.errored
    && s.history.sent == s.history.consumed + (if s.control.signalled then 1 else 0)
    && s.history.sentInEpoch <= 1
    && (s.control.signalled ==> AwaitsSignal(s) && s.history.sentInEpoch == 1)
    && (AwaitsSignal(s) && s.history.sentInEpoch == 1 ==> s.control.signalled && s.records.context.Some?)
    && (Woken(s) ==> s.records.context.Some? && s.history.sentInEpoch == 1)
    && (MaySignal(s.threads[0]) ==> AwaitsSignal(s) && s.history.sentInEpoch == 0)
    && (s.threads[0].Stopping? && s.threads[0].stage in {SetBlock, Signal} ==> s.records.context.Some?)
  }

  /** The event is set by one statement of `suspend_helper` only, and only a clean call leads there. */
  predicate SignalMove(s: State, s': State, th: Thread, th': Thread, act: Action) {
    && (MaySignal(th') ==> MaySignal(th) || act.Call?)
    && s'.history.consumed == s.history.consumed
    && (if th.Stopping? && th.stage == Signal then
          && s'.control == s.control.(signalled := true) && th'.Stopping? && th'.stage == Sleep
          && s'.history.sent == s.history.sent + 1 && s'.history.sentInEpoch == s.history.sentInEpoch + 1
        else
          s'.control == s.control && s'.history.sent == s.history.sent
            && s'.history.sentInEpoch == s.history.sentInEpoch)
  }

  lemma AppSignalMove(s: State, t: nat, act: Action)
    requires t < |s.threads| && AppEnabled(s, t, act)
    ensures var s' := AppStep(s, t, act); SignalMove(s, s', s.threads[t], s'.threads[t], act)
  {
  }

  lemma BalancedMove(s: State, s': State, act: Action)
    requires Alternates(s) && Balanced(s) && !s.control.suspended && (act.Call? ==> s.history.sentInEpoch == 0)
    requires Frame(s, s', 0) && RecordMove(s, s', s.threads[0], s'.threads[0])
    requires SignalMove(s, s', s.threads[0], s'.threads[0], act)
    ensures Balanced(s')
  {
  }

  lemma BalancedKept(s: State, l: Label)
    requires Alternates(s) && Balanced(s) && Enabled(s, l) && Prompt(s, l)
    ensures Balanced(Step(s, l))
  {
    if l.ThreadNext? {
      AppFrame(s, l.t, l.act);
      AppRecordMove(s, l.t, l.act);
      AppSignalMove(s, l.t, l.act);
      BalancedMove(s, Step(s, l), l.act);
    }
  }

  lemma {:induction false} BalancedAfter(s: State, run: seq<Label>)
    requires Alternates(s) && Balanced(s) && IsPromptRun(s, run)
    ensures IsRun(s, run) && Alternates(After(s, run)) && Balanced(After(s, run))
    decreases |run|
  {
    PromptRunIsRun(s, run);
    if run != [] {
      AlternatesKept(s, run[0]);
      BalancedKept(s, run[0]);
      BalancedAfter(Step(s, run[0]), run[1..]);
    }
  }

  /** With one prompt thread every signal is consumed by the request it belongs to, so that between requests as many
      were sent as consumed, and no request ends in the "Unable to locate stopped context" exit. */
  lemma NoLostOrStaleWakeup(s: State, run: seq<Label>)
    requires Init(s) && |s.threads| == 1 && IsPromptRun(s, run)
    ensures IsRun(s, run)
    ensures var e := After(s, run);
      && !e.history.errored && (forall m :: !Enabled(e, ErrorExit(m)))
      && (e.server.Idle? ==> e.history.sent == e.history.consumed && !e.control.signalled)
  {
    InvariantInit(s);
    BalancedAfter(s, run);
  }

  // Without promptness

  const RELEVANT_ONLY: set<EventType> := {RELEVANT_BLOCK}

  /** The program is suspended between two requests, with nothing recorded as signalled but possibly the event set. */
  predicate AtRest(s: State) {
    s.server == Idle && s.control.params && s.control.suspended && s.mutex == None && |s.threads| == 1
  }

  /** The server's statements from a request to its wait. */
  lemma Resume(a: State, s: State) returns (e: State)
    requires Reaches(a, s) && AtRest(s)
    ensures Reaches(a, e)
    ensures e.server == ExecWait(RELEVANT_ONLY) && e.control == Control(false, false, s.control.signalled)
    ensures e.records == Records(None, None) && e.threads == s.threads && e.mutex == None
    ensures e.debug == s.debug.(cache := map[], stops := RELEVANT_ONLY)
  {
    e := Resuming(a, s, RELEVANT_ONLY);
    e := Onwards(a, e, ServerNext);
  }

  lemma Act(a: State, s: State, act: Action) returns (e: State)
    requires Reaches(a, s) && |s.threads| == 1 && AppEnabled(s, 0, act)
    ensures Reaches(a, e) && e == AppStep(s, 0, act)
  {
    ReachesThen(a, s, ThreadNext(0, act));
    e := AppStep(s, 0, act);
  }

  const LOOP: Block := [Instr(100, 1)]

  /** The thread enters the block, building it if need be, and stands before its clean call. */
  lemma EnterLoop(a: State, s: State) returns (e: State)
    requires Reaches(a, s) && |s.threads| == 1 && s.threads[0].Running? && !s.control.suspended && s.mutex == None
    requires s.debug.stops == RELEVANT_ONLY && s.debug.tables.active == map[]
    requires LOOP in s.debug.cache ==> s.debug.cache[LOOP] == Instrumented(LOOP, map[], RELEVANT_ONLY)
    ensures Reaches(a, e) && e.threads == [Running(Instrumented(LOOP, map[], RELEVANT_ONLY))] && e.mutex == None
    ensures e.server == s.server && e.control == s.control && e.records == s.records
    ensures e.debug == s.debug.(cache := s.debug.cache[LOOP := Instrumented(LOOP, map[], RELEVANT_ONLY)])
  {
    e := Act(a, s, EnterBlock(LOOP));
    if LOOP !in s.debug.cache {
      e := Act(a, e, Acquire);
      e := Act(a, e, Body);
      e := Act(a, e, Release);
    } else {
      assert s.debug.cache == s.debug.cache[LOOP := Instrumented(LOOP, map[], RELEVANT_ONLY)];
    }
  }

  /** The thread reports its block and signals. */
  lemma SignalLoop(a: State, s: State) returns (e: State)
    requires Reaches(a, s) && s.threads == [Running(Instrumented(LOOP, map[], RELEVANT_ONLY))] && !s.control.suspended
    requires s.debug.stops == RELEVANT_ONLY
    ensures Reaches(a, e) && |e.threads| == 1 && e.threads[0].Running? && e.control == s.control.(signalled := true)
    ensures e.server == s.server && e.mutex == s.mutex && e.debug == s.debug && e.records.context.Some?
  {
    e := Act(a, s, Call);
    e := Act(a, e, Proceed);
    e := Act(a, e, Proceed);
    e := Act(a, e, Proceed);
    e := Act(a, e, Proceed);
  }

  /** A request that returns normally and leaves the event set. */
  lemma LateRequest(a: State, s: State) returns (e: State)
    requires Reaches(a, s) && AtRest(s) && !s.control.signalled && s.threads[0].Running?
      && s.debug.tables.active == map[]
    ensures Reaches(a, e) && AtRest(e) && e.control.signalled && e.threads[0].Running?
  {
    e := Resume(a, s);
    e := EnterLoop(a, e);
    e := SignalLoop(a, e);
    e := Onwards(a, e, ServerNext);           // the wait consumes the first signal
    e := EnterLoop(a, e);
    e := SignalLoop(a, e);     // the second one is left over
    e := Finish(a, e);
  }

  /** The suspension and the return of a request whose signal was consumed and whose thread is back in its own
      code. */
  lemma Finish(a: State, s: State) returns (e: State)
    requires Reaches(a, s) && s.server.ExecSetParams? && !s.control.params && s.records.context.Some? && s.mutex == None
    requires |s.threads| == 1 && s.threads[0].Running?
    ensures Reaches(a, e) && AtRest(e) && e.threads == s.threads && e.control.signalled == s.control.signalled
  {
    e := Onwards(a, s, ServerNext);
    e := Onwards(a, e, ServerNext);
    e := Onwards(a, e, ServerNext);
    e := Onwards(a, e, ServerNext);
  }

  /** One thread that signals again before it is suspended leaves the event set: the request after that wakes up with
      nothing recorded and takes the exit that releases the mutex without holding it. */
  lemma LateSuspensionBreaksNextRequest(s: State)
    requires Init(s) && |s.threads| == 1
    ensures exists e :: Reaches(s, e) && Enabled(e, ErrorExit(None)) && e.mutex == None
  {
    assert IsRun(s, []) && After(s, []) == s;
    var e := LateRequest(s, s);
    e := Resume(s, e);
    e := Onwards(s, e, ServerNext);           // wakes at once
    e := Onwards(s, e, ServerNext);
    e := Onwards(s, e, ServerNext);
  }
}
