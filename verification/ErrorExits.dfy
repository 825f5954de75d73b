/** When `executeUntilEvent` can end in "Unable to locate stopped context", for any number of application threads. */
module ErrorExits {
  import opened Words
  import opened Types
  import opened Protocol
  import opened ProtocolSafety
  import opened ProtocolRuns
  import opened Wakeups

  /** A thread that has recorded its context and not yet signalled. */
  predicate Recorded(th: Thread) {
    th.Stopping? && (th.stage == SetBlock || th.stage == Signal)
  }

  /** While a request is served, the event is set only with a context recorded after its resume. */
  ghost predicate SignalsRecorded(s: State) {
    && (s.server.ExecLock? ==> !s.control.signalled || s.mutex.Some?)
    && (BeforeResume(s) && !s.server.ExecLock? ==> !s.control.signalled)
    && (AwaitsSignal(s) && s.control.signalled ==> s.records.context.Some?)
    && (s.server.ExecSetParams? || s.server.ExecSuspend? || s.server.ExecCheck? ==> s.records.context.Some?)
    && (forall t :: 0 <= t < |s.threads| && Recorded(s.threads[t]) ==> s.records.context.Some?)
  }

  /** The event is set by the thread that recorded the context only. */
  predicate EventMove(s: State, s': State, th: Thread) {
    s'.control.signalled ==> s.control.signalled || Recorded(th)
  }

  lemma AppEventMove(s: State, t: nat, act: Action)
    requires t < |s.threads| && AppEnabled(s, t, act)
    ensures EventMove(s, AppStep(s, t, act), s.threads[t])
  {
  }

  lemma SignalsRecordedMove(s: State, s': State, t: nat)
    requires Alternates(s) && SignalsRecorded(s) && !s.control.suspended
    requires Frame(s, s', t) && RecordMove(s, s', s.threads[t], s'.threads[t]) && EventMove(s, s', s.threads[t])
    ensures SignalsRecorded(s')
  {
  }

  lemma SignalsRecordedKept(s: State, l: Label)
    requires Alternates(s) && SignalsRecorded(s) && Enabled(s, l) && !IsRequest(l)
    ensures SignalsRecorded(Step(s, l))
  {
    if l.ThreadNext? {
      AppFrame(s, l.t, l.act);
      AppRecordMove(s, l.t, l.act);
      AppEventMove(s, l.t, l.act);
      SignalsRecordedMove(s, Step(s, l), l.t);
    }
  }

  lemma {:induction false} SignalsRecordedAfter(s: State, run: seq<Label>)
    requires Alternates(s) && SignalsRecorded(s) && IsRun(s, run) && NoRequests(run)
    ensures SignalsRecorded(After(s, run))
    decreases |run|
  {
    if run != [] {
      SignalsRecordedKept(s, run[0]);
      AlternatesKept(s, run[0]);
      SignalsRecordedAfter(Step(s, run[0]), run[1..]);
    }
  }

  // The other direction: the server alone, the threads doing nothing

  /** `e` can be reached from `s` within the request being served. */
  ghost predicate Serves(s: State, e: State) {
    exists run :: IsRun(s, run) && NoRequests(run) && After(s, run) == e
  }

  lemma ServesNext(s: State, e: State) returns (e': State)
    requires Serves(s, e) && ServerEnabled(e)
    ensures Serves(s, e') && e' == ServerStep(e)
  {
    var run :| IsRun(s, run) && NoRequests(run) && After(s, run) == e;
    RunThen(s, run, ServerNext);
    assert NoRequests(run + [ServerNext]);
    e' := ServerStep(e);
  }

  lemma ServesToResume(s: State) returns (e: State)
    requires s.server.ExecLock? && s.control.params && s.mutex == None
    ensures Serves(s, e) && e.server == ExecResume(s.server.wanted) && e.records.context == None
    ensures e.threads == s.threads && e.control == s.control
  {
    assert IsRun(s, []) && NoRequests([]) && After(s, []) == s;
    e := ServesNext(s, s);
    e := ServesNext(s, e);
    e := ServesNext(s, e);
    e := ServesNext(s, e);
  }

  lemma ServesToCheck(s: State, r: State) returns (e: State)
    requires Serves(s, r) && r.server.ExecResume? && r.records.context == None && r.control.signalled
    requires forall t :: 0 <= t < |r.threads| ==> Safe(r.threads[t])
    ensures Serves(s, e) && e.server.ExecCheck? && e.records.context == None
  {
    e := ServesNext(s, r);
    e := ServesNext(s, e);
    e := ServesNext(s, e);
    e := ServesNext(s, e);
    e := ServesNext(s, e);
  }

  /** Some continuation of the request just made ends in the error exit. */
  ghost predicate CanExit(s: State) {
    exists e, m :: Serves(s, e) && Enabled(e, ErrorExit(m))
  }

  /** In every run, a request can end in the error exit exactly if the event is already set, and the mutex free, when
      it arrives: with whatever threads, and whatever they do from then on. */
  lemma ExitsExactly(s: State, before: seq<Label>, wanted: set<EventType>)
    requires Init(s) && IsRun(s, before) && Enabled(After(s, before), RequestExec(wanted))
    ensures var b := After(s, before);
      CanExit(Step(b, RequestExec(wanted))) <==> b.control.signalled && b.mutex == None
  {
    InvariantInit(s);
    InvariantAfter(s, before);
    var b := After(s, before);
    AlternatesKept(b, RequestExec(wanted));
    var r := Step(b, RequestExec(wanted));
    if b.control.signalled && b.mutex == None {
      var e := ServesToResume(r);
      e := ServesToCheck(r, e);
      assert Enabled(e, ErrorExit(None));
    } else {
      forall e, m | Serves(r, e) ensures !Enabled(e, ErrorExit(m)) {
        var run :| IsRun(r, run) && NoRequests(run) && After(r, run) == e;
        SignalsRecordedAfter(r, run);
      }
    }
  }

  /** Until the exit is first taken the mutex is free at every request, so the event alone decides. */
  lemma EventDecides(s: State, before: seq<Label>, wanted: set<EventType>)
    requires Init(s) && IsRun(s, before) && Enabled(After(s, before), RequestExec(wanted))
    requires !After(s, before).history.errored
    ensures var b := After(s, before); CanExit(Step(b, RequestExec(wanted))) <==> b.control.signalled
  {
    ExitsExactly(s, before, wanted);
    SuspensionAlternates(s, before);
  }

  /** After a prompt run of one thread no request can end in the error exit, however the thread behaves from then
      on. */
  lemma PromptRequestsReturn(s: State, before: seq<Label>, wanted: set<EventType>)
    requires Init(s) && |s.threads| == 1 && IsPromptRun(s, before) && IsRun(s, before)
    requires Enabled(After(s, before), RequestExec(wanted))
    ensures !CanExit(Step(After(s, before), RequestExec(wanted)))
  {
    NoLostOrStaleWakeup(s, before);
    ExitsExactly(s, before, wanted);
  }
}
