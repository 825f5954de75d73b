/** Stopped context and stopped block in runs whose requests all ask for breakpoint stops only. */
module StopRecords {
  import opened Words
  import opened Types
  import opened Protocol
  import opened ProtocolSafety
  import opened ProtocolRuns

  predicate BreakpointRequests(run: seq<Label>) {
    forall i :: 0 <= i < |run| && run[i].RequestExec? ==> run[i].wanted == {BREAKPOINT}
  }

  /** Records change under the mutex; they disagree between their two writes, and between the server's two
      assignments. */
  ghost predicate WrittenInPairs(s: State) {
    && (Executing(s) ==> s.debug.stops == {BREAKPOINT})
    && (!s.history.errored ==>
          && (forall t :: 0 <= t < |s.threads| && s.threads[t].Stopping? ==> s.threads[t].underLock)
          && (s.mutex == None ==> Agree(s) || s.server.ExecClearBlock?)
          && (s.mutex.Some? && s.mutex.value < |s.threads| ==>
                var th := s.threads[s.mutex.value];
                if th.Stopping? && th.stage == SetBlock
                then s.records.context.Some? && s.records.context.value.call == th.call
                else Agree(s)))
  }

  lemma WrittenInPairsMove(s: State, s': State, t: nat)
    requires Alternates(s) && Excludes(s) && StopsAsked(s) && WrittenInPairs(s) && !s.control.suspended
    requires Frame(s, s', t) && RecordMove(s, s', s.threads[t], s'.threads[t])
    requires LockMove(s, s', s.threads[t], s'.threads[t], t)
    ensures WrittenInPairs(s')
  {
    if !s.history.errored {
      var th, th' := s.threads[t], s'.threads[t];
      assert th.Stopping? ==> HoldsMutex(th) && s.mutex == Some(t);
      assert th'.Stopping? ==> th'.underLock;
    }
  }

  lemma WrittenInPairsKept(s: State, l: Label)
    requires Alternates(s) && Excludes(s) && StopsAsked(s) && WrittenInPairs(s) && Enabled(s, l)
    requires l.RequestExec? ==> l.wanted == {BREAKPOINT}
    ensures WrittenInPairs(Step(s, l))
  {
    if l.ThreadNext? {
      AppFrame(s, l.t, l.act);
      AppRecordMove(s, l.t, l.act);
      AppLockMove(s, l.t, l.act);
      WrittenInPairsMove(s, Step(s, l), l.t);
    } else if s.control.suspended && !s.history.errored {
      FreeWhileSuspended(s);
    }
  }

  lemma {:induction false} WrittenInPairsAfter(s: State, run: seq<Label>)
    requires Invariant(s) && WrittenInPairs(s) && IsRun(s, run) && BreakpointRequests(run)
    ensures WrittenInPairs(After(s, run))
    decreases |run|
  {
    if run != [] {
      WrittenInPairsKept(s, run[0]);
      InvariantKept(s, run[0]);
      WrittenInPairsAfter(Step(s, run[0]), run[1..]);
    }
  }

  /** Whenever the mutex is free, stopped context and block are both absent or from the same clean call, except
      exactly between the two assignments by which a resume clears a recorded stop. */
  lemma RecordsAgreeExactly(s: State, run: seq<Label>)
    requires Init(s) && IsRun(s, run) && BreakpointRequests(run)
    ensures var e := After(s, run);
      !e.history.errored && e.mutex == None ==> (Agree(e) <==> !(e.server.ExecClearBlock? && e.records.block.Some?))
  {
    InvariantInit(s);
    InvariantAfter(s, run);
    WrittenInPairsAfter(s, run);
  }

  // One request, whatever the ones before asked for

  predicate BeforeClear(s: State) {
    s.server.ExecLock? || s.server.ExecFlush? || s.server.ExecClearContext?
  }

  /** While the request is served the stop events stay, and until it clears them so do the records of earlier stops. */
  predicate Unchanged(s: State, records: Records) {
    s.debug.stops == {BREAKPOINT} && (BeforeClear(s) ==> s.records == records)
  }

  lemma UnchangedKept(s: State, l: Label, records: Records)
    requires Alternates(s) && Unchanged(s, records) && Enabled(s, l) && !IsRequest(l)
    ensures Unchanged(Step(s, l), records)
  {
    if l.ThreadNext? { AppFrame(s, l.t, l.act); }
  }

  lemma {:induction false} UnchangedAfter(s: State, run: seq<Label>, records: Records)
    requires Alternates(s) && Unchanged(s, records) && IsRun(s, run) && NoRequests(run)
    ensures Unchanged(After(s, run), records)
    decreases |run|
  {
    if run != [] {
      UnchangedKept(s, run[0], records);
      AlternatesKept(s, run[0]);
      UnchangedAfter(Step(s, run[0]), run[1..], records);
    }
  }

  /** In a request for breakpoint stops after any run, whenever the mutex is free the two agree if and only if: until
      the request clears the context, the earlier stop's did; between the two assignments, there was no block; and
      then always. */
  lemma RequestRecordsAgreeExactly(s: State, before: seq<Label>, during: seq<Label>)
    requires Init(s) && IsRun(s, before) && Enabled(After(s, before), RequestExec({BREAKPOINT}))
    requires IsRun(Step(After(s, before), RequestExec({BREAKPOINT})), during) && NoRequests(during)
    ensures var b, e := After(s, before), After(Step(After(s, before), RequestExec({BREAKPOINT})), during);
      !e.history.errored && e.mutex == None ==>
        (Agree(e) <==>
          if BeforeClear(e) then Agree(b) else if e.server.ExecClearBlock? then e.records.block == None else true)
  {
    InvariantInit(s);
    InvariantAfter(s, before);
    var b := After(s, before);
    var r := Step(b, RequestExec({BREAKPOINT}));
    InvariantKept(b, RequestExec({BREAKPOINT}));
    InvariantAfter(r, during);
    UnchangedAfter(r, during, b.records);
  }
}
