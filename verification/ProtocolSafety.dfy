/** What every run of the protocol keeps, for any number of application threads. */
module ProtocolSafety {
  import opened Words
  import opened Types
  import opened Ordering
  import opened Resolve
  import opened Instrument
  import opened Tables
  import opened Activation
  import opened Protocol
  import Ordered

  // What one step of thread `t` can change, aspect by aspect

  ghost predicate Frame(s: State, s': State, t: nat) {
    && t < |s.threads| == |s'.threads| && (forall u :: 0 <= u < |s.threads| && u != t ==> s'.threads[u] == s.threads[u])
    && s'.server == s.server && s'.control.params == s.control.params && s'.control.suspended == s.control.suspended
    && s'.debug.stops == s.debug.stops
    && s'.history.errored == s.history.errored && s'.history.epoch == s.history.epoch
  }

  /** A thread takes the free mutex, releases the one it owns, or stays on its side of it. */
  predicate LockMove(s: State, s': State, th: Thread, th': Thread, t: nat) {
    || (s.mutex == None && s'.mutex == Some(t) && HoldsMutex(th'))
    || (HoldsMutex(th) && s'.mutex == None && !HoldsMutex(th'))
    || (s'.mutex == s.mutex && (HoldsMutex(th) <==> HoldsMutex(th')))
  }

  /** Records are written by the statements of `suspend_helper`, one record each. */
  predicate RecordMove(s: State, s': State, th: Thread, th': Thread) {
    if th.Stopping? then
      match th.stage
      case SetContext =>
        th' == th.(stage := SetBlock) && s'.records.context == Some(Context(th.event, th.call, s.history.epoch))
          && s'.records.block == s.records.block
      case SetBlock =>
        th' == th.(stage := Signal) && s'.records.context == s.records.context
          && s'.records.block == Some(BlockRecord(th.start, th.end, th.call))
      case Signal =>
        th' == th.(stage := Sleep) && s'.records.context == s.records.context && s'.records.block == s.records.block
      case Sleep => !th'.Stopping? && s'.records.context == s.records.context && s'.records.block == s.records.block
    else
      && s'.records.context == s.records.context && s'.records.block == s.records.block
      && (th'.Stopping? ==>
        th'.stage == SetContext && th'.event in s.debug.stops && (th'.underLock || th'.event == RELEVANT_BLOCK))
  }

  /** Only a load body adds breakpoints, and only a build body adds a block. */
  ghost predicate DebugMove(s: State, s': State, th: Thread) {
    if th.Owning? && th.job.Loading? then
      LoadGranted(s, th.job.name) && s'.debug == s.debug.(tables := Load(s.debug.tables, s.debug.modules, th.job.name))
    else
      && s'.debug.tables.deferred == s.debug.tables.deferred && s'.debug.stops == s.debug.stops
      && s'.debug.tables.active.Keys <= s.debug.tables.active.Keys
      && (if th.Owning? && th.job.Build? then
            s'.debug == s.debug.(cache :=
              s.debug.cache[th.job.b := Instrumented(th.job.b, s.debug.tables.active, s.debug.stops)])
          else s'.debug.cache == s.debug.cache || s'.debug.cache == map[])
  }

  /** A thread waits for or owns the mutex for what it asked it for. */
  predicate JobMove(th: Thread, th': Thread) {
    && (th'.Owning? ==> th.Blocked? && th.job == th'.job)
    && (th'.Blocked? && th'.job.Build? ==> StraightLine(th'.job.b))
  }

  lemma AppFrame(s: State, t: nat, act: Action)
    requires t < |s.threads| && AppEnabled(s, t, act)
    ensures Frame(s, AppStep(s, t, act), t)
  {
    if act.Body? { BodyFrame(s, t); }
  }

  lemma BodyFrame(s: State, t: nat)
    requires t < |s.threads| && AppEnabled(s, t, Body)
    ensures Frame(s, BodyStep(s, t), t)
  {
  }

  lemma AppLockMove(s: State, t: nat, act: Action)
    requires t < |s.threads| && AppEnabled(s, t, act)
    ensures var s' := AppStep(s, t, act); LockMove(s, s', s.threads[t], s'.threads[t], t)
  {
  }

  lemma AppRecordMove(s: State, t: nat, act: Action)
    requires t < |s.threads| && AppEnabled(s, t, act)
    ensures var s' := AppStep(s, t, act); RecordMove(s, s', s.threads[t], s'.threads[t])
  {
  }

  lemma AppDebugMove(s: State, t: nat, act: Action)
    requires t < |s.threads| && AppEnabled(s, t, act) && !act.Unload? && !act.StartLoad?
    ensures DebugMove(s, AppStep(s, t, act), s.threads[t])
  {
  }

  lemma AppJobMove(s: State, t: nat, act: Action)
    requires t < |s.threads| && AppEnabled(s, t, act) && !act.Unload?
    ensures JobMove(s.threads[t], AppStep(s, t, act).threads[t])
  {
  }

  // Suspension

  /** The server is inside `executeUntilEvent` between the resume and the end of the next suspension. */
  predicate Resumed(s: State) {
    s.server.ExecClearParams? || s.server.ExecWait? || s.server.ExecSetParams? || s.server.ExecSuspend?
  }

  /** `suspend_params` and the suspension alternate with the server's statements, and no assertion fails. */
  ghost predicate Alternates(s: State) {
    && s.server != AssertFailed
    && (s.control.suspended <==> !Resumed(s))
    && (s.control.params <==> !s.server.ExecWait? && !s.server.ExecSetParams?)
    && (s.control.suspended ==> forall t :: 0 <= t < |s.threads| ==> Safe(s.threads[t]))
  }

  lemma AlternatesKept(s: State, l: Label)
    requires Alternates(s) && Enabled(s, l)
    ensures Alternates(Step(s, l))
  {
  }

  // Mutual exclusion

  /** Until the error exit is taken, the owner of the mutex is the one thread inside a locked section. */
  ghost predicate Excludes(s: State) {
    !s.history.errored ==>
      && (forall t :: 0 <= t < |s.threads| && HoldsMutex(s.threads[t]) ==> s.mutex == Some(t))
      && (s.mutex.Some? ==> s.mutex.value < |s.threads| && HoldsMutex(s.threads[s.mutex.value]))
  }

  lemma ExcludesKept(s: State, l: Label)
    requires Excludes(s) && Enabled(s, l)
    ensures Excludes(Step(s, l))
  {
    if l.ThreadNext? {
      AppFrame(s, l.t, l.act);
      AppLockMove(s, l.t, l.act);
      ExcludesMove(s, Step(s, l), l.t);
    }
  }

  lemma ExcludesMove(s: State, s': State, t: nat)
    requires Excludes(s) && Frame(s, s', t) && LockMove(s, s', s.threads[t], s'.threads[t], t)
    ensures Excludes(s')
  {
  }

  /** So the mutex is free while the program is suspended: no request handler waits for it. */
  lemma FreeWhileSuspended(s: State)
    requires Alternates(s) && Excludes(s) && s.control.suspended && !s.history.errored
    ensures s.mutex == None
  {
  }

  // Stop events

  /** The stop record in place belongs to the current request. */
  predicate RecordCurrent(s: State) {
    !s.server.ExecLock? && !s.server.ExecFlush? && !s.server.ExecClearContext?
  }

  predicate Executing(s: State) {
    !s.server.Idle? && !s.server.Adding? && !s.server.Deleting? && !s.server.AssertFailed?
  }

  ghost predicate StopsAsked(s: State) {
    && (Executing(s) ==> s.debug.stops == s.server.wanted)
    && (forall t :: 0 <= t < |s.threads| && s.threads[t].Stopping? ==> s.threads[t].event in s.debug.stops)
    && (s.records.context.Some? && RecordCurrent(s) ==>
          s.records.context.value.event in s.debug.stops && s.records.context.value.epoch == s.history.epoch)
    && (s.server.ExecClearBlock? || s.server.ExecResume? ==> s.records.context == None)
    && (s.server.Returned? ==> s.records.context.Some? && s.records.context.value.event == s.server.result)
  }

  lemma StopsAskedMove(s: State, s': State, t: nat)
    requires Alternates(s) && StopsAsked(s) && !s.control.suspended
    requires Frame(s, s', t) && RecordMove(s, s', s.threads[t], s'.threads[t])
    ensures StopsAsked(s')
  {
  }

  lemma StopsAskedKept(s: State, l: Label)
    requires Alternates(s) && StopsAsked(s) && Enabled(s, l)
    ensures StopsAsked(Step(s, l))
  {
    if l.ThreadNext? {
      AppFrame(s, l.t, l.act);
      AppRecordMove(s, l.t, l.act);
      StopsAskedMove(s, Step(s, l), l.t);
    }
  }

  // Coverage

  ghost predicate Covered(s: State) {
    && (!s.control.suspended ==>
      forall b :: b in s.debug.cache ==> Covers(s.debug.cache[b], b, s.debug.tables.active, s.debug.stops))
    && (s.server.ExecClearContext? || s.server.ExecClearBlock? || s.server.ExecResume? ==> s.debug.cache == map[])
  }

  lemma CoveredMove(s: State, s': State, t: nat)
    requires Alternates(s) && Covered(s) && BuildsStraight(s) && !s.control.suspended
    requires Frame(s, s', t) && DebugMove(s, s', s.threads[t])
    ensures Covered(s')
  {
    var th := s.threads[t];
    if !(th.Owning? && th.job.Loading?) {
      forall b: Block | b in s.debug.cache
        ensures Covers(s.debug.cache[b], b, s'.debug.tables.active, s.debug.stops)
      {
        CoversShrinks(s.debug.cache[b], b, s.debug.tables.active, s'.debug.tables.active, s.debug.stops);
      }
    }
    if th.Owning? && th.job.Build? {
      InstrumentedCovers(th.job.b, s.debug.tables.active, s.debug.stops);
    } else if th.Owning? && th.job.Loading? {
      LoadCovers(s, th.job.name);
    }
  }

  lemma LoadCovers(s: State, name: Bytes)
    requires Covered(s) && !s.control.suspended && LoadGranted(s, name)
    ensures forall b :: b in s.debug.cache ==>
              Covers(s.debug.cache[b], b, Load(s.debug.tables, s.debug.modules, name).active, s.debug.stops)
  {
    var m := s.debug.modules[name];
    var next := Load(s.debug.tables, s.debug.modules, name);
    ActivateExact(s.debug.tables.active, s.debug.tables.deferred, s.debug.modules, name);
    forall b: Block | b in s.debug.cache ensures Covers(s.debug.cache[b], b, next.active, s.debug.stops) {
      forall i: nat | i < |b| && b[i].pc in next.active ensures b[i].pc in s.debug.tables.active {
        assert !(m.start <= b[i].pc <= m.end);
      }
      CoversShrinks(s.debug.cache[b], b, s.debug.tables.active, next.active, s.debug.stops);
    }
  }

  lemma CoveredKept(s: State, l: Label)
    requires Alternates(s) && Covered(s) && BuildsStraight(s) && Enabled(s, l)
    ensures Covered(Step(s, l))
  {
    if l.ThreadNext? && !l.act.Unload? && !l.act.StartLoad? {
      AppFrame(s, l.t, l.act);
      AppDebugMove(s, l.t, l.act);
      CoveredMove(s, Step(s, l), l.t);
    }
  }

  ghost predicate BuildsStraight(s: State) {
    forall t :: 0 <= t < |s.threads| && (s.threads[t].Blocked? || s.threads[t].Owning?) && s.threads[t].job.Build?
      ==> StraightLine(s.threads[t].job.b)
  }

  lemma BuildsStraightKept(s: State, l: Label)
    requires BuildsStraight(s) && Enabled(s, l)
    ensures BuildsStraight(Step(s, l))
  {
    if l.ThreadNext? && !l.act.Unload? {
      AppFrame(s, l.t, l.act);
      AppJobMove(s, l.t, l.act);
      BuildsStraightMove(s, Step(s, l), l.t);
    }
  }

  lemma BuildsStraightMove(s: State, s': State, t: nat)
    requires BuildsStraight(s) && Frame(s, s', t) && JobMove(s.threads[t], s'.threads[t])
    ensures BuildsStraight(s')
  {
  }

  // Deferred breakpoints

  /** A deferred key names no loaded module, except while a thread is in that module's load callback. */
  ghost predicate Separated(s: State) {
    && Valid(s.debug.tables)
    && (forall e :: e in s.debug.tables.deferred && e.key.modulename in s.debug.modules ==>
          LoadInProgress(s, e.key.modulename))
    && (s.server.Adding? || s.server.Deleting? ==> FreshBreakpoint(s.server.bp))
    && (s.server.Adding? ==> s.server.resolved == ToAbsAddr(s.debug.modules, s.server.bp.addr))
  }

  lemma LoadSeparated(s: State, s': State, t: nat)
    requires Separated(s) && Frame(s, s', t) && DebugMove(s, s', s.threads[t])
    requires s.threads[t].Owning? && s.threads[t].job.Loading?
    requires !s.server.Adding? && !s.server.Deleting?
    ensures Separated(s')
  {
    var name := s.threads[t].job.name;
    OthersExact(s.debug.tables.deferred, name);
    forall e | e in s'.debug.tables.deferred && e.key.modulename in s.debug.modules
      ensures LoadInProgress(s', e.key.modulename)
    {
      var u :| 0 <= u < |s.threads| && LoadsModule(s.threads[u], e.key.modulename);
      assert u != t && s'.threads[u] == s.threads[u];
    }
  }

  lemma AddSeparated(s: State)
    requires Separated(s) && s.server.Adding? && ServerEnabled(s)
    ensures Separated(ServerStep(s))
  {
    var bp, r := s.server.bp, s.server.resolved;
    OperationsKeepValid(s.debug.tables, r, bp);
    if r.ModuleNotLoaded? {
      var e := Entry(bp.addr.reladdr, AsU64(bp.count));
      Ordered.InsertElements(EntryLess, s.debug.tables.deferred, e);
      assert e.key.modulename !in s.debug.modules;
    }
  }

  lemma DeleteSeparated(s: State)
    requires Separated(s) && s.server.Deleting? && ServerEnabled(s)
    ensures Separated(ServerStep(s))
  {
    var bp, r := s.server.bp, s.server.resolved;
    OperationsKeepValid(s.debug.tables, r, bp);
    if r.ModuleNotLoaded? { WithoutElements(s.debug.tables.deferred, bp.addr.reladdr); }
  }

  /** Threads keep loading what they load, except in the load body. */
  lemma SeparatedFrame(s: State, s': State)
    requires Separated(s) && s'.debug.tables.deferred == s.debug.tables.deferred && |s'.threads| == |s.threads|
    requires !s'.server.Adding? && !s'.server.Deleting?
    requires forall n :: n in s'.debug.modules && n !in s.debug.modules ==> LoadInProgress(s', n)
    requires forall t, n :: 0 <= t < |s.threads| && LoadsModule(s.threads[t], n) ==> LoadsModule(s'.threads[t], n)
    ensures Separated(s')
  {
    forall e | e in s'.debug.tables.deferred && e.key.modulename in s'.debug.modules
      ensures LoadInProgress(s', e.key.modulename)
    {
      if e.key.modulename in s.debug.modules {
        var t :| 0 <= t < |s.threads| && LoadsModule(s.threads[t], e.key.modulename);
        assert LoadsModule(s'.threads[t], e.key.modulename);
      }
    }
  }

  lemma AppSeparated(s: State, t: nat, act: Action)
    requires Alternates(s) && Separated(s) && t < |s.threads| && AppEnabled(s, t, act)
    ensures Separated(AppStep(s, t, act))
  {
    var s' := AppStep(s, t, act);
    AppFrame(s, t, act);
    if act.Body? && s.threads[t].job.Loading? {
      LoadSeparated(s, s', t);
    } else {
      if act.StartLoad? { assert LoadsModule(s'.threads[t], act.name); }
      SeparatedFrame(s, s');
    }
  }

  lemma SeparatedKept(s: State, l: Label)
    requires Alternates(s) && Separated(s) && Enabled(s, l)
    ensures Separated(Step(s, l))
  {
    match l
    case ThreadNext(t, act) => AppSeparated(s, t, act);
    case ServerNext =>
      if s.server.Adding? {
        AddSeparated(s);
      } else if s.server.Deleting? {
        DeleteSeparated(s);
      } else {
        SeparatedFrame(s, ServerStep(s));
      }
    case _ =>
  }

  // Stop records

  /** Absent together, or written by the same clean call. */
  predicate Agree(s: State) {
    || (s.records.context.None? && s.records.block.None?)
    || (s.records.context.Some? && s.records.block.Some? && s.records.context.value.call == s.records.block.value.call)
  }

  predicate OnlyBreakpoints(s: State) {
    && s.debug.stops == {BREAKPOINT} && !s.history.errored
    && !s.server.ExecLock? && !s.server.ExecFlush? && !s.server.ExecClearContext? && !s.server.ExecClearBlock?
  }

  /** With breakpoint stops only, records change under the mutex, and disagree only between their two writes. */
  ghost predicate PairsAgree(s: State) {
    && (OnlyBreakpoints(s) ==> forall t :: 0 <= t < |s.threads| && s.threads[t].Stopping? ==> s.threads[t].underLock)
    && (OnlyBreakpoints(s) && s.mutex == None ==> Agree(s))
    && (OnlyBreakpoints(s) && s.mutex.Some? && s.mutex.value < |s.threads| ==>
          var th := s.threads[s.mutex.value];
          if th.Stopping? && th.stage == SetBlock
          then s.records.context.Some? && s.records.context.value.call == th.call
          else Agree(s))
  }

  lemma PairsAgreeMove(s: State, s': State, t: nat)
    requires Excludes(s) && StopsAsked(s) && PairsAgree(s)
    requires Frame(s, s', t) && RecordMove(s, s', s.threads[t], s'.threads[t])
      && LockMove(s, s', s.threads[t], s'.threads[t], t)
    ensures PairsAgree(s')
  {
    if OnlyBreakpoints(s) {
      var th, th' := s.threads[t], s'.threads[t];
      assert th.Stopping? ==> HoldsMutex(th) && s.mutex == Some(t);
      assert th'.Stopping? ==> th'.underLock;
    }
  }

  lemma PairsAgreeKept(s: State, l: Label)
    requires Alternates(s) && Excludes(s) && StopsAsked(s) && PairsAgree(s) && Enabled(s, l)
    ensures PairsAgree(Step(s, l))
  {
    if l.ThreadNext? {
      AppFrame(s, l.t, l.act);
      AppRecordMove(s, l.t, l.act);
      AppLockMove(s, l.t, l.act);
      PairsAgreeMove(s, Step(s, l), l.t);
    }
  }

  // All of them

  ghost predicate Invariant(s: State) {
    Alternates(s) && Excludes(s) && StopsAsked(s) && BuildsStraight(s) && Covered(s) && Separated(s) && PairsAgree(s)
  }

  lemma InvariantInit(s: State)
    requires Init(s)
    ensures Invariant(s)
  {
  }

  lemma InvariantKept(s: State, l: Label)
    requires Invariant(s) && Enabled(s, l)
    ensures Invariant(Step(s, l))
  {
    AlternatesKept(s, l);
    ExcludesKept(s, l);
    StopsAskedKept(s, l);
    BuildsStraightKept(s, l);
    CoveredKept(s, l);
    SeparatedKept(s, l);
    PairsAgreeKept(s, l);
  }

  lemma {:induction false} InvariantAfter(s: State, run: seq<Label>)
    requires Invariant(s) && IsRun(s, run)
    ensures Invariant(After(s, run))
    decreases |run|
  {
    if run != [] {
      InvariantKept(s, run[0]);
      InvariantAfter(Step(s, run[0]), run[1..]);
    }
  }
}
