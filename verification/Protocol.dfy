/** The debugger server and any number of application threads as a transition system over the shared state. Critical
    sections that call `suspend_helper` are split into their single writes; a critical section that does not, and is
    therefore invisible to steps that take no lock, is one step. */
module Protocol {
  import opened Words
  import opened Types
  import opened Ordering
  import opened Resolve
  import opened Instrument
  import opened Tables
  import opened Activation

  /** What a thread wants the mutex for. */
  datatype Job = Count(addr: U64, start: U64, end: U64) | Build(b: Block) | Loading(name: Bytes)

  /** The next statement of `suspend_helper`. */
  datatype Stage = SetContext | SetBlock | Signal | Sleep

  /** An application thread; `tail` is what is left of the block it entered. */
  datatype Thread =
    | Running(tail: seq<Item>)
    | Blocked(job: Job, tail: seq<Item>)      // in dr_mutex_lock
    | Owning(job: Job, tail: seq<Item>)       // mutex taken, nothing done yet
    | Stopping(stage: Stage, event: EventType, start: U64, end: U64, call: nat, underLock: bool, tail: seq<Item>)
    | Unlocking(stale: Option<U64>, tail: seq<Item>)
    | Flushing(addr: U64, tail: seq<Item>)    // total_flush, without the mutex

  /** The server thread; the `Exec` states are the statements of `executeUntilEvent (wanted)` in order. */
  datatype Server =
    | Idle
    | Adding(bp: Breakpoint, resolved: Resolution)     // resolved without the mutex, about to take it
    | Deleting(bp: Breakpoint, resolved: Resolution)
    | ExecLock(wanted: set<EventType>)
    | ExecFlush(wanted: set<EventType>)
    | ExecClearContext(wanted: set<EventType>)
    | ExecClearBlock(wanted: set<EventType>)
    | ExecResume(wanted: set<EventType>)
    | ExecClearParams(wanted: set<EventType>)
    | ExecWait(wanted: set<EventType>)
    | ExecSetParams(wanted: set<EventType>)
    | ExecSuspend(wanted: set<EventType>)
    | ExecCheck(wanted: set<EventType>)
    | Returned(wanted: set<EventType>, result: EventType)
    | AssertFailed

  /** `stopped_context` and `stopped_block`, tagged with the clean call that wrote them and the resume it followed. */
  datatype Context = Context(event: EventType, call: nat, epoch: nat)
  datatype BlockRecord = BlockRecord(start: U64, end: U64, call: nat)

  /** What the clean calls, callbacks and handlers work on. */
  datatype Debug = Debug(tables: Tables, modules: Modules, cache: map<Block, seq<Item>>, stops: set<EventType>)

  /** `suspend_params` is set; the application threads are suspended; the auto-reset `suspend_event` is set. */
  datatype Control = Control(params: bool, suspended: bool, signalled: bool)

  datatype Records = Records(context: Option<Context>, block: Option<BlockRecord>)

  /** Counts of what has happened; no step reads them. `errored`: the exit that releases a mutex it does not hold was
      taken. */
  datatype History = History(calls: nat, epoch: nat, sent: nat, consumed: nat, sentInEpoch: nat, errored: bool,
                             stale: nat, fired: nat, deleted: nat)

  datatype State = State(
    debug: Debug,
    mutex: Option<nat>,               // the thread that owns it; the server's sections are single steps
    server: Server,
    threads: seq<Thread>,
    control: Control,
    records: Records,
    history: History)

  datatype Action =
    | Advance | Call | EnterBlock(b: Block) | StartLoad(name: Bytes, m: Module) | Unload(name: Bytes)
    | Acquire | Body | Proceed | Release | Flush

  datatype Label =
    | ThreadNext(t: nat, act: Action)
    | RequestAdd(bp: Breakpoint) | RequestDelete(bp: Breakpoint) | RequestExec(wanted: set<EventType>)
    | ServerNext
    | ErrorExit(mutex: Option<nat>)   // what unlocking an unowned mutex leaves is not known

  ghost predicate Init(s: State) {
    && s.server == Idle && s.control.params && s.control.suspended
    && (forall t :: 0 <= t < |s.threads| ==> s.threads[t] == Running([]))
    && s.debug.tables == Tables(map[], []) && s.debug.cache == map[] && s.mutex == None
    && s.records.context == None && s.records.block == None && !s.control.signalled
    && s.history == History(0, 0, 0, 0, 0, false, 0, 0, 0)
  }

  /** In application code, or waiting for the mutex: where a suspension can find a thread. */
  predicate Safe(th: Thread) {
    th.Running? || th.Blocked?
  }

  predicate HoldsMutex(th: Thread) {
    th.Owning? || (th.Stopping? && th.underLock) || th.Unlocking?
  }

  predicate LoadsModule(th: Thread, name: Bytes) {
    (th.Blocked? || th.Owning?) && th.job == Loading(name)
  }

  predicate LoadInProgress(s: State, name: Bytes) {
    exists t :: 0 <= t < |s.threads| && LoadsModule(s.threads[t], name)
  }

  /** No cached block has an address in `[start, end]`. */
  predicate CacheAvoids(s: State, m: Module) {
    forall b: Block, i: nat :: b in s.debug.cache && i < |b| ==> !(m.start <= b[i].pc <= m.end)
  }

  /** What the environment grants a load callback. */
  predicate LoadGranted(s: State, name: Bytes) {
    name in s.debug.modules && AllResolve(s.debug.modules, name, s.debug.tables.deferred)
      && CacheAvoids(s, s.debug.modules[name])
  }

  predicate AppEnabled(s: State, t: nat, act: Action)
    requires t < |s.threads|
  {
    var th := s.threads[t];
    !s.control.suspended &&
    match act
    case Advance => th.Running? && th.tail != [] && th.tail[0].App?
    case Call => th.Running? && th.tail != [] && !th.tail[0].App?
    case EnterBlock(b) => th.Running? && StraightLine(b)
    case StartLoad(name, m) => th.Running? && name !in s.debug.modules && 0 !in name
    case Unload(name) => th.Running? && name in s.debug.modules && !LoadInProgress(s, name)
    case Acquire => th.Blocked? && s.mutex == None
    case Body => th.Owning? && (th.job.Loading? ==> LoadGranted(s, th.job.name))
    case Proceed => th.Stopping?
    case Release => th.Unlocking?
    case Flush => th.Flushing?
  }

  /** Thread `t` is now `th`. */
  function Now(s: State, t: nat, th: Thread): State
    requires t < |s.threads|
  {
    s.(threads := s.threads[t := th])
  }

  function WithTables(s: State, t: Tables): State {
    s.(debug := s.debug.(tables := t))
  }

  function WithModules(s: State, m: Modules): State {
    s.(debug := s.debug.(modules := m))
  }

  function WithCache(s: State, c: map<Block, seq<Item>>): State {
    s.(debug := s.debug.(cache := c))
  }

  function Called(s: State): State {
    s.(history := s.history.(calls := s.history.calls + 1))
  }

  function Signalled(s: State): State {
    s.(control := s.control.(signalled := true),
       history := s.history.(sent := s.history.sent + 1, sentInEpoch := s.history.sentInEpoch + 1))
  }

  function CountFired(s: State): State {
    s.(history := s.history.(fired := s.history.fired + 1))
  }

  function CountStale(s: State): State {
    s.(history := s.history.(stale := s.history.stale + 1))
  }

  function CountDeleted(s: State): State {
    s.(history := s.history.(deleted := s.history.deleted + 1))
  }

  function Enter(s: State, t: nat, b: Block): State
    requires t < |s.threads|
  {
    if b in s.debug.cache then Now(s, t, Running(s.debug.cache[b])) else Now(s, t, Blocked(Build(b), []))
  }

  /** A clean call starts: one takes the mutex first, the other reads `stop_events` at once. */
  function StartCall(s: State, t: nat): State
    requires t < |s.threads| && s.threads[t].Running? && s.threads[t].tail != []
  {
    var th := s.threads[t];
    match th.tail[0]
    case App(_) => s
    case CountCall(a, start, end) => Now(s, t, Blocked(Count(a, start, end), th.tail[1..]))
    case RelevantCall(start, end) =>
      if RELEVANT_BLOCK in s.debug.stops
      then Now(Called(s), t, Stopping(SetContext, RELEVANT_BLOCK, start, end, s.history.calls, false, th.tail[1..]))
      else Now(s, t, Running(th.tail[1..]))
  }

  function CountBody(s: State, t: nat): State
    requires t < |s.threads| && s.threads[t].Owning? && s.threads[t].job.Count?
  {
    var th := s.threads[t];
    var a := th.job.addr;
    var u := WithTables(s, s.debug.tables.(active := Hit(s.debug.tables.active, a)));
    match HitOutcome(s.debug.tables.active, a)
    case Stale => Now(u, t, Unlocking(Some(a), th.tail))
    case Counted => Now(u, t, Unlocking(None, th.tail))
    case Fired =>
      if BREAKPOINT in s.debug.stops
      then Now(Called(CountFired(u)), t,
        Stopping(SetContext, BREAKPOINT, th.job.start, th.job.end, s.history.calls, true, th.tail))
      else Now(CountFired(u), t, Unlocking(None, th.tail))
  }

  function BuildBody(s: State, t: nat): State
    requires t < |s.threads| && s.threads[t].Owning? && s.threads[t].job.Build?
  {
    var b := s.threads[t].job.b;
    var items := Instrumented(b, s.debug.tables.active, s.debug.stops);
    Now(WithCache(s, s.debug.cache[b := items]), t, Unlocking(None, items))
  }

  function LoadBody(s: State, t: nat): State
    requires t < |s.threads| && s.threads[t].Owning? && s.threads[t].job.Loading?
    requires LoadGranted(s, s.threads[t].job.name)
  {
    var th := s.threads[t];
    Now(WithTables(s, Load(s.debug.tables, s.debug.modules, th.job.name)), t, Unlocking(None, th.tail))
  }

  function BodyStep(s: State, t: nat): State
    requires t < |s.threads| && s.threads[t].Owning?
      && (s.threads[t].job.Loading? ==> LoadGranted(s, s.threads[t].job.name))
  {
    match s.threads[t].job
    case Count(_, _, _) => CountBody(s, t)
    case Build(_) => BuildBody(s, t)
    case Loading(_) => LoadBody(s, t)
  }

  function StageStep(s: State, t: nat): State
    requires t < |s.threads| && s.threads[t].Stopping?
  {
    var th := s.threads[t];
    match th.stage
    case SetContext =>
      var context := Context(th.event, th.call, s.history.epoch);
      Now(s, t, th.(stage := SetBlock)).(records := s.records.(context := Some(context)))
    case SetBlock =>
      Now(s, t, th.(stage := Signal)).(records := s.records.(block := Some(BlockRecord(th.start, th.end, th.call))))
    case Signal => Now(Signalled(s), t, th.(stage := Sleep))
    case Sleep => Now(s, t, if th.underLock then Unlocking(None, th.tail) else Running(th.tail))
  }

  function AppStep(s: State, t: nat, act: Action): State
    requires t < |s.threads| && AppEnabled(s, t, act)
  {
    var th := s.threads[t];
    match act
    case Advance => Now(s, t, Running(th.tail[1..]))
    case Call => StartCall(s, t)
    case EnterBlock(b) => Enter(s, t, b)
    case StartLoad(name, m) => Now(WithModules(s, s.debug.modules[name := m]), t, Blocked(Loading(name), th.tail))
    case Unload(name) => WithModules(s, s.debug.modules - {name})
    case Acquire => Now(s, t, Owning(th.job, th.tail)).(mutex := Some(t))
    case Body => BodyStep(s, t)
    case Proceed => StageStep(s, t)
    case Release =>
      Now(s, t, if th.stale.Some? then Flushing(th.stale.value, th.tail) else Running(th.tail)).(mutex := None)
    case Flush => Now(WithCache(CountStale(s), map[]), t, Running(th.tail))
  }

  predicate ServerEnabled(s: State) {
    match s.server
    case Adding(_, _) => s.mutex == None
    case Deleting(_, _) => s.mutex == None
    case ExecLock(_) => s.mutex == None
    case ExecWait(_) => s.control.signalled
    case ExecSuspend(_) => forall t :: 0 <= t < |s.threads| ==> Safe(s.threads[t])
    case ExecCheck(_) => s.records.context.Some?
    case Idle => false
    case AssertFailed => false
    case _ => true
  }

  function ServerStep(s: State): State
    requires ServerEnabled(s)
  {
    match s.server
    case Adding(bp, r) => WithTables(s, AddAt(s.debug.tables, r, bp).0).(server := Idle)
    case Deleting(bp, r) =>
      var u := DeleteAt(s.debug.tables, r, bp).0;
      if u.active == s.debug.tables.active then WithTables(s, u).(server := Idle)
      else WithTables(WithCache(CountDeleted(s), map[]), u).(server := Idle)
    case ExecLock(w) => s.(server := if s.control.params then ExecFlush(w) else Idle)
    case ExecFlush(w) => WithCache(s, map[]).(server := ExecClearContext(w))
    case ExecClearContext(w) =>
      if s.control.params then s.(records := s.records.(context := None), server := ExecClearBlock(w))
      else s.(server := AssertFailed)
    case ExecClearBlock(w) => s.(records := s.records.(block := None), server := ExecResume(w))
    case ExecResume(w) =>
      s.(control := s.control.(suspended := false),
         history := s.history.(epoch := s.history.epoch + 1, sentInEpoch := 0), server := ExecClearParams(w))
    case ExecClearParams(w) => s.(control := s.control.(params := false), server := ExecWait(w))
    case ExecWait(w) =>
      s.(control := s.control.(signalled := false),
         history := s.history.(consumed := s.history.consumed + 1), server := ExecSetParams(w))
    case ExecSetParams(w) =>
      if s.control.params then s.(server := AssertFailed)
      else s.(control := s.control.(params := true), server := ExecSuspend(w))
    case ExecSuspend(w) => s.(control := s.control.(suspended := true), server := ExecCheck(w))
    case ExecCheck(w) => s.(server := Returned(w, s.records.context.value.event))
    case Returned(_, _) => s.(server := Idle)
  }

  predicate Enabled(s: State, l: Label) {
    match l
    case ThreadNext(t, act) => t < |s.threads| && AppEnabled(s, t, act)
    case RequestAdd(bp) => s.server == Idle && FreshBreakpoint(bp)
    case RequestDelete(bp) => s.server == Idle && FreshBreakpoint(bp)
    case RequestExec(_) => s.server == Idle
    case ServerNext => ServerEnabled(s)
    case ErrorExit(_) => s.server.ExecCheck? && s.records.context == None
  }

  function Step(s: State, l: Label): State
    requires Enabled(s, l)
  {
    match l
    case ThreadNext(t, act) => AppStep(s, t, act)
    case RequestAdd(bp) =>
      var r := ToAbsAddr(s.debug.modules, bp.addr);
      if r.Throws? then s else s.(server := Adding(bp, r))
    case RequestDelete(bp) =>
      var r := ToAbsAddr(s.debug.modules, bp.addr);
      if r.Throws? then s else s.(server := Deleting(bp, r))
    case RequestExec(w) => s.(debug := s.debug.(stops := w), server := ExecLock(w))
    case ServerNext => ServerStep(s)
    case ErrorExit(m) => s.(mutex := m, history := s.history.(errored := true), server := Idle)
  }

  // Runs

  predicate IsRun(s: State, run: seq<Label>)
    decreases |run|
  {
    run == [] || (Enabled(s, run[0]) && IsRun(Step(s, run[0]), run[1..]))
  }

  function After(s: State, run: seq<Label>): State
    requires IsRun(s, run)
    decreases |run|
  {
    if run == [] then s else After(Step(s, run[0]), run[1..])
  }

  lemma {:induction false} RunThen(s: State, run: seq<Label>, l: Label)
    requires IsRun(s, run) && Enabled(After(s, run), l)
    ensures IsRun(s, run + [l]) && After(s, run + [l]) == Step(After(s, run), l)
    decreases |run|
  {
    if run == [] {
      assert [] + [l] == [l];
      assert [l][1..] == [];
    } else {
      assert (run + [l])[1..] == run[1..] + [l];
      RunThen(Step(s, run[0]), run[1..], l);
    }
  }

  /** `e` can be reached from `s`. */
  ghost predicate Reaches(s: State, e: State) {
    exists run :: IsRun(s, run) && After(s, run) == e
  }

  lemma ReachesThen(s: State, e: State, l: Label)
    requires Reaches(s, e) && Enabled(e, l)
    ensures Reaches(s, Step(e, l))
  {
    var run :| IsRun(s, run) && After(s, run) == e;
    RunThen(s, run, l);
  }

  lemma Onwards(s: State, e: State, l: Label) returns (e': State)
    requires Reaches(s, e) && Enabled(e, l)
    ensures Reaches(s, e') && e' == Step(e, l)
  {
    ReachesThen(s, e, l);
    e' := Step(e, l);
  }

  /** A request up to its resume, the threads doing nothing. */
  lemma Resuming(s: State, e: State, wanted: set<EventType>) returns (e': State)
    requires Reaches(s, e) && e.server.Idle? && e.control.params && e.mutex == None
    ensures Reaches(s, e') && e'.server == ExecClearParams(wanted) && e'.mutex == None && e'.threads == e.threads
    ensures e'.control == e.control.(suspended := false) && e'.records == Records(None, None)
    ensures e'.debug == e.debug.(cache := map[], stops := wanted)
  {
    e' := Onwards(s, e, RequestExec(wanted));
    e' := Clearing(s, e');
    e' := Onwards(s, e', ServerNext);
  }

  lemma Clearing(s: State, e: State) returns (e': State)
    requires Reaches(s, e) && e.server.ExecLock? && e.control.params && e.mutex == None
    ensures Reaches(s, e') && e'.server == ExecResume(e.server.wanted) && e'.mutex == None && e'.threads == e.threads
    ensures e'.control == e.control && e'.records == Records(None, None) && e'.debug == e.debug.(cache := map[])
  {
    e' := Onwards(s, e, ServerNext);
    e' := Onwards(s, e', ServerNext);
    e' := Onwards(s, e', ServerNext);
    e' := Onwards(s, e', ServerNext);
  }
}
