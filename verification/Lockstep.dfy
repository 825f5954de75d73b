/** A request of the protocol against the reference debugger: one thread from its resume to its first stop, and what it
    records there. */
module Lockstep {
  import opened Words
  import opened Types
  import opened Instrument
  import opened Protocol
  import opened ProtocolSafety
  import opened Refinement
  import opened Resumption
  import opened Sessions

  predicate Own(l: Label, t: nat) {
    l.ThreadNext? && l.t == t && !l.act.Unload?
  }

  /** The thread goes on inside the block it is in, or enters another one behind its end. */
  predicate GoesOn(th: Thread, act: Action) {
    match act
    case Advance => true
    case Call => true
    case EnterBlock(_) => th.tail == []
    case Acquire => true
    case Body => th.Owning? && !th.job.Loading?
    case Release => true
    case Flush => true
    case Proceed => true
    case _ => false
  }

  /** Thread `t` goes on and has not signalled yet; or something happens elsewhere that leaves the thread, the cache,
      the active table, and what the thread has recorded alone. */
  predicate Orderly(s: State, l: Label, t: nat) {
    && t < |s.threads| && Enabled(s, l) && !(s.threads[t].Stopping? && s.threads[t].stage == Sleep)
    && if Own(l, t) then GoesOn(s.threads[t], l.act) else Aside(s, Step(s, l), t)
  }

  predicate Aside(s: State, s': State, t: nat)
    requires t < |s.threads|
  {
    && t < |s'.threads| && s'.threads[t] == s.threads[t]
    && s'.debug.tables.active == s.debug.tables.active
    && s'.debug.cache == s.debug.cache && s'.debug.stops == s.debug.stops
    && (s.threads[t].Stopping? ==> s'.records == s.records)
  }

  predicate OrderlyRun(s: State, run: seq<Label>, t: nat)
    decreases |run|
  {
    run == [] || (Orderly(s, run[0], t) && OrderlyRun(Step(s, run[0]), run[1..], t))
  }

  /** The blocks the thread enters. */
  function Entered(run: seq<Label>, t: nat): seq<Event> {
    if run == [] then [] else EnteredBy(run[0], t) + Entered(run[1..], t)
  }

  function EnteredBy(l: Label, t: nat): seq<Event> {
    if Own(l, t) && l.act.EnterBlock? then [Enter(l.act.b)] else []
  }

  /** The number of blocks entered, and of instructions executed in the last one. */
  datatype Progress = Progress(index: nat, at: nat)

  function Onward(p: Progress, l: Label, t: nat): Progress {
    if !Own(l, t) then p
    else if l.act.EnterBlock? then Progress(p.index + 1, 0)
    else if l.act.Advance? then p.(at := p.at + 1)
    else p
  }

  function ProgressOf(p: Progress, run: seq<Label>, t: nat): Progress
    decreases |run|
  {
    if run == [] then p else ProgressOf(Onward(p, run[0], t), run[1..], t)
  }

  // What the instrumented program still does

  /** Its next stop, the ends the call that stops names, and what is left of the block behind it. */
  datatype Future = Future(run: Run, first: U64, last: U64, tail: seq<Item>)

  function AtStop(run: Run, from: seq<Item>): Future {
    if from == [] || from[0].App? then Future(run, 0, 0, []) else Future(run, from[0].start, from[0].end, from[1..])
  }

  function Ending(events: seq<Event>, index: nat, cache: Cache, active: map<U64, U64>, stops: set<EventType>): Future {
    AtStop(System(events, index, cache, active, stops), SystemStop(events, cache, active, stops))
  }

  function Going(tail: seq<Item>, p: Progress, cache: Cache, events: seq<Event>, active: map<U64, U64>,
                 stops: set<EventType>): Future
  {
    match RunItems(tail, p.at, active, stops, false)
    case Halt(at, e, left) => AtStop(Stop(p.index, at, e, left), FromStop(tail, active, stops))
    case Through(left, stale) => Ending(events, p.index + 1, if stale then map[] else cache, left, stops)
  }

  function Waiting(job: Job, tail: seq<Item>, p: Progress, cache: Cache, events: seq<Event>, active: map<U64, U64>,
                   stops: set<EventType>): Future
  {
    match job
    case Count(a, start, end) => Going([CountCall(a, start, end)] + tail, p, cache, events, active, stops)
    case Build(b) =>
      var items := Instrumented(b, active, stops);
      Going(items, p, cache[b := items], events, active, stops)
    case Loading(_) => Future(NoStop(active), 0, 0, [])
  }

  function Yet(s: State, t: nat, p: Progress, events: seq<Event>): Future
    requires t < |s.threads|
  {
    var active, stops, cache := s.debug.tables.active, s.debug.stops, s.debug.cache;
    match s.threads[t]
    case Running(tail) => Going(tail, p, cache, events, active, stops)
    case Blocked(job, tail) => Waiting(job, tail, p, cache, events, active, stops)
    case Owning(job, tail) => Waiting(job, tail, p, cache, events, active, stops)
    case Stopping(_, e, start, end, _, _, tail) => Future(Stop(p.index, p.at, e, active), start, end, tail)
    case Unlocking(stale, tail) => Going(tail, p, if stale.Some? then map[] else cache, events, active, stops)
    case Flushing(_, tail) => Going(tail, p, map[], events, active, stops)
  }

  // One step

  /** A flush that is due already makes no other difference. */
  lemma {:induction false} RunStale(tail: seq<Item>, at: nat, active: map<U64, U64>, stops: set<EventType>, stale: bool)
    ensures var r, s := RunItems(tail, at, active, stops, stale), RunItems(tail, at, active, stops, true);
      if r.Halt? then s == r else s == Through(r.active, true)
    decreases |tail|
  {
    if tail != [] {
      match tail[0]
      case App(_) => RunStale(tail[1..], at + 1, active, stops, stale);
      case RelevantCall(_, _) => RunStale(tail[1..], at, active, stops, stale);
      case CountCall(a, _, _) =>
        RunStale(tail[1..], at, Hit(active, a), stops, stale || HitOutcome(active, a) == Stale);
    }
  }

  lemma CallGoes(s: State, t: nat, p: Progress, events: seq<Event>)
    requires t < |s.threads| && AppEnabled(s, t, Call)
    ensures Yet(s, t, p, events) == Yet(StartCall(s, t), t, p, events)
  {
    var tail := s.threads[t].tail;
    assert [tail[0]] + tail[1..] == tail;
  }

  lemma EnterGoes(s: State, t: nat, b: Block, p: Progress, events: seq<Event>)
    requires t < |s.threads| && AppEnabled(s, t, EnterBlock(b)) && s.threads[t].tail == []
    ensures Yet(s, t, p, [Enter(b)] + events) == Yet(Protocol.Enter(s, t, b), t, Progress(p.index + 1, 0), events)
  {
    assert ([Enter(b)] + events)[1..] == events;
    var cache := s.debug.cache;
    assert b in cache ==> cache[b := cache[b]] == cache;
  }

  lemma CountGoes(s: State, t: nat, p: Progress, events: seq<Event>)
    requires t < |s.threads| && AppEnabled(s, t, Body) && s.threads[t].job.Count?
    ensures Yet(s, t, p, events) == Yet(CountBody(s, t), t, p, events)
  {
    var th := s.threads[t];
    var active := s.debug.tables.active;
    var call := CountCall(th.job.addr, th.job.start, th.job.end);
    assert ([call] + th.tail)[0] == call && ([call] + th.tail)[1..] == th.tail;
    RunStale(th.tail, p.at, Hit(active, th.job.addr), s.debug.stops, false);
  }

  lemma OwnGoes(s: State, t: nat, act: Action, p: Progress, events: seq<Event>)
    requires t < |s.threads| && AppEnabled(s, t, act) && GoesOn(s.threads[t], act)
    requires !(s.threads[t].Stopping? && s.threads[t].stage == Sleep)
    ensures var l := ThreadNext(t, act);
      Yet(s, t, p, EnteredBy(l, t) + events) == Yet(AppStep(s, t, act), t, Onward(p, l, t), events)
  {
    assert [] + events == events;
    match act
    case Call => CallGoes(s, t, p, events);
    case EnterBlock(b) => EnterGoes(s, t, b, p, events);
    case Body => if s.threads[t].job.Count? { CountGoes(s, t, p, events); }
    case _ =>
  }

  lemma StepGoes(s: State, l: Label, t: nat, p: Progress, events: seq<Event>)
    requires Orderly(s, l, t)
    ensures t < |Step(s, l).threads|
    ensures Yet(s, t, p, EnteredBy(l, t) + events) == Yet(Step(s, l), t, Onward(p, l, t), events)
  {
    if Own(l, t) {
      OwnGoes(s, t, l.act, p, events);
    } else {
      assert [] + events == events;
    }
  }

  // One request

  lemma {:induction false} RunGoes(s: State, run: seq<Label>, t: nat, p: Progress)
    requires t < |s.threads| && OrderlyRun(s, run, t)
    ensures IsRun(s, run) && t < |After(s, run).threads|
    ensures Yet(s, t, p, Entered(run, t)) == Yet(After(s, run), t, ProgressOf(p, run, t), [])
    decreases |run|
  {
    if run != [] {
      StepGoes(s, run[0], t, p, Entered(run[1..], t));
      RunGoes(Step(s, run[0]), run[1..], t, Onward(p, run[0], t));
    }
  }

  lemma {:induction false} OrderlyStraight(s: State, run: seq<Label>, t: nat)
    requires OrderlyRun(s, run, t)
    ensures forall i :: 0 <= i < |Entered(run, t)| ==>
              Entered(run, t)[i].Enter? && StraightLine(Entered(run, t)[i].b)
    decreases |run|
  {
    if run != [] { OrderlyStraight(Step(s, run[0]), run[1..], t); }
  }

  lemma EntersGranted(s: State, run: seq<Label>, t: nat)
    requires OrderlyRun(s, run, t)
    ensures Granted(Entered(run, t))
  {
    OrderlyStraight(s, run, t);
  }

  // What a stop records

  /** Once the thread has recorded its context, or its block, they stand. */
  predicate Recorded(s: State, t: nat)
    requires t < |s.threads|
  {
    var th := s.threads[t];
    th.Stopping? ==>
      && (th.stage != SetContext ==>
            s.records.context.Some? && s.records.context.value.event == th.event
              && s.records.context.value.call == th.call)
      && (th.stage == Signal || th.stage == Sleep ==>
            s.records.block == Some(BlockRecord(th.start, th.end, th.call)))
  }

  lemma RecordedKept(s: State, l: Label, t: nat)
    requires Orderly(s, l, t) && Recorded(s, t)
    ensures t < |Step(s, l).threads| && Recorded(Step(s, l), t)
  {
    if Own(l, t) {
      AppFrame(s, t, l.act);
      AppRecordMove(s, t, l.act);
    }
  }

  lemma {:induction false} RecordedAfter(s: State, run: seq<Label>, t: nat)
    requires t < |s.threads| && OrderlyRun(s, run, t) && Recorded(s, t)
    ensures IsRun(s, run) && t < |After(s, run).threads| && Recorded(After(s, run), t)
    decreases |run|
  {
    if run != [] {
      RecordedKept(s, run[0], t);
      RecordedAfter(Step(s, run[0]), run[1..], t);
    }
  }

  /** From a resume, in whatever block it was stopped before: when the thread comes to its next stop, the reference
      debugger has stopped after the same blocks, before the same instruction, with the same event and table, and both
      stand at the same place again; what the stop records is that event and the ends of the block the reference
      debugger is in. While the thread is between blocks, the reference debugger has not stopped and has the same
      table. */
  lemma RequestStops(s: State, run: seq<Label>, t: nat, at: Place)
    requires t < |s.threads| && s.threads[t].Running? && s.debug.cache == map[] && OrderlyRun(s, run, t)
    requires Fits(s.threads[t].tail, at, s.debug.tables.active.Keys)
    ensures IsRun(s, run) && t < |After(s, run).threads|
    ensures var e, p := After(s, run), ProgressOf(Progress(0, 0), run, t);
            var r := ReferenceFrom(at, Entered(run, t), s.debug.tables.active, s.debug.stops);
            var th, place := e.threads[t], PlaceFrom(at, Entered(run, t), r);
      && (th.Stopping? ==>
            && r == Stop(p.index, p.at, th.event, e.debug.tables.active)
            && Fits(th.tail, place, e.debug.tables.active.Keys) && th.start == place.first && th.end == place.last)
      && (th.Stopping? && th.stage != SetContext ==>
            e.records.context.Some? && e.records.context.value.event == r.event)
      && (th.Stopping? && (th.stage == Signal || th.stage == Sleep) ==>
            e.records.block == Some(BlockRecord(place.first, place.last, th.call)))
      && (th == Running([]) ==> r == NoStop(e.debug.tables.active))
  {
    var tail, events := s.threads[t].tail, Entered(run, t);
    var active, stops := s.debug.tables.active, s.debug.stops;
    RunGoes(s, run, t, Progress(0, 0));
    RecordedAfter(s, run, t);
    EntersGranted(s, run, t);
    ResumedAgrees(tail, at, events, active, stops);
    StopFromFits(tail, at, events, active, stops);
    var r, from := SystemFrom(tail, events, active, stops), StopFrom(tail, events, active, stops);
    assert Yet(s, t, Progress(0, 0), events) == AtStop(r, from);
    if r.Stop? { assert from[..1][0] == from[0]; }
  }
}
