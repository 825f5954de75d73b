/** What the statements of the protocol amount to when one request or one callback runs alone: the operations of the
    handlers and callbacks on the tables and the cache. */
module Operations {
  import opened Words
  import opened Types
  import opened Ordering
  import opened Resolve
  import opened Instrument
  import opened Tables
  import opened Activation
  import opened Protocol

  /** Between two requests. */
  predicate Resting(s: State) {
    s.server == Idle && s.mutex == None
  }

  /** `addBreakpoint` leaves the tables of `Add`, and the cache as it was. */
  lemma AddingAlone(s: State, bp: Breakpoint) returns (run: seq<Label>)
    requires Resting(s) && FreshBreakpoint(bp)
    ensures IsRun(s, run) && After(s, run) == WithTables(s, Add(s.debug.tables, s.debug.modules, bp).0)
  {
    var e := Step(s, RequestAdd(bp));
    if e.server.Idle? {
      run := [RequestAdd(bp)];
      assert IsRun(s, run) && After(s, run) == e by { One(s, RequestAdd(bp)); }
    } else {
      run := Two(s, RequestAdd(bp), ServerNext);
    }
  }

  /** `delBreakpoint` leaves the tables of `Delete`, and an empty cache exactly if it deleted an active breakpoint. */
  lemma DeletingAlone(s: State, bp: Breakpoint) returns (run: seq<Label>)
    requires Resting(s) && FreshBreakpoint(bp)
    ensures IsRun(s, run)
    ensures var e, t := After(s, run), Delete(s.debug.tables, s.debug.modules, bp).0;
      && Resting(e) && e.threads == s.threads && e.records == s.records && e.control == s.control
      && e.debug == s.debug.(
           tables := t, cache := if t.active == s.debug.tables.active then s.debug.cache else map[])
  {
    var e := Step(s, RequestDelete(bp));
    if e.server.Idle? {
      run := [RequestDelete(bp)];
      assert IsRun(s, run) && After(s, run) == e by { One(s, RequestDelete(bp)); }
    } else {
      run := Two(s, RequestDelete(bp), ServerNext);
    }
  }

  lemma One(s: State, l: Label)
    requires Enabled(s, l)
    ensures IsRun(s, [l]) && After(s, [l]) == Step(s, l)
  {
    assert [l][1..] == [];
  }

  lemma Two(s: State, l: Label, k: Label) returns (run: seq<Label>)
    requires Enabled(s, l) && Enabled(Step(s, l), k)
    ensures IsRun(s, run) && After(s, run) == Step(Step(s, l), k)
  {
    One(s, l);
    RunThen(s, [l], k);
    run := [l] + [k];
  }

  /** The thread runs, and nobody holds the mutex. */
  predicate Free(s: State, t: nat, tail: seq<Item>) {
    t < |s.threads| && s.threads[t] == Running(tail) && s.mutex == None && !s.control.suspended
  }

  /** A module load leaves the tables of `Load`, with the module among the loaded ones. */
  lemma LoadingAlone(a: State, s: State, t: nat, tail: seq<Item>, name: Bytes, m: Module) returns (e: State)
    requires Reaches(a, s) && Free(s, t, tail) && name !in s.debug.modules && 0 !in name
    requires AllResolve(s.debug.modules[name := m], name, s.debug.tables.deferred) && CacheAvoids(s, m)
    ensures Reaches(a, e) && Free(e, t, tail) && e.threads == s.threads && e.records == s.records
    ensures var mods: Modules := s.debug.modules[name := m];
      e.debug == s.debug.(modules := mods, tables := Load(s.debug.tables, mods, name))
  {
    e := Onwards(a, s, ThreadNext(t, StartLoad(name, m)));
    e := Onwards(a, e, ThreadNext(t, Acquire));
    assert CacheAvoids(e, m);
    e := Onwards(a, e, ThreadNext(t, Body));
    e := Onwards(a, e, ThreadNext(t, Release));
    assert e.threads == s.threads;
  }

  /** The end of a module load needs no lock and touches nothing but the modules. */
  lemma UnloadingAlone(a: State, s: State, t: nat, tail: seq<Item>, name: Bytes) returns (e: State)
    requires Reaches(a, s) && Free(s, t, tail) && name in s.debug.modules && !LoadInProgress(s, name)
    ensures Reaches(a, e) && e == WithModules(s, s.debug.modules - {name})
  {
    e := Onwards(a, s, ThreadNext(t, Unload(name)));
  }

  // Clean calls

  /** What a stop leaves: its event, the ends its call names, and the event set. */
  predicate Stopped(s: State, e: State, event: EventType, start: U64, end: U64) {
    && e.control == s.control.(signalled := true)
    && e.records.context.Some? && e.records.context.value.event == event
    && e.records.block.Some? && e.records.block.value.start == start && e.records.block.value.end == end
  }

  /** The four statements of `suspend_helper`; nobody suspends the thread. */
  lemma StoppingAlone(a: State, s: State, t: nat) returns (e: State)
    requires Reaches(a, s) && t < |s.threads| && !s.control.suspended
    requires s.threads[t].Stopping? && s.threads[t].stage == SetContext
    ensures Reaches(a, e) && e.debug == s.debug && e.mutex == s.mutex && e.server == s.server
    ensures Stopped(s, e, s.threads[t].event, s.threads[t].start, s.threads[t].end)
    ensures var th := s.threads[t];
      e.threads == s.threads[t := if th.underLock then Unlocking(None, th.tail) else Running(th.tail)]
  {
    e := Onwards(a, s, ThreadNext(t, Proceed));
    e := Onwards(a, e, ThreadNext(t, Proceed));
    e := Onwards(a, e, ThreadNext(t, Proceed));
    e := Onwards(a, e, ThreadNext(t, Proceed));
  }

  /** `relevant_block_clean_call (start, end)`. */
  lemma ReportingAlone(a: State, s: State, t: nat, tail: seq<Item>, start: U64, end: U64) returns (e: State)
    requires Reaches(a, s) && Free(s, t, [RelevantCall(start, end)] + tail)
    ensures Reaches(a, e) && Free(e, t, tail) && e.debug == s.debug
    ensures if RELEVANT_BLOCK in s.debug.stops then Stopped(s, e, RELEVANT_BLOCK, start, end)
            else e.records == s.records && e.control == s.control
  {
    e := Onwards(a, s, ThreadNext(t, Call));
    if e.threads[t].Stopping? { e := StoppingAlone(a, e, t); }
  }

  /** `update_fastforward_count (addr, start, end)`. */
  lemma CountingAlone(a: State, s: State, t: nat, tail: seq<Item>, addr: U64, start: U64, end: U64) returns (e: State)
    requires Reaches(a, s) && Free(s, t, [CountCall(addr, start, end)] + tail)
    ensures Reaches(a, e) && Free(e, t, tail)
    ensures var active := s.debug.tables.active;
      && e.debug == s.debug.(tables := s.debug.tables.(active := Hit(active, addr)),
                             cache := if addr in active then s.debug.cache else map[])
      && if HitOutcome(active, addr) == Fired && BREAKPOINT in s.debug.stops then Stopped(s, e, BREAKPOINT, start, end)
         else e.records == s.records && e.control == s.control
  {
    e := Onwards(a, s, ThreadNext(t, Call));
    e := Onwards(a, e, ThreadNext(t, Acquire));
    e := Counted(a, e, t);
    if e.threads[t].Stopping? { e := StoppingAlone(a, e, t); }
    e := Leaving(a, e, t, tail);
  }

  lemma Counted(a: State, s: State, t: nat) returns (e: State)
    requires Reaches(a, s) && t < |s.threads| && s.threads[t].Owning? && s.threads[t].job.Count?
    requires !s.control.suspended
    ensures Reaches(a, e) && e.control == s.control && e.records == s.records && |e.threads| == |s.threads|
    ensures var th, active := s.threads[t], s.debug.tables.active;
      && e.debug == s.debug.(tables := s.debug.tables.(active := Hit(active, th.job.addr)))
      && var u := e.threads[t];
         if HitOutcome(active, th.job.addr) == Fired && BREAKPOINT in s.debug.stops then
           && u.Stopping? && u.stage == SetContext && u.event == BREAKPOINT && u.underLock && u.tail == th.tail
           && u.start == th.job.start && u.end == th.job.end
         else u == Unlocking(if th.job.addr in active then None else Some(th.job.addr), th.tail)
  {
    e := Onwards(a, s, ThreadNext(t, Body));
  }

  lemma Leaving(a: State, s: State, t: nat, tail: seq<Item>) returns (e: State)
    requires Reaches(a, s) && t < |s.threads| && s.threads[t].Unlocking? && s.threads[t].tail == tail
    requires !s.control.suspended
    ensures Reaches(a, e) && Free(e, t, tail) && e.control == s.control && e.records == s.records
    ensures e.debug == if s.threads[t].stale.Some? then s.debug.(cache := map[]) else s.debug
  {
    e := Onwards(a, s, ThreadNext(t, Release));
    if e.threads[t].Flushing? { e := Onwards(a, e, ThreadNext(t, Flush)); }
  }
}
