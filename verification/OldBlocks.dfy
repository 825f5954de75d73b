/** Threads inside a block when a breakpoint in it becomes active: exactly when one of its instructions can be reached
    uncounted, and a run in which it is. */
module OldBlocks {
  import opened Words
  import opened Types
  import opened Ordering
  import opened Resolve
  import opened Instrument
  import opened Tables
  import opened Protocol
  import opened ProtocolSafety
  import opened ProtocolRuns
  import opened Executions

  /** From `s` to `e` with the breakpoint at `a` in place and never counted, `misses` arrivals at it and `executions` of
      it. */
  ghost predicate Passes(s: State, e: State, a: U64, misses: nat, executions: nat) {
    exists run :: PassesBy(s, run, e, a, misses, executions)
  }

  ghost predicate PassesBy(s: State, run: seq<Label>, e: State, a: U64, misses: nat, executions: nat) {
    && IsRun(s, run) && LeavesInPlace(s, run, a) && After(s, run) == e
    && Hits(s, run, a) == 0 && Missed(s, run, a) == misses && Executed(s, run, a) == executions
  }

  lemma {:induction false} PassesSnoc(
      s: State, run: seq<Label>, e: State, a: U64, misses: nat, executions: nat, l: Label)
    requires PassesBy(s, run, e, a, misses, executions)
    requires Enabled(e, l) && !Replaces(e, l, a) && !IsHit(e, l, a)
    ensures PassesBy(s, run + [l], Step(e, l), a,
                     misses + (if Misses(e, l, a) then 1 else 0), executions + (if Executes(e, l, a) then 1 else 0))
    decreases |run|
  {
    if run == [] {
      assert run + [l] == [l] && [l][1..] == [];
    } else {
      var head, s' := run[0], Step(s, run[0]);
      assert (run + [l])[1..] == run[1..] + [l];
      PassesSnoc(s', run[1..], e, a, misses - (if Misses(s, head, a) then 1 else 0),
                 executions - (if Executes(s, head, a) then 1 else 0), l);
    }
  }

  lemma PassesNext(s: State, e: State, a: U64, misses: nat, executions: nat, l: Label) returns (e': State)
    requires Passes(s, e, a, misses, executions)
    requires Enabled(e, l) && !Replaces(e, l, a) && !IsHit(e, l, a)
    ensures e' == Step(e, l)
    ensures Passes(s, e', a,
                   misses + (if Misses(e, l, a) then 1 else 0), executions + (if Executes(e, l, a) then 1 else 0))
  {
    var run :| PassesBy(s, run, e, a, misses, executions);
    PassesSnoc(s, run, e, a, misses, executions, l);
    e' := Step(e, l);
  }

  // Walking through a tail

  /** Thread `t` runs with what is left of its block, nobody holds the mutex, and the breakpoint is active. */
  predicate Walking(e: State, t: nat, tail: seq<Item>, a: U64) {
    && !e.control.suspended && e.mutex == None && t < |e.threads| && e.threads[t] == Running(tail)
    && a in e.debug.tables.active
  }

  lemma PassInstr(s: State, e: State, t: nat, tail: seq<Item>, a: U64, m: nat, x: nat) returns (e': State)
    requires Passes(s, e, a, m, x) && Walking(e, t, tail, a) && tail != [] && tail[0].App?
    ensures Walking(e', t, tail[1..], a)
    ensures Passes(s, e', a, m + (if |tail| > 1 && IsInstr(tail[1], a) then 1 else 0),
                   x + (if IsInstr(tail[0], a) then 1 else 0))
  {
    e' := PassesNext(s, e, a, m, x, ThreadNext(t, Advance));
  }

  /** The four statements of `suspend_helper`; nobody suspends the thread. */
  lemma PassStop(s: State, e: State, t: nat, a: U64, m: nat, x: nat) returns (e': State)
    requires Passes(s, e, a, m, x) && !e.control.suspended && t < |e.threads|
    requires e.threads[t].Stopping? && e.threads[t].stage == SetContext && a in e.debug.tables.active
    ensures Passes(s, e', a, m, x) && !e'.control.suspended && |e'.threads| == |e.threads| && e'.mutex == e.mutex
    ensures e'.debug == e.debug
    ensures var th := e.threads[t];
      e'.threads[t] == if th.underLock then Unlocking(None, th.tail) else Running(th.tail)
  {
    e' := PassesNext(s, e, a, m, x, ThreadNext(t, Proceed));
    e' := PassesNext(s, e', a, m, x, ThreadNext(t, Proceed));
    e' := PassesNext(s, e', a, m, x, ThreadNext(t, Proceed));
    e' := PassesNext(s, e', a, m, x, ThreadNext(t, Proceed));
  }

  lemma PassReport(s: State, e: State, t: nat, tail: seq<Item>, a: U64, m: nat, x: nat) returns (e': State)
    requires Passes(s, e, a, m, x) && Walking(e, t, tail, a) && tail != [] && tail[0].RelevantCall?
    ensures Walking(e', t, tail[1..], a)
    ensures Passes(s, e', a, m + (if |tail| > 1 && IsInstr(tail[1], a) then 1 else 0), x)
  {
    e' := PassesNext(s, e, a, m, x, ThreadNext(t, Call));
    if e'.threads[t].Stopping? {
      e' := PassStop(s, e', t, a, m + (if |tail| > 1 && IsInstr(tail[1], a) then 1 else 0), x);
    }
  }

  lemma PassCount(s: State, e: State, t: nat, tail: seq<Item>, a: U64, m: nat, x: nat) returns (e': State)
    requires Passes(s, e, a, m, x) && Walking(e, t, tail, a)
    requires tail != [] && tail[0].CountCall? && !IsCount(tail[0], a)
    ensures Walking(e', t, tail[1..], a)
    ensures Passes(s, e', a, m + (if |tail| > 1 && IsInstr(tail[1], a) then 1 else 0), x)
  {
    var m' := m + if |tail| > 1 && IsInstr(tail[1], a) then 1 else 0;
    e' := PassBody(s, e, t, tail, a, m, x);
    if e'.threads[t].Stopping? { e' := PassStop(s, e', t, a, m', x); }
    e' := PassUnlock(s, e', t, tail[1..], a, m', x);
  }

  lemma PassBody(s: State, e: State, t: nat, tail: seq<Item>, a: U64, m: nat, x: nat) returns (e': State)
    requires Passes(s, e, a, m, x) && Walking(e, t, tail, a)
    requires tail != [] && tail[0].CountCall? && !IsCount(tail[0], a)
    ensures Passes(s, e', a, m + (if |tail| > 1 && IsInstr(tail[1], a) then 1 else 0), x)
    ensures !e'.control.suspended && t < |e'.threads| && a in e'.debug.tables.active && e'.threads[t].tail == tail[1..]
    ensures var th := e'.threads[t]; th.Unlocking? || (th.Stopping? && th.stage == SetContext && th.underLock)
  {
    var m' := m + if |tail| > 1 && IsInstr(tail[1], a) then 1 else 0;
    e' := PassesNext(s, e, a, m, x, ThreadNext(t, Call));
    e' := PassesNext(s, e', a, m', x, ThreadNext(t, Acquire));
    e' := PassHit(s, e', t, a, m', x);
  }

  lemma PassHit(s: State, e: State, t: nat, a: U64, m: nat, x: nat) returns (e': State)
    requires Passes(s, e, a, m, x) && !e.control.suspended && t < |e.threads| && a in e.debug.tables.active
    requires e.threads[t].Owning? && e.threads[t].job.Count? && e.threads[t].job.addr != a
    ensures Passes(s, e', a, m, x) && !e'.control.suspended && t < |e'.threads| && a in e'.debug.tables.active
    ensures e'.threads[t].tail == e.threads[t].tail
    ensures var th := e'.threads[t]; th.Unlocking? || (th.Stopping? && th.stage == SetContext && th.underLock)
  {
    e' := PassesNext(s, e, a, m, x, ThreadNext(t, Body));
  }

  lemma PassUnlock(s: State, e: State, t: nat, tail: seq<Item>, a: U64, m: nat, x: nat) returns (e': State)
    requires Passes(s, e, a, m, x) && !e.control.suspended && t < |e.threads| && a in e.debug.tables.active
    requires e.threads[t].Unlocking? && e.threads[t].tail == tail
    ensures Walking(e', t, tail, a) && Passes(s, e', a, m, x)
  {
    e' := PassesNext(s, e, a, m, x, ThreadNext(t, Release));
    if e'.threads[t].Flushing? { e' := PassesNext(s, e', a, m, x, ThreadNext(t, Flush)); }
  }

  lemma PassItem(s: State, e: State, t: nat, tail: seq<Item>, a: U64, m: nat, x: nat) returns (e': State)
    requires Passes(s, e, a, m, x) && Walking(e, t, tail, a) && tail != [] && !IsCount(tail[0], a)
    ensures Walking(e', t, tail[1..], a)
    ensures Passes(s, e', a, m + (if |tail| > 1 && IsInstr(tail[1], a) then 1 else 0),
                   x + (if IsInstr(tail[0], a) then 1 else 0))
  {
    match tail[0]
    case App(_) => e' := PassInstr(s, e, t, tail, a, m, x);
    case RelevantCall(_, _) => e' := PassReport(s, e, t, tail, a, m, x);
    case CountCall(_, _, _) => e' := PassCount(s, e, t, tail, a, m, x);
  }

  /** Whatever else stands in front of it, the thread can reach and execute the instruction at `k` uncounted. */
  lemma {:induction false} PassTail(s: State, e: State, t: nat, tail: seq<Item>, k: nat, a: U64, m: nat, x: nat)
    returns (e': State, m': nat, x': nat)
    requires Passes(s, e, a, m, x) && Walking(e, t, tail, a)
    requires k < |tail| && IsInstr(tail[k], a) && Uncounted(tail, a)
    ensures Passes(s, e', a, m', x') && a in e'.debug.tables.active
    ensures x' > x && m' >= m && (k > 0 ==> m' > m)
    decreases k
  {
    m' := m + if |tail| > 1 && IsInstr(tail[1], a) then 1 else 0;
    x' := x + if IsInstr(tail[0], a) then 1 else 0;
    e' := PassItem(s, e, t, tail, a, m, x);
    if k > 0 {
      assert forall j :: 0 <= j < |tail[1..]| ==> tail[1..][j] == tail[j + 1];
      e', m', x' := PassTail(s, e', t, tail[1..], k - 1, a, m', x');
    }
  }

  // Exactly when

  /** The tail has an instruction at `a` that no count call for it stands directly in front of. */
  predicate Exposed(tail: seq<Item>, a: U64) {
    exists k :: 0 <= k < |tail| && IsInstr(tail[k], a) && !(k > 0 && IsCount(tail[k - 1], a))
  }

  /** Some run that leaves the breakpoint active executes its instruction more often than it counts it. */
  ghost predicate CanMiss(s: State, a: U64) {
    exists run :: IsRun(s, run) && LeavesInPlace(s, run, a) && a in After(s, run).debug.tables.active
                  && Executed(s, run, a) > Hits(s, run, a)
  }

  lemma ExposedPasses(s: State, t: nat, a: U64)
    requires Settled(s, a) && t < |s.threads| && s.threads[t].Running? && Exposed(s.threads[t].tail, a)
    requires !s.control.suspended && s.mutex == None && a in s.debug.tables.active
    ensures CanMiss(s, a)
  {
    var tail := s.threads[t].tail;
    assert PassesBy(s, [], s, a, 0, 0);
    var e: State, x: nat;
    if IsInstr(tail[0], a) {
      x := 1;
      e := PassInstr(s, s, t, tail, a, 0, 0);
      var m := if |tail| > 1 && IsInstr(tail[1], a) then 1 else 0;
      var run :| PassesBy(s, run, e, a, m, 1);
    } else {
      var k :| 0 <= k < |tail| && IsInstr(tail[k], a) && !(k > 0 && IsCount(tail[k - 1], a));
      var m;
      e, m, x := PassTail(s, s, t, tail, k, a, 0, 0);
      var run :| PassesBy(s, run, e, a, m, x);
    }
  }

  /** A thread that is not exposed counts ahead and stands before no instruction uncounted. */
  lemma NotExposed(th: Thread, a: U64)
    requires th.Running? && SettledThread(th, a) && !Exposed(th.tail, a)
    ensures CountsAhead(th, a) && !Standing(th, a)
  {
  }

  lemma {:induction false} NobodyStands(threads: seq<Thread>, a: U64)
    requires forall t :: 0 <= t < |threads| ==> !Standing(threads[t], a)
    ensures StandingIn(threads, a) == 0
  {
    if threads != [] { NobodyStands(threads[1..], a); }
  }

  /** In every reachable state in which the program runs, nobody holds the mutex, and the threads outside their
      blocks' code have nothing at `a` ahead but what is counted: an active breakpoint at `a` can be missed exactly if
      some thread is in a block with an instruction at `a` that no count call for it stands directly in front of. */
  lemma MissedExactly(s: State, before: seq<Label>, a: U64)
    requires Init(s) && IsRun(s, before)
    requires var e := After(s, before);
      && !e.control.suspended && e.mutex == None && a in e.debug.tables.active
      && forall t :: 0 <= t < |e.threads| ==>
           e.threads[t].Running? || (CountsAhead(e.threads[t], a) && !Standing(e.threads[t], a))
    ensures var e := After(s, before);
      CanMiss(e, a) <==> exists t :: 0 <= t < |e.threads| && e.threads[t].Running? && Exposed(e.threads[t].tail, a)
  {
    var e := After(s, before);
    ReachableSettled(s, before, a);
    InvariantInit(s);
    InvariantAfter(s, before);
    if t :| 0 <= t < |e.threads| && e.threads[t].Running? && Exposed(e.threads[t].tail, a) {
      ExposedPasses(e, t, a);
    } else {
      forall t | 0 <= t < |e.threads| ensures CountsAhead(e.threads[t], a) && !Standing(e.threads[t], a) {
        if e.threads[t].Running? { NotExposed(e.threads[t], a); }
      }
      NobodyStands(e.threads, a);
      forall run | IsRun(e, run) && LeavesInPlace(e, run, a) && a in After(e, run).debug.tables.active
        ensures Executed(e, run, a) <= Hits(e, run, a)
      {
        NothingMissed(e, run, a);
        HitsAreExecutions(e, run, a);
      }
    }
  }

  // A run in which it happens

  /** A thread enters a block not built yet, with nothing in it to count, and is stopped at its beginning. */
  lemma StoppedAtBlock(s: State, e: State, b: Block) returns (e': State)
    requires Reaches(s, e) && StraightLine(b) && e.server.ExecWait? && !e.control.suspended && e.mutex == None
    requires |e.threads| > 0 && e.threads[0].Running? && e.debug.cache == map[] && e.debug.stops == {RELEVANT_BLOCK}
    requires e.debug.tables.active == map[]
    ensures Reaches(s, e') && e'.server == e.server && e'.control == e.control.(signalled := true) && e'.mutex == None
    ensures e'.records.context.Some? && e'.debug.tables == e.debug.tables && e'.debug.modules == e.debug.modules
    ensures e'.threads == e.threads[0 := Running(Weave(b, {}, First(b), Last(b)))]
  {
    e' := Onwards(s, e, ThreadNext(0, EnterBlock(b)));
    e' := Onwards(s, e', ThreadNext(0, Acquire));
    e' := Onwards(s, e', ThreadNext(0, Body));
    e' := Onwards(s, e', ThreadNext(0, Release));
    var w := Weave(b, {}, First(b), Last(b));
    assert e'.threads[0] == Running([RelevantCall(First(b), Last(b))] + w);
    e' := Reporting(s, e', w);
    assert e'.threads == e.threads[0 := Running(w)];
  }

  lemma Reporting(s: State, e: State, w: seq<Item>) returns (e': State)
    requires Reaches(s, e) && !e.control.suspended && |e.threads| > 0 && e.debug.stops == {RELEVANT_BLOCK}
    requires e.threads[0].Running? && e.threads[0].tail != [] && e.threads[0].tail[0].RelevantCall?
    requires e.threads[0].tail[1..] == w
    ensures Reaches(s, e') && e'.server == e.server && e'.control == e.control.(signalled := true)
    ensures e'.mutex == e.mutex && e'.records.context.Some? && e'.debug == e.debug
    ensures e'.threads == e.threads[0 := Running(w)]
  {
    e' := Onwards(s, e, ThreadNext(0, Call));
    e' := Onwards(s, e', ThreadNext(0, Proceed));
    e' := Onwards(s, e', ThreadNext(0, Proceed));
    e' := Onwards(s, e', ThreadNext(0, Proceed));
    e' := Onwards(s, e', ThreadNext(0, Proceed));
  }

  /** The request returns, the threads doing nothing. */
  lemma Returning(s: State, e: State) returns (e': State)
    requires Reaches(s, e) && e.server.ExecWait? && e.control.signalled && !e.control.params && e.records.context.Some?
    requires forall t :: 0 <= t < |e.threads| ==> Safe(e.threads[t])
    ensures Reaches(s, e') && e'.server.Idle? && e'.control == Control(true, true, false)
    ensures e'.mutex == e.mutex && e'.threads == e.threads && e'.debug == e.debug
  {
    e' := Onwards(s, e, ServerNext);
    e' := Onwards(s, e', ServerNext);
    e' := Onwards(s, e', ServerNext);
    e' := Onwards(s, e', ServerNext);
    e' := Onwards(s, e', ServerNext);
  }

  lemma Adding(s: State, e: State, a: U64, count: I64) returns (e': State)
    requires Reaches(s, e) && e.server.Idle? && e.mutex == None && a !in e.debug.tables.active
    ensures Reaches(s, e') && e'.server.Idle? && e'.control == e.control && e'.mutex == None && e'.threads == e.threads
    ensures a in e'.debug.tables.active
  {
    UnsignedOfSigned(a);
    e' := Onwards(s, e, RequestAdd(Breakpoint(true, Absolute(AsI64(a)), true, count)));
    e' := Onwards(s, e', ServerNext);
  }

  /** From every start: stop at any straight-line block, add a breakpoint at any instruction of it, run again. The
      thread can then execute that instruction uncounted. */
  lemma AddedInStoppedBlock(s: State, b: Block, i: nat, count: I64) returns (e: State)
    requires Init(s) && |s.threads| > 0 && StraightLine(b) && i < |b|
    ensures Reaches(s, e) && b[i].pc in e.debug.tables.active && !e.control.suspended && CanMiss(e, b[i].pc)
  {
    assert IsRun(s, []) && After(s, []) == s;
    e := Resuming(s, s, {RELEVANT_BLOCK});
    e := Onwards(s, e, ServerNext);
    e := StoppedAtBlock(s, e, b);
    e := Returning(s, e);
    e := Adding(s, e, b[i].pc, count);
    e := Resuming(s, e, {BREAKPOINT});
    BareExposed(b, First(b), Last(b), i);
    var run :| IsRun(s, run) && After(s, run) == e;
    ReachableSettled(s, run, b[i].pc);
    ExposedPasses(e, 0, b[i].pc);
  }

  lemma BareExposed(instrs: seq<Instr>, start: U64, end: U64, i: nat)
    requires i < |instrs|
    ensures |Weave(instrs, {}, start, end)| == |instrs| && Weave(instrs, {}, start, end)[i] == App(instrs[i])
    ensures Uncounted(Weave(instrs, {}, start, end), instrs[i].pc)
    ensures Exposed(Weave(instrs, {}, start, end), instrs[i].pc)
  {
    BareItems(instrs, start, end);
    var w := Weave(instrs, {}, start, end);
    assert IsInstr(w[i], instrs[i].pc) && !(i > 0 && IsCount(w[i - 1], instrs[i].pc));
  }

  lemma {:induction false} BareItems(instrs: seq<Instr>, start: U64, end: U64)
    ensures var w := Weave(instrs, {}, start, end);
      |w| == |instrs| && forall i :: 0 <= i < |w| ==> w[i] == App(instrs[i])
  {
    if instrs != [] { BareItems(instrs[1..], start, end); }
  }
}
