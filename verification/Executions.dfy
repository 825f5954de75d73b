/** Breakpoint counts against executions of the instruction: every execution is counted, right before it happens, by
    the thread that is about to make it, except in a block entered before the breakpoint was added. */
module Executions {
  import opened Words
  import opened Types
  import opened Instrument
  import opened Tables
  import opened Protocol
  import opened ProtocolSafety
  import opened ProtocolRuns

  predicate AtInstr(th: Thread, a: U64) {
    th.tail != [] && IsInstr(th.tail[0], a)
  }

  /** The thread is in the count call for `a`, its count not yet taken. */
  predicate Counting(th: Thread, a: U64) {
    (th.Blocked? || th.Owning?) && th.job.Count? && th.job.addr == a
  }

  /** It waits for the block it enters. */
  predicate Building(th: Thread) {
    (th.Blocked? || th.Owning?) && th.job.Build?
  }

  /** It stands before an instruction at `a` it has been counted for. */
  predicate Standing(th: Thread, a: U64) {
    AtInstr(th, a) && !Counting(th, a) && !Building(th)
  }

  /** Whatever the thread still executes at `a` in its block is counted before. */
  predicate CountsAhead(th: Thread, a: U64) {
    Paired(th.tail, a) && (Counting(th, a) ==> AtInstr(th, a))
  }

  /** How many threads stand there. */
  function StandingIn(threads: seq<Thread>, a: U64): nat {
    if threads == [] then 0 else (if Standing(threads[0], a) then 1 else 0) + StandingIn(threads[1..], a)
  }

  lemma {:induction false} StandingUpdate(threads: seq<Thread>, t: nat, th: Thread, a: U64)
    requires t < |threads|
    ensures StandingIn(threads[t := th], a) ==
            StandingIn(threads, a) - (if Standing(threads[t], a) then 1 else 0) + (if Standing(th, a) then 1 else 0)
    decreases t
  {
    var next := threads[t := th];
    if t == 0 {
      assert next[1..] == threads[1..];
    } else {
      assert next[1..] == threads[1..][t - 1 := th];
      StandingUpdate(threads[1..], t - 1, th, a);
    }
  }

  /** The step executes an instruction at `a`. */
  predicate Executes(s: State, l: Label, a: U64) {
    l.ThreadNext? && l.t < |s.threads| && l.act.Advance? && AtInstr(s.threads[l.t], a)
  }

  /** The step leaves a block between the count and the instruction. */
  predicate Abandons(s: State, l: Label, a: U64) {
    l.ThreadNext? && l.t < |s.threads| && l.act.EnterBlock? && Standing(s.threads[l.t], a)
  }

  /** The step brings a thread before an instruction at `a` that no count call stands in front of. */
  predicate Misses(s: State, l: Label, a: U64) {
    && l.ThreadNext? && l.t < |s.threads| && (l.act.Advance? || l.act.Call?)
    && |s.threads[l.t].tail| > 1 && IsInstr(s.threads[l.t].tail[1], a) && !IsCount(s.threads[l.t].tail[0], a)
  }

  function Executed(s: State, run: seq<Label>, a: U64): nat
    requires IsRun(s, run)
    decreases |run|
  {
    if run == [] then 0 else (if Executes(s, run[0], a) then 1 else 0) + Executed(Step(s, run[0]), run[1..], a)
  }

  function Abandoned(s: State, run: seq<Label>, a: U64): nat
    requires IsRun(s, run)
    decreases |run|
  {
    if run == [] then 0 else (if Abandons(s, run[0], a) then 1 else 0) + Abandoned(Step(s, run[0]), run[1..], a)
  }

  function Missed(s: State, run: seq<Label>, a: U64): nat
    requires IsRun(s, run)
    decreases |run|
  {
    if run == [] then 0 else (if Misses(s, run[0], a) then 1 else 0) + Missed(Step(s, run[0]), run[1..], a)
  }

  // What every reachable state keeps

  predicate SettledThread(th: Thread, a: U64) {
    Even(th.tail, a) && (Counting(th, a) ==> AtInstr(th, a))
  }

  predicate SettledThreads(threads: seq<Thread>, a: U64) {
    forall t :: 0 <= t < |threads| ==> SettledThread(threads[t], a)
  }

  predicate SettledCache(cache: map<Block, seq<Item>>, a: U64) {
    forall b :: b in cache ==> Even(cache[b], a)
  }

  predicate Settled(s: State, a: U64) {
    SettledThreads(s.threads, a) && SettledCache(s.debug.cache, a)
  }

  /** What a step does to a thread's tail: nothing, a suffix, a cached block, or a new one. */
  predicate TailMove(s: State, th: Thread, th': Thread) {
    || (th'.tail == th.tail && (th'.Blocked? || th'.Owning? ==>
          !th'.job.Count? || ((th.Blocked? || th.Owning?) && th'.job == th.job)))
    || (th.tail != [] && th'.tail == th.tail[1..]
        && (th'.Blocked? ==> th'.job.Count? && IsCount(th.tail[0], th'.job.addr)) && !th'.Owning?)
    || (th'.Running? && exists b :: b in s.debug.cache && th'.tail == s.debug.cache[b])
    || ((th'.Blocked? ==> th'.job.Build?) && !th'.Owning? && th'.tail == [])
    || (th.Owning? && th.job.Build? && th'.Unlocking?
        && th'.tail == Instrumented(th.job.b, s.debug.tables.active, s.debug.stops))
  }

  lemma AppTailMove(s: State, t: nat, act: Action)
    requires t < |s.threads| && AppEnabled(s, t, act)
    ensures TailMove(s, s.threads[t], AppStep(s, t, act).threads[t])
  {
    if act.Body? { BodyTailMove(s, t); }
  }

  lemma BodyTailMove(s: State, t: nat)
    requires t < |s.threads| && AppEnabled(s, t, Body)
    ensures TailMove(s, s.threads[t], BodyStep(s, t).threads[t])
  {
  }

  lemma SettledMove(s: State, th: Thread, th': Thread, a: U64)
    requires Settled(s, a) && SettledThread(th, a) && TailMove(s, th, th')
    ensures SettledThread(th', a)
  {
    if th.tail != [] { TailEven(th.tail, a); }
    if th.Owning? && th.job.Build? { InstrumentedEven(th.job.b, s.debug.tables.active, s.debug.stops, a); }
  }

  lemma CacheMove(s: State, t: nat, act: Action, a: U64)
    requires SettledCache(s.debug.cache, a) && t < |s.threads| && AppEnabled(s, t, act)
    ensures SettledCache(AppStep(s, t, act).debug.cache, a)
  {
    if act.Body? && s.threads[t].job.Build? {
      InstrumentedEven(s.threads[t].job.b, s.debug.tables.active, s.debug.stops, a);
    }
  }

  lemma SettledKept(s: State, l: Label, a: U64)
    requires Settled(s, a) && Enabled(s, l)
    ensures Settled(Step(s, l), a)
  {
    if l.ThreadNext? {
      var s' := Step(s, l);
      AppFrame(s, l.t, l.act);
      AppTailMove(s, l.t, l.act);
      CacheMove(s, l.t, l.act, a);
      SettledMove(s, s.threads[l.t], s'.threads[l.t], a);
    }
  }

  lemma {:induction false} SettledAfter(s: State, run: seq<Label>, a: U64)
    requires Settled(s, a) && IsRun(s, run)
    ensures Settled(After(s, run), a)
    decreases |run|
  {
    if run != [] {
      SettledKept(s, run[0], a);
      SettledAfter(Step(s, run[0]), run[1..], a);
    }
  }

  /** In every reachable state, for every address: each tail and each cached block counts all its instructions there, or
      none; and a thread in a count call stands right before the instruction it counts. */
  lemma ReachableSettled(s: State, run: seq<Label>, a: U64)
    requires Init(s) && IsRun(s, run)
    ensures Settled(After(s, run), a)
  {
    SettledAfter(s, run, a);
  }

  // One step

  /** What one step of a thread does to its standing before `a`. */
  predicate StandingMove(th: Thread, th': Thread, a: U64, hit: bool, executes: bool, abandons: bool, misses: bool) {
    (if Standing(th', a) then 1 else 0) ==
    (if Standing(th, a) then 1 else 0) + (if hit then 1 else 0) + (if misses then 1 else 0)
    - (if executes then 1 else 0) - (if abandons then 1 else 0)
  }

  lemma BodyStanding(s: State, t: nat, a: U64)
    requires Invariant(s) && t < |s.threads| && AppEnabled(s, t, Body)
    requires a in s.debug.tables.active && SettledThread(s.threads[t], a)
    ensures StandingMove(s.threads[t], BodyStep(s, t).threads[t], a,
                         IsHit(s, ThreadNext(t, Body), a), false, false, false)
  {
    var th := s.threads[t];
    if th.job.Build? {
      var active, stops := s.debug.tables.active, s.debug.stops;
      InstrumentedCovers(th.job.b, active, stops);
      CoveredPaired(Instrumented(th.job.b, active, stops), th.job.b, active, stops, a);
    }
  }

  lemma EnterStanding(s: State, t: nat, b: Block, a: U64)
    requires Invariant(s) && t < |s.threads| && AppEnabled(s, t, EnterBlock(b)) && a in s.debug.tables.active
    ensures StandingMove(s.threads[t], Enter(s, t, b).threads[t], a,
                         false, false, Standing(s.threads[t], a), false)
  {
    if b in s.debug.cache {
      CoveredPaired(s.debug.cache[b], b, s.debug.tables.active, s.debug.stops, a);
    }
  }

  lemma TailStanding(s: State, t: nat, act: Action, a: U64)
    requires t < |s.threads| && AppEnabled(s, t, act) && (act.Advance? || act.Call?) && SettledThread(s.threads[t], a)
    ensures var l := ThreadNext(t, act);
      StandingMove(s.threads[t], AppStep(s, t, act).threads[t], a, false, Executes(s, l, a), false, Misses(s, l, a))
  {
    TailEven(s.threads[t].tail, a);
  }

  /** Steps that take nothing off the tail. */
  lemma QuietStanding(s: State, t: nat, act: Action, a: U64)
    requires t < |s.threads| && AppEnabled(s, t, act)
    requires !act.Body? && !act.EnterBlock? && !act.Advance? && !act.Call?
    ensures StandingMove(s.threads[t], AppStep(s, t, act).threads[t], a, false, false, false, false)
  {
  }

  lemma ThreadStanding(s: State, t: nat, act: Action, a: U64)
    requires Invariant(s) && t < |s.threads| && AppEnabled(s, t, act)
    requires a in s.debug.tables.active && SettledThread(s.threads[t], a)
    ensures var l := ThreadNext(t, act);
      StandingMove(s.threads[t], AppStep(s, t, act).threads[t], a,
                   IsHit(s, l, a), Executes(s, l, a), Abandons(s, l, a), Misses(s, l, a))
  {
    match act
    case Body => BodyStanding(s, t, a);
    case EnterBlock(b) => EnterStanding(s, t, b, a);
    case Advance => TailStanding(s, t, act, a);
    case Call => TailStanding(s, t, act, a);
    case _ => QuietStanding(s, t, act, a);
  }

  lemma StepStanding(s: State, l: Label, a: U64)
    requires Invariant(s) && Enabled(s, l) && a in s.debug.tables.active && SettledThreads(s.threads, a)
    ensures StandingIn(Step(s, l).threads, a)
            + (if Executes(s, l, a) then 1 else 0) + (if Abandons(s, l, a) then 1 else 0)
         == StandingIn(s.threads, a) + (if IsHit(s, l, a) then 1 else 0) + (if Misses(s, l, a) then 1 else 0)
  {
    if l.ThreadNext? {
      var s' := Step(s, l);
      AppFrame(s, l.t, l.act);
      ThreadStanding(s, l.t, l.act, a);
      assert s'.threads == s.threads[l.t := s'.threads[l.t]];
      StandingUpdate(s.threads, l.t, s'.threads[l.t], a);
    }
  }

  // Whole runs

  /** Over any run that leaves a breakpoint active, from any reachable state and with any number of threads: its hits
      and the instructions reached uncounted are the executions, the threads come to stand right before one, and the
      blocks left there. */
  lemma {:induction false} HitsAreExecutions(s: State, run: seq<Label>, a: U64)
    requires Invariant(s) && Settled(s, a) && IsRun(s, run) && LeavesInPlace(s, run, a)
    requires a in s.debug.tables.active && a in After(s, run).debug.tables.active
    ensures Hits(s, run, a) + Missed(s, run, a) + StandingIn(s.threads, a)
         == Executed(s, run, a) + Abandoned(s, run, a) + StandingIn(After(s, run).threads, a)
    decreases |run|
  {
    if run != [] {
      var s' := Step(s, run[0]);
      StepStanding(s, run[0], a);
      InvariantKept(s, run[0]);
      SettledKept(s, run[0], a);
      if a !in s'.debug.tables.active { StaysAway(s', run[1..], a); }
      HitsAreExecutions(s', run[1..], a);
    }
  }

  /** So a breakpoint left in place fires right before an execution, and which one is determined: the next count fires
      exactly if, of the executions its count names, all but one have happened, are standing, were left or were
      missed. */
  lemma FiresBeforeExecution(s: State, run: seq<Label>, l: Label, a: U64)
    requires Invariant(s) && Settled(s, a) && IsRun(s, run) && LeavesInPlace(s, run, a)
    requires a in s.debug.tables.active && a in After(s, run).debug.tables.active
    requires Enabled(After(s, run), l) && IsHit(After(s, run), l, a)
    ensures var n, e := Remaining(s.debug.tables.active, a), After(s, run);
            var reached := Executed(s, run, a) + Abandoned(s, run, a) + StandingIn(e.threads, a);
            var uncounted := Missed(s, run, a) + StandingIn(s.threads, a);
      && reached < n + uncounted
      && (HitOutcome(e.debug.tables.active, a) == Fired <==> reached == n + uncounted - 1)
      && AtInstr(e.threads[l.t], a)
  {
    HitsAreExecutions(s, run, a);
    FiresOnExactHit(s, run, a);
    SettledAfter(s, run, a);
  }

  // When nothing is missed

  predicate AllCountAhead(threads: seq<Thread>, a: U64) {
    forall t :: 0 <= t < |threads| ==> CountsAhead(threads[t], a)
  }

  lemma CountsAheadMove(s: State, t: nat, act: Action, a: U64)
    requires Invariant(s) && t < |s.threads| && AppEnabled(s, t, act)
    requires a in s.debug.tables.active && CountsAhead(s.threads[t], a)
    ensures CountsAhead(AppStep(s, t, act).threads[t], a) && !Misses(s, ThreadNext(t, act), a)
  {
    match act
    case EnterBlock(b) => EnterCountsAhead(s, t, b, a);
    case Body => BodyCountsAhead(s, t, a);
    case Advance => TailCountsAhead(s, t, act, a);
    case Call => TailCountsAhead(s, t, act, a);
    case _ => QuietCountsAhead(s, t, act, a);
  }

  lemma EnterCountsAhead(s: State, t: nat, b: Block, a: U64)
    requires Invariant(s) && t < |s.threads| && AppEnabled(s, t, EnterBlock(b)) && a in s.debug.tables.active
    ensures CountsAhead(Enter(s, t, b).threads[t], a)
  {
    if b in s.debug.cache {
      CoveredPaired(s.debug.cache[b], b, s.debug.tables.active, s.debug.stops, a);
    }
  }

  lemma TailCountsAhead(s: State, t: nat, act: Action, a: U64)
    requires t < |s.threads| && AppEnabled(s, t, act) && (act.Advance? || act.Call?) && CountsAhead(s.threads[t], a)
    ensures CountsAhead(AppStep(s, t, act).threads[t], a) && !Misses(s, ThreadNext(t, act), a)
  {
    TailPaired(s.threads[t].tail, a);
  }

  lemma QuietCountsAhead(s: State, t: nat, act: Action, a: U64)
    requires t < |s.threads| && AppEnabled(s, t, act) && CountsAhead(s.threads[t], a)
    requires !act.Body? && !act.EnterBlock? && !act.Advance? && !act.Call?
    ensures CountsAhead(AppStep(s, t, act).threads[t], a)
  {
  }

  lemma BodyCountsAhead(s: State, t: nat, a: U64)
    requires Invariant(s) && t < |s.threads| && AppEnabled(s, t, Body)
    requires a in s.debug.tables.active && CountsAhead(s.threads[t], a)
    ensures CountsAhead(BodyStep(s, t).threads[t], a)
  {
    var th := s.threads[t];
    if th.job.Build? {
      var active, stops := s.debug.tables.active, s.debug.stops;
      InstrumentedCovers(th.job.b, active, stops);
      CoveredPaired(Instrumented(th.job.b, active, stops), th.job.b, active, stops, a);
    }
  }

  /** If every thread counts ahead, nothing is missed and every thread goes on counting ahead. */
  lemma {:induction false} NothingMissed(s: State, run: seq<Label>, a: U64)
    requires Invariant(s) && IsRun(s, run) && LeavesInPlace(s, run, a) && AllCountAhead(s.threads, a)
    requires a in s.debug.tables.active && a in After(s, run).debug.tables.active
    ensures Missed(s, run, a) == 0 && AllCountAhead(After(s, run).threads, a)
    decreases |run|
  {
    if run != [] {
      var l, s' := run[0], Step(s, run[0]);
      if l.ThreadNext? {
        AppFrame(s, l.t, l.act);
        CountsAheadMove(s, l.t, l.act, a);
      }
      InvariantKept(s, l);
      if a !in s'.debug.tables.active { StaysAway(s', run[1..], a); }
      NothingMissed(s', run[1..], a);
    }
  }

  /** A block that holds neither the instruction nor a count call for it counts ahead: nothing of it is missed. */
  lemma ElsewhereCountsAhead(th: Thread, a: U64)
    requires !Counting(th, a) && forall i :: i in th.tail ==> !IsInstr(i, a) && !IsCount(i, a)
    ensures CountsAhead(th, a) && !Standing(th, a)
  {
  }
}
