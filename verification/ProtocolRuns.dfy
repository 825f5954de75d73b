/** The guarantees of the protocol over whole runs with any number of application threads. */
module ProtocolRuns {
  import opened Words
  import opened Types
  import opened Ordering
  import opened Resolve
  import opened Instrument
  import opened Tables
  import opened Protocol
  import opened ProtocolSafety
  import Activation

  /** The assertions of the suspend and resume functions never fail; between requests the program is suspended and
      `suspend_params` says so; and until the error exit is taken the mutex is free during every suspension. */
  lemma SuspensionAlternates(s: State, run: seq<Label>)
    requires Init(s) && IsRun(s, run)
    ensures var e := After(s, run);
      && e.server != AssertFailed
      && (e.server.Idle? ==> e.control.params && e.control.suspended)
      && (e.server.ExecClearContext? ==> e.control.params) && (e.server.ExecSetParams? ==> !e.control.params)
      && (e.control.suspended && !e.history.errored ==> e.mutex == None)
  {
    InvariantInit(s);
    InvariantAfter(s, run);
    if After(s, run).control.suspended && !After(s, run).history.errored { FreeWhileSuspended(After(s, run)); }
  }

  /** Whenever application threads run, every cached block instruments all its active instructions, and starts by
      reporting itself when relevant blocks are asked for. */
  lemma CachedBlocksCovered(s: State, run: seq<Label>)
    requires Init(s) && IsRun(s, run)
    ensures var e := After(s, run);
      !e.control.suspended ==>
        forall b :: b in e.debug.cache ==> Covers(e.debug.cache[b], b, e.debug.tables.active, e.debug.stops)
  {
    InvariantInit(s);
    InvariantAfter(s, run);
  }

  /** No deferred key names a loaded module, except while a thread is in the load callback of that module; and what
      `addBreakpoint` resolved without the mutex still holds when it takes it. */
  lemma DeferredSeparated(s: State, run: seq<Label>)
    requires Init(s) && IsRun(s, run)
    ensures var e := After(s, run);
      && (forall d :: d in e.debug.tables.deferred && !LoadInProgress(e, d.key.modulename) ==>
        d.key.modulename !in e.debug.modules)
      && (e.server.Adding? ==> e.server.resolved == ToAbsAddr(e.debug.modules, e.server.bp.addr))
      && Valid(e.debug.tables)
  {
    InvariantInit(s);
    InvariantAfter(s, run);
  }

  /** With breakpoint stops only, whenever the mutex is free the stopped context and block are both absent or both
      from the same clean call (outside the server's own two assignments that clear them). */
  lemma StopRecordsAgree(s: State, run: seq<Label>)
    requires Init(s) && IsRun(s, run)
    ensures var e := After(s, run); OnlyBreakpoints(e) && e.mutex == None ==> Agree(e)
  {
    InvariantInit(s);
    InvariantAfter(s, run);
  }

  // One request

  predicate IsRequest(l: Label) {
    l.RequestAdd? || l.RequestDelete? || l.RequestExec?
  }

  predicate NoRequests(run: seq<Label>) {
    forall i :: 0 <= i < |run| ==> !IsRequest(run[i])
  }

  predicate BeforeResume(s: State) {
    || s.server.ExecLock? || s.server.ExecFlush? || s.server.ExecClearContext? || s.server.ExecClearBlock?
    || s.server.ExecResume?
  }

  /** The server serves a request for `wanted` that arrived after `epoch` resumes, or has finished it. */
  predicate Serving(s: State, wanted: set<EventType>, epoch: nat) {
    s.server.Idle? ||
    (Executing(s) && s.server.wanted == wanted && s.history.epoch == if BeforeResume(s) then epoch else epoch + 1)
  }

  lemma ServingKept(s: State, l: Label, wanted: set<EventType>, epoch: nat)
    requires Alternates(s) && Enabled(s, l) && Serving(s, wanted, epoch) && !IsRequest(l)
    ensures Serving(Step(s, l), wanted, epoch)
  {
    if l.ThreadNext? { AppFrame(s, l.t, l.act); }
  }

  lemma {:induction false} ServingAfter(s: State, run: seq<Label>, wanted: set<EventType>, epoch: nat)
    requires Invariant(s) && IsRun(s, run) && Serving(s, wanted, epoch) && NoRequests(run)
    ensures Serving(After(s, run), wanted, epoch)
    decreases |run|
  {
    if run != [] {
      ServingKept(s, run[0], wanted, epoch);
      InvariantKept(s, run[0]);
      ServingAfter(Step(s, run[0]), run[1..], wanted, epoch);
    }
  }

  /** When `executeUntilEvent (wanted)` returns normally, its event is one of `wanted`, and its context was recorded
      after the resume of that same call: however many threads signalled before, and whichever were left blocked. */
  lemma StopSound(s: State, before: seq<Label>, wanted: set<EventType>, during: seq<Label>)
    requires Init(s) && IsRun(s, before) && Enabled(After(s, before), RequestExec(wanted))
    requires IsRun(Step(After(s, before), RequestExec(wanted)), during) && NoRequests(during)
    ensures var b, e := After(s, before), After(Step(After(s, before), RequestExec(wanted)), during);
      e.server.Returned? ==>
        && e.server.result in wanted
        && e.records.context.Some? && e.records.context.value.event == e.server.result
        && e.records.context.value.epoch == b.history.epoch + 1
  {
    InvariantInit(s);
    InvariantAfter(s, before);
    var b := After(s, before);
    InvariantKept(b, RequestExec(wanted));
    var r := Step(b, RequestExec(wanted));
    InvariantAfter(r, during);
    ServingAfter(r, during, wanted, b.history.epoch);
  }

  // Exact counts

  /** Thread `t` executes the counting statement for `a`. */
  predicate IsHit(s: State, l: Label, a: U64) {
    l.ThreadNext? && l.t < |s.threads| && l.act.Body? && s.threads[l.t].Owning? && s.threads[l.t].job.Count?
      && s.threads[l.t].job.addr == a
  }

  /** The step adds, deletes or activates a breakpoint at `a`. */
  ghost predicate Replaces(s: State, l: Label, a: U64) {
    || (l.ServerNext? && (s.server.Adding? || s.server.Deleting?) && s.server.resolved == Address(a))
    || (l.ThreadNext? && l.t < |s.threads| && l.act.Body? && s.threads[l.t].Owning? && s.threads[l.t].job.Loading?
        && LoadGranted(s, s.threads[l.t].job.name)
        && a in Activation.Targets(s.debug.tables.deferred, s.debug.modules, s.threads[l.t].job.name))
  }

  ghost predicate LeavesInPlace(s: State, run: seq<Label>, a: U64)
    requires IsRun(s, run)
    decreases |run|
  {
    run == [] || (!Replaces(s, run[0], a) && LeavesInPlace(Step(s, run[0]), run[1..], a))
  }

  function Hits(s: State, run: seq<Label>, a: U64): nat
    requires IsRun(s, run)
    decreases |run|
  {
    if run == [] then 0 else (if IsHit(s, run[0], a) then 1 else 0) + Hits(Step(s, run[0]), run[1..], a)
  }

  /** The hits that fire. */
  function Fires(s: State, run: seq<Label>, a: U64): nat
    requires IsRun(s, run)
    decreases |run|
  {
    if run == [] then 0
    else (if IsHit(s, run[0], a) && HitOutcome(s.debug.tables.active, a) == Fired then 1 else 0)
         + Fires(Step(s, run[0]), run[1..], a)
  }

  predicate SameEntry(was: map<U64, U64>, now: map<U64, U64>, a: U64) {
    (a in now <==> a in was) && (a in was ==> now[a] == was[a])
  }

  lemma OnlyHitsCount(s: State, l: Label, a: U64)
    requires Enabled(s, l) && !Replaces(s, l, a)
    ensures var was, now := s.debug.tables.active, Step(s, l).debug.tables.active;
      if IsHit(s, l, a) then now == Hit(was, a) else SameEntry(was, now, a)
  {
    if l.ThreadNext? {
      if l.act.Body? { OnlyHitsCountInBody(s, l.t, a); } else { TablesStay(s, l.t, l.act); }
    }
  }

  lemma TablesStay(s: State, t: nat, act: Action)
    requires t < |s.threads| && AppEnabled(s, t, act) && !act.Body?
    ensures AppStep(s, t, act).debug.tables == s.debug.tables
  {
  }

  lemma OnlyHitsCountInBody(s: State, t: nat, a: U64)
    requires Enabled(s, ThreadNext(t, Body)) && !Replaces(s, ThreadNext(t, Body), a)
    ensures var was, now := s.debug.tables.active, BodyStep(s, t).debug.tables.active;
      if IsHit(s, ThreadNext(t, Body), a) then now == Hit(was, a) else SameEntry(was, now, a)
  {
    if s.threads[t].job.Loading? {
      Activation.ActivateExact(s.debug.tables.active, s.debug.tables.deferred, s.debug.modules, s.threads[t].job.name);
    }
  }

  /** The remaining number of hits of an active breakpoint, its count read modulo 2^64. */
  function Remaining(active: map<U64, U64>, a: U64): nat
    requires a in active
  {
    HitsToFire(active[a])
  }

  lemma OneHit(active: map<U64, U64>, a: U64)
    requires a in active
    ensures if Remaining(active, a) == 1 then a !in Hit(active, a) && HitOutcome(active, a) == Fired
            else
              a in Hit(active, a) && Remaining(Hit(active, a), a) == Remaining(active, a) - 1 &&
              HitOutcome(active, a) == Counted
  {
  }

  /** From any state, over any run that leaves the breakpoint at `a` in place: it is active exactly while it was hit
      fewer than `HitsToFire` times, keeps exact count of the rest, and fires on that hit and on no other. */
  lemma {:induction false} FiresOnExactHit(s: State, run: seq<Label>, a: U64)
    requires IsRun(s, run) && LeavesInPlace(s, run, a) && a in s.debug.tables.active
    ensures var n, k, e := Remaining(s.debug.tables.active, a), Hits(s, run, a), After(s, run);
      && (a in e.debug.tables.active <==> k < n)
      && (k < n ==> Remaining(e.debug.tables.active, a) == n - k)
      && Fires(s, run, a) == if k < n then 0 else 1
    decreases |run|
  {
    if run != [] {
      var s' := Step(s, run[0]);
      OnlyHitsCount(s, run[0], a);
      OneHit(s.debug.tables.active, a);
      if a in s'.debug.tables.active {
        FiresOnExactHit(s', run[1..], a);
      } else {
        StaysAway(s', run[1..], a);
      }
    }
  }

  lemma {:induction false} StaysAway(s: State, run: seq<Label>, a: U64)
    requires IsRun(s, run) && LeavesInPlace(s, run, a) && a !in s.debug.tables.active
    ensures a !in After(s, run).debug.tables.active && Fires(s, run, a) == 0
    decreases |run|
  {
    if run != [] {
      OnlyHitsCount(s, run[0], a);
      StaysAway(Step(s, run[0]), run[1..], a);
    }
  }

  /** A breakpoint added with count `c` over the interface fires on hit `((c - 1) mod 2^64) + 1`. */
  lemma AddedFiresOnExactHit(t: Tables, mods: Modules, bp: Breakpoint, a: U64)
    requires ToAbsAddr(mods, bp.addr) == Address(a) && Add(t, mods, bp).1 == None
    ensures a in Add(t, mods, bp).0.active
    ensures Remaining(Add(t, mods, bp).0.active, a) == HitsToFire(bp.count)
    ensures bp.count > 0 ==> HitsToFire(bp.count) == bp.count
    ensures bp.count == 0 ==> HitsToFire(bp.count) == TWO64
    ensures bp.count < 0 ==> HitsToFire(bp.count) == TWO64 + bp.count
  {
    assert (AsU64(bp.count) - 1) % TWO64 == (bp.count - 1) % TWO64 by {
      var q := bp.count / TWO64;
      assert bp.count == AsU64(bp.count) + q * TWO64;
      assert bp.count - 1 == (AsU64(bp.count) - 1) + q * TWO64;
    }
  }
}
