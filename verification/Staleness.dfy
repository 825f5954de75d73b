/** How often one thread can run into stale instrumentation: each flush it asks for is paid by a firing or a
    deletion. */
module Staleness {
  import opened Words
  import opened Types
  import opened Resolve
  import opened Instrument
  import opened Tables
  import opened Activation
  import opened Protocol
  import opened ProtocolSafety

  function CallAddrs(items: seq<Item>): set<U64> {
    set i | 0 <= i < |items| && items[i].CountCall? :: items[i].addr
  }

  predicate DistinctCalls(items: seq<Item>) {
    forall i, j :: 0 <= i < j < |items| && items[i].CountCall? && items[j].CountCall? ==> items[i].addr != items[j].addr
  }

  predicate DistinctBlock(b: Block) {
    forall i, j :: 0 <= i < j < |b| ==> b[i].pc != b[j].pc
  }

  ghost function CachedAddrs(cache: map<Block, seq<Item>>): set<U64> {
    set b, a | b in cache && a in CallAddrs(cache[b]) :: a
  }

  /** The address of the count call the thread is in the middle of. */
  function Pending(th: Thread): set<U64> {
    match th
    case Blocked(job, _) => if job.Count? then {job.addr} else {}
    case Owning(job, _) => if job.Count? then {job.addr} else {}
    case Unlocking(stale, _) => if stale.Some? then {stale.value} else {}
    case Flushing(a, _) => {a}
    case _ => {}
  }

  /** Addresses some count call is still inserted for. */
  ghost function Live(s: State): set<U64>
    requires |s.threads| == 1
  {
    CachedAddrs(s.debug.cache) + CallAddrs(s.threads[0].tail) + Pending(s.threads[0])
  }

  /** Those of them with no breakpoint left. */
  ghost function Dead(s: State): set<U64>
    requires |s.threads| == 1
  {
    Live(s) - s.debug.tables.active.Keys
  }

  ghost predicate WellPaid(s: State) {
    && |s.threads| == 1
    && AllDistinct(s.debug.cache)
    && Orderly(s.threads[0], s.debug.tables.active)
    && s.history.stale + |Dead(s)| <= s.history.fired + s.history.deleted
  }

  /** The thread meets each address once per block, and only flushes for one without a breakpoint. */
  ghost predicate Orderly(th: Thread, active: map<U64, U64>) {
    && DistinctCalls(th.tail) && Pending(th) !! CallAddrs(th.tail)
    && (th.Unlocking? || th.Flushing? ==> Pending(th) !! active.Keys)
    && ((th.Blocked? || th.Owning?) && th.job.Build? ==> DistinctBlock(th.job.b))
  }

  lemma Smaller(a: set<U64>, b: set<U64>)
    requires a <= b
    ensures |a| <= |b|
  {
    assert a + (b - a) == b;
  }

  lemma WeaveAddrs(instrs: seq<Instr>, marked: set<U64>, start: U64, end: U64)
    ensures CallAddrs(Weave(instrs, marked, start, end)) <= marked
    ensures forall a :: a in CallAddrs(Weave(instrs, marked, start, end)) ==>
      exists i :: 0 <= i < |instrs| && instrs[i].pc == a
  {
    var w := Weave(instrs, marked, start, end);
    forall a | a in CallAddrs(w) ensures a in marked && exists i :: 0 <= i < |instrs| && instrs[i].pc == a {
      var k :| 0 <= k < |w| && w[k].CountCall? && w[k].addr == a;
      WeaveCalls(instrs, marked, start, end, w[k]);
    }
  }

  lemma {:induction false} WeaveDistinct(instrs: seq<Instr>, marked: set<U64>, start: U64, end: U64)
    requires forall i, j :: 0 <= i < j < |instrs| ==> instrs[i].pc != instrs[j].pc
    ensures DistinctCalls(Weave(instrs, marked, start, end))
  {
    if instrs != [] {
      var rest, w := Weave(instrs[1..], marked, start, end), Weave(instrs, marked, start, end);
      WeaveDistinct(instrs[1..], marked, start, end);
      WeaveAddrs(instrs[1..], marked, start, end);
      assert forall i :: 0 <= i < |instrs[1..]| ==> instrs[1..][i].pc != instrs[0].pc;
      var n := |w| - |rest|;
      assert w[n..] == rest;
      forall i, j | 0 <= i < j < |w| && w[i].CountCall? && w[j].CountCall? ensures w[i].addr != w[j].addr {
        assert j >= n && rest[j - n] == w[j] && rest[j - n].addr in CallAddrs(rest);
        if i >= n { assert rest[i - n] == w[i]; }
      }
    }
  }

  lemma InstrumentedAddrs(b: Block, active: map<U64, U64>, stops: set<EventType>)
    requires DistinctBlock(b)
    ensures DistinctCalls(Instrumented(b, active, stops)) && CallAddrs(Instrumented(b, active, stops)) <= active.Keys
  {
    var w, items := Weave(b, Marked(b, active), First(b), Last(b)), Instrumented(b, active, stops);
    WeaveAddrs(b, Marked(b, active), First(b), Last(b));
    WeaveDistinct(b, Marked(b, active), First(b), Last(b));
    if RELEVANT_BLOCK in stops {
      assert items[1..] == w;
      assert forall i :: 0 < i < |items| ==> items[i] == w[i - 1];
      forall a | a in CallAddrs(items) ensures a in CallAddrs(w) {
        var i :| 0 <= i < |items| && items[i].CountCall? && items[i].addr == a;
        assert w[i - 1] == items[i];
      }
    } else {
      assert items == w;
    }
  }

  /** Taking the head off a list of items. */
  lemma TailAddrs(items: seq<Item>)
    requires items != [] && DistinctCalls(items)
    ensures DistinctCalls(items[1..])
    ensures CallAddrs(items) == CallAddrs(items[1..]) + (if items[0].CountCall? then {items[0].addr} else {})
    ensures items[0].CountCall? ==> items[0].addr !in CallAddrs(items[1..])
  {
    assert forall i :: 0 <= i < |items[1..]| ==> items[1..][i] == items[i + 1];
    forall a | a in CallAddrs(items) ensures a in CallAddrs(items[1..]) || (items[0].CountCall? && a == items[0].addr) {
      var i :| 0 <= i < |items| && items[i].CountCall? && items[i].addr == a;
      if i > 0 { assert items[1..][i - 1] == items[i]; }
    }
  }

  /** Nothing new is live but active addresses, and no breakpoint goes away: nothing dies. */
  lemma NothingDies(s: State, s': State)
    requires WellPaid(s) && |s'.threads| == 1
    requires Live(s') <= Live(s) + s'.debug.tables.active.Keys
    requires s.debug.tables.active.Keys <= s'.debug.tables.active.Keys
    requires s'.history.stale == s.history.stale && s'.history.fired == s.history.fired
      && s'.history.deleted == s.history.deleted
    ensures s'.history.stale + |Dead(s')| <= s'.history.fired + s'.history.deleted
  {
    Smaller(Dead(s'), Dead(s));
  }

  /** One breakpoint goes away and is paid for. */
  lemma OneDies(s: State, s': State, a: U64)
    requires WellPaid(s) && |s'.threads| == 1
    requires Live(s') <= Live(s)
    requires s'.debug.tables.active.Keys == s.debug.tables.active.Keys - {a}
    requires s'.history.stale == s.history.stale
    requires s'.history.fired + s'.history.deleted == s.history.fired + s.history.deleted + 1
    ensures s'.history.stale + |Dead(s')| <= s'.history.fired + s'.history.deleted
  {
    Smaller(Dead(s'), Dead(s) + {a});
  }

  /** Outside bodies and flushes a thread keeps its tail, takes its head, or enters a block. */
  predicate TailMove(s: State, th: Thread, th': Thread) {
    || (th'.tail == th.tail && Pending(th') <= Pending(th)
        && (th'.Unlocking? ==> Pending(th') == {}) && (th'.Flushing? ==> th.Unlocking?)
        && (th'.Blocked? ==> !th'.job.Build?) && (th'.Owning? && th'.job.Build? ==> th.Blocked? && th.job == th'.job))
    || (th.tail != [] && th'.tail == th.tail[1..]
      && (th'.Running? || th'.Stopping? || (th'.Blocked? && !th'.job.Build?))
        && Pending(th') <= (if th.tail[0].CountCall? then {th.tail[0].addr} else {}))
    || (exists b :: b in s.debug.cache && th' == Running(s.debug.cache[b]))
    || (th'.Blocked? && th'.job.Build? && th'.tail == [] && DistinctBlock(th'.job.b))
  }

  lemma AppTailMove(s: State, t: nat, act: Action)
    requires t < |s.threads| && AppEnabled(s, t, act) && (act.EnterBlock? ==> DistinctBlock(act.b))
    requires !act.Body? && !act.Flush? && !act.Unload?
    ensures var s' := AppStep(s, t, act);
      TailMove(s, s.threads[t], s'.threads[t]) && SameTables(s, s')
  {
  }

  ghost predicate SameTables(s: State, s': State) {
    && s'.debug.cache == s.debug.cache && s'.debug.tables == s.debug.tables
    && s'.history.stale == s.history.stale && s'.history.fired == s.history.fired
    && s'.history.deleted == s.history.deleted
  }

  lemma TailMovePaid(s: State, s': State)
    requires WellPaid(s) && |s'.threads| == 1 && SameTables(s, s') && TailMove(s, s.threads[0], s'.threads[0])
    ensures WellPaid(s')
  {
    var th, th' := s.threads[0], s'.threads[0];
    if th.tail != [] { TailAddrs(th.tail); }
    if b :| b in s.debug.cache && th' == Running(s.debug.cache[b]) {
      assert CallAddrs(s.debug.cache[b]) <= CachedAddrs(s.debug.cache);
    }
    assert Live(s') <= Live(s);
    NothingDies(s, s');
  }

  lemma MovePaid(s: State, act: Action)
    requires WellPaid(s) && AppEnabled(s, 0, act) && (act.EnterBlock? ==> DistinctBlock(act.b))
    requires !act.Body? && !act.Flush?
    ensures WellPaid(AppStep(s, 0, act))
  {
    if !act.Unload? {
      AppFrame(s, 0, act);
      AppTailMove(s, 0, act);
      TailMovePaid(s, AppStep(s, 0, act));
    }
  }

  lemma HitKeys(active: map<U64, U64>, a: U64)
    ensures Hit(active, a).Keys == if HitOutcome(active, a) == Fired then active.Keys - {a} else active.Keys
  {
  }

  /** What a body leaves: the same tail, and nothing pending but a stale address. */
  lemma BodyPaid(s: State, s': State)
    requires WellPaid(s) && |s'.threads| == 1 && s'.debug.cache == s.debug.cache
      && s'.threads[0].tail == s.threads[0].tail
    requires Pending(s'.threads[0]) <= Pending(s.threads[0]) - s'.debug.tables.active.Keys
    requires !s'.threads[0].Blocked? && !s'.threads[0].Owning?
    requires s'.history.stale + |Dead(s')| <= s'.history.fired + s'.history.deleted
    ensures WellPaid(s')
  {
  }

  ghost predicate CountMove(s: State, s': State, a: U64) {
    var outcome := HitOutcome(s.debug.tables.active, a);
    && |s.threads| == |s'.threads| == 1 && s'.threads[0].tail == s.threads[0].tail && s'.debug.cache == s.debug.cache
    && Pending(s'.threads[0]) == (if outcome == Stale then {a} else {})
    && !s'.threads[0].Blocked? && !s'.threads[0].Owning?
    && s'.debug.tables.active.Keys == s.debug.tables.active.Keys - (if outcome == Fired then {a} else {})
    && s'.history.fired == s.history.fired + (if outcome == Fired then 1 else 0)
    && s'.history.stale == s.history.stale && s'.history.deleted == s.history.deleted
  }

  lemma CountBodyMove(s: State)
    requires |s.threads| == 1 && s.threads[0].Owning? && s.threads[0].job.Count?
    ensures CountMove(s, CountBody(s, 0), s.threads[0].job.addr)
  {
    HitKeys(s.debug.tables.active, s.threads[0].job.addr);
  }

  lemma CountPaid(s: State, s': State)
    requires WellPaid(s) && s.threads[0].Owning? && s.threads[0].job.Count? && CountMove(s, s', s.threads[0].job.addr)
    ensures WellPaid(s')
  {
    var a := s.threads[0].job.addr;
    if HitOutcome(s.debug.tables.active, a) == Fired {
      OneDies(s, s', a);
    } else {
      NothingDies(s, s');
    }
    BodyPaid(s, s');
  }

  lemma CachedAddrsAdd(cache: map<Block, seq<Item>>, b: Block, items: seq<Item>)
    ensures CachedAddrs(cache[b := items]) <= CachedAddrs(cache) + CallAddrs(items)
  {
    var next := cache[b := items];
    forall a | a in CachedAddrs(next) ensures a in CachedAddrs(cache) + CallAddrs(items) {
      var c: Block :| c in next && a in CallAddrs(next[c]);
      if c != b { assert c in cache && a in CallAddrs(cache[c]); }
    }
  }

  ghost predicate BuildMove(s: State, s': State, b: Block, items: seq<Item>) {
    && |s'.threads| == 1 && s'.threads[0] == Unlocking(None, items)
    && s'.debug.cache == s.debug.cache[b := items] && s'.debug.tables == s.debug.tables
    && s'.history == s.history
  }

  lemma BuildLive(s: State, s': State, b: Block, items: seq<Item>)
    requires |s.threads| == 1 && BuildMove(s, s', b, items) && CallAddrs(items) <= s.debug.tables.active.Keys
    ensures Live(s') <= Live(s) + s'.debug.tables.active.Keys
  {
    CachedAddrsAdd(s.debug.cache, b, items);
  }

  lemma BuildOrderly(s: State, s': State, b: Block, items: seq<Item>)
    requires WellPaid(s) && BuildMove(s, s', b, items) && DistinctCalls(items)
    ensures AllDistinct(s'.debug.cache)
    ensures Orderly(s'.threads[0], s'.debug.tables.active)
  {
    assert Pending(s'.threads[0]) == {};
    CacheDistinct(s.debug.cache, s'.debug.cache, b, items);
  }

  ghost predicate AllDistinct(cache: map<Block, seq<Item>>) {
    forall b :: b in cache ==> DistinctCalls(cache[b])
  }

  lemma CacheDistinct(cache: map<Block, seq<Item>>, next: map<Block, seq<Item>>, b: Block, items: seq<Item>)
    requires DistinctCalls(items) && AllDistinct(cache) && next == cache[b := items]
    ensures AllDistinct(next)
  {
    forall c | c in next ensures DistinctCalls(next[c]) {
      if c != b { assert next[c] == cache[c]; }
    }
  }

  lemma BuildPaid(s: State, s': State, b: Block, items: seq<Item>)
    requires WellPaid(s) && BuildMove(s, s', b, items)
    requires DistinctCalls(items) && CallAddrs(items) <= s.debug.tables.active.Keys
    ensures WellPaid(s')
  {
    BuildLive(s, s', b, items);
    BuildOrderly(s, s', b, items);
    NothingDies(s, s');
  }

  lemma LoadPaid(s: State)
    requires WellPaid(s) && s.threads[0].Owning? && s.threads[0].job.Loading? && LoadGranted(s, s.threads[0].job.name)
    ensures WellPaid(LoadBody(s, 0))
  {
    var s' := LoadBody(s, 0);
    ActivateExact(s.debug.tables.active, s.debug.tables.deferred, s.debug.modules, s.threads[0].job.name);
    NothingDies(s, s');
    BodyPaid(s, s');
  }

  ghost predicate FlushMove(s: State, s': State) {
    && |s.threads| == |s'.threads| == 1 && s'.threads[0] == Running(s.threads[0].tail)
    && s'.debug.cache == map[] && s'.debug.tables == s.debug.tables
    && s'.history.stale == s.history.stale + 1 && s'.history.fired == s.history.fired
    && s'.history.deleted == s.history.deleted
  }

  lemma FlushKills(s: State, s': State, a: U64)
    requires WellPaid(s) && s.threads[0] == Flushing(a, s.threads[0].tail) && FlushMove(s, s')
    ensures a in Dead(s) && Dead(s') <= Dead(s) - {a}
  {
    assert Pending(s'.threads[0]) == {} && Pending(s.threads[0]) == {a};
    EmptiedCache(s');
    assert a in Live(s) && a !in s.debug.tables.active;
    assert Dead(s') <= Dead(s);
  }

  lemma EmptiedCache(s: State)
    requires |s.threads| == 1 && s.debug.cache == map[]
    ensures Live(s) == CallAddrs(s.threads[0].tail) + Pending(s.threads[0])
  {
    assert CachedAddrs(map[]) == {};
  }

  /** A stale flush takes its address out of every list of clean calls. */
  lemma FlushPaid(s: State, s': State)
    requires WellPaid(s) && s.threads[0].Flushing? && FlushMove(s, s')
    ensures WellPaid(s')
  {
    var a := s.threads[0].addr;
    FlushKills(s, s', a);
    Smaller(Dead(s'), Dead(s) - {a});
  }

  /** The server adds breakpoints and flushes at will; what it deletes it pays for. */
  ghost predicate ServerMove(s: State, s': State) {
    && s'.threads == s.threads && (s'.debug.cache == s.debug.cache || s'.debug.cache == map[])
    && s'.history.stale == s.history.stale && s'.history.fired == s.history.fired
    && ((s.debug.tables.active.Keys <= s'.debug.tables.active.Keys && s'.history.deleted == s.history.deleted)
        || (s.server.Deleting? && s.server.resolved.Address? && s'.history.deleted == s.history.deleted + 1
            && s'.debug.tables.active.Keys == s.debug.tables.active.Keys - {s.server.resolved.addr}))
    && (s'.debug.tables.active.Keys == s.debug.tables.active.Keys || s.server.Adding? || s.server.Deleting?)
  }

  lemma ServerStepMove(s: State)
    requires ServerEnabled(s)
    ensures ServerMove(s, ServerStep(s))
  {
  }

  lemma ServerMovePaid(s: State, s': State)
    requires WellPaid(s) && Alternates(s) && ServerMove(s, s')
    ensures WellPaid(s')
  {
    assert CachedAddrs(map[]) == {};
    assert Live(s') <= Live(s);
    if s.debug.tables.active.Keys <= s'.debug.tables.active.Keys && s'.history.deleted == s.history.deleted {
      NothingDies(s, s');
    } else {
      OneDies(s, s', s.server.resolved.addr);
    }
    assert s.server.Adding? || s.server.Deleting? ==> Safe(s.threads[0]);
  }

  lemma WellPaidKept(s: State, l: Label)
    requires WellPaid(s) && Alternates(s) && Enabled(s, l)
    requires l.ThreadNext? && l.act.EnterBlock? ==> DistinctBlock(l.act.b)
    ensures WellPaid(Step(s, l))
  {
    if l.ThreadNext? {
      ThreadPaid(s, l);
    } else if l.ServerNext? {
      ServerPaid(s);
    } else {
      OtherMove(s, l);
      SamePaid(s, Step(s, l));
    }
  }

  lemma ThreadPaid(s: State, l: Label)
    requires WellPaid(s) && Enabled(s, l) && l.ThreadNext? && (l.act.EnterBlock? ==> DistinctBlock(l.act.b))
    ensures WellPaid(Step(s, l))
  {
    AppPaid(s, l.act);
  }

  lemma ServerPaid(s: State)
    requires WellPaid(s) && Alternates(s) && ServerEnabled(s)
    ensures WellPaid(ServerStep(s))
  {
    ServerStepMove(s);
    ServerMovePaid(s, ServerStep(s));
  }

  predicate SameAccount(s: State, s': State) {
    && s'.threads == s.threads && s'.debug.cache == s.debug.cache && s'.debug.tables == s.debug.tables
    && s'.history.stale == s.history.stale && s'.history.fired == s.history.fired
    && s'.history.deleted == s.history.deleted
  }

  lemma OtherMove(s: State, l: Label)
    requires Enabled(s, l) && !l.ThreadNext? && !l.ServerNext?
    ensures SameAccount(s, Step(s, l))
  {
  }

  lemma SamePaid(s: State, s': State)
    requires WellPaid(s) && SameAccount(s, s')
    ensures WellPaid(s')
  {
    assert Live(s') == Live(s);
  }

  lemma AppPaid(s: State, act: Action)
    requires WellPaid(s) && AppEnabled(s, 0, act) && (act.EnterBlock? ==> DistinctBlock(act.b))
    ensures WellPaid(AppStep(s, 0, act))
  {
    if act.Flush? {
      FlushPaid(s, AppStep(s, 0, act));
    } else if act.Body? {
      match s.threads[0].job
      case Count(_, _, _) =>
        CountBodyMove(s);
        CountPaid(s, CountBody(s, 0));
      case Build(b) =>
        InstrumentedAddrs(b, s.debug.tables.active, s.debug.stops);
        BuildPaid(s, BuildBody(s, 0), b, Instrumented(b, s.debug.tables.active, s.debug.stops));
      case Loading(_) => LoadPaid(s);
    } else {
      MovePaid(s, act);
    }
  }

  predicate EntersDistinctBlocks(run: seq<Label>) {
    forall i :: 0 <= i < |run| && run[i].ThreadNext? && run[i].act.EnterBlock? ==> DistinctBlock(run[i].act.b)
  }

  lemma {:induction false} WellPaidAfter(s: State, run: seq<Label>)
    requires WellPaid(s) && Alternates(s) && IsRun(s, run) && EntersDistinctBlocks(run)
    ensures WellPaid(After(s, run))
    decreases |run|
  {
    if run != [] {
      WellPaidKept(s, run[0]);
      AlternatesKept(s, run[0]);
      WellPaidAfter(Step(s, run[0]), run[1..]);
    }
  }

  // The counts of the history, as events of the run

  predicate IsFiring(s: State, l: Label) {
    && l.ThreadNext? && l.t < |s.threads| && l.act.Body? && s.threads[l.t].Owning? && s.threads[l.t].job.Count?
    && HitOutcome(s.debug.tables.active, s.threads[l.t].job.addr) == Fired
  }

  predicate IsDeletion(s: State, l: Label) {
    l.ServerNext? && s.server.Deleting? && s.server.resolved.Address?
      && s.server.resolved.addr in s.debug.tables.active
  }

  function Flushes(run: seq<Label>): nat {
    if run == [] then 0 else (if run[0].ThreadNext? && run[0].act.Flush? then 1 else 0) + Flushes(run[1..])
  }

  function Firings(s: State, run: seq<Label>): nat
    requires IsRun(s, run)
    decreases |run|
  {
    if run == [] then 0 else (if IsFiring(s, run[0]) then 1 else 0) + Firings(Step(s, run[0]), run[1..])
  }

  function Deletions(s: State, run: seq<Label>): nat
    requires IsRun(s, run)
    decreases |run|
  {
    if run == [] then 0 else (if IsDeletion(s, run[0]) then 1 else 0) + Deletions(Step(s, run[0]), run[1..])
  }

  lemma CountersStep(s: State, l: Label)
    requires Enabled(s, l)
    ensures var h, h' := s.history, Step(s, l).history;
      && h'.stale == h.stale + (if l.ThreadNext? && l.act.Flush? then 1 else 0)
      && h'.fired == h.fired + (if IsFiring(s, l) then 1 else 0)
      && h'.deleted == h.deleted + (if IsDeletion(s, l) then 1 else 0)
  {
    if l.ThreadNext? { ThreadCounters(s, l.t, l.act); } else { ServerCounters(s, l); }
  }

  lemma ThreadCounters(s: State, t: nat, act: Action)
    requires t < |s.threads| && AppEnabled(s, t, act)
    ensures var h, h' := s.history, AppStep(s, t, act).history;
      && h'.stale == h.stale + (if act.Flush? then 1 else 0)
      && h'.fired == h.fired + (if IsFiring(s, ThreadNext(t, act)) then 1 else 0)
      && h'.deleted == h.deleted
  {
  }

  lemma ServerCounters(s: State, l: Label)
    requires Enabled(s, l) && !l.ThreadNext?
    ensures var h, h' := s.history, Step(s, l).history;
      && h'.stale == h.stale && h'.fired == h.fired
      && h'.deleted == h.deleted + (if IsDeletion(s, l) then 1 else 0)
  {
    if l.ServerNext? && s.server.Deleting? && s.server.resolved.Address? {
      DeletedChanges(s.debug.tables.active, s.server.resolved);
    }
  }

  lemma DeletedChanges(active: map<U64, U64>, r: Resolution)
    requires r.Address?
    ensures r.addr in active <==> active - {r.addr} != active
  {
  }

  lemma {:induction false} CountersExact(s: State, run: seq<Label>)
    requires IsRun(s, run)
    ensures var h, h' := s.history, After(s, run).history;
      && h'.stale == h.stale + Flushes(run) && h'.fired == h.fired + Firings(s, run)
      && h'.deleted == h.deleted + Deletions(s, run)
    decreases |run|
  {
    if run != [] {
      CountersStep(s, run[0]);
      CountersExact(Step(s, run[0]), run[1..]);
    }
  }

  /** Over every run of one thread there are at most as many stale flushes as hits that fire and active breakpoints
      deleted. */
  lemma StaleFlushesBounded(s: State, run: seq<Label>)
    requires Init(s) && |s.threads| == 1 && IsRun(s, run) && EntersDistinctBlocks(run)
    ensures Flushes(run) <= Firings(s, run) + Deletions(s, run)
  {
    InvariantInit(s);
    assert Dead(s) == {};
    WellPaidAfter(s, run);
    CountersExact(s, run);
  }
}
