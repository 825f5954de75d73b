/** The instrumented program against a reference debugger that looks at the table before every instruction. */
module Refinement {
  import opened Words
  import opened Types
  import opened Instrument

  /** What one application thread does between a flush and its first stop: it enters a block, or loads a module whose
      deferred breakpoints become active. */
  datatype Event = Enter(b: Block) | Load(added: map<U64, U64>)

  /** How a block ends: stopped before its instruction number `at`, or run through; `stale` asks for a flush. */
  datatype BlockRun = Halt(at: nat, event: EventType, active: map<U64, U64>)
    | Through(active: map<U64, U64>, stale: bool)

  /** The first stop, with the number of events before it, or the table left when there is none. */
  datatype Run = Stop(index: nat, at: nat, event: EventType, active: map<U64, U64>) | NoStop(active: map<U64, U64>)

  // The reference debugger

  function ReferenceInstrs(instrs: seq<Instr>, at: nat, active: map<U64, U64>, stops: set<EventType>): BlockRun
    decreases |instrs|
  {
    if instrs == [] then Through(active, false)
    else
      var pc := instrs[0].pc;
      if pc in active && active[pc] == 1 && BREAKPOINT in stops then Halt(at, BREAKPOINT, active - {pc})
      else
        var next :=
          if pc !in active then active
          else if active[pc] == 1 then active - {pc}
          else if active[pc] == 0 then active[pc := 0xffff_ffff_ffff_ffff]
          else active[pc := active[pc] - 1];
        ReferenceInstrs(instrs[1..], at + 1, next, stops)
  }

  function ReferenceBlock(b: Block, active: map<U64, U64>, stops: set<EventType>): BlockRun {
    if RELEVANT_BLOCK in stops then Halt(0, RELEVANT_BLOCK, active) else ReferenceInstrs(b, 0, active, stops)
  }

  function Reference(events: seq<Event>, index: nat, active: map<U64, U64>, stops: set<EventType>): Run
    decreases |events|
  {
    if events == [] then NoStop(active)
    else match events[0]
      case Load(added) => Reference(events[1..], index + 1, active + added, stops)
      case Enter(b) =>
        match ReferenceBlock(b, active, stops)
        case Halt(at, e, left) => Stop(index, at, e, left)
        case Through(left, _) => Reference(events[1..], index + 1, left, stops)
  }

  // The instrumented program

  type Cache = map<Block, seq<Item>>

  function RunItems(items: seq<Item>, at: nat, active: map<U64, U64>, stops: set<EventType>, stale: bool): BlockRun
    decreases |items|
  {
    if items == [] then Through(active, stale)
    else match items[0]
      case App(_) => RunItems(items[1..], at + 1, active, stops, stale)
      case RelevantCall(_, _) =>
        if RELEVANT_BLOCK in stops then Halt(at, RELEVANT_BLOCK, active)
          else RunItems(items[1..], at, active, stops, stale)
      case CountCall(a, _, _) =>
        if HitOutcome(active, a) == Fired && BREAKPOINT in stops then Halt(at, BREAKPOINT, Hit(active, a))
        else RunItems(items[1..], at, Hit(active, a), stops, stale || HitOutcome(active, a) == Stale)
  }

  function Lookup(cache: Cache, b: Block, active: map<U64, U64>, stops: set<EventType>): seq<Item> {
    if b in cache then cache[b] else Instrumented(b, active, stops)
  }

  /** Builds a block on a miss, runs its clean calls, and forgets every block after a stale one. */
  function System(events: seq<Event>, index: nat, cache: Cache, active: map<U64, U64>, stops: set<EventType>): Run
    decreases |events|
  {
    if events == [] then NoStop(active)
    else match events[0]
      case Load(added) => System(events[1..], index + 1, cache, active + added, stops)
      case Enter(b) =>
        var items := Lookup(cache, b, active, stops);
        match RunItems(items, 0, active, stops, false)
        case Halt(at, e, left) => Stop(index, at, e, left)
        case Through(left, stale) =>
          System(events[1..], index + 1, if stale then map[] else cache[b := items], left, stops)
  }

  // Their agreement

  predicate Contains(b: Block, a: U64) {
    exists i :: 0 <= i < |b| && b[i].pc == a
  }

  /** What the environment grants: blocks are straight-line, and no block entered before a load contains an address it
      activates. */
  predicate Granted(events: seq<Event>) {
    && (forall i :: 0 <= i < |events| && events[i].Enter? ==> StraightLine(events[i].b))
    && (forall i, j :: 0 <= i < j < |events| && events[i].Enter? && events[j].Load? ==>
      Apart(events[i].b, events[j].added))
  }

  predicate Apart(b: Block, added: map<U64, U64>) {
    forall a :: a in added ==> !Contains(b, a)
  }

  ghost predicate CoveredCache(cache: Cache, active: map<U64, U64>, stops: set<EventType>, events: seq<Event>) {
    && (forall b :: b in cache ==> Covers(cache[b], b, active, stops))
    && (forall b, j :: b in cache && 0 <= j < |events| && events[j].Load? ==> Apart(b, events[j].added))
  }

  lemma {:induction false} RunWeave(instrs: seq<Instr>, marked: set<U64>, start: U64, end: U64, at: nat,
                                    active: map<U64, U64>, stops: set<EventType>, stale: bool)
    requires forall i :: 0 <= i < |instrs| && instrs[i].pc in active ==> instrs[i].pc in marked
    ensures var r, s :=
      ReferenceInstrs(instrs, at, active, stops), RunItems(Weave(instrs, marked, start, end), at, active, stops, stale);
      if r.Halt? then s == r else s.Through? && s.active == r.active && r.active.Keys <= active.Keys
    decreases |instrs|
  {
    if instrs != [] {
      var pc, w := instrs[0].pc, Weave(instrs, marked, start, end);
      var rest := Weave(instrs[1..], marked, start, end);
      var now := Hit(active, pc);
      var staleNow := stale || (pc in marked && HitOutcome(active, pc) == Stale);
      RunWeave(instrs[1..], marked, start, end, at + 1, now, stops, staleNow);
      if pc in marked {
        assert w[1..] == [App(instrs[0])] + rest;
        assert w[1..][1..] == rest;
      } else {
        assert w[1..] == rest;
      }
    }
  }

  lemma RunCovered(items: seq<Item>, b: Block, active: map<U64, U64>, stops: set<EventType>)
    requires Covers(items, b, active, stops)
    ensures var r, s := ReferenceBlock(b, active, stops), RunItems(items, 0, active, stops, false);
      if r.Halt? then s == r else s.Through? && s.active == r.active && r.active.Keys <= active.Keys
  {
    var marked: set<U64> :| MarksActive(marked, b, active) && items == Emit(b, marked, RELEVANT_BLOCK in stops);
    RunWeave(b, marked, First(b), Last(b), 0, active, stops, false);
    if RELEVANT_BLOCK !in stops {
      assert items == Weave(b, marked, First(b), Last(b));
    }
  }

  lemma LookupCovers(cache: Cache, b: Block, active: map<U64, U64>, stops: set<EventType>)
    requires b in cache ==> Covers(cache[b], b, active, stops)
    requires StraightLine(b)
    ensures Covers(Lookup(cache, b, active, stops), b, active, stops)
  {
    if b !in cache { InstrumentedCovers(b, active, stops); }
  }

  lemma CoversApart(items: seq<Item>, b: Block, active: map<U64, U64>, left: map<U64, U64>, stops: set<EventType>)
    requires Covers(items, b, active, stops)
    requires forall a :: a in left && a !in active ==> !Contains(b, a)
    ensures Covers(items, b, left, stops)
  {
    assert forall i :: 0 <= i < |b| ==> Contains(b, b[i].pc);
    CoversShrinks(items, b, active, left, stops);
  }

  lemma LoadCovers(events: seq<Event>, cache: Cache, active: map<U64, U64>, stops: set<EventType>)
    requires Granted(events) && CoveredCache(cache, active, stops, events) && events != [] && events[0].Load?
    ensures Granted(events[1..]) && CoveredCache(cache, active + events[0].added, stops, events[1..])
  {
    var added, rest := events[0].added, events[1..];
    assert forall j :: 0 <= j < |rest| ==> rest[j] == events[j + 1];
    forall b | b in cache ensures Covers(cache[b], b, active + added, stops) {
      CoversApart(cache[b], b, active, active + added, stops);
    }
  }

  lemma EnterCovers(events: seq<Event>, cache: Cache, active: map<U64, U64>, stops: set<EventType>)
    requires Granted(events) && CoveredCache(cache, active, stops, events) && events != [] && events[0].Enter?
    ensures Granted(events[1..])
    ensures var b := events[0].b;
            var items := Lookup(cache, b, active, stops);
            var run := RunItems(items, 0, active, stops, false);
      && Covers(items, b, active, stops)
      && (run.Through? ==>
            CoveredCache(if run.stale then map[] else cache[b := items], run.active, stops, events[1..]))
  {
    var b, rest := events[0].b, events[1..];
    var items := Lookup(cache, b, active, stops);
    var run := RunItems(items, 0, active, stops, false);
    assert forall j :: 0 <= j < |rest| ==> rest[j] == events[j + 1];
    LookupCovers(cache, b, active, stops);
    RunCovered(items, b, active, stops);
    if run.Through? {
      var next: Cache := if run.stale then map[] else cache[b := items];
      forall c | c in next ensures Covers(next[c], c, run.active, stops) {
        CoversApart(next[c], c, active, run.active, stops);
      }
    }
  }

  lemma {:induction false} SystemFollows(
      events: seq<Event>, index: nat, cache: Cache, active: map<U64, U64>, stops: set<EventType>)
    requires Granted(events) && CoveredCache(cache, active, stops, events)
    ensures System(events, index, cache, active, stops) == Reference(events, index, active, stops)
    decreases |events|
  {
    if events != [] {
      match events[0]
      case Load(added) =>
        LoadCovers(events, cache, active, stops);
        SystemFollows(events[1..], index + 1, cache, active + added, stops);
      case Enter(b) =>
        EnterCovers(events, cache, active, stops);
        var items := Lookup(cache, b, active, stops);
        RunCovered(items, b, active, stops);
        var run := RunItems(items, 0, active, stops, false);
        if run.Through? {
          SystemFollows(events[1..], index + 1, if run.stale then map[] else cache[b := items], run.active, stops);
        }
    }
  }

  /** From a flushed cache the instrumented program makes the same first stop as the reference debugger: after the
      same events, before the same instruction, with the same event and the same table. */
  lemma FirstStopAgrees(events: seq<Event>, active: map<U64, U64>, stops: set<EventType>)
    requires Granted(events)
    ensures System(events, 0, map[], active, stops) == Reference(events, 0, active, stops)
  {
    SystemFollows(events, 0, map[], active, stops);
  }

  /** A block with no count call is entered without a trace. */
  lemma SystemSkips(b: Block, rest: seq<Event>, index: nat, cache: Cache, active: map<U64, U64>, stops: set<EventType>)
    requires Lookup(cache, b, active, stops) == Weave(b, {}, First(b), Last(b))
    ensures System([Enter(b)] + rest, index, cache, active, stops)
         == System(rest, index + 1, cache[b := Weave(b, {}, First(b), Last(b))], active, stops)
  {
    RunPlain(b, stops, active, First(b), Last(b));
    assert ([Enter(b)] + rest)[1..] == rest;
  }

  /** A debugger with one breakpoint left at one hit stops in every run of instructions that meets it. */
  lemma {:induction false} ReferenceMeets(instrs: seq<Instr>, at: nat, a: U64)
    requires exists i :: 0 <= i < |instrs| && instrs[i].pc == a
    ensures ReferenceInstrs(instrs, at, map[a := 1], {BREAKPOINT}).Halt?
    decreases |instrs|
  {
    if instrs[0].pc != a {
      var i :| 0 <= i < |instrs| && instrs[i].pc == a;
      assert instrs[1..][i - 1] == instrs[i];
      ReferenceMeets(instrs[1..], at + 1, a);
    }
  }

  /** With breakpoint stops asked for, every count met goes down, or the run stops. */
  lemma {:induction false} ReferenceCounts(instrs: seq<Instr>, at: nat, active: map<U64, U64>, a: U64)
    requires a in active
    ensures var r := ReferenceInstrs(instrs, at, active, {BREAKPOINT});
      r.Halt? || (a in r.active && HitsToFire(r.active[a]) <= HitsToFire(active[a]) &&
                  ((exists i :: 0 <= i < |instrs| && instrs[i].pc == a) ==> r.active[a] != active[a]))
    decreases |instrs|
  {
    if instrs != [] && !(instrs[0].pc in active && active[instrs[0].pc] == 1) {
      var next := Hit(active, instrs[0].pc);
      ReferenceCounts(instrs[1..], at + 1, next, a);
      if instrs[0].pc == a {
        assert HitsToFire(next[a]) < HitsToFire(active[a]);
      } else if i :| 0 <= i < |instrs| && instrs[i].pc == a {
        assert instrs[1..][i - 1] == instrs[i];
      }
    }
  }

  /** A block is stopped in as the reference debugger would, for every table and stop set, exactly if it is
      straight-line. */
  lemma StraightLineExactly(b: Block)
    ensures StraightLine(b) <==> forall active: map<U64, U64>, stops: set<EventType> ::
              System([Enter(b)], 0, map[], active, stops) == Reference([Enter(b)], 0, active, stops)
  {
    if StraightLine(b) {
      forall active: map<U64, U64>, stops: set<EventType>
        ensures System([Enter(b)], 0, map[], active, stops) == Reference([Enter(b)], 0, active, stops)
      {
        FirstStopAgrees([Enter(b)], active, stops);
      }
    } else {
      var i :| 0 <= i < |b| && !(First(b) <= b[i].pc <= Last(b));
      var active: map<U64, U64> := map[b[i].pc := 1];
      assert !InRange(b, active);
      SystemSkips(b, [], 0, map[], active, {BREAKPOINT});
      assert [Enter(b)] + [] == [Enter(b)];
      ReferenceMeets(b, 0, b[i].pc);
      assert System([Enter(b)], 0, map[], active, {BREAKPOINT}) != Reference([Enter(b)], 0, active, {BREAKPOINT});
    }
  }

  /** A block entered before and after a load is treated as the reference debugger would, for every table and stop
      set, exactly if the load activates no address in it. */
  lemma ApartExactly(b: Block, added: map<U64, U64>)
    requires StraightLine(b)
    ensures var events := [Enter(b), Load(added), Enter(b)];
      Apart(b, added) <==> forall active: map<U64, U64>, stops: set<EventType> ::
        System(events, 0, map[], active, stops) == Reference(events, 0, active, stops)
  {
    var events := [Enter(b), Load(added), Enter(b)];
    if Apart(b, added) {
      forall active: map<U64, U64>, stops: set<EventType>
        ensures System(events, 0, map[], active, stops) == Reference(events, 0, active, stops)
      {
        FirstStopAgrees(events, active, stops);
      }
    } else {
      OverlapMissed(b, added);
    }
  }

  lemma OverlapMissed(b: Block, added: map<U64, U64>)
    requires StraightLine(b) && !Apart(b, added)
    ensures var events := [Enter(b), Load(added), Enter(b)];
      System(events, 0, map[], map[], {BREAKPOINT}) != Reference(events, 0, map[], {BREAKPOINT})
  {
    var none: map<U64, U64>, stops := map[], {BREAKPOINT};
    var w := Weave(b, {}, First(b), Last(b));
    var cache: Cache := map[b := w];
    assert [Enter(b), Load(added), Enter(b)] == [Enter(b)] + [Load(added), Enter(b)];
    SystemSkips(b, [Load(added), Enter(b)], 0, map[], none, stops);
    assert [Load(added), Enter(b)][1..] == [Enter(b)] && none + added == added;
    SystemSkips(b, [], 2, cache, added, stops);
    assert [Enter(b)] + [] == [Enter(b)];
    assert System([Enter(b), Load(added), Enter(b)], 0, map[], none, stops) == NoStop(added);
    ReferenceNone(b, 0, stops);
    var events := [Enter(b), Load(added), Enter(b)];
    assert events[1..] == [Load(added), Enter(b)];
    assert Reference(events, 0, none, stops) == Reference([Load(added), Enter(b)], 1, none, stops);
    assert Reference([Load(added), Enter(b)], 1, none, stops) == Reference([Enter(b)], 2, added, stops);
    var a :| a in added && Contains(b, a);
    ReferenceCounts(b, 0, added, a);
    var r := ReferenceInstrs(b, 0, added, stops);
    assert [Enter(b)][1..] == [];
    assert r.Through? ==> Reference([Enter(b)], 2, added, stops) == NoStop(r.active) && r.active[a] != added[a];
  }

  lemma {:induction false} ReferenceNone(instrs: seq<Instr>, at: nat, stops: set<EventType>)
    ensures ReferenceInstrs(instrs, at, map[], stops) == Through(map[], false)
    decreases |instrs|
  {
    if instrs != [] { ReferenceNone(instrs[1..], at + 1, stops); }
  }

  /** A block with no clean call runs through. */
  lemma {:induction false} RunPlain(
      instrs: seq<Instr>, stops: set<EventType>, active: map<U64, U64>, start: U64, end: U64, at: nat := 0)
    ensures RunItems(Weave(instrs, {}, start, end), at, active, stops, false) == Through(active, false)
  {
    if instrs != [] {
      assert Weave(instrs, {}, start, end)[1..] == Weave(instrs[1..], {}, start, end);
      RunPlain(instrs[1..], stops, active, start, end, at + 1);
    }
  }

  /** A requested relevant-block stop comes at the first block, before any of its breakpoints is counted. */
  lemma RelevantBlockComesFirst(
      loads: seq<Event>, b: Block, after: seq<Event>, active: map<U64, U64>, stops: set<EventType>)
    requires Granted(loads + [Enter(b)] + after) && (forall i :: 0 <= i < |loads| ==> loads[i].Load?)
    requires RELEVANT_BLOCK in stops
    ensures var r := System(loads + [Enter(b)] + after, 0, map[], active, stops);
      r.Stop? && r.index == |loads| && r.at == 0 && r.event == RELEVANT_BLOCK && r.active == Loaded(loads, active)
  {
    FirstStopAgrees(loads + [Enter(b)] + after, active, stops);
    ReferenceLoads(loads, [Enter(b)] + after, 0, active, stops);
    assert loads + [Enter(b)] + after == loads + ([Enter(b)] + after);
  }

  function Loaded(loads: seq<Event>, active: map<U64, U64>): map<U64, U64>
    requires forall i :: 0 <= i < |loads| ==> loads[i].Load?
    decreases |loads|
  {
    if loads == [] then active else Loaded(loads[1..], active + loads[0].added)
  }

  lemma {:induction false} ReferenceLoads(
      loads: seq<Event>, rest: seq<Event>, index: nat, active: map<U64, U64>, stops: set<EventType>)
    requires forall i :: 0 <= i < |loads| ==> loads[i].Load?
    ensures Reference(loads + rest, index, active, stops) ==
      Reference(rest, index + |loads|, Loaded(loads, active), stops)
    decreases |loads|
  {
    if loads == [] {
      assert loads + rest == rest;
    } else {
      assert (loads + rest)[1..] == loads[1..] + rest;
      ReferenceLoads(loads[1..], rest, index + 1, active + loads[0].added, stops);
    }
  }
}
