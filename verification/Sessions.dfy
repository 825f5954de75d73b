/** Request after request: each is resumed where the one before has stopped, with the tables edited in between. */
module Sessions {
  import opened Words
  import opened Types
  import opened Instrument
  import opened Refinement
  import opened Resumption

  // Where a run stops

  /** What is left of the items from the clean call on that stops. */
  function FromStop(items: seq<Item>, active: map<U64, U64>, stops: set<EventType>): seq<Item> {
    if items == [] then []
    else match items[0]
      case App(_) => FromStop(items[1..], active, stops)
      case RelevantCall(_, _) => if RELEVANT_BLOCK in stops then items else FromStop(items[1..], active, stops)
      case CountCall(a, _, _) =>
        if HitOutcome(active, a) == Fired && BREAKPOINT in stops then items
        else FromStop(items[1..], Hit(active, a), stops)
  }

  function SystemStop(events: seq<Event>, cache: Cache, active: map<U64, U64>, stops: set<EventType>): seq<Item>
    decreases |events|
  {
    if events == [] then []
    else match events[0]
      case Load(added) => SystemStop(events[1..], cache, active + added, stops)
      case Enter(b) =>
        var items := Lookup(cache, b, active, stops);
        match RunItems(items, 0, active, stops, false)
        case Halt(_, _, _) => FromStop(items, active, stops)
        case Through(left, stale) => SystemStop(events[1..], if stale then map[] else cache[b := items], left, stops)
  }

  /** The call that stops a resumed run, and what is left behind it. */
  function StopFrom(tail: seq<Item>, events: seq<Event>, active: map<U64, U64>, stops: set<EventType>): seq<Item> {
    match RunItems(tail, 0, active, stops, false)
    case Halt(_, _, _) => FromStop(tail, active, stops)
    case Through(left, _) => SystemStop(events, map[], left, stops)
  }

  /** The reference debugger's place, from what it stopped at. */
  function PlaceFrom(p: Place, events: seq<Event>, r: Run): Place {
    if r.NoStop? then OUTSIDE
    else if r.index == 0 then Place(Drop(p.instrs, r.at), r.event == BREAKPOINT, p.first, p.last)
    else if r.index <= |events| && events[r.index - 1].Enter? then PlaceIn(events[r.index - 1].b, r)
    else OUTSIDE
  }

  function PlaceIn(b: Block, r: Run): Place
    requires r.Stop?
  {
    Place(Drop(b, r.at), r.event == BREAKPOINT, First(b), Last(b))
  }

  function Drop<T>(s: seq<T>, n: nat): seq<T> {
    if n <= |s| then s[n..] else []
  }

  /** Every count call stands in front of its instruction. */
  predicate InFront(items: seq<Item>) {
    items == [] ||
    ((items[0].CountCall? ==> |items| > 1 && IsInstr(items[1], items[0].addr)) && InFront(items[1..]))
  }

  /** Every call names the block's ends. */
  predicate Named(items: seq<Item>, first: U64, last: U64) {
    forall k :: 0 <= k < |items| && !items[k].App? ==> items[k].start == first && items[k].end == last
  }

  /** The thread stands where the reference debugger does, its calls in front of what is left of the breakpoints. */
  predicate Fits(tail: seq<Item>, p: Place, keys: set<U64>) {
    && StandsAt(tail, p) && InFront(tail) && Named(tail, p.first, p.last) && Ahead(tail, p.counted, keys)
    && (p.counted ==> Paired(tail, p.instrs[0].pc))
  }

  /** It has come there by a call that names the block's ends. */
  predicate FitsStop(from: seq<Item>, p: Place, keys: set<U64>) {
    from != [] && !from[0].App? && Named(from[..1], p.first, p.last) && Fits(from[1..], p, keys)
  }

  // A block stops at a fitting place

  /** `items` of the block from `first` to `last`, with a call in front of every instruction at `keys`. */
  predicate Built(items: seq<Item>, first: U64, last: U64, keys: set<U64>) {
    && (forall k :: 0 < k < |items| ==> !items[k].RelevantCall?) && InFront(items) && Named(items, first, last)
    && (forall a :: a in keys ==> Paired(items, a))
  }

  /** If the run of `items` from `at` halts, `from` fits the instruction it halts at. */
  predicate HaltFits(items: seq<Item>, at: nat, r: BlockRun, from: seq<Item>, first: U64, last: U64, keys: set<U64>) {
    r.Halt? ==>
      && at <= r.at && r.active.Keys <= keys
      && FitsStop(from, Place(Drop(Code(items), r.at - at), r.event == BREAKPOINT, first, last), keys)
  }

  lemma BuiltRest(items: seq<Item>, first: U64, last: U64, keys: set<U64>)
    requires items != [] && Built(items, first, last, keys)
    ensures Built(items[1..], first, last, keys) && Reported(items[1..])
    ensures items[0].RelevantCall? ==> Ahead(items[1..], false, keys)
    ensures items[0].CountCall? ==> |items| > 1 && IsInstr(items[1], items[0].addr)
  {
    forall a | a in keys ensures Paired(items[1..], a) && (items[0].RelevantCall? ==> AheadAt(items[1..], false, a)) {
      TailPaired(items, a);
    }
    assert forall k :: 0 <= k < |items[1..]| ==> items[1..][k] == items[k + 1];
  }

  lemma HaltFitsRest(items: seq<Item>, at: nat, r: BlockRun, from: seq<Item>, first: U64, last: U64, keys: set<U64>)
    requires items != [] && HaltFits(items[1..], if items[0].App? then at + 1 else at, r, from, first, last, keys)
    ensures HaltFits(items, at, r, from, first, last, keys)
  {
    var code := Code(items[1..]);
    if items[0].App? {
      assert Code(items) == [items[0].instr] + code;
      assert r.Halt? ==> Drop(Code(items), r.at - at) == Drop(code, r.at - (at + 1));
    } else {
      assert Code(items) == code;
    }
  }

  /** A stop at a call that names the block's ends, with what is behind it fitting. */
  lemma CallFits(items: seq<Item>, at: nat, event: EventType, active: map<U64, U64>, keys: set<U64>)
    requires items != [] && !items[0].App? && active.Keys <= keys
    requires Fits(items[1..], Place(Code(items[1..]), event == BREAKPOINT, items[0].start, items[0].end), keys)
    ensures HaltFits(items, at, Halt(at, event, active), items, items[0].start, items[0].end, keys)
  {
    assert Code(items) == [] + Code(items[1..]) == Code(items[1..]);
    assert Drop(Code(items), 0) == Code(items);
    assert Named(items[..1], items[0].start, items[0].end);
  }

  lemma FirstNamed(items: seq<Item>, first: U64, last: U64, keys: set<U64>)
    requires items != [] && !items[0].App? && Built(items, first, last, keys)
    ensures items[0].start == first && items[0].end == last
  {
  }

  lemma ReportFits(items: seq<Item>, at: nat, active: map<U64, U64>, first: U64, last: U64, keys: set<U64>)
    requires items != [] && items[0].RelevantCall? && Built(items, first, last, keys) && active.Keys <= keys
    ensures HaltFits(items, at, Halt(at, RELEVANT_BLOCK, active), items, first, last, keys)
  {
    BuiltRest(items, first, last, keys);
    FirstNamed(items, first, last, keys);
    CallFits(items, at, RELEVANT_BLOCK, active, keys);
  }

  lemma BreakFits(items: seq<Item>, at: nat, active: map<U64, U64>, first: U64, last: U64, keys: set<U64>)
    requires items != [] && items[0].CountCall? && items[0].addr in keys && Built(items, first, last, keys)
    requires active.Keys <= keys
    ensures HaltFits(items, at, Halt(at, BREAKPOINT, active), items, first, last, keys)
  {
    BuiltRest(items, first, last, keys);
    FirstNamed(items, first, last, keys);
    BehindCall(items[1..], items[0].addr, first, last, keys);
    CallFits(items, at, BREAKPOINT, active, keys);
  }

  /** Behind the call for `a` it stands at a breakpoint. */
  lemma BehindCall(tail: seq<Item>, a: U64, first: U64, last: U64, keys: set<U64>)
    requires tail != [] && IsInstr(tail[0], a) && a in keys && Built(tail, first, last, keys) && Reported(tail)
    ensures Fits(tail, Place(Code(tail), true, first, last), keys)
  {
    assert Code(tail)[0] == tail[0].instr;
    forall k | k in keys ensures AheadAt(tail, true, k) { assert Paired(tail, k); }
  }

  lemma {:induction false} FromStopFits(items: seq<Item>, at: nat, active: map<U64, U64>, stops: set<EventType>,
                                        stale: bool, first: U64, last: U64, keys: set<U64>)
    requires Built(items, first, last, keys) && active.Keys <= keys
    ensures HaltFits(items, at, RunItems(items, at, active, stops, stale), FromStop(items, active, stops),
                     first, last, keys)
    decreases |items|
  {
    if items != [] {
      var r, from := RunItems(items, at, active, stops, stale), FromStop(items, active, stops);
      BuiltRest(items, first, last, keys);
      match items[0]
      case App(_) =>
        FromStopFits(items[1..], at + 1, active, stops, stale, first, last, keys);
        HaltFitsRest(items, at, r, from, first, last, keys);
      case RelevantCall(_, _) =>
        if RELEVANT_BLOCK in stops {
          ReportFits(items, at, active, first, last, keys);
        } else {
          FromStopFits(items[1..], at, active, stops, stale, first, last, keys);
          HaltFitsRest(items, at, r, from, first, last, keys);
        }
      case CountCall(a, _, _) =>
        HitKeys(active, a);
        if HitOutcome(active, a) == Fired && BREAKPOINT in stops {
          BreakFits(items, at, Hit(active, a), first, last, keys);
        } else {
          FromStopFits(items[1..], at, Hit(active, a), stops, stale || HitOutcome(active, a) == Stale,
                       first, last, keys);
          HaltFitsRest(items, at, r, from, first, last, keys);
        }
    }
  }

  /** `items` are `instrs` with calls between them. */
  predicate Spells(items: seq<Item>, instrs: seq<Instr>, first: U64, last: U64) {
    Code(items) == instrs && InFront(items) && Reported(items) && Named(items, first, last)
  }

  lemma InstrSpells(i: Instr, items: seq<Item>, instrs: seq<Instr>, first: U64, last: U64)
    requires Spells(items, instrs, first, last)
    ensures Spells([App(i)] + items, [i] + instrs, first, last)
  {
    assert ([App(i)] + items)[1..] == items;
  }

  lemma CallSpells(i: Instr, items: seq<Item>, instrs: seq<Instr>, first: U64, last: U64)
    requires Spells([App(i)] + items, instrs, first, last)
    ensures Spells([CountCall(i.pc, first, last), App(i)] + items, instrs, first, last)
  {
    var own, all := [App(i)] + items, [CountCall(i.pc, first, last), App(i)] + items;
    assert all[1..] == own;
    assert forall k :: 0 < k < |all| ==> all[k] == own[k - 1];
  }

  lemma {:induction false} WeaveSpells(instrs: seq<Instr>, marked: set<U64>, first: U64, last: U64)
    ensures Spells(Weave(instrs, marked, first, last), instrs, first, last)
    decreases |instrs|
  {
    if instrs != [] {
      var i, rest := instrs[0], Weave(instrs[1..], marked, first, last);
      WeaveSpells(instrs[1..], marked, first, last);
      InstrSpells(i, rest, instrs[1..], first, last);
      assert [i] + instrs[1..] == instrs;
      if i.pc in marked {
        CallSpells(i, rest, instrs, first, last);
        assert [CountCall(i.pc, first, last)] + [App(i)] + rest == [CountCall(i.pc, first, last), App(i)] + rest;
      } else {
        assert [] + [App(i)] + rest == [App(i)] + rest;
      }
    }
  }

  lemma CoveredBuilt(items: seq<Item>, b: Block, active: map<U64, U64>, stops: set<EventType>)
    requires Covers(items, b, active, stops)
    ensures Code(items) == b && Built(items, First(b), Last(b), active.Keys)
  {
    var marked: set<U64> :| MarksActive(marked, b, active) && items == Emit(b, marked, RELEVANT_BLOCK in stops);
    var w := Weave(b, marked, First(b), Last(b));
    WeaveSpells(b, marked, First(b), Last(b));
    if RELEVANT_BLOCK in stops {
      assert items == [RelevantCall(First(b), Last(b))] + w && items[1..] == w;
    } else {
      assert items == w;
    }
    forall a | a in active ensures Paired(items, a) { CoveredPaired(items, b, active, stops, a); }
  }

  lemma FitsFewer(from: seq<Item>, p: Place, keys: set<U64>, fewer: set<U64>)
    requires FitsStop(from, p, keys) && fewer <= keys
    ensures FitsStop(from, p, fewer)
  {
  }

  lemma BlockFits(items: seq<Item>, b: Block, active: map<U64, U64>, stops: set<EventType>, index: nat)
    requires Covers(items, b, active, stops)
    ensures var r := RunItems(items, 0, active, stops, false);
      r.Halt? ==>
        FitsStop(FromStop(items, active, stops), PlaceIn(b, Stop(index, r.at, r.event, r.active)), r.active.Keys)
  {
    CoveredBuilt(items, b, active, stops);
    FromStopFits(items, 0, active, stops, false, First(b), Last(b), active.Keys);
    var r := RunItems(items, 0, active, stops, false);
    if r.Halt? {
      FitsFewer(FromStop(items, active, stops), PlaceIn(b, Stop(index, r.at, r.event, r.active)),
                active.Keys, r.active.Keys);
    }
  }

  /** If the run of `events` from number `index` stops, `from` fits the place. */
  predicate StopFits(events: seq<Event>, index: nat, r: Run, from: seq<Item>) {
    r.Stop? ==>
      && index <= r.index < index + |events| && events[r.index - index].Enter?
      && FitsStop(from, PlaceIn(events[r.index - index].b, r), r.active.Keys)
  }

  lemma StopFitsRest(events: seq<Event>, index: nat, r: Run, from: seq<Item>)
    requires events != [] && StopFits(events[1..], index + 1, r, from)
    ensures StopFits(events, index, r, from)
  {
  }

  /** The run of the events behind an entered block that is run through. */
  lemma PastBlock(events: seq<Event>, index: nat, cache: Cache, active: map<U64, U64>, stops: set<EventType>)
      returns (next: Cache, left: map<U64, U64>)
    requires events != [] && events[0].Enter?
    requires RunItems(Lookup(cache, events[0].b, active, stops), 0, active, stops, false).Through?
    requires Granted(events) && CoveredCache(cache, active, stops, events)
    ensures Granted(events[1..]) && CoveredCache(next, left, stops, events[1..])
    ensures System(events, index, cache, active, stops) == System(events[1..], index + 1, next, left, stops)
    ensures SystemStop(events, cache, active, stops) == SystemStop(events[1..], next, left, stops)
  {
    EnterCovers(events, cache, active, stops);
    var items := Lookup(cache, events[0].b, active, stops);
    var run := RunItems(items, 0, active, stops, false);
    next, left := if run.stale then map[] else cache[events[0].b := items], run.active;
  }

  lemma AtBlock(events: seq<Event>, index: nat, cache: Cache, active: map<U64, U64>, stops: set<EventType>)
    requires events != [] && events[0].Enter?
    requires RunItems(Lookup(cache, events[0].b, active, stops), 0, active, stops, false).Halt?
    requires Granted(events) && CoveredCache(cache, active, stops, events)
    ensures StopFits(events, index, System(events, index, cache, active, stops),
                     SystemStop(events, cache, active, stops))
  {
    EnterCovers(events, cache, active, stops);
    BlockFits(Lookup(cache, events[0].b, active, stops), events[0].b, active, stops, index);
  }

  lemma {:induction false} SystemStopFits(
      events: seq<Event>, index: nat, cache: Cache, active: map<U64, U64>, stops: set<EventType>)
    requires Granted(events) && CoveredCache(cache, active, stops, events)
    ensures StopFits(events, index, System(events, index, cache, active, stops),
                     SystemStop(events, cache, active, stops))
    decreases |events|
  {
    if events != [] {
      var r, from := System(events, index, cache, active, stops), SystemStop(events, cache, active, stops);
      if events[0].Load? {
        LoadCovers(events, cache, active, stops);
        SystemStopFits(events[1..], index + 1, cache, active + events[0].added, stops);
        StopFitsRest(events, index, r, from);
      } else if RunItems(Lookup(cache, events[0].b, active, stops), 0, active, stops, false).Through? {
        var next, left := PastBlock(events, index, cache, active, stops);
        SystemStopFits(events[1..], index + 1, next, left, stops);
        StopFitsRest(events, index, r, from);
      } else {
        AtBlock(events, index, cache, active, stops);
      }
    }
  }

  // Sessions

  /** One request: what is added and deleted before it, what it waits for, and what the program does next. */
  datatype Request = Request(edit: map<U64, U64> -> map<U64, U64>, stops: set<EventType>, events: seq<Event>)

  /** The stops of the instrumented program; a request that meets none does not return. */
  function SystemSession(tail: seq<Item>, active: map<U64, U64>, requests: seq<Request>): seq<Run>
    decreases |requests|
  {
    if requests == [] then []
    else
      var q := requests[0];
      var now := q.edit(active);
      var r := SystemFrom(tail, q.events, now, q.stops);
      if r.NoStop? then [r]
      else
        var from := StopFrom(tail, q.events, now, q.stops);
        [r] + SystemSession(if from == [] then [] else from[1..], r.active, requests[1..])
  }

  function ReferenceSession(p: Place, active: map<U64, U64>, requests: seq<Request>): seq<Run>
    decreases |requests|
  {
    if requests == [] then []
    else
      var q := requests[0];
      var r := ReferenceFrom(p, q.events, q.edit(active), q.stops);
      if r.NoStop? then [r] else [r] + ReferenceSession(PlaceFrom(p, q.events, r), r.active, requests[1..])
  }

  /** Nothing is added at what is left of the block, but where the program stands at a breakpoint. */
  predicate AddsOutside(p: Place, was: map<U64, U64>, now: map<U64, U64>) {
    forall a :: a in now ==> a in was || Outside(p, a)
  }

  predicate Outside(p: Place, a: U64) {
    (p.counted && p.instrs != [] && p.instrs[0].pc == a) || forall i :: 0 <= i < |p.instrs| ==> p.instrs[i].pc != a
  }

  predicate EditsFit(p: Place, active: map<U64, U64>, requests: seq<Request>)
    decreases |requests|
  {
    requests == [] ||
    var q := requests[0];
    var r := ReferenceFrom(p, q.events, q.edit(active), q.stops);
    && AddsOutside(p, active, q.edit(active)) && Granted(q.events)
    && (r.Stop? ==> EditsFit(PlaceFrom(p, q.events, r), r.active, requests[1..]))
  }

  lemma {:induction false} InFrontAt(items: seq<Item>, k: nat)
    requires InFront(items) && k < |items| && items[k].CountCall?
    ensures k + 1 < |items| && IsInstr(items[k + 1], items[k].addr)
  {
    if k > 0 { InFrontAt(items[1..], k - 1); }
  }

  lemma OutsidePaired(tail: seq<Item>, p: Place, keys: set<U64>, a: U64)
    requires Fits(tail, p, keys) && Outside(p, a)
    ensures AheadAt(tail, p.counted, a)
  {
    if !(p.counted && p.instrs != [] && p.instrs[0].pc == a) {
      forall k | 0 <= k < |tail| ensures !IsInstr(tail[k], a) && !IsCount(tail[k], a) {
        if IsInstr(tail[k], a) { CodeHas(tail, k); }
        if IsCount(tail[k], a) { InFrontAt(tail, k); CodeHas(tail, k + 1); }
      }
    }
  }

  lemma EditFits(tail: seq<Item>, p: Place, was: map<U64, U64>, now: map<U64, U64>)
    requires Fits(tail, p, was.Keys) && AddsOutside(p, was, now)
    ensures Fits(tail, p, now.Keys)
  {
    forall a | a in now ensures AheadAt(tail, p.counted, a) {
      if a !in was { OutsidePaired(tail, p, was.Keys, a); }
    }
  }

  lemma FitsBuilt(tail: seq<Item>, p: Place, keys: set<U64>)
    requires Fits(tail, p, keys)
    ensures Built(tail, p.first, p.last, keys)
  {
    forall a | a in keys ensures Paired(tail, a) { assert AheadAt(tail, p.counted, a); }
  }

  /** In the rest of the block. */
  lemma RestStopFits(tail: seq<Item>, p: Place, active: map<U64, U64>, stops: set<EventType>)
    requires Fits(tail, p, active.Keys) && RunItems(tail, 0, active, stops, false).Halt?
    ensures var r := RunItems(tail, 0, active, stops, false);
      FitsStop(FromStop(tail, active, stops),
               Place(Drop(p.instrs, r.at), r.event == BREAKPOINT, p.first, p.last), r.active.Keys)
  {
    var r := RunItems(tail, 0, active, stops, false);
    var place := Place(Drop(p.instrs, r.at), r.event == BREAKPOINT, p.first, p.last);
    assert Code(tail) == p.instrs;
    FitsBuilt(tail, p, active.Keys);
    FromStopFits(tail, 0, active, stops, false, p.first, p.last, active.Keys);
    FitsFewer(FromStop(tail, active, stops), place, active.Keys, r.active.Keys);
  }

  /** Both come to stand at the same place. */
  lemma StopFromFits(tail: seq<Item>, p: Place, events: seq<Event>, active: map<U64, U64>, stops: set<EventType>)
    requires Fits(tail, p, active.Keys) && Granted(events)
    ensures var r := SystemFrom(tail, events, active, stops);
      r.Stop? ==> FitsStop(StopFrom(tail, events, active, stops), PlaceFrom(p, events, r), r.active.Keys)
  {
    var run := RunItems(tail, 0, active, stops, false);
    if run.Halt? {
      RestStopFits(tail, p, active, stops);
    } else {
      SystemStopFits(events, 1, map[], run.active, stops);
    }
  }

  lemma {:induction false} SessionFrom(tail: seq<Item>, p: Place, active: map<U64, U64>, requests: seq<Request>)
    requires Fits(tail, p, active.Keys) && EditsFit(p, active, requests)
    ensures SystemSession(tail, active, requests) == ReferenceSession(p, active, requests)
    decreases |requests|
  {
    if requests != [] {
      var q := requests[0];
      var now := q.edit(active);
      EditFits(tail, p, active, now);
      ResumedAgrees(tail, p, q.events, now, q.stops);
      StopFromFits(tail, p, q.events, now, q.stops);
      var r := SystemFrom(tail, q.events, now, q.stops);
      if r.Stop? {
        SessionFrom(StopFrom(tail, q.events, now, q.stops)[1..], PlaceFrom(p, q.events, r), r.active, requests[1..]);
      }
    }
  }

  /** Request after request, each resumed where the one before has stopped, with any breakpoints deleted in between and
      any added outside what is left of the block: the instrumented program makes the stops of the reference debugger,
      with the same events and tables. */
  lemma SessionAgrees(active: map<U64, U64>, requests: seq<Request>)
    requires EditsFit(OUTSIDE, active, requests)
    ensures SystemSession([], active, requests) == ReferenceSession(OUTSIDE, active, requests)
  {
    SessionFrom([], OUTSIDE, active, requests);
  }
}
