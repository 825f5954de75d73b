/** Requests after the first: the thread goes on inside the block it was stopped in, whose clean calls were inserted for
    an earlier table. */
module Resumption {
  import opened Words
  import opened Types
  import opened Instrument
  import opened Refinement

  /** The instructions among what is left of a block. */
  function Code(tail: seq<Item>): seq<Instr> {
    if tail == [] then [] else (if tail[0].App? then [tail[0].instr] else []) + Code(tail[1..])
  }

  /** Where the reference debugger has stopped: in the block from `first` to `last`, before the first of `instrs`, which
      it has `counted` if that was a breakpoint. */
  datatype Place = Place(instrs: seq<Instr>, counted: bool, first: U64, last: U64)

  const OUTSIDE := Place([], false, 0, 0)

  function ReferenceRest(p: Place, active: map<U64, U64>, stops: set<EventType>): BlockRun {
    if p.counted && p.instrs != [] then ReferenceInstrs(p.instrs[1..], 1, active, stops)
    else ReferenceInstrs(p.instrs, 0, active, stops)
  }

  /** The rest of the block, number 0, and then the events. */
  function ReferenceFrom(p: Place, events: seq<Event>, active: map<U64, U64>, stops: set<EventType>): Run {
    match ReferenceRest(p, active, stops)
    case Halt(at, e, left) => Stop(0, at, e, left)
    case Through(left, _) => Reference(events, 1, left, stops)
  }

  /** The same of the instrumented program; every request starts from a flushed cache. */
  function SystemFrom(tail: seq<Item>, events: seq<Event>, active: map<U64, U64>, stops: set<EventType>): Run {
    match RunItems(tail, 0, active, stops, false)
    case Halt(at, e, left) => Stop(0, at, e, left)
    case Through(left, _) => System(events, 1, map[], left, stops)
  }

  /** The block reports itself at its beginning only. */
  predicate Reported(tail: seq<Item>) {
    forall k :: 0 <= k < |tail| ==> !tail[k].RelevantCall?
  }

  /** Every instruction left at an address of `keys`, but one that is counted already, has its call in front. */
  predicate Ahead(tail: seq<Item>, counted: bool, keys: set<U64>) {
    forall a :: a in keys ==> AheadAt(tail, counted, a)
  }

  predicate AheadAt(tail: seq<Item>, counted: bool, a: U64) {
    Paired(tail, a) && (counted || tail == [] || !IsInstr(tail[0], a))
  }

  // One request

  lemma AheadPlain(tail: seq<Item>, keys: set<U64>)
    requires Reported(tail) && Ahead(tail, false, keys) && tail != [] && (tail[0].App? || tail[0].addr !in keys)
    ensures Reported(tail[1..]) && Ahead(tail[1..], false, keys) && (tail[0].App? ==> tail[0].instr.pc !in keys)
  {
    forall a | a in keys ensures AheadAt(tail[1..], false, a) && !IsInstr(tail[0], a) {
      assert AheadAt(tail, false, a);
    }
  }

  lemma AheadPair(tail: seq<Item>, keys: set<U64>)
    requires Reported(tail) && Ahead(tail, false, keys) && tail != [] && tail[0].CountCall? && tail[0].addr in keys
    ensures |tail| > 1 && IsInstr(tail[1], tail[0].addr) && Reported(tail[2..]) && Ahead(tail[2..], false, keys)
  {
    assert AheadAt(tail, false, tail[0].addr) && IsCount(tail[0], tail[0].addr);
    forall a | a in keys ensures AheadAt(tail[2..], false, a) {
      assert AheadAt(tail, false, a);
      assert |tail| > 2 && IsInstr(tail[2], a) ==> IsCount(tail[1], a);
    }
  }

  lemma HitKeys(active: map<U64, U64>, a: U64)
    ensures Hit(active, a).Keys <= active.Keys
  {
  }

  lemma AheadFewer(tail: seq<Item>, keys: set<U64>, fewer: set<U64>)
    requires Ahead(tail, false, keys) && fewer <= keys
    ensures Ahead(tail, false, fewer)
  {
  }

  predicate Same(r: BlockRun, s: BlockRun, active: map<U64, U64>) {
    if r.Halt? then s == r else s.Through? && s.active == r.active && r.active.Keys <= active.Keys
  }

  /** One counted instruction on both sides. */
  lemma CountedStep(tail: seq<Item>, at: nat, active: map<U64, U64>, stops: set<EventType>, stale: bool)
    requires |tail| > 1 && tail[0].CountCall? && tail[0].addr in active && IsInstr(tail[1], tail[0].addr)
    ensures var a := tail[0].addr;
      if HitOutcome(active, a) == Fired && BREAKPOINT in stops then
        && ReferenceInstrs(Code(tail), at, active, stops) == Halt(at, BREAKPOINT, Hit(active, a))
        && RunItems(tail, at, active, stops, stale) == Halt(at, BREAKPOINT, Hit(active, a))
      else
        && ReferenceInstrs(Code(tail), at, active, stops)
             == ReferenceInstrs(Code(tail[2..]), at + 1, Hit(active, a), stops)
        && RunItems(tail, at, active, stops, stale) == RunItems(tail[2..], at + 1, Hit(active, a), stops, stale)
  {
    var code := Code(tail[2..]);
    assert tail[1..][1..] == tail[2..];
    assert Code(tail) == Code(tail[1..]) == [tail[1].instr] + code && ([tail[1].instr] + code)[1..] == code;
  }

  lemma PlainStep(tail: seq<Item>, at: nat, active: map<U64, U64>, stops: set<EventType>, stale: bool)
    requires tail != [] && tail[0].App? && tail[0].instr.pc !in active
    ensures ReferenceInstrs(Code(tail), at, active, stops) == ReferenceInstrs(Code(tail[1..]), at + 1, active, stops)
    ensures RunItems(tail, at, active, stops, stale) == RunItems(tail[1..], at + 1, active, stops, stale)
  {
    assert Code(tail) == [tail[0].instr] + Code(tail[1..]) && Code(tail)[1..] == Code(tail[1..]);
  }

  lemma {:induction false} RunAhead(tail: seq<Item>, at: nat, active: map<U64, U64>, stops: set<EventType>, stale: bool)
    requires Reported(tail) && Ahead(tail, false, active.Keys)
    ensures Same(ReferenceInstrs(Code(tail), at, active, stops), RunItems(tail, at, active, stops, stale), active)
    decreases |tail|
  {
    if tail != [] {
      if tail[0].App? {
        AheadPlain(tail, active.Keys);
        PlainStep(tail, at, active, stops, stale);
        RunAhead(tail[1..], at + 1, active, stops, stale);
      } else if tail[0].addr !in active {
        AheadPlain(tail, active.Keys);
        assert Code(tail) == [] + Code(tail[1..]) == Code(tail[1..]);
        RunAhead(tail[1..], at, active, stops, true);
      } else {
        var now := Hit(active, tail[0].addr);
        AheadPair(tail, active.Keys);
        CountedStep(tail, at, active, stops, stale);
        HitKeys(active, tail[0].addr);
        AheadFewer(tail[2..], active.Keys, now.Keys);
        RunAhead(tail[2..], at + 1, now, stops, stale);
      }
    }
  }

  /** The thread stands where `p` says. */
  predicate StandsAt(tail: seq<Item>, p: Place) {
    Code(tail) == p.instrs && Reported(tail) && (p.counted ==> tail != [] && tail[0].App?)
  }

  lemma RestAgrees(tail: seq<Item>, p: Place, active: map<U64, U64>, stops: set<EventType>)
    requires StandsAt(tail, p) && Ahead(tail, p.counted, active.Keys)
    ensures Same(ReferenceRest(p, active, stops), RunItems(tail, 0, active, stops, false), active)
  {
    if p.counted {
      forall a | a in active ensures AheadAt(tail[1..], false, a) { assert AheadAt(tail, p.counted, a); }
      assert Code(tail) == [tail[0].instr] + Code(tail[1..]);
      RunAhead(tail[1..], 1, active, stops, false);
    } else {
      RunAhead(tail, 0, active, stops, false);
    }
  }

  lemma ResumedAgrees(tail: seq<Item>, p: Place, events: seq<Event>, active: map<U64, U64>, stops: set<EventType>)
    requires StandsAt(tail, p) && Ahead(tail, p.counted, active.Keys) && Granted(events)
    ensures SystemFrom(tail, events, active, stops) == ReferenceFrom(p, events, active, stops)
  {
    RestAgrees(tail, p, active, stops);
    var r := ReferenceRest(p, active, stops);
    if r.Through? { SystemFollows(events, 1, map[], r.active, stops); }
  }

  // Exactly when

  lemma {:induction false} UncountedStays(tail: seq<Item>, at: nat, active: map<U64, U64>, stale: bool, a: U64)
    requires Uncounted(tail, a) && Reported(tail) && a in active
    ensures var s := RunItems(tail, at, active, {}, stale); s.Through? && a in s.active && s.active[a] == active[a]
    decreases |tail|
  {
    if tail != [] {
      var i := tail[0];
      assert Uncounted(tail[1..], a) by {
        assert forall k :: 0 <= k < |tail[1..]| ==> tail[1..][k] == tail[k + 1];
      }
      assert !IsCount(i, a);
      match i
      case App(_) => UncountedStays(tail[1..], at + 1, active, stale, a);
      case CountCall(c, _, _) =>
        UncountedStays(tail[1..], at, Hit(active, c), stale || HitOutcome(active, c) == Stale, a);
    }
  }

  lemma {:induction false} ReferenceTakes(instrs: seq<Instr>, at: nat, active: map<U64, U64>, a: U64)
    requires a in active ==> active[a] == 1
    ensures var r := ReferenceInstrs(instrs, at, active, {});
      r.Through? && (a in r.active ==>
        a in active && r.active[a] == 1 && forall i :: 0 <= i < |instrs| ==> instrs[i].pc != a)
    decreases |instrs|
  {
    if instrs != [] {
      ReferenceTakes(instrs[1..], at + 1, Hit(active, instrs[0].pc), a);
      assert forall i :: 0 < i < |instrs| ==> instrs[i] == instrs[1..][i - 1];
    }
  }

  lemma {:induction false} CodeHas(tail: seq<Item>, k: nat)
    requires k < |tail| && tail[k].App?
    ensures exists i :: 0 <= i < |Code(tail)| && Code(tail)[i] == tail[k].instr
  {
    if k == 0 {
      assert Code(tail)[0] == tail[0].instr;
    } else {
      CodeHas(tail[1..], k - 1);
      var i :| 0 <= i < |Code(tail[1..])| && Code(tail[1..])[i] == tail[k].instr;
      assert Code(tail)[if tail[0].App? then i + 1 else i] == tail[k].instr;
    }
  }

  /** An uncounted instruction shows: with its breakpoint at one hit and no stop asked for, it stays in the table of the
      instrumented program only; with breakpoint stops asked for, one at the head stops the reference debugger only. */
  lemma BareDiffers(tail: seq<Item>, p: Place, active: map<U64, U64>, a: U64)
    requires StandsAt(tail, p) && Even(tail, a) && !AheadAt(tail, p.counted, a) && a in active && active[a] == 1
    ensures exists stops :: SystemFrom(tail, [], active, stops) != ReferenceFrom(p, [], active, stops)
  {
    if !p.counted && IsInstr(tail[0], a) {
      assert Code(tail)[0] == tail[0].instr;
      RunsOn(tail, active, {BREAKPOINT});
      assert SystemFrom(tail, [], active, {BREAKPOINT}) != ReferenceFrom(p, [], active, {BREAKPOINT});
    } else {
      var k :| 0 < k < |tail| && IsInstr(tail[k], a);
      UncountedStays(tail, 0, active, false, a);
      BareTaken(tail, p, active, k, a);
      assert SystemFrom(tail, [], active, {}) != ReferenceFrom(p, [], active, {});
    }
  }

  lemma BareTaken(tail: seq<Item>, p: Place, active: map<U64, U64>, k: nat, a: U64)
    requires StandsAt(tail, p) && 0 < k < |tail| && IsInstr(tail[k], a) && a in active && active[a] == 1
    ensures var r := ReferenceRest(p, active, {}); r.Through? && a !in r.active
  {
    if p.counted {
      assert tail[1..][k - 1] == tail[k];
      CodeHas(tail[1..], k - 1);
      ReferenceTakes(Code(tail[1..]), 1, active, a);
      assert Code(tail) == [tail[0].instr] + Code(tail[1..]) && Code(tail)[1..] == Code(tail[1..]);
    } else {
      CodeHas(tail, k);
      ReferenceTakes(Code(tail), 0, active, a);
    }
  }

  /** A tail that begins with an instruction does not stop before it. */
  lemma RunsOn(tail: seq<Item>, active: map<U64, U64>, stops: set<EventType>)
    requires tail != [] && tail[0].App?
    ensures var s := RunItems(tail, 0, active, stops, false); s.Halt? ==> s.at > 0
  {
    RunForward(tail[1..], 1, active, stops, false);
  }

  lemma {:induction false} RunForward(
      tail: seq<Item>, at: nat, active: map<U64, U64>, stops: set<EventType>, stale: bool)
    ensures var s := RunItems(tail, at, active, stops, stale); s.Halt? ==> s.at >= at
    decreases |tail|
  {
    if tail != [] {
      match tail[0]
      case App(_) => RunForward(tail[1..], at + 1, active, stops, stale);
      case RelevantCall(_, _) => RunForward(tail[1..], at, active, stops, stale);
      case CountCall(a, _, _) =>
        RunForward(tail[1..], at, Hit(active, a), stops, stale || HitOutcome(active, a) == Stale);
    }
  }

  /** What is left of a block is run as the reference debugger would, for all counts of the breakpoints at `keys`, every
      stop set and whatever comes after, exactly if every instruction left at one of them has its call in front. */
  lemma ResumedExactly(tail: seq<Item>, p: Place, keys: set<U64>)
    requires StandsAt(tail, p) && forall a :: a in keys ==> Even(tail, a)
    ensures Ahead(tail, p.counted, keys) <==>
      forall events, active: map<U64, U64>, stops :: Granted(events) && active.Keys == keys ==>
        SystemFrom(tail, events, active, stops) == ReferenceFrom(p, events, active, stops)
  {
    if Ahead(tail, p.counted, keys) {
      forall events, active: map<U64, U64>, stops | Granted(events) && active.Keys == keys
        ensures SystemFrom(tail, events, active, stops) == ReferenceFrom(p, events, active, stops)
      {
        ResumedAgrees(tail, p, events, active, stops);
      }
    } else {
      var a :| a in keys && !AheadAt(tail, p.counted, a);
      var active: map<U64, U64> := map k | k in keys :: 1;
      BareDiffers(tail, p, active, a);
      assert Granted([]) && active.Keys == keys;
    }
  }

}
