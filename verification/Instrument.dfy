/** Instrumented code: what `event_basic_block` inserts, and what one breakpoint clean call does to the table. */
module Instrument {
  import opened Words
  import opened Types

  datatype Instr = Instr(pc: U64, len: nat)

  /** The application instructions of a basic block; never empty. */
  type Block = b: seq<Instr> | |b| > 0 witness [Instr(0, 1)]

  /** An element of an instruction list: an application instruction or an inserted clean call. */
  datatype Item =
    | App(instr: Instr)
    | CountCall(addr: U64, start: U64, end: U64)     // update_fastforward_count
    | RelevantCall(start: U64, end: U64)             // relevant_block_clean_call

  function First(b: Block): U64 {
    b[0].pc
  }

  /** One past the last instruction. */
  function Last(b: Block): U64 {
    AsU64(b[|b| - 1].pc + b[|b| - 1].len)
  }

  /** The test that guards the scan of a block; note the inclusive upper end. */
  predicate InRange(b: Block, active: map<U64, U64>) {
    exists a :: a in active && First(b) <= a <= Last(b)
  }

  /** A count call in front of every marked instruction. */
  function Weave(instrs: seq<Instr>, marked: set<U64>, start: U64, end: U64): seq<Item> {
    if instrs == [] then []
    else (if instrs[0].pc in marked then [CountCall(instrs[0].pc, start, end)] else [])
         + [App(instrs[0])] + Weave(instrs[1..], marked, start, end)
  }

  function Marked(b: Block, active: map<U64, U64>): set<U64> {
    if InRange(b, active) then active.Keys else {}
  }

  function Emit(b: Block, marked: set<U64>, relevant: bool): seq<Item> {
    (if relevant then [RelevantCall(First(b), Last(b))] else []) + Weave(b, marked, First(b), Last(b))
  }

  /** What `event_basic_block` makes of a block. */
  function Instrumented(b: Block, active: map<U64, U64>, stops: set<EventType>): seq<Item> {
    Emit(b, Marked(b, active), RELEVANT_BLOCK in stops)
  }

  /** Blocks whose instructions lie between their ends, as they do when no jump is elided. */
  predicate StraightLine(b: Block) {
    forall i :: 0 <= i < |b| ==> First(b) <= b[i].pc <= Last(b)
  }

  /** The coverage promise: the block with a count call directly in front of at least every active instruction,
      beginning with its own report exactly if asked to. */
  ghost predicate Covers(items: seq<Item>, b: Block, active: map<U64, U64>, stops: set<EventType>) {
    exists marked: set<U64> :: MarksActive(marked, b, active) && items == Emit(b, marked, RELEVANT_BLOCK in stops)
  }

  predicate MarksActive(marked: set<U64>, b: Block, active: map<U64, U64>) {
    forall i :: 0 <= i < |b| && b[i].pc in active ==> b[i].pc in marked
  }

  /** The instruction at `k` stands directly behind its own count call. */
  predicate CountedAt(items: seq<Item>, k: nat)
    requires k < |items| && items[k].App?
  {
    k > 0 && items[k - 1].CountCall? && items[k - 1].addr == items[k].instr.pc
  }

  lemma {:induction false} WeaveCalls(instrs: seq<Instr>, marked: set<U64>, start: U64, end: U64, c: Item)
    requires !c.App?
    ensures c in Weave(instrs, marked, start, end) <==>
      exists i :: 0 <= i < |instrs| && instrs[i].pc in marked && c == CountCall(instrs[i].pc, start, end)
  {
    if instrs != [] {
      WeaveCalls(instrs[1..], marked, start, end, c);
      assert instrs == [instrs[0]] + instrs[1..];
      if i :| 0 <= i < |instrs[1..]| && instrs[1..][i].pc in marked && c == CountCall(instrs[1..][i].pc, start, end) {
        assert instrs[i + 1] == instrs[1..][i];
      }
      if i :| 0 <= i < |instrs| && instrs[i].pc in marked && c == CountCall(instrs[i].pc, start, end) {
        if i > 0 { assert instrs[1..][i - 1] == instrs[i]; }
      }
    }
  }

  lemma {:induction false} WeaveCounts(instrs: seq<Instr>, marked: set<U64>, start: U64, end: U64, k: nat)
    requires k < |Weave(instrs, marked, start, end)| && Weave(instrs, marked, start, end)[k].App?
    requires Weave(instrs, marked, start, end)[k].instr.pc in marked
    ensures CountedAt(Weave(instrs, marked, start, end), k)
  {
    var w, rest := Weave(instrs, marked, start, end), Weave(instrs[1..], marked, start, end);
    var n := |w| - |rest|;
    assert w[n..] == rest;
    if k >= n {
      assert rest[k - n] == w[k];
      WeaveCounts(instrs[1..], marked, start, end, k - n);
      assert rest[k - n - 1] == w[k - 1];
    }
  }

  /** So in a covered block every active instruction is counted right before it is executed, and a requested report
      comes first. */
  lemma CoveredIsCounted(items: seq<Item>, b: Block, active: map<U64, U64>, stops: set<EventType>)
    requires Covers(items, b, active, stops)
    ensures forall k :: 0 <= k < |items| && items[k].App? && items[k].instr.pc in active ==> CountedAt(items, k)
    ensures RELEVANT_BLOCK in stops ==> items[0] == RelevantCall(First(b), Last(b))
  {
    var marked: set<U64> :| MarksActive(marked, b, active) && items == Emit(b, marked, RELEVANT_BLOCK in stops);
    forall k | 0 <= k < |items| && items[k].App? && items[k].instr.pc in active ensures CountedAt(items, k) {
      EmitCounts(b, marked, RELEVANT_BLOCK in stops, active, k);
    }
  }

  lemma EmitCounts(b: Block, marked: set<U64>, relevant: bool, active: map<U64, U64>, k: nat)
    requires MarksActive(marked, b, active)
    requires k < |Emit(b, marked, relevant)| && Emit(b, marked, relevant)[k].App?
    requires Emit(b, marked, relevant)[k].instr.pc in active
    ensures CountedAt(Emit(b, marked, relevant), k)
  {
    var w, n := Weave(b, marked, First(b), Last(b)), if relevant then 1 else 0;
    assert Emit(b, marked, relevant)[n..] == w;
    assert k >= n && w[k - n] == Emit(b, marked, relevant)[k];
    WeaveInstrs(b, marked, First(b), Last(b), k - n);
    WeaveCounts(b, marked, First(b), Last(b), k - n);
    assert w[k - n - 1] == Emit(b, marked, relevant)[k - 1];
  }

  lemma {:induction false} WeaveInstrs(instrs: seq<Instr>, marked: set<U64>, start: U64, end: U64, k: nat)
    requires k < |Weave(instrs, marked, start, end)| && Weave(instrs, marked, start, end)[k].App?
    ensures exists i :: 0 <= i < |instrs| && instrs[i] == Weave(instrs, marked, start, end)[k].instr
  {
    var w, rest := Weave(instrs, marked, start, end), Weave(instrs[1..], marked, start, end);
    var n := |w| - |rest|;
    assert w[n..] == rest;
    if k >= n {
      assert rest[k - n] == w[k];
      WeaveInstrs(instrs[1..], marked, start, end, k - n);
      var i :| 0 <= i < |instrs[1..]| && instrs[1..][i] == rest[k - n].instr;
      assert instrs[i + 1] == instrs[1..][i];
    } else {
      assert w[k] == App(instrs[0]);
    }
  }

  /** A new block is covered exactly when it has no active instruction, or some active address lies between its
      ends. */
  lemma InstrumentedCoversExactly(b: Block, active: map<U64, U64>, stops: set<EventType>)
    ensures Covers(Instrumented(b, active, stops), b, active, stops) <==>
            ((exists i :: 0 <= i < |b| && b[i].pc in active) ==>
               exists a :: a in active && b[0].pc <= a <= AsU64(b[|b| - 1].pc + b[|b| - 1].len))
  {
    var items := Instrumented(b, active, stops);
    if i :| 0 <= i < |b| && b[i].pc in active {
      if InRange(b, active) {
        assert MarksActive(Marked(b, active), b, active);
      } else if Covers(items, b, active, stops) {
        var marked: set<U64> :| MarksActive(marked, b, active) && items == Emit(b, marked, RELEVANT_BLOCK in stops);
        var c := CountCall(b[i].pc, First(b), Last(b));
        WeaveCalls(b, marked, First(b), Last(b), c);
        WeaveCalls(b, {}, First(b), Last(b), c);
        EmitContains(b, marked, RELEVANT_BLOCK in stops, c);
        EmitContains(b, {}, RELEVANT_BLOCK in stops, c);
      }
    } else {
      assert MarksActive(Marked(b, active), b, active);
    }
  }

  lemma EmitContains(b: Block, marked: set<U64>, relevant: bool, c: Item)
    requires c.CountCall?
    ensures c in Emit(b, marked, relevant) <==> c in Weave(b, marked, First(b), Last(b))
  {
  }

  lemma InstrumentedCovers(b: Block, active: map<U64, U64>, stops: set<EventType>)
    requires StraightLine(b)
    ensures Covers(Instrumented(b, active, stops), b, active, stops)
  {
    InstrumentedCoversExactly(b, active, stops);
    if i :| 0 <= i < |b| && b[i].pc in active {
      assert First(b) <= b[i].pc <= Last(b);
    }
  }

  /** Coverage survives when no instruction of the block becomes active. */
  lemma CoversShrinks(items: seq<Item>, b: Block, active: map<U64, U64>, left: map<U64, U64>, stops: set<EventType>)
    requires Covers(items, b, active, stops)
    requires forall i :: 0 <= i < |b| && b[i].pc in left ==> b[i].pc in active
    ensures Covers(items, b, left, stops)
  {
    var marked: set<U64> :| MarksActive(marked, b, active) && items == Emit(b, marked, RELEVANT_BLOCK in stops);
    assert MarksActive(marked, b, left);
  }

  /** A block that continues behind an elided jump can hide a breakpoint from the range test. */
  lemma ElidedJumpHidesBreakpoint()
    ensures exists b: Block, active: map<U64, U64> :: !Covers(Instrumented(b, active, {}), b, active, {})
  {
    var b: Block := [Instr(100, 5), Instr(900, 4), Instr(110, 2)];
    var active: map<U64, U64> := map[900 := 1];
    assert b[1].pc in active && !InRange(b, active);
    InstrumentedCoversExactly(b, active, {});
  }

  // Calls and instructions at one address

  predicate IsInstr(i: Item, a: U64) {
    i.App? && i.instr.pc == a
  }

  predicate IsCount(i: Item, a: U64) {
    i.CountCall? && i.addr == a
  }

  /** Count calls and instructions at `a` stand in pairs, the call first; a half pair is only possible at the head. */
  predicate Paired(tail: seq<Item>, a: U64) {
    && (forall k :: 0 < k < |tail| && IsInstr(tail[k], a) ==> IsCount(tail[k - 1], a))
    && (forall k :: 0 <= k < |tail| && IsCount(tail[k], a) ==> k + 1 < |tail| && IsInstr(tail[k + 1], a))
  }

  predicate Uncounted(items: seq<Item>, a: U64) {
    forall k :: 0 <= k < |items| ==> !IsCount(items[k], a)
  }

  /** A block was built either with a count call for every instruction at `a`, or with none. */
  predicate Even(items: seq<Item>, a: U64) {
    Paired(items, a) || Uncounted(items, a)
  }

  lemma {:induction false} WeavePaired(instrs: seq<Instr>, marked: set<U64>, start: U64, end: U64, a: U64)
    requires a in marked
    ensures var w := Weave(instrs, marked, start, end); Paired(w, a) && (w != [] ==> !IsInstr(w[0], a))
  {
    if instrs != [] {
      var w, rest := Weave(instrs, marked, start, end), Weave(instrs[1..], marked, start, end);
      WeavePaired(instrs[1..], marked, start, end, a);
      if instrs[0].pc in marked {
        assert w == [CountCall(instrs[0].pc, start, end), App(instrs[0])] + rest;
      } else {
        assert w == [App(instrs[0])] + rest;
      }
    }
  }

  lemma CoveredPaired(items: seq<Item>, b: Block, active: map<U64, U64>, stops: set<EventType>, a: U64)
    requires Covers(items, b, active, stops) && a in active
    ensures Paired(items, a) && (items != [] ==> !IsInstr(items[0], a))
  {
    var marked: set<U64> :| MarksActive(marked, b, active) && items == Emit(b, marked, RELEVANT_BLOCK in stops);
    var w := Weave(b, marked, First(b), Last(b));
    if exists i :: 0 <= i < |b| && b[i].pc == a {
      WeavePaired(b, marked, First(b), Last(b), a);
    } else {
      WeaveWithout(b, marked, First(b), Last(b), a);
    }
    if RELEVANT_BLOCK in stops { assert items == [RelevantCall(First(b), Last(b))] + w; }
  }

  lemma {:induction false} WeaveWithout(instrs: seq<Instr>, marked: set<U64>, start: U64, end: U64, a: U64)
    requires forall i :: 0 <= i < |instrs| ==> instrs[i].pc != a
    ensures forall k :: 0 <= k < |Weave(instrs, marked, start, end)| ==>
              !IsInstr(Weave(instrs, marked, start, end)[k], a) && !IsCount(Weave(instrs, marked, start, end)[k], a)
  {
    if instrs != [] { WeaveWithout(instrs[1..], marked, start, end, a); }
  }

  lemma InstrumentedEven(b: Block, active: map<U64, U64>, stops: set<EventType>, a: U64)
    ensures Even(Instrumented(b, active, stops), a)
  {
    var marked, items := Marked(b, active), Instrumented(b, active, stops);
    var w := Weave(b, marked, First(b), Last(b));
    if a in marked {
      WeavePaired(b, marked, First(b), Last(b), a);
      if RELEVANT_BLOCK in stops { assert items == [RelevantCall(First(b), Last(b))] + w; }
    } else {
      forall k | 0 <= k < |items| ensures !IsCount(items[k], a) {
        assert items[k] in items;
        if IsCount(items[k], a) { WeaveCalls(b, marked, First(b), Last(b), items[k]); }
      }
    }
  }

  lemma TailPaired(tail: seq<Item>, a: U64)
    requires tail != [] && Paired(tail, a)
    ensures Paired(tail[1..], a)
    ensures |tail| > 1 ==> (IsInstr(tail[1], a) <==> IsCount(tail[0], a))
    ensures IsCount(tail[0], a) ==> |tail| > 1
  {
  }

  lemma TailEven(tail: seq<Item>, a: U64)
    requires tail != [] && Even(tail, a)
    ensures Even(tail[1..], a)
    ensures IsCount(tail[0], a) ==> |tail| > 1 && IsInstr(tail[1], a)
  {
    if Uncounted(tail, a) {
      assert forall k :: 0 <= k < |tail[1..]| ==> tail[1..][k] == tail[k + 1];
    }
  }

  datatype Outcome = Counted | Fired | Stale

  /** `--count` on a `size_t`. */
  function Decremented(count: int): U64 {
    AsU64(count - 1)
  }

  /** The table after one `update_fastforward_count` at `a`. */
  function Hit(active: map<U64, U64>, a: U64): map<U64, U64> {
    if a !in active then active
    else if Decremented(active[a]) == 0 then active - {a}
    else active[a := Decremented(active[a])]
  }

  function HitOutcome(active: map<U64, U64>, a: U64): Outcome {
    if a !in active then Stale
    else if Decremented(active[a]) == 0 then Fired
    else Counted
  }

  /** The table after `k` hits at `a`. */
  function HitTimes(active: map<U64, U64>, a: U64, k: nat): map<U64, U64> {
    if k == 0 then active else HitTimes(Hit(active, a), a, k - 1)
  }

  /** A breakpoint fires on exactly that hit: it is active as long as it was hit less often, and then gone. */
  lemma {:induction false} HitsToFireExact(active: map<U64, U64>, a: U64, k: nat)
    requires a in active
    ensures a in HitTimes(active, a, k) <==> k < HitsToFire(active[a])
    ensures k + 1 == HitsToFire(active[a]) <==>
            a in HitTimes(active, a, k) && HitOutcome(HitTimes(active, a, k), a) == Fired
    decreases k
  {
    if k > 0 {
      if a in Hit(active, a) {
        HitsToFireExact(Hit(active, a), a, k - 1);
      } else {
        GoneStaysGone(Hit(active, a), a, k - 1);
      }
    }
  }

  lemma {:induction false} GoneStaysGone(active: map<U64, U64>, a: U64, k: nat)
    requires a !in active
    ensures a !in HitTimes(active, a, k)
  {
    if k > 0 { GoneStaysGone(active, a, k - 1); }
  }

  /** The hit on which a breakpoint added with `count` fires; a count of 0 wraps around. */
  function HitsToFire(count: int): (n: nat)
    ensures 1 <= n <= TWO64
  {
    AsU64(count - 1) + 1
  }
}
