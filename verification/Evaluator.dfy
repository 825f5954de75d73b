/** The callbacks, clean calls and request handlers over the shared state, step by step, against the functions of
    Tables, Activation and Instrument. Waiting, suspending and resuming are in Protocol. */
module Evaluator {
  import opened Words
  import opened Types
  import opened Ordering
  import opened Ordered
  import opened Resolve
  import opened Instrument
  import opened Tables
  import opened Activation
  import opened Loading
  import opened Resolutions
  import opened CodeBytes

  class Evaluator {
    var breakpoints: map<U64, U64>
    var deferred: seq<Entry>
    var locked: bool                          // mutex
    var stopEvents: set<EventType>
    var stoppedEvent: Option<EventType>       // the event of stopped_context
    var stoppedBlock: Option<(U64, U64)>
    var signals: nat                          // calls of dr_event_signal
    var flushes: nat                          // calls of total_flush

    function T(): Tables
      reads this
    {
      Tables(breakpoints, deferred)
    }

    method Lock()
      requires !locked
      modifies `locked
      ensures locked
    {
      locked := true;
    }

    method Unlock()
      requires locked
      modifies `locked
      ensures !locked
    {
      locked := false;
    }

    /** `assert_helper`: on failure releases the mutex if told to, then throws. */
    method AssertHelper(b: bool, fault: Fault, unlockOnError: bool) returns (thrown: Option<Fault>)
      requires unlockOnError ==> locked
      modifies `locked
      ensures thrown == if b then None else Some(fault)
      ensures locked == (old(locked) && (b || !unlockOnError))
    {
      thrown := None;
      if !b {
        if unlockOnError { Unlock(); }
        thrown := Some(fault);
      }
    }

    method AddBreakpoint(mods: Modules, bp: Breakpoint) returns (thrown: Option<Fault>)
      requires !locked
      modifies `breakpoints, `deferred, `locked
      ensures !locked
      ensures (T(), thrown) == Add(old(T()), mods, bp)
    {
      var addr := ToAbsAddr(mods, bp.addr);
      if addr.Throws? { return Some(addr.fault); }
      Lock();
      if addr.Address? {
        thrown := AssertHelper(addr.addr !in breakpoints || breakpoints[addr.addr] == 0, AlreadyExists, true);
        if thrown.Some? { return; }
        breakpoints := breakpoints[addr.addr := AsU64(bp.count)];
      } else {
        thrown := AssertHelper(bp.addr.hasReladdr, ExpectedRelative, true);
        if thrown.Some? { return; }
        var ra := bp.addr.reladdr;
        thrown := AssertHelper(!IsDeferred(deferred, ra), AlreadyExists, true);
        if thrown.Some? { return; }
        deferred := Insert(EntryLess, deferred, Entry(ra, AsU64(bp.count)));
      }
      Unlock();
    }

    method DelBreakpoint(mods: Modules, bp: Breakpoint) returns (thrown: Option<Fault>)
      requires !locked
      modifies `breakpoints, `deferred, `locked, `flushes
      ensures !locked
      ensures (T(), thrown) == Delete(old(T()), mods, bp)
      ensures flushes == old(flushes) + if breakpoints != old(breakpoints) then 1 else 0
    {
      var addr := ToAbsAddr(mods, bp.addr);
      if addr.Throws? { return Some(addr.fault); }
      Lock();
      if addr.Address? {
        thrown := AssertHelper(addr.addr in breakpoints, NotFound, true);
        if thrown.Some? { return; }
        breakpoints := breakpoints - {addr.addr};
        flushes := flushes + 1;
      } else {
        thrown := AssertHelper(bp.addr.hasReladdr, ExpectedRelative, true);
        if thrown.Some? { return; }
        var ra := bp.addr.reladdr;
        thrown := AssertHelper(IsDeferred(deferred, ra), NotFound, true);
        if thrown.Some? { return; }
        deferred := Without(deferred, ra);
      }
      Unlock();
    }

    /** Into an empty result; the set does not depend on the order in which the table is walked. */
    method GetBreakpoints() returns (result: seq<Breakpoint>)
      requires !locked
      modifies `locked
      ensures !locked
      ensures SortedSnapshot(result, breakpoints)
    {
      Lock();
      result := [];
      var todo := breakpoints.Keys;
      assert breakpoints - todo == map[];
      while todo != {}
        invariant locked && todo <= breakpoints.Keys
        invariant SortedSnapshot(result, breakpoints - todo)
        decreases todo
      {
        var a :| a in todo;
        result := InsertInto(result, a, breakpoints[a], breakpoints - todo);
        OneLess(breakpoints, todo, a);
        todo := todo - {a};
      }
      assert breakpoints - todo == breakpoints;
      Unlock();
    }

    /** `_return.insert (bp)` for the next entry of the table; the set order never merges two of them. */
    static method InsertInto(
        s: seq<Breakpoint>, a: U64, count: U64, ghost done: map<U64, U64>) returns (r: seq<Breakpoint>)
      requires SortedSnapshot(s, done) && a !in done
      ensures SortedSnapshot(r, done[a := count])
    {
      r := Insert(LessBreakpoint, s, Reported(false, a, count));
      InsertReported(s, done, a, count);
    }

    method TotalFlush()
      modifies `flushes
      ensures flushes == old(flushes) + 1
    {
      flushes := flushes + 1;
    }

    method SuspendHelper(e: EventType, start: U64, end: U64)
      modifies `stoppedEvent, `stoppedBlock, `signals
      ensures stoppedEvent == Some(e) && stoppedBlock == Some((start, end)) && signals == old(signals) + 1
    {
      stoppedEvent := Some(e);
      stoppedBlock := Some((start, end));
      signals := signals + 1;
    }

    method UpdateFastforwardCount(addr: U64, start: U64, end: U64)
      requires !locked
      modifies `breakpoints, `locked, `stoppedEvent, `stoppedBlock, `signals, `flushes
      ensures !locked
      ensures breakpoints == Hit(old(breakpoints), addr)
      ensures flushes == old(flushes) + if HitOutcome(old(breakpoints), addr) == Stale then 1 else 0
      ensures if HitOutcome(old(breakpoints), addr) == Fired && BREAKPOINT in stopEvents
              then stoppedEvent == Some(BREAKPOINT) && stoppedBlock == Some((start, end)) && signals == old(signals) + 1
              else stoppedEvent == old(stoppedEvent) && stoppedBlock == old(stoppedBlock) && signals == old(signals)
    {
      var stale := false;
      Lock();
      if addr in breakpoints {
        var newCount := Decremented(breakpoints[addr]);
        breakpoints := breakpoints[addr := newCount];
        if newCount == 0 {
          breakpoints := breakpoints - {addr};
          assert breakpoints == old(breakpoints) - {addr};
          if BREAKPOINT in stopEvents {
            SuspendHelper(BREAKPOINT, start, end);
          }
        }
      } else {
        stale := true;
      }
      Unlock();
      if stale { TotalFlush(); }
    }

    method RelevantBlockCleanCall(start: U64, end: U64)
      modifies `stoppedEvent, `stoppedBlock, `signals
      ensures if RELEVANT_BLOCK in stopEvents
              then stoppedEvent == Some(RELEVANT_BLOCK) && stoppedBlock == Some((start, end))
                && signals == old(signals) + 1
              else stoppedEvent == old(stoppedEvent) && stoppedBlock == old(stoppedBlock) && signals == old(signals)
    {
      if RELEVANT_BLOCK in stopEvents {
        SuspendHelper(RELEVANT_BLOCK, start, end);
      }
    }

    /** Inserts into the instruction list while walking it; a call inserted before an instruction is not visited. */
    method EventBasicBlock(b: Block) returns (bb: seq<Item>)
      requires !locked
      modifies `locked
      ensures !locked
      ensures bb == Instrumented(b, breakpoints, stopEvents)
      ensures StraightLine(b) ==> Covers(bb, b, breakpoints, stopEvents)
    {
      bb := Plain(b);
      Lock();
      if InRange(b, breakpoints) {
        var at, k := 0, 0;
        while at < |bb|
          invariant locked
          invariant 0 <= k <= |b| && at == |Weave(b[..k], breakpoints.Keys, First(b), Last(b))|
          invariant bb == Weave(b[..k], breakpoints.Keys, First(b), Last(b)) + Plain(b[k..])
          decreases |b| - k
        {
          WeaveStep(b, k, breakpoints.Keys, bb, at);
          var pc := bb[at].instr.pc;
          if pc in breakpoints {
            bb := bb[..at] + [CountCall(pc, First(b), Last(b))] + bb[at..];
            at := at + 1;
          }
          at, k := at + 1, k + 1;
        }
        assert b[..k] == b;
      } else {
        WeaveNone(b, First(b), Last(b));
      }
      if RELEVANT_BLOCK in stopEvents {
        bb := [RelevantCall(First(b), Last(b))] + bb;
      }
      Unlock();
      if StraightLine(b) { InstrumentedCovers(b, breakpoints, stopEvents); }
    }

    /** `false` when an assertion of the loop stops the process or a symbol lookup throws; nothing is promised
        then. */
    method ModuleLoaded(mods: Modules, name: Bytes) returns (completes: bool)
      requires !locked && name in mods && Valid(T())
      modifies `breakpoints, `deferred, `locked
      ensures completes <==> old(AllResolve(mods, name, deferred))
      ensures mods[name].start <= mods[name].end ==>
        (completes <==> forall e :: e in old(deferred) && e.key.modulename == name ==> Lands(mods[name], e.key))
      ensures completes ==> !locked && T() == Load(old(T()), mods, name) && Valid(T())
    {
      Lock();
      if mods[name].start <= mods[name].end { CompletesExactly(mods, name, deferred); }
      var toDelete;
      completes, toDelete := ActivateAll(mods, name);
      if !completes { return; }
      EraseAll(toDelete, name);
      Unlock();
    }

    /** The first loop of the load callback. */
    method ActivateAll(mods: Modules, name: Bytes) returns (completes: bool, toDelete: seq<RelAddr>)
      requires name in mods
      modifies `breakpoints
      ensures completes <==> AllResolve(mods, name, deferred)
      ensures completes ==> breakpoints == Activate(old(breakpoints), deferred, mods, name)
      ensures forall k :: k in toDelete ==> k.modulename == name
      ensures completes ==> forall e :: e in deferred && Matches(e, name) ==> e.key in toDelete
    {
      toDelete := [];
      var i := 0;
      assert deferred[0..] == deferred;
      while i < |deferred|
        invariant 0 <= i <= |deferred|
        invariant AllResolve(mods, name, deferred) <==> AllResolve(mods, name, deferred[i..])
        invariant AllResolve(mods, name, deferred) ==>
          Activate(old(breakpoints), deferred, mods, name) == Activate(breakpoints, deferred[i..], mods, name)
        invariant forall k :: k in toDelete ==> k.modulename == name
        invariant forall j :: 0 <= j < i && Matches(deferred[j], name) ==> deferred[j].key in toDelete
      {
        LoadTurn(deferred, i, mods, name, breakpoints);
        var p := deferred[i];
        if p.key.modulename == name {
          var addr := AddrOf(mods, p);
          if !Resolves(mods, name, p) { return false, toDelete; }
          breakpoints := breakpoints[addr.addr := p.count];
          toDelete := toDelete + [p.key];
        }
        i := i + 1;
      }
      completes := true;
    }

    /** The second loop of the load callback. */
    method EraseAll(keys: seq<RelAddr>, name: Bytes)
      requires Valid(T())
      requires forall k :: k in keys ==> k.modulename == name
      requires forall e :: e in deferred && Matches(e, name) ==> e.key in keys
      modifies `deferred
      ensures deferred == Others(old(deferred), name) && Valid(T())
    {
      var i := 0;
      while i < |keys|
        invariant 0 <= i <= |keys|
        invariant Valid(T())
        invariant forall e :: e in deferred ==> e in old(deferred) && e.key !in keys[..i]
        invariant forall e :: e in old(deferred) && !Matches(e, name) ==> e in deferred
      {
        EraseOne(deferred, keys[i], name);
        deferred := Without(deferred, keys[i]);
        i := i + 1;
      }
      OthersUnique(deferred, old(deferred), name);
    }

    /** `memory` is the program's memory, which the handler copies the block from. A block that ends below its start,
        as one behind an elided backward jump may, has no length: the copy throws, past the statement that frees the
        mutex. */
    method GetCodeBlock(mods: Modules, memory: U64 -> Byte) returns (cb: CodeBlock, thrown: Option<Fault>)
      requires !locked
      modifies `locked
      ensures thrown == if stoppedBlock.None? then Some(NoStoppedBlock)
                        else if stoppedBlock.value.1 < stoppedBlock.value.0 then Some(LengthError) else None
      ensures locked == (thrown == Some(LengthError))
      ensures thrown.None? ==> Copied(mods, memory, stoppedBlock.value.0, stoppedBlock.value.1, cb)
    {
      cb := CodeBlock(false, 0, false, [], false, NO_MODULEINFO);
      Lock();
      thrown := AssertHelper(stoppedBlock.Some?, NoStoppedBlock, true);
      if thrown.Some? { return; }
      var (first, last) := stoppedBlock.value;
      if last < first { return cb, Some(LengthError); }
      UnsignedOfSigned(first);
      cb := cb.(addr := AsI64(first),
                bytes := seq(last - first, i requires 0 <= i < last - first => memory(first + i)));
      Unlock();
      cb := LocateIn(mods, first, cb);
    }

    /** `dr_lookup_module`, and what is reported of the module it finds. */
    static method LocateIn(mods: Modules, first: U64, block: CodeBlock) returns (cb: CodeBlock)
      requires !block.hasModuleinfo
      ensures Located(mods, first, cb) && cb.addr == block.addr && cb.bytes == block.bytes
    {
      cb := block;
      if n :| n in mods && Holds(mods, n, first) {
        LocateThenResolve(mods, n, first);
        cb := cb.(hasModuleinfo := true, moduleinfo := LocateBlock(n, mods[n], first));
      }
    }
  }

  /** What is told of the block from `first` to `last`: its address, what is in memory there, and its module. */
  ghost predicate Copied(mods: Modules, memory: U64 -> Byte, first: U64, last: U64, cb: CodeBlock) {
    && AsU64(cb.addr) == first && |cb.bytes| == last - first
    && (forall i :: 0 <= i < last - first ==> cb.bytes[i] == memory(first + i)) && Located(mods, first, cb)
  }

  predicate Holds(mods: Modules, name: Bytes, first: U64) {
    name in mods && mods[name].start <= first < mods[name].end
  }

  /** The block carries the information of a module that holds it, exactly if there is one; its relative address
      resolves back to it. */
  ghost predicate Located(mods: Modules, first: U64, cb: CodeBlock) {
    && (cb.hasModuleinfo <==> exists n :: Holds(mods, n, first))
    && (cb.hasModuleinfo ==>
          && ToAbsAddr(mods, Relative(cb.moduleinfo.addr)) == Address(first)
          && exists n :: Holds(mods, n, first) && cb.moduleinfo == LocateBlock(n, mods[n], first))
  }

  /** The module told of a block is a loaded one it begins in: its name, its start as the base, and the distance from
      there as the offset, all modulo 2^64. */
  lemma LocatedExactly(mods: Modules, first: U64, cb: CodeBlock)
    requires Located(mods, first, cb)
    ensures cb.hasModuleinfo <==> exists n :: n in mods && mods[n].start <= first < mods[n].end
    ensures cb.hasModuleinfo ==>
      var info := cb.moduleinfo;
      && info.addr.modulename in mods && mods[info.addr.modulename].start <= first < mods[info.addr.modulename].end
      && info.addr.offset.hasOffset && !info.addr.offset.hasSymbol
      && Same64(mods[info.addr.modulename].start, info.base) && Same64(first, info.base + info.addr.offset.offset)
  {
    if n :| n in mods && mods[n].start <= first < mods[n].end { assert Holds(mods, n, first); }
    if cb.hasModuleinfo {
      var n :| Holds(mods, n, first) && cb.moduleinfo == LocateBlock(n, mods[n], first);
      BaseAndOffset(n, mods[n], first);
    }
  }

  /** What a stop in a contiguous block makes `getCodeBlock` tell is the bytes of the block's instructions. */
  lemma CopiedCode(mods: Modules, memory: U64 -> Byte, b: Block, active: map<U64, U64>, stops: set<EventType>, c: Item,
                   cb: CodeBlock)
    requires Contiguous(b) && c in Instrumented(b, active, stops) && !c.App?
    requires Copied(mods, memory, c.start, c.end, cb)
    ensures AsU64(cb.addr) == b[0].pc && cb.bytes == Code(b, memory)
  {
    WeaveCalls(b, Marked(b, active), First(b), Last(b), c);
    BlockInMemory(b, memory, cb.bytes);
  }

  function Plain(instrs: seq<Instr>): seq<Item> {
    if instrs == [] then [] else [App(instrs[0])] + Plain(instrs[1..])
  }

  lemma {:induction false} WeaveSnoc(instrs: seq<Instr>, i: Instr, marked: set<U64>, start: U64, end: U64)
    ensures Weave(instrs + [i], marked, start, end)
         == Weave(instrs, marked, start, end) + (if i.pc in marked then [CountCall(i.pc, start, end)] else [])
           + [App(i)]
  {
    if instrs == [] {
      assert (instrs + [i])[1..] == [];
    } else {
      assert (instrs + [i])[1..] == instrs[1..] + [i];
      WeaveSnoc(instrs[1..], i, marked, start, end);
    }
  }

  /** One turn of the loop over the instruction list: what is inserted where it stands. */
  lemma WeaveStep(b: Block, k: nat, marked: set<U64>, bb: seq<Item>, at: nat)
    requires k < |b| && at == |Weave(b[..k], marked, First(b), Last(b))|
    requires bb == Weave(b[..k], marked, First(b), Last(b)) + Plain(b[k..])
    ensures at < |bb| && bb[at] == App(b[k])
    ensures var call := if b[k].pc in marked then [CountCall(b[k].pc, First(b), Last(b))] else [];
      && bb[..at] + call + bb[at..] == Weave(b[..k + 1], marked, First(b), Last(b)) + Plain(b[k + 1..])
      && at + |call| + 1 == |Weave(b[..k + 1], marked, First(b), Last(b))|
      && (call == [] ==> bb[..at] + call + bb[at..] == bb)
  {
    WeaveSnoc(b[..k], b[k], marked, First(b), Last(b));
    assert b[..k] + [b[k]] == b[..k + 1];
    assert b[k..][1..] == b[k + 1..];
  }

  lemma {:induction false} WeaveNone(instrs: seq<Instr>, start: U64, end: U64)
    ensures Weave(instrs, {}, start, end) == Plain(instrs)
  {
    if instrs != [] { WeaveNone(instrs[1..], start, end); }
  }

  /** A snapshot as the sorted sequence a `std::set<Breakpoint>` holds. */
  ghost predicate SortedSnapshot(s: seq<Breakpoint>, active: map<U64, U64>) {
    IsSnapshot(false, s, active) && Sorted(LessBreakpoint, s) && Within(ProperBreakpoint, s)
  }

  lemma OneLess(all: map<U64, U64>, todo: set<U64>, a: U64)
    requires a in todo && todo <= all.Keys
    ensures all - (todo - {a}) == (all - todo)[a := all[a]]
  {
  }

  lemma InsertBreakpoint(s: seq<Breakpoint>, bp: Breakpoint)
    requires Sorted(LessBreakpoint, s) && Within(ProperBreakpoint, s) && ProperBreakpoint(bp)
    requires forall i :: 0 <= i < |s| ==> !EqBreakpoint(s[i], bp)
    ensures var r := Insert(LessBreakpoint, s, bp);
      && Sorted(LessBreakpoint, r) && Within(ProperBreakpoint, r) && |r| == |s| + 1
      && forall b :: b in r <==> b in s || b == bp
  {
    BreakpointOrder();
    assert !Has(LessBreakpoint, s, bp);
    InsertCorrect(LessBreakpoint, EqBreakpoint, ProperBreakpoint, s, bp);
    Elements(s, Insert(LessBreakpoint, s, bp), bp);
  }

  lemma Elements<T>(s: seq<T>, r: seq<T>, x: T)
    requires multiset(r) == multiset(s) + multiset{x}
    ensures |r| == |s| + 1 && forall y :: y in r <==> y in s || y == x
  {
    assert |r| == |multiset(r)| && |s| == |multiset(s)|;
    assert forall y :: y in r <==> y in multiset(r);
    assert forall y :: y in s <==> y in multiset(s);
  }

  lemma ReportedDiffer(a: U64, m: U64, b: U64, n: U64)
    requires a != b
    ensures !EqBreakpoint(Reported(false, a, m), Reported(false, b, n))
  {
    ReportedFaithful(false, a, m, map[]);
    ReportedFaithful(false, b, n, map[]);
  }

  lemma SnapshotGrows(s: seq<Breakpoint>, r: seq<Breakpoint>, done: map<U64, U64>, a: U64, count: U64)
    requires IsSnapshot(false, s, done) && a !in done
    requires |r| == |s| + 1 && forall b :: b in r <==> b in s || b == Reported(false, a, count)
    ensures IsSnapshot(false, r, done[a := count])
  {
    var next := done[a := count];
    forall b | b in r ensures exists x :: x in next && b == Reported(false, x, next[x]) {
      if b == Reported(false, a, count) {
        assert next[a] == count;
      } else {
        var x :| x in done && b == Reported(false, x, done[x]);
        assert next[x] == done[x];
      }
    }
  }

  /** The set order never merges two reported breakpoints. */
  lemma InsertReported(s: seq<Breakpoint>, done: map<U64, U64>, a: U64, count: U64)
    requires SortedSnapshot(s, done) && a !in done
    ensures SortedSnapshot(Insert(LessBreakpoint, s, Reported(false, a, count)), done[a := count])
  {
    var bp := Reported(false, a, count);
    ReportedFaithful(false, a, count, map[]);
    forall i | 0 <= i < |s| ensures !EqBreakpoint(s[i], bp) {
      assert s[i] in s;
      var x :| x in done && s[i] == Reported(false, x, done[x]);
      ReportedDiffer(x, done[x], a, count);
    }
    InsertBreakpoint(s, bp);
    SnapshotGrows(s, Insert(LessBreakpoint, s, bp), done, a, count);
  }

  /** One turn of the first loop of the load callback. */
  lemma LoadTurn(entries: seq<Entry>, i: nat, mods: Modules, name: Bytes, active: map<U64, U64>)
    requires i < |entries| && name in mods
    ensures AllResolve(mods, name, entries[i..]) <==>
            AllResolve(mods, name, entries[i + 1..]) && (Matches(entries[i], name) ==> Resolves(mods, name, entries[i]))
    ensures AllResolve(mods, name, entries[i..]) ==>
      Activate(active, entries[i..], mods, name) ==
      Activate(if Matches(entries[i], name) then active[AddrOf(mods, entries[i]).addr := entries[i].count] else active,
               entries[i + 1..], mods, name)
  {
    var rest := entries[i..];
    assert rest[0] == entries[i] && rest[1..] == entries[i + 1..];
    Tail(rest, mods, name);
  }

  lemma EraseOne(d: seq<Entry>, key: RelAddr, name: Bytes)
    requires Sorted(EntryLess, d) && Within(FreshEntry, d) && key.modulename == name
    ensures Sorted(EntryLess, Without(d, key)) && Within(FreshEntry, Without(d, key))
    ensures forall e :: e in Without(d, key) ==> e in d && e.key != key
    ensures forall e :: e in d && !Matches(e, name) ==> e in Without(d, key)
  {
    WithoutElements(d, key);
    WithoutSorted(d, key);
    forall e | e in d && !Matches(e, name) ensures LessRel(e.key, key) || LessRel(key, e.key) {
      StrTotal(e.key.modulename, key.modulename);
    }
  }

  lemma OthersUnique(d: seq<Entry>, was: seq<Entry>, name: Bytes)
    requires Sorted(EntryLess, was) && Within(FreshEntry, was)
    requires Sorted(EntryLess, d) && Within(FreshEntry, d)
    requires forall e :: e in d <==> e in was && !Matches(e, name)
    ensures d == Others(was, name)
  {
    OthersExact(was, name);
    EntryOrder();
    SortedUnique(EntryLess, SameKey, FreshEntry, d, Others(was, name));
  }
}
