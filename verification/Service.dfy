/** The service itself: its six methods and the map the processor dispatches by. */
module Service {
  import opened Words
  import opened Types
  import opened Ordering
  import opened Resolve
  import opened Tables
  import opened Codec
  import opened Messages
  import opened Structs
  import opened Rpc
  import opened Transparency
  import opened Freshness

  const BREAKPOINT_SLOT := Slot(1, BREAKPOINT_SCHEMA, false)
  const BREAKPOINT_ARGUMENTS := TStruct([BREAKPOINT_SLOT])
  const STOP_EVENTS_SLOT := Slot(1, TSet(TI32), false)
  const RUN_ARGUMENTS := TStruct([STOP_EVENTS_SLOT])

  function AddBreakpoint(): Method {
    Method(Ascii("addBreakpoint"), BREAKPOINT_ARGUMENTS, None, true)
  }

  function DelBreakpoint(): Method {
    Method(Ascii("delBreakpoint"), BREAKPOINT_ARGUMENTS, None, true)
  }

  function GetBreakpoints(): Method {
    Method(Ascii("getBreakpoints"), TStruct([]), Some(TSet(BREAKPOINT_SCHEMA)), false)
  }

  function ExecuteUntilEvent(): Method {
    Method(Ascii("executeUntilEvent"), RUN_ARGUMENTS, Some(TI32), false)
  }

  function GetCodeBlock(): Method {
    Method(Ascii("getCodeBlock"), TStruct([]), Some(CODEBLOCK_SCHEMA), true)
  }

  function GetContext(): Method {
    Method(Ascii("getContext"), TStruct([]), Some(TMap(TString, TString)), true)
  }

  /** `processMap_`. */
  function Processor(): ProcessMap {
    map[
      AddBreakpoint().name := AddBreakpoint(), DelBreakpoint().name := DelBreakpoint(),
      GetBreakpoints().name := GetBreakpoints(), ExecuteUntilEvent().name := ExecuteUntilEvent(),
      GetCodeBlock().name := GetCodeBlock(), GetContext().name := GetContext()]
  }

  predicate Dispatches(m: Method) {
    m.name in Processor() && Processor()[m.name] == m
  }

  /** Each of the six methods is dispatched to under its own name. */
  lemma AllDispatched()
    ensures Dispatches(AddBreakpoint()) && Dispatches(DelBreakpoint()) && Dispatches(GetBreakpoints())
    ensures Dispatches(ExecuteUntilEvent()) && Dispatches(GetCodeBlock()) && Dispatches(GetContext())
  {
    assert AddBreakpoint().name[0] == 97 && DelBreakpoint().name[0] == 100;
  }

  lemma BreakpointMethodsValid()
    ensures ValidMethod(AddBreakpoint()) && ValidMethod(DelBreakpoint())
  {
    SchemasValid(ABreakpoint(Breakpoint(false, NO_ADDR, false, 0)));
    OneValid(BREAKPOINT_SLOT);
  }

  lemma SnapshotMethodValid()
    ensures ValidMethod(GetBreakpoints())
  {
    SchemasValid(ABreakpoint(Breakpoint(false, NO_ADDR, false, 0)));
  }

  lemma RunMethodValid()
    ensures ValidMethod(ExecuteUntilEvent())
  {
    OneValid(STOP_EVENTS_SLOT);
  }

  lemma ContextMethodValid()
    ensures ValidMethod(GetContext())
  {
  }

  lemma BlockMethodValid()
    ensures ValidMethod(GetCodeBlock())
  {
    BlockSchemaValid();
  }

  predicate Serves(m: Method) {
    || m == AddBreakpoint() || m == DelBreakpoint() || m == GetBreakpoints()
    || m == ExecuteUntilEvent() || m == GetCodeBlock() || m == GetContext()
  }

  lemma ServedMethod(m: Method)
    requires Serves(m)
    ensures Dispatches(m) && ValidMethod(m)
  {
    AllDispatched();
    if m == AddBreakpoint() || m == DelBreakpoint() { BreakpointMethodsValid(); }
    else if m == GetBreakpoints() { SnapshotMethodValid(); }
    else if m == ExecuteUntilEvent() { RunMethodValid(); }
    else if m == GetCodeBlock() { BlockMethodValid(); }
    else { ContextMethodValid(); }
  }

  /** A call of one of the six methods with arguments of its types and sizes that fit. */
  predicate ServiceCall(c: Call) {
    && Serves(c.m) && HasType(c.m.arguments, c.args) && SizesFit(c.m.arguments, c.args)
    && (c.m.success.Some? ==> Carries(c.m, c.held))
  }

  /** Any sequence of calls of the six methods, answered by this processor, is the same calls made on the handler. */
  lemma ServiceIsDirect<S(!new)>(h: (S, Method, Val) -> (S, Outcome), s: S, link: Link, calls: seq<Call>)
    requires Handles(h) && Drained(link) && forall i :: 0 <= i < |calls| ==> ServiceCall(calls[i])
    ensures AllProper(Processor(), calls) && AllowedAlong(Processor(), h, s, calls)
    ensures Session(Processor(), h, s, link, calls) == Some(Direct(Processor(), h, s, calls))
  {
    forall i | 0 <= i < |calls| ensures Proper(Processor(), calls[i]) {
      ServedMethod(calls[i].m);
    }
    HandlesAlong(Processor(), h, s, calls);
    SessionIsDirect(Processor(), h, s, link, calls);
  }

  // The breakpoint a handler is given

  function OfArgument(bp: Breakpoint): (v: Val)
    ensures HasType(BREAKPOINT_ARGUMENTS, v)
  {
    VStruct([Cell(true, OfBreakpoint(bp))])
  }

  function ToArgument(args: Val): Breakpoint
    requires HasType(BREAKPOINT_ARGUMENTS, args)
  {
    assert HasType(BREAKPOINT_ARGUMENTS.slots[0].ty, args.cells[0].val);
    ToBreakpoint(args.cells[0].val)
  }

  /** Whatever bytes a request holds, the breakpoint read from it keeps the deferred table a map under `operator<`. */
  lemma AnyRequestKeepsTablesValid(b: Bytes, p: nat, t: Tables, mods: Modules)
    requires p <= |b| && Read(BREAKPOINT_ARGUMENTS, Fresh(BREAKPOINT_ARGUMENTS), b, p).Some? && Valid(t)
    ensures var bp := ToArgument(Read(BREAKPOINT_ARGUMENTS, Fresh(BREAKPOINT_ARGUMENTS), b, p).value.0);
      FreshBreakpoint(bp) && Valid(Add(t, mods, bp).0) && Valid(Delete(t, mods, bp).0)
  {
    var args := Read(BREAKPOINT_ARGUMENTS, Fresh(BREAKPOINT_ARGUMENTS), b, p).value.0;
    FreshIsTidy(BREAKPOINT_ARGUMENTS);
    ReadIsTidy(BREAKPOINT_ARGUMENTS, Fresh(BREAKPOINT_ARGUMENTS), b, p);
    assert Untouched(BREAKPOINT_ARGUMENTS.slots[0], args.cells[0]);
    TidyBreakpoint(args.cells[0].val);
    OperationsKeepValid(t, ToAbsAddr(mods, ToArgument(args).addr), ToArgument(args));
  }

  /** The breakpoint a client passes reaches the handler equal to it, so it resolves and counts as it would have on
      the client's side. */
  lemma PassedBreakpoint(bp: Breakpoint, mods: Modules)
    ensures var got := ToArgument(Merge(BREAKPOINT_ARGUMENTS, Fresh(BREAKPOINT_ARGUMENTS), OfArgument(bp)));
      EqBreakpoint(got, bp) && ToAbsAddr(mods, got.addr) == ToAbsAddr(mods, bp.addr) && got.count == bp.count
  {
    var init, v := Fresh(BREAKPOINT_ARGUMENTS), OfArgument(bp);
    assert HasType(BREAKPOINT_ARGUMENTS.slots[0].ty, init.cells[0].val);
    assert Merge(BREAKPOINT_ARGUMENTS, init, v).cells[0] ==
      MergeCell(BREAKPOINT_ARGUMENTS.slots[0], init.cells[0], v.cells[0]);
    MergeEqual(BREAKPOINT_SCHEMA, init.cells[0].val, OfBreakpoint(bp));
    FreshOverwritten(BREAKPOINT_SCHEMA, OfBreakpoint(bp));
    BreakpointCells(bp, Merge(BREAKPOINT_SCHEMA, init.cells[0].val, OfBreakpoint(bp)));
    EqualResolveAlike(mods, ToArgument(Merge(BREAKPOINT_ARGUMENTS, init, v)).addr, bp.addr);
  }

  // Sets of numbers and maps of strings arrive unchanged

  function EventsOf(v: Val): set<EventType>
    requires HasType(TSet(TI32), v)
  {
    set i | 0 <= i < |v.elems| :: v.elems[i].int32
  }

  /** `success [key] = val` for each pair in turn. */
  function RegistersOf(pairs: seq<Pair>): map<Bytes, Bytes>
    requires HasType(TMap(TString, TString), VMap(pairs))
  {
    if pairs == [] then map[]
    else
      var last := pairs[|pairs| - 1];
      assert HasType(TString, last.key) && HasType(TString, last.val);
      RegistersOf(pairs[..|pairs| - 1])[last.key.text := last.val.text]
  }

  lemma {:induction false} NumbersMerge(vs: seq<Val>)
    requires HasType(TSet(TI32), VSet(vs))
    ensures MergeElems(TI32, vs) == vs
  {
    if vs != [] {
      NumbersMerge(vs[1..]);
      assert vs == [vs[0]] + vs[1..];
    }
  }

  lemma {:induction false} StringsMerge(pairs: seq<Pair>)
    requires HasType(TMap(TString, TString), VMap(pairs))
    ensures MergePairs(TString, TString, pairs) == pairs
  {
    if pairs != [] {
      StringsMerge(pairs[1..]);
      assert pairs == [pairs[0]] + pairs[1..];
    }
  }

  /** The stop events the handler gets are those the client asked for. */
  lemma StopEventsArrive(init: Val, events: Val)
    requires HasType(TSet(TI32), init) && HasType(TSet(TI32), events)
    ensures EventsOf(Merge(TSet(TI32), init, events)) == EventsOf(events)
  {
    NumbersMerge(events.elems);
  }

  /** The registers the client gets are those the handler filled in, whatever its map held before. */
  lemma RegistersArrive(init: Val, registers: Val)
    requires HasType(TMap(TString, TString), init) && HasType(TMap(TString, TString), registers)
    ensures RegistersOf(Merge(TMap(TString, TString), init, registers).pairs) == RegistersOf(registers.pairs)
  {
    StringsMerge(registers.pairs);
  }

  predicate KeyAt(pairs: seq<Pair>, i: nat, key: Bytes) {
    i < |pairs| && pairs[i].key == VString(key)
  }

  predicate LastAt(pairs: seq<Pair>, i: nat, key: Bytes) {
    KeyAt(pairs, i, key) && forall j :: i < j < |pairs| ==> !KeyAt(pairs, j, key)
  }

  lemma RegistersSnoc(pairs: seq<Pair>)
    requires pairs != [] && HasType(TMap(TString, TString), VMap(pairs))
    ensures var front, last := pairs[..|pairs| - 1], pairs[|pairs| - 1];
      && HasType(TMap(TString, TString), VMap(front)) && last.key.VString? && last.val.VString?
      && RegistersOf(pairs) == RegistersOf(front)[last.key.text := last.val.text]
  {
    var last := pairs[|pairs| - 1];
    assert HasType(TString, last.key) && HasType(TString, last.val);
  }

  /** The map holds the keys that were sent, each with the value sent last. */
  lemma {:induction false} RegistersLast(pairs: seq<Pair>, key: Bytes)
    requires HasType(TMap(TString, TString), VMap(pairs))
    ensures key in RegistersOf(pairs) <==> exists i :: KeyAt(pairs, i, key)
    ensures forall i: nat :: LastAt(pairs, i, key) ==>
              key in RegistersOf(pairs) && pairs[i].val == VString(RegistersOf(pairs)[key])
    decreases |pairs|
  {
    if pairs != [] {
      var front, n := pairs[..|pairs| - 1], |pairs| - 1;
      RegistersSnoc(pairs);
      RegistersLast(front, key);
      KeysSnoc(pairs, key);
      if pairs[n].key.text != key {
        assert RegistersOf(pairs).Keys == RegistersOf(front).Keys + {pairs[n].key.text};
      }
    }
  }

  lemma KeysSnoc(pairs: seq<Pair>, key: Bytes)
    requires pairs != [] && pairs[|pairs| - 1].key.VString?
    ensures var front, n := pairs[..|pairs| - 1], |pairs| - 1;
      && (KeyAt(pairs, n, key) <==> pairs[n].key.text == key)
      && ((exists i :: KeyAt(pairs, i, key)) <==> KeyAt(pairs, n, key) || exists i :: KeyAt(front, i, key))
      && forall i: nat :: LastAt(pairs, i, key) ==>
           if i == n then KeyAt(pairs, n, key) else pairs[n].key.text != key && i < n && LastAt(front, i, key)
  {
    var front, n := pairs[..|pairs| - 1], |pairs| - 1;
    assert forall i: nat :: i < n ==> (KeyAt(front, i, key) <==> KeyAt(pairs, i, key));
    if i: nat :| KeyAt(front, i, key) { assert KeyAt(pairs, i, key); }
    if i: nat :| KeyAt(pairs, i, key) { assert i == n || KeyAt(front, i, key); }
    forall i: nat | LastAt(pairs, i, key) && i != n ensures pairs[n].key.text != key && LastAt(front, i, key) {
      assert !KeyAt(pairs, n, key);
    }
  }
}
