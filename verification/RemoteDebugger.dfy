/** The debugger behind the wire: a remote session of additions, deletions, listings, runs to the next stop, and code
    blocks, against the reference debugger. */
module RemoteDebugger {
  import opened Words
  import opened Types
  import opened Ordering
  import opened Ordered
  import opened Resolve
  import opened Binary
  import opened Codec
  import opened Messages
  import opened Structs
  import opened Rpc
  import opened Transparency
  import opened Service
  import opened Snapshot
  import Instrument
  import opened Refinement
  import opened Resumption
  import opened Sessions
  import Tables
  import Evaluator
  import CodeBytes

  /** For each resume the blocks the program then enters. */
  type Course = seq<seq<Instrument.Block>>

  /** What the handlers work on: the tables; the loaded modules; the block recorded at the last stop; what is left of
      it; and the course the program takes. */
  datatype Debugger = Debugger(
    tables: Tables.Tables, modules: Modules, block: Option<(U64, U64)>, tail: seq<Instrument.Item>, course: Course)

  /** The reference debugger. `late`: addresses added inside the block it is stopped in. */
  datatype Ideal = Ideal(
    tables: Tables.Tables, modules: Modules, stopped: bool, place: Place, late: set<U64>, course: Course)

  datatype Command = Set(bp: Breakpoint) | Clear(bp: Breakpoint) | Show(held: Val) | Go(wanted: Val) | Fetch

  datatype Response = Accepted | Rejected(msg: Bytes) | Listed(breakpoints: seq<Breakpoint>)
    | Reached(event: EventType) | Shown(block: CodeBlock) | Unanswered

  /** The texts of the exceptions, the program's memory, and what `getCodeBlock` fills in for a block from one address
      to another. */
  datatype World = World(text: Fault -> Bytes, memory: U64 -> Byte, code: (Modules, U64, U64) -> CodeBlock)

  // Listings

  /** The set `getBreakpoints` fills. */
  ghost function Listing(active: map<U64, U64>): seq<Breakpoint>
    decreases |active|
  {
    if active == map[] then []
    else
      var a :| a in active;
      Insert(LessBreakpoint, Listing(active - {a}), Tables.Reported(false, a, active[a]))
  }

  lemma {:induction false} ListingSorted(active: map<U64, U64>)
    ensures Evaluator.SortedSnapshot(Listing(active), active)
    decreases |active|
  {
    if active != map[] {
      var a :| a in active &&
        Listing(active) == Insert(LessBreakpoint, Listing(active - {a}), Tables.Reported(false, a, active[a]));
      ListingSorted(active - {a});
      ListingGrows(Listing(active - {a}), active, a);
    }
  }

  lemma ListingGrows(s: seq<Breakpoint>, active: map<U64, U64>, a: U64)
    requires a in active && Evaluator.SortedSnapshot(s, active - {a})
    ensures Evaluator.SortedSnapshot(Insert(LessBreakpoint, s, Tables.Reported(false, a, active[a])), active)
  {
    Evaluator.InsertReported(s, active - {a}, a, active[a]);
    assert (active - {a})[a := active[a]] == active;
  }

  /** It is the one sorted set of the active breakpoints, so the handler's loop fills the same. */
  lemma ListingUnique(s: seq<Breakpoint>, active: map<U64, U64>)
    requires Evaluator.SortedSnapshot(s, active)
    ensures s == Listing(active)
  {
    ListingSorted(active);
    SnapshotUnique(s, Listing(active), active);
  }

  lemma SnapshotUnique(s: seq<Breakpoint>, r: seq<Breakpoint>, active: map<U64, U64>)
    requires Evaluator.SortedSnapshot(s, active) && Evaluator.SortedSnapshot(r, active)
    ensures s == r
  {
    BreakpointOrder();
    SortedUnique(LessBreakpoint, EqBreakpoint, ProperBreakpoint, s, r);
  }

  // The handler

  /** `fault`, as the exception whose text is `text (fault)`. */
  function Thrown(w: World, fault: Option<Fault>): Outcome {
    if fault.None? then Done else Threw(w.text(fault.value))
  }

  function Entering(blocks: seq<Instrument.Block>): (r: seq<Event>)
    ensures |r| == |blocks| && forall i :: 0 <= i < |blocks| ==> r[i] == Enter(blocks[i])
  {
    seq(|blocks|, i requires 0 <= i < |blocks| => Enter(blocks[i]))
  }

  /** Runs the program to its next stop. Without one the call never returns; no session goes on behind it (`Ready`). */
  function Resume(d: Debugger, stops: set<EventType>): (Debugger, Outcome) {
    if d.course == [] then (d, ThrewOther([]))
    else
      var events, active := Entering(d.course[0]), d.tables.active;
      var from := StopFrom(d.tail, events, active, stops);
      match SystemFrom(d.tail, events, active, stops)
      case NoStop(_) => (d, ThrewOther([]))
      case Stop(_, _, event, left) =>
        if from == [] || from[0].App? then (d, ThrewOther([]))
        else
          (Debugger(d.tables.(active := left), d.modules, Some((from[0].start, from[0].end)), from[1..], d.course[1..]),
           Returned(VI32(event)))
  }

  function Code(w: World, d: Debugger): Outcome {
    if d.block.None? then Threw(w.text(NoStoppedBlock))
    else if d.block.value.1 < d.block.value.0 then ThrewOther([])
    else Returned(OfCodeBlock(w.code(d.modules, d.block.value.0, d.block.value.1)))
  }

  function Stops(args: Val): set<EventType>
    requires HasType(RUN_ARGUMENTS, args)
  {
    assert HasType(RUN_ARGUMENTS.slots[0].ty, args.cells[0].val);
    EventsOf(args.cells[0].val)
  }

  ghost function Handle(w: World, d: Debugger, m: Method, args: Val): (Debugger, Outcome) {
    if m == AddBreakpoint() && HasType(BREAKPOINT_ARGUMENTS, args) then
      var (t, fault) := Tables.Add(d.tables, d.modules, ToArgument(args));
      (d.(tables := t), Thrown(w, fault))
    else if m == DelBreakpoint() && HasType(BREAKPOINT_ARGUMENTS, args) then
      var (t, fault) := Tables.Delete(d.tables, d.modules, ToArgument(args));
      (d.(tables := t), Thrown(w, fault))
    else if m == GetBreakpoints() then (d, Returned(Values(Listing(d.tables.active))))
    else if m == ExecuteUntilEvent() && HasType(RUN_ARGUMENTS, args) then Resume(d, Stops(args))
    else if m == GetCodeBlock() then (d, Code(w, d))
    else (d, ThrewOther([]))
  }

  ghost function Handler(w: World): Handling {
    (d, m, args) => Handle(w, d, m, args)
  }

  // The reference debugger

  /** The breakpoint as it comes off the wire: equal to `bp`, its unset fields at their defaults. */
  function Arrived(bp: Breakpoint): Breakpoint {
    ToArgument(Merge(BREAKPOINT_ARGUMENTS, Fresh(BREAKPOINT_ARGUMENTS), OfArgument(bp)))
  }

  function Answering(w: World, fault: Option<Fault>): Response {
    if fault.None? then Accepted else Rejected(w.text(fault.value))
  }

  /** The next stop, of the program on its own. */
  function Next(i: Ideal, wanted: Val): Run
    requires HasType(TSet(TI32), wanted)
  {
    if i.course == [] then NoStop(i.tables.active)
    else ReferenceFrom(i.place, Entering(i.course[0]), i.tables.active, EventsOf(wanted))
  }

  /** A new breakpoint inside what is left of the block is late: the block was built without its call. */
  function Late(i: Ideal, bp: Breakpoint): set<U64> {
    match ToAbsAddr(i.modules, bp.addr)
    case Address(a) => if a in i.tables.active || Outside(i.place, a) then i.late else i.late + {a}
    case _ => i.late
  }

  ghost function Obey(w: World, i: Ideal, c: Command): (Ideal, Response) {
    match c
    case Set(bp) =>
      var (t, fault) := Tables.Add(i.tables, i.modules, Arrived(bp));
      (i.(tables := t, late := Late(i, Arrived(bp))), Answering(w, fault))
    case Clear(bp) =>
      var (t, fault) := Tables.Delete(i.tables, i.modules, Arrived(bp));
      (i.(tables := t), Answering(w, fault))
    case Show(_) => (i, Listed(Listing(i.tables.active)))
    case Go(wanted) =>
      if !HasType(TSet(TI32), wanted) || Next(i, wanted).NoStop? then (i, Unanswered)
      else
        var r := Next(i, wanted);
        var place := PlaceFrom(i.place, Entering(i.course[0]), r);
        (Ideal(i.tables.(active := r.active), i.modules, true, place, {}, i.course[1..]), Reached(r.event))
    case Fetch =>
      (i, if i.stopped then Shown(w.code(i.modules, i.place.first, i.place.last))
          else Rejected(w.text(NoStoppedBlock)))
  }

  ghost function ObeyAll(w: World, i: Ideal, commands: seq<Command>): (Ideal, seq<Response>)
    decreases |commands|
  {
    if commands == [] then (i, [])
    else
      var (i', response) := Obey(w, i, commands[0]);
      var (end, responses) := ObeyAll(w, i', commands[1..]);
      (end, [response] + responses)
  }

  // The client's side

  function CallOf(c: Command): Call {
    match c
    case Set(bp) => Call(AddBreakpoint(), OfArgument(bp), VI32(0))
    case Clear(bp) => Call(DelBreakpoint(), OfArgument(bp), VI32(0))
    case Show(held) => Call(GetBreakpoints(), VStruct([]), held)
    case Go(wanted) => Call(ExecuteUntilEvent(), VStruct([Cell(true, wanted)]), VI32(0))
    case Fetch => Call(GetCodeBlock(), VStruct([]), Fresh(CODEBLOCK_SCHEMA))
  }

  function CallsOf(callOf: Command -> Call, commands: seq<Command>): (r: seq<Call>)
    ensures |r| == |commands|
  {
    if commands == [] then [] else [callOf(commands[0])] + CallsOf(callOf, commands[1..])
  }

  /** Sizes fit, and a listing is read into a set of breakpoints. */
  predicate Sendable(c: Command) {
    match c
    case Set(bp) => SizesFit(BREAKPOINT_ARGUMENTS, OfArgument(bp))
    case Clear(bp) => SizesFit(BREAKPOINT_ARGUMENTS, OfArgument(bp))
    case Show(held) => HasType(TSet(BREAKPOINT_SCHEMA), held)
    case Go(wanted) => HasType(TSet(TI32), wanted) && SizesFit(TSet(TI32), wanted)
    case Fetch => true
  }

  predicate AllSendable(commands: seq<Command>) {
    forall i :: 0 <= i < |commands| ==> Sendable(commands[i])
  }

  /** The client's caller is told `r`: nothing, the exception, the event, a set equal to the listing element by element,
      or a block equal to that in memory. */
  predicate Tells(answer: Answer, r: Response) {
    match r
    case Accepted => answer == Nothing
    case Rejected(msg) => answer == Exc(msg)
    case Listed(s) =>
      && answer.Value? && HasType(TSet(BREAKPOINT_SCHEMA), answer.value)
      && var got := ClientSet(answer.value);
         |got| == |s| && forall i :: 0 <= i < |s| ==> EqBreakpoint(got[i], s[i])
    case Reached(event) => answer == Value(VI32(event))
    case Shown(block) =>
      && answer.Value? && HasType(CODEBLOCK_SCHEMA, answer.value) && EqCodeBlock(ToCodeBlock(answer.value), block)
    case Unanswered => false
  }

  predicate AllTell(answers: seq<Answer>, responses: seq<Response>) {
    |answers| == |responses| && forall i :: 0 <= i < |answers| ==> Tells(answers[i], responses[i])
  }

  ghost predicate Fitting(w: World) {
    forall f :: |What(w.text(f))| < MAX_SIZE
  }

  // One command

  type Handling = (Debugger, Method, Val) -> (Debugger, Outcome)

  /** Both stand at the same place, with the same tables and the same block to show. */
  ghost predicate Alike(d: Debugger, i: Ideal) {
    && d.tables == i.tables && d.modules == i.modules && d.course == i.course
    && d.block == (if i.stopped then Some((i.place.first, i.place.last)) else None)
    && i.place.first <= i.place.last && Fits(d.tail, i.place, d.tables.active.Keys - i.late)
  }

  /** A resume comes to a stop, through straight-line blocks, and no breakpoint is active that was added inside the
      block the program is stopped in; a block to show fits a message. */
  ghost predicate Ready(w: World, i: Ideal, c: Command) {
    match c
    case Go(wanted) =>
      && HasType(TSet(TI32), wanted) && Next(i, wanted).Stop? && i.tables.active.Keys !! i.late
      && forall k :: 0 <= k < |i.course[0]| ==> Instrument.StraightLine(i.course[0][k])
    case Fetch => i.stopped ==> SizesFit(CODEBLOCK_SCHEMA, OfCodeBlock(w.code(i.modules, i.place.first, i.place.last)))
    case _ => true
  }

  /** The outcome of a command's call is allowed, and both sides agree on state and answer. */
  ghost predicate Agrees(h: Handling, w: World, d: Debugger, i: Ideal, c: Command, call: Call)
    requires HasType(call.m.arguments, call.args) && (call.m.success.Some? ==> Carries(call.m, call.held))
  {
    var (d', o) := h(d, call.m, Passed(call.m, call.args));
    var (i', r) := Obey(w, i, c);
    && Allowed(call.m, o) && Alike(d', i') && Tells(Expected(call.m, call.held, o), r)
    && |d'.tables.active| <= |d.tables.active| + 1
  }

  lemma CallTyped(c: Command)
    requires Sendable(c)
    ensures HasType(CallOf(c).m.arguments, CallOf(c).args) && SizesFit(CallOf(c).m.arguments, CallOf(c).args)
    ensures CallOf(c).m.success.Some? ==> Carries(CallOf(c).m, CallOf(c).held)
  {
    if c.Go? { RunTyped(c.wanted); }
  }

  lemma RunTyped(wanted: Val)
    requires HasType(TSet(TI32), wanted)
    ensures var args := VStruct([Cell(true, wanted)]);
      && HasType(RUN_ARGUMENTS, args) && (SizesFit(TSet(TI32), wanted) ==> SizesFit(RUN_ARGUMENTS, args))
      && Stops(Passed(ExecuteUntilEvent(), args)) == EventsOf(wanted)
  {
    var args, init := VStruct([Cell(true, wanted)]), Fresh(RUN_ARGUMENTS);
    assert HasType(RUN_ARGUMENTS.slots[0].ty, args.cells[0].val);
    assert HasType(RUN_ARGUMENTS.slots[0].ty, init.cells[0].val);
    MergedCell(RUN_ARGUMENTS, init, args, 0);
    StopEventsArrive(init.cells[0].val, wanted);
  }

  lemma OneMore(active: map<U64, U64>, a: U64, count: U64)
    ensures |active[a := count]| <= |active| + 1 && |active - {a}| <= |active|
  {
    FewerKeys(active - {a}, active);
    var next := active[a := count];
    assert next.Keys == active.Keys + {a};
    assert |next| == |next.Keys| && |active| == |active.Keys|;
  }

  lemma AddGrows(t: Tables.Tables, mods: Modules, bp: Breakpoint)
    ensures |Tables.Add(t, mods, bp).0.active| <= |t.active| + 1
    ensures |Tables.Delete(t, mods, bp).0.active| <= |t.active|
  {
    var r := ToAbsAddr(mods, bp.addr);
    if r.Address? { OneMore(t.active, r.addr, AsU64(bp.count)); }
  }

  lemma NamesDiffer()
    ensures DelBreakpoint() != AddBreakpoint()
    ensures GetBreakpoints() != AddBreakpoint() && GetBreakpoints() != DelBreakpoint()
    ensures ExecuteUntilEvent() != AddBreakpoint() && ExecuteUntilEvent() != DelBreakpoint()
    ensures ExecuteUntilEvent() != GetBreakpoints() && GetCodeBlock() != ExecuteUntilEvent()
    ensures GetCodeBlock() != AddBreakpoint() && GetCodeBlock() != DelBreakpoint()
    ensures GetCodeBlock() != GetBreakpoints()
  {
    assert AddBreakpoint().name[0] == 97 && DelBreakpoint().name[0] == 100;
  }

  lemma FitsAt(tail: seq<Instrument.Item>, p: Place, keys: set<U64>, others: set<U64>)
    requires Fits(tail, p, keys) && forall a :: a in others && a !in keys ==> Outside(p, a)
    ensures Fits(tail, p, others)
  {
    forall a | a in others ensures AheadAt(tail, p.counted, a) {
      if a !in keys { OutsidePaired(tail, p, keys, a); }
    }
  }

  lemma AddedKeys(t: Tables.Tables, mods: Modules, bp: Breakpoint)
    ensures var now := Tables.Add(t, mods, bp).0.active.Keys;
      match ToAbsAddr(mods, bp.addr)
      case Address(a) => now <= t.active.Keys + {a}
      case _ => now == t.active.Keys
    ensures Tables.Delete(t, mods, bp).0.active.Keys <= t.active.Keys
  {
  }

  lemma SetAlike(d: Debugger, i: Ideal, bp: Breakpoint)
    requires Alike(d, i)
    ensures var t := Tables.Add(d.tables, d.modules, bp).0;
      Alike(d.(tables := t), i.(tables := t, late := Late(i, bp)))
  {
    AddedKeys(d.tables, d.modules, bp);
    var t := Tables.Add(d.tables, d.modules, bp).0;
    FitsAt(d.tail, i.place, d.tables.active.Keys - i.late, t.active.Keys - Late(i, bp));
  }

  lemma ClearAlike(d: Debugger, i: Ideal, bp: Breakpoint)
    requires Alike(d, i)
    ensures var t := Tables.Delete(d.tables, d.modules, bp).0; Alike(d.(tables := t), i.(tables := t))
  {
    AddedKeys(d.tables, d.modules, bp);
    var t := Tables.Delete(d.tables, d.modules, bp).0;
    FitsAt(d.tail, i.place, d.tables.active.Keys - i.late, t.active.Keys - i.late);
  }

  lemma ThrownTells(w: World, fault: Option<Fault>, m: Method, held: Val)
    requires m.success.None? && m.declares && Fitting(w)
    ensures Allowed(m, Thrown(w, fault)) && Tells(Expected(m, held, Thrown(w, fault)), Answering(w, fault))
  {
  }

  lemma AddHandled(w: World, d: Debugger, args: Val)
    requires HasType(BREAKPOINT_ARGUMENTS, args)
    ensures var (t, fault) := Tables.Add(d.tables, d.modules, ToArgument(args));
      Handle(w, d, AddBreakpoint(), args) == (d.(tables := t), Thrown(w, fault))
  {
  }

  lemma DeleteHandled(w: World, d: Debugger, args: Val)
    requires HasType(BREAKPOINT_ARGUMENTS, args)
    ensures var (t, fault) := Tables.Delete(d.tables, d.modules, ToArgument(args));
      Handle(w, d, DelBreakpoint(), args) == (d.(tables := t), Thrown(w, fault))
  {
    NamesDiffer();
  }

  lemma SetAgrees(w: World, d: Debugger, i: Ideal, bp: Breakpoint)
    requires Fitting(w) && Sendable(Set(bp)) && Alike(d, i)
    ensures Agrees(Handler(w), w, d, i, Set(bp), CallOf(Set(bp)))
  {
    var call := CallOf(Set(bp));
    AddHandled(w, d, Passed(call.m, call.args));
    ThrownTells(w, Tables.Add(d.tables, d.modules, Arrived(bp)).1, call.m, call.held);
    AddGrows(d.tables, d.modules, Arrived(bp));
    SetAlike(d, i, Arrived(bp));
  }

  lemma ClearAgrees(w: World, d: Debugger, i: Ideal, bp: Breakpoint)
    requires Fitting(w) && Sendable(Clear(bp)) && Alike(d, i)
    ensures Agrees(Handler(w), w, d, i, Clear(bp), CallOf(Clear(bp)))
  {
    var call := CallOf(Clear(bp));
    DeleteHandled(w, d, Passed(call.m, call.args));
    ThrownTells(w, Tables.Delete(d.tables, d.modules, Arrived(bp)).1, call.m, call.held);
    AddGrows(d.tables, d.modules, Arrived(bp));
    ClearAlike(d, i, Arrived(bp));
  }

  lemma ListedTells(active: map<U64, U64>, held: Val)
    requires HasType(TSet(BREAKPOINT_SCHEMA), held) && |active| < MAX_SIZE
    ensures SizesFit(TSet(BREAKPOINT_SCHEMA), Values(Listing(active)))
    ensures Tells(Value(Merge(TSet(BREAKPOINT_SCHEMA), held, Values(Listing(active)))), Listed(Listing(active)))
  {
    ListingSorted(active);
    SetSizes(Listing(active), active);
    ClientSetRestores(Listing(active), active, [], map[], []);
    assert Merge(TSet(BREAKPOINT_SCHEMA), held, Values(Listing(active)))
        == Merge(TSet(BREAKPOINT_SCHEMA), VSet([]), Values(Listing(active)));
  }

  lemma ShowAgrees(w: World, d: Debugger, i: Ideal, held: Val)
    requires Sendable(Show(held)) && |d.tables.active| < MAX_SIZE && Alike(d, i)
    ensures Agrees(Handler(w), w, d, i, Show(held), CallOf(Show(held)))
  {
    NamesDiffer();
    ListedTells(d.tables.active, held);
  }

  // Runs to the next stop

  lemma EnteringGranted(blocks: seq<Instrument.Block>)
    requires forall k :: 0 <= k < |blocks| ==> Instrument.StraightLine(blocks[k])
    ensures Granted(Entering(blocks))
  {
  }

  lemma PlaceOrdered(p: Place, blocks: seq<Instrument.Block>, r: Run)
    requires p.first <= p.last && forall k :: 0 <= k < |blocks| ==> Instrument.StraightLine(blocks[k])
    ensures PlaceFrom(p, Entering(blocks), r).first <= PlaceFrom(p, Entering(blocks), r).last
  {
    if r.Stop? && 0 < r.index <= |blocks| {
      var b := blocks[r.index - 1];
      assert Instrument.StraightLine(b) && b[0].pc == Instrument.First(b);
    }
  }

  lemma {:induction false} ReferenceShrinks(
      instrs: seq<Instrument.Instr>, at: nat, active: map<U64, U64>, stops: set<EventType>)
    ensures ReferenceInstrs(instrs, at, active, stops).active.Keys <= active.Keys
    decreases |instrs|
  {
    if instrs != [] && !(instrs[0].pc in active && active[instrs[0].pc] == 1 && BREAKPOINT in stops) {
      ReferenceShrinks(instrs[1..], at + 1, Instrument.Hit(active, instrs[0].pc), stops);
    }
  }

  lemma {:induction false} EnteringShrinks(events: seq<Event>, index: nat, active: map<U64, U64>, stops: set<EventType>)
    requires forall k :: 0 <= k < |events| ==> events[k].Enter?
    ensures Reference(events, index, active, stops).active.Keys <= active.Keys
    decreases |events|
  {
    if events != [] {
      ReferenceShrinks(events[0].b, 0, active, stops);
      var r := ReferenceBlock(events[0].b, active, stops);
      if r.Through? { EnteringShrinks(events[1..], index + 1, r.active, stops); }
    }
  }

  lemma NextShrinks(p: Place, events: seq<Event>, active: map<U64, U64>, stops: set<EventType>)
    requires forall k :: 0 <= k < |events| ==> events[k].Enter?
    ensures ReferenceFrom(p, events, active, stops).active.Keys <= active.Keys
  {
    if p.counted && p.instrs != [] {
      ReferenceShrinks(p.instrs[1..], 1, active, stops);
    } else {
      ReferenceShrinks(p.instrs, 0, active, stops);
    }
    var r := ReferenceRest(p, active, stops);
    if r.Through? { EnteringShrinks(events, 1, r.active, stops); }
  }

  lemma ResumeAlike(w: World, d: Debugger, i: Ideal, wanted: Val)
    requires Alike(d, i) && Ready(w, i, Go(wanted))
    ensures var (d', o) := Resume(d, EventsOf(wanted));
            var (i', r) := Obey(w, i, Go(wanted));
      && Alike(d', i') && r == Reached(Next(i, wanted).event) && o == Returned(VI32(Next(i, wanted).event))
      && d'.tables.active.Keys <= d.tables.active.Keys
  {
    var events, active, stops := Entering(d.course[0]), d.tables.active, EventsOf(wanted);
    EnteringGranted(d.course[0]);
    assert active.Keys - i.late == active.Keys;
    ResumedAgrees(d.tail, i.place, events, active, stops);
    StopFromFits(d.tail, i.place, events, active, stops);
    NextShrinks(i.place, events, active, stops);
    var r := Next(i, wanted);
    var place := PlaceFrom(i.place, events, r);
    PlaceOrdered(i.place, d.course[0], r);
    assert r.active.Keys - {} == r.active.Keys;
    assert StopFrom(d.tail, events, active, stops)[..1][0] == StopFrom(d.tail, events, active, stops)[0];
  }

  lemma EventMerged(event: EventType)
    ensures HasType(TI32, VI32(event)) && SizesFit(TI32, VI32(event))
    ensures Merge(TI32, VI32(0), VI32(event)) == VI32(event)
  {
  }

  lemma GoAgrees(w: World, d: Debugger, i: Ideal, wanted: Val)
    requires Sendable(Go(wanted)) && Alike(d, i) && Ready(w, i, Go(wanted))
    ensures HasType(CallOf(Go(wanted)).m.arguments, CallOf(Go(wanted)).args)
    ensures Agrees(Handler(w), w, d, i, Go(wanted), CallOf(Go(wanted)))
  {
    NamesDiffer();
    RunTyped(wanted);
    ResumeAlike(w, d, i, wanted);
    EventMerged(Next(i, wanted).event);
    FewerKeys(Resume(d, EventsOf(wanted)).0.tables.active, d.tables.active);
  }

  lemma FewerKeys(less: map<U64, U64>, more: map<U64, U64>)
    requires less.Keys <= more.Keys
    ensures |less| <= |more|
  {
    SubsetSize(less.Keys, more.Keys);
    assert |less| == |less.Keys| && |more| == |more.Keys|;
  }

  lemma SubsetSize(less: set<U64>, more: set<U64>)
    requires less <= more
    ensures |less| <= |more|
  {
    assert more == less + (more - less);
  }

  // Code blocks

  lemma BlockArrives(block: CodeBlock)
    ensures HasType(CODEBLOCK_SCHEMA, Fresh(CODEBLOCK_SCHEMA)) && HasType(CODEBLOCK_SCHEMA, OfCodeBlock(block))
    ensures Tells(Value(Merge(CODEBLOCK_SCHEMA, Fresh(CODEBLOCK_SCHEMA), OfCodeBlock(block))), Shown(block))
  {
    var v := Merge(CODEBLOCK_SCHEMA, Fresh(CODEBLOCK_SCHEMA), OfCodeBlock(block));
    MergeEqual(CODEBLOCK_SCHEMA, Fresh(CODEBLOCK_SCHEMA), OfCodeBlock(block));
    FreshOverwritten(CODEBLOCK_SCHEMA, OfCodeBlock(block));
    CodeBlockCells(block, v);
  }

  lemma CodeTells(w: World, d: Debugger, i: Ideal, m: Method, held: Val)
    requires m.success == Some(CODEBLOCK_SCHEMA) && m.declares && held == Fresh(CODEBLOCK_SCHEMA)
    requires HasType(CODEBLOCK_SCHEMA, held) && Fitting(w) && Alike(d, i) && Ready(w, i, Fetch)
    ensures Allowed(m, Code(w, d)) && Tells(Expected(m, held, Code(w, d)), Obey(w, i, Fetch).1)
  {
    if i.stopped {
      BlockArrives(w.code(i.modules, i.place.first, i.place.last));
    } else {
      assert Code(w, d) == Threw(w.text(NoStoppedBlock));
    }
  }

  lemma CodeHandled(w: World, d: Debugger, args: Val)
    ensures Handle(w, d, GetCodeBlock(), args) == (d, Code(w, d))
  {
    NamesDiffer();
  }

  lemma FetchAgrees(w: World, d: Debugger, i: Ideal)
    requires Fitting(w) && Alike(d, i) && Ready(w, i, Fetch)
    ensures Agrees(Handler(w), w, d, i, Fetch, CallOf(Fetch))
  {
    var call := CallOf(Fetch);
    CallTyped(Fetch);
    CodeHandled(w, d, Passed(call.m, call.args));
    CodeTells(w, d, i, call.m, call.held);
  }

  /** Every command that is ready, sent as `callOf` makes it, is obeyed. */
  ghost predicate Obedient(methods: ProcessMap, h: Handling, w: World, callOf: Command -> Call) {
    forall d: Debugger, i: Ideal, c: Command ::
      Alike(d, i) && Sendable(c) && Ready(w, i, c) && |d.tables.active| < MAX_SIZE ==>
        Proper(methods, callOf(c)) && Agrees(h, w, d, i, c, callOf(c))
  }

  lemma ProperCall(c: Command)
    requires Sendable(c)
    ensures Proper(Processor(), CallOf(c))
  {
    CallTyped(c);
    ServedMethod(CallOf(c).m);
  }

  lemma HandlerObedient(w: World)
    requires Fitting(w)
    ensures Obedient(Processor(), Handler(w), w, CallOf)
  {
    forall d: Debugger, i: Ideal, c: Command
      | Alike(d, i) && Sendable(c) && Ready(w, i, c) && |d.tables.active| < MAX_SIZE
      ensures Proper(Processor(), CallOf(c)) && Agrees(Handler(w), w, d, i, c, CallOf(c))
    {
      ProperCall(c);
      match c
      case Set(bp) => SetAgrees(w, d, i, bp);
      case Clear(bp) => ClearAgrees(w, d, i, bp);
      case Show(held) => ShowAgrees(w, d, i, held);
      case Go(wanted) => GoAgrees(w, d, i, wanted);
      case Fetch => FetchAgrees(w, d, i);
    }
  }

  // Sessions

  /** Every command is ready in its turn. */
  ghost predicate ReadyAlong(w: World, i: Ideal, commands: seq<Command>)
    decreases |commands|
  {
    commands == [] || (Ready(w, i, commands[0]) && ReadyAlong(w, Obey(w, i, commands[0]).0, commands[1..]))
  }

  /** One more call in front. */
  lemma DirectNext(methods: ProcessMap, h: Handling, d: Debugger, calls: seq<Call>, d': Debugger, o: Rpc.Outcome)
    requires calls != [] && AllProper(methods, calls)
    requires h(d, calls[0].m, Passed(calls[0].m, calls[0].args)) == (d', o) && Allowed(calls[0].m, o)
    requires AllProper(methods, calls[1..]) && AllowedAlong(methods, h, d', calls[1..])
    ensures AllowedAlong(methods, h, d, calls)
    ensures var (end, answers) := Direct(methods, h, d', calls[1..]);
      Direct(methods, h, d, calls) == (end, [Expected(calls[0].m, calls[0].held, o)] + answers)
  {
  }

  lemma TellsNext(answer: Answer, r: Response, answers: seq<Answer>, responses: seq<Response>)
    requires Tells(answer, r) && AllTell(answers, responses)
    ensures AllTell([answer] + answers, [r] + responses)
  {
  }

  /** Every command in turn is obeyed. */
  ghost predicate ObeyedAlong(
      methods: ProcessMap, h: Handling, w: World, callOf: Command -> Call,
      d: Debugger, i: Ideal, commands: seq<Command>)
    decreases |commands|
  {
    if commands == [] then Alike(d, i)
    else
      var call := callOf(commands[0]);
      && Proper(methods, call) && Agrees(h, w, d, i, commands[0], call)
      && ObeyedAlong(methods, h, w, callOf, h(d, call.m, Passed(call.m, call.args)).0, Obey(w, i, commands[0]).0,
                     commands[1..])
  }

  lemma {:induction false} ObedientAlong(
      methods: ProcessMap, h: Handling, w: World, callOf: Command -> Call,
      d: Debugger, i: Ideal, commands: seq<Command>)
    requires Obedient(methods, h, w, callOf) && Alike(d, i) && AllSendable(commands) && ReadyAlong(w, i, commands)
    requires |d.tables.active| + |commands| < MAX_SIZE
    ensures ObeyedAlong(methods, h, w, callOf, d, i, commands)
    decreases |commands|
  {
    if commands != [] {
      var call := callOf(commands[0]);
      assert Proper(methods, call) && Agrees(h, w, d, i, commands[0], call);
      ObedientAlong(methods, h, w, callOf, h(d, call.m, Passed(call.m, call.args)).0, Obey(w, i, commands[0]).0,
                    commands[1..]);
    }
  }

  lemma {:induction false} DirectObeys(
      methods: ProcessMap, h: Handling, w: World, callOf: Command -> Call,
      d: Debugger, i: Ideal, commands: seq<Command>)
    requires ObeyedAlong(methods, h, w, callOf, d, i, commands)
    ensures AllProper(methods, CallsOf(callOf, commands)) && AllowedAlong(methods, h, d, CallsOf(callOf, commands))
    ensures Alike(Direct(methods, h, d, CallsOf(callOf, commands)).0, ObeyAll(w, i, commands).0)
    ensures AllTell(Direct(methods, h, d, CallsOf(callOf, commands)).1, ObeyAll(w, i, commands).1)
    decreases |commands|
  {
    if commands != [] {
      var calls := CallsOf(callOf, commands);
      var (d', o) := h(d, calls[0].m, Passed(calls[0].m, calls[0].args));
      var (i', r) := Obey(w, i, commands[0]);
      assert calls[1..] == CallsOf(callOf, commands[1..]);
      DirectObeys(methods, h, w, callOf, d', i', commands[1..]);
      ProperNext(methods, calls);
      DirectNext(methods, h, d, calls, d', o);
      TellsNext(Expected(calls[0].m, calls[0].held, o), r,
                Direct(methods, h, d', calls[1..]).1, ObeyAll(w, i', commands[1..]).1);
    }
  }

  lemma ProperNext(methods: ProcessMap, calls: seq<Call>)
    requires calls != [] && Proper(methods, calls[0]) && AllProper(methods, calls[1..])
    ensures AllProper(methods, calls)
  {
    assert forall i :: 0 < i < |calls| ==> calls[i] == calls[1..][i - 1];
  }

  /** A remote debugging session over one connection, from any point at which the instrumented program stands where the
      reference debugger does: additions, deletions, listings, runs to the next stop and code blocks, in any order, end
      with both at the same place with the same tables, and the client is told what the reference debugger would say. */
  lemma RemoteSession(w: World, d: Debugger, i: Ideal, link: Link, commands: seq<Command>)
    requires Fitting(w) && AllSendable(commands) && |d.tables.active| + |commands| < MAX_SIZE && Drained(link)
    requires Alike(d, i) && ReadyAlong(w, i, commands)
    ensures AllProper(Processor(), CallsOf(CallOf, commands))
    ensures var r := Session(Processor(), Handler(w), d, link, CallsOf(CallOf, commands));
      && r.Some? && Alike(r.value.0, ObeyAll(w, i, commands).0)
      && AllTell(r.value.1, ObeyAll(w, i, commands).1)
  {
    HandlerObedient(w);
    ObedientAlong(Processor(), Handler(w), w, CallOf, d, i, commands);
    DirectObeys(Processor(), Handler(w), w, CallOf, d, i, commands);
    SessionIsDirect(Processor(), Handler(w), d, link, CallsOf(CallOf, commands));
  }

  /** So does a session that begins before the program has run, whatever the tables hold. */
  lemma FirstSession(
      w: World, tables: Tables.Tables, modules: Modules, course: Course, link: Link, commands: seq<Command>)
    requires Fitting(w) && AllSendable(commands) && |tables.active| + |commands| < MAX_SIZE && Drained(link)
    requires ReadyAlong(w, Ideal(tables, modules, false, OUTSIDE, {}, course), commands)
    ensures AllProper(Processor(), CallsOf(CallOf, commands))
    ensures var start := Ideal(tables, modules, false, OUTSIDE, {}, course);
            var r := Session(Processor(), Handler(w), Debugger(tables, modules, None, [], course), link,
                             CallsOf(CallOf, commands));
      && r.Some? && r.value.0.tables == ObeyAll(w, start, commands).0.tables
      && AllTell(r.value.1, ObeyAll(w, start, commands).1)
  {
    var d, start := Debugger(tables, modules, None, [], course), Ideal(tables, modules, false, OUTSIDE, {}, course);
    assert Alike(d, start);
    RemoteSession(w, d, start, link, commands);
  }

  /** Additions, deletions and listings are always ready. */
  lemma {:induction false} TableCommandsReady(w: World, i: Ideal, commands: seq<Command>)
    requires forall k :: 0 <= k < |commands| ==> !commands[k].Go? && !commands[k].Fetch?
    ensures ReadyAlong(w, i, commands)
    decreases |commands|
  {
    if commands != [] { TableCommandsReady(w, Obey(w, i, commands[0]).0, commands[1..]); }
  }

  // What is shown after a stop

  /** The code blocks are what `Evaluator.GetCodeBlock` copies. */
  ghost predicate Copies(w: World) {
    forall mods: Modules, first: U64, last: U64 :: first <= last ==>
      Evaluator.Copied(mods, w.memory, first, last, w.code(mods, first, last))
  }

  lemma {:induction false} ReferenceIndex(events: seq<Event>, index: nat, active: map<U64, U64>, stops: set<EventType>)
    ensures var r := Reference(events, index, active, stops); r.Stop? ==> index <= r.index < index + |events|
    decreases |events|
  {
    if events != [] {
      match events[0]
      case Load(added) => ReferenceIndex(events[1..], index + 1, active + added, stops);
      case Enter(b) =>
        var r := ReferenceBlock(b, active, stops);
        if r.Through? { ReferenceIndex(events[1..], index + 1, r.active, stops); }
    }
  }

  /** The block the program next stops in, unless it is the one it is in already. */
  function StopBlock(i: Ideal, wanted: Val): (b: Option<Instrument.Block>)
    requires HasType(TSet(TI32), wanted) && i.course != []
  {
    var r := Next(i, wanted);
    if r.Stop? && 0 < r.index <= |i.course[0]| then Some(i.course[0][r.index - 1]) else None
  }

  /** After a stop `getCodeBlock` tells the reference debugger's block: its address and the bytes of its instructions.
      */
  lemma FetchShowsCode(w: World, i: Ideal, wanted: Val)
    requires Copies(w) && Ready(w, i, Go(wanted)) && (Next(i, wanted).index > 0)
    ensures StopBlock(i, wanted).Some?
    ensures var b, shown := StopBlock(i, wanted).value, Obey(w, Obey(w, i, Go(wanted)).0, Fetch).1;
      CodeBytes.Contiguous(b) ==>
        shown.Shown? && AsU64(shown.block.addr) == b[0].pc && shown.block.bytes == CodeBytes.Code(b, w.memory)
  {
    var events, r := Entering(i.course[0]), Next(i, wanted);
    var rest := ReferenceRest(i.place, i.tables.active, EventsOf(wanted));
    assert rest.Through?;
    ReferenceIndex(events, 1, rest.active, EventsOf(wanted));
    var b := i.course[0][r.index - 1];
    if CodeBytes.Contiguous(b) { CopiedBlock(w, i.modules, b); }
  }

  lemma CopiedBlock(w: World, mods: Modules, b: Instrument.Block)
    requires Copies(w) && CodeBytes.Contiguous(b)
    ensures var shown := w.code(mods, Instrument.First(b), Instrument.Last(b));
      AsU64(shown.addr) == b[0].pc && shown.bytes == CodeBytes.Code(b, w.memory)
  {
    CodeBytes.ContiguousStraight(b);
    assert Instrument.First(b) <= b[0].pc <= Instrument.Last(b);
    CodeBytes.BlockInMemory(b, w.memory, w.code(mods, Instrument.First(b), Instrument.Last(b)).bytes);
  }
}
