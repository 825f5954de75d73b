/** The requests and replies of the six methods, byte by byte. */
module MessageBytes {
  import opened Words
  import opened Types
  import opened Binary
  import opened Wire
  import opened Codec
  import opened Messages
  import opened Structs
  import opened Rpc
  import opened Transparency
  import opened Service
  import opened Snapshot
  import opened WireBytes

  // Names and headers

  const ADD_NAME: Bytes := [97, 100, 100, 66, 114, 101, 97, 107, 112, 111, 105, 110, 116]
  const DEL_NAME: Bytes := [100, 101, 108, 66, 114, 101, 97, 107, 112, 111, 105, 110, 116]
  const LIST_NAME: Bytes := [103, 101, 116, 66, 114, 101, 97, 107, 112, 111, 105, 110, 116, 115]
  const RUN_NAME: Bytes := [101, 120, 101, 99, 117, 116, 101, 85, 110, 116, 105, 108, 69, 118, 101, 110, 116]
  const BLOCK_NAME: Bytes := [103, 101, 116, 67, 111, 100, 101, 66, 108, 111, 99, 107]
  const CONTEXT_NAME: Bytes := [103, 101, 116, 67, 111, 110, 116, 101, 120, 116]

  lemma AddName()
    ensures AddBreakpoint().name == ADD_NAME
  {
  }

  lemma DelName()
    ensures DelBreakpoint().name == DEL_NAME
  {
  }

  lemma ListName()
    ensures GetBreakpoints().name == LIST_NAME
  {
  }

  lemma RunName()
    ensures ExecuteUntilEvent().name == RUN_NAME
  {
  }

  lemma BlockName()
    ensures GetCodeBlock().name == BLOCK_NAME
  {
  }

  lemma ContextName()
    ensures GetContext().name == CONTEXT_NAME
  {
  }

  /** The version, the kind, the name, and the sequence number. */
  function HeadBytes(kind: Byte, name: Bytes, seqid: I32): Bytes {
    [128, 1, 0, kind] + Str(name) + I32Bytes(seqid)
  }

  lemma HeadWritten(h: Header)
    ensures WriteHeader(h) == HeadBytes(h.kind, h.name, h.seqid)
  {
    Regroup(VersionWord(h.kind), Str(h.name), I32Bytes(h.seqid));
  }

  // Sets and maps

  function ElemBytes(elem: Ty, vs: seq<Val>): Bytes
    requires HasType(TSet(elem), VSet(vs))
  {
    if vs == [] then [] else Write(elem, vs[0]) + ElemBytes(elem, vs[1..])
  }

  lemma {:induction false} ElemsWritten(elem: Ty, vs: seq<Val>)
    requires HasType(TSet(elem), VSet(vs))
    ensures EncodeElems(SentElems(elem, vs)) == ElemBytes(elem, vs) && ElemCount(SentElems(elem, vs)) == |vs|
  {
    if vs != [] { ElemsWritten(elem, vs[1..]); }
  }

  lemma SetWritten(elem: Ty, vs: seq<Val>)
    requires HasType(TSet(elem), VSet(vs))
    ensures Write(TSet(elem), VSet(vs)) == [CodeFor(elem)] + I32Bytes(|vs|) + ElemBytes(elem, vs)
  {
    ElemsWritten(elem, vs);
    Regroup([CodeFor(elem)], I32Bytes(|vs|), ElemBytes(elem, vs));
  }

  /** Breakpoints one after the other. */
  function ListBytes(s: seq<Breakpoint>): Bytes {
    if s == [] then [] else BreakpointBytes(s[0]) + ListBytes(s[1..])
  }

  lemma {:induction false} ListWritten(s: seq<Breakpoint>)
    ensures ElemBytes(BREAKPOINT_SCHEMA, Values(s).elems) == ListBytes(s)
  {
    if s != [] {
      assert Values(s).elems[1..] == Values(s[1..]).elems;
      ListWritten(s[1..]);
      BreakpointWritten(s[0]);
    }
  }

  function NumbersBytes(vs: seq<Val>): Bytes
    requires HasType(TSet(TI32), VSet(vs))
  {
    if vs == [] then [] else I32Bytes(vs[0].int32) + NumbersBytes(vs[1..])
  }

  lemma {:induction false} NumbersWritten(vs: seq<Val>)
    requires HasType(TSet(TI32), VSet(vs))
    ensures ElemBytes(TI32, vs) == NumbersBytes(vs)
  {
    if vs != [] { NumbersWritten(vs[1..]); }
  }

  function RegisterBytes(pairs: seq<Pair>): Bytes
    requires HasType(TMap(TString, TString), VMap(pairs))
  {
    if pairs == [] then []
    else
      assert HasType(TString, pairs[0].key) && HasType(TString, pairs[0].val);
      Str(pairs[0].key.text) + Str(pairs[0].val.text) + RegisterBytes(pairs[1..])
  }

  lemma {:induction false} PairsWritten(pairs: seq<Pair>)
    requires HasType(TMap(TString, TString), VMap(pairs))
    ensures var e := SentPairs(TString, TString, pairs);
      EncodeEntries(e) == RegisterBytes(pairs) && EntryCount(e) == |pairs|
  {
    if pairs != [] {
      PairsWritten(pairs[1..]);
      assert HasType(TString, pairs[0].key) && HasType(TString, pairs[0].val);
      Regroup(Str(pairs[0].key.text), Str(pairs[0].val.text), RegisterBytes(pairs[1..]));
    }
  }

  lemma MapWritten(key: Ty, val: Ty, pairs: seq<Pair>, x: Byte, y: Byte, e: Bytes)
    requires HasType(TMap(key, val), VMap(pairs)) && CodeFor(key) == x && CodeFor(val) == y
    requires EncodeEntries(SentPairs(key, val, pairs)) == e && EntryCount(SentPairs(key, val, pairs)) == |pairs|
    ensures Write(TMap(key, val), VMap(pairs)) == [x, y] + I32Bytes(|pairs|) + e
  {
    TwoCodes(x, y, I32Bytes(|pairs|), e);
  }

  predicate WrittenAs(pairs: seq<Pair>, e: Bytes)
    requires HasType(TMap(TString, TString), VMap(pairs))
  {
    Write(TMap(TString, TString), VMap(pairs)) == [11, 11] + I32Bytes(|pairs|) + e
  }

  lemma RegistersWritten(pairs: seq<Pair>)
    requires HasType(TMap(TString, TString), VMap(pairs))
    ensures WrittenAs(pairs, RegisterBytes(pairs))
  {
    var e := RegisterBytes(pairs);
    PairsWritten(pairs);
    MapWritten(TString, TString, pairs, 11, 11, e);
  }

  lemma TwoCodes(x: Byte, y: Byte, n: Bytes, e: Bytes)
    ensures [x] + ([y] + (n + e)) == [x, y] + n + e
  {
  }

  // Requests

  lemma RequestWritten(m: Method, s: Slot, v: Val)
    requires m.arguments == TStruct([s]) && HasType(s.ty, v) && !s.optional && 0 <= s.id < 256
    ensures HasType(m.arguments, VStruct([Cell(true, v)]))
    ensures WriteMessage(Request(m, VStruct([Cell(true, v)])))
         == HeadBytes(1, m.name, 0) + ([CodeFor(s.ty), 0, s.id] + Write(s.ty, v) + [0])
  {
    var args := VStruct([Cell(true, v)]);
    assert HasType(TStruct([s]), args) by {
      assert TStruct([s]).slots[0] == s && args.cells[0].val == v;
    }
    OneField(s, args);
    SmallId(s.id);
    assert [CodeFor(s.ty)] + [0, s.id] == [CodeFor(s.ty), 0, s.id];
    HeadWritten(Header(m.name, CALL, 0));
  }

  /** `addBreakpoint (bp)` and `delBreakpoint (bp)`. */
  lemma BreakpointRequests(bp: Breakpoint)
    ensures WriteMessage(Request(AddBreakpoint(), OfArgument(bp)))
         == HeadBytes(1, ADD_NAME, 0) + ([12, 0, 1] + BreakpointBytes(bp) + [0])
    ensures WriteMessage(Request(DelBreakpoint(), OfArgument(bp)))
         == HeadBytes(1, DEL_NAME, 0) + ([12, 0, 1] + BreakpointBytes(bp) + [0])
  {
    AddName();
    DelName();
    BreakpointWritten(bp);
    RequestWritten(AddBreakpoint(), BREAKPOINT_SLOT, OfBreakpoint(bp));
    RequestWritten(DelBreakpoint(), BREAKPOINT_SLOT, OfBreakpoint(bp));
  }

  /** `executeUntilEvent (events)`. */
  lemma RunRequest(events: seq<Val>)
    requires HasType(TSet(TI32), VSet(events))
    ensures HasType(RUN_ARGUMENTS, VStruct([Cell(true, VSet(events))]))
    ensures WriteMessage(Request(ExecuteUntilEvent(), VStruct([Cell(true, VSet(events))])))
         == HeadBytes(1, RUN_NAME, 0) + ([14, 0, 1] + ([8] + I32Bytes(|events|) + NumbersBytes(events)) + [0])
  {
    RunName();
    SetWritten(TI32, events);
    NumbersWritten(events);
    RequestWritten(ExecuteUntilEvent(), STOP_EVENTS_SLOT, VSet(events));
  }

  lemma EmptyRequest(m: Method)
    requires m.arguments == TStruct([])
    ensures WriteMessage(Request(m, VStruct([]))) == HeadBytes(1, m.name, 0) + [0]
  {
    HeadWritten(Header(m.name, CALL, 0));
  }

  /** The three methods without arguments. */
  lemma PlainRequests()
    ensures WriteMessage(Request(GetBreakpoints(), VStruct([]))) == HeadBytes(1, LIST_NAME, 0) + [0]
    ensures WriteMessage(Request(GetCodeBlock(), VStruct([]))) == HeadBytes(1, BLOCK_NAME, 0) + [0]
    ensures WriteMessage(Request(GetContext(), VStruct([]))) == HeadBytes(1, CONTEXT_NAME, 0) + [0]
  {
    ListName();
    BlockName();
    ContextName();
    EmptyRequest(GetBreakpoints());
    EmptyRequest(GetCodeBlock());
    EmptyRequest(GetContext());
  }

  lemma SmallNumber(n: Byte)
    ensures I32Bytes(n) == [0, 0, 0, n]
  {
    ZeroBytes();
    OneByte(n, 4);
  }

  /** The stop events are the numbers of the interface file, 0 for a breakpoint and 3 for a relevant block. */
  lemma StopEventBytes()
    ensures var events := [VI32(BREAKPOINT), VI32(RELEVANT_BLOCK)];
      WriteMessage(Request(ExecuteUntilEvent(), VStruct([Cell(true, VSet(events))])))
      == HeadBytes(1, RUN_NAME, 0) + ([14, 0, 1] + ([8] + [0, 0, 0, 2] + ([0, 0, 0, 0] + [0, 0, 0, 3])) + [0])
  {
    var events := [VI32(BREAKPOINT), VI32(RELEVANT_BLOCK)];
    RunRequest(events);
    SmallNumber(0);
    SmallNumber(2);
    SmallNumber(3);
    TwoNumbers(0, 3);
  }

  lemma TwoNumbers(x: I32, y: I32)
    ensures NumbersBytes([VI32(x), VI32(y)]) == I32Bytes(x) + I32Bytes(y)
  {
    assert [VI32(x), VI32(y)][1..] == [VI32(y)];
    assert NumbersBytes([VI32(y)]) == I32Bytes(y) + NumbersBytes([VI32(y)][1..]) == I32Bytes(y);
  }

  // Replies

  lemma ReplyWritten(m: Method, seqid: I32, o: Outcome, body: Bytes)
    requires Allowed(m, o) && Filled(m, o).Some? && Encode(SentResult(m, Filled(m, o).value)) == body
    ensures WriteMessage(Reply(m, seqid, o)) == HeadBytes(2, m.name, seqid) + body
  {
    HeadWritten(Header(m.name, REPLY, seqid));
  }

  lemma FieldAlone(id: int, code: Byte, w: Wire)
    requires 0 <= id < 256 && CodeOf(w) == code
    ensures Encode(Group(Field(id, w, NoField))) == [code, 0, id] + Encode(w) + [0]
  {
    SmallId(id);
    Alone(code, id, Encode(w));
    assert EncodeFields(NoField) == [0];
    assert Encode(Group(Field(id, w, NoField))) == [code] + (I16Bytes(id) + (Encode(w) + EncodeFields(NoField)));
  }

  lemma Alone(code: Byte, id: Byte, e: Bytes)
    ensures [code] + ([0, id] + (e + [0])) == [code, 0, id] + e + [0]
  {
  }

  /** A method that returns nothing. */
  lemma DoneReply(m: Method, seqid: I32)
    requires m.success.None?
    ensures WriteMessage(Reply(m, seqid, Done)) == HeadBytes(2, m.name, seqid) + [0]
  {
    ReplyWritten(m, seqid, Done, [0]);
  }

  /** A value goes into field 0. */
  lemma ValueReply(m: Method, seqid: I32, ty: Ty, v: Val)
    requires m.success == Some(ty) && HasType(ty, v) && SizesFit(ty, v)
    ensures WriteMessage(Reply(m, seqid, Returned(v)))
         == HeadBytes(2, m.name, seqid) + ([CodeFor(ty), 0, 0] + Write(ty, v) + [0])
  {
    SentCode(ty, v);
    FieldAlone(0, CodeFor(ty), Sent(ty, v));
    ReplyWritten(m, seqid, Returned(v), [CodeFor(ty), 0, 0] + Write(ty, v) + [0]);
  }

  /** The declared exception goes into field 1. */
  lemma ExceptionReply(m: Method, seqid: I32, msg: Bytes)
    requires m.declares && Allowed(m, Threw(msg))
    ensures WriteMessage(Reply(m, seqid, Threw(msg)))
         == HeadBytes(2, m.name, seqid) + ([12, 0, 1] + ([11, 0, 1] + Str(msg) + [0]) + [0])
  {
    var e := OfException(Exception(true, msg));
    ExceptionWritten(Exception(true, msg));
    SentCode(EXCEPTION_SCHEMA, e);
    FieldAlone(1, 12, Sent(EXCEPTION_SCHEMA, e));
    ReplyWritten(m, seqid, Threw(msg), [12, 0, 1] + ([11, 0, 1] + Str(msg) + [0]) + [0]);
  }

  lemma FailureWritten(head: Header, text: Bytes, kind: I32)
    ensures WriteMessage(Failure(head, text, kind))
         == HeadBytes(head.kind, head.name, head.seqid)
            + (([11, 0, 1] + Str(text)) + (([8, 0, 2] + I32Bytes(kind)) + [0]))
  {
    var v := OfApplication(text, kind);
    TwoFields(MESSAGE_SLOT, TYPE_SLOT, v);
    TextField(MESSAGE_SLOT, true, text);
    SmallId(2);
    assert [8] + [0, 2] == [8, 0, 2];
    HeadWritten(head);
  }

  /** Any other exception, and one that is not declared, is answered by an application exception of kind 0 with the text
      of `what()` up to its first NUL. */
  lemma OtherReply(m: Method, seqid: I32, o: Outcome)
    requires Allowed(m, o) && (o.ThrewOther? || (o.Threw? && !m.declares))
    ensures var what := if o.ThrewOther? then o.what
                        else Ascii("TException - service has thrown: Exception(msg=") + o.msg + Ascii(")");
      WriteMessage(Reply(m, seqid, o))
      == HeadBytes(3, m.name, seqid) + (([11, 0, 1] + Str(CStr(what))) + (([8, 0, 2] + [0, 0, 0, 0]) + [0]))
  {
    SmallNumber(0);
    FailureWritten(Header(m.name, EXCEPTION, seqid), ErrorText(o), UNKNOWN);
  }

  /** A name the processor does not know, by one of kind 1. */
  lemma RefusedReply<S>(s: S, head: Header, end: nat)
    ensures WriteMessage(ReplyTo(Refused(s, head, end)))
         == HeadBytes(3, head.name, head.seqid)
            + (([11, 0, 1] + Str(Ascii("Invalid method name: '") + head.name + [39]))
               + (([8, 0, 2] + [0, 0, 0, 1]) + [0]))
  {
    SmallNumber(1);
    assert Ascii("'") == [39];
    FailureWritten(Header(head.name, EXCEPTION, head.seqid), InvalidName(head.name), UNKNOWN_METHOD);
  }

  lemma SetReply(m: Method, seqid: I32, elem: Ty, vs: seq<Val>, e: Bytes)
    requires m.success == Some(TSet(elem)) && HasType(TSet(elem), VSet(vs)) && SizesFit(TSet(elem), VSet(vs))
    requires ElemBytes(elem, vs) == e
    ensures WriteMessage(Reply(m, seqid, Returned(VSet(vs))))
         == HeadBytes(2, m.name, seqid) + ([14, 0, 0] + ([CodeFor(elem)] + I32Bytes(|vs|) + e) + [0])
  {
    SetWritten(elem, vs);
    ValueReply(m, seqid, TSet(elem), VSet(vs));
  }

  lemma ListReplyOf(m: Method, seqid: I32, elem: Ty, v: Val, n: nat, e: Bytes)
    requires m.success == Some(TSet(elem)) && HasType(TSet(elem), v) && SizesFit(TSet(elem), v)
    requires |v.elems| == n && ElemBytes(elem, v.elems) == e && elem.TStruct?
    ensures WriteMessage(Reply(m, seqid, Returned(v)))
         == HeadBytes(2, m.name, seqid) + ([14, 0, 0] + ([12] + I32Bytes(n) + e) + [0])
  {
    SetReply(m, seqid, elem, v.elems, e);
  }

  predicate ListsAs(elem: Ty, v: Val, s: seq<Breakpoint>) {
    && elem.TStruct? && HasType(TSet(elem), v) && SizesFit(TSet(elem), v)
    && |v.elems| == |s| && ElemBytes(elem, v.elems) == ListBytes(s)
  }

  lemma ValuesList(s: seq<Breakpoint>)
    requires SizesFit(TSet(BREAKPOINT_SCHEMA), Values(s))
    ensures ListsAs(BREAKPOINT_SCHEMA, Values(s), s)
  {
    ListWritten(s);
  }

  /** `getBreakpoints` returns a set of structs. */
  lemma ListReply(m: Method, elem: Ty, seqid: I32, v: Val, s: seq<Breakpoint>)
    requires m.success == Some(TSet(elem)) && ListsAs(elem, v, s)
    ensures WriteMessage(Reply(m, seqid, Returned(v)))
         == HeadBytes(2, m.name, seqid) + ([14, 0, 0] + ([12] + I32Bytes(|s|) + ListBytes(s)) + [0])
  {
    ListReplyOf(m, seqid, elem, v, |s|, ListBytes(s));
  }

  lemma ListMethod()
    ensures GetBreakpoints().name == LIST_NAME && GetBreakpoints().success == Some(TSet(BREAKPOINT_SCHEMA))
  {
    ListName();
  }

  /** `executeUntilEvent` returns the number of the event. */
  lemma RunReply(seqid: I32, event: EventType)
    ensures WriteMessage(Reply(ExecuteUntilEvent(), seqid, Returned(VI32(event))))
         == HeadBytes(2, RUN_NAME, seqid) + ([8, 0, 0] + I32Bytes(event) + [0])
  {
    RunName();
    ValueReply(ExecuteUntilEvent(), seqid, TI32, VI32(event));
  }

  /** `getCodeBlock` returns a struct. */
  lemma BlockReply(seqid: I32, c: CodeBlock)
    requires SizesFit(CODEBLOCK_SCHEMA, OfCodeBlock(c))
    ensures WriteMessage(Reply(GetCodeBlock(), seqid, Returned(OfCodeBlock(c))))
         == HeadBytes(2, BLOCK_NAME, seqid) + ([12, 0, 0] + CodeBlockBytes(c) + [0])
  {
    BlockName();
    CodeBlockWritten(c);
    ValueReply(GetCodeBlock(), seqid, CODEBLOCK_SCHEMA, OfCodeBlock(c));
  }

  /** `getContext` returns a map of strings. */
  lemma ContextReply(seqid: I32, pairs: seq<Pair>)
    requires HasType(TMap(TString, TString), VMap(pairs)) && SizesFit(TMap(TString, TString), VMap(pairs))
    ensures WriteMessage(Reply(GetContext(), seqid, Returned(VMap(pairs))))
         == HeadBytes(2, CONTEXT_NAME, seqid)
            + ([13, 0, 0] + ([11, 11] + I32Bytes(|pairs|) + RegisterBytes(pairs)) + [0])
  {
    ContextName();
    RegistersWritten(pairs);
    ValueReply(GetContext(), seqid, TMap(TString, TString), VMap(pairs));
  }

  lemma MayThrow(m: Method, msg: Bytes)
    requires |What(msg)| < MAX_SIZE
    ensures Allowed(m, Threw(msg))
  {
  }

  /** `addBreakpoint` and `delBreakpoint` return nothing, or their exception. */
  lemma BreakpointReplies(m: Method, seqid: I32, msg: Bytes)
    requires m == AddBreakpoint() || m == DelBreakpoint()
    requires |What(msg)| < MAX_SIZE
    ensures Allowed(m, Done) && WriteMessage(Reply(m, seqid, Done)) == HeadBytes(2, m.name, seqid) + [0]
    ensures Allowed(m, Threw(msg))
    ensures WriteMessage(Reply(m, seqid, Threw(msg)))
         == HeadBytes(2, m.name, seqid) + ([12, 0, 1] + ([11, 0, 1] + Str(msg) + [0]) + [0])
  {
    DoneReply(m, seqid);
    MayThrow(m, msg);
    ExceptionReply(m, seqid, msg);
  }

  /** `getCodeBlock` and `getContext` declare the exception; `getBreakpoints` and `executeUntilEvent` do not, and answer
      it like any other. */
  lemma ExceptionReplies(m: Method, seqid: I32, msg: Bytes)
    requires m == GetCodeBlock() || m == GetContext() || m == GetBreakpoints() || m == ExecuteUntilEvent()
    requires |What(msg)| < MAX_SIZE
    ensures Allowed(m, Threw(msg))
    ensures m.name == BLOCK_NAME || m.name == CONTEXT_NAME ==>
              WriteMessage(Reply(m, seqid, Threw(msg)))
              == HeadBytes(2, m.name, seqid) + ([12, 0, 1] + ([11, 0, 1] + Str(msg) + [0]) + [0])
    ensures m.name == LIST_NAME || m.name == RUN_NAME ==>
              WriteMessage(Reply(m, seqid, Threw(msg)))
              == HeadBytes(3, m.name, seqid)
                 + (([11, 0, 1] + Str(CStr(What(msg)))) + (([8, 0, 2] + [0, 0, 0, 0]) + [0]))
  {
    BlockName();
    ContextName();
    ListName();
    RunName();
    MayThrow(m, msg);
    if m.declares { ExceptionReply(m, seqid, msg); } else { OtherReply(m, seqid, Threw(msg)); }
  }
}
