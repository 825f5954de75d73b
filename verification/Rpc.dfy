/** The six remote procedures: request and reply messages, the processor, the plain client. */
module Rpc {
  import opened Words
  import opened Binary
  import opened Wire
  import opened Codec
  import opened Messages
  import opened Structs

  function Ascii(s: string): (r: Bytes)
    ensures |r| == |s|
  {
    seq(|s|, i requires 0 <= i < |s| => s[i] as int % 256)
  }

  // Message headers

  datatype Header = Header(name: Bytes, kind: Byte, seqid: I32)

  const CALL: Byte := 1
  const REPLY: Byte := 2
  const EXCEPTION: Byte := 3
  const ONEWAY: Byte := 4

  /** A version that makes the word negative, an unused byte, the kind. */
  function VersionWord(kind: Byte): (r: Bytes)
    ensures |r| == 4
  {
    [0x80, 0x01, 0, kind]
  }

  /** The strict form. */
  function WriteHeader(h: Header): (r: Bytes)
    ensures |r| == 12 + |h.name|
  {
    VersionWord(h.kind) + (Str(h.name) + I32Bytes(h.seqid))
  }

  /** Both forms are accepted: the strict one, and the older one that begins with the name. */
  function ReadHeader(b: Bytes, p: nat): (r: Option<(Header, nat)>)
    requires p <= |b|
    ensures r.Some? ==> p <= r.value.1 <= |b|
  {
    match ReadSize(b, p)
    case Some(n) =>
      if p + 4 + n >= |b| then None
      else (match ReadI32(b, p + 5 + n)
            case None => None
            case Some(seqid) => Some((Header(b[p + 4..p + 4 + n], b[p + 4 + n], seqid), p + 9 + n)))
    case None =>
      if p + 4 > |b| || b[p] != 0x80 || b[p + 1] != 0x01 then None
      else match StringEnd(b, p + 4)
        case None => None
        case Some(q) =>
          match ReadI32(b, q)
          case None => None
          case Some(seqid) => Some((Header(b[p + 8..q], b[p + 3], seqid), q + 4))
  }

  lemma NegativeWord(b: Bytes, p: nat)
    requires p + 4 <= |b| && b[p] >= 0x80
    ensures ReadSize(b, p) == None
  {
    assert ReadUnsigned(b, p, 1) == b[p];
    assert ReadUnsigned(b, p, 2) == 256 * ReadUnsigned(b, p, 1) + b[p + 1];
    assert ReadUnsigned(b, p, 3) == 256 * ReadUnsigned(b, p, 2) + b[p + 2];
    assert ReadUnsigned(b, p, 4) == 256 * ReadUnsigned(b, p, 3) + b[p + 3];
  }

  lemma HeaderPlaced(h: Header, b: Bytes, p: nat)
    requires At(b, p, WriteHeader(h))
    ensures At(b, p, VersionWord(h.kind)) && At(b, p + 4, Str(h.name)) && At(b, p + 8 + |h.name|, I32Bytes(h.seqid))
  {
    HeaderParts(WriteHeader(h), VersionWord(h.kind), Str(h.name), I32Bytes(h.seqid), b, p);
  }

  lemma HeaderParts(header: Bytes, word: Bytes, name: Bytes, seqid: Bytes, b: Bytes, p: nat)
    requires header == word + (name + seqid) && At(b, p, header)
    ensures At(b, p, word) && At(b, p + |word|, name) && At(b, p + |word| + |name|, seqid)
  {
    AtSplit3(b, p, word, name, seqid);
  }

  lemma WordPlaced(kind: Byte, b: Bytes, p: nat)
    requires At(b, p, VersionWord(kind))
    ensures p + 4 <= |b| && b[p] == 0x80 && b[p + 1] == 0x01 && b[p + 3] == kind
  {
    var word := VersionWord(kind);
    assert word[0] == 0x80 && word[1] == 0x01 && word[3] == kind;
  }

  lemma HeaderRoundTrip(h: Header, b: Bytes, p: nat)
    requires |h.name| < MAX_SIZE && At(b, p, WriteHeader(h))
    ensures ReadHeader(b, p) == Some((h, p + 12 + |h.name|))
  {
    HeaderPlaced(h, b, p);
    WordPlaced(h.kind, b, p);
    NegativeWord(b, p);
    StringRoundTrip(b, p + 4, h.name);
    I32RoundTrip(b, p + 8 + |h.name|, h.seqid);
  }

  // Messages

  datatype Message = Message(head: Header, body: Wire)

  function WriteMessage(x: Message): (r: Bytes)
    ensures |r| == 12 + |x.head.name| + Len(x.body)
  {
    WriteHeader(x.head) + Encode(x.body)
  }

  /** `x` stands at `p` in the stream and ends at `end`. */
  predicate Arrives(x: Message, b: Bytes, p: nat, end: nat) {
    && p + 12 + |x.head.name| <= |b|
    && ReadHeader(b, p) == Some((x.head, p + 12 + |x.head.name|))
    && End(x.body, b, p + 12 + |x.head.name|) == Some(end)
  }

  lemma MessageArrives(x: Message, b: Bytes, p: nat)
    requires |x.head.name| < MAX_SIZE && WellFormed(x.body) && At(b, p, WriteMessage(x))
    ensures Arrives(x, b, p, p + |WriteMessage(x)|)
  {
    MessageParts(WriteMessage(x), WriteHeader(x.head), Encode(x.body), b, p);
    Standing(x.body, b, p + 12 + |x.head.name|);
    HeaderRoundTrip(x.head, b, p);
  }

  lemma MessageParts(message: Bytes, header: Bytes, body: Bytes, b: Bytes, p: nat)
    requires message == header + body && At(b, p, message)
    ensures At(b, p, header) && At(b, p + |header|, body)
  {
    AtSplit(b, p, header, body);
  }

  // Methods

  /** A remote method: its arguments, what it returns (`None` for `void`), and whether it declares `throws (1:
      Exception exc)`. */
  datatype Method = Method(name: Bytes, arguments: Ty, success: Option<Ty>, declares: bool)

  predicate ValidMethod(m: Method) {
    |m.name| < MAX_SIZE && ValidSchema(m.arguments) && (m.success.Some? ==> ValidSchema(m.success.value))
  }

  const EXC_SLOT := Slot(1, EXCEPTION_SCHEMA, true)

  /** The result struct: the value in field 0, the exception in field 1. */
  function Result(m: Method): (ty: Ty)
    ensures ty.TStruct?
  {
    match m.success
    case None => TStruct(if m.declares then [EXC_SLOT] else [])
    case Some(ty) => if m.declares then TStruct([Slot(0, ty, true), EXC_SLOT]) else TStruct([Slot(0, ty, true)])
  }

  /** The processor's map from names to methods. */
  type ProcessMap = map<Bytes, Method>

  // `TApplicationException`

  const MESSAGE_SLOT := Slot(1, TString, false)
  const TYPE_SLOT := Slot(2, TI32, false)
  const APPLICATION_SCHEMA := TStruct([MESSAGE_SLOT, TYPE_SLOT])

  const UNKNOWN: I32 := 0
  const UNKNOWN_METHOD: I32 := 1
  const MISSING_RESULT: I32 := 5

  function OfApplication(message: Bytes, kind: I32): (v: Val)
    ensures HasType(APPLICATION_SCHEMA, v)
  {
    var v := Two(Cell(true, VString(message)), Cell(true, VI32(kind)));
    TwoTyped(MESSAGE_SLOT, TYPE_SLOT, v);
    v
  }

  /** What a handler does: returns, throws the declared exception, or throws any other. */
  datatype Outcome = Done | Returned(value: Val) | Threw(msg: Bytes) | ThrewOther(what: Bytes)

  /** What the client's caller sees; `Broken` is an exception of the protocol or the transport. */
  datatype Answer = Nothing | Value(value: Val) | Exc(msg: Bytes) | Application(message: Bytes, kind: I32) | Broken

  /** `what()` of the declared exception. */
  function What(msg: Bytes): (r: Bytes)
    ensures |r| > |msg|
  {
    Ascii("TException - service has thrown: Exception(msg=") + msg + Ascii(")")
  }

  /** The outcome is one the handler's signature allows, and its sizes fit. */
  predicate Allowed(m: Method, o: Outcome) {
    match o
    case Done => m.success.None?
    case Returned(v) => m.success.Some? && HasType(m.success.value, v) && SizesFit(m.success.value, v)
    case Threw(msg) => |What(msg)| < MAX_SIZE
    case ThrewOther(what) => |what| < MAX_SIZE
  }

  // Results

  predicate Carries(m: Method, v: Val) {
    m.success.Some? && HasType(m.success.value, v)
  }

  /** A result before it is read or filled: no flag set, `held` standing where a value will be read. */
  function Blank(m: Method, held: Val): (v: Val)
    requires m.success.Some? ==> Carries(m, held)
    ensures HasType(Result(m), v)
  {
    var exc := Cell(false, Fresh(EXCEPTION_SCHEMA));
    if m.success.None? then VStruct(if m.declares then [exc] else [])
    else if m.declares then VStruct([Cell(false, held), exc])
    else VStruct([Cell(false, held)])
  }

  /** The result object the client ends up with when the server sent `filled`. */
  function Received(m: Method, held: Val, filled: Val): (v: Val)
    requires HasType(Result(m), filled) && (m.success.Some? ==> Carries(m, held))
    ensures HasType(Result(m), v)
  {
    Merge(Result(m), Blank(m, held), filled)
  }

  /** The position of the exception among the fields of the result. */
  function ExcAt(m: Method): (i: nat)
    requires m.declares
    ensures i < |Result(m).slots| && Result(m).slots[i] == EXC_SLOT
  {
    if m.success.Some? then 1 else 0
  }

  /** The result object the processor fills; `None` if it answers with an application exception instead. */
  function Filled(m: Method, o: Outcome): (r: Option<Val>)
    requires Allowed(m, o)
    ensures r.Some? ==> HasType(Result(m), r.value)
  {
    var blank := Blank(m, if m.success.Some? then Fresh(m.success.value) else VI32(0));
    match o
    case Done => Some(blank)
    case Returned(v) => Some(VStruct(blank.cells[0 := Cell(true, v)]))
    case Threw(msg) =>
      if m.declares then Some(VStruct(blank.cells[ExcAt(m) := Cell(true, OfException(Exception(true, msg)))])) else None
    case ThrewOther(_) => None
  }

  /** A result struct writes the value if it is set, else the exception if that is set. */
  function SentResult(m: Method, v: Val): Wire
    requires HasType(Result(m), v)
  {
    Group(
      if m.success.Some? && v.cells[0].isset then Field(0, Sent(Result(m).slots[0].ty, v.cells[0].val), NoField)
      else if m.declares && v.cells[ExcAt(m)].isset then
        Field(1, Sent(Result(m).slots[ExcAt(m)].ty, v.cells[ExcAt(m)].val), NoField)
      else NoField)
  }

  // Server

  /** The bytes before the first NUL of `what()`, from which an application exception is made. */
  function ErrorText(o: Outcome): Bytes {
    match o
    case Threw(msg) => CStr(What(msg))
    case ThrewOther(what) => CStr(what)
    case _ => []
  }

  function Reply(m: Method, seqid: I32, o: Outcome): Message
    requires Allowed(m, o)
  {
    match Filled(m, o)
    case Some(result) => Message(Header(m.name, REPLY, seqid), SentResult(m, result))
    case None => Failure(Header(m.name, EXCEPTION, seqid), ErrorText(o), UNKNOWN)
  }

  function Failure(head: Header, message: Bytes, kind: I32): Message {
    Message(head, Sent(APPLICATION_SCHEMA, OfApplication(message, kind)))
  }

  function InvalidName(name: Bytes): (r: Bytes)
    ensures |r| > |name|
  {
    Ascii("Invalid method name: '") + name + Ascii("'")
  }

  /** What serving one message leads to: a call handed to the handler, or the refusal of an unknown method. */
  datatype Served<S> = Handled(state: S, m: Method, seqid: I32, outcome: Outcome, end: nat)
    | Refused(state: S, head: Header, end: nat)

  /** Reads one message at `p` and dispatches it; `None` is an exception that closes the connection. */
  function Serve<S>(
      methods: ProcessMap, h: (S, Method, Val) -> (S, Outcome), s: S, b: Bytes, p: nat): (r: Option<Served<S>>)
    requires p <= |b|
    ensures r.Some? ==> p <= r.value.end <= |b|
  {
    match ReadHeader(b, p)
    case None => None
    case Some((head, q)) =>
      if head.kind != CALL && head.kind != ONEWAY then None
      else if head.name !in methods then
        (match Skip(T_STRUCT, b, q)
         case None => None
         case Some(end) => Some(Refused(s, head, end)))
      else
        var m := methods[head.name];
        match Read(m.arguments, Fresh(m.arguments), b, q)
        case None => None
        case Some((args, end)) =>
          var (s', o) := h(s, m, args);
          Some(Handled(s', m, head.seqid, o, end))
  }

  /** The message sent back. */
  function ReplyTo<S>(r: Served<S>): Message
    requires r.Handled? ==> Allowed(r.m, r.outcome)
  {
    match r
    case Handled(_, m, seqid, o, _) => Reply(m, seqid, o)
    case Refused(_, head, _) =>
      Failure(Header(head.name, EXCEPTION, head.seqid), InvalidName(head.name), UNKNOWN_METHOD)
  }

  // Client

  function Request(m: Method, args: Val): Message
    requires HasType(m.arguments, args)
  {
    Message(Header(m.name, CALL, 0), Sent(m.arguments, args))
  }

  function SkipUnless(expected: bool, b: Bytes, p: nat): (r: Option<nat>)
    requires p <= |b|
    ensures r.Some? ==> p <= r.value <= |b|
  {
    if expected then Some(p) else Skip(T_STRUCT, b, p)
  }

  /** The application exception a client rethrows. */
  function Raised(x: Val): Answer
    requires HasType(APPLICATION_SCHEMA, x)
  {
    TwoTyped(MESSAGE_SLOT, TYPE_SLOT, x);
    Application(x.cells[0].val.text, x.cells[1].val.int32)
  }

  /** `recv_`: the answer made of the message at `p`, and where it ends. A reply of another kind or name is skipped,
      and the result is then read all the same. */
  function Receive(m: Method, held: Val, b: Bytes, p: nat): (r: (Answer, nat))
    requires (m.success.Some? ==> Carries(m, held)) && p <= |b|
    ensures p <= r.1 <= |b|
  {
    match ReadHeader(b, p)
    case None => (Broken, p)
    case Some((head, q)) =>
      if head.kind == EXCEPTION then
        (match Read(APPLICATION_SCHEMA, Fresh(APPLICATION_SCHEMA), b, q)
         case None => (Broken, p)
         case Some((x, end)) => (Raised(x), end))
      else match SkipUnless(head.kind == REPLY, b, q)
        case None => (Broken, p)
        case Some(q') =>
          match SkipUnless(head.name == m.name, b, q')
          case None => (Broken, p)
          case Some(q'') =>
            match Read(Result(m), Blank(m, held), b, q'')
            case None => (Broken, p)
            case Some((result, end)) => (Answered(m, result), end)
  }

  /** The answer a result object holds. */
  function Answered(m: Method, result: Val): Answer
    requires HasType(Result(m), result)
  {
    if m.success.Some? && result.cells[0].isset then Value(result.cells[0].val)
    else if m.declares && result.cells[ExcAt(m)].isset then
      assert HasType(Result(m).slots[ExcAt(m)].ty, result.cells[ExcAt(m)].val);
      Exc(ToException(result.cells[ExcAt(m)].val).msg)
    else if m.success.None? then Nothing
    else Application(m.name + Ascii(" failed: unknown result"), MISSING_RESULT)
  }

  /** What a client ought to see of an outcome: the value, merged into the object passed in; the declared exception;
      any other as an application exception. */
  function Expected(m: Method, held: Val, o: Outcome): Answer
    requires Allowed(m, o) && (m.success.Some? ==> Carries(m, held))
  {
    match o
    case Done => Nothing
    case Returned(v) => Value(Merge(m.success.value, held, v))
    case Threw(msg) => if m.declares then Exc(msg) else Application(ErrorText(o), UNKNOWN)
    case ThrewOther(_) => Application(ErrorText(o), UNKNOWN)
  }
}
