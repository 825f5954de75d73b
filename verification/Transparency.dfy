/** Calling through the client, the wire and the processor is calling the handler. */
module Transparency {
  import opened Words
  import opened Binary
  import opened Wire
  import opened Codec
  import opened Messages
  import opened Structs
  import opened Rpc

  lemma OneValid(s: Slot)
    requires ValidSchema(s.ty) && 0 <= s.id < 0x8000
    ensures ValidSchema(TStruct([s]))
  {
  }

  lemma ExceptionValid()
    ensures ValidSchema(EXCEPTION_SCHEMA)
  {
    OneValid(MSG_SLOT);
  }

  lemma ResultValid(m: Method)
    requires ValidMethod(m)
    ensures ValidSchema(Result(m))
  {
    ExceptionValid();
    OneValid(EXC_SLOT);
    if m.success.Some? {
      var slot := Slot(0, m.success.value, true);
      OneValid(slot);
      ZeroValid(slot, EXC_SLOT);
    }
  }

  lemma ZeroValid(s: Slot, t: Slot)
    requires ValidSchema(s.ty) && ValidSchema(t.ty) && 0 == s.id < t.id < 0x8000
    ensures ValidSchema(TStruct([s, t]))
  {
  }

  /** The `else if` of a result's writer makes no difference: the processor never sets both fields. */
  lemma SentResultIsSent(m: Method, o: Outcome)
    requires Allowed(m, o) && Filled(m, o).Some?
    ensures SentResult(m, Filled(m, o).value) == Sent(Result(m), Filled(m, o).value)
  {
    var v := Filled(m, o).value;
    var ty := Result(m);
    if |ty.slots| == 2 {
      assert SentFields(ty, v.cells, 2) == NoField;
      assert SentFields(ty, v.cells, 1) ==
        if v.cells[1].isset then Field(1, Sent(ty.slots[1].ty, v.cells[1].val), NoField) else NoField;
    } else if |ty.slots| == 1 {
      assert SentFields(ty, v.cells, 1) == NoField;
    }
  }

  lemma {:induction false} FreshSizes(ty: Ty)
    ensures SizesFit(ty, Fresh(ty))
  {
    if ty.TStruct? {
      forall i | 0 <= i < |ty.slots| ensures SizesFit(ty.slots[i].ty, Fresh(ty).cells[i].val) {
        FreshSizes(ty.slots[i].ty);
      }
    }
  }

  lemma FilledSizes(m: Method, o: Outcome)
    requires Allowed(m, o) && Filled(m, o).Some?
    ensures SizesFit(Result(m), Filled(m, o).value)
  {
    var ty, v := Result(m), Filled(m, o).value;
    FreshSizes(EXCEPTION_SCHEMA);
    if m.success.Some? { FreshSizes(m.success.value); }
    forall i | 0 <= i < |ty.slots| ensures SizesFit(ty.slots[i].ty, v.cells[i].val) {
      if o.Threw? && i == ExcAt(m) { ExceptionSizes(o.msg); }
    }
  }

  lemma ExceptionSizes(msg: Bytes)
    requires |msg| < MAX_SIZE
    ensures SizesFit(EXCEPTION_SCHEMA, OfException(Exception(true, msg)))
  {
    var v := OfException(Exception(true, msg));
    assert SizesFit(TString, v.cells[0].val);
  }

  lemma ExceptionMerged(v: Val)
    requires HasType(EXCEPTION_SCHEMA, v)
    ensures ToException(Merge(EXCEPTION_SCHEMA, Fresh(EXCEPTION_SCHEMA), v)).msg == ToException(v).msg
  {
    var e := ToException(v);
    MergeEqual(EXCEPTION_SCHEMA, Fresh(EXCEPTION_SCHEMA), v);
    FreshOverwritten(EXCEPTION_SCHEMA, v);
    ExceptionCells(e, v);
    ExceptionCells(e, Merge(EXCEPTION_SCHEMA, Fresh(EXCEPTION_SCHEMA), v));
  }

  /** The answer is that of the fields the server set. */
  lemma AnsweredMerge(m: Method, held: Val, filled: Val)
    requires HasType(Result(m), filled) && (m.success.Some? ==> Carries(m, held))
    ensures var r := Answered(m, Received(m, held, filled));
      if m.success.Some? && filled.cells[0].isset then
        HasType(m.success.value, filled.cells[0].val) && r == Value(Merge(m.success.value, held, filled.cells[0].val))
      else if m.declares && filled.cells[ExcAt(m)].isset then
        HasType(EXCEPTION_SCHEMA, filled.cells[ExcAt(m)].val) && r == Exc(ToException(filled.cells[ExcAt(m)].val).msg)
      else m.success.None? ==> r == Nothing
  {
    var ty, blank := Result(m), Blank(m, held);
    if m.success.Some? {
      MergedCell(ty, blank, filled, 0);
      assert HasType(ty.slots[0].ty, filled.cells[0].val);
    }
    if m.declares {
      MergedCell(ty, blank, filled, ExcAt(m));
      assert HasType(ty.slots[ExcAt(m)].ty, filled.cells[ExcAt(m)].val);
      ExceptionMerged(filled.cells[ExcAt(m)].val);
    }
  }

  lemma AnsweredExpected(m: Method, held: Val, o: Outcome)
    requires Allowed(m, o) && Filled(m, o).Some? && (m.success.Some? ==> Carries(m, held))
    ensures Answered(m, Received(m, held, Filled(m, o).value)) == Expected(m, held, o)
  {
    AnsweredMerge(m, held, Filled(m, o).value);
  }

  lemma MergedCell(ty: Ty, init: Val, v: Val, i: nat)
    requires ty.TStruct? && HasType(ty, init) && HasType(ty, v) && i < |ty.slots|
    ensures Merge(ty, init, v).cells[i] == MergeCell(ty.slots[i], init.cells[i], v.cells[i])
  {
  }

  /** A written value that stands is read to its merge. */
  lemma ReadSent(ty: Ty, init: Val, v: Val, b: Bytes, p: nat, end: nat)
    requires HasType(ty, init) && HasType(ty, v) && ValidSchema(ty)
    requires p <= |b| && End(Sent(ty, v), b, p) == Some(end)
    ensures Read(ty, init, b, p) == Some((Merge(ty, init, v), end))
  {
    MeaningOfSent(ty, init, v);
    ReadStanding(ty, init, Sent(ty, v), b, p);
  }

  // Replies

  lemma ReplyWellFormed(m: Method, seqid: I32, o: Outcome)
    requires Allowed(m, o) && ValidMethod(m)
    ensures WellFormed(Reply(m, seqid, o).body) && |Reply(m, seqid, o).head.name| < MAX_SIZE
  {
    if Filled(m, o).Some? {
      SentResultIsSent(m, o);
      ResultValid(m);
      FilledSizes(m, o);
      SentWellFormed(Result(m), Filled(m, o).value);
    } else {
      FailureWellFormed(Header(m.name, EXCEPTION, seqid), ErrorText(o), UNKNOWN);
    }
  }

  lemma FailureWellFormed(head: Header, message: Bytes, kind: I32)
    requires |message| < MAX_SIZE
    ensures WellFormed(Failure(head, message, kind).body)
  {
    var v := OfApplication(message, kind);
    TwoValid(MESSAGE_SLOT, TYPE_SLOT);
    TwoTyped(MESSAGE_SLOT, TYPE_SLOT, v);
    assert SizesFit(MESSAGE_SLOT.ty, v.cells[0].val) && SizesFit(TYPE_SLOT.ty, v.cells[1].val);
    SentWellFormed(APPLICATION_SCHEMA, v);
  }

  /** The client makes of a reply what it ought to, and stops behind it. */
  lemma ReplyReceived(m: Method, held: Val, seqid: I32, o: Outcome, b: Bytes, p: nat, end: nat)
    requires Allowed(m, o) && ValidMethod(m) && (m.success.Some? ==> Carries(m, held))
    requires Arrives(Reply(m, seqid, o), b, p, end)
    ensures Receive(m, held, b, p) == (Expected(m, held, o), end)
  {
    if Filled(m, o).Some? {
      SentResultIsSent(m, o);
      OutcomeReceived(m, held, Header(m.name, REPLY, seqid), o, b, p, end);
    } else {
      FailureReceived(m, held, Header(m.name, EXCEPTION, seqid), ErrorText(o), UNKNOWN, b, p, end);
    }
  }

  lemma OutcomeReceived(m: Method, held: Val, head: Header, o: Outcome, b: Bytes, p: nat, end: nat)
    requires Allowed(m, o) && Filled(m, o).Some? && ValidMethod(m) && (m.success.Some? ==> Carries(m, held))
    requires head.kind == REPLY && head.name == m.name
    requires Arrives(Message(head, Sent(Result(m), Filled(m, o).value)), b, p, end)
    ensures Receive(m, held, b, p) == (Expected(m, held, o), end)
  {
    FilledReceived(m, held, head, Filled(m, o).value, b, p, p + 12 + |m.name|, end);
    AnsweredExpected(m, held, o);
  }

  lemma FilledReceived(m: Method, held: Val, head: Header, filled: Val, b: Bytes, p: nat, q: nat, end: nat)
    requires ValidMethod(m) && (m.success.Some? ==> Carries(m, held)) && p <= |b| && HasType(Result(m), filled)
    requires ReadHeader(b, p) == Some((head, q)) && head.kind == REPLY && head.name == m.name
    requires End(Sent(Result(m), filled), b, q) == Some(end)
    ensures Receive(m, held, b, p) == (Answered(m, Received(m, held, filled)), end)
  {
    ResultValid(m);
    ReadSent(Result(m), Blank(m, held), filled, b, q, end);
    ResultReceived(m, held, b, p, head, q, Received(m, held, filled), end);
  }

  lemma ResultReceived(m: Method, held: Val, b: Bytes, p: nat, head: Header, q: nat, result: Val, end: nat)
    requires (m.success.Some? ==> Carries(m, held)) && p <= |b| && HasType(Result(m), result)
    requires ReadHeader(b, p) == Some((head, q)) && head.kind == REPLY && head.name == m.name
    requires Read(Result(m), Blank(m, held), b, q) == Some((result, end))
    ensures Receive(m, held, b, p) == (Answered(m, result), end)
  {
  }

  /** Whatever method the client waits for, an application exception reaches it. */
  lemma FailureReceived(m: Method, held: Val, head: Header, message: Bytes, kind: I32, b: Bytes, p: nat, end: nat)
    requires head.kind == EXCEPTION && (m.success.Some? ==> Carries(m, held))
    requires Arrives(Failure(head, message, kind), b, p, end)
    ensures Receive(m, held, b, p) == (Application(message, kind), end)
  {
    var v, init := OfApplication(message, kind), Fresh(APPLICATION_SCHEMA);
    TwoValid(MESSAGE_SLOT, TYPE_SLOT);
    TwoTyped(MESSAGE_SLOT, TYPE_SLOT, v);
    TwoTyped(MESSAGE_SLOT, TYPE_SLOT, init);
    ReadSent(APPLICATION_SCHEMA, init, v, b, p + 12 + |head.name|, end);
    MergedCell(APPLICATION_SCHEMA, init, v, 0);
    MergedCell(APPLICATION_SCHEMA, init, v, 1);
  }

  /** A call of an unknown method is read to its end, changes nothing, and reaches the client as UNKNOWN_METHOD. */
  lemma UnknownMethodAnswered<S>(
      methods: ProcessMap, h: (S, Method, Val) -> (S, Outcome), s: S, x: Message, b: Bytes, p: nat, end: nat,
      m: Method, held: Val, b': Bytes, p': nat, end': nat)
    requires x.head.name !in methods && x.head.kind == CALL && x.body.Group? && Arrives(x, b, p, end)
    requires m.success.Some? ==> Carries(m, held)
    ensures var r := Serve(methods, h, s, b, p);
      && r == Some(Refused(s, x.head, end))
      && (Arrives(ReplyTo(r.value), b', p', end') ==>
            Receive(m, held, b', p') == (Application(InvalidName(x.head.name), UNKNOWN_METHOD), end'))
  {
    SkipStanding(x.body, b, p + 12 + |x.head.name|);
    var head := Header(x.head.name, EXCEPTION, x.head.seqid);
    if Arrives(Failure(head, InvalidName(x.head.name), UNKNOWN_METHOD), b', p', end') {
      FailureReceived(m, held, head, InvalidName(x.head.name), UNKNOWN_METHOD, b', p', end');
    }
  }

  // Requests

  /** The arguments as the handler gets them; equal to those the client passed. */
  function Passed(m: Method, args: Val): (r: Val)
    requires HasType(m.arguments, args)
    ensures HasType(m.arguments, r)
  {
    Merge(m.arguments, Fresh(m.arguments), args)
  }

  lemma PassedEqual(m: Method, args: Val)
    requires HasType(m.arguments, args)
    ensures Equal(m.arguments, Passed(m, args), args)
  {
    MergeEqual(m.arguments, Fresh(m.arguments), args);
    FreshOverwritten(m.arguments, args);
  }

  lemma RequestWellFormed(m: Method, args: Val)
    requires ValidMethod(m) && HasType(m.arguments, args) && SizesFit(m.arguments, args)
    ensures WellFormed(Request(m, args).body) && |Request(m, args).head.name| < MAX_SIZE
  {
    SentWellFormed(m.arguments, args);
  }

  /** The server hands the arguments to the handler, writes its outcome, and stops behind the request. */
  lemma RequestServed<S>(
      methods: ProcessMap, h: (S, Method, Val) -> (S, Outcome), s: S, m: Method, args: Val, b: Bytes, p: nat, end: nat)
    requires HasType(m.arguments, args) && ValidMethod(m) && m.name in methods && methods[m.name] == m
      && Arrives(Request(m, args), b, p, end)
    ensures var (s', o) := h(s, m, Passed(m, args)); Serve(methods, h, s, b, p) == Some(Handled(s', m, 0, o, end))
  {
    ReadSent(m.arguments, Fresh(m.arguments), args, b, p + 12 + |m.name|, end);
    CallServed(methods, h, s, b, p, Header(m.name, CALL, 0), p + 12 + |m.name|, m, Passed(m, args), end);
  }

  lemma CallServed<S>(
      methods: ProcessMap, h: (S, Method, Val) -> (S, Outcome), s: S, b: Bytes, p: nat, head: Header, q: nat,
      m: Method, args: Val, end: nat)
    requires p <= |b| && ReadHeader(b, p) == Some((head, q)) && head.kind == CALL && head.name in methods
      && methods[head.name] == m
    requires Read(m.arguments, Fresh(m.arguments), b, q) == Some((args, end))
    ensures var (s', o) := h(s, m, args); Serve(methods, h, s, b, p) == Some(Handled(s', m, head.seqid, o, end))
  {
  }

  // Sessions: calls one after the other over one connection

  ghost predicate Handles<S(!new)>(h: (S, Method, Val) -> (S, Outcome)) {
    forall s: S, m: Method, a: Val :: HasType(m.arguments, a) ==> Allowed(m, h(s, m, a).1)
  }

  /** A call and the object, if any, its result is read into. */
  datatype Call = Call(m: Method, args: Val, held: Val)

  /** The call is of a method the processor has, with arguments of its types and sizes that fit. */
  predicate Proper(methods: ProcessMap, c: Call) {
    && c.m.name in methods && methods[c.m.name] == c.m && ValidMethod(c.m)
    && HasType(c.m.arguments, c.args) && SizesFit(c.m.arguments, c.args)
    && (c.m.success.Some? ==> Carries(c.m, c.held))
  }

  predicate AllProper(methods: ProcessMap, calls: seq<Call>) {
    forall i :: 0 <= i < |calls| ==> Proper(methods, calls[i])
  }

  /** The two byte streams of a connection, and how far each has been read. */
  datatype Link = Link(up: Bytes, upRead: nat, down: Bytes, downRead: nat)

  /** Everything sent has been read. */
  predicate Drained(link: Link) {
    link.upRead == |link.up| && link.downRead == |link.down|
  }

  /** One remote call: the client sends, the server reads and replies, the client reads. `None` if the server closes
      the connection. */
  ghost function Remote<S(!new)>(
      methods: ProcessMap, h: (S, Method, Val) -> (S, Outcome), s: S, link: Link, c: Call): Option<(S, Link, Answer)>
    requires Proper(methods, c) && link.upRead <= |link.up| && link.downRead <= |link.down|
  {
    var up := link.up + WriteMessage(Request(c.m, c.args));
    match Serve(methods, h, s, up, link.upRead)
    case None => None
    case Some(served) =>
      if served.Handled? && !Allowed(served.m, served.outcome) then None
      else
      var down := link.down + WriteMessage(ReplyTo(served));
      var (answer, end) := Receive(c.m, c.held, down, link.downRead);
      Some((served.state, Link(up, served.end, down, end), answer))
  }

  ghost function Session<S(!new)>(
      methods: ProcessMap, h: (S, Method, Val) -> (S, Outcome), s: S, link: Link, calls: seq<Call>)
    : Option<(S, seq<Answer>)>
    requires AllProper(methods, calls) && link.upRead <= |link.up| && link.downRead <= |link.down|
    decreases |calls|
  {
    if calls == [] then Some((s, []))
    else match Remote(methods, h, s, link, calls[0])
      case None => None
      case Some((s', link', answer)) =>
        if link'.upRead > |link'.up| || link'.downRead > |link'.down| then None
        else match Session(methods, h, s', link', calls[1..])
          case None => None
          case Some((end, answers)) => Some((end, [answer] + answers))
  }

  /** Every outcome in turn is one its method's signature allows, with sizes that fit. */
  ghost predicate AllowedAlong<S>(methods: ProcessMap, h: (S, Method, Val) -> (S, Outcome), s: S, calls: seq<Call>)
    requires AllProper(methods, calls)
    decreases |calls|
  {
    calls == [] ||
    var c := calls[0];
    var (s', o) := h(s, c.m, Passed(c.m, c.args));
    Allowed(c.m, o) && AllowedAlong(methods, h, s', calls[1..])
  }

  lemma {:induction false} HandlesAlong<S(!new)>(
      methods: ProcessMap, h: (S, Method, Val) -> (S, Outcome), s: S, calls: seq<Call>)
    requires Handles(h) && AllProper(methods, calls)
    ensures AllowedAlong(methods, h, s, calls)
    decreases |calls|
  {
    if calls != [] {
      var c := calls[0];
      HandlesAlong(methods, h, h(s, c.m, Passed(c.m, c.args)).0, calls[1..]);
    }
  }

  /** The same calls made on the handler itself. */
  ghost function Direct<S>(methods: ProcessMap, h: (S, Method, Val) -> (S, Outcome), s: S, calls: seq<Call>)
    : (S, seq<Answer>)
    requires AllProper(methods, calls) && AllowedAlong(methods, h, s, calls)
    decreases |calls|
  {
    if calls == [] then (s, [])
    else
      var c := calls[0];
      var (s', o) := h(s, c.m, Passed(c.m, c.args));
      var (end, answers) := Direct(methods, h, s', calls[1..]);
      (end, [Expected(c.m, c.held, o)] + answers)
  }

  /** One call: on a drained connection the client sees what the handler does, and the connection is drained again. */
  lemma RemoteIsDirect<S(!new)>(methods: ProcessMap, h: (S, Method, Val) -> (S, Outcome), s: S, link: Link, c: Call)
    requires Proper(methods, c) && Drained(link) && Allowed(c.m, h(s, c.m, Passed(c.m, c.args)).1)
    ensures var r := Remote(methods, h, s, link, c);
            var (s', o) := h(s, c.m, Passed(c.m, c.args));
      r.Some? && r.value.0 == s' && Drained(r.value.1) && r.value.2 == Expected(c.m, c.held, o)
  {
    var up := link.up + WriteMessage(Request(c.m, c.args));
    assert Arrives(Request(c.m, c.args), up, link.upRead, |up|) by {
      RequestWellFormed(c.m, c.args);
      Appended(Request(c.m, c.args), link.up, up);
    }
    RequestServed(methods, h, s, c.m, c.args, up, link.upRead, |up|);
    var (s', o) := h(s, c.m, Passed(c.m, c.args));
    var down := link.down + WriteMessage(Reply(c.m, 0, o));
    assert Arrives(Reply(c.m, 0, o), down, link.downRead, |down|) by {
      ReplyWellFormed(c.m, 0, o);
      Appended(Reply(c.m, 0, o), link.down, down);
    }
    ReplyReceived(c.m, c.held, 0, o, down, link.downRead, |down|);
  }

  lemma Appended(x: Message, stream: Bytes, b: Bytes)
    requires |x.head.name| < MAX_SIZE && WellFormed(x.body) && b == stream + WriteMessage(x)
    ensures Arrives(x, b, |stream|, |b|)
  {
    StandsLast(WriteMessage(x), stream, b);
    MessageArrives(x, b, |stream|);
  }

  lemma StandsLast(e: Bytes, stream: Bytes, b: Bytes)
    requires b == stream + e
    ensures At(b, |stream|, e) && |b| == |stream| + |e|
  {
  }

  /** Any sequence of calls over one connection gives the answers, and leaves the handler in the state, of the same
      calls made directly. */
  lemma {:induction false} SessionIsDirect<S(!new)>(
      methods: ProcessMap, h: (S, Method, Val) -> (S, Outcome), s: S, link: Link, calls: seq<Call>)
    requires AllProper(methods, calls) && AllowedAlong(methods, h, s, calls) && Drained(link)
    ensures Session(methods, h, s, link, calls) == Some(Direct(methods, h, s, calls))
    decreases |calls|
  {
    if calls != [] {
      var c := calls[0];
      RemoteIsDirect(methods, h, s, link, c);
      var r := Remote(methods, h, s, link, c).value;
      SessionIsDirect(methods, h, r.0, r.1, calls[1..]);
    }
  }

  /** Whatever the handler does, no client raises MISSING_RESULT or a protocol exception over the reply. */
  lemma NeverMissingResult(m: Method, held: Val, seqid: I32, o: Outcome, b: Bytes, p: nat, end: nat)
    requires Allowed(m, o) && ValidMethod(m) && (m.success.Some? ==> Carries(m, held))
    requires Arrives(Reply(m, seqid, o), b, p, end)
    ensures var answer := Receive(m, held, b, p).0;
      !answer.Broken? && (answer.Application? ==> answer.kind != MISSING_RESULT)
  {
    ReplyReceived(m, held, seqid, o, b, p, end);
  }
}
