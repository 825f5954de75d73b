/** The processor and the plain client as they run: messages read from one stream and written to another. */
module Endpoints {
  import opened Words
  import opened Binary
  import opened Wire
  import opened Codec
  import opened Messages
  import opened Structs
  import opened Streams
  import opened Rpc
  import opened Transparency

  /** `readMessageBegin`. */
  method TakeHeader(iprot: Reader) returns (ok: bool, head: Header)
    requires iprot.Valid()
    modifies iprot`pos
    ensures iprot.Valid() && ok == ReadHeader(iprot.buf, old(iprot.pos)).Some?
    ensures ok ==> ReadHeader(iprot.buf, old(iprot.pos)) == Some((head, iprot.pos))
  {
    var x, n, name, kind, seqid;
    head := Header([], 0, 0);
    ok, x, n := iprot.TakeI32();
    if !ok { return; }
    if n < 0 {
      StrictWord(iprot.buf, iprot.pos - 4, n);
      var word := n + TWO32;
      if word / 0x1_0000 != 0x8001 { return false, head; }
      kind := word % 256;
      ok, x, name := iprot.TakeString();
    } else {
      ok, x, name := iprot.TakeBytes(n);
      if !ok { return; }
      ok, x, kind := iprot.TakeByte();
    }
    if !ok { return; }
    ok, x, seqid := iprot.TakeI32();
    if ok { head := Header(name, kind, seqid); }
  }

  /** The bytes of a negative word: version and kind as the masks of the program take them out. */
  lemma StrictWord(b: Bytes, p: nat, n: I32)
    requires ReadI32(b, p) == Some(n) && n < 0
    ensures var word := n + TWO32;
      (word / 0x1_0000 == 0x8001 <==> b[p] == 0x80 && b[p + 1] == 0x01) && word % 256 == b[p + 3]
  {
    WordBytes(b, p);
    TopBytes(b[p], b[p + 1], b[p + 2], b[p + 3]);
  }

  lemma WordBytes(b: Bytes, p: nat)
    requires p + 4 <= |b|
    ensures ReadUnsigned(b, p, 4) == Word(b[p], b[p + 1], b[p + 2], b[p + 3])
  {
    assert ReadUnsigned(b, p, 1) == b[p];
    assert ReadUnsigned(b, p, 2) == 256 * ReadUnsigned(b, p, 1) + b[p + 1];
    assert ReadUnsigned(b, p, 3) == 256 * ReadUnsigned(b, p, 2) + b[p + 2];
  }

  function Word(w: int, x: int, y: int, z: int): int {
    0x100_0000 * w + 0x1_0000 * x + 256 * y + z
  }

  lemma TopBytes(w: Byte, x: Byte, y: Byte, z: Byte)
    ensures Word(w, x, y, z) / 0x1_0000 == Word(0, 0, w, x) && Word(w, x, y, z) % 256 == z
  {
  }

  method PutHeader(oprot: Writer, head: Header)
    modifies oprot
    ensures oprot.out == old(oprot.out) + WriteHeader(head)
  {
    var _ := oprot.Put(WriteHeader(head));
  }

  /** `write` of a result struct. */
  method WriteResult(oprot: Writer, m: Method, result: Val)
    requires HasType(Result(m), result)
    modifies oprot
    ensures oprot.out == old(oprot.out) + Encode(SentResult(m, result))
  {
    if m.success.Some? && result.cells[0].isset {
      WriteOnly(oprot, 0, Result(m).slots[0].ty, result.cells[0].val);
    } else if m.declares && result.cells[ExcAt(m)].isset {
      WriteOnly(oprot, 1, Result(m).slots[ExcAt(m)].ty, result.cells[ExcAt(m)].val);
    } else {
      var _ := oprot.Put([STOP]);
    }
  }

  /** A struct with one field. */
  method WriteOnly(oprot: Writer, id: int, ty: Ty, v: Val)
    requires HasType(ty, v)
    modifies oprot
    ensures oprot.out == old(oprot.out) + EncodeFields(Field(id, Sent(ty, v), NoField))
  {
    SentCode(ty, v);
    var x := oprot.Put([CodeFor(ty)] + I16Bytes(id));
    x := oprot.WriteValue(ty, v);
    x := oprot.Put([STOP]);
    OnlyField(old(oprot.out), CodeFor(ty), I16Bytes(id), Write(ty, v));
  }

  lemma OnlyField(out: Bytes, code: Byte, id: Bytes, v: Bytes)
    ensures out + ([code] + id) + v + [STOP] == out + ([code] + (id + (v + [STOP])))
  {
  }

  method WriteFailure(oprot: Writer, head: Header, message: Bytes, kind: I32)
    modifies oprot
    ensures oprot.out == old(oprot.out) + WriteMessage(Failure(head, message, kind))
  {
    PutHeader(oprot, head);
    var _ := oprot.WriteValue(APPLICATION_SCHEMA, OfApplication(message, kind));
    Joined(old(oprot.out), WriteHeader(head), Write(APPLICATION_SCHEMA, OfApplication(message, kind)));
  }

  /** `process`, `dispatchCall` and the six `process_` functions: one message is read, dispatched and answered. */
  method Process<S(!new)>(methods: ProcessMap, h: (S, Method, Val) -> (S, Outcome), s: S, iprot: Reader, oprot: Writer)
    returns (ok: bool, s': S)
    requires iprot.Valid() && Handles(h)
    modifies iprot`pos, oprot
    ensures iprot.Valid()
    ensures ok == Serve(methods, h, s, iprot.buf, old(iprot.pos)).Some?
    ensures ok ==>
      var served := Serve(methods, h, s, iprot.buf, old(iprot.pos)).value;
      && (served.Handled? ==> Allowed(served.m, served.outcome)) && s' == served.state && iprot.pos == served.end
      && oprot.out == old(oprot.out) + WriteMessage(ReplyTo(served))
    ensures !ok ==> s' == s && oprot.out == old(oprot.out)
  {
    s' := s;
    var head, x;
    ok, head := TakeHeader(iprot);
    if !ok || (head.kind != CALL && head.kind != ONEWAY) { return false, s; }
    if head.name !in methods {
      ok, x := iprot.SkipValue(T_STRUCT);
      if ok { WriteFailure(oprot, Header(head.name, EXCEPTION, head.seqid), InvalidName(head.name), UNKNOWN_METHOD); }
      return;
    }
    var m, args := methods[head.name], VI32(0);
    ok, x, args := iprot.ReadValue(m.arguments, Fresh(m.arguments));
    if !ok { return; }
    var r := h(s, m, args);
    s' := r.0;
    WriteOutcome(oprot, m, head.seqid, r.1);
  }

  /** The `try` and `catch` around the handler, and the answer. */
  method WriteOutcome(oprot: Writer, m: Method, seqid: I32, o: Outcome)
    requires Allowed(m, o)
    modifies oprot
    ensures oprot.out == old(oprot.out) + WriteMessage(Reply(m, seqid, o))
  {
    match Filled(m, o)
    case Some(result) =>
      PutHeader(oprot, Header(m.name, REPLY, seqid));
      WriteResult(oprot, m, result);
      Joined(old(oprot.out), WriteHeader(Header(m.name, REPLY, seqid)), Encode(SentResult(m, result)));
    case None =>
      WriteFailure(oprot, Header(m.name, EXCEPTION, seqid), ErrorText(o), UNKNOWN);
  }

  /** `send_`. */
  method Send(oprot: Writer, m: Method, args: Val)
    requires HasType(m.arguments, args)
    modifies oprot
    ensures oprot.out == old(oprot.out) + WriteMessage(Request(m, args))
  {
    PutHeader(oprot, Header(m.name, CALL, 0));
    var _ := oprot.WriteValue(m.arguments, args);
    Joined(old(oprot.out), WriteHeader(Header(m.name, CALL, 0)), Write(m.arguments, args));
  }

  lemma Joined(out: Bytes, d: Bytes, e: Bytes)
    ensures out + d + e == out + (d + e)
  {
  }

  /** `recv_`: returns or throws what the message says. */
  method Recv(iprot: Reader, m: Method, held: Val) returns (answer: Answer)
    requires iprot.Valid() && (m.success.Some? ==> Carries(m, held))
    modifies iprot`pos
    ensures iprot.Valid() && answer == Receive(m, held, iprot.buf, old(iprot.pos)).0
    ensures !answer.Broken? ==> iprot.pos == Receive(m, held, iprot.buf, old(iprot.pos)).1
  {
    var ok, head := TakeHeader(iprot);
    if !ok { return Broken; }
    var x, v;
    if head.kind == EXCEPTION {
      ok, x, v := iprot.ReadValue(APPLICATION_SCHEMA, Fresh(APPLICATION_SCHEMA));
      return if ok then Raised(v) else Broken;
    }
    ok := SkipUnlessExpected(iprot, head.kind == REPLY);
    if !ok { return Broken; }
    ok := SkipUnlessExpected(iprot, head.name == m.name);
    if !ok { return Broken; }
    ok, x, v := iprot.ReadValue(Result(m), Blank(m, held));
    answer := if ok then Answered(m, v) else Broken;
  }

  /** A message that is not the one waited for is skipped. */
  method SkipUnlessExpected(iprot: Reader, expected: bool) returns (ok: bool)
    requires iprot.Valid()
    modifies iprot`pos
    ensures iprot.Valid() && ok == SkipUnless(expected, iprot.buf, old(iprot.pos)).Some?
    ensures ok ==> SkipUnless(expected, iprot.buf, old(iprot.pos)) == Some(iprot.pos)
  {
    ok := true;
    if !expected {
      var x;
      ok, x := iprot.SkipValue(T_STRUCT);
    }
  }
}
