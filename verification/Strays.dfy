/** Messages that are not the ones expected: what a client makes of them, and what a server does not answer. */
module Strays {
  import opened Words
  import opened Binary
  import opened Wire
  import opened Codec
  import opened Messages
  import opened Structs
  import opened Rpc

  lemma Skipped(expected: bool, w: Wire, b: Bytes, p: nat, end: nat)
    requires w.Group? && p <= |b| && (!expected ==> End(w, b, p) == Some(end))
    ensures SkipUnless(expected, b, p) == Some(if expected then p else end)
  {
    if !expected { SkipStanding(w, b, p); }
  }

  lemma ReceiveFrom(m: Method, held: Val, b: Bytes, p: nat, head: Header, q: nat, q': nat, q'': nat)
    requires (m.success.Some? ==> Carries(m, held)) && p <= |b| && ReadHeader(b, p) == Some((head, q))
    requires head.kind != EXCEPTION && SkipUnless(head.kind == REPLY, b, q) == Some(q')
    requires SkipUnless(head.name == m.name, b, q') == Some(q'')
    ensures Receive(m, held, b, p) ==
      match Read(Result(m), Blank(m, held), b, q'')
      case None => (Broken, p)
      case Some((result, end)) => (Answered(m, result), end)
  {
  }

  /** A message of another kind, or of another method, is skipped, and the result is read from what follows it; one that
      is both is skipped twice. */
  lemma StrayMessageSkipped(m: Method, held: Val, x: Message, b: Bytes, p: nat, end: nat, next: Wire, end': nat)
    requires (m.success.Some? ==> Carries(m, held)) && x.body.Group? && next.Group? && p <= |b|
    requires x.head.kind != 3 && (x.head.kind != 2 || x.head.name != m.name)
    requires Arrives(x, b, p, end) && End(next, b, end) == Some(end')
    ensures var from := if x.head.kind != 2 && x.head.name != m.name then end' else end;
      Receive(m, held, b, p) ==
        match Read(Result(m), Blank(m, held), b, from)
        case None => (Broken, p)
        case Some((result, q)) => (Answered(m, result), q)
  {
    var q := p + 12 + |x.head.name|;
    Skipped(x.head.kind == REPLY, x.body, b, q, end);
    if x.head.kind == REPLY {
      Skipped(false, x.body, b, q, end);
      ReceiveFrom(m, held, b, p, x.head, q, q, end);
    } else {
      Skipped(x.head.name == m.name, next, b, end, end');
      ReceiveFrom(m, held, b, p, x.head, q, end, if x.head.name == m.name then end else end');
    }
  }

  lemma EmptyRead(ty: Ty, init: Val, b: Bytes, q: nat)
    requires ty.TStruct? && HasType(ty, init) && q < |b| && b[q] == STOP
    ensures Read(ty, init, b, q) == Some((init, q + 1))
  {
    assert ReadFields(ty.slots, init.cells, b, q) == Some((init.cells, q + 1));
  }

  /** An empty result: nothing for a `void` method, MISSING_RESULT for any other. */
  lemma EmptyResult(m: Method, held: Val, seqid: I32, b: Bytes, p: nat, end: nat)
    requires (m.success.Some? ==> Carries(m, held)) && p <= |b|
    requires Arrives(Message(Header(m.name, 2, seqid), Group(NoField)), b, p, end)
    ensures Receive(m, held, b, p) ==
      (if m.success.None? then Nothing else Application(m.name + Ascii(" failed: unknown result"), 5), end)
  {
    var q := p + 12 + |m.name|;
    assert EndFields(NoField, b, q) == Some(end);
    EmptyRead(Result(m), Blank(m, held), b, q);
    ReceiveFrom(m, held, b, p, Header(m.name, 2, seqid), q, q, q);
  }

  /** A server answers calls, one-way ones too; any other kind of message closes the connection. */
  lemma KindsServed<S>(
      methods: ProcessMap, h: (S, Method, Val) -> (S, Outcome), s: S, b: Bytes, p: nat, head: Header, q: nat)
    requires p <= |b| && ReadHeader(b, p) == Some((head, q)) && q <= |b| && head.name in methods
    requires Read(methods[head.name].arguments, Fresh(methods[head.name].arguments), b, q).Some?
    ensures Serve(methods, h, s, b, p).Some? <==> head.kind == 1 || head.kind == 4
  {
  }

  /** The older form of a header, which begins with the name, is read as well. */
  lemma OlderHeader(h: Header, b: Bytes, p: nat)
    requires |h.name| < MAX_SIZE && At(b, p, Str(h.name) + ([h.kind] + I32Bytes(h.seqid)))
    ensures ReadHeader(b, p) == Some((h, p + 9 + |h.name|))
  {
    AtSplit(b, p, Str(h.name), [h.kind] + I32Bytes(h.seqid));
    AtByte(b, p + 4 + |h.name|, h.kind, I32Bytes(h.seqid));
    StringRoundTrip(b, p, h.name);
    I32RoundTrip(b, p + 5 + |h.name|, h.seqid);
  }

  /** A word with its high bit set that is not of version 1 is refused. */
  lemma OtherVersion(b: Bytes, p: nat)
    requires p + 4 <= |b| && b[p] >= 128 && (b[p] != 128 || b[p + 1] != 1)
    ensures ReadHeader(b, p) == None
  {
    NegativeWord(b, p);
  }

  /** In the version word the third byte does not matter. */
  lemma ThirdByteIgnored(h: Header, header: Bytes, word: Bytes, b: Bytes, p: nat)
    requires |word| == 4 && word[0] == 128 && word[1] == 1 && word[3] == h.kind && |h.name| < MAX_SIZE
    requires header == word + (Str(h.name) + I32Bytes(h.seqid)) && At(b, p, header)
    ensures ReadHeader(b, p) == Some((h, p + 12 + |h.name|))
  {
    HeaderParts(header, word, Str(h.name), I32Bytes(h.seqid), b, p);
    WordRead(word, b, p);
    NameRead(h, b, p);
    StrictRead(h, b, p);
  }

  lemma NameRead(h: Header, b: Bytes, p: nat)
    requires |h.name| < MAX_SIZE && At(b, p + 4, Str(h.name)) && At(b, p + 8 + |h.name|, I32Bytes(h.seqid))
    ensures StringEnd(b, p + 4) == Some(p + 8 + |h.name|) && b[p + 8..p + 8 + |h.name|] == h.name
    ensures ReadI32(b, p + 8 + |h.name|) == Some(h.seqid)
  {
    StringRoundTrip(b, p + 4, h.name);
    I32RoundTrip(b, p + 8 + |h.name|, h.seqid);
  }

  lemma StrictRead(h: Header, b: Bytes, p: nat)
    requires p + 8 + |h.name| <= |b| && ReadSize(b, p) == None
    requires b[p] == 128 && b[p + 1] == 1 && b[p + 3] == h.kind
    requires StringEnd(b, p + 4) == Some(p + 8 + |h.name|) && b[p + 8..p + 8 + |h.name|] == h.name
    requires ReadI32(b, p + 8 + |h.name|) == Some(h.seqid)
    ensures ReadHeader(b, p) == Some((h, p + 12 + |h.name|))
  {
  }

  lemma WordRead(word: Bytes, b: Bytes, p: nat)
    requires |word| == 4 && word[0] == 128 && At(b, p, word)
    ensures ReadSize(b, p) == None
    ensures b[p] == 128 && b[p + 1] == word[1] && b[p + 3] == word[3]
  {
    assert b[p + 0] == word[0] && b[p + 1] == word[1] && b[p + 3] == word[3];
    NegativeWord(b, p);
  }
}
