/** Values of any type on the wire, as a peer with a newer interface may send them, and the skipping of them. */
module Wire {
  import opened Words
  import opened Binary

  /** A value of the protocol; `Plain` stands for booleans, bytes, 16-bit numbers and doubles. */
  datatype Wire =
    | Plain(code: Byte, bytes: Bytes)
    | Int(int32: I32)
    | Long(int64: I64)
    | Text(text: Bytes)
    | Group(fields: Fields)
    | Many(list: bool, elem: Byte, elems: Elems)
    | Table(key: Byte, val: Byte, entries: Entries)
  datatype Fields = NoField | Field(id: int, value: Wire, otherFields: Fields)
  datatype Elems = NoElem | Elem(head: Wire, otherElems: Elems)
  datatype Entries = NoEntry | Entry(first: Wire, second: Wire, otherEntries: Entries)

  /** The width of the types of fixed width, 0 for every other code. */
  function Width(code: Byte): nat {
    if code == T_BOOL || code == T_BYTE then 1
    else if code == T_I16 then 2
    else if code == T_I32 then 4
    else if code == T_I64 || code == T_DOUBLE then 8
    else 0
  }

  function CodeOf(w: Wire): Byte {
    match w
    case Plain(code, _) => code
    case Int(_) => T_I32
    case Long(_) => T_I64
    case Text(_) => T_STRING
    case Group(_) => T_STRUCT
    case Many(list, _, _) => if list then T_LIST else T_SET
    case Table(_, _, _) => T_MAP
  }

  function ElemCount(elems: Elems): nat {
    if elems.NoElem? then 0 else 1 + ElemCount(elems.otherElems)
  }

  function EntryCount(entries: Entries): nat {
    if entries.NoEntry? then 0 else 1 + EntryCount(entries.otherEntries)
  }

  // Well-formed: widths, ids and sizes fit, and collections are of one type.

  predicate WellFormed(w: Wire) {
    match w
    case Plain(code, bytes) => code in {T_BOOL, T_BYTE, T_I16, T_DOUBLE} && |bytes| == Width(code)
    case Int(_) => true
    case Long(_) => true
    case Text(s) => |s| < MAX_SIZE
    case Group(fields) => WellFormedFields(fields)
    case Many(_, elem, elems) => ElemCount(elems) < MAX_SIZE && WellFormedElems(elem, elems)
    case Table(key, val, entries) => EntryCount(entries) < MAX_SIZE && WellFormedEntries(key, val, entries)
  }

  predicate WellFormedFields(fields: Fields)
    decreases fields
  {
    fields.Field? ==> -0x8000 <= fields.id < 0x8000 && WellFormed(fields.value) && WellFormedFields(fields.otherFields)
  }

  predicate WellFormedElems(elem: Byte, elems: Elems)
    decreases elems
  {
    elems.Elem? ==> CodeOf(elems.head) == elem && WellFormed(elems.head) && WellFormedElems(elem, elems.otherElems)
  }

  predicate WellFormedEntries(key: Byte, val: Byte, entries: Entries)
    decreases entries
  {
    entries.Entry? ==>
      && CodeOf(entries.first) == key && WellFormed(entries.first)
      && CodeOf(entries.second) == val && WellFormed(entries.second)
      && WellFormedEntries(key, val, entries.otherEntries)
  }

  function Len(w: Wire): nat {
    match w
    case Plain(_, bytes) => |bytes|
    case Int(_) => 4
    case Long(_) => 8
    case Text(s) => 4 + |s|
    case Group(fields) => LenFields(fields)
    case Many(_, _, elems) => 5 + LenElems(elems)
    case Table(_, _, entries) => 6 + LenEntries(entries)
  }

  function LenFields(fields: Fields): nat {
    match fields
    case NoField => 1
    case Field(_, v, more) => 3 + Len(v) + LenFields(more)
  }

  function LenElems(elems: Elems): nat {
    match elems
    case NoElem => 0
    case Elem(v, more) => Len(v) + LenElems(more)
  }

  function LenEntries(entries: Entries): nat {
    match entries
    case NoEntry => 0
    case Entry(k, v, more) => Len(k) + Len(v) + LenEntries(more)
  }

  function Encode(w: Wire): (r: Bytes)
    ensures |r| == Len(w)
  {
    match w
    case Plain(_, bytes) => bytes
    case Int(n) => I32Bytes(n)
    case Long(n) => I64Bytes(n)
    case Text(s) => Str(s)
    case Group(fields) => EncodeFields(fields)
    case Many(_, elem, elems) => [elem] + (I32Bytes(ElemCount(elems)) + EncodeElems(elems))
    case Table(key, val, entries) => [key] + ([val] + (I32Bytes(EntryCount(entries)) + EncodeEntries(entries)))
  }

  function EncodeFields(fields: Fields): (r: Bytes)
    ensures |r| == LenFields(fields)
  {
    match fields
    case NoField => [STOP]
    case Field(id, v, more) => [CodeOf(v)] + (I16Bytes(id) + (Encode(v) + EncodeFields(more)))
  }

  function EncodeElems(elems: Elems): (r: Bytes)
    ensures |r| == LenElems(elems)
  {
    match elems
    case NoElem => []
    case Elem(v, more) => Encode(v) + EncodeElems(more)
  }

  function EncodeEntries(entries: Entries): (r: Bytes)
    ensures |r| == LenEntries(entries)
  {
    match entries
    case NoEntry => []
    case Entry(k, v, more) => Encode(k) + (Encode(v) + EncodeEntries(more))
  }

  // Collections begin with their element types and their size.

  predicate Size1(b: Bytes, p: nat, elem: Byte, n: nat) {
    p + 5 <= |b| && b[p] == elem && ReadSize(b, p + 1) == Some(n)
  }

  predicate Size2(b: Bytes, p: nat, key: Byte, val: Byte, n: nat) {
    p < |b| && b[p] == key && Size1(b, p + 1, val, n)
  }

  /** Where `w` ends, when it stands at `p` in the stream; told by the readers of numbers and strings, without
      building byte strings. */
  function End(w: Wire, b: Bytes, p: nat): (r: Option<nat>)
    requires p <= |b|
    ensures r.Some? ==> p <= r.value <= |b|
  {
    match w
    case Plain(code, bytes) =>
      if code in {T_BOOL, T_BYTE, T_I16, T_DOUBLE} && |bytes| == Width(code) && At(b, p, bytes)
      then Some(p + Width(code)) else None
    case Int(n) => if ReadI32(b, p) == Some(n) then Some(p + 4) else None
    case Long(n) => if ReadI64(b, p) == Some(n) then Some(p + 8) else None
    case Text(s) =>
      if StringEnd(b, p) == Some(p + 4 + |s|) && b[p + 4..p + 4 + |s|] == s then Some(p + 4 + |s|) else None
    case Group(fields) => EndFields(fields, b, p)
    case Many(_, elem, elems) =>
      if Size1(b, p, elem, ElemCount(elems)) then EndElems(elem, elems, b, p + 5) else None
    case Table(key, val, entries) =>
      if Size2(b, p, key, val, EntryCount(entries)) then EndEntries(key, val, entries, b, p + 6) else None
  }

  function EndFields(fields: Fields, b: Bytes, p: nat): (r: Option<nat>)
    requires p <= |b|
    ensures r.Some? ==> p <= r.value <= |b|
  {
    match fields
    case NoField => if p < |b| && b[p] == STOP then Some(p + 1) else None
    case Field(id, v, more) =>
      if p < |b| && b[p] == CodeOf(v) && ReadI16(b, p + 1) == Some(id)
      then match End(v, b, p + 3) case None => None case Some(q) => EndFields(more, b, q)
      else None
  }

  function EndElems(elem: Byte, elems: Elems, b: Bytes, p: nat): (r: Option<nat>)
    requires p <= |b|
    ensures r.Some? ==> p <= r.value <= |b|
    decreases elems
  {
    match elems
    case NoElem => Some(p)
    case Elem(v, more) =>
      if CodeOf(v) != elem then None
      else match End(v, b, p) case None => None case Some(q) => EndElems(elem, more, b, q)
  }

  function EndEntry(key: Byte, val: Byte, entries: Entries, b: Bytes, p: nat): (r: Option<nat>)
    requires entries.Entry? && p <= |b|
    ensures r.Some? ==> p <= r.value <= |b|
    decreases entries, 0
  {
    if CodeOf(entries.first) != key || CodeOf(entries.second) != val then None
    else match End(entries.first, b, p) case None => None case Some(q) => End(entries.second, b, q)
  }

  function EndEntries(key: Byte, val: Byte, entries: Entries, b: Bytes, p: nat): (r: Option<nat>)
    requires p <= |b|
    ensures r.Some? ==> p <= r.value <= |b|
    decreases entries, 1
  {
    match entries
    case NoEntry => Some(p)
    case Entry(_, _, more) =>
      match EndEntry(key, val, entries, b, p) case None => None case Some(q) => EndEntries(key, val, more, b, q)
  }

  /** The encoding of a well-formed value stands where it is placed, and ends behind its last byte. */
  lemma {:induction false} Standing(w: Wire, b: Bytes, p: nat)
    requires WellFormed(w) && At(b, p, Encode(w))
    ensures End(w, b, p) == Some(p + Len(w))
    decreases w, 1
  {
    match w
    case Plain(_, _) =>
    case Int(n) => I32RoundTrip(b, p, n);
    case Long(n) => I64RoundTrip(b, p, n);
    case Text(s) => StringRoundTrip(b, p, s);
    case Group(fields) => StandingFields(fields, b, p);
    case Many(_, _, _) => StandingCollection(w, b, p);
    case Table(_, _, _) => StandingCollection(w, b, p);
  }

  lemma {:induction false} StandingCollection(w: Wire, b: Bytes, p: nat)
    requires (w.Many? || w.Table?) && WellFormed(w) && At(b, p, Encode(w))
    ensures End(w, b, p) == Some(p + Len(w))
    decreases w, 0
  {
    match w
    case Many(_, elem, elems) =>
      StandingMany(elem, ElemCount(elems), EncodeElems(elems), b, p);
      StandingElems(elem, elems, b, p + 5);
    case Table(key, val, entries) =>
      StandingTable(key, val, EntryCount(entries), EncodeEntries(entries), b, p);
      StandingEntries(key, val, entries, b, p + 6);
  }

  lemma StandingMany(elem: Byte, n: nat, e: Bytes, b: Bytes, p: nat)
    requires n < MAX_SIZE && At(b, p, [elem] + (I32Bytes(n) + e))
    ensures Size1(b, p, elem, n) && At(b, p + 5, e)
  {
    AtByte(b, p, elem, I32Bytes(n) + e);
    StandingSize(n, e, b, p + 1);
  }

  lemma StandingTable(key: Byte, val: Byte, n: nat, e: Bytes, b: Bytes, p: nat)
    requires n < MAX_SIZE && At(b, p, [key] + ([val] + (I32Bytes(n) + e)))
    ensures Size2(b, p, key, val, n) && At(b, p + 6, e)
  {
    AtByte(b, p, key, [val] + (I32Bytes(n) + e));
    StandingMany(val, n, e, b, p + 1);
  }

  lemma StandingSize(n: nat, e: Bytes, b: Bytes, p: nat)
    requires n < MAX_SIZE && At(b, p, I32Bytes(n) + e)
    ensures ReadSize(b, p) == Some(n) && At(b, p + 4, e)
  {
    AtSplit(b, p, I32Bytes(n), e);
    I32RoundTrip(b, p, n);
  }

  lemma StandingStop(b: Bytes, p: nat)
    requires At(b, p, [STOP])
    ensures p < |b| && b[p] == STOP
  {
    assert [STOP][0] == STOP;
  }

  lemma StandingField(code: Byte, id: int, v: Bytes, e: Bytes, b: Bytes, p: nat)
    requires -0x8000 <= id < 0x8000 && At(b, p, [code] + (I16Bytes(id) + (v + e)))
    ensures p < |b| && b[p] == code && ReadI16(b, p + 1) == Some(id) && At(b, p + 3, v) && At(b, p + 3 + |v|, e)
  {
    AtByte(b, p, code, I16Bytes(id) + (v + e));
    AtSplit3(b, p + 1, I16Bytes(id), v, e);
    I16RoundTrip(b, p + 1, id);
  }

  lemma {:induction false} StandingFields(fields: Fields, b: Bytes, p: nat)
    requires WellFormedFields(fields) && At(b, p, EncodeFields(fields))
    ensures EndFields(fields, b, p) == Some(p + LenFields(fields))
  {
    match fields
    case NoField => StandingStop(b, p);
    case Field(id, v, more) =>
      StandingField(CodeOf(v), id, Encode(v), EncodeFields(more), b, p);
      Standing(v, b, p + 3);
      StandingFields(more, b, p + 3 + Len(v));
  }

  lemma {:induction false} StandingElems(elem: Byte, elems: Elems, b: Bytes, p: nat)
    requires WellFormedElems(elem, elems) && At(b, p, EncodeElems(elems))
    ensures EndElems(elem, elems, b, p) == Some(p + LenElems(elems))
    decreases elems
  {
    if elems.Elem? {
      AtSplit(b, p, Encode(elems.head), EncodeElems(elems.otherElems));
      Standing(elems.head, b, p);
      StandingElems(elem, elems.otherElems, b, p + Len(elems.head));
    }
  }

  lemma {:induction false} StandingEntries(key: Byte, val: Byte, entries: Entries, b: Bytes, p: nat)
    requires WellFormedEntries(key, val, entries) && At(b, p, EncodeEntries(entries))
    ensures EndEntries(key, val, entries, b, p) == Some(p + LenEntries(entries))
    decreases entries, 1
  {
    if entries.Entry? {
      StandingEntry(key, val, entries, EncodeEntries(entries.otherEntries), b, p);
      StandingEntries(key, val, entries.otherEntries, b, p + Len(entries.first) + Len(entries.second));
    }
  }

  lemma {:induction false} StandingEntry(key: Byte, val: Byte, entries: Entries, e: Bytes, b: Bytes, p: nat)
    requires entries.Entry? && WellFormedEntries(key, val, entries)
    requires At(b, p, Encode(entries.first) + (Encode(entries.second) + e))
    ensures EndEntry(key, val, entries, b, p) == Some(p + Len(entries.first) + Len(entries.second))
    ensures At(b, p + Len(entries.first) + Len(entries.second), e)
    decreases entries, 0
  {
    AtSplit3(b, p, Encode(entries.first), Encode(entries.second), e);
    Standing(entries.first, b, p);
    Standing(entries.second, b, p + Len(entries.first));
  }

  /** `skip`: the position after a value of the given type. Terminates on every stream: each level of nesting takes a
      byte. */
  function Skip(code: Byte, b: Bytes, p: nat): (r: Option<nat>)
    requires p <= |b|
    ensures r.Some? ==> p <= r.value <= |b|
    decreases |b| - p, 1, 0
  {
    if Width(code) > 0 then (if p + Width(code) <= |b| then Some(p + Width(code)) else None)
    else if code == T_STRING then StringEnd(b, p)
    else if code == T_STRUCT then SkipFields(b, p)
    else if code == T_SET || code == T_LIST then
      (match ReadSize(b, p + 1)
       case None => None
       case Some(n) => SkipElems(b[p], n, b, p + 5))
    else if code == T_MAP then
      (match ReadSize(b, p + 2)
       case None => None
       case Some(n) => SkipEntries(b[p], b[p + 1], n, b, p + 6))
    else None
  }

  function SkipFields(b: Bytes, p: nat): (r: Option<nat>)
    requires p <= |b|
    ensures r.Some? ==> p < r.value <= |b|
    decreases |b| - p, 0, 0
  {
    if p == |b| then None
    else if b[p] == STOP then Some(p + 1)
    else if p + 3 > |b| then None
    else match Skip(b[p], b, p + 3)
      case None => None
      case Some(q) => SkipFields(b, q)
  }

  function SkipElems(code: Byte, n: nat, b: Bytes, p: nat): (r: Option<nat>)
    requires p <= |b|
    ensures r.Some? ==> p <= r.value <= |b|
    decreases |b| - p, 2, n
  {
    if n == 0 then Some(p)
    else match Skip(code, b, p)
      case None => None
      case Some(q) => SkipElems(code, n - 1, b, q)
  }

  function SkipEntry(key: Byte, val: Byte, b: Bytes, p: nat): (r: Option<nat>)
    requires p <= |b|
    ensures r.Some? ==> p <= r.value <= |b|
    decreases |b| - p, 2, 0
  {
    match Skip(key, b, p)
    case None => None
    case Some(q) => Skip(val, b, q)
  }

  function SkipEntries(key: Byte, val: Byte, n: nat, b: Bytes, p: nat): (r: Option<nat>)
    requires p <= |b|
    ensures r.Some? ==> p <= r.value <= |b|
    decreases |b| - p, 3, n
  {
    if n == 0 then Some(p)
    else match SkipEntry(key, val, b, p)
      case None => None
      case Some(q) => SkipEntries(key, val, n - 1, b, q)
  }

  lemma {:induction false} SkipStanding(w: Wire, b: Bytes, p: nat)
    requires p <= |b| && End(w, b, p).Some?
    ensures Skip(CodeOf(w), b, p) == End(w, b, p)
  {
    match w
    case Plain(_, _) =>
    case Int(_) =>
    case Long(_) =>
    case Text(_) =>
    case Group(fields) => SkipStandingFields(fields, b, p);
    case Many(_, elem, elems) => SkipStandingElems(elem, elems, b, p + 5);
    case Table(key, val, entries) => SkipStandingEntries(key, val, entries, b, p + 6);
  }

  lemma {:induction false} SkipStandingFields(fields: Fields, b: Bytes, p: nat)
    requires p <= |b| && EndFields(fields, b, p).Some?
    ensures SkipFields(b, p) == EndFields(fields, b, p)
  {
    if fields.Field? {
      SkipStanding(fields.value, b, p + 3);
      SkipStandingFields(fields.otherFields, b, End(fields.value, b, p + 3).value);
    }
  }

  lemma {:induction false} SkipStandingElems(elem: Byte, elems: Elems, b: Bytes, p: nat)
    requires p <= |b| && EndElems(elem, elems, b, p).Some?
    ensures SkipElems(elem, ElemCount(elems), b, p) == EndElems(elem, elems, b, p)
    decreases elems
  {
    if elems.Elem? {
      SkipStanding(elems.head, b, p);
      SkipStandingElems(elem, elems.otherElems, b, End(elems.head, b, p).value);
    }
  }

  lemma {:induction false} SkipStandingEntries(key: Byte, val: Byte, entries: Entries, b: Bytes, p: nat)
    requires p <= |b| && EndEntries(key, val, entries, b, p).Some?
    ensures SkipEntries(key, val, EntryCount(entries), b, p) == EndEntries(key, val, entries, b, p)
    decreases entries, 1
  {
    if entries.Entry? {
      SkipStandingEntry(key, val, entries, b, p);
      SkipStandingEntries(key, val, entries.otherEntries, b, EndEntry(key, val, entries, b, p).value);
    }
  }

  lemma {:induction false} SkipStandingEntry(key: Byte, val: Byte, entries: Entries, b: Bytes, p: nat)
    requires entries.Entry? && p <= |b| && EndEntry(key, val, entries, b, p).Some?
    ensures SkipEntry(key, val, b, p) == EndEntry(key, val, entries, b, p)
    decreases entries, 0
  {
    SkipStanding(entries.first, b, p);
    SkipStanding(entries.second, b, End(entries.first, b, p).value);
  }

  lemma Embedded(e: Bytes, prefix: Bytes, suffix: Bytes)
    ensures At(prefix + e + suffix, |prefix|, e)
  {
  }

  /** Skipping a type passes over exactly the encoding of any value of that type, wherever it is placed. */
  lemma SkipPassesOver(w: Wire, prefix: Bytes, suffix: Bytes)
    requires WellFormed(w)
    ensures Skip(CodeOf(w), prefix + Encode(w) + suffix, |prefix|) == Some(|prefix + Encode(w)|)
  {
    var b := prefix + Encode(w) + suffix;
    Embedded(Encode(w), prefix, suffix);
    Standing(w, b, |prefix|);
    SkipStanding(w, b, |prefix|);
  }
}
