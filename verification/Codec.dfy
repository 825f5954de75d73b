/** The generated readers and writers, driven by the fields each of them handles. */
module Codec {
  import opened Words
  import opened Binary
  import opened Wire

  /** A struct type lists the cases of its `read`; `optional` fields are written only when set. */
  datatype Ty = TI32 | TI64 | TString | TStruct(slots: seq<Slot>) | TSet(elem: Ty) | TMap(key: Ty, val: Ty)
  datatype Slot = Slot(id: int, ty: Ty, optional: bool)

  /** A value in memory. A set or map lists its elements in the order they are written, or were read and inserted. */
  datatype Val =
    | VI32(int32: I32) | VI64(int64: I64) | VString(text: Bytes)
    | VStruct(cells: seq<Cell>) | VSet(elems: seq<Val>) | VMap(pairs: seq<Pair>)
  datatype Cell = Cell(isset: bool, val: Val)
  datatype Pair = Pair(key: Val, val: Val)

  function CodeFor(ty: Ty): Byte {
    match ty
    case TI32 => T_I32
    case TI64 => T_I64
    case TString => T_STRING
    case TStruct(_) => T_STRUCT
    case TSet(_) => T_SET
    case TMap(_, _) => T_MAP
  }

  predicate HasType(ty: Ty, v: Val)
    decreases ty
  {
    match ty
    case TI32 => v.VI32?
    case TI64 => v.VI64?
    case TString => v.VString?
    case TStruct(slots) =>
      v.VStruct? && |v.cells| == |slots| && forall i :: 0 <= i < |slots| ==> HasType(slots[i].ty, v.cells[i].val)
    case TSet(elem) => v.VSet? && forall i :: 0 <= i < |v.elems| ==> HasType(elem, v.elems[i])
    case TMap(key, val) =>
      v.VMap? && forall i :: 0 <= i < |v.pairs| ==> HasType(key, v.pairs[i].key) && HasType(val, v.pairs[i].val)
  }

  /** A default-constructed value. */
  function Fresh(ty: Ty): (v: Val)
    ensures HasType(ty, v)
  {
    match ty
    case TI32 => VI32(0)
    case TI64 => VI64(0)
    case TString => VString([])
    case TStruct(slots) => VStruct(seq(|slots|, i requires 0 <= i < |slots| => Cell(false, Fresh(slots[i].ty))))
    case TSet(_) => VSet([])
    case TMap(_, _) => VMap([])
  }

  predicate Typed(slots: seq<Slot>, cells: seq<Cell>) {
    |cells| == |slots| && forall i :: 0 <= i < |slots| ==> HasType(slots[i].ty, cells[i].val)
  }

  /** The case of the reader's `switch` a field is read by: that of its id, when the type on the wire is the expected
      one. */
  function Case(slots: seq<Slot>, id: int, code: Byte): (r: Option<nat>)
    ensures r.Some? ==> r.value < |slots| && slots[r.value].id == id && CodeFor(slots[r.value].ty) == code
  {
    CaseFrom(slots, id, code, 0)
  }

  function CaseFrom(slots: seq<Slot>, id: int, code: Byte, i: nat): (r: Option<nat>)
    ensures r.Some? ==> r.value < |slots| && slots[r.value].id == id && CodeFor(slots[r.value].ty) == code
    decreases |slots| - i
  {
    if i >= |slots| then None
    else if slots[i].id != id then CaseFrom(slots, id, code, i + 1)
    else if CodeFor(slots[i].ty) == code then Some(i)
    else None
  }

  // Reading into a value; `None` is an exception of the protocol or the transport.

  function Read(ty: Ty, init: Val, b: Bytes, p: nat): (r: Option<(Val, nat)>)
    requires HasType(ty, init) && p <= |b|
    ensures r.Some? ==> HasType(ty, r.value.0) && p <= r.value.1 <= |b|
    decreases |b| - p, 1, 0
  {
    match ty
    case TI32 => (match ReadI32(b, p) case None => None case Some(n) => Some((VI32(n), p + 4)))
    case TI64 => (match ReadI64(b, p) case None => None case Some(n) => Some((VI64(n), p + 8)))
    case TString => (match StringEnd(b, p) case None => None case Some(q) => Some((VString(b[p + 4..q]), q)))
    case TStruct(slots) =>
      (match ReadFields(slots, init.cells, b, p) case None => None case Some((cells, q)) => Some((VStruct(cells), q)))
    case TSet(elem) =>
      (match ReadSize(b, p + 1)
       case None => None
       case Some(n) =>
         match ReadElems(elem, n, b, p + 5) case None => None case Some((elems, q)) => Some((VSet(elems), q)))
    case TMap(key, val) =>
      (match ReadSize(b, p + 2)
       case None => None
       case Some(n) =>
         match ReadPairs(key, val, n, b, p + 6) case None => None case Some((pairs, q)) => Some((VMap(pairs), q)))
  }

  function ReadFields(slots: seq<Slot>, cells: seq<Cell>, b: Bytes, p: nat): (r: Option<(seq<Cell>, nat)>)
    requires Typed(slots, cells) && p <= |b|
    ensures r.Some? ==> Typed(slots, r.value.0) && p <= r.value.1 <= |b|
    decreases |b| - p, 0, 0
  {
    if p == |b| then None
    else if b[p] == STOP then Some((cells, p + 1))
    else match ReadI16(b, p + 1)
      case None => None
      case Some(id) =>
        match ReadField(slots, cells, id, b[p], b, p + 3)
        case None => None
        case Some((cells', q)) => ReadFields(slots, cells', b, q)
  }

  function ReadField(
      slots: seq<Slot>, cells: seq<Cell>, id: int, code: Byte, b: Bytes, p: nat): (r: Option<(seq<Cell>, nat)>)
    requires Typed(slots, cells) && p <= |b|
    ensures r.Some? ==> Typed(slots, r.value.0) && p <= r.value.1 <= |b|
    decreases |b| - p, 2, 0
  {
    match Case(slots, id, code)
    case Some(i) =>
      (match Read(slots[i].ty, cells[i].val, b, p)
       case None => None
       case Some((v, q)) => Some((cells[i := Cell(true, v)], q)))
    case None =>
      (match Skip(code, b, p)
       case None => None
       case Some(q) => Some((cells, q)))
  }

  /** The elements of a set, in the order they are inserted. */
  function ReadElems(elem: Ty, n: nat, b: Bytes, p: nat): (r: Option<(seq<Val>, nat)>)
    requires p <= |b|
    ensures r.Some? ==> HasType(TSet(elem), VSet(r.value.0)) && p <= r.value.1 <= |b|
    decreases |b| - p, 2, n
  {
    if n == 0 then Some(([], p))
    else match Read(elem, Fresh(elem), b, p)
      case None => None
      case Some((v, q)) =>
        match ReadElems(elem, n - 1, b, q)
        case None => None
        case Some((vs, e)) => Some(([v] + vs, e))
  }

  function ReadPair(key: Ty, val: Ty, b: Bytes, p: nat): (r: Option<(Pair, nat)>)
    requires p <= |b|
    ensures r.Some? ==> HasType(key, r.value.0.key) && HasType(val, r.value.0.val) && p <= r.value.1 <= |b|
    decreases |b| - p, 2, 0
  {
    match Read(key, Fresh(key), b, p)
    case None => None
    case Some((k, q)) =>
      match Read(val, Fresh(val), b, q)
      case None => None
      case Some((v, e)) => Some((Pair(k, v), e))
  }

  function ReadPairs(key: Ty, val: Ty, n: nat, b: Bytes, p: nat): (r: Option<(seq<Pair>, nat)>)
    requires p <= |b|
    ensures r.Some? ==> HasType(TMap(key, val), VMap(r.value.0)) && p <= r.value.1 <= |b|
    decreases |b| - p, 3, n
  {
    if n == 0 then Some(([], p))
    else match ReadPair(key, val, b, p)
      case None => None
      case Some((pair, q)) =>
        match ReadPairs(key, val, n - 1, b, q)
        case None => None
        case Some((pairs, e)) => Some(([pair] + pairs, e))
  }

  /** The value `init` becomes when `w` is read into it; `None` if some element is not of the type the reader expects
      there. */
  function Meaning(ty: Ty, init: Val, w: Wire): (r: Option<Val>)
    requires HasType(ty, init)
    ensures r.Some? ==> HasType(ty, r.value)
    decreases w, 0
  {
    match ty
    case TI32 => if w.Int? then Some(VI32(w.int32)) else None
    case TI64 => if w.Long? then Some(VI64(w.int64)) else None
    case TString => if w.Text? then Some(VString(w.text)) else None
    case TStruct(slots) =>
      if !w.Group? then None
      else (match MeaningFields(slots, init.cells, w.fields) case None => None case Some(cells) => Some(VStruct(cells)))
    case TSet(elem) =>
      if !w.Many? then None
      else (match MeaningElems(elem, w.elems) case None => None case Some(vs) => Some(VSet(vs)))
    case TMap(key, val) =>
      if !w.Table? then None
      else (match MeaningEntries(key, val, w.entries) case None => None case Some(pairs) => Some(VMap(pairs)))
  }

  function MeaningFields(slots: seq<Slot>, cells: seq<Cell>, fields: Fields): (r: Option<seq<Cell>>)
    requires Typed(slots, cells)
    ensures r.Some? ==> Typed(slots, r.value)
    decreases fields
  {
    match fields
    case NoField => Some(cells)
    case Field(id, w, more) =>
      match MeaningField(slots, cells, id, w) case None => None case Some(cells') => MeaningFields(slots, cells', more)
  }

  function MeaningField(slots: seq<Slot>, cells: seq<Cell>, id: int, w: Wire): (r: Option<seq<Cell>>)
    requires Typed(slots, cells)
    ensures r.Some? ==> Typed(slots, r.value)
    decreases w, 1
  {
    match Case(slots, id, CodeOf(w))
    case None => Some(cells)
    case Some(i) =>
      match Meaning(slots[i].ty, cells[i].val, w)
      case None => None
      case Some(v) => Some(cells[i := Cell(true, v)])
  }

  function MeaningElems(elem: Ty, elems: Elems): (r: Option<seq<Val>>)
    ensures r.Some? ==> HasType(TSet(elem), VSet(r.value))
    decreases elems
  {
    match elems
    case NoElem => Some([])
    case Elem(w, more) =>
      match Meaning(elem, Fresh(elem), w)
      case None => None
      case Some(v) =>
        match MeaningElems(elem, more) case None => None case Some(vs) => Some([v] + vs)
  }

  function MeaningEntry(key: Ty, val: Ty, entries: Entries): (r: Option<Pair>)
    requires entries.Entry?
    ensures r.Some? ==> HasType(key, r.value.key) && HasType(val, r.value.val)
    decreases entries, 0
  {
    match Meaning(key, Fresh(key), entries.first)
    case None => None
    case Some(k) => match Meaning(val, Fresh(val), entries.second) case None => None case Some(v) => Some(Pair(k, v))
  }

  function MeaningEntries(key: Ty, val: Ty, entries: Entries): (r: Option<seq<Pair>>)
    ensures r.Some? ==> HasType(TMap(key, val), VMap(r.value))
    decreases entries, 1
  {
    match entries
    case NoEntry => Some([])
    case Entry(_, _, more) =>
      match MeaningEntry(key, val, entries)
      case None => None
      case Some(pair) =>
        match MeaningEntries(key, val, more) case None => None case Some(pairs) => Some([pair] + pairs)
  }

  /** Wherever a message stands in a stream, the reader finds its meaning and ends behind it. */
  lemma {:induction false} ReadStanding(ty: Ty, init: Val, w: Wire, b: Bytes, p: nat)
    requires HasType(ty, init) && Meaning(ty, init, w).Some? && p <= |b| && End(w, b, p).Some?
    ensures Read(ty, init, b, p) == Some((Meaning(ty, init, w).value, End(w, b, p).value))
    decreases w, 0
  {
    match ty
    case TI32 =>
    case TI64 =>
    case TString =>
    case TStruct(slots) => ReadStandingFields(slots, init.cells, w.fields, b, p);
    case TSet(elem) => ReadStandingElems(elem, w.elem, w.elems, b, p + 5);
    case TMap(key, val) => ReadStandingEntries(key, val, w.key, w.val, w.entries, b, p + 6);
  }

  lemma {:induction false} ReadStandingFields(slots: seq<Slot>, cells: seq<Cell>, fields: Fields, b: Bytes, p: nat)
    requires Typed(slots, cells) && MeaningFields(slots, cells, fields).Some? && p <= |b|
      && EndFields(fields, b, p).Some?
    ensures ReadFields(slots, cells, b, p) ==
      Some((MeaningFields(slots, cells, fields).value, EndFields(fields, b, p).value))
    decreases fields
  {
    if fields.Field? {
      var id, w := fields.id, fields.value;
      ReadStandingField(slots, cells, id, w, b, p + 3);
      ReadStandingFields(slots, MeaningField(slots, cells, id, w).value, fields.otherFields, b, End(w, b, p + 3).value);
    }
  }

  lemma {:induction false} ReadStandingField(slots: seq<Slot>, cells: seq<Cell>, id: int, w: Wire, b: Bytes, p: nat)
    requires Typed(slots, cells) && MeaningField(slots, cells, id, w).Some? && p <= |b| && End(w, b, p).Some?
    ensures ReadField(slots, cells, id, CodeOf(w), b, p) ==
      Some((MeaningField(slots, cells, id, w).value, End(w, b, p).value))
    decreases w, 1
  {
    match Case(slots, id, CodeOf(w))
    case None => SkipStanding(w, b, p);
    case Some(i) => ReadStanding(slots[i].ty, cells[i].val, w, b, p);
  }

  lemma {:induction false} ReadStandingElems(elem: Ty, code: Byte, elems: Elems, b: Bytes, p: nat)
    requires MeaningElems(elem, elems).Some? && p <= |b| && EndElems(code, elems, b, p).Some?
    ensures ReadElems(elem, ElemCount(elems), b, p) ==
      Some((MeaningElems(elem, elems).value, EndElems(code, elems, b, p).value))
    decreases elems
  {
    if elems.Elem? {
      ReadStanding(elem, Fresh(elem), elems.head, b, p);
      ReadStandingElems(elem, code, elems.otherElems, b, End(elems.head, b, p).value);
    }
  }

  lemma {:induction false} ReadStandingEntry(key: Ty, val: Ty, k: Byte, v: Byte, entries: Entries, b: Bytes, p: nat)
    requires entries.Entry? && MeaningEntry(key, val, entries).Some? && p <= |b| && EndEntry(k, v, entries, b, p).Some?
    ensures ReadPair(key, val, b, p) ==
      Some((MeaningEntry(key, val, entries).value, EndEntry(k, v, entries, b, p).value))
    decreases entries, 0
  {
    ReadStanding(key, Fresh(key), entries.first, b, p);
    ReadStanding(val, Fresh(val), entries.second, b, End(entries.first, b, p).value);
  }

  lemma {:induction false} ReadStandingEntries(key: Ty, val: Ty, k: Byte, v: Byte, entries: Entries, b: Bytes, p: nat)
    requires MeaningEntries(key, val, entries).Some? && p <= |b| && EndEntries(k, v, entries, b, p).Some?
    ensures ReadPairs(key, val, EntryCount(entries), b, p) ==
            Some((MeaningEntries(key, val, entries).value, EndEntries(k, v, entries, b, p).value))
    decreases entries, 1
  {
    if entries.Entry? {
      var pair, q, pairs, end := FirstEntry(key, val, k, v, entries, b, p);
      ReadStandingEntry(key, val, k, v, entries, b, p);
      ReadStandingEntries(key, val, k, v, entries.otherEntries, b, q);
      ReadOnePair(key, val, EntryCount(entries), b, p, pair, q, pairs, end);
    }
  }

  /** A map apart into its first entry and the others. */
  lemma FirstEntry(key: Ty, val: Ty, k: Byte, v: Byte, entries: Entries, b: Bytes, p: nat)
    returns (pair: Pair, q: nat, pairs: seq<Pair>, end: nat)
    requires entries.Entry? && MeaningEntries(key, val, entries).Some?
    requires p <= |b| && EndEntries(k, v, entries, b, p).Some?
    ensures MeaningEntry(key, val, entries) == Some(pair)
    ensures MeaningEntries(key, val, entries.otherEntries) == Some(pairs)
    ensures MeaningEntries(key, val, entries) == Some([pair] + pairs)
    ensures EndEntry(k, v, entries, b, p) == Some(q) && q <= |b|
    ensures EndEntries(k, v, entries.otherEntries, b, q) == Some(end) && EndEntries(k, v, entries, b, p) == Some(end)
  {
    pair := MeaningEntry(key, val, entries).value;
    q := EndEntry(k, v, entries, b, p).value;
    pairs := MeaningEntries(key, val, entries.otherEntries).value;
    end := EndEntries(k, v, entries, b, p).value;
  }

  lemma ReadOnePair(key: Ty, val: Ty, n: nat, b: Bytes, p: nat, pair: Pair, q: nat, pairs: seq<Pair>, end: nat)
    requires n > 0 && p <= |b| && ReadPair(key, val, b, p) == Some((pair, q))
      && ReadPairs(key, val, n - 1, b, q) == Some((pairs, end))
    ensures ReadPairs(key, val, n, b, p) == Some(([pair] + pairs, end))
  {
  }

  /** Framing: a message between any two byte strings is read to its meaning, and the reader stops exactly behind
      it. */
  lemma ReadEncoded(ty: Ty, init: Val, w: Wire, prefix: Bytes, suffix: Bytes)
    requires HasType(ty, init) && WellFormed(w) && Meaning(ty, init, w).Some?
    ensures Read(ty, init, prefix + Encode(w) + suffix, |prefix|) ==
      Some((Meaning(ty, init, w).value, |prefix + Encode(w)|))
  {
    var b := prefix + Encode(w) + suffix;
    Embedded(Encode(w), prefix, suffix);
    Standing(w, b, |prefix|);
    ReadStanding(ty, init, w, b, |prefix|);
  }
}
