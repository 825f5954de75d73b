/** What a reader makes of a struct does not depend on the order of its fields, nor on fields it does not know. */
module Independence {
  import opened Words
  import opened Binary
  import opened Wire
  import opened Codec

  function Join(f: Fields, g: Fields): Fields {
    match f
    case NoField => g
    case Field(id, w, more) => Field(id, w, Join(more, g))
  }

  /** A field with an unknown id, or a known id with another type, changes nothing, wherever it is inserted. */
  lemma {:induction false} UnknownFieldIgnored(
      slots: seq<Slot>, cells: seq<Cell>, f: Fields, id: int, w: Wire, g: Fields)
    requires Typed(slots, cells) && Case(slots, id, CodeOf(w)).None?
    ensures MeaningFields(slots, cells, Join(f, Field(id, w, g))) == MeaningFields(slots, cells, Join(f, g))
    decreases f
  {
    if f.Field? {
      match MeaningField(slots, cells, f.id, f.value)
      case None =>
      case Some(cells') => UnknownFieldIgnored(slots, cells', f.otherFields, id, w, g);
    }
  }

  /** Neighbouring fields can be exchanged unless both are read by the same case; so fields can be permuted in any way
      that keeps the order of the fields of each case. */
  lemma {:induction false} NeighboursCommute(
      slots: seq<Slot>, cells: seq<Cell>, f: Fields, id: int, w: Wire, id': int, w': Wire, g: Fields)
    requires Typed(slots, cells)
    requires Case(slots, id, CodeOf(w)) == Case(slots, id', CodeOf(w')) ==> Case(slots, id, CodeOf(w)) == None
    ensures MeaningFields(slots, cells, Join(f, Field(id, w, Field(id', w', g)))) ==
            MeaningFields(slots, cells, Join(f, Field(id', w', Field(id, w, g))))
    decreases f
  {
    if f.Field? {
      match MeaningField(slots, cells, f.id, f.value)
      case None =>
      case Some(cells') => NeighboursCommute(slots, cells', f.otherFields, id, w, id', w', g);
    } else {
      FieldsCommute(slots, cells, id, w, id', w');
    }
  }

  lemma UpdatesCommute<T>(s: seq<T>, i: nat, x: T, j: nat, y: T)
    requires i < |s| && j < |s| && i != j
    ensures s[i := x][j := y] == s[j := y][i := x]
  {
  }

  lemma FieldsCommute(slots: seq<Slot>, cells: seq<Cell>, id: int, w: Wire, id': int, w': Wire)
    requires Typed(slots, cells)
    requires Case(slots, id, CodeOf(w)) == Case(slots, id', CodeOf(w')) ==> Case(slots, id, CodeOf(w)) == None
    ensures var r, r' := MeaningField(slots, cells, id, w), MeaningField(slots, cells, id', w');
      if r.Some? && r'.Some? then MeaningField(slots, r.value, id', w') == MeaningField(slots, r'.value, id, w)
      else
        (r.Some? ==> MeaningField(slots, r.value, id', w') == None) &&
        (r'.Some? ==> MeaningField(slots, r'.value, id, w) == None)
  {
    var r, r' := MeaningField(slots, cells, id, w), MeaningField(slots, cells, id', w');
    var c, c' := Case(slots, id, CodeOf(w)), Case(slots, id', CodeOf(w'));
    if c.Some? && c'.Some? {
      BothRead(slots, cells, id, w, c.value, id', w', c'.value);
      BothRead(slots, cells, id', w', c'.value, id, w, c.value);
      if r.Some? && r'.Some? {
        UpdatesCommute(cells, c.value, r.value[c.value], c'.value, r'.value[c'.value]);
      }
    }
  }

  /** A field read after another of a different case is read as if it came first. */
  lemma BothRead(slots: seq<Slot>, cells: seq<Cell>, id: int, w: Wire, i: nat, id': int, w': Wire, j: nat)
    requires Typed(slots, cells) && i != j
    requires Case(slots, id, CodeOf(w)) == Some(i) && Case(slots, id', CodeOf(w')) == Some(j)
    ensures var r, r' := MeaningField(slots, cells, id, w), MeaningField(slots, cells, id', w');
      && (r.Some? ==> r.value == cells[i := r.value[i]])
      && (r.Some? ==>
        MeaningField(slots, r.value, id', w') == if r'.Some? then Some(r.value[j := r'.value[j]]) else None)
  {
  }

  // At every level of nesting

  /** How many fields case `i` reads. */
  function Times(slots: seq<Slot>, fields: Fields, i: nat): nat {
    match fields
    case NoField => 0
    case Field(id, w, more) => (if Case(slots, id, CodeOf(w)) == Some(i) then 1 else 0) + Times(slots, more, i)
  }

  function Found(slots: seq<Slot>, fields: Fields, i: nat): Option<Wire> {
    match fields
    case NoField => None
    case Field(id, w, more) => if Case(slots, id, CodeOf(w)) == Some(i) then Some(w) else Found(slots, more, i)
  }

  /** Two messages that differ only in the order of fields and in fields unknown to the reader, at any level. */
  predicate Alike(ty: Ty, w: Wire, w': Wire)
    decreases ty, 0, w
  {
    match ty
    case TI32 => w == w'
    case TI64 => w == w'
    case TString => w == w'
    case TStruct(slots) =>
      && w.Group? && w'.Group?
      && forall i :: 0 <= i < |slots| ==>
        && Times(slots, w.fields, i) <= 1 && Times(slots, w'.fields, i) <= 1
        && (match (Found(slots, w.fields, i), Found(slots, w'.fields, i))
            case (Some(x), Some(x')) => Alike(slots[i].ty, x, x')
            case (None, None) => true
            case _ => false)
    case TSet(elem) => w.Many? && w'.Many? && AlikeElems(elem, w.elems, w'.elems)
    case TMap(key, val) => w.Table? && w'.Table? && AlikeEntries(ty, w.entries, w'.entries)
  }

  predicate AlikeElems(elem: Ty, elems: Elems, elems': Elems)
    decreases elem, 1, elems
  {
    match (elems, elems')
    case (NoElem, NoElem) => true
    case (Elem(w, more), Elem(w', more')) => Alike(elem, w, w') && AlikeElems(elem, more, more')
    case _ => false
  }

  predicate AlikeEntries(ty: Ty, entries: Entries, entries': Entries)
    requires ty.TMap?
    decreases ty, 0, entries
  {
    match (entries, entries')
    case (NoEntry, NoEntry) => true
    case (Entry(k, w, more), Entry(k', w', more')) =>
      Alike(ty.key, k, k') && Alike(ty.val, w, w') && AlikeEntries(ty, more, more')
    case _ => false
  }

  /** What becomes of field `i` when it occurs at most once. */
  function FieldMeaning(slots: seq<Slot>, cells: seq<Cell>, fields: Fields, i: nat): Option<Cell>
    requires Typed(slots, cells) && i < |slots|
  {
    match Found(slots, fields, i)
    case None => Some(cells[i])
    case Some(w) => match Meaning(slots[i].ty, cells[i].val, w) case None => None case Some(v) => Some(Cell(true, v))
  }

  /** `r` is the struct read, told field by field; `None` if some field cannot be read. */
  ghost predicate Fieldwise(slots: seq<Slot>, cells: seq<Cell>, fields: Fields, r: Option<seq<Cell>>)
    requires Typed(slots, cells)
  {
    match r
    case None => exists i :: 0 <= i < |slots| && FieldMeaning(slots, cells, fields, i) == None
    case Some(c) =>
      |c| == |slots| && forall i :: 0 <= i < |slots| ==> FieldMeaning(slots, cells, fields, i) == Some(c[i])
  }

  lemma {:induction false} NotFound(slots: seq<Slot>, fields: Fields, i: nat)
    requires Times(slots, fields, i) == 0
    ensures Found(slots, fields, i) == None
  {
    if fields.Field? { NotFound(slots, fields.otherFields, i); }
  }

  /** A field that occurs at most once is read independently of all others. */
  lemma {:induction false} ReadFieldwise(slots: seq<Slot>, cells: seq<Cell>, fields: Fields)
    requires Typed(slots, cells) && forall i :: 0 <= i < |slots| ==> Times(slots, fields, i) <= 1
    ensures Fieldwise(slots, cells, fields, MeaningFields(slots, cells, fields))
    decreases fields
  {
    if fields.Field? {
      var more, c := fields.otherFields, Case(slots, fields.id, CodeOf(fields.value));
      assert forall i :: 0 <= i < |slots| ==> Times(slots, more, i) <= Times(slots, fields, i);
      match MeaningField(slots, cells, fields.id, fields.value)
      case None => assert FieldMeaning(slots, cells, fields, c.value) == None;
      case Some(cells') =>
        ReadFieldwise(slots, cells', more);
        forall i | 0 <= i < |slots|
          ensures FieldMeaning(slots, cells, fields, i) == FieldMeaning(slots, cells', more, i)
        {
          if c == Some(i) { NotFound(slots, more, i); }
        }
        FieldwiseSame(slots, cells, fields, cells', more, MeaningFields(slots, cells', more));
    }
  }

  lemma FieldwiseSame(
      slots: seq<Slot>, cells: seq<Cell>, fields: Fields, cells': seq<Cell>, fields': Fields, r: Option<seq<Cell>>)
    requires Typed(slots, cells) && Typed(slots, cells') && Fieldwise(slots, cells', fields', r)
    requires forall i :: 0 <= i < |slots| ==>
      FieldMeaning(slots, cells, fields, i) == FieldMeaning(slots, cells', fields', i)
    ensures Fieldwise(slots, cells, fields, r)
  {
  }

  lemma FieldwiseUnique(slots: seq<Slot>, cells: seq<Cell>, fields: Fields, r: Option<seq<Cell>>, r': Option<seq<Cell>>)
    requires Typed(slots, cells) && Fieldwise(slots, cells, fields, r) && Fieldwise(slots, cells, fields, r')
    ensures r == r'
  {
    if r.Some? && r'.Some? {
      assert forall i :: 0 <= i < |slots| ==> Some(r.value[i]) == FieldMeaning(slots, cells, fields, i);
      assert r.value == r'.value;
    }
  }

  /** Messages that are alike mean the same to a reader, whatever it reads into. */
  lemma {:induction false} AlikeMeanTheSame(ty: Ty, init: Val, w: Wire, w': Wire)
    requires HasType(ty, init) && Alike(ty, w, w')
    ensures Meaning(ty, init, w) == Meaning(ty, init, w')
    decreases ty, 0, w, 1
  {
    match ty
    case TI32 =>
    case TI64 =>
    case TString =>
    case TStruct(slots) => AlikeStructs(ty, init, w, w');
    case TSet(elem) => AlikeSets(elem, w.elems, w'.elems);
    case TMap(key, val) => AlikeMaps(ty, w.entries, w'.entries);
  }

  lemma {:induction false} AlikeStructs(ty: Ty, init: Val, w: Wire, w': Wire)
    requires ty.TStruct? && HasType(ty, init) && Alike(ty, w, w')
    ensures MeaningFields(ty.slots, init.cells, w.fields) == MeaningFields(ty.slots, init.cells, w'.fields)
    decreases ty, 0, w, 0
  {
    var slots, cells := ty.slots, init.cells;
    forall i | 0 <= i < |slots|
      ensures FieldMeaning(slots, cells, w.fields, i) == FieldMeaning(slots, cells, w'.fields, i)
    {
      match (Found(slots, w.fields, i), Found(slots, w'.fields, i))
      case (Some(x), Some(x')) => AlikeMeanTheSame(slots[i].ty, cells[i].val, x, x');
      case _ =>
    }
    ReadFieldwise(slots, cells, w.fields);
    ReadFieldwise(slots, cells, w'.fields);
    var r' := MeaningFields(slots, cells, w'.fields);
    FieldwiseSame(slots, cells, w.fields, cells, w'.fields, r');
    FieldwiseUnique(slots, cells, w.fields, MeaningFields(slots, cells, w.fields), r');
  }

  lemma {:induction false} AlikeSets(elem: Ty, elems: Elems, elems': Elems)
    requires AlikeElems(elem, elems, elems')
    ensures MeaningElems(elem, elems) == MeaningElems(elem, elems')
    decreases elem, 1, elems
  {
    if elems.Elem? {
      AlikeMeanTheSame(elem, Fresh(elem), elems.head, elems'.head);
      AlikeSets(elem, elems.otherElems, elems'.otherElems);
    }
  }

  lemma {:induction false} AlikeMaps(ty: Ty, entries: Entries, entries': Entries)
    requires ty.TMap? && AlikeEntries(ty, entries, entries')
    ensures MeaningEntries(ty.key, ty.val, entries) == MeaningEntries(ty.key, ty.val, entries')
    decreases ty, 0, entries
  {
    if entries.Entry? {
      AlikeMeanTheSame(ty.key, Fresh(ty.key), entries.first, entries'.first);
      AlikeMeanTheSame(ty.val, Fresh(ty.val), entries.second, entries'.second);
      AlikeMaps(ty, entries.otherEntries, entries'.otherEntries);
    }
  }

  /** Alike messages, in whatever streams they stand, are read to the same value, each reader ending behind its own
      message. */
  lemma AlikeReadTheSame(
      ty: Ty, init: Val, w: Wire, w': Wire, prefix: Bytes, prefix': Bytes, suffix: Bytes, suffix': Bytes)
    requires HasType(ty, init) && Alike(ty, w, w') && WellFormed(w) && WellFormed(w') && Meaning(ty, init, w).Some?
    ensures var r := Read(ty, init, prefix + Encode(w) + suffix, |prefix|);
            var r' := Read(ty, init, prefix' + Encode(w') + suffix', |prefix'|);
      r.Some? && r'.Some? && r.value.0 == r'.value.0 && r.value.1 == |prefix + Encode(w)|
        && r'.value.1 == |prefix' + Encode(w')|
  {
    AlikeMeanTheSame(ty, init, w, w');
    ReadEncoded(ty, init, w, prefix, suffix);
    ReadEncoded(ty, init, w', prefix', suffix');
  }
}
