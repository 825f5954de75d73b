/** What a written value says to a reader: round trips, and independence of field order and of unknown fields. */
module Messages {
  import opened Words
  import opened Binary
  import opened Wire
  import opened Codec

  /** The ids of a struct are distinct, at every level. */
  predicate ValidSchema(ty: Ty) {
    match ty
    case TI32 => true
    case TI64 => true
    case TString => true
    case TStruct(slots) =>
      && (forall i :: 0 <= i < |slots| ==> -0x8000 <= slots[i].id < 0x8000 && ValidSchema(slots[i].ty))
      && forall i, j :: 0 <= i < j < |slots| ==> slots[i].id != slots[j].id
    case TSet(elem) => ValidSchema(elem)
    case TMap(key, val) => ValidSchema(key) && ValidSchema(val)
  }

  /** Strings and collections are no longer than the binary format can say. */
  predicate SizesFit(ty: Ty, v: Val)
    requires HasType(ty, v)
    decreases ty
  {
    match ty
    case TI32 => true
    case TI64 => true
    case TString => |v.text| < MAX_SIZE
    case TStruct(slots) => forall i :: 0 <= i < |slots| ==> SizesFit(slots[i].ty, v.cells[i].val)
    case TSet(elem) => |v.elems| < MAX_SIZE && forall i :: 0 <= i < |v.elems| ==> SizesFit(elem, v.elems[i])
    case TMap(key, val) =>
      |v.pairs| < MAX_SIZE && forall i :: 0 <= i < |v.pairs| ==>
        SizesFit(key, v.pairs[i].key) && SizesFit(val, v.pairs[i].val)
  }

  // What the writer sends

  predicate Omitted(slot: Slot, cell: Cell) {
    slot.optional && !cell.isset
  }

  function Sent(ty: Ty, v: Val): Wire
    requires HasType(ty, v)
    decreases ty, 1, 0
  {
    match ty
    case TI32 => Int(v.int32)
    case TI64 => Long(v.int64)
    case TString => Text(v.text)
    case TStruct(_) => Group(SentFields(ty, v.cells, 0))
    case TSet(elem) => Many(false, CodeFor(elem), SentElems(elem, v.elems))
    case TMap(key, val) => Table(CodeFor(key), CodeFor(val), SentPairs(key, val, v.pairs))
  }

  function SentFields(ty: Ty, cells: seq<Cell>, i: nat): Fields
    requires ty.TStruct? && Typed(ty.slots, cells) && i <= |cells|
    decreases ty, 0, |cells| - i
  {
    if i == |cells| then NoField
    else if Omitted(ty.slots[i], cells[i]) then SentFields(ty, cells, i + 1)
    else Field(ty.slots[i].id, Sent(ty.slots[i].ty, cells[i].val), SentFields(ty, cells, i + 1))
  }

  function SentElems(elem: Ty, vs: seq<Val>): Elems
    requires HasType(TSet(elem), VSet(vs))
    decreases elem, 2, |vs|
  {
    if vs == [] then NoElem else Elem(Sent(elem, vs[0]), SentElems(elem, vs[1..]))
  }

  function SentPairs(key: Ty, val: Ty, pairs: seq<Pair>): Entries
    requires HasType(TMap(key, val), VMap(pairs))
    decreases TMap(key, val), 0, |pairs|
  {
    if pairs == [] then NoEntry
    else Entry(Sent(key, pairs[0].key), Sent(val, pairs[0].val), SentPairs(key, val, pairs[1..]))
  }

  function Write(ty: Ty, v: Val): Bytes
    requires HasType(ty, v)
  {
    Encode(Sent(ty, v))
  }

  lemma SentCode(ty: Ty, v: Val)
    requires HasType(ty, v)
    ensures CodeOf(Sent(ty, v)) == CodeFor(ty)
  {
  }

  lemma {:induction false} SentWellFormed(ty: Ty, v: Val)
    requires HasType(ty, v) && ValidSchema(ty) && SizesFit(ty, v)
    ensures WellFormed(Sent(ty, v))
    decreases ty, 1, 0
  {
    match ty
    case TI32 =>
    case TI64 =>
    case TString =>
    case TStruct(_) => SentFieldsWellFormed(ty, v.cells, 0);
    case TSet(elem) => SentElemsWellFormed(elem, v.elems);
    case TMap(key, val) => SentPairsWellFormed(key, val, v.pairs);
  }

  lemma {:induction false} SentFieldsWellFormed(ty: Ty, cells: seq<Cell>, i: nat)
    requires ty.TStruct? && Typed(ty.slots, cells) && i <= |cells|
    requires ValidSchema(ty) && SizesFit(ty, VStruct(cells))
    ensures WellFormedFields(SentFields(ty, cells, i))
    decreases ty, 0, |cells| - i
  {
    if i < |cells| {
      SentFieldsWellFormed(ty, cells, i + 1);
      if !Omitted(ty.slots[i], cells[i]) { SentWellFormed(ty.slots[i].ty, cells[i].val); }
    }
  }

  lemma {:induction false} SentElemsWellFormed(elem: Ty, vs: seq<Val>)
    requires HasType(TSet(elem), VSet(vs)) && ValidSchema(elem)
    requires forall i :: 0 <= i < |vs| ==> SizesFit(elem, vs[i])
    ensures WellFormedElems(CodeFor(elem), SentElems(elem, vs)) && ElemCount(SentElems(elem, vs)) == |vs|
    decreases elem, 2, |vs|
  {
    if vs != [] {
      SentCode(elem, vs[0]);
      SentWellFormed(elem, vs[0]);
      SentElemsWellFormed(elem, vs[1..]);
    }
  }

  lemma {:induction false} SentPairsWellFormed(key: Ty, val: Ty, pairs: seq<Pair>)
    requires HasType(TMap(key, val), VMap(pairs)) && ValidSchema(key) && ValidSchema(val)
    requires forall i :: 0 <= i < |pairs| ==> SizesFit(key, pairs[i].key) && SizesFit(val, pairs[i].val)
    ensures WellFormedEntries(CodeFor(key), CodeFor(val), SentPairs(key, val, pairs))
    ensures EntryCount(SentPairs(key, val, pairs)) == |pairs|
    decreases TMap(key, val), 0, |pairs|
  {
    if pairs != [] {
      SentCode(key, pairs[0].key);
      SentCode(val, pairs[0].val);
      SentWellFormed(key, pairs[0].key);
      SentWellFormed(val, pairs[0].val);
      SentPairsWellFormed(key, val, pairs[1..]);
    }
  }

  // What the reader makes of it

  /** `init` after a written `v` was read into it: omitted fields keep what they held, flag and value. */
  function Merge(ty: Ty, init: Val, v: Val): (r: Val)
    requires HasType(ty, init) && HasType(ty, v)
    ensures HasType(ty, r)
    decreases ty, 1
  {
    match ty
    case TI32 => v
    case TI64 => v
    case TString => v
    case TStruct(slots) =>
      VStruct(seq(|slots|, i requires 0 <= i < |slots| => MergeCell(slots[i], init.cells[i], v.cells[i])))
    case TSet(elem) => VSet(MergeElems(elem, v.elems))
    case TMap(key, val) => VMap(MergePairs(key, val, v.pairs))
  }

  function MergeCell(slot: Slot, init: Cell, cell: Cell): (r: Cell)
    requires HasType(slot.ty, init.val) && HasType(slot.ty, cell.val)
    ensures HasType(slot.ty, r.val)
    decreases slot.ty, 2
  {
    if Omitted(slot, cell) then init else Cell(true, Merge(slot.ty, init.val, cell.val))
  }

  function MergeElems(elem: Ty, vs: seq<Val>): (r: seq<Val>)
    requires HasType(TSet(elem), VSet(vs))
    ensures HasType(TSet(elem), VSet(r)) && |r| == |vs|
    decreases elem, 2, |vs|
  {
    if vs == [] then [] else [Merge(elem, Fresh(elem), vs[0])] + MergeElems(elem, vs[1..])
  }

  function MergePair(key: Ty, val: Ty, pair: Pair): (r: Pair)
    requires HasType(key, pair.key) && HasType(val, pair.val)
    ensures HasType(key, r.key) && HasType(val, r.val)
    decreases TMap(key, val), 0, 0
  {
    Pair(Merge(key, Fresh(key), pair.key), Merge(val, Fresh(val), pair.val))
  }

  function MergePairs(key: Ty, val: Ty, pairs: seq<Pair>): (r: seq<Pair>)
    requires HasType(TMap(key, val), VMap(pairs))
    ensures HasType(TMap(key, val), VMap(r)) && |r| == |pairs|
    decreases TMap(key, val), 0, |pairs|
  {
    if pairs == [] then [] else [MergePair(key, val, pairs[0])] + MergePairs(key, val, pairs[1..])
  }

  lemma {:induction false} MergeElemsAt(elem: Ty, vs: seq<Val>, i: nat)
    requires HasType(TSet(elem), VSet(vs)) && i < |vs|
    ensures MergeElems(elem, vs)[i] == Merge(elem, Fresh(elem), vs[i])
    decreases i
  {
    if i > 0 { MergeElemsAt(elem, vs[1..], i - 1); }
  }

  lemma {:induction false} MergePairsAt(key: Ty, val: Ty, pairs: seq<Pair>, i: nat)
    requires HasType(TMap(key, val), VMap(pairs)) && i < |pairs|
    ensures MergePairs(key, val, pairs)[i] == MergePair(key, val, pairs[i])
    decreases i
  {
    if i > 0 { MergePairsAt(key, val, pairs[1..], i - 1); }
  }

  lemma {:induction false} CaseOwn(slots: seq<Slot>, k: nat, i: nat)
    requires k <= i < |slots| && forall x, y :: 0 <= x < y < |slots| ==> slots[x].id != slots[y].id
    ensures CaseFrom(slots, slots[i].id, CodeFor(slots[i].ty), k) == Some(i)
    decreases i - k
  {
    if k < i { CaseOwn(slots, k + 1, i); }
  }

  lemma {:induction false} MeaningOfSent(ty: Ty, init: Val, v: Val)
    requires HasType(ty, init) && HasType(ty, v) && ValidSchema(ty)
    ensures Meaning(ty, init, Sent(ty, v)) == Some(Merge(ty, init, v))
    decreases ty, 1, 0
  {
    match ty
    case TI32 =>
    case TI64 =>
    case TString =>
    case TStruct(slots) =>
      MeaningOfSentFields(ty, init, v, 0);
      assert Merge(ty, init, v).cells[..0] + init.cells[0..] == init.cells;
    case TSet(elem) => MeaningOfSentElems(elem, v.elems);
    case TMap(key, val) => MeaningOfSentPairs(key, val, v.pairs);
  }

  lemma NextMerged<T>(merged: seq<T>, init: seq<T>, i: nat)
    requires |merged| == |init| && i < |init|
    ensures merged[..i + 1] + init[i + 1..] == (merged[..i] + init[i..])[i := merged[i]]
  {
  }

  /** With the first `i` fields merged, the others follow. */
  lemma {:induction false} MeaningOfSentFields(ty: Ty, init: Val, v: Val, i: nat)
    requires ty.TStruct? && HasType(ty, init) && HasType(ty, v) && ValidSchema(ty) && i <= |ty.slots|
    ensures var merged := Merge(ty, init, v).cells;
      MeaningFields(ty.slots, merged[..i] + init.cells[i..], SentFields(ty, v.cells, i)) == Some(merged)
    decreases ty, 0, |ty.slots| - i + 1
  {
    var merged := Merge(ty, init, v).cells;
    if i == |ty.slots| {
      assert merged[..i] + init.cells[i..] == merged;
    } else {
      var cells := merged[..i] + init.cells[i..];
      NextMerged(merged, init.cells, i);
      MeaningOfSentFields(ty, init, v, i + 1);
      if Omitted(ty.slots[i], v.cells[i]) {
        assert cells[i := merged[i]] == cells;
      } else {
        MeaningOfSentField(ty, cells, v.cells, i);
      }
    }
  }

  lemma {:induction false} MeaningOfSentField(ty: Ty, cells: seq<Cell>, sent: seq<Cell>, i: nat)
    requires ty.TStruct? && Typed(ty.slots, cells) && Typed(ty.slots, sent) && ValidSchema(ty) && i < |ty.slots|
    requires !Omitted(ty.slots[i], sent[i])
    ensures MeaningField(ty.slots, cells, ty.slots[i].id, Sent(ty.slots[i].ty, sent[i].val))
         == Some(cells[i := MergeCell(ty.slots[i], cells[i], sent[i])])
    decreases ty, 0, 0
  {
    SentCode(ty.slots[i].ty, sent[i].val);
    CaseOwn(ty.slots, 0, i);
    MeaningOfSent(ty.slots[i].ty, cells[i].val, sent[i].val);
  }

  lemma {:induction false} MeaningOfSentElems(elem: Ty, vs: seq<Val>)
    requires HasType(TSet(elem), VSet(vs)) && ValidSchema(elem)
    ensures MeaningElems(elem, SentElems(elem, vs)) == Some(MergeElems(elem, vs))
    decreases elem, 2, |vs|
  {
    if vs != [] {
      MeaningOfSent(elem, Fresh(elem), vs[0]);
      MeaningOfSentElems(elem, vs[1..]);
    }
  }

  lemma {:induction false} MeaningOfSentPairs(key: Ty, val: Ty, pairs: seq<Pair>)
    requires HasType(TMap(key, val), VMap(pairs)) && ValidSchema(key) && ValidSchema(val)
    ensures MeaningEntries(key, val, SentPairs(key, val, pairs)) == Some(MergePairs(key, val, pairs))
    decreases TMap(key, val), 0, |pairs|
  {
    if pairs != [] {
      MeaningOfSentPair(key, val, pairs);
      MeaningOfSentPairs(key, val, pairs[1..]);
      NextEntry(key, val, SentPairs(key, val, pairs), MergePair(key, val, pairs[0]), MergePairs(key, val, pairs[1..]));
    }
  }

  lemma NextEntry(key: Ty, val: Ty, entries: Entries, pair: Pair, pairs: seq<Pair>)
    requires entries.Entry? && MeaningEntry(key, val, entries) == Some(pair)
    requires MeaningEntries(key, val, entries.otherEntries) == Some(pairs)
    ensures MeaningEntries(key, val, entries) == Some([pair] + pairs)
  {
  }

  lemma {:induction false} MeaningOfSentPair(key: Ty, val: Ty, pairs: seq<Pair>)
    requires pairs != [] && HasType(TMap(key, val), VMap(pairs)) && ValidSchema(key) && ValidSchema(val)
    ensures MeaningEntry(key, val, SentPairs(key, val, pairs)) == Some(MergePair(key, val, pairs[0]))
    decreases TMap(key, val), 0, 0
  {
    MeaningOfSent(key, Fresh(key), pairs[0].key);
    MeaningOfSent(val, Fresh(val), pairs[0].val);
  }

  /** `operator==`: optional fields compare with their flags, required ones without. */
  predicate Equal(ty: Ty, a: Val, b: Val)
    requires HasType(ty, a) && HasType(ty, b)
    decreases ty
  {
    match ty
    case TI32 => a == b
    case TI64 => a == b
    case TString => a == b
    case TStruct(slots) =>
      forall i :: 0 <= i < |slots| ==>
        if slots[i].optional
        then a.cells[i].isset == b.cells[i].isset
          && (a.cells[i].isset ==> Equal(slots[i].ty, a.cells[i].val, b.cells[i].val))
        else Equal(slots[i].ty, a.cells[i].val, b.cells[i].val)
    case TSet(elem) => |a.elems| == |b.elems| && forall i :: 0 <= i < |a.elems| ==> Equal(elem, a.elems[i], b.elems[i])
    case TMap(key, val) =>
      |a.pairs| == |b.pairs| && forall i :: 0 <= i < |a.pairs| ==>
        Equal(key, a.pairs[i].key, b.pairs[i].key) && Equal(val, a.pairs[i].val, b.pairs[i].val)
  }

  /** No optional field that `v` omits is set in the object read into. Holds of every default-constructed object. */
  predicate Overwrites(ty: Ty, init: Val, v: Val)
    requires HasType(ty, init) && HasType(ty, v)
    decreases ty
  {
    ty.TStruct? ==> forall i :: 0 <= i < |ty.slots| ==>
      if Omitted(ty.slots[i], v.cells[i]) then !init.cells[i].isset
      else Overwrites(ty.slots[i].ty, init.cells[i].val, v.cells[i].val)
  }

  lemma {:induction false} FreshOverwritten(ty: Ty, v: Val)
    requires HasType(ty, v)
    ensures Overwrites(ty, Fresh(ty), v)
    decreases ty
  {
    if ty.TStruct? {
      forall i | 0 <= i < |ty.slots|
        ensures Overwrites(ty.slots[i].ty, Fresh(ty).cells[i].val, v.cells[i].val)
      {
        FreshOverwritten(ty.slots[i].ty, v.cells[i].val);
      }
    }
  }

  lemma {:induction false} MergeEqual(ty: Ty, init: Val, v: Val)
    requires HasType(ty, init) && HasType(ty, v)
    ensures Equal(ty, Merge(ty, init, v), v) <==> Overwrites(ty, init, v)
    decreases ty
  {
    match ty
    case TI32 =>
    case TI64 =>
    case TString =>
    case TStruct(slots) =>
      forall i | 0 <= i < |slots|
        ensures Equal(slots[i].ty, Merge(slots[i].ty, init.cells[i].val, v.cells[i].val), v.cells[i].val)
           <==> Overwrites(slots[i].ty, init.cells[i].val, v.cells[i].val)
      {
        MergeEqual(slots[i].ty, init.cells[i].val, v.cells[i].val);
      }
    case TSet(elem) =>
      forall i | 0 <= i < |v.elems| ensures Equal(elem, MergeElems(elem, v.elems)[i], v.elems[i]) {
        MergeElemsAt(elem, v.elems, i);
        MergeEqual(elem, Fresh(elem), v.elems[i]);
        FreshOverwritten(elem, v.elems[i]);
      }
    case TMap(key, val) =>
      forall i | 0 <= i < |v.pairs|
        ensures Equal(key, MergePairs(key, val, v.pairs)[i].key, v.pairs[i].key)
        ensures Equal(val, MergePairs(key, val, v.pairs)[i].val, v.pairs[i].val)
      {
        MergePairsAt(key, val, v.pairs, i);
        MergeEqual(key, Fresh(key), v.pairs[i].key);
        FreshOverwritten(key, v.pairs[i].key);
        MergeEqual(val, Fresh(val), v.pairs[i].val);
        FreshOverwritten(val, v.pairs[i].val);
      }
  }

  /** A written value, wherever it stands, is read to its merge with the object read into. */
  lemma ReadWritten(ty: Ty, init: Val, v: Val, b: Bytes, p: nat)
    requires HasType(ty, init) && HasType(ty, v) && ValidSchema(ty) && SizesFit(ty, v)
    requires At(b, p, Write(ty, v))
    ensures Read(ty, init, b, p) == Some((Merge(ty, init, v), p + |Write(ty, v)|))
  {
    SentWellFormed(ty, v);
    MeaningOfSent(ty, init, v);
    Standing(Sent(ty, v), b, p);
    ReadStanding(ty, init, Sent(ty, v), b, p);
  }

  /** Round trip with framing: the reader leaves exactly the suffix, with a value equal to the one written exactly
      when the object read into has no optional field set that the written one omits. */
  lemma RoundTrip(ty: Ty, init: Val, v: Val, prefix: Bytes, suffix: Bytes)
    requires HasType(ty, init) && HasType(ty, v) && ValidSchema(ty) && SizesFit(ty, v)
    ensures Read(ty, init, prefix + Write(ty, v) + suffix, |prefix|) ==
      Some((Merge(ty, init, v), |prefix + Write(ty, v)|))
    ensures Equal(ty, Merge(ty, init, v), v) <==> Overwrites(ty, init, v)
    ensures init == Fresh(ty) ==> Equal(ty, Merge(ty, init, v), v)
  {
    ReadFramed(ty, init, v, prefix, suffix);
    MergeEqual(ty, init, v);
    FreshOverwritten(ty, v);
  }

  lemma ReadFramed(ty: Ty, init: Val, v: Val, prefix: Bytes, suffix: Bytes)
    requires HasType(ty, init) && HasType(ty, v) && ValidSchema(ty) && SizesFit(ty, v)
    ensures Read(ty, init, prefix + Write(ty, v) + suffix, |prefix|) ==
      Some((Merge(ty, init, v), |prefix + Write(ty, v)|))
  {
    Embedded(Write(ty, v), prefix, suffix);
    ReadWritten(ty, init, v, prefix + Write(ty, v) + suffix, |prefix|);
  }
}
