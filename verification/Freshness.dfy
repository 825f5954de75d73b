/** A reader that starts from a fresh object leaves every unset field at its default, whatever the stream holds; so
    the orders of `Ordering` are strict weak ones on all keys that come off the wire. */
module Freshness {
  import opened Words
  import opened Types
  import opened Ordering
  import opened Binary
  import opened Wire
  import opened Codec
  import opened Structs

  predicate Untouched(slot: Slot, cell: Cell)
    requires HasType(slot.ty, cell.val)
    decreases slot.ty, 1
  {
    (!cell.isset ==> cell.val == Fresh(slot.ty)) && Tidy(slot.ty, cell.val)
  }

  /** Unset fields hold their defaults, at every level. */
  predicate Tidy(ty: Ty, v: Val)
    requires HasType(ty, v)
    decreases ty, 0
  {
    match ty
    case TI32 => true
    case TI64 => true
    case TString => true
    case TStruct(slots) => forall i :: 0 <= i < |slots| ==> Untouched(slots[i], v.cells[i])
    case TSet(elem) => forall i :: 0 <= i < |v.elems| ==> Tidy(elem, v.elems[i])
    case TMap(key, val) => forall i :: 0 <= i < |v.pairs| ==> Tidy(key, v.pairs[i].key) && Tidy(val, v.pairs[i].val)
  }

  predicate TidyCells(slots: seq<Slot>, cells: seq<Cell>)
    requires Typed(slots, cells)
  {
    forall i :: 0 <= i < |slots| ==> Untouched(slots[i], cells[i])
  }

  lemma {:induction false} FreshIsTidy(ty: Ty)
    ensures Tidy(ty, Fresh(ty))
  {
    if ty.TStruct? {
      forall i | 0 <= i < |ty.slots| ensures Untouched(ty.slots[i], Fresh(ty).cells[i]) {
        FreshIsTidy(ty.slots[i].ty);
      }
    }
  }

  lemma {:induction false} ReadIsTidy(ty: Ty, init: Val, b: Bytes, p: nat)
    requires HasType(ty, init) && Tidy(ty, init) && p <= |b| && Read(ty, init, b, p).Some?
    ensures Tidy(ty, Read(ty, init, b, p).value.0)
    decreases |b| - p, 1, 0
  {
    match ty
    case TI32 =>
    case TI64 =>
    case TString =>
    case TStruct(slots) => ReadFieldsIsTidy(slots, init.cells, b, p);
    case TSet(elem) => ReadElemsIsTidy(elem, ReadSize(b, p + 1).value, b, p + 5);
    case TMap(key, val) => ReadPairsIsTidy(key, val, ReadSize(b, p + 2).value, b, p + 6);
  }

  lemma {:induction false} ReadFieldsIsTidy(slots: seq<Slot>, cells: seq<Cell>, b: Bytes, p: nat)
    requires Typed(slots, cells) && TidyCells(slots, cells) && p <= |b| && ReadFields(slots, cells, b, p).Some?
    ensures TidyCells(slots, ReadFields(slots, cells, b, p).value.0)
    decreases |b| - p, 0, 0
  {
    if b[p] != STOP {
      var id := ReadI16(b, p + 1).value;
      ReadFieldIsTidy(slots, cells, id, b[p], b, p + 3);
      var (cells', q) := ReadField(slots, cells, id, b[p], b, p + 3).value;
      ReadFieldsIsTidy(slots, cells', b, q);
    }
  }

  lemma {:induction false} ReadFieldIsTidy(slots: seq<Slot>, cells: seq<Cell>, id: int, code: Byte, b: Bytes, p: nat)
    requires Typed(slots, cells) && TidyCells(slots, cells) && p <= |b| && ReadField(slots, cells, id, code, b, p).Some?
    ensures TidyCells(slots, ReadField(slots, cells, id, code, b, p).value.0)
    decreases |b| - p, 2, 0
  {
    var c := Case(slots, id, code);
    if c.Some? {
      assert Untouched(slots[c.value], cells[c.value]);
      ReadIsTidy(slots[c.value].ty, cells[c.value].val, b, p);
    }
  }

  lemma {:induction false} ReadElemsIsTidy(elem: Ty, n: nat, b: Bytes, p: nat)
    requires p <= |b| && ReadElems(elem, n, b, p).Some?
    ensures Tidy(TSet(elem), VSet(ReadElems(elem, n, b, p).value.0))
    decreases |b| - p, 2, n
  {
    if n > 0 {
      FreshIsTidy(elem);
      ReadIsTidy(elem, Fresh(elem), b, p);
      ReadElemsIsTidy(elem, n - 1, b, Read(elem, Fresh(elem), b, p).value.1);
    }
  }

  lemma {:induction false} ReadPairIsTidy(key: Ty, val: Ty, b: Bytes, p: nat)
    requires p <= |b| && ReadPair(key, val, b, p).Some?
    ensures var pair := ReadPair(key, val, b, p).value.0; Tidy(key, pair.key) && Tidy(val, pair.val)
    decreases |b| - p, 2, 0
  {
    FreshIsTidy(key);
    FreshIsTidy(val);
    ReadIsTidy(key, Fresh(key), b, p);
    ReadIsTidy(val, Fresh(val), b, Read(key, Fresh(key), b, p).value.1);
  }

  lemma {:induction false} ReadPairsIsTidy(key: Ty, val: Ty, n: nat, b: Bytes, p: nat)
    requires p <= |b| && ReadPairs(key, val, n, b, p).Some?
    ensures Tidy(TMap(key, val), VMap(ReadPairs(key, val, n, b, p).value.0))
    decreases |b| - p, 3, n
  {
    if n > 0 {
      ReadPairIsTidy(key, val, b, p);
      ReadPairsIsTidy(key, val, n - 1, b, ReadPair(key, val, b, p).value.1);
    }
  }

  lemma TwoTidy(s: Slot, t: Slot, v: Val)
    requires HasType(TStruct([s, t]), v) && Tidy(TStruct([s, t]), v)
    ensures |v.cells| == 2 && HasType(s.ty, v.cells[0].val) && HasType(t.ty, v.cells[1].val)
    ensures Untouched(s, v.cells[0]) && Untouched(t, v.cells[1])
  {
    TwoTyped(s, t, v);
    var ty := TStruct([s, t]);
    assert ty.slots[0] == s && ty.slots[1] == t;
  }

  lemma TidyOffset(v: Val)
    requires HasType(OFFSET_SCHEMA, v) && Tidy(OFFSET_SCHEMA, v)
    ensures FreshOffset(ToOffset(v))
  {
    TwoTidy(OFFSET_SLOT, SYMBOL_SLOT, v);
  }

  lemma TidyRel(v: Val)
    requires HasType(REL_SCHEMA, v) && Tidy(REL_SCHEMA, v)
    ensures FreshRel(ToRel(v))
  {
    TwoTidy(MODULENAME_SLOT, REL_OFFSET_SLOT, v);
    TidyOffset(v.cells[1].val);
  }

  lemma FreshValues()
    ensures ToOffset(Fresh(OFFSET_SCHEMA)) == NO_OFFSET && ToRel(Fresh(REL_SCHEMA)) == NO_RELADDR
  {
    TwoTyped(OFFSET_SLOT, SYMBOL_SLOT, Fresh(OFFSET_SCHEMA));
    TwoTyped(MODULENAME_SLOT, REL_OFFSET_SLOT, Fresh(REL_SCHEMA));
  }

  lemma TidyAddr(v: Val)
    requires HasType(ADDR_SCHEMA, v) && Tidy(ADDR_SCHEMA, v)
    ensures FreshAddr(ToAddr(v))
  {
    TwoTidy(ABSADDR_SLOT, RELADDR_SLOT, v);
    TidyRel(v.cells[1].val);
    FreshValues();
  }

  lemma TidyBreakpoint(v: Val)
    requires HasType(BREAKPOINT_SCHEMA, v) && Tidy(BREAKPOINT_SCHEMA, v)
    ensures FreshBreakpoint(ToBreakpoint(v))
  {
    TwoTidy(ADDR_SLOT, COUNT_SLOT, v);
    TidyAddr(v.cells[0].val);
  }

  /** Every breakpoint read from any stream is in the domain of `BreakpointOrder`, its address in that of
      `RelOrder`. */
  lemma ReadBreakpointIsFresh(b: Bytes, p: nat)
    requires p <= |b| && Read(BREAKPOINT_SCHEMA, Fresh(BREAKPOINT_SCHEMA), b, p).Some?
    ensures FreshBreakpoint(ToBreakpoint(Read(BREAKPOINT_SCHEMA, Fresh(BREAKPOINT_SCHEMA), b, p).value.0))
  {
    FreshIsTidy(BREAKPOINT_SCHEMA);
    ReadIsTidy(BREAKPOINT_SCHEMA, Fresh(BREAKPOINT_SCHEMA), b, p);
    TidyBreakpoint(Read(BREAKPOINT_SCHEMA, Fresh(BREAKPOINT_SCHEMA), b, p).value.0);
  }
}
