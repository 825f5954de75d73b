/** The seven structs on the wire: their fields, and what reading back a written one yields. */
module Structs {
  import opened Words
  import opened Types
  import opened Ordering
  import opened Binary
  import opened Codec
  import opened Messages

  // The fields of each struct, with `optional` as declared

  const OFFSET_SLOT := Slot(1, TI64, true)
  const SYMBOL_SLOT := Slot(2, TString, true)
  const OFFSET_SCHEMA := TStruct([OFFSET_SLOT, SYMBOL_SLOT])

  const MODULENAME_SLOT := Slot(1, TString, false)
  const REL_OFFSET_SLOT := Slot(2, OFFSET_SCHEMA, false)
  const REL_SCHEMA := TStruct([MODULENAME_SLOT, REL_OFFSET_SLOT])

  const ABSADDR_SLOT := Slot(1, TI64, true)
  const RELADDR_SLOT := Slot(2, REL_SCHEMA, true)
  const ADDR_SCHEMA := TStruct([ABSADDR_SLOT, RELADDR_SLOT])

  const ADDR_SLOT := Slot(1, ADDR_SCHEMA, false)
  const COUNT_SLOT := Slot(2, TI64, false)
  const BREAKPOINT_SCHEMA := TStruct([ADDR_SLOT, COUNT_SLOT])

  const INFO_ADDR_SLOT := Slot(1, REL_SCHEMA, false)
  const BASE_SLOT := Slot(2, TI64, false)
  const MODULEINFO_SCHEMA := TStruct([INFO_ADDR_SLOT, BASE_SLOT])

  const BLOCK_ADDR_SLOT := Slot(1, TI64, false)
  const BYTES_SLOT := Slot(2, TString, false)
  const MODULEINFO_SLOT := Slot(3, MODULEINFO_SCHEMA, true)
  const CODEBLOCK_SCHEMA := TStruct([BLOCK_ADDR_SLOT, BYTES_SLOT, MODULEINFO_SLOT])

  const MSG_SLOT := Slot(1, TString, false)
  const EXCEPTION_SCHEMA := TStruct([MSG_SLOT])

  datatype Exception = Exception(hasMsg: bool, msg: Bytes)

  // Structs of two fields, cell by cell

  function Two(x: Cell, y: Cell): Val {
    VStruct([x, y])
  }

  lemma TwoTyped(s: Slot, t: Slot, v: Val)
    ensures HasType(TStruct([s, t]), v) <==>
            v.VStruct? && |v.cells| == 2 && HasType(s.ty, v.cells[0].val) && HasType(t.ty, v.cells[1].val)
  {
    var ty := TStruct([s, t]);
    if v.VStruct? && |v.cells| == 2 {
      assert HasType(ty, v) <==> HasType(ty.slots[0].ty, v.cells[0].val) && HasType(ty.slots[1].ty, v.cells[1].val);
    }
  }

  predicate EqualCell(s: Slot, a: Cell, b: Cell)
    requires HasType(s.ty, a.val) && HasType(s.ty, b.val)
  {
    if s.optional then a.isset == b.isset && (a.isset ==> Equal(s.ty, a.val, b.val)) else Equal(s.ty, a.val, b.val)
  }

  lemma TwoEqual(s: Slot, t: Slot, a: Val, b: Val)
    requires HasType(TStruct([s, t]), a) && HasType(TStruct([s, t]), b)
    ensures |a.cells| == |b.cells| == 2
    ensures HasType(s.ty, a.cells[0].val) && HasType(t.ty, a.cells[1].val)
    ensures HasType(s.ty, b.cells[0].val) && HasType(t.ty, b.cells[1].val)
    ensures Equal(TStruct([s, t]), a, b) <==>
      EqualCell(s, a.cells[0], b.cells[0]) && EqualCell(t, a.cells[1], b.cells[1])
  {
    TwoTyped(s, t, a);
    TwoTyped(s, t, b);
    var ty := TStruct([s, t]);
    assert Equal(ty, a, b) <==> forall i :: 0 <= i < |ty.slots| ==> EqualCell(ty.slots[i], a.cells[i], b.cells[i]);
    assert ty.slots[0] == s && ty.slots[1] == t;
  }

  lemma ThreeTyped(r: Slot, s: Slot, t: Slot, v: Val)
    ensures HasType(TStruct([r, s, t]), v) <==>
            && v.VStruct? && |v.cells| == 3
            && HasType(r.ty, v.cells[0].val) && HasType(s.ty, v.cells[1].val) && HasType(t.ty, v.cells[2].val)
  {
    var ty := TStruct([r, s, t]);
    if v.VStruct? && |v.cells| == 3 {
      assert HasType(ty, v) <==>
             HasType(ty.slots[0].ty, v.cells[0].val) && HasType(ty.slots[1].ty, v.cells[1].val)
               && HasType(ty.slots[2].ty, v.cells[2].val);
    }
  }

  lemma ThreeEqual(r: Slot, s: Slot, t: Slot, a: Val, b: Val)
    requires HasType(TStruct([r, s, t]), a) && HasType(TStruct([r, s, t]), b)
    ensures |a.cells| == |b.cells| == 3
    ensures HasType(r.ty, a.cells[0].val) && HasType(s.ty, a.cells[1].val) && HasType(t.ty, a.cells[2].val)
    ensures HasType(r.ty, b.cells[0].val) && HasType(s.ty, b.cells[1].val) && HasType(t.ty, b.cells[2].val)
    ensures Equal(TStruct([r, s, t]), a, b) <==>
            EqualCell(r, a.cells[0], b.cells[0]) && EqualCell(s, a.cells[1], b.cells[1])
              && EqualCell(t, a.cells[2], b.cells[2])
  {
    ThreeTyped(r, s, t, a);
    ThreeTyped(r, s, t, b);
    var ty := TStruct([r, s, t]);
    assert Equal(ty, a, b) <==> forall i :: 0 <= i < |ty.slots| ==> EqualCell(ty.slots[i], a.cells[i], b.cells[i]);
    assert ty.slots[0] == r && ty.slots[1] == s && ty.slots[2] == t;
  }

  // From structs to cells and back

  function OfOffset(o: OffsetOrSymbol): (v: Val)
    ensures HasType(OFFSET_SCHEMA, v)
  {
    var v := Two(Cell(o.hasOffset, VI64(o.offset)), Cell(o.hasSymbol, VString(o.symbol)));
    TwoTyped(OFFSET_SLOT, SYMBOL_SLOT, v);
    v
  }

  function OfRel(r: RelAddr): (v: Val)
    ensures HasType(REL_SCHEMA, v)
  {
    var v := Two(Cell(r.hasModulename, VString(r.modulename)), Cell(r.hasOffset, OfOffset(r.offset)));
    TwoTyped(MODULENAME_SLOT, REL_OFFSET_SLOT, v);
    v
  }

  function OfAddr(a: AbsOrRelAddr): (v: Val)
    ensures HasType(ADDR_SCHEMA, v)
  {
    var v := Two(Cell(a.hasAbsaddr, VI64(a.absaddr)), Cell(a.hasReladdr, OfRel(a.reladdr)));
    TwoTyped(ABSADDR_SLOT, RELADDR_SLOT, v);
    v
  }

  function OfBreakpoint(b: Breakpoint): (v: Val)
    ensures HasType(BREAKPOINT_SCHEMA, v)
  {
    var v := Two(Cell(b.hasAddr, OfAddr(b.addr)), Cell(b.hasCount, VI64(b.count)));
    TwoTyped(ADDR_SLOT, COUNT_SLOT, v);
    v
  }

  function OfModuleInfo(m: ModuleInfo): (v: Val)
    ensures HasType(MODULEINFO_SCHEMA, v)
  {
    var v := Two(Cell(m.hasAddr, OfRel(m.addr)), Cell(m.hasBase, VI64(m.base)));
    TwoTyped(INFO_ADDR_SLOT, BASE_SLOT, v);
    v
  }

  function OfCodeBlock(c: CodeBlock): (v: Val)
    ensures HasType(CODEBLOCK_SCHEMA, v)
  {
    var v :=
      VStruct([Cell(c.hasAddr, VI64(c.addr)), Cell(c.hasBytes, VString(c.bytes)),
        Cell(c.hasModuleinfo, OfModuleInfo(c.moduleinfo))]);
    ThreeTyped(BLOCK_ADDR_SLOT, BYTES_SLOT, MODULEINFO_SLOT, v);
    v
  }

  function OfException(e: Exception): (v: Val)
    ensures HasType(EXCEPTION_SCHEMA, v)
  {
    VStruct([Cell(e.hasMsg, VString(e.msg))])
  }

  function ToOffset(v: Val): OffsetOrSymbol
    requires HasType(OFFSET_SCHEMA, v)
  {
    TwoTyped(OFFSET_SLOT, SYMBOL_SLOT, v);
    OffsetOrSymbol(v.cells[0].isset, v.cells[0].val.int64, v.cells[1].isset, v.cells[1].val.text)
  }

  function ToRel(v: Val): RelAddr
    requires HasType(REL_SCHEMA, v)
  {
    TwoTyped(MODULENAME_SLOT, REL_OFFSET_SLOT, v);
    RelAddr(v.cells[0].isset, v.cells[0].val.text, v.cells[1].isset, ToOffset(v.cells[1].val))
  }

  function ToAddr(v: Val): AbsOrRelAddr
    requires HasType(ADDR_SCHEMA, v)
  {
    TwoTyped(ABSADDR_SLOT, RELADDR_SLOT, v);
    AbsOrRelAddr(v.cells[0].isset, v.cells[0].val.int64, v.cells[1].isset, ToRel(v.cells[1].val))
  }

  function ToBreakpoint(v: Val): Breakpoint
    requires HasType(BREAKPOINT_SCHEMA, v)
  {
    TwoTyped(ADDR_SLOT, COUNT_SLOT, v);
    Breakpoint(v.cells[0].isset, ToAddr(v.cells[0].val), v.cells[1].isset, v.cells[1].val.int64)
  }

  function ToModuleInfo(v: Val): ModuleInfo
    requires HasType(MODULEINFO_SCHEMA, v)
  {
    TwoTyped(INFO_ADDR_SLOT, BASE_SLOT, v);
    ModuleInfo(v.cells[0].isset, ToRel(v.cells[0].val), v.cells[1].isset, v.cells[1].val.int64)
  }

  function ToCodeBlock(v: Val): CodeBlock
    requires HasType(CODEBLOCK_SCHEMA, v)
  {
    ThreeTyped(BLOCK_ADDR_SLOT, BYTES_SLOT, MODULEINFO_SLOT, v);
    CodeBlock(v.cells[0].isset, v.cells[0].val.int64, v.cells[1].isset, v.cells[1].val.text,
              v.cells[2].isset, ToModuleInfo(v.cells[2].val))
  }

  function ToException(v: Val): Exception
    requires HasType(EXCEPTION_SCHEMA, v)
  {
    assert HasType(EXCEPTION_SCHEMA.slots[0].ty, v.cells[0].val);
    Exception(v.cells[0].isset, v.cells[0].val.text)
  }

  // The conversions are inverse, and the operator== declared on each struct is the one of its schema.

  lemma OffsetCells(o: OffsetOrSymbol, v: Val)
    requires HasType(OFFSET_SCHEMA, v)
    ensures ToOffset(OfOffset(o)) == o && OfOffset(ToOffset(v)) == v
    ensures Equal(OFFSET_SCHEMA, v, OfOffset(o)) <==> EqOffset(ToOffset(v), o)
  {
    TwoTyped(OFFSET_SLOT, SYMBOL_SLOT, v);
    TwoEqual(OFFSET_SLOT, SYMBOL_SLOT, v, OfOffset(o));
  }

  lemma RelCells(r: RelAddr, v: Val)
    requires HasType(REL_SCHEMA, v)
    ensures ToRel(OfRel(r)) == r && OfRel(ToRel(v)) == v
    ensures Equal(REL_SCHEMA, v, OfRel(r)) <==> EqRel(ToRel(v), r)
  {
    TwoTyped(MODULENAME_SLOT, REL_OFFSET_SLOT, v);
    OffsetCells(r.offset, v.cells[1].val);
    TwoEqual(MODULENAME_SLOT, REL_OFFSET_SLOT, v, OfRel(r));
  }

  lemma AddrCells(a: AbsOrRelAddr, v: Val)
    requires HasType(ADDR_SCHEMA, v)
    ensures ToAddr(OfAddr(a)) == a && OfAddr(ToAddr(v)) == v
    ensures Equal(ADDR_SCHEMA, v, OfAddr(a)) <==> EqAddr(ToAddr(v), a)
  {
    TwoTyped(ABSADDR_SLOT, RELADDR_SLOT, v);
    RelCells(a.reladdr, v.cells[1].val);
    TwoEqual(ABSADDR_SLOT, RELADDR_SLOT, v, OfAddr(a));
  }

  lemma BreakpointCells(b: Breakpoint, v: Val)
    requires HasType(BREAKPOINT_SCHEMA, v)
    ensures ToBreakpoint(OfBreakpoint(b)) == b && OfBreakpoint(ToBreakpoint(v)) == v
    ensures Equal(BREAKPOINT_SCHEMA, v, OfBreakpoint(b)) <==> EqBreakpoint(ToBreakpoint(v), b)
  {
    TwoTyped(ADDR_SLOT, COUNT_SLOT, v);
    AddrCells(b.addr, v.cells[0].val);
    TwoEqual(ADDR_SLOT, COUNT_SLOT, v, OfBreakpoint(b));
  }

  lemma ModuleInfoCells(m: ModuleInfo, v: Val)
    requires HasType(MODULEINFO_SCHEMA, v)
    ensures ToModuleInfo(OfModuleInfo(m)) == m && OfModuleInfo(ToModuleInfo(v)) == v
    ensures Equal(MODULEINFO_SCHEMA, v, OfModuleInfo(m)) <==> EqModuleInfo(ToModuleInfo(v), m)
  {
    TwoTyped(INFO_ADDR_SLOT, BASE_SLOT, v);
    RelCells(m.addr, v.cells[0].val);
    TwoEqual(INFO_ADDR_SLOT, BASE_SLOT, v, OfModuleInfo(m));
  }

  lemma CodeBlockCells(c: CodeBlock, v: Val)
    requires HasType(CODEBLOCK_SCHEMA, v)
    ensures ToCodeBlock(OfCodeBlock(c)) == c && OfCodeBlock(ToCodeBlock(v)) == v
    ensures Equal(CODEBLOCK_SCHEMA, v, OfCodeBlock(c)) <==> EqCodeBlock(ToCodeBlock(v), c)
  {
    CodeBlockEqual(c, v);
    CodeBlockBack(v);
  }

  lemma CodeBlockBack(v: Val)
    requires HasType(CODEBLOCK_SCHEMA, v)
    ensures OfCodeBlock(ToCodeBlock(v)) == v
  {
    ThreeTyped(BLOCK_ADDR_SLOT, BYTES_SLOT, MODULEINFO_SLOT, v);
    ModuleInfoCells(Types.NO_MODULEINFO, v.cells[2].val);
  }

  lemma CodeBlockEqual(c: CodeBlock, v: Val)
    requires HasType(CODEBLOCK_SCHEMA, v)
    ensures Equal(CODEBLOCK_SCHEMA, v, OfCodeBlock(c)) <==> EqCodeBlock(ToCodeBlock(v), c)
  {
    ThreeTyped(BLOCK_ADDR_SLOT, BYTES_SLOT, MODULEINFO_SLOT, v);
    ModuleInfoCells(c.moduleinfo, v.cells[2].val);
    ThreeEqual(BLOCK_ADDR_SLOT, BYTES_SLOT, MODULEINFO_SLOT, v, OfCodeBlock(c));
  }

  lemma ExceptionCells(e: Exception, v: Val)
    requires HasType(EXCEPTION_SCHEMA, v)
    ensures ToException(OfException(e)) == e && OfException(ToException(v)) == v
    ensures Equal(EXCEPTION_SCHEMA, v, OfException(e)) <==> ToException(v).msg == e.msg
  {
  }

  // Any of them

  datatype Struct =
    | AnOffset(offset: OffsetOrSymbol) | ARel(rel: RelAddr) | AnAddr(addr: AbsOrRelAddr)
    | ABreakpoint(breakpoint: Breakpoint) | AModuleInfo(info: ModuleInfo) | ACodeBlock(block: CodeBlock)
    | AnException(exception: Exception)

  function SchemaOf(x: Struct): (ty: Ty) {
    match x
    case AnOffset(_) => OFFSET_SCHEMA
    case ARel(_) => REL_SCHEMA
    case AnAddr(_) => ADDR_SCHEMA
    case ABreakpoint(_) => BREAKPOINT_SCHEMA
    case AModuleInfo(_) => MODULEINFO_SCHEMA
    case ACodeBlock(_) => CODEBLOCK_SCHEMA
    case AnException(_) => EXCEPTION_SCHEMA
  }

  function CellsOf(x: Struct): (v: Val)
    ensures HasType(SchemaOf(x), v)
  {
    match x
    case AnOffset(o) => OfOffset(o)
    case ARel(r) => OfRel(r)
    case AnAddr(a) => OfAddr(a)
    case ABreakpoint(b) => OfBreakpoint(b)
    case AModuleInfo(m) => OfModuleInfo(m)
    case ACodeBlock(c) => OfCodeBlock(c)
    case AnException(e) => OfException(e)
  }

  /** `v` is an object for which the `operator==` declared on the struct holds with `x`. */
  predicate Equals(x: Struct, v: Val)
    requires HasType(SchemaOf(x), v)
  {
    match x
    case AnOffset(o) => EqOffset(ToOffset(v), o)
    case ARel(r) => EqRel(ToRel(v), r)
    case AnAddr(a) => EqAddr(ToAddr(v), a)
    case ABreakpoint(b) => EqBreakpoint(ToBreakpoint(v), b)
    case AModuleInfo(m) => EqModuleInfo(ToModuleInfo(v), m)
    case ACodeBlock(c) => EqCodeBlock(ToCodeBlock(v), c)
    case AnException(e) => ToException(v).msg == e.msg
  }

  lemma TwoValid(s: Slot, t: Slot)
    requires ValidSchema(s.ty) && ValidSchema(t.ty) && 0 < s.id < t.id < 0x8000
    ensures ValidSchema(TStruct([s, t]))
  {
  }

  lemma SchemasValid(x: Struct)
    ensures ValidSchema(SchemaOf(x))
  {
    TwoValid(OFFSET_SLOT, SYMBOL_SLOT);
    TwoValid(MODULENAME_SLOT, REL_OFFSET_SLOT);
    TwoValid(ABSADDR_SLOT, RELADDR_SLOT);
    TwoValid(ADDR_SLOT, COUNT_SLOT);
    TwoValid(INFO_ADDR_SLOT, BASE_SLOT);
  }

  lemma BlockSchemaValid()
    ensures ValidSchema(CODEBLOCK_SCHEMA)
  {
    TwoValid(OFFSET_SLOT, SYMBOL_SLOT);
    TwoValid(MODULENAME_SLOT, REL_OFFSET_SLOT);
    TwoValid(INFO_ADDR_SLOT, BASE_SLOT);
  }

  lemma EqualIsEquals(x: Struct, v: Val)
    requires HasType(SchemaOf(x), v)
    ensures Equal(SchemaOf(x), v, CellsOf(x)) <==> Equals(x, v)
  {
    match x
    case AnOffset(o) => OffsetCells(o, v);
    case ARel(r) => RelCells(r, v);
    case AnAddr(a) => AddrCells(a, v);
    case ABreakpoint(b) => BreakpointCells(b, v);
    case AModuleInfo(m) => ModuleInfoCells(m, v);
    case ACodeBlock(c) => CodeBlockCells(c, v);
    case AnException(e) => ExceptionCells(e, v);
  }

  /** Each struct, written between any two byte strings and read into a fresh object, yields an equal struct and
      leaves exactly the suffix. */
  lemma StructRoundTrip(x: Struct, prefix: Bytes, suffix: Bytes)
    requires SizesFit(SchemaOf(x), CellsOf(x))
    ensures var sent := Write(SchemaOf(x), CellsOf(x));
            var r := Read(SchemaOf(x), Fresh(SchemaOf(x)), prefix + sent + suffix, |prefix|);
      r.Some? && r.value.1 == |prefix + sent| && Equals(x, r.value.0)
  {
    SchemasValid(x);
    RoundTrip(SchemaOf(x), Fresh(SchemaOf(x)), CellsOf(x), prefix, suffix);
    EqualIsEquals(x, Merge(SchemaOf(x), Fresh(SchemaOf(x)), CellsOf(x)));
  }

  /** A block without module information read into a used object keeps the old information, and so is equal to what
      was sent only if there was none. */
  lemma StaleModuleinfoStays(init: CodeBlock, c: CodeBlock)
    requires !c.hasModuleinfo
    ensures var r := ToCodeBlock(Merge(CODEBLOCK_SCHEMA, OfCodeBlock(init), OfCodeBlock(c)));
      && r.hasModuleinfo == init.hasModuleinfo && r.moduleinfo == init.moduleinfo && r.addr == c.addr
      && r.bytes == c.bytes
      && (EqCodeBlock(r, c) <==> !init.hasModuleinfo)
  {
    var a, v := OfCodeBlock(init), OfCodeBlock(c);
    var m := Merge(CODEBLOCK_SCHEMA, a, v);
    assert m.cells[0] == MergeCell(BLOCK_ADDR_SLOT, a.cells[0], v.cells[0]);
    assert m.cells[1] == MergeCell(BYTES_SLOT, a.cells[1], v.cells[1]);
    assert m.cells[2] == MergeCell(MODULEINFO_SLOT, a.cells[2], v.cells[2]);
    ModuleInfoCells(init.moduleinfo, a.cells[2].val);
  }
}
