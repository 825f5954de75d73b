/** What each struct looks like on the wire, byte by byte: field ids, type codes and byte order as numbers. */
module WireBytes {
  import opened Words
  import opened Types
  import opened Binary
  import opened Wire
  import opened Codec
  import opened Messages
  import opened Structs

  // Numbers

  /** The number whose digits to the base 256 are `e`, the highest first. */
  function Value(e: Bytes): nat {
    if e == [] then 0 else 256 * Value(e[..|e| - 1]) + e[|e| - 1]
  }

  lemma {:induction false} ValueBack(n: nat, k: nat)
    requires n < Pow256(k)
    ensures Value(BigEndian(n, k)) == n
    decreases k
  {
    if k > 0 {
      var high := BigEndian(n / 256, k - 1);
      assert BigEndian(n, k) == high + [n % 256] && (high + [n % 256])[..k - 1] == high;
      ValueBack(n / 256, k - 1);
    }
  }

  lemma {:induction false} ValueOnce(d: Bytes, e: Bytes)
    requires |d| == |e| && Value(d) == Value(e)
    ensures d == e
    decreases |d|
  {
    if d != [] {
      var x, y := d[..|d| - 1], e[..|e| - 1];
      assert 256 * (Value(x) - Value(y)) == e[|e| - 1] - d[|d| - 1];
      ValueOnce(x, y);
      assert d == x + [d[|d| - 1]] && e == y + [e[|e| - 1]];
    }
  }

  /** The bytes of a number are its digits modulo 2^16, 2^32 or 2^64, and no others. */
  lemma NumberBytes(x: int, e: Bytes)
    ensures e == I16Bytes(x) <==> |e| == 2 && Value(e) == x % 0x1_0000
    ensures e == I32Bytes(x) <==> |e| == 4 && Value(e) == x % 0x1_0000_0000
    ensures e == I64Bytes(x) <==> |e| == 8 && Value(e) == x % 0x1_0000_0000_0000_0000
  {
    Powers();
    ValueBack(x % 0x1_0000, 2);
    ValueBack(x % TWO32, 4);
    ValueBack(x % TWO64, 8);
    if |e| == 2 && Value(e) == x % 0x1_0000 { ValueOnce(e, I16Bytes(x)); }
    if |e| == 4 && Value(e) == x % TWO32 { ValueOnce(e, I32Bytes(x)); }
    if |e| == 8 && Value(e) == x % TWO64 { ValueOnce(e, I64Bytes(x)); }
  }

  /** A string is its length in four bytes, and its bytes. */
  lemma TextBytes(s: Bytes)
    ensures Str(s) == I32Bytes(|s|) + s
  {
  }

  lemma OneByte(n: Byte, k: nat)
    requires k > 0
    ensures BigEndian(n, k) == BigEndian(0, k - 1) + [n]
  {
  }

  lemma ZeroBytes()
    ensures BigEndian(0, 1) == [0] && BigEndian(0, 3) == [0, 0, 0]
  {
    OneByte(0, 1);
    OneByte(0, 2);
    OneByte(0, 3);
    assert BigEndian(0, 2) == [0, 0];
  }

  lemma SmallId(id: Byte)
    ensures I16Bytes(id) == [0, id]
  {
    ZeroBytes();
    OneByte(id, 2);
  }

  // Fields

  /** A field of a struct as it is written, unless it is optional and not set. */
  function FieldBytes(s: Slot, c: Cell): Bytes
    requires HasType(s.ty, c.val)
  {
    if Omitted(s, c) then [] else [CodeFor(s.ty)] + I16Bytes(s.id) + Write(s.ty, c.val)
  }

  lemma NextField(ty: Ty, cells: seq<Cell>, i: nat)
    requires ty.TStruct? && Typed(ty.slots, cells) && i < |cells|
    ensures EncodeFields(SentFields(ty, cells, i))
         == FieldBytes(ty.slots[i], cells[i]) + EncodeFields(SentFields(ty, cells, i + 1))
  {
    var s, c, more := ty.slots[i], cells[i], SentFields(ty, cells, i + 1);
    if Omitted(s, c) {
      assert [] + EncodeFields(more) == EncodeFields(more);
    } else {
      SentCode(s.ty, c.val);
      var v := Sent(s.ty, c.val);
      assert SentFields(ty, cells, i) == Field(s.id, v, more);
      Shift([CodeOf(v)], I16Bytes(s.id), Encode(v), EncodeFields(more));
    }
  }

  lemma Shift(w: Bytes, x: Bytes, y: Bytes, z: Bytes)
    ensures w + (x + (y + z)) == w + x + y + z
  {
  }

  lemma LastField(ty: Ty, cells: seq<Cell>)
    requires ty.TStruct? && Typed(ty.slots, cells)
    ensures EncodeFields(SentFields(ty, cells, |cells|)) == [0]
  {
  }

  lemma OneField(s: Slot, v: Val)
    requires HasType(TStruct([s]), v)
    ensures |v.cells| == 1 && HasType(s.ty, v.cells[0].val)
    ensures Write(TStruct([s]), v) == FieldBytes(s, v.cells[0]) + [0]
  {
    var ty := TStruct([s]);
    assert ty.slots[0] == s && HasType(ty.slots[0].ty, v.cells[0].val);
    NextField(ty, v.cells, 0);
    LastField(ty, v.cells);
  }

  /** The fields from number `i` on, given those behind it. */
  lemma InFront(ty: Ty, cells: seq<Cell>, i: nat, rest: Bytes) returns (all: Bytes)
    requires ty.TStruct? && Typed(ty.slots, cells) && i < |cells|
    requires EncodeFields(SentFields(ty, cells, i + 1)) == rest
    ensures EncodeFields(SentFields(ty, cells, i)) == all && all == FieldBytes(ty.slots[i], cells[i]) + rest
  {
    NextField(ty, cells, i);
    all := EncodeFields(SentFields(ty, cells, i));
  }

  lemma TwoFields(s: Slot, t: Slot, v: Val)
    requires HasType(TStruct([s, t]), v)
    ensures |v.cells| == 2 && HasType(s.ty, v.cells[0].val) && HasType(t.ty, v.cells[1].val)
    ensures Write(TStruct([s, t]), v) == FieldBytes(s, v.cells[0]) + (FieldBytes(t, v.cells[1]) + [0])
  {
    var ty := TStruct([s, t]);
    TwoTyped(s, t, v);
    assert ty.slots[0] == s && ty.slots[1] == t;
    LastField(ty, v.cells);
    var last := InFront(ty, v.cells, 1, [0]);
    var all := InFront(ty, v.cells, 0, last);
  }

  lemma ThreeFields(r: Slot, s: Slot, t: Slot, v: Val)
    requires HasType(TStruct([r, s, t]), v)
    ensures |v.cells| == 3
    ensures HasType(r.ty, v.cells[0].val) && HasType(s.ty, v.cells[1].val) && HasType(t.ty, v.cells[2].val)
    ensures Write(TStruct([r, s, t]), v)
         == FieldBytes(r, v.cells[0]) + (FieldBytes(s, v.cells[1]) + (FieldBytes(t, v.cells[2]) + [0]))
  {
    var ty := TStruct([r, s, t]);
    ThreeTyped(r, s, t, v);
    assert ty.slots[0] == r && ty.slots[1] == s && ty.slots[2] == t;
    LastField(ty, v.cells);
    var last := InFront(ty, v.cells, 2, [0]);
    var two := InFront(ty, v.cells, 1, last);
    var all := InFront(ty, v.cells, 0, two);
  }

  lemma Regroup(x: Bytes, y: Bytes, z: Bytes)
    ensures x + (y + z) == x + y + z
  {
  }

  lemma LongField(s: Slot, isset: bool, n: I64)
    requires s.ty == TI64 && 0 <= s.id < 256
    ensures FieldBytes(s, Cell(isset, VI64(n)))
         == if s.optional && !isset then [] else [10, 0, s.id] + I64Bytes(n)
  {
    SmallId(s.id);
    assert [10] + [0, s.id] == [10, 0, s.id];
  }

  lemma TextField(s: Slot, isset: bool, text: Bytes)
    requires s.ty == TString && 0 <= s.id < 256
    ensures FieldBytes(s, Cell(isset, VString(text)))
         == if s.optional && !isset then [] else [11, 0, s.id] + Str(text)
  {
    SmallId(s.id);
    assert [11] + [0, s.id] == [11, 0, s.id];
  }

  lemma StructField(s: Slot, isset: bool, v: Val)
    requires s.ty.TStruct? && 0 <= s.id < 256 && HasType(s.ty, v)
    ensures FieldBytes(s, Cell(isset, v))
         == if s.optional && !isset then [] else [12, 0, s.id] + Write(s.ty, v)
  {
    SmallId(s.id);
    assert [12] + [0, s.id] == [12, 0, s.id];
  }

  // The seven structs

  function OffsetBytes(o: OffsetOrSymbol): Bytes {
    (if o.hasOffset then [10, 0, 1] + I64Bytes(o.offset) else [])
    + ((if o.hasSymbol then [11, 0, 2] + Str(o.symbol) else []) + [0])
  }

  function RelBytes(r: RelAddr): Bytes {
    ([11, 0, 1] + Str(r.modulename)) + (([12, 0, 2] + OffsetBytes(r.offset)) + [0])
  }

  function AddrBytes(a: AbsOrRelAddr): Bytes {
    (if a.hasAbsaddr then [10, 0, 1] + I64Bytes(a.absaddr) else [])
    + ((if a.hasReladdr then [12, 0, 2] + RelBytes(a.reladdr) else []) + [0])
  }

  function BreakpointBytes(b: Breakpoint): Bytes {
    ([12, 0, 1] + AddrBytes(b.addr)) + (([10, 0, 2] + I64Bytes(b.count)) + [0])
  }

  function ModuleInfoBytes(m: ModuleInfo): Bytes {
    ([12, 0, 1] + RelBytes(m.addr)) + (([10, 0, 2] + I64Bytes(m.base)) + [0])
  }

  function CodeBlockBytes(c: CodeBlock): Bytes {
    ([10, 0, 1] + I64Bytes(c.addr)) + (([11, 0, 2] + Str(c.bytes))
    + ((if c.hasModuleinfo then [12, 0, 3] + ModuleInfoBytes(c.moduleinfo) else []) + [0]))
  }

  function ExceptionBytes(e: Exception): Bytes {
    ([11, 0, 1] + Str(e.msg)) + [0]
  }

  lemma OffsetWritten(o: OffsetOrSymbol)
    ensures Write(OFFSET_SCHEMA, OfOffset(o)) == OffsetBytes(o)
  {
    TwoFields(OFFSET_SLOT, SYMBOL_SLOT, OfOffset(o));
    LongField(OFFSET_SLOT, o.hasOffset, o.offset);
    TextField(SYMBOL_SLOT, o.hasSymbol, o.symbol);
  }

  lemma RelWritten(r: RelAddr)
    ensures Write(REL_SCHEMA, OfRel(r)) == RelBytes(r)
  {
    TwoFields(MODULENAME_SLOT, REL_OFFSET_SLOT, OfRel(r));
    TextField(MODULENAME_SLOT, r.hasModulename, r.modulename);
    StructField(REL_OFFSET_SLOT, r.hasOffset, OfOffset(r.offset));
    OffsetWritten(r.offset);
  }

  lemma AddrWritten(a: AbsOrRelAddr)
    ensures Write(ADDR_SCHEMA, OfAddr(a)) == AddrBytes(a)
  {
    TwoFields(ABSADDR_SLOT, RELADDR_SLOT, OfAddr(a));
    LongField(ABSADDR_SLOT, a.hasAbsaddr, a.absaddr);
    StructField(RELADDR_SLOT, a.hasReladdr, OfRel(a.reladdr));
    RelWritten(a.reladdr);
  }

  lemma BreakpointWritten(b: Breakpoint)
    ensures Write(BREAKPOINT_SCHEMA, OfBreakpoint(b)) == BreakpointBytes(b)
  {
    TwoFields(ADDR_SLOT, COUNT_SLOT, OfBreakpoint(b));
    StructField(ADDR_SLOT, b.hasAddr, OfAddr(b.addr));
    LongField(COUNT_SLOT, b.hasCount, b.count);
    AddrWritten(b.addr);
  }

  lemma ModuleInfoWritten(m: ModuleInfo)
    ensures Write(MODULEINFO_SCHEMA, OfModuleInfo(m)) == ModuleInfoBytes(m)
  {
    TwoFields(INFO_ADDR_SLOT, BASE_SLOT, OfModuleInfo(m));
    StructField(INFO_ADDR_SLOT, m.hasAddr, OfRel(m.addr));
    LongField(BASE_SLOT, m.hasBase, m.base);
    RelWritten(m.addr);
  }

  lemma CodeBlockWritten(c: CodeBlock)
    ensures Write(CODEBLOCK_SCHEMA, OfCodeBlock(c)) == CodeBlockBytes(c)
  {
    ThreeFields(BLOCK_ADDR_SLOT, BYTES_SLOT, MODULEINFO_SLOT, OfCodeBlock(c));
    LongField(BLOCK_ADDR_SLOT, c.hasAddr, c.addr);
    TextField(BYTES_SLOT, c.hasBytes, c.bytes);
    StructField(MODULEINFO_SLOT, c.hasModuleinfo, OfModuleInfo(c.moduleinfo));
    ModuleInfoWritten(c.moduleinfo);
  }

  lemma ExceptionWritten(e: Exception)
    ensures Write(EXCEPTION_SCHEMA, OfException(e)) == ExceptionBytes(e)
  {
    OneField(MSG_SLOT, OfException(e));
    TextField(MSG_SLOT, e.hasMsg, e.msg);
  }

  function BytesOf(x: Struct): Bytes {
    match x
    case AnOffset(o) => OffsetBytes(o)
    case ARel(r) => RelBytes(r)
    case AnAddr(a) => AddrBytes(a)
    case ABreakpoint(b) => BreakpointBytes(b)
    case AModuleInfo(m) => ModuleInfoBytes(m)
    case ACodeBlock(c) => CodeBlockBytes(c)
    case AnException(e) => ExceptionBytes(e)
  }

  /** Each of the seven structs is written as these bytes. */
  lemma StructBytes(x: Struct)
    ensures Write(SchemaOf(x), CellsOf(x)) == BytesOf(x)
  {
    match x
    case AnOffset(o) => OffsetWritten(o);
    case ARel(r) => RelWritten(r);
    case AnAddr(a) => AddrWritten(a);
    case ABreakpoint(b) => BreakpointWritten(b);
    case AModuleInfo(m) => ModuleInfoWritten(m);
    case ACodeBlock(c) => CodeBlockWritten(c);
    case AnException(e) => ExceptionWritten(e);
  }

  /** A breakpoint at an absolute address, with the digits of both numbers. */
  lemma AbsoluteBytes(b: Breakpoint, a: Bytes, c: Bytes)
    requires b.addr.hasAbsaddr && !b.addr.hasReladdr && |a| == |c| == 8
    requires Value(a) == b.addr.absaddr % 0x1_0000_0000_0000_0000 && Value(c) == b.count % 0x1_0000_0000_0000_0000
    ensures Write(BREAKPOINT_SCHEMA, OfBreakpoint(b)) == [12, 0, 1] + [10, 0, 1] + a + [0] + [10, 0, 2] + c + [0]
  {
    BreakpointWritten(b);
    NumberBytes(b.addr.absaddr, a);
    NumberBytes(b.count, c);
    Nested([12, 0, 1], [10, 0, 1], a, [10, 0, 2], c);
  }

  lemma Nested(s: Bytes, x: Bytes, a: Bytes, y: Bytes, c: Bytes)
    ensures (s + ((x + a) + ([] + [0]))) + ((y + c) + [0]) == s + x + a + [0] + y + c + [0]
  {
  }

  /** Codes no struct here uses are skipped by these widths; a list like a set. */
  lemma SkippedWidths(b: Bytes, p: nat)
    requires p <= |b|
    ensures forall code: Byte :: code in {2, 3} ==> Skip(code, b, p) == if p + 1 <= |b| then Some(p + 1) else None
    ensures Skip(6, b, p) == if p + 2 <= |b| then Some(p + 2) else None
    ensures Skip(8, b, p) == if p + 4 <= |b| then Some(p + 4) else None
    ensures forall code: Byte :: code in {4, 10} ==> Skip(code, b, p) == if p + 8 <= |b| then Some(p + 8) else None
    ensures Skip(15, b, p) == Skip(14, b, p)
    ensures forall code: Byte :: code !in {2, 3, 4, 6, 8, 10, 11, 12, 13, 14, 15} ==> Skip(code, b, p) == None
  {
  }
}
