/** The wire structs, with their `__isset` flags, and the comparison operators declared on them. */
module Types {
  import opened Words

  datatype OffsetOrSymbol = OffsetOrSymbol(hasOffset: bool, offset: I64, hasSymbol: bool, symbol: Bytes)
  datatype RelAddr = RelAddr(hasModulename: bool, modulename: Bytes, hasOffset: bool, offset: OffsetOrSymbol)
  datatype AbsOrRelAddr = AbsOrRelAddr(hasAbsaddr: bool, absaddr: I64, hasReladdr: bool, reladdr: RelAddr)
  datatype Breakpoint = Breakpoint(hasAddr: bool, addr: AbsOrRelAddr, hasCount: bool, count: I64)
  datatype ModuleInfo = ModuleInfo(hasAddr: bool, addr: RelAddr, hasBase: bool, base: I64)
  datatype CodeBlock = CodeBlock(hasAddr: bool, addr: I64, hasBytes: bool, bytes: Bytes,
                                 hasModuleinfo: bool, moduleinfo: ModuleInfo)

  /** `EventType::type` is a C++ enum filled by a cast from any 32-bit integer. */
  type EventType = I32
  const BREAKPOINT: EventType := 0
  const RELEVANT_BLOCK: EventType := 3

  // What the default constructors build.
  const NO_OFFSET := OffsetOrSymbol(false, 0, false, [])
  const NO_RELADDR := RelAddr(false, [], false, NO_OFFSET)
  const NO_ADDR := AbsOrRelAddr(false, 0, false, NO_RELADDR)
  const NO_MODULEINFO := ModuleInfo(false, NO_RELADDR, false, 0)

  // operator==: optional fields compare with their flags, the other fields without.

  predicate EqOffset(a: OffsetOrSymbol, b: OffsetOrSymbol) {
    && a.hasOffset == b.hasOffset && (a.hasOffset ==> a.offset == b.offset)
    && a.hasSymbol == b.hasSymbol && (a.hasSymbol ==> a.symbol == b.symbol)
  }

  predicate EqRel(a: RelAddr, b: RelAddr) {
    a.modulename == b.modulename && EqOffset(a.offset, b.offset)
  }

  predicate EqAddr(a: AbsOrRelAddr, b: AbsOrRelAddr) {
    && a.hasAbsaddr == b.hasAbsaddr && (a.hasAbsaddr ==> a.absaddr == b.absaddr)
    && a.hasReladdr == b.hasReladdr && (a.hasReladdr ==> EqRel(a.reladdr, b.reladdr))
  }

  predicate EqBreakpoint(a: Breakpoint, b: Breakpoint) {
    EqAddr(a.addr, b.addr) && a.count == b.count
  }

  predicate EqModuleInfo(a: ModuleInfo, b: ModuleInfo) {
    EqRel(a.addr, b.addr) && a.base == b.base
  }

  predicate EqCodeBlock(a: CodeBlock, b: CodeBlock) {
    && a.addr == b.addr && a.bytes == b.bytes
    && a.hasModuleinfo == b.hasModuleinfo && (a.hasModuleinfo ==> EqModuleInfo(a.moduleinfo, b.moduleinfo))
  }

  /** `std::string` order: bytes compare unsigned, a proper prefix comes first. */
  predicate StrLess(a: Bytes, b: Bytes) {
    b != [] && (a == [] || a[0] < b[0] || (a[0] == b[0] && StrLess(a[1..], b[1..])))
  }

  // operator<: the fields themselves compare, whether set or not, but a nested struct is
  // looked into only when its operator!= holds.

  predicate LessOffset(a: OffsetOrSymbol, b: OffsetOrSymbol) {
    if a.offset != b.offset then a.offset < b.offset
    else if a.symbol != b.symbol then StrLess(a.symbol, b.symbol)
    else false
  }

  predicate LessRel(a: RelAddr, b: RelAddr) {
    if a.modulename != b.modulename then StrLess(a.modulename, b.modulename)
    else if !EqOffset(a.offset, b.offset) then LessOffset(a.offset, b.offset)
    else false
  }

  predicate LessAddr(a: AbsOrRelAddr, b: AbsOrRelAddr) {
    if a.absaddr != b.absaddr then a.absaddr < b.absaddr
    else if !EqRel(a.reladdr, b.reladdr) then LessRel(a.reladdr, b.reladdr)
    else false
  }

  predicate LessBreakpoint(a: Breakpoint, b: Breakpoint) {
    if !EqAddr(a.addr, b.addr) then LessAddr(a.addr, b.addr)
    else if a.count != b.count then a.count < b.count
    else false
  }
}
