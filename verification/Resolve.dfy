/** Resolution of an absolute or module-relative address against the loaded modules. */
module Resolve {
  import opened Words
  import opened Types

  /** A loaded module; `symbols` is what `dr_get_proc_address` answers, 0 standing for its null pointer. */
  datatype Module = Module(start: U64, end: U64, symbols: map<Bytes, U64>)

  /** Loaded modules by their preferred names, which are unique C strings. */
  type Modules = m: map<Bytes, Module> | forall n :: n in m ==> 0 !in n witness map[]

  /** The exceptions `assert_helper` throws, and the `std::length_error` of a string copied from a negative range. */
  datatype Fault =
    | NoSuchSymbol(symbol: Bytes, modulename: Bytes) | NeitherOffsetNorSymbol | NeitherAbsoluteNorRelative
    | AlreadyExists | NotFound | ExpectedRelative | NotSuspended | NoStoppedContext | NoStoppedBlock
    | LengthError

  datatype Resolution = Address(addr: U64) | ModuleNotLoaded | Throws(fault: Fault)

  function Target(m: Module, rel: RelAddr): Resolution {
    if rel.offset.hasOffset then Address(AsU64(m.start + rel.offset.offset))
    else if rel.offset.hasSymbol then
      var s := CStr(rel.offset.symbol);
      if s in m.symbols && m.symbols[s] != 0 then Address(m.symbols[s])
      else Throws(NoSuchSymbol(rel.offset.symbol, rel.modulename))
    else Throws(NeitherOffsetNorSymbol)
  }

  /** `AbsOrRelAddr_to_AbsAddr`. */
  function ToAbsAddr(mods: Modules, a: AbsOrRelAddr): Resolution {
    if a.hasAbsaddr then Address(AsU64(a.absaddr))
    else if a.hasReladdr then
      var name := CStr(a.reladdr.modulename);
      if name in mods then Target(mods[name], a.reladdr) else ModuleNotLoaded
    else Throws(NeitherAbsoluteNorRelative)
  }

  function Relative(rel: RelAddr): AbsOrRelAddr {
    AbsOrRelAddr(false, 0, true, rel)
  }

  function Absolute(addr: I64): AbsOrRelAddr {
    AbsOrRelAddr(true, addr, false, NO_RELADDR)
  }

  /** What `getCodeBlock` reports of a block: `first` and its module as signed words, their difference as offset. */
  function LocateBlock(name: Bytes, m: Module, first: U64): ModuleInfo {
    var base := AsI64(m.start);
    var offset := OffsetOrSymbol(true, AsI64(AsI64(first) - base), false, []);
    ModuleInfo(false, RelAddr(false, name, false, offset), false, base)
  }

  /** Resolving the relative address reported for a block, or its absolute one, gives back the block, in every half of
      the address space. */
  lemma LocateThenResolve(mods: Modules, name: Bytes, first: U64)
    requires name in mods
    ensures ToAbsAddr(mods, Relative(LocateBlock(name, mods[name], first).addr)) == Address(first)
    ensures ToAbsAddr(mods, Absolute(AsI64(first))) == Address(first)
  {
    var m := mods[name];
    assert CStr(name) == name;
    UnsignedOfSigned(first);
    var d := AsI64(first) - AsI64(m.start);
    UnsignedOfSigned(d);
    ModAdd(m.start, AsI64(d), first);
  }

  lemma ModAdd(start: U64, off: I64, first: U64)
    requires AsU64(off) == AsU64(AsI64(first) - AsI64(start))
    ensures AsU64(start + off) == first
  {
    var d := AsI64(first) - AsI64(start);
    var q := off / TWO64 - d / TWO64;
    SameResidue(off, d);
    SignedTurn(first);
    SignedTurn(start);
    WholeTurns(first, if d == first - start then q else if d < first - start then q - 1 else q + 1);
  }

  lemma SameResidue(a: int, b: int)
    requires AsU64(a) == AsU64(b)
    ensures a == b + (a / TWO64 - b / TWO64) * TWO64
  {
  }

  lemma SignedTurn(u: U64)
    ensures AsI64(u) == u || AsI64(u) == u - TWO64
  {
  }

  lemma WholeTurns(x: U64, k: int)
    ensures AsU64(x + k * TWO64) == x
  {
  }

  /** Equal addresses resolve alike, whatever their unset fields hold. */
  lemma EqualResolveAlike(mods: Modules, a: AbsOrRelAddr, b: AbsOrRelAddr)
    requires EqAddr(a, b)
    ensures ToAbsAddr(mods, a) == ToAbsAddr(mods, b)
  {
  }

  /** A relative address resolves in a module it does not name exactly if its name has a NUL behind the name of a
      loaded module. */
  lemma ResolvesElsewhereExactly(mods: Modules, rel: RelAddr)
    ensures !ToAbsAddr(mods, Relative(rel)).ModuleNotLoaded? && rel.modulename !in mods <==>
            0 in rel.modulename && CStr(rel.modulename) in mods
  {
  }

  /** The lookup sees names up to their first NUL, so a longer name resolves in a module it does not name. */
  lemma NulInNameResolvesElsewhere()
    ensures exists mods: Modules, rel: RelAddr ::
      rel.modulename !in mods && ToAbsAddr(mods, Relative(rel)).Address?
  {
    var m := Module(0x1000, 0x2000, map[]);
    var mods: Modules := map[[102] := m];
    var rel := RelAddr(true, [102, 0], true, OffsetOrSymbol(true, 1, false, []));
    assert CStr([102, 0]) == [102] by {
      assert [102, 0][1..] == [0];
    }
    assert ToAbsAddr(mods, Relative(rel)).Address?;
  }
}
