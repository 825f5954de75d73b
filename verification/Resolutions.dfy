/** Which place each kind of address names, told by its bytes and numbers, and what adding and deleting there do. */
module Resolutions {
  import opened Words
  import opened Types
  import opened Resolve
  import opened Tables

  /** `p` is what a C function sees of `s`. */
  predicate Shows(p: Bytes, s: Bytes) {
    p <= s && 0 !in p && (p == s || s[|p|] == 0)
  }

  lemma {:induction false} ShownIsCStr(p: Bytes, s: Bytes)
    requires Shows(p, s)
    ensures CStr(s) == p
    decreases |p|
  {
    if p != [] {
      assert s[0] == p[0] && p[0] in p;
      assert forall x :: x in p[1..] ==> x in p;
      ShownIsCStr(p[1..], s[1..]);
      assert p == [p[0]] + p[1..];
    }
  }

  /** The same number in 64 bits. */
  predicate Same64(a: U64, x: int) {
    (x - a) % 0x1_0000_0000_0000_0000 == 0
  }

  lemma SameIsUnsigned(a: U64, x: int)
    requires Same64(a, x)
    ensures AsU64(x) == a
  {
    assert x == a + (x - a) / TWO64 * TWO64;
  }

  // Where an address lies

  predicate InModule(mods: Modules, addr: AbsOrRelAddr, name: Bytes) {
    !addr.hasAbsaddr && addr.hasReladdr && Shows(name, addr.reladdr.modulename) && name in mods
  }

  /** An absolute address decides, whatever else is set. */
  lemma AbsoluteResolves(mods: Modules, addr: AbsOrRelAddr, a: U64)
    requires addr.hasAbsaddr && Same64(a, addr.absaddr)
    ensures ToAbsAddr(mods, addr) == Address(a)
  {
    SameIsUnsigned(a, addr.absaddr);
  }

  /** In a loaded module a set offset decides, whatever symbol is set: it is counted from the start of the module. */
  lemma OffsetResolves(mods: Modules, addr: AbsOrRelAddr, name: Bytes, a: U64)
    requires InModule(mods, addr, name) && addr.reladdr.offset.hasOffset
    requires Same64(a, mods[name].start + addr.reladdr.offset.offset)
    ensures ToAbsAddr(mods, addr) == Address(a)
  {
    ShownIsCStr(name, addr.reladdr.modulename);
    SameIsUnsigned(a, mods[name].start + addr.reladdr.offset.offset);
  }

  /** A symbol is where the module's table says, if there is one. */
  lemma SymbolResolves(mods: Modules, addr: AbsOrRelAddr, name: Bytes, symbol: Bytes)
    requires InModule(mods, addr, name) && !addr.reladdr.offset.hasOffset && addr.reladdr.offset.hasSymbol
    requires Shows(symbol, addr.reladdr.offset.symbol)
    ensures var r, symbols := ToAbsAddr(mods, addr), mods[name].symbols;
      if symbol in symbols && symbols[symbol] != 0 then r == Address(symbols[symbol])
      else r == Throws(NoSuchSymbol(addr.reladdr.offset.symbol, addr.reladdr.modulename))
  {
    ShownIsCStr(name, addr.reladdr.modulename);
    ShownIsCStr(symbol, addr.reladdr.offset.symbol);
  }

  /** All other addresses: a module that is not loaded, or nothing set. */
  lemma OtherResolves(mods: Modules, addr: AbsOrRelAddr, name: Bytes)
    requires !addr.hasAbsaddr && Shows(name, addr.reladdr.modulename)
    ensures addr.hasReladdr && name !in mods ==> ToAbsAddr(mods, addr) == ModuleNotLoaded
    ensures !addr.hasReladdr ==> ToAbsAddr(mods, addr) == Throws(NeitherAbsoluteNorRelative)
    ensures addr.hasReladdr && name in mods && !addr.reladdr.offset.hasOffset && !addr.reladdr.offset.hasSymbol ==>
              ToAbsAddr(mods, addr) == Throws(NeitherOffsetNorSymbol)
  {
    ShownIsCStr(name, addr.reladdr.modulename);
  }

  // What the operations do there

  /** At a resolved address an addition sets the count, unless one that is not zero is there, and a deletion removes
      it; nothing else changes. */
  lemma AtAddress(t: Tables, mods: Modules, bp: Breakpoint, a: U64, count: U64)
    requires ToAbsAddr(mods, bp.addr) == Address(a) && Same64(count, bp.count)
    ensures Add(t, mods, bp) ==
      if a !in t.active || t.active[a] == 0 then (Tables(t.active[a := count], t.deferred), None)
      else (t, Some(AlreadyExists))
    ensures Delete(t, mods, bp) ==
      if a in t.active then (Tables(t.active - {a}, t.deferred), None)
      else (t, Some(NotFound))
  {
    SameIsUnsigned(count, bp.count);
  }

  /** An address that cannot be resolved throws from both, and leaves the tables. */
  lemma AtFault(t: Tables, mods: Modules, bp: Breakpoint, f: Fault)
    requires ToAbsAddr(mods, bp.addr) == Throws(f)
    ensures Add(t, mods, bp) == (t, Some(f)) && Delete(t, mods, bp) == (t, Some(f))
  {
  }

  /** Adding at a symbol and deleting at the address the module has for it restores the tables. */
  lemma AddSymbolDeleteAbsolute(
      t: Tables, mods: Modules, name: Bytes, rel: RelAddr, symbol: Bytes, count: I64, ignored: I64)
    requires InModule(mods, Relative(rel), name) && !rel.offset.hasOffset && rel.offset.hasSymbol
    requires Shows(symbol, rel.offset.symbol) && symbol in mods[name].symbols && mods[name].symbols[symbol] != 0
    requires mods[name].symbols[symbol] !in t.active
    ensures var x := mods[name].symbols[symbol];
            var add := Breakpoint(true, Relative(rel), true, count);
            var del := Breakpoint(true, Absolute(AsI64(x)), true, ignored);
      && Add(t, mods, add) == (t.(active := t.active[x := AsU64(count)]), None)
      && Delete(Add(t, mods, add).0, mods, del) == (t, None)
  {
    SymbolResolves(mods, Relative(rel), name, symbol);
    var x := mods[name].symbols[symbol];
    UnsignedOfSigned(x);
    assert t.active[x := AsU64(count)] - {x} == t.active;
  }

  /** A symbol the module does not have throws from both operations, which leave the tables. */
  lemma MissingSymbolThrows(t: Tables, mods: Modules, name: Bytes, bp: Breakpoint, symbol: Bytes)
    requires InModule(mods, bp.addr, name)
    requires !bp.addr.reladdr.offset.hasOffset && bp.addr.reladdr.offset.hasSymbol
    requires Shows(symbol, bp.addr.reladdr.offset.symbol)
    requires symbol !in mods[name].symbols || mods[name].symbols[symbol] == 0
    ensures var f := NoSuchSymbol(bp.addr.reladdr.offset.symbol, bp.addr.reladdr.modulename);
      Add(t, mods, bp) == (t, Some(f)) && Delete(t, mods, bp) == (t, Some(f))
  {
    SymbolResolves(mods, bp.addr, name, symbol);
  }

  /** The base reported for a block is the start of its module, and base and offset together are the block. */
  lemma BaseAndOffset(name: Bytes, m: Module, first: U64)
    ensures var info := LocateBlock(name, m, first);
      && info.addr.modulename == name && info.addr.offset.hasOffset && !info.addr.offset.hasSymbol
      && Same64(m.start, info.base) && Same64(first, info.base + info.addr.offset.offset)
  {
    var info := LocateBlock(name, m, first);
    Congruent(m.start);
    Congruent(first);
    Congruent(AsI64(first) - AsI64(m.start));
    var x, y, z := (AsI64(m.start) - m.start) / TWO64, (AsI64(first) - first) / TWO64,
                   (info.addr.offset.offset - (AsI64(first) - AsI64(m.start))) / TWO64;
    assert info.base + info.addr.offset.offset - first == (y + z) * TWO64;
  }

  lemma Congruent(x: int)
    ensures (AsI64(x) - x) % TWO64 == 0
  {
    assert x == x % TWO64 + x / TWO64 * TWO64;
    var k := -(x / TWO64) - (if x % TWO64 < TWO63 then 0 else 1);
    assert AsI64(x) - x == k * TWO64;
  }
}
