/** On which values the four hand-written `operator<` are the strict orders `std::map` and `std::set` demand. */
module Ordering {
  import opened Words
  import opened Types

  // Values as a reader leaves them: an unset optional field holds its default.

  predicate FreshOffset(o: OffsetOrSymbol) {
    (!o.hasOffset ==> o.offset == 0) && (!o.hasSymbol ==> o.symbol == [])
  }

  predicate FreshRel(r: RelAddr) {
    FreshOffset(r.offset)
  }

  predicate FreshAddr(a: AbsOrRelAddr) {
    && (!a.hasAbsaddr ==> a.absaddr == 0)
    && (!a.hasReladdr ==> a.reladdr.modulename == [] && a.reladdr.offset == NO_OFFSET)
    && FreshRel(a.reladdr)
  }

  predicate FreshBreakpoint(b: Breakpoint) {
    FreshAddr(b.addr)
  }

  // Values as the interface file asks for them: exactly one alternative set, names not empty.

  predicate ProperOffset(o: OffsetOrSymbol) {
    FreshOffset(o) && o.hasOffset != o.hasSymbol && (o.hasSymbol ==> o.symbol != [])
  }

  predicate ProperRel(r: RelAddr) {
    r.modulename != [] && ProperOffset(r.offset)
  }

  predicate ProperAddr(a: AbsOrRelAddr) {
    FreshAddr(a) && a.hasAbsaddr != a.hasReladdr && (a.hasReladdr ==> ProperRel(a.reladdr))
  }

  predicate ProperBreakpoint(b: Breakpoint) {
    ProperAddr(b.addr)
  }

  // The same stored fields, whatever the flags.

  predicate SameOffset(a: OffsetOrSymbol, b: OffsetOrSymbol) {
    a.offset == b.offset && a.symbol == b.symbol
  }

  predicate SameRel(a: RelAddr, b: RelAddr) {
    a.modulename == b.modulename && SameOffset(a.offset, b.offset)
  }

  predicate SameAddr(a: AbsOrRelAddr, b: AbsOrRelAddr) {
    a.absaddr == b.absaddr && SameRel(a.reladdr, b.reladdr)
  }

  ghost predicate Irreflexive<T(!new)>(less: (T, T) -> bool, dom: T -> bool) {
    forall x :: dom(x) ==> !less(x, x)
  }

  ghost predicate Transitive<T(!new)>(less: (T, T) -> bool, dom: T -> bool) {
    forall x, y, z :: dom(x) && dom(y) && dom(z) && less(x, y) && less(y, z) ==> less(x, z)
  }

  /** Two values of the domain are incomparable exactly when `eq` holds of them. */
  ghost predicate Trichotomous<T(!new)>(less: (T, T) -> bool, eq: (T, T) -> bool, dom: T -> bool) {
    forall x, y :: dom(x) && dom(y) ==> (eq(x, y) <==> !less(x, y) && !less(y, x))
  }

  ghost predicate StrictTotalOrder<T(!new)>(less: (T, T) -> bool, eq: (T, T) -> bool, dom: T -> bool) {
    Irreflexive(less, dom) && Transitive(less, dom) && Trichotomous(less, eq, dom)
  }

  lemma {:induction false} StrIrreflexive(a: Bytes)
    ensures !StrLess(a, a)
  {
    if a != [] { StrIrreflexive(a[1..]); }
  }

  lemma {:induction false} StrTransitive(a: Bytes, b: Bytes, c: Bytes)
    requires StrLess(a, b) && StrLess(b, c)
    ensures StrLess(a, c)
  {
    if a != [] && a[0] == b[0] && b[0] == c[0] { StrTransitive(a[1..], b[1..], c[1..]); }
  }

  lemma {:induction false} StrTotal(a: Bytes, b: Bytes)
    ensures a == b || StrLess(a, b) || StrLess(b, a)
  {
    if a != [] && b != [] && a[0] == b[0] {
      StrTotal(a[1..], b[1..]);
      assert a == [a[0]] + a[1..] && b == [b[0]] + b[1..];
    }
  }

  lemma StrOrder()
    ensures StrictTotalOrder(StrLess, (a, b) => a == b, (s: Bytes) => true)
  {
    forall a: Bytes, b: Bytes, c: Bytes
      ensures !StrLess(a, a)
      ensures StrLess(a, b) && StrLess(b, c) ==> StrLess(a, c)
      ensures a == b <==> !StrLess(a, b) && !StrLess(b, a)
    {
      StrIrreflexive(a);
      StrTotal(a, b);
      if StrLess(a, b) && StrLess(b, c) { StrTransitive(a, b, c); }
    }
  }

  /** `OffsetOrSymbol::operator<` looks at the stored fields only, so it is strict and transitive on all values. */
  lemma OffsetOrder()
    ensures StrictTotalOrder(LessOffset, SameOffset, (o: OffsetOrSymbol) => true)
    ensures StrictTotalOrder(LessOffset, EqOffset, ProperOffset)
  {
    StrOrder();
  }

  /** Keys of the deferred table: on values a reader yields the order is a strict weak one. */
  lemma RelOrder()
    ensures StrictTotalOrder(LessRel, SameRel, FreshRel)
    ensures StrictTotalOrder(LessRel, EqRel, ProperRel)
  {
    StrOrder();
    OffsetOrder();
  }

  lemma AddrOrder()
    ensures StrictTotalOrder(LessAddr, SameAddr, FreshAddr)
    ensures StrictTotalOrder(LessAddr, EqAddr, ProperAddr)
  {
    RelOrder();
  }

  lemma BreakpointOrder()
    ensures Irreflexive(LessBreakpoint, FreshBreakpoint) && Transitive(LessBreakpoint, FreshBreakpoint)
    ensures StrictTotalOrder(LessBreakpoint, EqBreakpoint, ProperBreakpoint)
  {
    AddrOrder();
  }

  /** The flags `operator==` looks at. */
  predicate SameFlags(a: AbsOrRelAddr, b: AbsOrRelAddr) {
    && a.hasAbsaddr == b.hasAbsaddr && a.hasReladdr == b.hasReladdr
    && a.reladdr.offset.hasOffset == b.reladdr.offset.hasOffset
    && a.reladdr.offset.hasSymbol == b.reladdr.offset.hasSymbol
  }

  /** The same stored address under different flags. */
  predicate Clash(a: Breakpoint, b: Breakpoint) {
    SameAddr(a.addr, b.addr) && !SameFlags(a.addr, b.addr)
  }

  /** On values a reader yields, `<` and `==` of breakpoints agree exactly when equal stored addresses carry equal
      flags. */
  lemma BreakpointOrderAgreesExactly(a: Breakpoint, b: Breakpoint)
    requires FreshBreakpoint(a) && FreshBreakpoint(b)
    ensures (EqBreakpoint(a, b) <==> !LessBreakpoint(a, b) && !LessBreakpoint(b, a)) <==> !Clash(a, b)
  {
    AddrOrder();
    BreakpointOrder();
  }

  /** So a domain of such values is strictly and totally ordered, in agreement with `==`, exactly if no two of them
      have the same stored address under different flags; how many alternatives are set does not matter. */
  lemma BreakpointOrderExactly(dom: Breakpoint -> bool)
    requires forall b :: dom(b) ==> FreshBreakpoint(b)
    ensures StrictTotalOrder(LessBreakpoint, EqBreakpoint, dom) <==> forall a, b :: dom(a) && dom(b) ==> !Clash(a, b)
  {
    BreakpointOrder();
    forall a, b | dom(a) && dom(b)
      ensures (EqBreakpoint(a, b) <==> !LessBreakpoint(a, b) && !LessBreakpoint(b, a)) <==> !Clash(a, b)
    {
      BreakpointOrderAgreesExactly(a, b);
    }
  }

  /** Any two that do clash have a third with which incomparability is not transitive: no `std::set` is sound on all
      three. */
  lemma ClashBreaksSets(a: Breakpoint, b: Breakpoint) returns (c: Breakpoint)
    requires FreshBreakpoint(a) && FreshBreakpoint(b) && Clash(a, b)
    ensures FreshBreakpoint(c)
    ensures !LessBreakpoint(a, b) && !LessBreakpoint(b, a) && !LessBreakpoint(b, c) && !LessBreakpoint(c, b)
    ensures LessBreakpoint(a, c) || LessBreakpoint(c, a)
  {
    c := a.(count := if a.count == 0 then 1 else 0);
    AddrOrder();
    assert SameRel(a.addr.reladdr, b.addr.reladdr);
  }

  /** A key with a stale value spoils the order of `RelAddr`: it can join the values a reader yields exactly if it is
      one of them. */
  lemma RelOrderExactly(r: RelAddr)
    ensures StrictTotalOrder(LessRel, SameRel, (x: RelAddr) => FreshRel(x) || x == r) <==> FreshRel(r)
  {
    var dom := (x: RelAddr) => FreshRel(x) || x == r;
    RelOrder();
    if FreshRel(r) {
      assert forall x :: dom(x) <==> FreshRel(x);
    } else {
      var o := r.offset;
      var clean := r.(offset := OffsetOrSymbol(o.hasOffset, if o.hasOffset then o.offset else 0,
                                               o.hasSymbol, if o.hasSymbol then o.symbol else []));
      assert dom(r) && dom(clean) && EqOffset(r.offset, clean.offset);
      assert !SameRel(r, clean) && !LessRel(r, clean) && !LessRel(clean, r);
    }
  }

  /** With stale values under unset flags the order of `RelAddr` is not even transitive. */
  lemma RelOrderNeedsFresh()
    ensures !Transitive(LessRel, (r: RelAddr) => true)
  {
    var a := RelAddr(true, [1], true, OffsetOrSymbol(false, 1, true, [7]));
    var b := RelAddr(true, [1], true, OffsetOrSymbol(true, 2, false, []));
    var c := RelAddr(true, [1], true, OffsetOrSymbol(false, 3, true, [7]));
    assert LessRel(a, b) && LessRel(b, c) && !LessRel(a, c);
    var dom := (r: RelAddr) => true;
    assert dom(a) && dom(b) && dom(c);
  }

  /** On fresh but not proper breakpoints, incomparability is not transitive: a `std::set` of them is not sound. */
  lemma BreakpointOrderNeedsProper()
    ensures exists x, y, z: Breakpoint ::
      && FreshBreakpoint(x) && FreshBreakpoint(y) && FreshBreakpoint(z)
      && !LessBreakpoint(x, y) && !LessBreakpoint(y, x) && !LessBreakpoint(y, z) && !LessBreakpoint(z, y)
      && LessBreakpoint(x, z)
  {
    var zero := NO_ADDR.(hasAbsaddr := true);
    var x, y, z := Breakpoint(true, zero, true, 1), Breakpoint(true, NO_ADDR, true, 2), Breakpoint(true, zero, true, 3);
    assert LessBreakpoint(x, z) && !LessBreakpoint(x, y) && !LessBreakpoint(y, z);
    assert !LessBreakpoint(y, x) && !LessBreakpoint(z, y);
  }
}
