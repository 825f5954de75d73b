/** `getBreakpoints` end to end: the server's set, its encoding, the client's set, and adding it back. */
module Snapshot {
  import opened Words
  import opened Types
  import opened Ordering
  import opened Ordered
  import opened Tables
  import opened Binary
  import opened Codec
  import opened Messages
  import opened Structs
  import opened Rpc
  import opened Transparency
  import opened Wire
  import opened Freshness
  import Evaluator
  import Resolve

  /** A set of breakpoints as the result of `getBreakpoints`. */
  function Values(s: seq<Breakpoint>): (v: Val)
    ensures HasType(TSet(BREAKPOINT_SCHEMA), v)
  {
    VSet(seq(|s|, i requires 0 <= i < |s| => OfBreakpoint(s[i])))
  }

  function Elements(v: Val): (r: seq<Breakpoint>)
    requires HasType(TSet(BREAKPOINT_SCHEMA), v)
    ensures |r| == |v.elems|
  {
    seq(|v.elems|, i requires 0 <= i < |v.elems| => ToBreakpoint(v.elems[i]))
  }

  /** The client's `std::set`, filled in the order of the elements on the wire. */
  function ClientSet(v: Val): seq<Breakpoint>
    requires HasType(TSet(BREAKPOINT_SCHEMA), v)
  {
    InsertAll(LessBreakpoint, [], Elements(v))
  }

  lemma AbsoluteReceived(x: I64)
    ensures ToAddr(Merge(ADDR_SCHEMA, Codec.Fresh(ADDR_SCHEMA), OfAddr(Resolve.Absolute(x)))) == Resolve.Absolute(x)
  {
    var v, init := OfAddr(Resolve.Absolute(x)), Codec.Fresh(ADDR_SCHEMA);
    TwoTyped(ABSADDR_SLOT, RELADDR_SLOT, v);
    TwoTyped(ABSADDR_SLOT, RELADDR_SLOT, init);
    var merged := Merge(ADDR_SCHEMA, init, v);
    assert merged.cells[0] == MergeCell(ABSADDR_SLOT, init.cells[0], v.cells[0]);
    assert merged.cells[1] == MergeCell(RELADDR_SLOT, init.cells[1], v.cells[1]);
    assert v.cells[1] == Cell(false, OfRel(NO_RELADDR));
    assert init.cells[1] == Cell(false, Codec.Fresh(REL_SCHEMA));
    FreshValues();
  }

  lemma ReportedReceived(addr: U64, count: U64)
    ensures ToBreakpoint(Merge(BREAKPOINT_SCHEMA, Codec.Fresh(BREAKPOINT_SCHEMA),
      OfBreakpoint(Reported(false, addr, count))))
         == Reported(true, addr, count)
  {
    var v, init := OfBreakpoint(Reported(false, addr, count)), Codec.Fresh(BREAKPOINT_SCHEMA);
    TwoTyped(ADDR_SLOT, COUNT_SLOT, v);
    TwoTyped(ADDR_SLOT, COUNT_SLOT, init);
    var merged := Merge(BREAKPOINT_SCHEMA, init, v);
    assert merged.cells[0] == MergeCell(ADDR_SLOT, init.cells[0], v.cells[0]);
    assert merged.cells[1] == MergeCell(COUNT_SLOT, init.cells[1], v.cells[1]);
    AbsoluteReceived(AsI64(addr));
  }

  lemma AbsoluteSizes(x: I64)
    ensures SizesFit(ADDR_SCHEMA, OfAddr(Resolve.Absolute(x)))
  {
    FreshSizes(ADDR_SCHEMA);
    var v, unset := OfAddr(Resolve.Absolute(x)), Codec.Fresh(ADDR_SCHEMA);
    TwoTyped(ABSADDR_SLOT, RELADDR_SLOT, v);
    TwoTyped(ABSADDR_SLOT, RELADDR_SLOT, unset);
    FreshValues();
    RelCells(NO_RELADDR, unset.cells[1].val);
    assert v.cells[1].val == unset.cells[1].val;
    TwoSizes(ABSADDR_SLOT, RELADDR_SLOT, unset);
    TwoSizes(ABSADDR_SLOT, RELADDR_SLOT, v);
  }

  lemma TwoSizes(s: Slot, t: Slot, v: Val)
    requires HasType(TStruct([s, t]), v)
    ensures |v.cells| == 2 && HasType(s.ty, v.cells[0].val) && HasType(t.ty, v.cells[1].val)
    ensures SizesFit(TStruct([s, t]), v) <==> SizesFit(s.ty, v.cells[0].val) && SizesFit(t.ty, v.cells[1].val)
  {
    TwoTyped(s, t, v);
    var ty := TStruct([s, t]);
    assert ty.slots[0] == s && ty.slots[1] == t;
    assert SizesFit(ty, v) <==> SizesFit(ty.slots[0].ty, v.cells[0].val) && SizesFit(ty.slots[1].ty, v.cells[1].val);
  }

  lemma ReportedSizes(addr: U64, count: U64)
    ensures SizesFit(BREAKPOINT_SCHEMA, OfBreakpoint(Reported(false, addr, count)))
  {
    AbsoluteSizes(AsI64(addr));
    TwoSizes(ADDR_SLOT, COUNT_SLOT, OfBreakpoint(Reported(false, addr, count)));
  }

  /** The set comes off the wire as it went on, but for the flags of required fields, which reading sets. */
  ghost predicate CameOver(s: seq<Breakpoint>, r: seq<Breakpoint>) {
    && |r| == |s|
    && forall i :: 0 <= i < |s| ==> s[i].addr.hasAbsaddr && r[i] == s[i].(hasAddr := true, hasCount := true)
  }

  lemma ElementCameOver(b: Breakpoint, active: map<U64, U64>)
    requires exists a :: a in active && b == Reported(false, a, active[a])
    ensures ToBreakpoint(Merge(BREAKPOINT_SCHEMA, Codec.Fresh(BREAKPOINT_SCHEMA), OfBreakpoint(b))) ==
      b.(hasAddr := true, hasCount := true)
    ensures SizesFit(BREAKPOINT_SCHEMA, OfBreakpoint(b)) && b.addr.hasAbsaddr
  {
    var a :| a in active && b == Reported(false, a, active[a]);
    ReportedReceived(a, active[a]);
    ReportedSizes(a, active[a]);
  }

  lemma SetCameOver(s: seq<Breakpoint>, active: map<U64, U64>)
    requires IsSnapshot(false, s, active) && |s| < MAX_SIZE
    ensures SizesFit(TSet(BREAKPOINT_SCHEMA), Values(s))
    ensures CameOver(s, Elements(Merge(TSet(BREAKPOINT_SCHEMA), VSet([]), Values(s))))
  {
    SetSizes(s, active);
    ElementsMerged(s);
    var r := Elements(Merge(TSet(BREAKPOINT_SCHEMA), VSet([]), Values(s)));
    forall i | 0 <= i < |s| ensures s[i].addr.hasAbsaddr && r[i] == s[i].(hasAddr := true, hasCount := true) {
      assert s[i] in s;
      ElementCameOver(s[i], active);
    }
  }

  lemma SetSizes(s: seq<Breakpoint>, active: map<U64, U64>)
    requires IsSnapshot(false, s, active) && |s| < MAX_SIZE
    ensures SizesFit(TSet(BREAKPOINT_SCHEMA), Values(s))
  {
    forall i | 0 <= i < |s| ensures SizesFit(BREAKPOINT_SCHEMA, OfBreakpoint(s[i])) {
      assert s[i] in s;
      ElementCameOver(s[i], active);
    }
  }

  lemma ElementsMerged(s: seq<Breakpoint>)
    ensures var r := Elements(Merge(TSet(BREAKPOINT_SCHEMA), VSet([]), Values(s)));
      |r| == |s| && forall i :: 0 <= i < |s| ==>
        r[i] == ToBreakpoint(Merge(BREAKPOINT_SCHEMA, Codec.Fresh(BREAKPOINT_SCHEMA), OfBreakpoint(s[i])))
  {
    var elems := Values(s).elems;
    forall i | 0 <= i < |s|
      ensures MergeElems(BREAKPOINT_SCHEMA, elems)[i] ==
        Merge(BREAKPOINT_SCHEMA, Codec.Fresh(BREAKPOINT_SCHEMA), elems[i])
    {
      MergeElemsAt(BREAKPOINT_SCHEMA, elems, i);
    }
  }

  /** What came over is again a sorted snapshot, so the client's set holds all of it. */
  lemma StillSnapshot(s: seq<Breakpoint>, r: seq<Breakpoint>, active: map<U64, U64>)
    requires Evaluator.SortedSnapshot(s, active) && CameOver(s, r)
    ensures IsSnapshot(true, r, active) && Sorted(LessBreakpoint, r) && Within(ProperBreakpoint, r)
    ensures forall i :: 0 <= i < |s| ==> EqBreakpoint(r[i], s[i])
  {
    forall a | a in active ensures Reported(true, a, active[a]) in r {
      var i :| 0 <= i < |s| && s[i] == Reported(false, a, active[a]);
      assert r[i] == Reported(true, a, active[a]);
    }
    forall b | b in r ensures exists a :: a in active && b == Reported(true, a, active[a]) {
      var i :| 0 <= i < |r| && r[i] == b;
      assert s[i] in s;
      var a :| a in active && s[i] == Reported(false, a, active[a]);
      assert b == Reported(true, a, active[a]);
    }
    forall i, j | 0 <= i < j < |r| ensures LessBreakpoint(r[i], r[j]) {
      assert LessBreakpoint(s[i], s[j]);
    }
  }

  lemma ClientSetIsElements(r: seq<Breakpoint>)
    requires Sorted(LessBreakpoint, r) && Within(ProperBreakpoint, r)
    ensures InsertAll(LessBreakpoint, [], r) == r
  {
    BreakpointOrder();
    assert [] + r == r;
    InsertAllSorted(LessBreakpoint, EqBreakpoint, ProperBreakpoint, [], r);
  }

  /** The client's set has one element for every active breakpoint, equal to the server's, and adding its elements in
      any order to tables with nothing active rebuilds the active table. */
  lemma ClientSetRestores(
      s: seq<Breakpoint>, active: map<U64, U64>, order: seq<Breakpoint>, mods: Resolve.Modules, d: seq<Entry>)
    requires Evaluator.SortedSnapshot(s, active) && |active| < MAX_SIZE
    ensures var got := ClientSet(Merge(TSet(BREAKPOINT_SCHEMA), VSet([]), Values(s)));
      && |got| == |active| && Sorted(LessBreakpoint, got) && (forall i :: 0 <= i < |s| ==> EqBreakpoint(got[i], s[i]))
      && (multiset(order) == multiset(got) ==> AddAll(Tables(map[], d), mods, order) == (Tables(active, d), None))
  {
    SetCameOver(s, active);
    var r := Elements(Merge(TSet(BREAKPOINT_SCHEMA), VSet([]), Values(s)));
    StillSnapshot(s, r, active);
    ClientSetIsElements(r);
    if multiset(order) == multiset(r) { SnapshotRestores(true, r, order, active, mods, d); }
  }

  /** What `getBreakpoints` yields arrives: the answer is the merge that `ClientSetRestores` is about, whatever it was
      read into. */
  lemma SnapshotReceived(
      m: Method, s: seq<Breakpoint>, active: map<U64, U64>, held: Val, seqid: I32, b: Bytes, p: nat, end: nat)
    requires m.success == Some(TSet(BREAKPOINT_SCHEMA)) && ValidMethod(m)
    requires Evaluator.SortedSnapshot(s, active) && |active| < MAX_SIZE && HasType(TSet(BREAKPOINT_SCHEMA), held)
    ensures Allowed(m, Returned(Values(s)))
    ensures Arrives(Reply(m, seqid, Returned(Values(s))), b, p, end) ==>
            Receive(m, held, b, p) == (Value(Merge(TSet(BREAKPOINT_SCHEMA), VSet([]), Values(s))), end)
  {
    SetCameOver(s, active);
    if Arrives(Reply(m, seqid, Returned(Values(s))), b, p, end) {
      ReplyReceived(m, held, seqid, Returned(Values(s)), b, p, end);
    }
  }
}
