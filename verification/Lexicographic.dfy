/** What the four `operator<` order by: the stored fields, one after the other, smaller ones first. */
module Lexicographic {
  import opened Words
  import opened Types
  import opened Ordering
  import opened Ordered
  import opened Tables
  import Evaluator

  /** The first difference decides: where `a` has ended, or has the smaller number. */
  ghost predicate SeqLess(a: seq<int>, b: seq<int>) {
    exists n :: DiffersAt(a, b, n)
  }

  predicate DiffersAt(a: seq<int>, b: seq<int>, n: nat) {
    n <= |a| && n < |b| && a[..n] == b[..n] && (n == |a| || a[n] < b[n])
  }

  lemma {:induction false} StrLessExactly(a: Bytes, b: Bytes)
    ensures StrLess(a, b) <==> SeqLess(a, b)
  {
    if a == [] || b == [] || a[0] != b[0] {
      if StrLess(a, b) { assert DiffersAt(a, b, 0); }
      if n: nat :| DiffersAt(a, b, n) {
        assert n == 0;
      }
    } else {
      StrLessExactly(a[1..], b[1..]);
      if n: nat :| DiffersAt(a[1..], b[1..], n) {
        assert a[..n + 1] == [a[0]] + a[1..][..n] && b[..n + 1] == [b[0]] + b[1..][..n];
        assert DiffersAt(a, b, n + 1);
      }
      if n: nat :| DiffersAt(a, b, n) {
        assert a[1..][..n - 1] == a[..n][1..] && b[1..][..n - 1] == b[..n][1..];
        assert DiffersAt(a[1..], b[1..], n - 1);
      }
    }
  }

  /** A proper prefix comes first. */
  lemma PrefixFirst(a: Bytes, b: Bytes)
    requires a < b
    ensures StrLess(a, b) && !StrLess(b, a)
  {
    assert DiffersAt(a, b, |a|);
    StrLessExactly(a, b);
    StrIrreflexive(a);
    if StrLess(b, a) { StrTransitive(a, b, a); }
  }

  /** The same for lists of fields. */
  ghost predicate LexLess(x: seq<seq<int>>, y: seq<seq<int>>) {
    exists k :: FirstAt(x, y, k)
  }

  ghost predicate FirstAt(x: seq<seq<int>>, y: seq<seq<int>>, k: nat) {
    k < |x| && k < |y| && x[..k] == y[..k] && SeqLess(x[k], y[k])
  }

  lemma LexTail(x: seq<seq<int>>, y: seq<seq<int>>)
    requires x != [] && y != []
    ensures LexLess(x, y) <==> SeqLess(x[0], y[0]) || (x[0] == y[0] && LexLess(x[1..], y[1..]))
  {
    if SeqLess(x[0], y[0]) { assert FirstAt(x, y, 0); }
    if x[0] == y[0] {
      if k: nat :| FirstAt(x[1..], y[1..], k) {
        assert x[..k + 1] == [x[0]] + x[1..][..k] && y[..k + 1] == [y[0]] + y[1..][..k];
        assert FirstAt(x, y, k + 1);
      }
    }
    if k: nat :| FirstAt(x, y, k) {
      if k > 0 {
        assert x[..k][0] == y[..k][0];
        assert x[1..][..k - 1] == x[..k][1..] && y[1..][..k - 1] == y[..k][1..];
        assert FirstAt(x[1..], y[1..], k - 1);
      }
    }
  }

  lemma NumberLess(m: int, n: int)
    ensures SeqLess([m], [n]) <==> m < n
  {
    if m < n { assert DiffersAt([m], [n], 0); }
  }

  lemma NeverLess(a: seq<int>)
    ensures !SeqLess(a, a)
  {
  }

  function OffsetFields(o: OffsetOrSymbol): seq<seq<int>> {
    [[o.offset], o.symbol]
  }

  function RelFields(r: RelAddr): seq<seq<int>> {
    [r.modulename] + OffsetFields(r.offset)
  }

  function AddrFields(a: AbsOrRelAddr): seq<seq<int>> {
    [[a.absaddr]] + RelFields(a.reladdr)
  }

  lemma EmptyLess()
    ensures !LexLess([], [])
  {
  }

  /** On all values the offset decides, then the symbol. */
  lemma OffsetLexicographic(a: OffsetOrSymbol, b: OffsetOrSymbol)
    ensures LessOffset(a, b) <==> LexLess(OffsetFields(a), OffsetFields(b))
  {
    var x, y := OffsetFields(a), OffsetFields(b);
    LexTail(x, y);
    LexTail(x[1..], y[1..]);
    assert x[1..] == [a.symbol] && y[1..] == [b.symbol] && x[1..][1..] == [] && y[1..][1..] == [];
    EmptyLess();
    NumberLess(a.offset, b.offset);
    StrLessExactly(a.symbol, b.symbol);
    StrIrreflexive(a.symbol);
  }

  /** On values a reader yields: the module name, then those. */
  lemma RelLexicographic(a: RelAddr, b: RelAddr)
    requires FreshRel(a) && FreshRel(b)
    ensures LessRel(a, b) <==> LexLess(RelFields(a), RelFields(b))
  {
    var x, y := RelFields(a), RelFields(b);
    LexTail(x, y);
    assert x[1..] == OffsetFields(a.offset) && y[1..] == OffsetFields(b.offset);
    OffsetLexicographic(a.offset, b.offset);
    StrLessExactly(a.modulename, b.modulename);
    StrIrreflexive(a.modulename);
    OffsetOrder();
  }

  /** The absolute address, as a signed number, then the relative one. */
  lemma AddrLexicographic(a: AbsOrRelAddr, b: AbsOrRelAddr)
    requires FreshAddr(a) && FreshAddr(b)
    ensures LessAddr(a, b) <==> LexLess(AddrFields(a), AddrFields(b))
  {
    var x, y := AddrFields(a), AddrFields(b);
    LexTail(x, y);
    assert x[1..] == RelFields(a.reladdr) && y[1..] == RelFields(b.reladdr);
    RelLexicographic(a.reladdr, b.reladdr);
    NumberLess(a.absaddr, b.absaddr);
    RelOrder();
  }

  /** And at the same address, unless the flags clash, the count. */
  lemma BreakpointLexicographic(a: Breakpoint, b: Breakpoint)
    requires FreshBreakpoint(a) && FreshBreakpoint(b) && !Clash(a, b)
    ensures LessBreakpoint(a, b) <==>
            LexLess(AddrFields(a.addr), AddrFields(b.addr)) ||
            (AddrFields(a.addr) == AddrFields(b.addr) && a.count < b.count)
  {
    AddrLexicographic(a.addr, b.addr);
    FieldsDecide(a.addr, b.addr);
    AddrOrder();
  }

  lemma FieldsDecide(a: AbsOrRelAddr, b: AbsOrRelAddr)
    ensures AddrFields(a) == AddrFields(b) <==> SameAddr(a, b)
  {
    var x, y := AddrFields(a), AddrFields(b);
    assert x == [[a.absaddr], a.reladdr.modulename, [a.reladdr.offset.offset], a.reladdr.offset.symbol];
    assert y == [[b.absaddr], b.reladdr.modulename, [b.reladdr.offset.offset], b.reladdr.offset.symbol];
    if x == y { assert x[0][0] == y[0][0] && x[1] == y[1] && x[2][0] == y[2][0] && x[3] == y[3]; }
  }

  /** So a snapshot lists its addresses in ascending order, as signed numbers. */
  lemma SnapshotAscending(s: seq<Breakpoint>, active: map<U64, U64>)
    requires Evaluator.SortedSnapshot(s, active)
    ensures forall i, j :: 0 <= i < j < |s| ==> s[i].addr.absaddr < s[j].addr.absaddr
  {
    forall i, j | 0 <= i < j < |s| ensures s[i].addr.absaddr < s[j].addr.absaddr {
      assert s[i] in s && s[j] in s;
      var a :| a in active && s[i] == Reported(false, a, active[a]);
      var b :| b in active && s[j] == Reported(false, b, active[b]);
      ReportedAscending(a, active[a], b, active[b]);
    }
  }

  lemma ReportedAscending(a: U64, m: U64, b: U64, n: U64)
    requires LessBreakpoint(Reported(false, a, m), Reported(false, b, n)) && (a == b ==> m == n)
    ensures AsI64(a) < AsI64(b)
  {
    UnsignedOfSigned(a);
    UnsignedOfSigned(b);
  }
}
