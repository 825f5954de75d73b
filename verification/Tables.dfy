/** The breakpoint tables and what each operation makes of them. */
module Tables {
  import opened Words
  import opened Types
  import opened Ordering
  import opened Ordered
  import opened Resolve

  /** A node of `deferred_breakpoints`; the map is the sequence of its nodes in key order. */
  datatype Entry = Entry(key: RelAddr, count: U64)
  datatype Tables = Tables(active: map<U64, U64>, deferred: seq<Entry>)

  predicate EntryLess(a: Entry, b: Entry) {
    LessRel(a.key, b.key)
  }

  predicate SameKey(a: Entry, b: Entry) {
    SameRel(a.key, b.key)
  }

  predicate FreshEntry(e: Entry) {
    FreshRel(e.key)
  }

  ghost predicate Valid(t: Tables) {
    Sorted(EntryLess, t.deferred) && Within(FreshEntry, t.deferred)
  }

  lemma EntryOrder()
    ensures StrictTotalOrder(EntryLess, SameKey, FreshEntry)
  {
    RelOrder();
  }

  predicate IsDeferred(d: seq<Entry>, key: RelAddr) {
    Has(EntryLess, d, Entry(key, 0))
  }

  /** `erase (key)`. */
  function Without(d: seq<Entry>, key: RelAddr): seq<Entry> {
    if d == [] then []
    else (if LessRel(d[0].key, key) || LessRel(key, d[0].key) then [d[0]] else []) + Without(d[1..], key)
  }

  /** `addBreakpoint` with its address resolved to `r`: the new tables and the exception thrown, if any. */
  function AddAt(t: Tables, r: Resolution, bp: Breakpoint): (Tables, Option<Fault>) {
    match r
    case Throws(f) => (t, Some(f))
    case Address(a) =>
      if a in t.active && t.active[a] != 0 then (t, Some(AlreadyExists))
      else (t.(active := t.active[a := AsU64(bp.count)]), None)
    case ModuleNotLoaded =>
      if IsDeferred(t.deferred, bp.addr.reladdr) then (t, Some(AlreadyExists))
      else (t.(deferred := Insert(EntryLess, t.deferred, Entry(bp.addr.reladdr, AsU64(bp.count)))), None)
  }

  /** `delBreakpoint` with its address resolved to `r`. */
  function DeleteAt(t: Tables, r: Resolution, bp: Breakpoint): (Tables, Option<Fault>) {
    match r
    case Throws(f) => (t, Some(f))
    case Address(a) =>
      if a in t.active then (t.(active := t.active - {a}), None) else (t, Some(NotFound))
    case ModuleNotLoaded =>
      if IsDeferred(t.deferred, bp.addr.reladdr) then (t.(deferred := Without(t.deferred, bp.addr.reladdr)), None)
      else (t, Some(NotFound))
  }

  function Add(t: Tables, mods: Modules, bp: Breakpoint): (Tables, Option<Fault>) {
    AddAt(t, ToAbsAddr(mods, bp.addr), bp)
  }

  function Delete(t: Tables, mods: Modules, bp: Breakpoint): (Tables, Option<Fault>) {
    DeleteAt(t, ToAbsAddr(mods, bp.addr), bp)
  }

  /** Both operations keep the deferred table a map under `operator<`, for any key a reader can produce. */
  lemma OperationsKeepValid(t: Tables, r: Resolution, bp: Breakpoint)
    requires Valid(t) && FreshBreakpoint(bp)
    ensures Valid(AddAt(t, r, bp).0) && Valid(DeleteAt(t, r, bp).0)
  {
    EntryOrder();
    var key := bp.addr.reladdr;
    if r.ModuleNotLoaded? {
      InsertCorrect(EntryLess, SameKey, FreshEntry, t.deferred, Entry(key, AsU64(bp.count)));
      WithoutSorted(t.deferred, key);
    }
  }

  lemma {:induction false} WithoutElements(d: seq<Entry>, key: RelAddr)
    ensures forall e :: e in Without(d, key) <==> e in d && (LessRel(e.key, key) || LessRel(key, e.key))
  {
    if d != [] {
      WithoutElements(d[1..], key);
      assert d == [d[0]] + d[1..];
    }
  }

  lemma {:induction false} WithoutSorted(d: seq<Entry>, key: RelAddr)
    requires Sorted(EntryLess, d) && Within(FreshEntry, d)
    ensures Sorted(EntryLess, Without(d, key)) && Within(FreshEntry, Without(d, key))
  {
    if d != [] {
      var r := Without(d[1..], key);
      WithoutSorted(d[1..], key);
      WithoutElements(d[1..], key);
      forall j | 0 <= j < |r| ensures EntryLess(d[0], r[j]) {
        assert r[j] in d[1..];
        var i :| 0 <= i < |d[1..]| && d[1..][i] == r[j];
        assert d[i + 1] == r[j];
      }
    }
  }

  lemma AbsentTail(d: seq<Entry>, key: RelAddr)
    requires !IsDeferred(d, key) && d != []
    ensures !IsDeferred(d[1..], key) && (LessRel(d[0].key, key) || LessRel(key, d[0].key))
  {
    var x := Entry(key, 0);
    assert forall i :: 0 <= i < |d[1..]| ==> d[1..][i] == d[i + 1];
    assert EntryLess(d[0], x) || EntryLess(x, d[0]);
  }

  lemma {:induction false} WithoutAbsent(d: seq<Entry>, key: RelAddr)
    requires !IsDeferred(d, key)
    ensures Without(d, key) == d
  {
    if d != [] {
      AbsentTail(d, key);
      WithoutAbsent(d[1..], key);
      assert d == [d[0]] + d[1..];
    }
  }

  lemma {:induction false} InsertThenWithout(d: seq<Entry>, e: Entry)
    requires !IsDeferred(d, e.key) && FreshRel(e.key)
    ensures Without(Insert(EntryLess, d, e), e.key) == d
  {
    RelOrder();
    WithoutAbsent(d, e.key);
    if d == [] || EntryLess(e, d[0]) {
      assert ([e] + d)[1..] == d;
    } else {
      AbsentTail(d, e.key);
      InsertThenWithout(d[1..], e);
      var r := Insert(EntryLess, d, e);
      assert r[1..] == Insert(EntryLess, d[1..], e);
      assert d == [d[0]] + d[1..];
    }
  }

  /** Deleting what was just added restores the tables, whether it was resolved or deferred, unless it replaced a zero
      count. */
  lemma AddThenDelete(t: Tables, mods: Modules, bp: Breakpoint)
    requires FreshBreakpoint(bp) && Add(t, mods, bp).1 == None
    ensures Delete(Add(t, mods, bp).0, mods, bp).1 == None
    ensures Delete(Add(t, mods, bp).0, mods, bp).0 == t <==>
            !(ToAbsAddr(mods, bp.addr).Address? && ToAbsAddr(mods, bp.addr).addr in t.active)
  {
    match ToAbsAddr(mods, bp.addr)
    case Address(a) =>
      if a !in t.active {
        assert t.active[a := AsU64(bp.count)] - {a} == t.active;
      }
    case ModuleNotLoaded =>
      var key := bp.addr.reladdr;
      var e := Entry(key, AsU64(bp.count));
      InsertThenWithout(t.deferred, e);
      var d := Insert(EntryLess, t.deferred, e);
      if !IsDeferred(d, key) { WithoutAbsent(d, key); InsertLonger(t.deferred, e); }
    case Throws(_) =>
  }

  lemma {:induction false} InsertLonger(d: seq<Entry>, e: Entry)
    requires !IsDeferred(d, e.key)
    ensures |Insert(EntryLess, d, e)| == |d| + 1
  {
    if d != [] && !EntryLess(e, d[0]) {
      AbsentTail(d, e.key);
      InsertLonger(d[1..], e);
    }
  }

  /** A second addition at the same place is refused and changes nothing, unless the first left an active count of
      zero; `again` need not name the place in the same way. */
  lemma AddTwice(t: Tables, mods: Modules, bp: Breakpoint, again: Breakpoint)
    requires FreshBreakpoint(bp) && FreshBreakpoint(again) && Add(t, mods, bp).1 == None
    requires ToAbsAddr(mods, again.addr) == ToAbsAddr(mods, bp.addr)
    requires ToAbsAddr(mods, bp.addr).ModuleNotLoaded? ==> SameRel(again.addr.reladdr, bp.addr.reladdr)
    ensures var u := Add(t, mods, bp).0;
      if ToAbsAddr(mods, bp.addr).Address? && AsU64(bp.count) == 0 then Add(u, mods, again).1 == None
      else Add(u, mods, again) == (u, Some(AlreadyExists))
  {
    EntryOrder();
    if ToAbsAddr(mods, bp.addr).ModuleNotLoaded? {
      var e := Entry(bp.addr.reladdr, AsU64(bp.count));
      InsertedIsDeferred(t.deferred, e, again.addr.reladdr);
    }
  }

  lemma {:induction false} InsertedIsDeferred(d: seq<Entry>, e: Entry, key: RelAddr)
    requires FreshRel(e.key) && FreshRel(key) && SameRel(e.key, key) && !IsDeferred(d, e.key)
    ensures IsDeferred(Insert(EntryLess, d, e), key)
  {
    RelOrder();
    var r := Insert(EntryLess, d, e);
    if d == [] || EntryLess(e, d[0]) {
      assert r[0] == e;
    } else {
      AbsentTail(d, e.key);
      InsertedIsDeferred(d[1..], e, key);
      assert r == [d[0]] + Insert(EntryLess, d[1..], e);
      var i :| 0 <= i < |r[1..]| && !EntryLess(r[1..][i], Entry(key, 0)) && !EntryLess(Entry(key, 0), r[1..][i]);
      assert r[i + 1] == r[1..][i];
    }
  }

  /** What was deleted is gone: deleting it again is refused and changes nothing. */
  lemma DeleteTwice(t: Tables, mods: Modules, bp: Breakpoint)
    requires Valid(t) && FreshBreakpoint(bp) && Delete(t, mods, bp).1 == None
    ensures var u := Delete(t, mods, bp).0; Delete(u, mods, bp) == (u, Some(NotFound))
  {
    if ToAbsAddr(mods, bp.addr).ModuleNotLoaded? {
      var key := bp.addr.reladdr;
      WithoutElements(t.deferred, key);
      assert forall e :: e in Without(t.deferred, key) ==> EntryLess(e, Entry(key, 0)) || EntryLess(Entry(key, 0), e);
    }
  }

  /** Adding at the relative address `getCodeBlock` reports and deleting at the absolute one restores the tables. */
  lemma AddRelativeDeleteAbsolute(t: Tables, mods: Modules, name: Bytes, first: U64, count: I64, ignored: I64)
    requires name in mods && first !in t.active
    ensures var add := Breakpoint(true, Relative(LocateBlock(name, mods[name], first).addr), true, count);
            var del := Breakpoint(true, Absolute(AsI64(first)), true, ignored);
            && Add(t, mods, add).0.active == t.active[first := AsU64(count)]
            && Delete(Add(t, mods, add).0, mods, del) == (t, None)
  {
    LocateThenResolve(mods, name, first);
    assert t.active[first := AsU64(count)] - {first} == t.active;
  }

  // Snapshots

  /** The element `getBreakpoints` makes of an active breakpoint; `sent` once it came over the wire, which sets the
      flags of its fields. */
  function Reported(sent: bool, addr: U64, count: U64): Breakpoint {
    Breakpoint(sent, Absolute(AsI64(addr)), sent, AsI64(count))
  }

  lemma ReportedFaithful(sent: bool, addr: U64, count: U64, mods: Modules)
    ensures ProperBreakpoint(Reported(sent, addr, count))
    ensures ToAbsAddr(mods, Reported(sent, addr, count).addr) == Address(addr)
    ensures AsU64(Reported(sent, addr, count).count) == count
  {
    UnsignedOfSigned(addr);
    UnsignedOfSigned(count);
  }

  /** `s` holds one element per active breakpoint and nothing else. */
  ghost predicate IsSnapshot(sent: bool, s: seq<Breakpoint>, active: map<U64, U64>) {
    && |s| == |active|
    && (forall a :: a in active ==> Reported(sent, a, active[a]) in s)
    && (forall b :: b in s ==> exists a :: a in active && b == Reported(sent, a, active[a]))
  }

  function ReportedSet(sent: bool, active: map<U64, U64>): set<Breakpoint> {
    set a | a in active :: Reported(sent, a, active[a])
  }

  lemma ReportedSetWithout(sent: bool, active: map<U64, U64>, a: U64)
    requires a in active
    ensures ReportedSet(sent, active - {a}) == ReportedSet(sent, active) - {Reported(sent, a, active[a])}
  {
    var rest := active - {a};
    ReportedFaithful(sent, a, active[a], map[]);
    forall b
      ensures b in ReportedSet(sent, rest) <==> b in ReportedSet(sent, active) && b != Reported(sent, a, active[a])
    {
      if b in ReportedSet(sent, active) {
        var x :| x in active && b == Reported(sent, x, active[x]);
        ReportedFaithful(sent, x, active[x], map[]);
        assert x != a ==> x in rest && rest[x] == active[x];
      }
      if b in ReportedSet(sent, rest) {
        var x :| x in rest && b == Reported(sent, x, rest[x]);
        ReportedFaithful(sent, x, active[x], map[]);
        assert x in active && rest[x] == active[x];
      }
    }
  }

  lemma {:induction false} ReportedSetSize(sent: bool, active: map<U64, U64>)
    ensures |ReportedSet(sent, active)| == |active|
    decreases |active|
  {
    if a :| a in active {
      ReportedSetWithout(sent, active, a);
      assert |(active - {a}).Keys| == |active.Keys - {a}|;
      ReportedSetSize(sent, active - {a});
    } else {
      assert ReportedSet(sent, active) == {} && active == map[];
    }
  }

  function AddAll(t: Tables, mods: Modules, bps: seq<Breakpoint>): (Tables, Option<Fault>)
    decreases |bps|
  {
    if bps == [] then (t, None)
    else
      var (u, fault) := Add(t, mods, bps[0]);
      if fault.Some? then (u, fault) else AddAll(u, mods, bps[1..])
  }

  /** `bps` lists the reported form of `todo`, each element once. */
  ghost predicate Lists(sent: bool, bps: seq<Breakpoint>, todo: map<U64, U64>) {
    && (forall i, j :: 0 <= i < j < |bps| ==> bps[i] != bps[j])
    && (forall b :: b in bps <==> b in ReportedSet(sent, todo))
  }

  lemma ListsTail(sent: bool, bps: seq<Breakpoint>, todo: map<U64, U64>, a: U64)
    requires Lists(sent, bps, todo) && bps != [] && a in todo && bps[0] == Reported(sent, a, todo[a])
    ensures Lists(sent, bps[1..], todo - {a})
  {
    ReportedSetWithout(sent, todo, a);
    assert bps == [bps[0]] + bps[1..];
  }

  /** Re-adding reported breakpoints, in any order, throws nothing and sets exactly their entries. */
  lemma {:induction false} AddAllReported(
      sent: bool, t: Tables, mods: Modules, bps: seq<Breakpoint>, todo: map<U64, U64>)
    requires t.active.Keys !! todo.Keys && Lists(sent, bps, todo)
    ensures AddAll(t, mods, bps) == (t.(active := t.active + todo), None)
    decreases |bps|
  {
    if bps == [] {
      assert forall a :: a in todo ==> Reported(sent, a, todo[a]) in ReportedSet(sent, todo);
      assert t.active + todo == t.active;
    } else {
      assert bps[0] in ReportedSet(sent, todo);
      var a :| a in todo && bps[0] == Reported(sent, a, todo[a]);
      ReportedFaithful(sent, a, todo[a], mods);
      ListsTail(sent, bps, todo, a);
      AddAllReported(sent, t.(active := t.active[a := todo[a]]), mods, bps[1..], todo - {a});
      assert t.active[a := todo[a]] + (todo - {a}) == t.active + todo;
    }
  }

  lemma ListsInAnyOrder(sent: bool, s: seq<Breakpoint>, order: seq<Breakpoint>, active: map<U64, U64>)
    requires IsSnapshot(sent, s, active) && multiset(order) == multiset(s)
    ensures Lists(sent, order, active)
  {
    Permutation(s, order);
    assert ReportedSet(sent, active) == set b | b in order;
    ReportedSetSize(sent, active);
    NoDuplicates(order);
  }

  /** A snapshot re-added in any order to tables with nothing active rebuilds the active table, counts and addresses
      of every size. */
  lemma SnapshotRestores(
      sent: bool, s: seq<Breakpoint>, order: seq<Breakpoint>, active: map<U64, U64>, mods: Modules, d: seq<Entry>)
    requires IsSnapshot(sent, s, active) && multiset(order) == multiset(s)
    ensures AddAll(Tables(map[], d), mods, order) == (Tables(active, d), None)
  {
    ListsInAnyOrder(sent, s, order, active);
    AddAllReported(sent, Tables(map[], d), mods, order, active);
    assert map[] + active == active;
  }

  lemma Permutation<T>(s: seq<T>, t: seq<T>)
    requires multiset(s) == multiset(t)
    ensures |s| == |t| && forall x :: x in s <==> x in t
  {
    assert |s| == |multiset(s)| && |t| == |multiset(t)|;
    assert forall x :: x in s <==> x in multiset(s);
    assert forall x :: x in t <==> x in multiset(t);
  }

  /** A sequence as long as the set of its elements has no duplicates. */
  lemma {:induction false} NoDuplicates<T>(s: seq<T>)
    requires |set x | x in s| == |s|
    ensures forall i, j :: 0 <= i < j < |s| ==> s[i] != s[j]
  {
    if s != [] {
      var rest := set y | y in s[1..];
      assert s == [s[0]] + s[1..];
      assert (set x | x in s) == rest + {s[0]};
      SetBound(s[1..]);
      assert s[0] !in rest;
      NoDuplicates(s[1..]);
    }
  }

  lemma {:induction false} SetBound<T>(s: seq<T>)
    ensures |set x | x in s| <= |s|
  {
    if s != [] {
      SetBound(s[1..]);
      assert s == [s[0]] + s[1..];
      assert (set x | x in s) == (set x | x in s[1..]) + {s[0]};
    } else {
      assert (set x | x in s) == {};
    }
  }
}
