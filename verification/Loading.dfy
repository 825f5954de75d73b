/** A module load told by offsets and symbols: when it completes, and what a deferred breakpoint becomes. */
module Loading {
  import opened Words
  import opened Types
  import opened Ordering
  import opened Ordered
  import opened Resolve
  import opened Resolutions
  import opened Tables
  import opened Activation

  // When a load completes

  /** The key names a place inside the module, its upper end included: an offset, read as an unsigned word, that is at
      most the size of the module, or a symbol the module has there. */
  ghost predicate Lands(m: Module, key: RelAddr) {
    if key.offset.hasOffset then
      exists o: U64 :: Same64(o, key.offset.offset) && o <= m.end - m.start
    else
      key.offset.hasSymbol && exists s :: Shows(s, key.offset.symbol) && s in m.symbols && m.symbols[s] != 0
                                          && m.start <= m.symbols[s] <= m.end
  }

  /** Where it is then. */
  ghost predicate LandsAt(m: Module, key: RelAddr, a: U64) {
    if key.offset.hasOffset then Same64(a, m.start + key.offset.offset)
    else key.offset.hasSymbol && exists s :: Shows(s, key.offset.symbol) && s in m.symbols && m.symbols[s] == a != 0
  }

  lemma Sum64(start: U64, o: U64, x: int, a: U64)
    requires Same64(o, x) && Same64(a, start + x)
    ensures a == if start + o < TWO64 then start + o else start + o - TWO64
  {
    var j, k := (x - o) / TWO64, (start + x - a) / TWO64;
    assert x == o + j * TWO64 && start + x == a + k * TWO64;
    assert start + o - a == (k - j) * TWO64;
  }

  lemma OffsetLands(m: Module, key: RelAddr)
    requires m.start <= m.end && key.offset.hasOffset
    ensures Lands(m, key) <==> m.start <= AsU64(m.start + key.offset.offset) <= m.end
  {
    var x := key.offset.offset;
    var o, a := AsU64(x), AsU64(m.start + x);
    Residue(x);
    Residue(m.start + x);
    Sum64(m.start, o, x, a);
    if Lands(m, key) {
      var o': U64 :| Same64(o', x) && o' <= m.end - m.start;
      SameIsUnsigned(o', x);
    }
  }

  lemma Residue(x: int)
    ensures Same64(AsU64(x), x)
  {
    assert x - x % TWO64 == x / TWO64 * TWO64;
  }

  lemma KeyResolves(mods: Modules, name: Bytes, e: Entry)
    requires name in mods && mods[name].start <= mods[name].end && e.key.modulename == name
    ensures Resolves(mods, name, e) <==> Lands(mods[name], e.key)
    ensures forall a: U64 :: LandsAt(mods[name], e.key, a) <==> AddrOf(mods, e) == Address(a)
  {
    var m, o, addr := mods[name], e.key.offset, Relative(e.key);
    assert InModule(mods, addr, name);
    if o.hasOffset {
      OffsetResolves(mods, addr, name, AsU64(m.start + o.offset)) by { Residue(m.start + o.offset); }
      OffsetLands(m, e.key);
      forall a: U64 ensures LandsAt(m, e.key, a) <==> AddrOf(mods, e) == Address(a) {
        Residue(m.start + o.offset);
        if LandsAt(m, e.key, a) { SameIsUnsigned(a, m.start + o.offset); }
      }
    } else if o.hasSymbol {
      var s := CStr(o.symbol);
      assert Shows(s, o.symbol);
      SymbolResolves(mods, addr, name, s);
      forall p | Shows(p, o.symbol) ensures p == s { ShownIsCStr(p, o.symbol); }
    } else {
      OtherResolves(mods, addr, name);
    }
  }

  /** A load completes if and only if every deferred key of the module lands in it. */
  lemma CompletesExactly(mods: Modules, name: Bytes, entries: seq<Entry>)
    requires name in mods && mods[name].start <= mods[name].end
    ensures AllResolve(mods, name, entries) <==>
            forall e :: e in entries && e.key.modulename == name ==> Lands(mods[name], e.key)
  {
    forall e: Entry | e.key.modulename == name ensures Resolves(mods, name, e) <==> Lands(mods[name], e.key) {
      KeyResolves(mods, name, e);
    }
  }

  // Deferred, then loaded

  /** No matching entry lands at `a`. */
  ghost predicate Misses(entries: seq<Entry>, mods: Modules, name: Bytes, a: U64)
    requires name in mods && AllResolve(mods, name, entries)
  {
    forall i :: 0 <= i < |entries| && Matches(entries[i], name) ==> AddrOf(mods, entries[i]).addr != a
  }

  lemma {:induction false} ActivateElsewhere(
      active: map<U64, U64>, entries: seq<Entry>, mods: Modules, name: Bytes, a: U64, count: U64)
    requires name in mods && AllResolve(mods, name, entries) && Misses(entries, mods, name, a)
    ensures Activate(active[a := count], entries, mods, name) == Activate(active, entries, mods, name)[a := count]
    decreases |entries|
  {
    if entries != [] {
      var e := entries[0];
      Tail(entries, mods, name);
      assert forall i :: 0 <= i < |entries[1..]| ==> entries[1..][i] == entries[i + 1];
      if Matches(e, name) {
        var x := AddrOf(mods, e).addr;
        assert active[a := count][x := e.count] == active[x := e.count][a := count];
        ActivateElsewhere(active[x := e.count], entries[1..], mods, name, a, count);
      } else {
        ActivateElsewhere(active, entries[1..], mods, name, a, count);
      }
    }
  }

  lemma FrontActivated(active: map<U64, U64>, d: seq<Entry>, mods: Modules, name: Bytes, e: Entry)
    requires name in mods && AllResolve(mods, name, d) && (Matches(e, name) ==> Resolves(mods, name, e))
    ensures AllResolve(mods, name, [e] + d)
    ensures Activate(active, [e] + d, mods, name)
         == Activate(if Matches(e, name) then active[AddrOf(mods, e).addr := e.count] else active, d, mods, name)
    ensures Others([e] + d, name) == (if Matches(e, name) then [] else [e]) + Others(d, name)
  {
    assert ([e] + d)[1..] == d;
    Tail([e] + d, mods, name);
  }

  lemma {:induction false} InsertedActivated(
      active: map<U64, U64>, d: seq<Entry>, mods: Modules, name: Bytes, e: Entry)
    requires name in mods && AllResolve(mods, name, d) && Matches(e, name) && Resolves(mods, name, e)
    requires Misses(d, mods, name, AddrOf(mods, e).addr) && !IsDeferred(d, e.key)
    ensures var r := Insert(EntryLess, d, e);
      && AllResolve(mods, name, r) && Others(r, name) == Others(d, name)
      && Activate(active, r, mods, name) == Activate(active, d, mods, name)[AddrOf(mods, e).addr := e.count]
    decreases |d|
  {
    var a := AddrOf(mods, e).addr;
    if d == [] || EntryLess(e, d[0]) {
      FrontActivated(active, d, mods, name, e);
      ActivateElsewhere(active, d, mods, name, a, e.count);
    } else {
      AbsentTail(d, e.key);
      Tail(d, mods, name);
      var t := d[1..];
      assert d == [d[0]] + t && forall i :: 0 <= i < |t| ==> t[i] == d[i + 1];
      FrontActivated(active, t, mods, name, d[0]);
      var next := if Matches(d[0], name) then active[AddrOf(mods, d[0]).addr := d[0].count] else active;
      InsertedActivated(next, t, mods, name, e);
      FrontActivated(active, Insert(EntryLess, t, e), mods, name, d[0]);
    }
  }

  /** Deferring a breakpoint in a module that is not loaded adds one entry with its key and count, and nothing else. */
  lemma DeferAdds(t: Tables, mods: Modules, bp: Breakpoint, name: Bytes, count: U64)
    requires Valid(t) && FreshBreakpoint(bp) && !bp.addr.hasAbsaddr && bp.addr.hasReladdr
    requires Shows(name, bp.addr.reladdr.modulename) && name !in mods && Same64(count, bp.count)
    requires forall e :: e in t.deferred ==> !SameRel(e.key, bp.addr.reladdr)
    ensures var (u, fault) := Add(t, mods, bp);
      && fault == None && u.active == t.active && Valid(u)
      && u.deferred == Insert(EntryLess, t.deferred, Entry(bp.addr.reladdr, count))
      && multiset(u.deferred) == multiset(t.deferred) + multiset{Entry(bp.addr.reladdr, count)}
  {
    var e := Entry(bp.addr.reladdr, count);
    OtherResolves(mods, bp.addr, name);
    SameIsUnsigned(count, bp.count);
    OperationsKeepValid(t, ModuleNotLoaded, bp);
    EntryOrder();
    assert !Has(EntryLess, t.deferred, e) && !IsDeferred(t.deferred, e.key);
    InsertCorrect(EntryLess, SameKey, FreshEntry, t.deferred, e);
  }

  /** And when the module is loaded, the load completes with the breakpoint active where its key lands, with its count,
      and no longer deferred; everything else is as if it had never been added. */
  lemma DeferThenLoad(t: Tables, mods: Modules, bp: Breakpoint, name: Bytes, m: Module, a: U64, count: U64)
    requires Valid(t) && FreshBreakpoint(bp) && !bp.addr.hasAbsaddr && bp.addr.hasReladdr
    requires bp.addr.reladdr.modulename == name && 0 !in name && name !in mods && m.start <= m.end
    requires Lands(m, bp.addr.reladdr) && LandsAt(m, bp.addr.reladdr, a) && Same64(count, bp.count)
    requires forall e :: e in t.deferred ==> !SameRel(e.key, bp.addr.reladdr)
    requires forall e :: e in t.deferred && e.key.modulename == name ==> Lands(m, e.key) && !LandsAt(m, e.key, a)
    ensures var u, loaded := Add(t, mods, bp).0, mods[name := m];
      && AllResolve(loaded, name, t.deferred) && AllResolve(loaded, name, u.deferred)
      && Load(u, loaded, name).active == Load(t, loaded, name).active[a := count]
      && Load(u, loaded, name).deferred == Load(t, loaded, name).deferred
      && forall e :: e in Load(u, loaded, name).deferred ==> e.key.modulename != name
  {
    var loaded: Modules := mods[name := m];
    var e := Entry(bp.addr.reladdr, count);
    DeferAdds(t, mods, bp, name, count);
    CompletesExactly(loaded, name, t.deferred);
    KeyResolves(loaded, name, e);
    forall i | 0 <= i < |t.deferred| && Matches(t.deferred[i], name)
      ensures AddrOf(loaded, t.deferred[i]).addr != a
    {
      KeyResolves(loaded, name, t.deferred[i]);
    }
    assert !IsDeferred(t.deferred, e.key) by { EntryOrder(); }
    InsertedActivated(t.active, t.deferred, loaded, name, e);
    OthersExact(t.deferred, name);
  }

  /** At an offset from 0 to the size of the module, that is at the start and the offset. */
  lemma OffsetLandsAt(m: Module, key: RelAddr)
    requires m.start <= m.end && key.offset.hasOffset && 0 <= key.offset.offset <= m.end - m.start
    ensures Lands(m, key) && LandsAt(m, key, m.start + key.offset.offset)
  {
    assert Same64(key.offset.offset, key.offset.offset);
  }
}
