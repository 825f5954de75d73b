/** The loops of `event_module_loaded`: which deferred breakpoints become active, and with which counts. */
module Activation {
  import opened Words
  import opened Types
  import opened Ordering
  import opened Ordered
  import opened Resolve
  import opened Tables

  /** A deferred entry of the module `name`, by full name, not the C string the lookup sees. */
  predicate Matches(e: Entry, name: Bytes) {
    e.key.modulename == name
  }

  function AddrOf(mods: Modules, e: Entry): Resolution {
    ToAbsAddr(mods, Relative(e.key))
  }

  /** The two assertions of the loop body; the upper end of the module is admitted. */
  predicate Resolves(mods: Modules, name: Bytes, e: Entry)
    requires name in mods
  {
    AddrOf(mods, e).Address? && mods[name].start <= AddrOf(mods, e).addr <= mods[name].end
  }

  predicate AllResolve(mods: Modules, name: Bytes, entries: seq<Entry>)
    requires name in mods
  {
    forall i :: 0 <= i < |entries| && Matches(entries[i], name) ==> Resolves(mods, name, entries[i])
  }

  /** The first loop: `breakpoints [*addr] = p.second` for the matching nodes in order. */
  function Activate(active: map<U64, U64>, entries: seq<Entry>, mods: Modules, name: Bytes): map<U64, U64>
    requires name in mods && AllResolve(mods, name, entries)
    decreases |entries|
  {
    if entries == [] then active
    else
      Tail(entries, mods, name);
      Activate(if Matches(entries[0], name) then active[AddrOf(mods, entries[0]).addr := entries[0].count] else active,
               entries[1..], mods, name)
  }

  /** What the second loop leaves of the deferred table. */
  function Others(entries: seq<Entry>, name: Bytes): seq<Entry> {
    if entries == [] then []
    else (if Matches(entries[0], name) then [] else [entries[0]]) + Others(entries[1..], name)
  }

  function Load(t: Tables, mods: Modules, name: Bytes): Tables
    requires name in mods && AllResolve(mods, name, t.deferred)
  {
    Tables(Activate(t.active, t.deferred, mods, name), Others(t.deferred, name))
  }

  lemma Tail(entries: seq<Entry>, mods: Modules, name: Bytes)
    requires name in mods && entries != []
    ensures AllResolve(mods, name, entries) <==>
            AllResolve(mods, name, entries[1..]) && (Matches(entries[0], name) ==> Resolves(mods, name, entries[0]))
  {
    assert entries == [entries[0]] + entries[1..];
  }

  function Targets(entries: seq<Entry>, mods: Modules, name: Bytes): set<U64>
    requires name in mods && AllResolve(mods, name, entries)
  {
    set i | 0 <= i < |entries| && Matches(entries[i], name) :: AddrOf(mods, entries[i]).addr
  }

  /** Entry `i` is the last matching one, in key order, that resolves to its address. */
  predicate LastAt(entries: seq<Entry>, mods: Modules, name: Bytes, i: nat)
    requires name in mods && AllResolve(mods, name, entries)
  {
    && i < |entries| && Matches(entries[i], name)
    && forall j :: i < j < |entries| && Matches(entries[j], name) ==>
      AddrOf(mods, entries[j]).addr != AddrOf(mods, entries[i]).addr
  }

  lemma TargetsTail(entries: seq<Entry>, mods: Modules, name: Bytes)
    requires name in mods && AllResolve(mods, name, entries) && entries != []
    ensures AllResolve(mods, name, entries[1..])
    ensures Targets(entries, mods, name) == Targets(entries[1..], mods, name)
              + (if Matches(entries[0], name) then {AddrOf(mods, entries[0]).addr} else {})
  {
    Tail(entries, mods, name);
    var t := entries[1..];
    forall a | a in Targets(entries, mods, name)
      ensures a in Targets(t, mods, name) || (Matches(entries[0], name) && a == AddrOf(mods, entries[0]).addr)
    {
      var i :| 0 <= i < |entries| && Matches(entries[i], name) && a == AddrOf(mods, entries[i]).addr;
      if i > 0 { assert t[i - 1] == entries[i]; }
    }
    forall a | a in Targets(t, mods, name) ensures a in Targets(entries, mods, name) {
      var i :| 0 <= i < |t| && Matches(t[i], name) && a == AddrOf(mods, t[i]).addr;
      assert entries[i + 1] == t[i];
    }
  }

  /** The active table after a load: the old addresses and the resolved ones; each resolved address holds the count of
      the last matching key that resolves to it, every other address keeps its own. */
  lemma {:induction false} ActivateExact(active: map<U64, U64>, entries: seq<Entry>, mods: Modules, name: Bytes)
    requires name in mods && AllResolve(mods, name, entries)
    ensures var r := Activate(active, entries, mods, name);
      && r.Keys == active.Keys + Targets(entries, mods, name)
      && (forall a :: a in active && a !in Targets(entries, mods, name) ==> r[a] == active[a])
      && (forall i: nat :: LastAt(entries, mods, name, i) ==>
           AddrOf(mods, entries[i]).addr in r && r[AddrOf(mods, entries[i]).addr] == entries[i].count)
    decreases |entries|
  {
    if entries != [] {
      var t := entries[1..];
      TargetsTail(entries, mods, name);
      var next := if Matches(entries[0], name) then active[AddrOf(mods, entries[0]).addr := entries[0].count]
        else active;
      ActivateExact(next, t, mods, name);
      var r := Activate(active, entries, mods, name);
      forall i: nat | LastAt(entries, mods, name, i)
        ensures AddrOf(mods, entries[i]).addr in r && r[AddrOf(mods, entries[i]).addr] == entries[i].count
      {
        if i > 0 {
          assert t[i - 1] == entries[i];
          assert forall j :: 0 <= j < |t| ==> t[j] == entries[j + 1];
          assert LastAt(t, mods, name, i - 1);
        } else {
          var a := AddrOf(mods, entries[0]).addr;
          assert forall j :: 0 <= j < |t| ==> t[j] == entries[j + 1];
          assert a !in Targets(t, mods, name);
        }
      }
    }
  }

  /** The deferred table after a load: exactly the entries of other modules, in the same order. */
  lemma {:induction false} OthersExact(entries: seq<Entry>, name: Bytes)
    ensures forall e :: e in Others(entries, name) <==> e in entries && !Matches(e, name)
    ensures Sorted(EntryLess, entries) ==> Sorted(EntryLess, Others(entries, name))
    ensures Within(FreshEntry, entries) ==> Within(FreshEntry, Others(entries, name))
  {
    if entries != [] {
      var t := entries[1..];
      assert entries == [entries[0]] + t;
      OthersExact(t, name);
      if Sorted(EntryLess, entries) {
        var r := Others(t, name);
        forall j | 0 <= j < |r| ensures EntryLess(entries[0], r[j]) {
          assert r[j] in t;
          var i :| 0 <= i < |t| && t[i] == r[j];
          assert entries[i + 1] == r[j];
        }
      }
    }
  }

  // Conservation of counts

  ghost function Total(m: map<U64, U64>): nat
    decreases |m|
  {
    if m == map[] then 0
    else
      var a :| a in m;
      m[a] + Total(m - {a})
  }

  function TotalDeferred(entries: seq<Entry>): nat {
    if entries == [] then 0 else entries[0].count + TotalDeferred(entries[1..])
  }

  lemma {:induction false} TotalWithout(m: map<U64, U64>, a: U64)
    requires a in m
    ensures Total(m) == m[a] + Total(m - {a})
    decreases |m|
  {
    var b :| b in m && Total(m) == m[b] + Total(m - {b});
    if a != b {
      TotalWithout(m - {b}, a);
      TotalWithout(m - {a}, b);
      assert m - {a} - {b} == m - {b} - {a};
    }
  }

  /** Matching entries resolve to addresses that are free and pairwise different. */
  predicate NoCollision(active: map<U64, U64>, entries: seq<Entry>, mods: Modules, name: Bytes)
    requires name in mods && AllResolve(mods, name, entries)
  {
    && Targets(entries, mods, name) !! active.Keys
    && forall i: nat :: i < |entries| && Matches(entries[i], name) ==> LastAt(entries, mods, name, i)
  }

  /** Without collisions a load moves breakpoints and loses no count. */
  lemma {:induction false} LoadConservesCounts(active: map<U64, U64>, entries: seq<Entry>, mods: Modules, name: Bytes)
    requires name in mods && AllResolve(mods, name, entries) && NoCollision(active, entries, mods, name)
    ensures Total(Activate(active, entries, mods, name)) + TotalDeferred(Others(entries, name))
            == Total(active) + TotalDeferred(entries)
    decreases |entries|
  {
    if entries != [] {
      var t := entries[1..];
      var next := if Matches(entries[0], name) then active[AddrOf(mods, entries[0]).addr := entries[0].count]
        else active;
      TargetsTail(entries, mods, name);
      NoCollisionTail(active, entries, mods, name);
      LoadConservesCounts(next, t, mods, name);
      if Matches(entries[0], name) {
        var a := AddrOf(mods, entries[0]).addr;
        TotalWithout(next, a);
        assert a in Targets(entries, mods, name);
        assert next - {a} == active;
        assert Others(entries, name) == Others(t, name);
      } else {
        assert Others(entries, name)[1..] == Others(t, name);
      }
    }
  }

  lemma NoCollisionTail(active: map<U64, U64>, entries: seq<Entry>, mods: Modules, name: Bytes)
    requires name in mods && AllResolve(mods, name, entries) && NoCollision(active, entries, mods, name)
      && entries != []
    ensures AllResolve(mods, name, entries[1..])
    ensures NoCollision(if Matches(entries[0], name) then active[AddrOf(mods, entries[0]).addr := entries[0].count]
      else active,
                        entries[1..], mods, name)
  {
    var t := entries[1..];
    TargetsTail(entries, mods, name);
    assert forall j :: 0 <= j < |t| ==> t[j] == entries[j + 1];
    forall i: nat | i < |t| && Matches(t[i], name) ensures LastAt(t, mods, name, i) {
      assert LastAt(entries, mods, name, i + 1);
    }
    if Matches(entries[0], name) {
      assert LastAt(entries, mods, name, 0);
      assert AddrOf(mods, entries[0]).addr !in Targets(t, mods, name);
    }
  }
}
