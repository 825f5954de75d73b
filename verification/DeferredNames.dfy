/** Module names with a NUL: the lookup sees them up to it, the load callback compares them whole. When a deferred
    breakpoint can come to resolve and yet stay deferred. */
module DeferredNames {
  import opened Words
  import opened Types
  import opened Ordering
  import opened Ordered
  import opened Resolve
  import opened Tables
  import opened Activation
  import opened Protocol
  import opened ProtocolSafety
  import opened ProtocolRuns

  /** A name whose C string names a loaded module is that module's name exactly if it has no NUL. */
  lemma LookupAgainstComparison(mods: Modules, name: Bytes)
    requires CStr(name) in mods
    ensures name in mods <==> 0 !in name
  {
  }

  /** No load activates an entry whose module name has a NUL. */
  lemma NoLoadMatchesNul(mods: Modules, name: Bytes, e: Entry)
    requires name in mods && Matches(e, name)
    ensures 0 !in e.key.modulename
  {
  }

  /** In every run, outside the load callback of its module, a deferred key without a NUL does not resolve. */
  lemma DeferredDoesNotResolve(s: State, run: seq<Label>, d: Entry)
    requires Init(s) && IsRun(s, run) && d in After(s, run).debug.tables.deferred
    requires !LoadInProgress(After(s, run), d.key.modulename) && 0 !in d.key.modulename
    ensures ToAbsAddr(After(s, run).debug.modules, Relative(d.key)).ModuleNotLoaded?
  {
    DeferredSeparated(s, run);
  }

  /** The key is deferred although it resolves, and no callback or clean call is under way. */
  ghost predicate Stranded(e: State, key: RelAddr) {
    && (forall t :: 0 <= t < |e.threads| ==> e.threads[t].Running?)
    && IsDeferred(e.debug.tables.deferred, key) && ToAbsAddr(e.debug.modules, Relative(key)).Address?
  }

  lemma DeferredKey(d: seq<Entry>, key: RelAddr) returns (e: Entry)
    requires IsDeferred(d, key) && Within(FreshEntry, d) && FreshRel(key)
    ensures e in d && SameRel(e.key, key)
  {
    var i :| 0 <= i < |d| && !EntryLess(d[i], Entry(key, 0)) && !EntryLess(Entry(key, 0), d[i]);
    RelOrder();
    e := d[i];
  }

  lemma WithoutNulNeverStranded(s: State, e: State, key: RelAddr)
    requires Init(s) && Reaches(s, e) && FreshRel(key) && 0 !in key.modulename
    ensures !Stranded(e, key)
  {
    if Stranded(e, key) {
      var run :| IsRun(s, run) && After(s, run) == e;
      DeferredSeparated(s, run);
      var d := DeferredKey(e.debug.tables.deferred, key);
    }
  }

  // A run that strands a key with a NUL

  /** A module in which the key resolves, by offset or by symbol. */
  function ModuleFor(key: RelAddr): Module {
    Module(0, 0, map[CStr(key.offset.symbol) := 1])
  }

  lemma Deferring(s: State, key: RelAddr, count: I64) returns (e: State)
    requires Init(s) && FreshRel(key) && CStr(key.modulename) !in s.debug.modules
    ensures Reaches(s, e)
    ensures e == s.(debug := s.debug.(tables := Tables(map[], [Entry(key, AsU64(count))])))
  {
    assert IsRun(s, []) && After(s, []) == s;
    e := Onwards(s, s, RequestAdd(Breakpoint(true, Relative(key), true, count)));
    e := Onwards(s, e, ServerNext);
  }

  lemma LoadingOther(a: State, s: State, name: Bytes, m: Module) returns (e: State)
    requires Reaches(a, s) && !s.control.suspended && s.mutex == None && |s.threads| > 0 && s.threads[0].Running?
    requires s.debug.cache == map[] && name !in s.debug.modules && 0 !in name
    requires forall d :: d in s.debug.tables.deferred ==> !Matches(d, name)
    ensures Reaches(a, e) && e.threads == s.threads && e.debug.modules == s.debug.modules[name := m]
    ensures e.debug.tables == s.debug.tables
  {
    var was := s.threads[0];
    e := Onwards(a, s, ThreadNext(0, StartLoad(name, m)));
    e := Onwards(a, e, ThreadNext(0, Acquire));
    LoadsNothing(e.debug.tables, e.debug.modules, name);
    e := Onwards(a, e, ThreadNext(0, Body));
    e := Onwards(a, e, ThreadNext(0, Release));
    assert e.threads == s.threads[0 := was];
  }

  lemma LoadsNothing(t: Tables, mods: Modules, name: Bytes)
    requires name in mods && forall d :: d in t.deferred ==> !Matches(d, name)
    ensures AllResolve(mods, name, t.deferred) && Load(t, mods, name) == t
  {
    assert AllResolve(mods, name, t.deferred);
    ActivatesNothing(t.active, t.deferred, mods, name);
  }

  lemma {:induction false} ActivatesNothing(active: map<U64, U64>, entries: seq<Entry>, mods: Modules, name: Bytes)
    requires name in mods && AllResolve(mods, name, entries) && forall d :: d in entries ==> !Matches(d, name)
    ensures Activate(active, entries, mods, name) == active && Others(entries, name) == entries
    decreases |entries|
  {
    if entries != [] {
      Tail(entries, mods, name);
      ActivatesNothing(active, entries[1..], mods, name);
    }
  }

  /** Add the breakpoint, run, load the module its name is looked up as. */
  lemma StrandingRun(s: State, key: RelAddr, count: I64) returns (e: State)
    requires Init(s) && |s.threads| > 0 && FreshRel(key) && CStr(key.modulename) !in s.debug.modules
    requires 0 in key.modulename && (key.offset.hasOffset || key.offset.hasSymbol)
    ensures Reaches(s, e) && Stranded(e, key) && e.debug.tables == Tables(map[], [Entry(key, AsU64(count))])
  {
    e := Deferring(s, key, count);
    e := Resuming(s, e, {});
    e := LoadingOther(s, e, CStr(key.modulename), ModuleFor(key));
    OneDeferred(key, AsU64(count));
  }

  lemma OneDeferred(key: RelAddr, count: U64)
    requires FreshRel(key)
    ensures IsDeferred([Entry(key, count)], key)
  {
    RelOrder();
    assert [Entry(key, count)][0].key == key && !LessRel(key, key);
  }

  /** A key that names an offset or a symbol of a module not loaded yet can be deferred, resolve and stay deferred,
      exactly if its module name has a NUL. */
  lemma StrandedExactly(s: State, key: RelAddr)
    requires Init(s) && |s.threads| > 0 && FreshRel(key) && CStr(key.modulename) !in s.debug.modules
    requires key.offset.hasOffset || key.offset.hasSymbol
    ensures (exists e :: Reaches(s, e) && Stranded(e, key)) <==> 0 in key.modulename
  {
    if 0 in key.modulename {
      var e := StrandingRun(s, key, 1);
    } else {
      forall e | Reaches(s, e) ensures !Stranded(e, key) {
        WithoutNulNeverStranded(s, e, key);
      }
    }
  }

  /** A stranded breakpoint cannot be deleted by the name it was added by, unless another is active where it
      resolves. */
  lemma StrandedCannotBeDeleted(e: State, bp: Breakpoint)
    requires Stranded(e, bp.addr.reladdr) && bp.addr == Relative(bp.addr.reladdr)
    ensures var (t, fault) := Delete(e.debug.tables, e.debug.modules, bp);
      && t.deferred == e.debug.tables.deferred
      && (fault == Some(NotFound) <==> ToAbsAddr(e.debug.modules, bp.addr).addr !in e.debug.tables.active)
  {
  }
}
