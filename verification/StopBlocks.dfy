/** The block a stop records, over whole runs with any number of threads: the ends, and so the code, of a block some
    thread has entered. */
module StopBlocks {
  import opened Words
  import opened Types
  import opened Instrument
  import opened CodeBytes
  import opened Protocol
  import opened ProtocolSafety

  /** The blocks that threads enter. */
  function EnteredIn(run: seq<Label>): set<Block> {
    if run == [] then {} else EnteredBy(run[0]) + EnteredIn(run[1..])
  }

  function EnteredBy(l: Label): set<Block> {
    if l.ThreadNext? && l.act.EnterBlock? then {l.act.b} else {}
  }

  predicate EndsOf(blocks: set<Block>, start: U64, end: U64) {
    exists b :: b in blocks && start == First(b) && end == Last(b)
  }

  predicate NamedIn(items: seq<Item>, blocks: set<Block>) {
    forall k :: 0 <= k < |items| && !items[k].App? ==> EndsOf(blocks, items[k].start, items[k].end)
  }

  /** The calls ahead of the thread, and the one it is in, name blocks that were entered. */
  predicate ThreadNamed(th: Thread, blocks: set<Block>) {
    && NamedIn(th.tail, blocks)
    && (th.Blocked? || th.Owning? ==>
          && (th.job.Count? ==> EndsOf(blocks, th.job.start, th.job.end))
          && (th.job.Build? ==> th.job.b in blocks))
    && (th.Stopping? ==> EndsOf(blocks, th.start, th.end))
  }

  predicate CacheNamed(cache: map<Block, seq<Item>>, blocks: set<Block>) {
    forall b :: b in cache ==> NamedIn(cache[b], blocks)
  }

  predicate RecordNamed(records: Records, blocks: set<Block>) {
    records.block.Some? ==> EndsOf(blocks, records.block.value.start, records.block.value.end)
  }

  predicate AllNamed(s: State, blocks: set<Block>) {
    && (forall t :: 0 <= t < |s.threads| ==> ThreadNamed(s.threads[t], blocks))
    && CacheNamed(s.debug.cache, blocks) && RecordNamed(s.records, blocks)
  }

  lemma InstrumentedNamed(b: Block, active: map<U64, U64>, stops: set<EventType>, blocks: set<Block>)
    requires b in blocks
    ensures NamedIn(Instrumented(b, active, stops), blocks)
  {
    var items := Instrumented(b, active, stops);
    forall k | 0 <= k < |items| && !items[k].App? ensures EndsOf(blocks, items[k].start, items[k].end) {
      assert items[k] in items;
      WeaveCalls(b, Marked(b, active), First(b), Last(b), items[k]);
    }
  }

  lemma MoreBlocks(s: State, blocks: set<Block>, more: set<Block>)
    requires AllNamed(s, blocks) && blocks <= more
    ensures AllNamed(s, more)
  {
    forall start, end | EndsOf(blocks, start, end) ensures EndsOf(more, start, end) {}
  }

  lemma TailNamed(tail: seq<Item>, blocks: set<Block>)
    requires tail != [] && NamedIn(tail, blocks)
    ensures NamedIn(tail[1..], blocks)
  {
    assert forall k :: 0 <= k < |tail[1..]| ==> tail[1..][k] == tail[k + 1];
  }

  lemma BodyNamed(s: State, t: nat, blocks: set<Block>)
    requires t < |s.threads| && AppEnabled(s, t, Body) && AllNamed(s, blocks)
    ensures var s' := BodyStep(s, t); ThreadNamed(s'.threads[t], blocks) && CacheNamed(s'.debug.cache, blocks)
  {
    if s.threads[t].job.Build? {
      InstrumentedNamed(s.threads[t].job.b, s.debug.tables.active, s.debug.stops, blocks);
    }
  }

  lemma AppNamed(s: State, t: nat, act: Action, blocks: set<Block>)
    requires t < |s.threads| && AppEnabled(s, t, act) && AllNamed(s, blocks)
    requires act.EnterBlock? ==> act.b in blocks
    ensures var s' := AppStep(s, t, act); ThreadNamed(s'.threads[t], blocks) && CacheNamed(s'.debug.cache, blocks)
  {
    var tail := s.threads[t].tail;
    if tail != [] { TailNamed(tail, blocks); }
    if act.Body? { BodyNamed(s, t, blocks); }
  }

  lemma ServerNamed(s: State, l: Label, blocks: set<Block>)
    requires AllNamed(s, blocks) && Enabled(s, l) && !l.ThreadNext?
    ensures AllNamed(Step(s, l), blocks)
  {
    var s' := Step(s, l);
    assert s'.threads == s.threads && (s'.debug.cache == s.debug.cache || s'.debug.cache == map[]);
    assert s'.records.block == s.records.block || s'.records.block == None;
  }

  lemma ThreadNamedKept(s: State, t: nat, act: Action, blocks: set<Block>)
    requires t < |s.threads| && AppEnabled(s, t, act) && AllNamed(s, blocks)
    requires act.EnterBlock? ==> act.b in blocks
    ensures AllNamed(AppStep(s, t, act), blocks)
  {
    AppFrame(s, t, act);
    AppNamed(s, t, act, blocks);
    AppRecordMove(s, t, act);
  }

  lemma AllNamedKept(s: State, l: Label, blocks: set<Block>)
    requires AllNamed(s, blocks) && Enabled(s, l)
    ensures AllNamed(Step(s, l), blocks + EnteredBy(l))
  {
    MoreBlocks(s, blocks, blocks + EnteredBy(l));
    if l.ThreadNext? {
      ThreadNamedKept(s, l.t, l.act, blocks + EnteredBy(l));
    } else {
      ServerNamed(s, l, blocks + EnteredBy(l));
    }
  }

  lemma {:induction false} AllNamedAfter(s: State, run: seq<Label>, blocks: set<Block>)
    requires AllNamed(s, blocks) && IsRun(s, run)
    ensures AllNamed(After(s, run), blocks + EnteredIn(run))
    decreases |run|
  {
    if run == [] {
      assert blocks + {} == blocks;
    } else {
      AllNamedKept(s, run[0], blocks);
      AllNamedAfter(Step(s, run[0]), run[1..], blocks + EnteredBy(run[0]));
      assert blocks + EnteredBy(run[0]) + EnteredIn(run[1..]) == blocks + EnteredIn(run);
    }
  }

  /** In every run, a recorded block and the block of every stop in progress is, from its first address to the end of
      its last instruction, one that some thread entered. */
  lemma RecordedBlockEntered(s: State, run: seq<Label>)
    requires Init(s) && IsRun(s, run)
    ensures var e := After(s, run);
      && (e.records.block.Some? ==> EndsOf(EnteredIn(run), e.records.block.value.start, e.records.block.value.end))
      && forall t :: 0 <= t < |e.threads| && e.threads[t].Stopping? ==>
           EndsOf(EnteredIn(run), e.threads[t].start, e.threads[t].end)
  {
    AllNamedAfter(s, run, {});
    assert {} + EnteredIn(run) == EnteredIn(run);
  }

  /** So when the blocks are contiguous, what is in memory between the recorded ends is the code of an entered block. */
  lemma RecordedBlockCode(s: State, run: seq<Label>, memory: U64 -> Byte, bytes: Bytes)
    requires Init(s) && IsRun(s, run) && After(s, run).records.block.Some?
    requires forall b :: b in EnteredIn(run) ==> Contiguous(b)
    requires var r := After(s, run).records.block.value;
      && |bytes| == r.end - r.start && forall k :: 0 <= k < |bytes| ==> bytes[k] == memory(r.start + k)
    ensures exists b: Block ::
              && b in EnteredIn(run) && Contiguous(b)
              && After(s, run).records.block.value.start == b[0].pc && bytes == Code(b, memory)
  {
    RecordedBlockEntered(s, run);
    var r := After(s, run).records.block.value;
    var b :| b in EnteredIn(run) && r.start == First(b) && r.end == Last(b);
    BlockInMemory(b, memory, bytes);
  }

  // Which stop a record is from

  /** Every stop in progress has a number of its own, and records carry numbers given out already. */
  predicate Numbered(s: State) {
    && (forall t :: 0 <= t < |s.threads| && s.threads[t].Stopping? ==> s.threads[t].call < s.history.calls)
    && (forall t, u :: 0 <= t < u < |s.threads| && s.threads[t].Stopping? && s.threads[u].Stopping? ==>
          s.threads[t].call != s.threads[u].call)
    && (s.records.context.Some? ==> s.records.context.value.call < s.history.calls)
    && (s.records.block.Some? ==> s.records.block.value.call < s.history.calls)
  }

  /** A number is given to a stop when it begins, and kept until it ends. */
  predicate NumberMove(s: State, s': State, th: Thread, th': Thread) {
    if th'.Stopping? && !th.Stopping? then th'.call == s.history.calls && s'.history.calls == s.history.calls + 1
    else s'.history.calls == s.history.calls && (th'.Stopping? ==> th'.call == th.call)
  }

  lemma AppNumberMove(s: State, t: nat, act: Action)
    requires t < |s.threads| && AppEnabled(s, t, act)
    ensures var s' := AppStep(s, t, act); NumberMove(s, s', s.threads[t], s'.threads[t])
  {
  }

  lemma NumberedMove(s: State, s': State, t: nat)
    requires Numbered(s) && Frame(s, s', t) && RecordMove(s, s', s.threads[t], s'.threads[t])
    requires NumberMove(s, s', s.threads[t], s'.threads[t])
    ensures Numbered(s')
  {
  }

  lemma ServerNumbered(s: State, l: Label)
    requires Numbered(s) && Enabled(s, l) && !l.ThreadNext?
    ensures Numbered(Step(s, l))
  {
    var s' := Step(s, l);
    assert s'.threads == s.threads && s'.history.calls == s.history.calls;
    assert s'.records.context == s.records.context || s'.records.context == None;
    assert s'.records.block == s.records.block || s'.records.block == None;
  }

  lemma ThreadNumbered(s: State, t: nat, act: Action)
    requires Numbered(s) && t < |s.threads| && AppEnabled(s, t, act)
    ensures Numbered(AppStep(s, t, act))
  {
    AppFrame(s, t, act);
    AppRecordMove(s, t, act);
    AppNumberMove(s, t, act);
    NumberedMove(s, AppStep(s, t, act), t);
  }

  lemma NumberedKept(s: State, l: Label)
    requires Numbered(s) && Enabled(s, l)
    ensures Numbered(Step(s, l))
  {
    if l.ThreadNext? { ThreadNumbered(s, l.t, l.act); } else { ServerNumbered(s, l); }
  }

  lemma {:induction false} NumberedAfter(s: State, run: seq<Label>)
    requires Numbered(s) && IsRun(s, run)
    ensures Numbered(After(s, run))
    decreases |run|
  {
    if run != [] {
      NumberedKept(s, run[0]);
      NumberedAfter(Step(s, run[0]), run[1..]);
    }
  }

  /** In every run no two stops in progress have the same number, so that records with the same number are from the same
      stop. */
  lemma StopsNumberedApart(s: State, run: seq<Label>)
    requires Init(s) && IsRun(s, run)
    ensures Numbered(After(s, run))
  {
    NumberedAfter(s, run);
  }
}
