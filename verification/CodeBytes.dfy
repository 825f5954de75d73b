/** The code a stop reports: the ends its call names, and the bytes of the block's instructions between them. */
module CodeBytes {
  import opened Words
  import opened Types
  import opened Instrument

  /** Each instruction begins where the one before it ends, and the last ends inside the address space. */
  predicate Contiguous(instrs: seq<Instr>) {
    forall i :: 0 <= i < |instrs| ==>
      && instrs[i].len > 0 && instrs[i].pc + instrs[i].len < 0x1_0000_0000_0000_0000
      && (i + 1 < |instrs| ==> instrs[i + 1].pc == instrs[i].pc + instrs[i].len)
  }

  /** Some instruction has a byte at `x`. */
  predicate InCode(instrs: seq<Instr>, x: int) {
    exists i :: 0 <= i < |instrs| && instrs[i].pc <= x < instrs[i].pc + instrs[i].len
  }

  lemma ContiguousTail(instrs: seq<Instr>)
    requires Contiguous(instrs) && instrs != []
    ensures Contiguous(instrs[1..])
  {
    forall i | 0 <= i < |instrs[1..]| ensures instrs[1..][i] == instrs[i + 1] {}
  }

  /** From the first address on to the end of the last instruction there is code, and nowhere else. */
  lemma {:induction false} CodeSpans(instrs: seq<Instr>, x: int)
    requires Contiguous(instrs) && instrs != []
    ensures var last := instrs[|instrs| - 1];
      && instrs[0].pc < last.pc + last.len && (InCode(instrs, x) <==> instrs[0].pc <= x < last.pc + last.len)
  {
    if |instrs| > 1 {
      var rest := instrs[1..];
      ContiguousTail(instrs);
      CodeSpans(rest, x);
      assert rest[0] == instrs[1] && rest[|rest| - 1] == instrs[|instrs| - 1];
      if i :| 0 <= i < |rest| && rest[i].pc <= x < rest[i].pc + rest[i].len {
        assert instrs[i + 1] == rest[i];
      }
      if i :| 0 <= i < |instrs| && instrs[i].pc <= x < instrs[i].pc + instrs[i].len {
        if i > 0 { assert rest[i - 1] == instrs[i]; }
      }
    }
  }

  /** The bytes of the instructions, one instruction after the other. */
  function Code(instrs: seq<Instr>, memory: U64 -> Byte): Bytes
    requires Contiguous(instrs)
  {
    if instrs == [] then []
    else
      ContiguousTail(instrs);
      seq(instrs[0].len, j requires 0 <= j < instrs[0].len => memory(instrs[0].pc + j)) + Code(instrs[1..], memory)
  }

  lemma {:induction false} CodeIsMemory(instrs: seq<Instr>, memory: U64 -> Byte)
    requires Contiguous(instrs) && instrs != []
    ensures var first, last := instrs[0].pc, instrs[|instrs| - 1].pc + instrs[|instrs| - 1].len;
      && first + |Code(instrs, memory)| == last < TWO64
      && forall k :: 0 <= k < last - first ==> Code(instrs, memory)[k] == memory(first + k)
  {
    ContiguousTail(instrs);
    var own := seq(instrs[0].len, j requires 0 <= j < instrs[0].len => memory(instrs[0].pc + j));
    var rest := instrs[1..];
    if rest == [] {
      assert Code(rest, memory) == [] && own + [] == own;
    } else {
      CodeIsMemory(rest, memory);
      assert rest[0] == instrs[1] && rest[|rest| - 1] == instrs[|instrs| - 1];
    }
  }

  /** Every call put into a contiguous block names exactly the code of the block: an address lies between its ends if
      and only if an instruction has a byte there. */
  lemma CallSpansBlock(b: Block, active: map<U64, U64>, stops: set<EventType>, c: Item, x: int)
    requires Contiguous(b) && c in Instrumented(b, active, stops) && !c.App?
    ensures c.start == b[0].pc && (c.start <= x < c.end <==> InCode(b, x))
  {
    var marked := Marked(b, active);
    WeaveCalls(b, marked, First(b), Last(b), c);
    CodeSpans(b, x);
    assert c.start == First(b) && c.end == Last(b);
    EndExact(b);
  }

  /** Such blocks are straight-line. */
  lemma ContiguousStraight(b: Block)
    requires Contiguous(b)
    ensures StraightLine(b)
  {
    EndExact(b);
    forall i | 0 <= i < |b| ensures First(b) <= b[i].pc <= Last(b) {
      CodeSpans(b, b[i].pc);
      assert InCode(b, b[i].pc);
    }
  }

  /** What is in memory between the ends of a contiguous block is the bytes of its instructions. */
  lemma BlockInMemory(b: Block, memory: U64 -> Byte, bytes: Bytes)
    requires Contiguous(b) && |bytes| == Last(b) - First(b)
    requires forall k :: 0 <= k < |bytes| ==> bytes[k] == memory(First(b) + k)
    ensures bytes == Code(b, memory)
  {
    CodeIsMemory(b, memory);
    EndExact(b);
    var code := Code(b, memory);
    assert |bytes| == |code|;
    assert forall k :: 0 <= k < |bytes| ==> bytes[k] == code[k];
  }

  /** The end does not wrap. */
  lemma EndExact(b: Block)
    requires Contiguous(b)
    ensures Last(b) == b[|b| - 1].pc + b[|b| - 1].len
  {
    Small(b[|b| - 1].pc + b[|b| - 1].len);
  }

  lemma Small(x: nat)
    requires x < TWO64
    ensures AsU64(x) == x
  {
  }
}
