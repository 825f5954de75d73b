/** The generated `read` and `write` methods and `skip` as they run: loops over a stream that add up the bytes
    transferred. */
module Streams {
  import opened Words
  import opened Binary
  import opened Wire
  import opened Codec
  import opened Messages

  // Transfer counts are kept exact here. The program keeps them in a `uint32_t`, which wraps at every addition:

  /** A sum of counts in 32 bits. */
  function Wrapped(counts: seq<nat>): nat {
    if counts == [] then 0 else (counts[0] % TWO32 + Wrapped(counts[1..])) % TWO32
  }

  function Sum(counts: seq<nat>): nat {
    if counts == [] then 0 else counts[0] + Sum(counts[1..])
  }

  /** Wrapping at every addition gives the exact sum modulo 2^32. */
  lemma {:induction false} WrappedIsModulo(counts: seq<nat>)
    ensures Wrapped(counts) == Sum(counts) % TWO32
  {
    if counts != [] { WrappedIsModulo(counts[1..]); }
  }

  /** Elements read so far, followed by those a reader still finds. */
  function After<T>(done: seq<T>, r: Option<(seq<T>, nat)>): Option<(seq<T>, nat)> {
    match r case None => None case Some((more, end)) => Some((done + more, end))
  }

  lemma AfterNothing<T>(r: Option<(seq<T>, nat)>)
    ensures After([], r) == r
  {
    if r.Some? { assert [] + r.value.0 == r.value.0; }
  }

  lemma AfterOne<T>(done: seq<T>, x: T, r: Option<(seq<T>, nat)>)
    ensures After(done, After([x], r)) == After(done + [x], r)
  {
    if r.Some? { assert done + ([x] + r.value.0) == (done + [x]) + r.value.0; }
  }

  lemma AfterLast<T>(done: seq<T>, end: nat)
    ensures After(done, Some(([], end))) == Some((done, end))
  {
    assert done + [] == done;
  }

  lemma NextElem(elem: Ty, n: nat, b: Bytes, p: nat, done: seq<Val>, v: Val, q: nat)
    requires n > 0 && p <= |b| && Read(elem, Fresh(elem), b, p) == Some((v, q))
    ensures After(done, ReadElems(elem, n, b, p)) == After(done + [v], ReadElems(elem, n - 1, b, q))
  {
    AfterOne(done, v, ReadElems(elem, n - 1, b, q));
  }

  lemma NextPair(key: Ty, val: Ty, n: nat, b: Bytes, p: nat, done: seq<Pair>, pair: Pair, q: nat)
    requires n > 0 && p <= |b| && ReadPair(key, val, b, p) == Some((pair, q))
    ensures After(done, ReadPairs(key, val, n, b, p)) == After(done + [pair], ReadPairs(key, val, n - 1, b, q))
  {
    AfterOne(done, pair, ReadPairs(key, val, n - 1, b, q));
  }

  lemma NoNextElem(elem: Ty, n: nat, b: Bytes, p: nat, done: seq<Val>)
    requires n > 0 && p <= |b| && Read(elem, Fresh(elem), b, p) == None
    ensures After(done, ReadElems(elem, n, b, p)) == None
  {
  }

  lemma NoNextPair(key: Ty, val: Ty, n: nat, b: Bytes, p: nat, done: seq<Pair>)
    requires n > 0 && p <= |b| && ReadPair(key, val, b, p) == None
    ensures After(done, ReadPairs(key, val, n, b, p)) == None
  {
  }

  lemma LastElem(elem: Ty, b: Bytes, p: nat, done: seq<Val>)
    requires p <= |b|
    ensures After(done, ReadElems(elem, 0, b, p)) == Some((done, p))
  {
    AfterLast(done, p);
  }

  lemma LastPair(key: Ty, val: Ty, b: Bytes, p: nat, done: seq<Pair>)
    requires p <= |b|
    ensures After(done, ReadPairs(key, val, 0, b, p)) == Some((done, p))
  {
    AfterLast(done, p);
  }

  lemma NextField(slots: seq<Slot>, cells: seq<Cell>, b: Bytes, p: nat, id: int, cells': seq<Cell>, q: nat)
    requires Typed(slots, cells) && p < |b| && b[p] != STOP && ReadI16(b, p + 1) == Some(id)
    requires ReadField(slots, cells, id, b[p], b, p + 3) == Some((cells', q))
    ensures ReadFields(slots, cells, b, p) == ReadFields(slots, cells', b, q)
  {
  }

  /** A stream being read; every read answers `ok == false` where the program throws. */
  class Reader {
    const buf: Bytes
    var pos: nat

    ghost predicate Valid()
      reads this
    {
      pos <= |buf|
    }

    constructor (b: Bytes)
      ensures Valid() && buf == b && pos == 0
    {
      buf := b;
      pos := 0;
    }

    method TakeByte() returns (ok: bool, xfer: nat, x: Byte)
      requires Valid()
      modifies this`pos
      ensures Valid() && ok == (old(pos) < |buf|)
      ensures ok ==> x == buf[old(pos)] && pos == old(pos) + 1 && xfer == 1
    {
      ok, xfer, x := pos < |buf|, 1, 0;
      if ok {
        x := buf[pos];
        pos := pos + 1;
      }
    }

    method TakeI32() returns (ok: bool, xfer: nat, n: I32)
      requires Valid()
      modifies this`pos
      ensures Valid() && ok == ReadI32(buf, old(pos)).Some?
      ensures ok ==> ReadI32(buf, old(pos)) == Some(n) && pos == old(pos) + 4 && xfer == 4
    {
      ok, xfer, n := pos + 4 <= |buf|, 4, 0;
      if ok {
        n := ReadI32(buf, pos).value;
        pos := pos + 4;
      }
    }

    method TakeI64() returns (ok: bool, xfer: nat, n: I64)
      requires Valid()
      modifies this`pos
      ensures Valid() && ok == ReadI64(buf, old(pos)).Some?
      ensures ok ==> ReadI64(buf, old(pos)) == Some(n) && pos == old(pos) + 8 && xfer == 8
    {
      ok, xfer, n := pos + 8 <= |buf|, 8, 0;
      if ok {
        n := ReadI64(buf, pos).value;
        pos := pos + 8;
      }
    }

    /** A size; negative ones are refused. */
    method TakeSize() returns (ok: bool, xfer: nat, n: nat)
      requires Valid()
      modifies this`pos
      ensures Valid() && ok == ReadSize(buf, old(pos)).Some?
      ensures ok ==> ReadSize(buf, old(pos)) == Some(n) && pos == old(pos) + 4 && xfer == 4
    {
      var m;
      ok, xfer, m := TakeI32();
      ok := ok && m >= 0;
      n := if ok then m else 0;
    }

    /** `readStringBody`. */
    method TakeBytes(n: nat) returns (ok: bool, xfer: nat, s: Bytes)
      requires Valid()
      modifies this`pos
      ensures Valid() && ok == (old(pos) + n <= |buf|)
      ensures ok ==> pos == old(pos) + n && s == buf[old(pos)..pos] && xfer == n
    {
      ok, xfer, s := pos + n <= |buf|, n, [];
      if ok {
        s := buf[pos..pos + n];
        pos := pos + n;
      }
    }

    method TakeString() returns (ok: bool, xfer: nat, s: Bytes)
      requires Valid()
      modifies this`pos
      ensures Valid() && ok == StringEnd(buf, old(pos)).Some?
      ensures ok ==> StringEnd(buf, old(pos)) == Some(pos) && s == buf[old(pos) + 4..pos] && xfer == pos - old(pos)
    {
      var n, x;
      s := [];
      ok, xfer, n := TakeSize();
      if ok {
        ok, x, s := TakeBytes(n);
        xfer := xfer + x;
      }
    }

    /** `readFieldBegin`: a stop byte stands alone, other types are followed by an id. */
    method TakeFieldBegin() returns (ok: bool, xfer: nat, code: Byte, id: int)
      requires Valid()
      modifies this`pos
      ensures Valid()
      ensures ok == (old(pos) < |buf| && (buf[old(pos)] == STOP || ReadI16(buf, old(pos) + 1).Some?))
      ensures ok ==> code == buf[old(pos)] && xfer == pos - old(pos)
      ensures ok && code == STOP ==> pos == old(pos) + 1
      ensures ok && code != STOP ==> ReadI16(buf, old(pos) + 1) == Some(id) && pos == old(pos) + 3
    {
      id := 0;
      ok, xfer, code := TakeByte();
      if ok && code != STOP {
        ok := pos + 2 <= |buf|;
        if ok {
          id := ReadI16(buf, pos).value;
          pos := pos + 2;
          xfer := xfer + 2;
        }
      }
    }

    /** `readSetBegin`. */
    method TakeManyBegin() returns (ok: bool, xfer: nat, elem: Byte, n: nat)
      requires Valid()
      modifies this`pos
      ensures Valid() && ok == ReadSize(buf, old(pos) + 1).Some?
      ensures ok ==> ReadSize(buf, old(pos) + 1) == Some(n) && elem == buf[old(pos)] && pos == old(pos) + 5 && xfer == 5
    {
      n := 0;
      ok, xfer, elem := TakeByte();
      if ok {
        var x;
        ok, x, n := TakeSize();
        xfer := xfer + x;
      }
    }

    /** `readMapBegin`. */
    method TakeTableBegin() returns (ok: bool, xfer: nat, key: Byte, val: Byte, n: nat)
      requires Valid()
      modifies this`pos
      ensures Valid() && ok == ReadSize(buf, old(pos) + 2).Some?
      ensures ok ==> ReadSize(buf, old(pos) + 2) == Some(n) && key == buf[old(pos)] && val == buf[old(pos) + 1]
      ensures ok ==> pos == old(pos) + 6 && xfer == 6
    {
      n, val := 0, 0;
      ok, xfer, key := TakeByte();
      if ok {
        var x;
        ok, x, val, n := TakeManyBegin();
        xfer := xfer + x;
      }
    }

    /** `skip`. */
    method SkipValue(code: Byte) returns (ok: bool, xfer: nat)
      requires Valid()
      modifies this`pos
      ensures Valid() && ok == Skip(code, buf, old(pos)).Some?
      ensures ok ==> Skip(code, buf, old(pos)) == Some(pos) && xfer == pos - old(pos)
      decreases |buf| - pos, 1
    {
      ok, xfer := false, Width(code);
      if Width(code) > 0 {
        ok := pos + Width(code) <= |buf|;
        if ok { pos := pos + Width(code); }
      } else if code == T_STRING {
        var s;
        ok, xfer, s := TakeString();
      } else if code == T_STRUCT {
        ok, xfer := SkipStruct();
      } else if code == T_SET || code == T_LIST {
        ok, xfer := SkipMany();
      } else if code == T_MAP {
        ok, xfer := SkipTable();
      }
    }

    method SkipStruct() returns (ok: bool, xfer: nat)
      requires Valid()
      modifies this`pos
      ensures Valid() && ok == SkipFields(buf, old(pos)).Some?
      ensures ok ==> SkipFields(buf, old(pos)) == Some(pos) && xfer == pos - old(pos)
      decreases |buf| - pos, 0
    {
      ok, xfer := true, 0;
      while true
        invariant Valid() && old(pos) <= pos && SkipFields(buf, old(pos)) == SkipFields(buf, pos)
        invariant xfer == pos - old(pos)
        decreases |buf| - pos
      {
        var x, code, id;
        ok, x, code, id := TakeFieldBegin();
        if !ok { return; }
        xfer := xfer + x;
        if code == STOP { return; }
        ok, x := SkipValue(code);
        if !ok { return; }
        xfer := xfer + x;
      }
    }

    method SkipMany() returns (ok: bool, xfer: nat)
      requires Valid()
      modifies this`pos
      ensures Valid() && ok == Skip(T_SET, buf, old(pos)).Some?
      ensures ok ==> Skip(T_SET, buf, old(pos)) == Some(pos) && xfer == pos - old(pos)
      decreases |buf| - pos, 0
    {
      var elem, n;
      ok, xfer, elem, n := TakeManyBegin();
      if !ok { return; }
      for i := 0 to n
        invariant Valid() && old(pos) + 5 <= pos
        invariant SkipElems(elem, n, buf, old(pos) + 5) == SkipElems(elem, n - i, buf, pos)
        invariant xfer == pos - old(pos)
      {
        var x;
        ok, x := SkipValue(elem);
        if !ok { return; }
        xfer := xfer + x;
      }
      ok := true;
    }

    method SkipTable() returns (ok: bool, xfer: nat)
      requires Valid()
      modifies this`pos
      ensures Valid() && ok == Skip(T_MAP, buf, old(pos)).Some?
      ensures ok ==> Skip(T_MAP, buf, old(pos)) == Some(pos) && xfer == pos - old(pos)
      decreases |buf| - pos, 0
    {
      var key, val, n;
      ok, xfer, key, val, n := TakeTableBegin();
      if !ok { return; }
      for i := 0 to n
        invariant Valid() && old(pos) + 6 <= pos
        invariant SkipEntries(key, val, n, buf, old(pos) + 6) == SkipEntries(key, val, n - i, buf, pos)
        invariant xfer == pos - old(pos)
      {
        var x;
        ok, x := SkipValue(key);
        if !ok { return; }
        xfer := xfer + x;
        ok, x := SkipValue(val);
        if !ok { return; }
        xfer := xfer + x;
      }
      ok := true;
    }

    /** Reading into `init`, whatever its type. */
    method ReadValue(ty: Ty, init: Val) returns (ok: bool, xfer: nat, v: Val)
      requires Valid() && HasType(ty, init)
      modifies this`pos
      ensures Valid() && ok == Read(ty, init, buf, old(pos)).Some?
      ensures ok ==> Read(ty, init, buf, old(pos)) == Some((v, pos)) && xfer == pos - old(pos)
      decreases |buf| - pos, 2
    {
      v := init;
      match ty
      case TI32 =>
        var n;
        ok, xfer, n := TakeI32();
        v := VI32(n);
      case TI64 =>
        var n;
        ok, xfer, n := TakeI64();
        v := VI64(n);
      case TString =>
        var s;
        ok, xfer, s := TakeString();
        v := VString(s);
      case TStruct(slots) =>
        var cells;
        ok, xfer, cells := ReadStruct(slots, init.cells);
        v := VStruct(cells);
      case TSet(elem) =>
        ok, xfer, v := ReadMany(ty);
      case TMap(key, val) =>
        ok, xfer, v := ReadTable(ty);
    }

    /** The `read` of a struct: fields in any order, each by the case of its id, until a stop. */
    method ReadStruct(slots: seq<Slot>, init: seq<Cell>) returns (ok: bool, xfer: nat, cells: seq<Cell>)
      requires Valid() && Typed(slots, init)
      modifies this`pos
      ensures Valid() && ok == ReadFields(slots, init, buf, old(pos)).Some?
      ensures ok ==> ReadFields(slots, init, buf, old(pos)) == Some((cells, pos)) && xfer == pos - old(pos)
      decreases |buf| - pos, 1
    {
      ok, xfer, cells := true, 0, init;
      ghost var total := ReadFields(slots, init, buf, pos);
      while true
        invariant Valid() && old(pos) <= pos && Typed(slots, cells)
        invariant total == ReadFields(slots, cells, buf, pos)
        invariant xfer == pos - old(pos)
        decreases |buf| - pos
      {
        var x, stop;
        ok, x, stop, cells := ReadOne(slots, cells);
        if !ok { return; }
        xfer := xfer + x;
        if stop { return; }
      }
    }

    /** One turn of the loop: a stop, or a field. */
    method ReadOne(slots: seq<Slot>, init: seq<Cell>) returns (ok: bool, xfer: nat, stop: bool, cells: seq<Cell>)
      requires Valid() && Typed(slots, init)
      modifies this`pos
      ensures Valid() && (!ok ==> ReadFields(slots, init, buf, old(pos)).None?)
      ensures ok ==> old(pos) < pos && xfer == pos - old(pos) && Typed(slots, cells)
      ensures ok && stop ==> ReadFields(slots, init, buf, old(pos)) == Some((cells, pos))
      ensures ok && !stop ==> ReadFields(slots, init, buf, old(pos)) == ReadFields(slots, cells, buf, pos)
      decreases |buf| - pos, 0
    {
      cells := init;
      var code, id, x;
      ok, xfer, code, id := TakeFieldBegin();
      stop := ok && code == STOP;
      if !ok || stop { return; }
      ok, x, cells := ReadCase(slots, init, id, code);
      if !ok { return; }
      NextField(slots, init, buf, old(pos), id, cells, pos);
      xfer := xfer + x;
    }

    /** The `switch` on the id of a field: a known one of the expected type is read, any other skipped. */
    method ReadCase(
        slots: seq<Slot>, init: seq<Cell>, id: int, code: Byte) returns (ok: bool, xfer: nat, cells: seq<Cell>)
      requires Valid() && Typed(slots, init)
      modifies this`pos
      ensures Valid() && ok == ReadField(slots, init, id, code, buf, old(pos)).Some?
      ensures ok ==> ReadField(slots, init, id, code, buf, old(pos)) == Some((cells, pos)) && xfer == pos - old(pos)
      decreases |buf| - pos, 3
    {
      cells := init;
      match Case(slots, id, code)
      case Some(i) =>
        var v;
        ok, xfer, v := ReadValue(slots[i].ty, init[i].val);
        if ok { cells := init[i := Cell(true, v)]; }
      case None =>
        ok, xfer := SkipValue(code);
    }

    /** A set is cleared first, and the type of elements on the wire ignored. */
    method ReadMany(ty: Ty) returns (ok: bool, xfer: nat, v: Val)
      requires Valid() && ty.TSet?
      modifies this`pos
      ensures Valid() && ok == Read(ty, VSet([]), buf, old(pos)).Some?
      ensures ok ==> Read(ty, VSet([]), buf, old(pos)) == Some((v, pos)) && xfer == pos - old(pos)
      decreases |buf| - pos, 1
    {
      var code, n, x, vs;
      v := VSet([]);
      ok, xfer, code, n := TakeManyBegin();
      if !ok { return; }
      ok, x, vs := ReadSet(ty.elem, n);
      if !ok { return; }
      xfer := xfer + x;
      v := VSet(vs);
    }

    method ReadTable(ty: Ty) returns (ok: bool, xfer: nat, v: Val)
      requires Valid() && ty.TMap?
      modifies this`pos
      ensures Valid() && ok == Read(ty, VMap([]), buf, old(pos)).Some?
      ensures ok ==> Read(ty, VMap([]), buf, old(pos)) == Some((v, pos)) && xfer == pos - old(pos)
      decreases |buf| - pos, 1
    {
      var key, val, n, x, pairs;
      v := VMap([]);
      ok, xfer, key, val, n := TakeTableBegin();
      if !ok { return; }
      ok, x, pairs := ReadMap(ty.key, ty.val, n);
      if !ok { return; }
      xfer := xfer + x;
      v := VMap(pairs);
    }

    /** The elements of a set in the order the loop inserts them; each is read into a fresh object. */
    method ReadSet(elem: Ty, n: nat) returns (ok: bool, xfer: nat, vs: seq<Val>)
      requires Valid()
      modifies this`pos
      ensures Valid() && ok == ReadElems(elem, n, buf, old(pos)).Some?
      ensures ok ==> ReadElems(elem, n, buf, old(pos)) == Some((vs, pos)) && xfer == pos - old(pos)
      decreases |buf| - pos, 3
    {
      ok, xfer, vs := true, 0, [];
      ghost var total := ReadElems(elem, n, buf, pos);
      AfterNothing(total);
      for i := 0 to n
        invariant Valid() && old(pos) <= pos
        invariant total == After(vs, ReadElems(elem, n - i, buf, pos))
        invariant xfer == pos - old(pos)
      {
        ghost var before := pos;
        var x, v;
        ok, x, v := ReadValue(elem, Fresh(elem));
        if !ok {
          NoNextElem(elem, n - i, buf, before, vs);
          return;
        }
        xfer := xfer + x;
        NextElem(elem, n - i, buf, before, vs, v, pos);
        vs := vs + [v];
      }
      ok := true;
      LastElem(elem, buf, pos, vs);
    }

    method ReadMap(key: Ty, val: Ty, n: nat) returns (ok: bool, xfer: nat, pairs: seq<Pair>)
      requires Valid()
      modifies this`pos
      ensures Valid() && ok == ReadPairs(key, val, n, buf, old(pos)).Some?
      ensures ok ==> ReadPairs(key, val, n, buf, old(pos)) == Some((pairs, pos)) && xfer == pos - old(pos)
      decreases |buf| - pos, 4
    {
      ok, xfer, pairs := true, 0, [];
      ghost var total := ReadPairs(key, val, n, buf, pos);
      AfterNothing(total);
      for i := 0 to n
        invariant Valid() && old(pos) <= pos
        invariant total == After(pairs, ReadPairs(key, val, n - i, buf, pos))
        invariant xfer == pos - old(pos)
      {
        ghost var before := pos;
        var x, pair;
        ok, x, pair := ReadEntry(key, val);
        if !ok {
          NoNextPair(key, val, n - i, buf, before, pairs);
          return;
        }
        xfer := xfer + x;
        NextPair(key, val, n - i, buf, before, pairs, pair, pos);
        pairs := pairs + [pair];
      }
      ok := true;
      LastPair(key, val, buf, pos, pairs);
    }

    method ReadEntry(key: Ty, val: Ty) returns (ok: bool, xfer: nat, pair: Pair)
      requires Valid()
      modifies this`pos
      ensures Valid() && ok == ReadPair(key, val, buf, old(pos)).Some?
      ensures ok ==> ReadPair(key, val, buf, old(pos)) == Some((pair, pos)) && xfer == pos - old(pos)
      decreases |buf| - pos, 3
    {
      var k, v, x;
      ok, xfer, k := ReadValue(key, Fresh(key));
      pair := Pair(k, k);
      if !ok { return; }
      ok, x, v := ReadValue(val, Fresh(val));
      if !ok { return; }
      xfer := xfer + x;
      pair := Pair(k, v);
    }
  }

  /** A stream being written. */
  class Writer {
    var out: Bytes

    constructor ()
      ensures out == []
    {
      out := [];
    }

    method Put(e: Bytes) returns (xfer: nat)
      modifies this
      ensures out == old(out) + e && xfer == |e|
    {
      out := out + e;
      xfer := |e|;
    }

    /** Writes a value of any type. */
    method WriteValue(ty: Ty, v: Val) returns (xfer: nat)
      requires HasType(ty, v)
      modifies this
      ensures out == old(out) + Write(ty, v) && xfer == |Write(ty, v)|
      decreases ty, 1
    {
      match ty
      case TI32 => xfer := Put(I32Bytes(v.int32));
      case TI64 => xfer := Put(I64Bytes(v.int64));
      case TString => xfer := Put(Str(v.text));
      case TStruct(_) => xfer := WriteStruct(ty, v.cells);
      case TSet(_) => xfer := WriteSet(ty, v.elems);
      case TMap(_, _) => xfer := WriteMap(ty, v.pairs);
    }

    /** The `write` of a struct: its fields in order, the optional ones only when set, then a stop. */
    method WriteStruct(ty: Ty, cells: seq<Cell>) returns (xfer: nat)
      requires ty.TStruct? && Typed(ty.slots, cells)
      modifies this
      ensures out == old(out) + EncodeFields(SentFields(ty, cells, 0))
        && xfer == |EncodeFields(SentFields(ty, cells, 0))|
      decreases ty, 0
    {
      xfer := 0;
      ghost var total := old(out) + EncodeFields(SentFields(ty, cells, 0));
      for i := 0 to |cells|
        invariant total == out + EncodeFields(SentFields(ty, cells, i))
        invariant |out| == |old(out)| + xfer
      {
        if !ty.slots[i].optional || cells[i].isset {
          ghost var before := out;
          var x := Put([CodeFor(ty.slots[i].ty)] + I16Bytes(ty.slots[i].id));
          xfer := xfer + x;
          x := WriteValue(ty.slots[i].ty, cells[i].val);
          xfer := xfer + x;
          NextWritten(ty, cells, i, before);
        }
      }
      var x := Put([STOP]);
      xfer := xfer + x;
    }

    method WriteSet(ty: Ty, vs: seq<Val>) returns (xfer: nat)
      requires ty.TSet? && HasType(ty, VSet(vs))
      modifies this
      ensures out == old(out) + Write(ty, VSet(vs)) && xfer == |Write(ty, VSet(vs))|
      decreases ty, 0
    {
      ghost var total := out + Write(ty, VSet(vs));
      WrittenSet(ty, vs, out);
      xfer := Put([CodeFor(ty.elem)] + I32Bytes(|vs|));
      for i := 0 to |vs|
        invariant total == out + EncodeElems(SentElems(ty.elem, vs[i..]))
        invariant |out| == |old(out)| + xfer
      {
        ghost var before := out;
        var x := WriteValue(ty.elem, vs[i]);
        xfer := xfer + x;
        NextSent(ty.elem, vs[i..], before);
        assert vs[i..][1..] == vs[i + 1..];
      }
      Appended(out, total);
    }

    method WriteMap(ty: Ty, pairs: seq<Pair>) returns (xfer: nat)
      requires ty.TMap? && HasType(ty, VMap(pairs))
      modifies this
      ensures out == old(out) + Write(ty, VMap(pairs)) && xfer == |Write(ty, VMap(pairs))|
      decreases ty, 0
    {
      ghost var total := out + Write(ty, VMap(pairs));
      WrittenMap(ty, pairs, out);
      xfer := Put([CodeFor(ty.key)] + ([CodeFor(ty.val)] + I32Bytes(|pairs|)));
      for i := 0 to |pairs|
        invariant total == out + EncodeEntries(SentPairs(ty.key, ty.val, pairs[i..]))
        invariant |out| == |old(out)| + xfer
      {
        ghost var before := out;
        var x := WriteValue(ty.key, pairs[i].key);
        xfer := xfer + x;
        x := WriteValue(ty.val, pairs[i].val);
        xfer := xfer + x;
        NextSentPair(ty.key, ty.val, pairs[i..], before);
        assert pairs[i..][1..] == pairs[i + 1..];
      }
      Appended(out, total);
    }
  }

  lemma Appended(out: Bytes, total: Bytes)
    requires total == out + []
    ensures total == out
  {
  }

  lemma WrittenSet(ty: Ty, vs: seq<Val>, out: Bytes)
    requires ty.TSet? && HasType(ty, VSet(vs))
    ensures out + Write(ty, VSet(vs)) ==
      out + ([CodeFor(ty.elem)] + I32Bytes(|vs|)) + EncodeElems(SentElems(ty.elem, vs))
  {
    CountSent(ty.elem, vs);
    var c, n, e := [CodeFor(ty.elem)], I32Bytes(|vs|), EncodeElems(SentElems(ty.elem, vs));
    assert Write(ty, VSet(vs)) == c + (n + e);
    Regroup(out, c, n, e);
  }

  lemma WrittenMap(ty: Ty, pairs: seq<Pair>, out: Bytes)
    requires ty.TMap? && HasType(ty, VMap(pairs))
    ensures out + Write(ty, VMap(pairs)) ==
            out + ([CodeFor(ty.key)] + ([CodeFor(ty.val)] + I32Bytes(|pairs|)))
              + EncodeEntries(SentPairs(ty.key, ty.val, pairs))
  {
    CountSentPairs(ty.key, ty.val, pairs);
    var c, d, n, e :=
      [CodeFor(ty.key)], [CodeFor(ty.val)], I32Bytes(|pairs|), EncodeEntries(SentPairs(ty.key, ty.val, pairs));
    assert Write(ty, VMap(pairs)) == c + (d + (n + e));
    RegroupAll(out, c, d, n, e);
  }

  lemma Regroup(c: Bytes, d: Bytes, e: Bytes, f: Bytes)
    ensures c + (d + (e + f)) == c + d + e + f == c + (d + e) + f
  {
  }

  lemma RegroupAll(b: Bytes, c: Bytes, d: Bytes, e: Bytes, f: Bytes)
    ensures b + (c + (d + (e + f))) == b + (c + (d + e)) + f
  {
    assert c + (d + (e + f)) == c + (d + e) + f;
  }

  lemma NextWritten(ty: Ty, cells: seq<Cell>, i: nat, out: Bytes)
    requires ty.TStruct? && Typed(ty.slots, cells) && i < |cells| && !Omitted(ty.slots[i], cells[i])
    ensures var slot := ty.slots[i];
      out + EncodeFields(SentFields(ty, cells, i)) ==
      out + ([CodeFor(slot.ty)] + I16Bytes(slot.id)) + Write(slot.ty, cells[i].val)
        + EncodeFields(SentFields(ty, cells, i + 1))
  {
    SentCode(ty.slots[i].ty, cells[i].val);
  }

  lemma NextSent(elem: Ty, vs: seq<Val>, out: Bytes)
    requires vs != [] && HasType(TSet(elem), VSet(vs))
    ensures out + EncodeElems(SentElems(elem, vs)) == out + Write(elem, vs[0]) + EncodeElems(SentElems(elem, vs[1..]))
  {
  }

  lemma NextSentPair(key: Ty, val: Ty, pairs: seq<Pair>, out: Bytes)
    requires pairs != [] && HasType(TMap(key, val), VMap(pairs))
    ensures out + EncodeEntries(SentPairs(key, val, pairs)) ==
            out + Write(key, pairs[0].key) + Write(val, pairs[0].val) + EncodeEntries(SentPairs(key, val, pairs[1..]))
  {
    Regroup(out, Write(key, pairs[0].key), Write(val, pairs[0].val), EncodeEntries(SentPairs(key, val, pairs[1..])));
  }

  lemma {:induction false} CountSent(elem: Ty, vs: seq<Val>)
    requires HasType(TSet(elem), VSet(vs))
    ensures ElemCount(SentElems(elem, vs)) == |vs|
  {
    if vs != [] { CountSent(elem, vs[1..]); }
  }

  lemma {:induction false} CountSentPairs(key: Ty, val: Ty, pairs: seq<Pair>)
    requires HasType(TMap(key, val), VMap(pairs))
    ensures EntryCount(SentPairs(key, val, pairs)) == |pairs|
  {
    if pairs != [] { CountSentPairs(key, val, pairs[1..]); }
  }
}
