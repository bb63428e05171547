/**
 The serializer object of c#/code/XSerialize/Binary/XBinarySerializer2.cs with its mutable id tables
 and stream, and the per-type handlers' loops, proved against the record format.
 */
module BinarySerializer {
  import opened ArrayOdometer
  import opened ObjectGraph
  import opened BinaryFormat
  import opened IdTables
  import opened Sequences
  import opened Wrappers

  // ----- unfolding a run of slots from the middle -----

  /** What is left to read after some slots leads to the result of the whole run. */
  ghost predicate ReadUpTo(s: Schema, ts: seq<Type>, st0: Reader, target: Option<Target>, st: Reader, done: seq<Value>)
    requires s.Ok() && |done| <= |ts|
  {
    ReadSlots(s, ts[|done|..], st, target, done, |s.structs|) == ReadSlots(s, ts, st0, target, [], |s.structs|)
  }

  /** What is on the stream and in the tables after the first n slots, and what the others will add. */
  ghost predicate WrittenUpTo(g: Graph, vs: seq<Value>, ts: seq<Type>, n: nat, tb0: Tables, tb: Tables, out: seq<Token>)
    requires GraphOk(g) && AllFit(g, vs, ts) && n <= |vs|
  {
    && AllFit(g, vs[n..], ts[n..])
    && tb0.objs <= tb.objs
    && var (tb2, rest) := WriteSlots(g, vs[n..], ts[n..], tb);
       WriteSlots(g, vs, ts, tb0) == (tb2, out + rest)
  }

  lemma WrittenNone(g: Graph, vs: seq<Value>, ts: seq<Type>, tb: Tables)
    requires GraphOk(g) && AllFit(g, vs, ts)
    ensures WrittenUpTo(g, vs, ts, 0, tb, tb, [])
  {
    assert vs[0..] == vs && ts[0..] == ts;
    assert [] + WriteSlots(g, vs, ts, tb).1 == WriteSlots(g, vs, ts, tb).1;
  }

  lemma WrittenNext(g: Graph, vs: seq<Value>, ts: seq<Type>, n: nat, tb0: Tables, tb: Tables, out: seq<Token>)
    requires GraphOk(g) && AllFit(g, vs, ts) && n < |vs|
    requires WrittenUpTo(g, vs, ts, n, tb0, tb, out)
    ensures Fits(g, vs[n], ts[n])
    ensures var (tb1, first) := WriteSlot(g, vs[n], ts[n], tb);
      WrittenUpTo(g, vs, ts, n + 1, tb0, tb1, out + first)
  {
    var (tb1, first) := WriteSlot(g, vs[n], ts[n], tb);
    var (tb2, rest) := WriteSlots(g, vs[n + 1..], ts[n + 1..], tb1);
    assert out + (first + rest) == (out + first) + rest;
  }

  class Writer {
    var typeIds: map<Type, nat>
    var writtenIds: map<Value, nat>
    var stream: seq<Token>
    ghost var tables: Tables

    ghost predicate Valid()
      reads this
    {
      IdsOf(typeIds, tables.types) && IdsOf(writtenIds, tables.objs)
    }

    constructor ()
      ensures Valid() && stream == [] && tables == NO_TABLES
    {
      typeIds, writtenIds, stream, tables := map[], map[], [], NO_TABLES;
    }

    method Put(token: Token)
      modifies this`stream
      ensures stream == old(stream) + [token]
    {
      stream := stream + [token];
    }

    /** Both tables start over for every message. */
    method Serialize(g: Graph, v: Value)
      requires GraphOk(g) && ValueOk(g, v)
      modifies this
      ensures Valid() && stream == old(stream) + BinaryFormat.Serialize(g, v)
    {
      typeIds, writtenIds, tables := map[], map[], NO_TABLES;
      Record(g, v);
    }

    method GetOrAddTypeId(t: Type) returns (id: nat)
      requires Valid()
      modifies this
      ensures Valid() && tables == AddType(old(tables), t) && id == IndexOf(tables.types, t)
      ensures stream + IdTokens(id) == old(stream) + TypeTokens(old(tables), t)
    {
      assert HasId(typeIds, tables.types, t);
      if t in typeIds {
        id := typeIds[t];
      } else {
        id := |typeIds|;
        Put(Flag(TYPE));
        Put(Name(t));
        IdsGrow(typeIds, tables.types, t);
        typeIds := typeIds[t := id];
        tables := tables.(types := tables.types + [t]);
      }
      assert HasId(typeIds, tables.types, t);
    }

    method PutId(id: nat)
      modifies this`stream
      ensures stream == old(stream) + IdTokens(id)
    {
      if id >= ID32 {
        Put(Flag(ID32));
        Put(Int(id));
      } else {
        Put(Flag(id));
      }
    }

    /** `_Write`. */
    method Record(g: Graph, v: Value)
      requires Valid() && GraphOk(g) && ValueOk(g, v)
      modifies this
      ensures Valid()
      ensures var w := Write(g, v, old(tables)); tables == w.0 && stream == old(stream) + w.1
      decreases Unseen(g, tables), v, 2
    {
      assert HasId(writtenIds, tables.objs, v);
      if v == Null {
        Put(Flag(NULL));
      } else if v in writtenIds {
        Put(Flag(REUSE));
        Put(Int(writtenIds[v]));
      } else {
        NewRecord(g, v);
      }
    }

    /** The type, announced if it is new, and its id. */
    method PutType(t: Type)
      requires Valid()
      modifies this
      ensures Valid() && tables == AddType(old(tables), t) && stream == old(stream) + TypeTokens(old(tables), t)
    {
      var id := GetOrAddTypeId(t);
      PutId(id);
    }

    /** Gives the object its id: must happen before it is written, to end cycles. */
    method Register(v: Value)
      requires Valid() && v !in tables.objs
      modifies this`writtenIds, this`tables
      ensures Valid() && tables == old(tables).(objs := old(tables).objs + [v])
    {
      IdsGrow(writtenIds, tables.objs, v);
      writtenIds := writtenIds[v := |writtenIds|];
      tables := tables.(objs := tables.objs + [v]);
    }

    method NewRecord(g: Graph, v: Value)
      requires Valid() && GraphOk(g) && ValueOk(g, v) && v != Null && v !in tables.objs
      modifies this
      ensures Valid()
      ensures var w := Write(g, v, old(tables)); tables == w.0 && stream == old(stream) + w.1
      decreases Unseen(g, tables), v, 1
    {
      ghost var tb, base := tables, stream;
      ghost var head := TypeTokens(tb, TypeOf(g, v));
      PutType(TypeOf(g, v));
      if v.PrimVal? || v.StructVal? {
        ghost var body := WriteValue(g, v, tables).1;
        Value(g, v);
        Grouped(base, head, body);
      } else {
        Register(v);
        if v.Text? {
          Put(Chars(v.s));
          Grouped(base, head, [Chars(v.s)]);
        } else {
          WriteObjectIs(g, v.r, tb);
          ghost var body := WriteSlots(g, Slots(g.heap[v.r]), SlotTypes(g.schema, g.heap[v.r]), tables).1;
          Contents(g, g.heap[v.r]);
          GroupedFour(base, head, Head(g.heap[v.r]), body);
        }
      }
    }

    /** The handlers of class objects, collections and arrays: header, then slots. */
    method Contents(g: Graph, o: Object)
      requires Valid() && GraphOk(g) && ObjectOk(g, o)
      modifies this
      ensures Valid()
      ensures var w := WriteSlots(g, Slots(o), SlotTypes(g.schema, o), old(tables));
        tables == w.0 && stream == old(stream) + Head(o) + w.1
      decreases Unseen(g, tables), Slots(o), 4
    {
      match o {
        case PlainObj =>
        case BytesObj(data) =>
          Put(Int(|data|));
          Put(Blob(data));
        case ClassObj(id, fields) => SlotLoop(g, fields, g.schema.classes[id]);
        case ListObj(elem, items) =>
          Put(Int(|items|));
          SlotLoop(g, items, Repeat(elem, |items|));
        case DictObj(key, val, entries) =>
          Put(Int(|entries|));
          EntryLoop(g, key, val, entries);
        case ArrObj(elem, dims, cells) =>
          DimLoop(dims);
          RowsAreCells(dims, cells);
          CellLoop(g, elem, dims, cells);
      }
    }

    /** A value of a value type. */
    method Value(g: Graph, v: Value)
      requires Valid() && GraphOk(g) && ValueOk(g, v) && (v.PrimVal? || v.StructVal?)
      modifies this
      ensures Valid()
      ensures var w := WriteValue(g, v, old(tables)); tables == w.0 && stream == old(stream) + w.1
      decreases Unseen(g, tables), v, 0
    {
      match v {
        case PrimVal(_, bits) => Put(Payload(bits));
        case StructVal(id, fields) => SlotLoop(g, fields, g.schema.structs[id]);
      }
    }

    /** `InternalWrite`. */
    method Slot(g: Graph, v: Value, t: Type)
      requires Valid() && GraphOk(g) && Fits(g, v, t)
      modifies this
      ensures Valid()
      ensures var w := WriteSlot(g, v, t, old(tables)); tables == w.0 && stream == old(stream) + w.1
      decreases Unseen(g, tables), v, 3
    {
      if t.IsValueType() {
        Value(g, v);
      } else {
        Record(g, v);
      }
    }

    /** The n-th slot of a run that began with tables tb0 and stream `base`. */
    method NextSlot(g: Graph, v: Value, t: Type, ghost vs: seq<Value>, ghost ts: seq<Type>, ghost n: nat,
                    ghost tb0: Tables, ghost base: seq<Token>, ghost out: seq<Token>)
      returns (ghost more: seq<Token>)
      requires Valid() && GraphOk(g) && AllFit(g, vs, ts) && n < |vs| && vs[n] == v && ts[n] == t
      requires WrittenUpTo(g, vs, ts, n, tb0, tables, out) && stream == base + out
      modifies this
      ensures Valid() && WrittenUpTo(g, vs, ts, n + 1, tb0, tables, more) && stream == base + more
      decreases Unseen(g, tb0), vs, 1
    {
      WrittenNext(g, vs, ts, n, tb0, tables, out);
      ghost var first := WriteSlot(g, v, t, tables).1;
      more := out + first;
      Slot(g, v, t);
      assert (base + out) + first == base + (out + first);
    }

    method SlotLoop(g: Graph, vs: seq<Value>, ts: seq<Type>)
      requires Valid() && GraphOk(g) && AllFit(g, vs, ts)
      modifies this
      ensures Valid()
      ensures var w := WriteSlots(g, vs, ts, old(tables)); tables == w.0 && stream == old(stream) + w.1
      decreases Unseen(g, tables), vs, 2
    {
      ghost var tb0, base, out := tables, stream, [];
      WrittenNone(g, vs, ts, tb0);
      for n := 0 to |vs|
        invariant Valid() && WrittenUpTo(g, vs, ts, n, tb0, tables, out)
        invariant stream == base + out
      {
        out := NextSlot(g, vs[n], ts[n], vs, ts, n, tb0, base, out);
      }
    }

    /** The n-th entry: its key, then its value. */
    method NextEntry(g: Graph, key: Type, val: Type, entry: (Value, Value), ghost n: nat, ghost vs: seq<Value>,
                     ghost ts: seq<Type>, ghost tb0: Tables, ghost base: seq<Token>, ghost out: seq<Token>)
      returns (ghost more: seq<Token>)
      requires Valid() && GraphOk(g) && AllFit(g, vs, ts) && 2 * n + 1 < |vs|
      requires vs[2 * n] == entry.0 && vs[2 * n + 1] == entry.1 && ts[2 * n] == key && ts[2 * n + 1] == val
      requires WrittenUpTo(g, vs, ts, 2 * n, tb0, tables, out) && stream == base + out
      modifies this
      ensures Valid() && WrittenUpTo(g, vs, ts, 2 * (n + 1), tb0, tables, more) && stream == base + more
      decreases Unseen(g, tb0), vs, 2
    {
      ghost var half := NextSlot(g, entry.0, key, vs, ts, 2 * n, tb0, base, out);
      more := NextSlot(g, entry.1, val, vs, ts, 2 * n + 1, tb0, base, half);
    }

    method EntryLoop(g: Graph, key: Type, val: Type, entries: seq<(Value, Value)>)
      requires Valid() && GraphOk(g) && AllFit(g, Flat(entries), Alternate(key, val, |entries|))
      modifies this
      ensures Valid()
      ensures var w := WriteSlots(g, Flat(entries), Alternate(key, val, |entries|), old(tables));
        tables == w.0 && stream == old(stream) + w.1
      decreases Unseen(g, tables), Flat(entries), 3
    {
      ghost var tb0, base, out := tables, stream, [];
      ghost var vs, ts := Flat(entries), Alternate(key, val, |entries|);
      WrittenNone(g, vs, ts, tb0);
      for n := 0 to |entries|
        invariant Valid() && WrittenUpTo(g, vs, ts, 2 * n, tb0, tables, out)
        invariant stream == base + out
      {
        FlatAt(entries, n);
        out := NextEntry(g, key, val, entries[n], n, vs, ts, tb0, base, out);
      }
    }

    method DimLoop(dims: seq<Dim>)
      modifies this`stream
      ensures stream == old(stream) + DimTokens(dims)
    {
      ghost var out := [];
      for k := 0 to |dims|
        invariant stream == old(stream) + out
        invariant out + DimTokens(dims[k..]) == DimTokens(dims)
      {
        Put(Int(dims[k].length));
        Put(Int(dims[k].lower));
        assert dims[k..][0] == dims[k] && dims[k..][1..] == dims[k + 1..];
        out := out + [Int(dims[k].length), Int(dims[k].lower)];
      }
      assert out == DimTokens(dims);
    }

    /** The odometer loop of the array handler. */
    method CellLoop(g: Graph, elem: Type, dims: seq<Dim>, cells: map<Index, Value>)
      requires Valid() && GraphOk(g)
      requires AllFit(g, CellValues(RowMajor(dims), cells), Repeat(elem, |RowMajor(dims)|))
      requires forall k :: 0 <= k < |RowMajor(dims)| ==> RowMajor(dims)[k] in cells
      modifies this
      ensures Valid()
      ensures var w := WriteSlots(g, CellValues(RowMajor(dims), cells), Repeat(elem, |RowMajor(dims)|), old(tables));
        tables == w.0 && stream == old(stream) + w.1
      decreases Unseen(g, tables), CellValues(RowMajor(dims), cells), 2
    {
      ghost var tb0, base, out := tables, stream, [];
      ghost var rows := RowMajor(dims);
      ghost var vs, ts := CellValues(rows, cells), Repeat(elem, |rows|);
      WrittenNone(g, vs, ts, tb0);
      if IsEmpty(dims) {
        EmptyHasNoRows(dims);
      } else {
        FirstIsFirst(dims);
        var odometer := new Odometer(dims);
        var more := true;
        ghost var n := 0;
        while more
          invariant fresh(odometer.idxs) && odometer.dims == dims
          invariant if more then n < |rows| && odometer.idxs[..] == rows[n] else n == |rows|
          invariant Valid() && WrittenUpTo(g, vs, ts, n, tb0, tables, out)
          invariant stream == base + out
          decreases |rows| - n
        {
          out := NextSlot(g, cells[odometer.idxs[..]], elem, vs, ts, n, tb0, base, out);
          more := odometer.Next(n);
          n := n + 1;
        }
      }
    }
  }

  lemma {:induction false} FlatAt(entries: seq<(Value, Value)>, n: nat)
    requires n < |entries|
    ensures |Flat(entries)| == 2 * |entries|
    ensures Flat(entries)[2 * n] == entries[n].0 && Flat(entries)[2 * n + 1] == entries[n].1
  {
    FlatLength(entries);
    var m := |entries| - 1;
    FlatLength(entries[..m]);
    if n < m {
      FlatAt(entries[..m], n);
    }
  }

  // ----- reading -----

  /** A method's outcome is the function's: no value stands for the exception. */
  ghost predicate Agrees<T>(r: Option<(T, Reader)>, v: Option<T>, st: Reader) {
    if r.None? then v.None? else v == Some(r.value.0) && st == r.value.1
  }

  class ObjectReader {
    var typeList: seq<Type>
    var readObjs: seq<ObjectGraph.Value>
    var heap: Heap
    var next: nat
    var input: seq<Token>

    ghost function State(): Reader
      reads this
    {
      Reader(typeList, readObjs, heap, next, input)
    }

    constructor (heap: Heap, next: nat, input: seq<Token>)
      ensures this.heap == heap && this.next == next && this.input == input
    {
      typeList, readObjs, this.heap, this.next, this.input := [], [], heap, next, input;
    }

    /** Both lists start over for every message. */
    method Deserialize(s: Schema) returns (v: Option<ObjectGraph.Value>)
      requires s.Ok()
      modifies this
      ensures Agrees(BinaryFormat.Deserialize(s, old(heap), old(next), old(input)), v, State())
    {
      typeList, readObjs := [], [];
      v := Record(s);
    }

    /** `_Read`. */
    method Record(s: Schema) returns (v: Option<ObjectGraph.Value>)
      requires s.Ok()
      modifies this
      ensures Agrees(Read(s, old(State())), v, State())
      decreases |input|, 0, 0
    {
      if input == [] || !input[0].Flag? {
        return None;
      }
      var flag := input[0].b;
      input := input[1..];
      if flag == NULL {
        v := Some(Null);
      } else if flag == TYPE {
        if input == [] || !input[0].Name? {
          return None;
        }
        typeList := typeList + [input[0].t];
        input := input[1..];
        v := Record(s);
      } else {
        var id := flag;
        if flag == REUSE || flag == ID32 {
          if input == [] || !input[0].Int? {
            return None;
          }
          var n := input[0].n;
          input := input[1..];
          if flag == REUSE {
            return if 0 <= n < |readObjs| then Some(readObjs[n]) else None;
          }
          v := Typed(s, n);
        } else {
          v := Typed(s, flag);
        }
      }
    }

    /** The rest of a record, with the check that the object read was registered. */
    method Typed(s: Schema, id: int) returns (v: Option<ObjectGraph.Value>)
      requires s.Ok()
      modifies this
      ensures Agrees(ReadTyped(s, id, old(State())), v, State())
      decreases |input|, |s.structs| + 2, 0
    {
      if !(0 <= id < |typeList|) {
        return None;
      }
      var t := typeList[id];
      if t.IsValueType() {
        v := Value(s, t);
      } else {
        var idx := |readObjs|;
        v := Object(s, t);
        if v.Some? && (|readObjs| <= idx || readObjs[idx] != v.value) {
          v := None;
        }
      }
    }

    method Value(s: Schema, t: Type) returns (v: Option<ObjectGraph.Value>)
      requires s.Ok() && t.IsValueType()
      modifies this
      ensures Agrees(ReadValue(s, t, old(State())), v, State())
      decreases |input|, Depth(s, t), 0
    {
      match t {
        case Prim(name) =>
          if input == [] || !input[0].Payload? {
            return None;
          }
          v := Some(PrimVal(name, input[0].bits));
          input := input[1..];
        case Struct(id) =>
          if id >= |s.structs| {
            return None;
          }
          var fields := SlotLoop(s, s.structs[id], None, id);
          v := if fields.Some? then Some(StructVal(id, fields.value)) else None;
      }
    }

    /** `InternalRead`. */
    method Slot(s: Schema, t: Type) returns (v: Option<ObjectGraph.Value>)
      requires s.Ok()
      modifies this
      ensures Agrees(ReadSlot(s, t, old(State())), v, State())
      decreases |input|, Depth(s, t), 1
    {
      if t.IsValueType() {
        v := Value(s, t);
      } else {
        v := Record(s);
      }
    }

    /** `InternalAddReadObjToCacheList` of a newly made object. */
    method Open(shell: Object, rest: seq<Token>) returns (r: nat)
      modifies this
      ensures r == old(next) && typeList == old(typeList)
      ensures State() == Reader(typeList, old(readObjs) + [Ref(r)], old(heap)[r := shell], r + 1, rest)
    {
      r := next;
      next := next + 1;
      heap := heap[r := shell];
      readObjs := readObjs + [Ref(r)];
      input := rest;
    }

    /** The handlers of strings, class objects, collections and arrays. */
    method Object(s: Schema, t: Type) returns (v: Option<ObjectGraph.Value>)
      requires s.Ok() && !t.IsValueType()
      modifies this
      ensures Agrees(ReadObject(s, t, old(State())), v, State())
      decreases |input|, |s.structs| + 1, 0
    {
      if t == Str {
        if input == [] || !input[0].Chars? {
          return None;
        }
        v := Some(Text(input[0].s));
        readObjs := readObjs + [v.value];
        input := input[1..];
        return;
      }
      var head := ReadHead(s, t, input);
      if head.None? {
        return None;
      }
      var (shell, ts, rest) := head.value;
      var r := Open(shell, rest);
      var slots;
      if shell.ArrObj? {
        slots := CellLoop(s, shell.elem, shell.dims, r);
      } else {
        slots := SlotLoop(s, ts, Some(Target(r, shell)), |s.structs|);
      }
      v := if slots.Some? then Some(Ref(r)) else None;
    }

    /** Slots in visiting order; with a target, each is stored before the next is read. */
    method SlotLoop(s: Schema, ts: seq<Type>, target: Option<Target>, depth: nat) returns (vals: Option<seq<ObjectGraph.Value>>)
      requires s.Ok() && forall k :: 0 <= k < |ts| ==> Depth(s, ts[k]) <= depth
      modifies this
      ensures Agrees(ReadSlots(s, ts, old(State()), target, [], depth), vals, State())
      decreases |input|, depth, |ts| + 2
    {
      var done := [];
      ghost var st0 := State();
      assert ts[0..] == ts;
      for n := 0 to |ts|
        invariant |input| <= |old(input)|
        invariant ReadSlots(s, ts[n..], State(), target, done, depth) == ReadSlots(s, ts, st0, target, [], depth)
      {
        var v := Slot(s, ts[n]);
        if v.None? {
          return None;
        }
        done := done + [v.value];
        if target.Some? {
          if !Accepts(target.value.shell, done) {
            return None;
          }
          heap := heap[target.value.r := Build(target.value.shell, done)];
        }
      }
      vals := Some(done);
    }

    /** One round of the odometer loop: an element is read and stored at its index. */
    method NextCell(s: Schema, elem: Type, dims: seq<Dim>, r: nat, idx: Index, cells: map<Index, ObjectGraph.Value>,
                    ghost ts: seq<Type>, ghost done: seq<ObjectGraph.Value>)
      returns (v: Option<ObjectGraph.Value>, more: map<Index, ObjectGraph.Value>)
      requires s.Ok() && ts == Repeat(elem, |RowMajor(dims)|) && |done| < |ts| && RowMajor(dims)[|done|] == idx
      requires cells == CellsOf(RowMajor(dims), done)
      modifies this
      ensures v.Some? ==> |input| <= |old(input)|
      ensures var target := Some(Target(r, ArrObj(elem, dims, map[])));
        var whole := ReadSlots(s, ts[|done|..], old(State()), target, done, |s.structs|);
        if v.None? then whole == None
        else
          && more == CellsOf(RowMajor(dims), done + [v.value])
          && whole == ReadSlots(s, ts[|done| + 1..], State(), target, done + [v.value], |s.structs|)
      decreases |input|, |s.structs|, 2
    {
      ghost var target := Some(Target(r, ArrObj(elem, dims, map[])));
      v := Slot(s, elem);
      more := cells;
      if v.Some? {
        assert (done + [v.value])[..|done|] == done;
        more := cells[idx := v.value];
        heap := heap[r := ArrObj(elem, dims, more)];
      }
    }

    /** The odometer loop of the array handler: each element is stored at the index it was read for. */
    method CellLoop(s: Schema, elem: Type, dims: seq<Dim>, r: nat) returns (vals: Option<seq<ObjectGraph.Value>>)
      requires s.Ok()
      modifies this
      ensures Agrees(ReadSlots(s, Repeat(elem, |RowMajor(dims)|), old(State()), Some(Target(r, ArrObj(elem, dims, map[]))), [], |s.structs|),
                     vals, State())
      decreases |input|, |s.structs|, |RowMajor(dims)| + 3
    {
      var done: seq<ObjectGraph.Value> := [];
      ghost var st0, rows := State(), RowMajor(dims);
      ghost var ts, target := Repeat(elem, |rows|), Some(Target(r, ArrObj(elem, dims, map[])));
      assert ts[0..] == ts;
      if IsEmpty(dims) {
        EmptyHasNoRows(dims);
        return Some([]);
      }
      FirstIsFirst(dims);
      var odometer := new Odometer(dims);
      var cells: map<Index, ObjectGraph.Value> := map[];
      var more := true;
      while more
        invariant fresh(odometer.idxs) && odometer.dims == dims
        invariant if more then |done| < |rows| && odometer.idxs[..] == rows[|done|] else |done| == |rows|
        invariant |input| <= |old(input)| && cells == CellsOf(rows, done)
        invariant ReadUpTo(s, ts, st0, target, State(), done)
        decreases |rows| - |done|
      {
        ghost var n := |done|;
        var v, next := NextCell(s, elem, dims, r, odometer.idxs[..], cells, ts, done);
        if v.None? {
          return None;
        }
        done, cells := done + [v.value], next;
        more := odometer.Next(n);
      }
      vals := Some(done);
    }
  }
}
