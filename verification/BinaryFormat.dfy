/**
 The record format of c#/code/XSerialize/Binary/XBinarySerializer2.cs as pure functions: what the
 writer puts on the stream for a value and what the reader makes of a stream.

 Bytes of primitives, strings and type names are single tokens; flags, ids and counts are the
 numbers the original writes.
 */
module BinaryFormat {
  import opened IdTables
  import opened ArrayOdometer
  import opened ObjectGraph
  import opened Wrappers

  type Byte = b: nat | b < 256

  const NULL: Byte := 255
  const TYPE: Byte := 254
  const REUSE: Byte := 253
  const ID32: Byte := 252

  datatype Token =
    | Flag(b: Byte)
    | Int(n: int)
    | Name(t: Type)
    | Payload(bits: int)
    | Chars(s: string)
    | Blob(data: seq<int>)

  // ----- writing -----

  /** The writer's two id tables: the id of a type or object is its position. */
  datatype Tables = Tables(types: seq<Type>, objs: seq<Value>)

  const NO_TABLES := Tables([], [])

  function TypeOf(g: Graph, v: Value): Type
    requires v != Null && (v.Ref? ==> v.r in g.heap)
  {
    match v
    case Ref(r) => TypeOfObject(g.heap[r])
    case Text(_) => Str
    case PrimVal(name, _) => Prim(name)
    case StructVal(id, _) => Struct(id)
  }

  function AddType(tb: Tables, t: Type): Tables {
    if t in tb.types then tb else tb.(types := tb.types + [t])
  }

  /** A type met for the first time is announced; then its id follows. */
  function TypeTokens(tb: Tables, t: Type): seq<Token> {
    var id := IndexOf(AddType(tb, t).types, t);
    (if t in tb.types then [] else [Flag(TYPE), Name(t)]) + IdTokens(id)
  }

  function IdTokens(id: nat): seq<Token> {
    if id >= ID32 then [Flag(ID32), Int(id)] else [Flag(id)]
  }

  function DimTokens(dims: seq<Dim>): seq<Token> {
    if dims == [] then [] else [Int(dims[0].length), Int(dims[0].lower)] + DimTokens(dims[1..])
  }

  function Head(o: Object): seq<Token> {
    match o
    case PlainObj => []
    case BytesObj(data) => [Int(|data|), Blob(data)]
    case ClassObj(_, _) => []
    case ArrObj(_, dims, _) => DimTokens(dims)
    case ListObj(_, items) => [Int(|items|)]
    case DictObj(_, _, entries) => [Int(|entries|)]
  }

  /** The objects not yet in the id table: what the writer's recursion uses up. */
  ghost function Unseen(g: Graph, tb: Tables): set<nat> {
    set r | r in g.heap && Ref(r) !in tb.objs
  }

  /** `_Write`: a full record. */
  function Write(g: Graph, v: Value, tb: Tables): (r: (Tables, seq<Token>))
    requires GraphOk(g) && ValueOk(g, v)
    ensures tb.objs <= r.0.objs && tb.types <= r.0.types
    decreases Unseen(g, tb), v, 1
  {
    if v == Null then (tb, [Flag(NULL)])
    else if v in tb.objs then (tb, [Flag(REUSE), Int(IndexOf(tb.objs, v))])
    else
      var t := TypeOf(g, v);
      var head := TypeTokens(tb, t);
      var tb1 := AddType(tb, t);
      if t.IsValueType() then
        var (tb2, body) := WriteValue(g, v, tb1);
        (tb2, head + body)
      else
        var tb2 := tb1.(objs := tb1.objs + [v]);
        if v.Text? then (tb2, head + [Chars(v.s)])
        else
          var o := g.heap[v.r];
          assert EntryOk(g, v.r);
          assert v.r in Unseen(g, tb) && v.r !in Unseen(g, tb2);
          var (tb3, body) := WriteSlots(g, Slots(o), SlotTypes(g.schema, o), tb2);
          (tb3, head + Head(o) + body)
  }

  /** A value of a value type, without a flag. */
  function WriteValue(g: Graph, v: Value, tb: Tables): (r: (Tables, seq<Token>))
    requires GraphOk(g) && ValueOk(g, v) && (v.PrimVal? || v.StructVal?)
    ensures tb.objs <= r.0.objs && tb.types <= r.0.types
    decreases Unseen(g, tb), v, 0
  {
    match v
    case PrimVal(_, bits) => (tb, [Payload(bits)])
    case StructVal(id, fields) => WriteSlots(g, fields, g.schema.structs[id], tb)
  }

  /** `InternalWrite`: no type flag for a variable of a value type. */
  function WriteSlot(g: Graph, v: Value, t: Type, tb: Tables): (r: (Tables, seq<Token>))
    requires GraphOk(g) && Fits(g, v, t)
    ensures tb.objs <= r.0.objs && tb.types <= r.0.types
    decreases Unseen(g, tb), v, 2
  {
    if t.IsValueType() then WriteValue(g, v, tb) else Write(g, v, tb)
  }

  function WriteSlots(g: Graph, vs: seq<Value>, ts: seq<Type>, tb: Tables): (r: (Tables, seq<Token>))
    requires GraphOk(g) && AllFit(g, vs, ts)
    ensures tb.objs <= r.0.objs && tb.types <= r.0.types
    decreases Unseen(g, tb), vs, 0
  {
    if vs == [] then (tb, [])
    else
      var (tb1, first) := WriteSlot(g, vs[0], ts[0], tb);
      var (tb2, rest) := WriteSlots(g, vs[1..], ts[1..], tb1);
      (tb2, first + rest)
  }

  /** The tables once the type is announced and the object registered, before its slots. */
  function Opened(g: Graph, r: nat, tb: Tables): Tables
    requires r in g.heap
  {
    var tb1 := AddType(tb, TypeOfObject(g.heap[r]));
    tb1.(objs := tb1.objs + [Ref(r)])
  }

  /** A new object's record: announcement and id, header, slots. */
  lemma WriteObjectIs(g: Graph, r: nat, tb: Tables)
    requires GraphOk(g) && r in g.heap && Ref(r) !in tb.objs
    ensures ObjectOk(g, g.heap[r]) && Unseen(g, Opened(g, r, tb)) < Unseen(g, tb)
    ensures var o := g.heap[r];
      var (tb3, body) := WriteSlots(g, Slots(o), SlotTypes(g.schema, o), Opened(g, r, tb));
      Write(g, Ref(r), tb) == (tb3, TypeTokens(tb, TypeOfObject(o)) + Head(o) + body)
  {
    assert EntryOk(g, r);
    assert r in Unseen(g, tb) && r !in Unseen(g, Opened(g, r, tb));
  }

  // ----- reading -----

  /** The reader's tables, its heap with the next free reference, and what is left of the stream. */
  datatype Reader = Reader(types: seq<Type>, objs: seq<Value>, heap: Heap, next: nat, input: seq<Token>)

  /** The object a slot is stored into as soon as it is read. */
  datatype Target = Target(r: nat, shell: Object)

  /** Dimension headers; a negative length makes array creation throw. */
  function ReadDims(rank: nat, input: seq<Token>): (r: Option<(seq<Dim>, seq<Token>)>)
    ensures r.Some? ==> |r.value.1| <= |input| && |r.value.0| == rank
  {
    if rank == 0 then Some(([], input))
    else if |input| < 2 || !input[0].Int? || !input[1].Int? || input[0].n < 0 then None
    else
      match ReadDims(rank - 1, input[2..])
      case None => None
      case Some((dims, rest)) => Some(([Dim(input[0].n, input[1].n)] + dims, rest))
  }

  /** A count; a negative one makes the collection's constructor throw. */
  function ReadCount(input: seq<Token>): (r: Option<(nat, seq<Token>)>)
    ensures r.Some? ==> |r.value.1| < |input|
  {
    if input == [] || !input[0].Int? || input[0].n < 0 then None else Some((input[0].n, input[1..]))
  }

  /** The header of an object of type t: the empty object and the types of its slots. */
  function ReadHead(s: Schema, t: Type, input: seq<Token>): (r: Option<(Object, seq<Type>, seq<Token>)>)
    ensures r.Some? ==> |r.value.2| <= |input|
  {
    match t
    case Plain => Some((PlainObj, [], input))
    case Class(id) => if id in s.classes then Some((ClassObj(id, []), s.classes[id], input)) else None
    case Arr(elem, rank) =>
      (match ReadDims(rank, input)
       case None => None
       case Some((dims, rest)) => Some((ArrObj(elem, dims, map[]), Repeat(elem, |RowMajor(dims)|), rest)))
    case Lst(elem) =>
      (match ReadCount(input)
       case None => None
       case Some((n, rest)) => Some((ListObj(elem, []), Repeat(elem, n), rest)))
    case Dict(key, val) =>
      (match ReadCount(input)
       case None => None
       case Some((n, rest)) => Some((DictObj(key, val, []), Alternate(key, val, n), rest)))
    case Bytes =>
      (match ReadCount(input)
       case None => None
       case Some((n, rest)) =>
         if rest != [] && rest[0].Blob? && |rest[0].data| == n then Some((BytesObj(rest[0].data), [], rest[1..])) else None)
    case Prim(_) => None
    case Struct(_) => None
    case Str => None
  }

  /** How deep structs nest in a variable of type t. */
  function Depth(s: Schema, t: Type): nat {
    if t.Struct? && t.id < |s.structs| then t.id + 1 else 0
  }

  /** `_Read`; None stands for every exception. */
  function Read(s: Schema, st: Reader): (r: Option<(Value, Reader)>)
    requires s.Ok()
    ensures r.Some? ==> |r.value.1.input| < |st.input|
    decreases |st.input|, 0, 0
  {
    if st.input == [] || !st.input[0].Flag? then None
    else
      var flag, st1 := st.input[0].b, st.(input := st.input[1..]);
      if flag == NULL then Some((Null, st1))
      else if flag == TYPE then
        if st1.input == [] || !st1.input[0].Name? then None
        else Read(s, st1.(types := st1.types + [st1.input[0].t], input := st1.input[1..]))
      else if flag == REUSE then
        if st1.input == [] || !st1.input[0].Int? || !(0 <= st1.input[0].n < |st1.objs|) then None
        else Some((st1.objs[st1.input[0].n], st1.(input := st1.input[1..])))
      else if flag == ID32 then
        if st1.input == [] || !st1.input[0].Int? then None
        else ReadTyped(s, st1.input[0].n, st1.(input := st1.input[1..]))
      else ReadTyped(s, flag, st1)
  }

  /** The rest of a record once the type id is known, with the registration check at its end. */
  function ReadTyped(s: Schema, id: int, st: Reader): (r: Option<(Value, Reader)>)
    requires s.Ok()
    ensures r.Some? ==> |r.value.1.input| <= |st.input|
    decreases |st.input|, |s.structs| + 2, 0
  {
    if !(0 <= id < |st.types|) then None
    else
      var t := st.types[id];
      if t.IsValueType() then ReadValue(s, t, st)
      else
        match ReadObject(s, t, st)
        case None => None
        case Some((v, st1)) => if Registered(st, v, st1) then Some((v, st1)) else None
  }

  /** The object read is in the cache at the position that was free when its reading began. */
  predicate Registered(before: Reader, v: Value, after: Reader) {
    |before.objs| < |after.objs| && after.objs[|before.objs|] == v
  }

  function ReadObject(s: Schema, t: Type, st: Reader): (r: Option<(Value, Reader)>)
    requires s.Ok() && !t.IsValueType()
    ensures r.Some? ==> |r.value.1.input| <= |st.input|
    decreases |st.input|, |s.structs| + 1, 0
  {
    if t == Str then
      if st.input == [] || !st.input[0].Chars? then None
      else
        var v := Text(st.input[0].s);
        Some((v, st.(objs := st.objs + [v], input := st.input[1..])))
    else
      match ReadHead(s, t, st.input)
      case None => None
      case Some((shell, ts, rest)) =>
        var r := st.next;
        var st1 := Reader(st.types, st.objs + [Ref(r)], st.heap[r := shell], r + 1, rest);
        match ReadSlots(s, ts, st1, Some(Target(r, shell)), [], |s.structs|)
        case None => None
        case Some((_, st2)) => Some((Ref(r), st2))
  }

  function ReadValue(s: Schema, t: Type, st: Reader): (r: Option<(Value, Reader)>)
    requires s.Ok() && t.IsValueType()
    ensures r.Some? ==> |r.value.1.input| <= |st.input|
    decreases |st.input|, Depth(s, t), 0
  {
    match t
    case Prim(name) =>
      if st.input == [] || !st.input[0].Payload? then None
      else Some((PrimVal(name, st.input[0].bits), st.(input := st.input[1..])))
    case Struct(id) =>
      if id >= |s.structs| then None
      else
        match ReadSlots(s, s.structs[id], st, None, [], id)
        case None => None
        case Some((fields, st1)) => Some((StructVal(id, fields), st1))
  }

  /** `InternalRead`. */
  function ReadSlot(s: Schema, t: Type, st: Reader): (r: Option<(Value, Reader)>)
    requires s.Ok()
    ensures r.Some? ==> |r.value.1.input| <= |st.input|
    decreases |st.input|, Depth(s, t), 1
  {
    if t.IsValueType() then ReadValue(s, t, st) else Read(s, st)
  }

  function Store(st: Reader, target: Option<Target>, done: seq<Value>): Reader {
    if target.None? then st
    else st.(heap := st.heap[target.value.r := Build(target.value.shell, done)])
  }

  /** Slot after slot; with a target, each is stored before the next is read. */
  function ReadSlots(s: Schema, ts: seq<Type>, st: Reader, target: Option<Target>, done: seq<Value>, depth: nat)
    : (r: Option<(seq<Value>, Reader)>)
    requires s.Ok() && forall k :: 0 <= k < |ts| ==> Depth(s, ts[k]) <= depth
    ensures r.Some? ==> |r.value.1.input| <= |st.input|
    decreases |st.input|, depth, |ts| + 2
  {
    if ts == [] then Some((done, st))
    else
      match ReadSlot(s, ts[0], st)
      case None => None
      case Some((v, st1)) =>
        if target.Some? && !Accepts(target.value.shell, done + [v]) then None
        else ReadSlots(s, ts[1..], Store(st1, target, done + [v]), target, done + [v], depth)
  }

  // ----- whole messages -----

  function Serialize(g: Graph, v: Value): seq<Token>
    requires GraphOk(g) && ValueOk(g, v)
  {
    Write(g, v, NO_TABLES).1
  }

  /** Both tables start empty for every message; the heap is the reading program's own. */
  function Deserialize(s: Schema, heap: Heap, next: nat, input: seq<Token>): Option<(Value, Reader)>
    requires s.Ok()
  {
    Read(s, Reader([], [], heap, next, input))
  }
}
