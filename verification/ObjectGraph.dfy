/**
 Object graphs as the binary serializers of c#/code/XSerialize/Binary see them: types, values,
 objects on a heap of references, and what it means for one graph to be a copy of another.
 */
module ObjectGraph {
  import opened ArrayOdometer
  import opened Wrappers

  /** `Prim` stands for every value type with a handler of its own, `Struct` for all others. */
  datatype Type =
    | Prim(name: nat)
    | Struct(id: nat)
    | Str
    | Plain
    | Bytes
    | Class(id: nat)
    | Arr(elem: Type, rank: nat)
    | Lst(elem: Type)
    | Dict(key: Type, val: Type)
  {
    predicate IsValueType() { Prim? || Struct? }
  }

  /** What a variable may hold.  Strings are values: the id table compares them by content. */
  datatype Value =
    | Null
    | Ref(r: nat)
    | Text(s: string)
    | PrimVal(name: nat, bits: int)
    | StructVal(id: nat, fields: seq<Value>)

  datatype Object =
    | PlainObj
    | BytesObj(data: seq<int>)
    | ClassObj(id: nat, fields: seq<Value>)
    | ArrObj(elem: Type, dims: seq<Dim>, cells: map<Index, Value>)
    | ListObj(elem: Type, items: seq<Value>)
    | DictObj(key: Type, val: Type, entries: seq<(Value, Value)>)

  /** The field types of every class and struct, base class fields first, as reflection gives them. */
  datatype Schema = Schema(classes: map<nat, seq<Type>>, structs: seq<seq<Type>>) {
    /** A struct cannot contain itself: it only embeds structs of smaller id. */
    ghost predicate Ok() {
      forall n, k :: 0 <= n < |structs| && 0 <= k < |structs[n]| && structs[n][k].Struct? ==> structs[n][k].id < n
    }
  }

  type Heap = map<nat, Object>

  datatype Graph = Graph(schema: Schema, heap: Heap)

  // ----- objects as sequences of slots -----

  function TypeOfObject(o: Object): Type {
    match o
    case PlainObj => Plain
    case BytesObj(_) => Bytes
    case ClassObj(id, _) => Class(id)
    case ArrObj(elem, dims, _) => Arr(elem, |dims|)
    case ListObj(elem, _) => Lst(elem)
    case DictObj(key, val, _) => Dict(key, val)
  }

  /** The values an object holds, in the order the serializer visits them. */
  function Slots(o: Object): seq<Value> {
    match o
    case PlainObj => []
    case BytesObj(_) => []
    case ClassObj(_, fields) => fields
    case ArrObj(_, dims, cells) => CellValues(RowMajor(dims), cells)
    case ListObj(_, items) => items
    case DictObj(_, _, entries) => Flat(entries)
  }

  function CellValues(rows: seq<Index>, cells: map<Index, Value>): seq<Value> {
    seq(|rows|, k requires 0 <= k < |rows| => if rows[k] in cells then cells[rows[k]] else Null)
  }

  function Flat(entries: seq<(Value, Value)>): seq<Value> {
    if entries == [] then []
    else
      var e := entries[|entries| - 1];
      Flat(entries[..|entries| - 1]) + [e.0, e.1]
  }

  function Repeat(t: Type, n: nat): seq<Type> {
    seq(n, _ => t)
  }

  function Alternate(key: Type, val: Type, n: nat): seq<Type> {
    seq(2 * n, k requires 0 <= k < 2 * n => if k % 2 == 0 then key else val)
  }

  /** The declared types of the slots. */
  function SlotTypes(s: Schema, o: Object): seq<Type> {
    match o
    case PlainObj => []
    case BytesObj(_) => []
    case ClassObj(id, _) => if id in s.classes then s.classes[id] else []
    case ArrObj(elem, dims, _) => Repeat(elem, |RowMajor(dims)|)
    case ListObj(elem, items) => Repeat(elem, |items|)
    case DictObj(key, val, entries) => Alternate(key, val, |entries|)
  }

  /** The object as it is right after its header: nothing in it yet. */
  function Empty(o: Object): Object {
    match o
    case PlainObj => o
    case BytesObj(_) => o
    case ClassObj(id, _) => ClassObj(id, [])
    case ArrObj(elem, dims, _) => ArrObj(elem, dims, map[])
    case ListObj(elem, _) => ListObj(elem, [])
    case DictObj(key, val, _) => DictObj(key, val, [])
  }

  /** An empty object after some slots have been filled, in visiting order. */
  function Build(shell: Object, vals: seq<Value>): Object {
    match shell
    case PlainObj => shell
    case BytesObj(_) => shell
    case ClassObj(id, _) => ClassObj(id, vals)
    case ArrObj(elem, dims, _) => ArrObj(elem, dims, CellsOf(RowMajor(dims), vals))
    case ListObj(elem, _) => ListObj(elem, vals)
    case DictObj(key, val, _) => DictObj(key, val, Pairs(vals))
  }

  function CellsOf(rows: seq<Index>, vals: seq<Value>): map<Index, Value> {
    if vals == [] || |vals| > |rows| then map[]
    else CellsOf(rows, vals[..|vals| - 1])[rows[|vals| - 1] := vals[|vals| - 1]]
  }

  function Pairs(vals: seq<Value>): seq<(Value, Value)> {
    if |vals| < 2 then []
    else if |vals| % 2 == 1 then Pairs(vals[..|vals| - 1])
    else Pairs(vals[..|vals| - 2]) + [(vals[|vals| - 2], vals[|vals| - 1])]
  }

  /** `Dictionary.Add` refuses a null key and a key it already has. */
  predicate Accepts(shell: Object, vals: seq<Value>) {
    shell.DictObj? && |vals| > 0 && |vals| % 2 == 0 ==>
      && vals[|vals| - 2] != Null
      && forall j :: 0 <= j < |vals| - 2 && j % 2 == 0 ==> vals[j] != vals[|vals| - 2]
  }

  // ----- well-formed graphs -----

  /** References resolve and struct values have the fields of their struct. */
  ghost predicate ValueOk(g: Graph, v: Value)
    decreases v, 0
  {
    match v
    case Ref(r) => r in g.heap
    case StructVal(id, fields) =>
      && id < |g.schema.structs| && |fields| == |g.schema.structs[id]|
      && forall k :: 0 <= k < |fields| ==> Fits(g, fields[k], g.schema.structs[id][k])
    case _ => true
  }

  /** A variable of a value type holds a value of exactly that type. */
  ghost predicate Fits(g: Graph, v: Value, t: Type)
    decreases v, 1
  {
    && ValueOk(g, v)
    && (t.Prim? ==> v.PrimVal? && v.name == t.name)
    && (t.Struct? ==> v.StructVal? && v.id == t.id)
  }

  ghost predicate AllFit(g: Graph, vs: seq<Value>, ts: seq<Type>) {
    |vs| == |ts| && forall k :: 0 <= k < |vs| ==> Fits(g, vs[k], ts[k])
  }

  ghost predicate ObjectOk(g: Graph, o: Object) {
    && AllFit(g, Slots(o), SlotTypes(g.schema, o))
    && (o.ClassObj? ==> o.id in g.schema.classes)
    && (o.ArrObj? ==> forall idx :: idx in o.cells <==> InBounds(o.dims, idx))
    && forall n :: 0 <= n <= |Slots(o)| ==> Accepts(Empty(o), Slots(o)[..n])
  }

  ghost predicate GraphOk(g: Graph) {
    && g.schema.Ok()
    && forall r :: EntryOk(g, r)
  }

  ghost predicate EntryOk(g: Graph, r: nat) {
    r in g.heap ==> ObjectOk(g, g.heap[r])
  }

  // ----- copies -----

  /** All references in the value are in `dom`. */
  ghost predicate Within(v: Value, dom: set<nat>) {
    match v
    case Ref(r) => r in dom
    case StructVal(_, fields) => forall k :: 0 <= k < |fields| ==> Within(fields[k], dom)
    case _ => true
  }

  ghost predicate AllWithin(vs: seq<Value>, dom: set<nat>) {
    forall k :: 0 <= k < |vs| ==> Within(vs[k], dom)
  }

  function Rename(f: map<nat, nat>, v: Value): Value
    decreases v, 0
  {
    match v
    case Ref(r) => if r in f then Ref(f[r]) else v
    case StructVal(id, fields) => StructVal(id, seq(|fields|, k requires 0 <= k < |fields| => Rename(f, fields[k])))
    case _ => v
  }

  function RenameAll(f: map<nat, nat>, vs: seq<Value>): seq<Value> {
    seq(|vs|, k requires 0 <= k < |vs| => Rename(f, vs[k]))
  }

  function RenameObject(f: map<nat, nat>, o: Object): Object {
    match o
    case PlainObj => o
    case BytesObj(_) => o
    case ClassObj(id, fields) => ClassObj(id, RenameAll(f, fields))
    case ArrObj(elem, dims, cells) => ArrObj(elem, dims, map idx | idx in cells :: Rename(f, cells[idx]))
    case ListObj(elem, items) => ListObj(elem, RenameAll(f, items))
    case DictObj(key, val, entries) =>
      DictObj(key, val, RenameEntries(f, entries))
  }

  function RenameEntries(f: map<nat, nat>, entries: seq<(Value, Value)>): seq<(Value, Value)> {
    seq(|entries|, k requires 0 <= k < |entries| => (Rename(f, entries[k].0), Rename(f, entries[k].1)))
  }

  ghost predicate Injective(f: map<nat, nat>) {
    forall a, b :: a in f && b in f && a != b ==> f[a] != f[b]
  }

  /**
   (copy, v') is an isomorphic copy of everything reachable from v in `heap`: references correspond
   one to one through f, and corresponding objects have the same type, the same values and, slot
   for slot, corresponding references.
   */
  ghost predicate IsCopy(f: map<nat, nat>, heap: Heap, v: Value, copy: Heap, v': Value) {
    && Injective(f)
    && Within(v, f.Keys) && v' == Rename(f, v)
    && forall r :: r in f ==>
         && r in heap && f[r] in copy
         && AllWithin(Slots(heap[r]), f.Keys)
         && copy[f[r]] == RenameObject(f, heap[r])
  }

  // ----- facts about renaming -----

  lemma {:induction false} RenameStable(f: map<nat, nat>, f2: map<nat, nat>, v: Value)
    requires Within(v, f.Keys)
    requires forall r :: r in f ==> r in f2 && f2[r] == f[r]
    ensures Rename(f2, v) == Rename(f, v) && Within(v, f2.Keys)
    decreases v
  {
    if v.StructVal? {
      forall k | 0 <= k < |v.fields|
        ensures Rename(f2, v.fields[k]) == Rename(f, v.fields[k]) && Within(v.fields[k], f2.Keys)
      {
        RenameStable(f, f2, v.fields[k]);
      }
    }
  }

  lemma RenameAllStable(f: map<nat, nat>, f2: map<nat, nat>, vs: seq<Value>)
    requires AllWithin(vs, f.Keys)
    requires forall r :: r in f ==> r in f2 && f2[r] == f[r]
    ensures RenameAll(f2, vs) == RenameAll(f, vs) && AllWithin(vs, f2.Keys)
  {
    forall k | 0 <= k < |vs|
      ensures Rename(f2, vs[k]) == Rename(f, vs[k]) && Within(vs[k], f2.Keys)
    {
      RenameStable(f, f2, vs[k]);
    }
  }

  /** Different values stay different. */
  lemma {:induction false} RenameInjective(f: map<nat, nat>, a: Value, b: Value)
    requires Injective(f) && Within(a, f.Keys) && Within(b, f.Keys)
    requires Rename(f, a) == Rename(f, b)
    ensures a == b
    decreases a
  {
    if a.StructVal? && b.StructVal? {
      assert |a.fields| == |Rename(f, a).fields| == |Rename(f, b).fields| == |b.fields|;
      forall k | 0 <= k < |a.fields|
        ensures a.fields[k] == b.fields[k]
      {
        assert Rename(f, a).fields[k] == Rename(f, b).fields[k];
        RenameInjective(f, a.fields[k], b.fields[k]);
      }
    }
  }

  lemma AcceptsRenamed(f: map<nat, nat>, shell: Object, vals: seq<Value>)
    requires Injective(f) && AllWithin(vals, f.Keys)
    requires Accepts(shell, vals)
    ensures Accepts(shell, RenameAll(f, vals))
  {
    if shell.DictObj? && |vals| > 0 && |vals| % 2 == 0 {
      var n := |vals| - 2;
      forall j | 0 <= j < n && j % 2 == 0
        ensures RenameAll(f, vals)[j] != RenameAll(f, vals)[n]
      {
        if Rename(f, vals[j]) == Rename(f, vals[n]) {
          RenameInjective(f, vals[j], vals[n]);
        }
      }
    }
  }

  lemma {:induction false} CellsOfRenamed(f: map<nat, nat>, rows: seq<Index>, cells: map<Index, Value>, n: nat)
    requires n <= |rows| && forall k :: 0 <= k < |rows| ==> rows[k] in cells
    requires forall i, j :: 0 <= i < j < |rows| ==> rows[i] != rows[j]
    ensures var vals := RenameAll(f, CellValues(rows, cells))[..n];
      && (forall idx :: idx in CellsOf(rows, vals) <==> idx in rows[..n])
      && (forall idx :: idx in CellsOf(rows, vals) ==> idx in cells && CellsOf(rows, vals)[idx] == Rename(f, cells[idx]))
  {
    var all := RenameAll(f, CellValues(rows, cells));
    if n > 0 {
      CellsOfRenamed(f, rows, cells, n - 1);
      assert all[..n][..n - 1] == all[..n - 1];
      assert rows[..n] == rows[..n - 1] + [rows[n - 1]];
      assert all[..n][n - 1] == Rename(f, cells[rows[n - 1]]);
    }
  }

  lemma {:induction false} FlatLength(entries: seq<(Value, Value)>)
    ensures |Flat(entries)| == 2 * |entries|
  {
    if entries != [] {
      FlatLength(entries[..|entries| - 1]);
    }
  }

  lemma {:induction false} PairsRenamed(f: map<nat, nat>, entries: seq<(Value, Value)>)
    ensures Pairs(RenameAll(f, Flat(entries))) == RenameEntries(f, entries)
  {
    if entries != [] {
      var front := entries[..|entries| - 1];
      PairsRenamed(f, front);
      FlatRenamedLast(f, entries);
      LastPair(RenameAll(f, Flat(entries)));
      EntriesRenamedLast(f, entries);
    }
  }

  /** The renamed values are those of the entries before the last one, and a pair. */
  lemma FlatRenamedLast(f: map<nat, nat>, entries: seq<(Value, Value)>)
    requires entries != []
    ensures var n, e, all := |entries| - 1, entries[|entries| - 1], RenameAll(f, Flat(entries));
      && |all| >= 2 && |all| % 2 == 0 && all[..|all| - 2] == RenameAll(f, Flat(entries[..n]))
      && all[|all| - 2] == Rename(f, e.0) && all[|all| - 1] == Rename(f, e.1)
  {
    var front, e := Flat(entries[..|entries| - 1]), entries[|entries| - 1];
    FlatLength(entries[..|entries| - 1]);
    RenamedPair(f, front, e.0, e.1);
  }

  lemma RenamedPair(f: map<nat, nat>, front: seq<Value>, a: Value, b: Value)
    ensures RenameAll(f, front + [a, b]) == RenameAll(f, front) + [Rename(f, a), Rename(f, b)]
  {
  }

  lemma EntriesRenamedLast(f: map<nat, nat>, entries: seq<(Value, Value)>)
    requires entries != []
    ensures var n := |entries| - 1;
      RenameEntries(f, entries) == RenameEntries(f, entries[..n]) + [(Rename(f, entries[n].0), Rename(f, entries[n].1))]
  {
  }

  lemma LastPair(all: seq<Value>)
    requires |all| >= 2 && |all| % 2 == 0
    ensures Pairs(all) == Pairs(all[..|all| - 2]) + [(all[|all| - 2], all[|all| - 1])]
  {
  }

  lemma RowsAreCells(dims: seq<Dim>, cells: map<Index, Value>)
    requires forall idx :: idx in cells <==> InBounds(dims, idx)
    ensures forall idx :: idx in RowMajor(dims) <==> idx in cells
    ensures forall k :: 0 <= k < |RowMajor(dims)| ==> RowMajor(dims)[k] in cells
    ensures forall i, j :: 0 <= i < j < |RowMajor(dims)| ==> RowMajor(dims)[i] != RowMajor(dims)[j]
  {
    var rows := RowMajor(dims);
    RowMajorFacts(dims);
    forall k | 0 <= k < |rows|
      ensures rows[k] in cells
    {
      assert rows[k] in rows;
    }
    forall i, j | 0 <= i < j < |rows|
      ensures rows[i] != rows[j]
    {
      RowMajorDistinct(dims, i, j);
    }
  }

  lemma CellsRenamed(f: map<nat, nat>, dims: seq<Dim>, cells: map<Index, Value>)
    requires forall idx :: idx in cells <==> InBounds(dims, idx)
    ensures CellsOf(RowMajor(dims), RenameAll(f, CellValues(RowMajor(dims), cells)))
      == map idx | idx in cells :: Rename(f, cells[idx])
  {
    var rows := RowMajor(dims);
    var vals := RenameAll(f, CellValues(rows, cells));
    RowsAreCells(dims, cells);
    CellsOfRenamed(f, rows, cells, |rows|);
    assert vals[..|rows|] == vals && rows[..|rows|] == rows;
  }

  /** Filling an empty object with renamed slots gives the renamed object. */
  lemma BuildRenamed(f: map<nat, nat>, g: Graph, o: Object)
    requires ObjectOk(g, o)
    ensures Build(Empty(o), RenameAll(f, Slots(o))) == RenameObject(f, o)
  {
    match o
    case ArrObj(_, dims, cells) => CellsRenamed(f, dims, cells);
    case DictObj(_, _, entries) => PairsRenamed(f, entries);
    case _ =>
  }

  /** A renaming keeps the type and renames the slots. */
  lemma RenameObjectSlots(f: map<nat, nat>, o: Object)
    requires o.ArrObj? ==> forall idx :: idx in o.cells <==> InBounds(o.dims, idx)
    ensures TypeOfObject(RenameObject(f, o)) == TypeOfObject(o)
    ensures Slots(RenameObject(f, o)) == RenameAll(f, Slots(o))
  {
    match o
    case ArrObj(elem, dims, cells) =>
      RowsAreCells(dims, cells);
      assert Slots(RenameObject(f, o)) == RenameAll(f, Slots(o));
    case DictObj(key, val, entries) => FlatRenamed(f, entries);
    case _ =>
  }

  lemma {:induction false} FlatRenamed(f: map<nat, nat>, entries: seq<(Value, Value)>)
    ensures Flat(RenameEntries(f, entries)) == RenameAll(f, Flat(entries))
  {
    if entries != [] {
      var n := |entries| - 1;
      FlatRenamed(f, entries[..n]);
      assert RenameEntries(f, entries)[..n] == RenameEntries(f, entries[..n]);
    }
  }
}
