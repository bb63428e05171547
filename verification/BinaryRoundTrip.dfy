/**
 Reading back what was written: the reader's tables mirror the writer's at every record boundary,
 and the graph read is an isomorphic copy of the graph written, sharing and cycles included.
 */
module BinaryRoundTrip {
  import opened ArrayOdometer
  import opened ObjectGraph
  import opened BinaryFormat
  import opened IdTables
  import opened Sequences
  import opened Wrappers

  /** g extends f. */
  ghost predicate Extends(f2: map<nat, nat>, f: map<nat, nat>) {
    forall r :: r in f ==> r in f2 && f2[r] == f[r]
  }

  /** Every entry of the object table is a string or a reference that f renames. */
  ghost predicate Entries(objs: seq<Value>, f: map<nat, nat>) {
    && AllWithin(objs, f.Keys)
    && forall r :: r in f ==> Ref(r) in objs
  }

  /** At a record boundary the reader's lists are the writer's id tables, read backwards. */
  ghost predicate Mirror(tb: Tables, st: Reader, f: map<nat, nat>) {
    && st.types == tb.types
    && st.objs == RenameAll(f, tb.objs)
    && Entries(tb.objs, f)
    && Injective(f)
    && forall r :: r in f ==> f[r] < st.next
  }

  /** The reader left everything it had before alone, except possibly the object under construction. */
  ghost predicate Kept(st: Reader, st2: Reader, target: Option<Target>) {
    && st.next <= st2.next
    && forall q: nat :: q < st.next && (target.None? || q != target.value.r) ==> KeptOne(st.heap, st2.heap, q)
  }

  ghost predicate KeptOne(heap: Heap, heap2: Heap, q: nat) {
    (q in heap <==> q in heap2) && (q in heap ==> heap2[q] == heap[q])
  }

  lemma KeptLater(st: Reader, st1: Reader, st2: Reader, target: Option<Target>)
    requires Kept(st, st1, target) && Kept(st1, st2, target)
    ensures Kept(st, st2, target)
  {
    forall q: nat | q < st.next && (target.None? || q != target.value.r)
      ensures KeptOne(st.heap, st2.heap, q)
    {
      assert KeptOne(st.heap, st1.heap, q) && KeptOne(st1.heap, st2.heap, q);
    }
  }

  lemma KeptStore(st: Reader, st1: Reader, target: Option<Target>, done: seq<Value>)
    requires Kept(st, st1, None)
    ensures Kept(st, Store(st1, target, done), target)
  {
    forall q: nat | q < st.next && (target.None? || q != target.value.r)
      ensures KeptOne(st.heap, Store(st1, target, done).heap, q)
    {
      assert KeptOne(st.heap, st1.heap, q);
    }
  }

  /** Objects f2 knows and f does not were read completely in between. */
  ghost predicate Copied(g: Graph, st: Reader, f: map<nat, nat>, st2: Reader, f2: map<nat, nat>) {
    forall r :: r in f2 && r !in f ==> CopiedOne(g, st, st2, f2, r)
  }

  ghost predicate CopiedOne(g: Graph, st: Reader, st2: Reader, f2: map<nat, nat>, r: nat)
    requires r in f2
  {
    && r in g.heap && st.next <= f2[r]
    && f2[r] in st2.heap && st2.heap[f2[r]] == RenameObject(f2, g.heap[r])
    && AllWithin(Slots(g.heap[r]), f2.Keys)
  }

  /** Renaming an object in two steps: what f has fixed, f2 does not change. */
  lemma RenameObjectStable(f: map<nat, nat>, f2: map<nat, nat>, g: Graph, o: Object)
    requires ObjectOk(g, o) && AllWithin(Slots(o), f.Keys) && Extends(f2, f)
    ensures RenameObject(f2, o) == RenameObject(f, o) && AllWithin(Slots(o), f2.Keys)
  {
    RenameAllStable(f, f2, Slots(o));
    BuildRenamed(f, g, o);
    BuildRenamed(f2, g, o);
  }

  lemma CopiedLater(g: Graph, st: Reader, f: map<nat, nat>, st1: Reader, f1: map<nat, nat>, st2: Reader, f2: map<nat, nat>, target: Option<Target>)
    requires GraphOk(g)
    requires Copied(g, st, f, st1, f1) && Copied(g, st1, f1, st2, f2)
    requires Extends(f1, f) && Extends(f2, f1)
    requires Kept(st, st1, target) && Kept(st1, st2, target)
    requires target.Some? ==> target.value.r < st.next
    requires forall r :: r in f1 ==> f1[r] < st1.next
    ensures Copied(g, st, f, st2, f2)
  {
    forall r | r in f2 && r !in f
      ensures CopiedOne(g, st, st2, f2, r)
    {
      if r in f1 {
        assert CopiedOne(g, st, st1, f1, r) && KeptOne(st1.heap, st2.heap, f1[r]) && EntryOk(g, r);
        RenameObjectStable(f1, f2, g, g.heap[r]);
      } else {
        assert CopiedOne(g, st1, st2, f2, r);
      }
    }
  }

  // ----- headers -----

  lemma {:induction false} DimsReadBack(dims: seq<Dim>, rest: seq<Token>)
    ensures ReadDims(|dims|, DimTokens(dims) + rest) == Some((dims, rest))
  {
    if dims != [] {
      DimsReadBack(dims[1..], rest);
      var input := DimTokens(dims) + rest;
      assert input[2..] == DimTokens(dims[1..]) + rest;
      assert [dims[0]] + dims[1..] == dims;
    } else {
      assert DimTokens(dims) + rest == rest;
    }
  }

  lemma HeadReadBack(s: Schema, o: Object, rest: seq<Token>)
    requires o.ClassObj? ==> o.id in s.classes
    ensures ReadHead(s, TypeOfObject(o), Head(o) + rest) == Some((Empty(o), SlotTypes(s, o), rest))
  {
    var input := Head(o) + rest;
    match o
    case ArrObj(_, dims, _) => DimsReadBack(dims, rest);
    case BytesObj(data) =>
      assert input[1..][1..] == rest;
    case ListObj(_, _) => assert input[1..] == rest;
    case DictObj(_, _, _) => assert input[1..] == rest;
    case _ => assert input == rest;
  }

  /** Reading up to the type id: the type is announced if it must be, and its id resolves to it. */
  lemma TypeReadBack(s: Schema, tb: Tables, t: Type, st: Reader, rest: seq<Token>)
    requires s.Ok() && st.types == tb.types
    requires st.input == TypeTokens(tb, t) + rest
    ensures var id := IndexOf(AddType(tb, t).types, t);
      Read(s, st) == ReadTyped(s, id, st.(types := AddType(tb, t).types, input := rest))
  {
    var id := IndexOf(AddType(tb, t).types, t);
    if t in tb.types {
      assert st.input == IdTokens(id) + rest;
      IdReadBack(s, id, st, rest);
    } else {
      assert st.input == [Flag(TYPE), Name(t)] + (IdTokens(id) + rest);
      assert st.input[1..][1..] == IdTokens(id) + rest;
      IdReadBack(s, id, st.(types := st.types + [t], input := IdTokens(id) + rest), rest);
    }
  }

  lemma IdReadBack(s: Schema, id: nat, st: Reader, rest: seq<Token>)
    requires s.Ok() && st.input == IdTokens(id) + rest
    ensures Read(s, st) == ReadTyped(s, id, st.(input := rest))
  {
  }

  // ----- records -----

  /** What reading back a value comes to: the renamed value, mirrored tables, everything else kept. */
  ghost predicate ReadsBack(g: Graph, v: Value, tb2: Tables, st: Reader, f: map<nat, nat>, rest: seq<Token>,
                            r: Option<(Value, Reader)>, f2: map<nat, nat>) {
    && Extends(f2, f) && Within(v, f2.Keys)
    && r.Some? && r.value.0 == Rename(f2, v)
    && var st2 := r.value.1;
      && st2.input == rest && Mirror(tb2, st2, f2)
      && Kept(st, st2, None) && Copied(g, st, f, st2, f2)
  }

  lemma {:induction false} WriteReadsBack(g: Graph, v: Value, tb: Tables, st: Reader, f: map<nat, nat>, rest: seq<Token>)
    returns (f2: map<nat, nat>)
    requires GraphOk(g) && ValueOk(g, v)
    requires Mirror(tb, st, f) && st.input == Write(g, v, tb).1 + rest
    ensures ReadsBack(g, v, Write(g, v, tb).0, st, f, rest, Read(g.schema, st), f2)
    decreases Unseen(g, tb), v, 1
  {
    if v == Null || v in tb.objs {
      f2 := f;
      KnownReadsBack(g, v, tb, st, f, rest);
    } else {
      if TypeOf(g, v).IsValueType() {
        var t := TypeOf(g, v);
        var tb1 := AddType(tb, t);
        var body := WriteValue(g, v, tb1).1;
        BoxedRead(g, v, tb, st, rest);
        f2 := ValueReadsBack(g, v, tb1, st.(types := tb1.types, input := body + rest), f, rest);
      } else if v.Text? {
        f2 := TextReadsBack(g, v, tb, st, f, rest);
      } else {
        f2 := ObjectReadsBack(g, v.r, tb, st, f, rest);
      }
    }
  }

  /** A null, or an object that already has an id. */
  lemma KnownReadsBack(g: Graph, v: Value, tb: Tables, st: Reader, f: map<nat, nat>, rest: seq<Token>)
    requires GraphOk(g) && ValueOk(g, v) && (v == Null || v in tb.objs)
    requires Mirror(tb, st, f) && st.input == Write(g, v, tb).1 + rest
    ensures ReadsBack(g, v, tb, st, f, rest, Read(g.schema, st), f)
  {
  }

  /** A boxed value: its type, then the value. */
  lemma BoxedRead(g: Graph, v: Value, tb: Tables, st: Reader, rest: seq<Token>)
    requires GraphOk(g) && ValueOk(g, v) && (v.PrimVal? || v.StructVal?) && v !in tb.objs
    requires st.types == tb.types && st.input == Write(g, v, tb).1 + rest
    ensures var t := TypeOf(g, v); var tb1 := AddType(tb, t);
      Read(g.schema, st) == ReadValue(g.schema, t, st.(types := tb1.types, input := WriteValue(g, v, tb1).1 + rest))
  {
    var t := TypeOf(g, v);
    var body := WriteValue(g, v, AddType(tb, t)).1;
    Grouped(TypeTokens(tb, t), body, rest);
    TypeReadBack(g.schema, tb, t, st, body + rest);
  }

  lemma TextReadsBack(g: Graph, v: Value, tb: Tables, st: Reader, f: map<nat, nat>, rest: seq<Token>)
    returns (f2: map<nat, nat>)
    requires GraphOk(g) && v.Text? && v !in tb.objs
    requires Mirror(tb, st, f) && st.input == Write(g, v, tb).1 + rest
    ensures ReadsBack(g, v, Write(g, v, tb).0, st, f, rest, Read(g.schema, st), f2)
  {
    f2 := f;
    Grouped(TypeTokens(tb, Str), [Chars(v.s)], rest);
    TypeReadBack(g.schema, tb, Str, st, [Chars(v.s)] + rest);
    assert ([Chars(v.s)] + rest)[1..] == rest;
    RenamedMore(f, tb.objs, v);
  }

  lemma RenamedMore(f: map<nat, nat>, vs: seq<Value>, v: Value)
    ensures RenameAll(f, vs + [v]) == RenameAll(f, vs) + [Rename(f, v)]
  {
  }

  lemma {:induction false} ValueReadsBack(g: Graph, v: Value, tb: Tables, st: Reader, f: map<nat, nat>, rest: seq<Token>)
    returns (f2: map<nat, nat>)
    requires GraphOk(g) && ValueOk(g, v) && (v.PrimVal? || v.StructVal?)
    requires Mirror(tb, st, f) && st.input == WriteValue(g, v, tb).1 + rest
    ensures ReadsBack(g, v, WriteValue(g, v, tb).0, st, f, rest, ReadValue(g.schema, TypeOf(g, v), st), f2)
    decreases Unseen(g, tb), v, 0
  {
    match v
    case PrimVal(_, bits) =>
      f2 := f;
      assert st.input[1..] == rest;
    case StructVal(id, fields) =>
      assert [] + fields == fields && RenameAll(f, []) == [];
      f2 := SlotsReadBack(g, fields, g.schema.structs[id], tb, st, f, None, [], id, rest);
  }

  lemma {:induction false} SlotReadsBack(g: Graph, v: Value, t: Type, tb: Tables, st: Reader, f: map<nat, nat>, rest: seq<Token>)
    returns (f2: map<nat, nat>)
    requires GraphOk(g) && Fits(g, v, t)
    requires Mirror(tb, st, f) && st.input == WriteSlot(g, v, t, tb).1 + rest
    ensures ReadsBack(g, v, WriteSlot(g, v, t, tb).0, st, f, rest, ReadSlot(g.schema, t, st), f2)
    decreases Unseen(g, tb), v, 2
  {
    if t.IsValueType() {
      f2 := ValueReadsBack(g, v, tb, st, f, rest);
    } else {
      f2 := WriteReadsBack(g, v, tb, st, f, rest);
    }
  }

  /** The same for a run of slots, of a struct or of the object under construction. */
  ghost predicate SlotsReadsBack(g: Graph, vs: seq<Value>, tb2: Tables, st: Reader, f: map<nat, nat>, target: Option<Target>,
                                 rest: seq<Token>, r: Option<(seq<Value>, Reader)>, f2: map<nat, nat>) {
    && Extends(f2, f) && AllWithin(vs, f2.Keys)
    && r.Some? && r.value.0 == RenameAll(f2, vs)
    && var st2 := r.value.1;
      && st2.input == rest && Mirror(tb2, st2, f2)
      && Kept(st, st2, target) && Copied(g, st, f, st2, f2)
      && (target.Some? ==> target.value.r in st2.heap && st2.heap[target.value.r] == Build(target.value.shell, RenameAll(f2, vs)))
  }

  lemma ExtendsLater(f: map<nat, nat>, f1: map<nat, nat>, f2: map<nat, nat>)
    requires Extends(f1, f) && Extends(f2, f1)
    ensures Extends(f2, f)
  {
  }

  lemma CopiedStore(g: Graph, st: Reader, f: map<nat, nat>, st1: Reader, f1: map<nat, nat>, target: Option<Target>, done: seq<Value>)
    requires Copied(g, st, f, st1, f1) && (target.Some? ==> target.value.r < st.next)
    ensures Copied(g, st, f, Store(st1, target, done), f1)
  {
    forall r | r in f1 && r !in f
      ensures CopiedOne(g, st, Store(st1, target, done), f1, r)
    {
      assert CopiedOne(g, st, st1, f1, r);
    }
  }

  /** One slot and then the rest make a run of slots. */
  lemma SlotsJoin(g: Graph, vs: seq<Value>, tb2: Tables, st: Reader, f: map<nat, nat>, st1: Reader, f1: map<nat, nat>,
                  target: Option<Target>, done: seq<Value>, rest: seq<Token>, r: Option<(seq<Value>, Reader)>, f2: map<nat, nat>)
    requires GraphOk(g)
    requires target.Some? ==> target.value.r < st.next
    requires Extends(f1, f) && Kept(st, st1, None) && Copied(g, st, f, st1, f1)
    requires forall r :: r in f1 ==> f1[r] < st1.next
    requires SlotsReadsBack(g, vs, tb2, Store(st1, target, done), f1, target, rest, r, f2)
    ensures SlotsReadsBack(g, vs, tb2, st, f, target, rest, r, f2)
  {
    var st1' := Store(st1, target, done);
    var st2 := r.value.1;
    KeptStore(st, st1, target, done);
    CopiedStore(g, st, f, st1, f1, target, done);
    ExtendsLater(f, f1, f2);
    KeptLater(st, st1', st2, target);
    CopiedLater(g, st, f, st1', f1, st2, f2, target);
  }

  lemma {:induction false} SlotsReadBack(g: Graph, vs: seq<Value>, ts: seq<Type>, tb: Tables, st: Reader, f: map<nat, nat>,
                                        target: Option<Target>, done: seq<Value>, depth: nat, rest: seq<Token>)
    returns (f2: map<nat, nat>)
    requires GraphOk(g) && AllFit(g, vs, ts)
    requires forall k :: 0 <= k < |ts| ==> Depth(g.schema, ts[k]) <= depth
    requires Mirror(tb, st, f) && st.input == WriteSlots(g, vs, ts, tb).1 + rest
    requires AllWithin(done, f.Keys)
    requires target.Some? ==> Constructing(target.value, st, f, done, vs)
    ensures SlotsReadsBack(g, done + vs, WriteSlots(g, vs, ts, tb).0, st, f, target, rest,
                           ReadSlots(g.schema, ts, st, target, RenameAll(f, done), depth), f2)
    decreases Unseen(g, tb), vs, 0
  {
    if vs == [] {
      f2 := f;
      assert done + vs == done;
    } else {
      var (tb1, first) := WriteSlot(g, vs[0], ts[0], tb);
      var (tb2, tail) := WriteSlots(g, vs[1..], ts[1..], tb1);
      assert st.input == first + (tail + rest);
      var f1 := SlotReadsBack(g, vs[0], ts[0], tb, st, f, tail + rest);
      var st1 := ReadSlot(g.schema, ts[0], st).value.1;
      var done1 := done + [vs[0]];
      assert done1 + vs[1..] == done + vs;
      var renamed := DoneGrows(f, f1, target, done, vs);
      var st1' := Store(st1, target, renamed);
      f2 := SlotsReadBack(g, vs[1..], ts[1..], tb1, st1', f1, target, done1, depth, rest);
      SlotsJoin(g, done + vs, tb2, st, f, st1, f1, target, renamed, rest,
                ReadSlots(g.schema, ts[1..], st1', target, renamed, depth), f2);
    }
  }

  /** The object under construction holds the slots read so far, and will take the others. */
  ghost predicate Constructing(target: Target, st: Reader, f: map<nat, nat>, done: seq<Value>, vs: seq<Value>) {
    && target.r < st.next && target.r in st.heap
    && st.heap[target.r] == Build(target.shell, RenameAll(f, done))
    && forall n :: |done| <= n <= |done + vs| ==> Accepts(target.shell, (done + vs)[..n])
  }

  lemma DoneGrows(f: map<nat, nat>, f1: map<nat, nat>, target: Option<Target>, done: seq<Value>, vs: seq<Value>)
    returns (renamed: seq<Value>)
    requires vs != [] && Extends(f1, f) && Injective(f1)
    requires AllWithin(done, f.Keys) && Within(vs[0], f1.Keys)
    requires target.Some? ==> forall n :: |done| <= n <= |done + vs| ==> Accepts(target.value.shell, (done + vs)[..n])
    ensures renamed == RenameAll(f, done) + [Rename(f1, vs[0])] == RenameAll(f1, done + [vs[0]])
    ensures AllWithin(done + [vs[0]], f1.Keys)
    ensures target.Some? ==> Accepts(target.value.shell, renamed)
  {
    var done1 := done + [vs[0]];
    RenameAllStable(f, f1, done);
    renamed := RenameAll(f1, done1);
    assert renamed == RenameAll(f, done) + [Rename(f1, vs[0])];
    if target.Some? {
      assert (done + vs)[..|done1|] == done1;
      AcceptsRenamed(f1, target.value.shell, done1);
    }
  }

  /** The reader at the same point, with the object's slots still to come. */
  function OpenedReader(g: Graph, r: nat, tb: Tables, st: Reader, input: seq<Token>): Reader
    requires r in g.heap
  {
    Reader(Opened(g, r, tb).types, st.objs + [Ref(st.next)], st.heap[st.next := Empty(g.heap[r])], st.next + 1, input)
  }

  lemma {:induction false} ObjectReadsBack(g: Graph, r: nat, tb: Tables, st: Reader, f: map<nat, nat>, rest: seq<Token>)
    returns (f2: map<nat, nat>)
    requires GraphOk(g) && r in g.heap && Ref(r) !in tb.objs
    requires Mirror(tb, st, f) && st.input == Write(g, Ref(r), tb).1 + rest
    ensures ReadsBack(g, Ref(r), Write(g, Ref(r), tb).0, st, f, rest, Read(g.schema, st), f2)
    decreases Unseen(g, tb), Ref(r), 0
  {
    var o, tb2, ts := g.heap[r], Opened(g, r, tb), SlotTypes(g.schema, g.heap[r]);
    WriteObjectIs(g, r, tb);
    var (tb3, body) := WriteSlots(g, Slots(o), ts, tb2);
    var st2 := OpenedReader(g, r, tb, st, body + rest);
    Registers(g, r, tb, tb2, st, st2, f);
    var f1 := f[r := st.next];
    var target := Some(Target(st.next, Empty(o)));
    assert [] + Slots(o) == Slots(o) && RenameAll(f1, []) == [];
    f2 := SlotsReadBack(g, Slots(o), ts, tb2, st2, f1, target, [], |g.schema.structs|, rest);
    GroupedFour(TypeTokens(tb, TypeOfObject(o)), Head(o), body, rest);
    ObjectJoins(g, r, tb, tb3, st, f, rest, body, ReadSlots(g.schema, ts, st2, target, [], |g.schema.structs|), f2);
  }

  lemma ObjectJoins(g: Graph, r: nat, tb: Tables, tb3: Tables, st: Reader, f: map<nat, nat>,
                    rest: seq<Token>, body: seq<Token>, slots: Option<(seq<Value>, Reader)>, f2: map<nat, nat>)
    requires GraphOk(g) && r in g.heap && Ref(r) !in tb.objs && Mirror(tb, st, f) && r !in f
    requires st.input == TypeTokens(tb, TypeOfObject(g.heap[r])) + (Head(g.heap[r]) + (body + rest))
    requires Opened(g, r, tb).objs <= tb3.objs
    requires slots == ReadSlots(g.schema, SlotTypes(g.schema, g.heap[r]), OpenedReader(g, r, tb, st, body + rest),
                                Some(Target(st.next, Empty(g.heap[r]))), [], |g.schema.structs|)
    requires SlotsReadsBack(g, Slots(g.heap[r]), tb3, OpenedReader(g, r, tb, st, body + rest), f[r := st.next],
                            Some(Target(st.next, Empty(g.heap[r]))), rest, slots, f2)
    ensures ReadsBack(g, Ref(r), tb3, st, f, rest, Read(g.schema, st), f2)
  {
    var o, t := g.heap[r], TypeOfObject(g.heap[r]);
    var tb1, st2 := AddType(tb, t), OpenedReader(g, r, tb, st, body + rest);
    var st1 := st.(types := tb1.types, input := Head(o) + (body + rest));
    assert EntryOk(g, r);
    TypeReadBack(g.schema, tb, t, st, Head(o) + (body + rest));
    assert f[r := st.next][r] == st.next;
    RegistrationHolds(tb, tb3, st1, slots.value.1, f, f2, r);
    ObjectRead(g.schema, IndexOf(tb1.types, t), st1, st2, o, body + rest, slots);
    ObjectCopied(g, r, st, f, st2, f[r := st.next], slots.value.1, f2);
  }

  /** Registering the object before its slots keeps the tables mirrored. */
  lemma Registers(g: Graph, r: nat, tb: Tables, tb2: Tables, st: Reader, st2: Reader, f: map<nat, nat>)
    requires r in g.heap && Ref(r) !in tb.objs && Mirror(tb, st, f) && ObjectOk(g, g.heap[r])
    requires tb2.objs == tb.objs + [Ref(r)] && st2.objs == st.objs + [Ref(st.next)] && st2.types == tb2.types
    requires st2.next == st.next + 1 && st.next in st2.heap && st2.heap[st.next] == Empty(g.heap[r])
    ensures r !in f && Mirror(tb2, st2, f[r := st.next])
    ensures Constructing(Target(st.next, Empty(g.heap[r])), st2, f[r := st.next], [], Slots(g.heap[r]))
  {
    var f1 := f[r := st.next];
    assert r !in f;
    RenameAllStable(f, f1, tb.objs);
    RenamedMore(f1, tb.objs, Ref(r));
    FreshCopy(f, r, st.next);
    EmptyBuilds(g.heap[r]);
    assert RenameAll(f1, []) == [] && [] + Slots(g.heap[r]) == Slots(g.heap[r]);
  }

  lemma FreshCopy(f: map<nat, nat>, r: nat, n: nat)
    requires Injective(f) && forall a :: a in f ==> f[a] < n
    ensures Injective(f[r := n])
  {
  }

  lemma EmptyBuilds(o: Object)
    ensures Build(Empty(o), []) == Empty(o)
  {
  }

  /** A typed record whose slots can be read, and whose object is registered first, can be read. */
  lemma ObjectRead(s: Schema, id: nat, st1: Reader, st2: Reader, o: Object, rest: seq<Token>, slots: Option<(seq<Value>, Reader)>)
    requires s.Ok() && id < |st1.types| && st1.types[id] == TypeOfObject(o)
    requires o.ClassObj? ==> o.id in s.classes
    requires st1.input == Head(o) + rest
    requires st2 == Reader(st1.types, st1.objs + [Ref(st1.next)], st1.heap[st1.next := Empty(o)], st1.next + 1, rest)
    requires slots == ReadSlots(s, SlotTypes(s, o), st2, Some(Target(st1.next, Empty(o))), [], |s.structs|)
    requires slots.Some? && Registered(st1, Ref(st1.next), slots.value.1)
    ensures ReadTyped(s, id, st1) == Some((Ref(st1.next), slots.value.1))
  {
    HeadReadBack(s, o, rest);
  }

  /** The registration check of the reader finds the object where its reading began. */
  lemma RegistrationHolds(tb: Tables, tb3: Tables, st: Reader, st3: Reader, f: map<nat, nat>, f2: map<nat, nat>, r: nat)
    requires |st.objs| == |tb.objs| && Mirror(tb3, st3, f2)
    requires tb.objs + [Ref(r)] <= tb3.objs && r in f2 && f2[r] == st.next
    ensures Registered(st, Ref(st.next), st3)
  {
  }

  lemma ObjectCopied(g: Graph, r: nat, st: Reader, f: map<nat, nat>, st2: Reader, f1: map<nat, nat>, st3: Reader, f2: map<nat, nat>)
    requires GraphOk(g) && r in g.heap && r !in f && f1 == f[r := st.next]
    requires st2.next == st.next + 1 && st2.heap == st.heap[st.next := Empty(g.heap[r])]
    requires Extends(f2, f1) && AllWithin(Slots(g.heap[r]), f2.Keys)
    requires st.next in st3.heap && st3.heap[st.next] == Build(Empty(g.heap[r]), RenameAll(f2, Slots(g.heap[r])))
    requires Kept(st2, st3, Some(Target(st.next, Empty(g.heap[r])))) && Copied(g, st2, f1, st3, f2)
    ensures Kept(st, st3, None) && Copied(g, st, f, st3, f2) && Extends(f2, f)
  {
    assert EntryOk(g, r);
    BuildRenamed(f2, g, g.heap[r]);
    forall q: nat | q < st.next
      ensures KeptOne(st.heap, st3.heap, q)
    {
      assert KeptOne(st2.heap, st3.heap, q);
    }
    forall q | q in f2 && q !in f
      ensures CopiedOne(g, st, st3, f2, q)
    {
      assert q != r ==> CopiedOne(g, st2, st3, f2, q);
    }
  }

  // ----- whole messages -----

  /**
   For every well-formed graph and value, and whatever follows on the stream: deserializing what
   was serialized consumes exactly that, and yields an isomorphic copy made of new objects, with
   everything the reading program had before untouched.
   */
  lemma RoundTrip(g: Graph, v: Value, heap: Heap, next: nat, rest: seq<Token>)
    returns (f: map<nat, nat>, v': Value, after: Reader)
    requires GraphOk(g) && ValueOk(g, v)
    ensures Deserialize(g.schema, heap, next, Serialize(g, v) + rest) == Some((v', after))
    ensures after.input == rest
    ensures IsCopy(f, g.heap, v, after.heap, v')
    ensures forall r :: r in f ==> next <= f[r] < after.next
    ensures next <= after.next && forall q: nat :: q < next ==> KeptOne(heap, after.heap, q)
  {
    var st := Reader([], [], heap, next, Serialize(g, v) + rest);
    var none: map<nat, nat> := map[];
    f := WriteReadsBack(g, v, NO_TABLES, st, none, rest);
    var r := Read(g.schema, st);
    v', after := r.value.0, r.value.1;
    forall q | q in f
      ensures CopiedOne(g, st, after, f, q)
    {
      assert q !in none;
    }
  }

  /** Consecutive messages on one stream decode independently. */
  lemma TwoMessages(g: Graph, a: Value, b: Value, heap: Heap, next: nat, rest: seq<Token>)
    returns (fa: map<nat, nat>, fb: map<nat, nat>, a': Value, b': Value, mid: Reader, after: Reader)
    requires GraphOk(g) && ValueOk(g, a) && ValueOk(g, b)
    ensures Deserialize(g.schema, heap, next, Serialize(g, a) + Serialize(g, b) + rest) == Some((a', mid))
    ensures Deserialize(g.schema, mid.heap, mid.next, mid.input) == Some((b', after)) && after.input == rest
    ensures IsCopy(fa, g.heap, a, after.heap, a') && IsCopy(fb, g.heap, b, after.heap, b')
    ensures fa.Values !! fb.Values
  {
    assert Serialize(g, a) + Serialize(g, b) + rest == Serialize(g, a) + (Serialize(g, b) + rest);
    fa, a', mid := RoundTrip(g, a, heap, next, Serialize(g, b) + rest);
    fb, b', after := RoundTrip(g, b, mid.heap, mid.next, rest);
    forall r | r in fa
      ensures fa[r] in after.heap && after.heap[fa[r]] == mid.heap[fa[r]]
    {
      assert KeptOne(mid.heap, after.heap, fa[r]);
    }
  }

  /** What a copy means, object by object: same type, slots renamed, aliasing neither lost nor made. */
  lemma CopyPreserves(g: Graph, f: map<nat, nat>, v: Value, copy: Heap, v': Value, r: nat)
    requires GraphOk(g) && IsCopy(f, g.heap, v, copy, v') && r in f
    ensures TypeOfObject(copy[f[r]]) == TypeOfObject(g.heap[r])
    ensures Slots(copy[f[r]]) == RenameAll(f, Slots(g.heap[r]))
    ensures forall i, j :: 0 <= i < |Slots(g.heap[r])| && 0 <= j < |Slots(g.heap[r])| ==>
      (Slots(g.heap[r])[i] == Slots(g.heap[r])[j] <==> Slots(copy[f[r]])[i] == Slots(copy[f[r]])[j])
  {
    assert EntryOk(g, r);
    RenameObjectSlots(f, g.heap[r]);
    var slots := Slots(g.heap[r]);
    forall i, j | 0 <= i < |slots| && 0 <= j < |slots|
      ensures slots[i] == slots[j] <==> Rename(f, slots[i]) == Rename(f, slots[j])
    {
      if Rename(f, slots[i]) == Rename(f, slots[j]) {
        RenameInjective(f, slots[i], slots[j]);
      }
    }
  }

  // ----- the registration check, on any input -----

  lemma {:induction false} ReadGrows(s: Schema, st: Reader)
    requires s.Ok()
    ensures Read(s, st).Some? ==> st.objs <= Read(s, st).value.1.objs
    decreases |st.input|, 0, 0
  {
    if st.input != [] && st.input[0].Flag? {
      var flag, st1 := st.input[0].b, st.(input := st.input[1..]);
      if flag == NULL {
      } else if flag == TYPE {
        if st1.input != [] && st1.input[0].Name? {
          ReadGrows(s, st1.(types := st1.types + [st1.input[0].t], input := st1.input[1..]));
        }
      } else if flag == REUSE {
      } else if flag == ID32 {
        if st1.input != [] && st1.input[0].Int? {
          TypedGrows(s, st1.input[0].n, st1.(input := st1.input[1..]));
        }
      } else {
        TypedGrows(s, flag, st1);
      }
    }
  }

  lemma {:induction false} TypedGrows(s: Schema, id: int, st: Reader)
    requires s.Ok()
    ensures ReadTyped(s, id, st).Some? ==> st.objs <= ReadTyped(s, id, st).value.1.objs
    decreases |st.input|, |s.structs| + 2, 0
  {
    if 0 <= id < |st.types| {
      if st.types[id].IsValueType() {
        ValueGrows(s, st.types[id], st);
      } else {
        AlwaysRegistered(s, st.types[id], st);
      }
    }
  }

  /**
   On every input, well-formed or not, an object that could be read is in the cache where the
   check looks for it: the serializers never forget to register.
   */
  lemma {:induction false} AlwaysRegistered(s: Schema, t: Type, st: Reader)
    requires s.Ok() && !t.IsValueType()
    ensures var r := ReadObject(s, t, st); r.Some? ==> st.objs <= r.value.1.objs && Registered(st, r.value.0, r.value.1)
    decreases |st.input|, |s.structs| + 1, 0
  {
    if t != Str {
      match ReadHead(s, t, st.input)
      case None =>
      case Some((shell, ts, rest)) =>
        var r := st.next;
        var st1 := Reader(st.types, st.objs + [Ref(r)], st.heap[r := shell], r + 1, rest);
        SlotsGrow(s, ts, st1, Some(Target(r, shell)), [], |s.structs|);
        var slots := ReadSlots(s, ts, st1, Some(Target(r, shell)), [], |s.structs|);
        if slots.Some? {
          assert (st.objs + [Ref(r)])[|st.objs|] == Ref(r);
        }
    }
  }

  lemma {:induction false} ValueGrows(s: Schema, t: Type, st: Reader)
    requires s.Ok() && t.IsValueType()
    ensures ReadValue(s, t, st).Some? ==> st.objs <= ReadValue(s, t, st).value.1.objs
    decreases |st.input|, Depth(s, t), 0
  {
    if t.Struct? && t.id < |s.structs| {
      SlotsGrow(s, s.structs[t.id], st, None, [], t.id);
    }
  }

  lemma {:induction false} SlotsGrow(s: Schema, ts: seq<Type>, st: Reader, target: Option<Target>, done: seq<Value>, depth: nat)
    requires s.Ok() && forall k :: 0 <= k < |ts| ==> Depth(s, ts[k]) <= depth
    ensures var r := ReadSlots(s, ts, st, target, done, depth); r.Some? ==> st.objs <= r.value.1.objs
    decreases |st.input|, depth, |ts| + 2
  {
    if ts != [] {
      if ts[0].IsValueType() {
        ValueGrows(s, ts[0], st);
      } else {
        ReadGrows(s, st);
      }
      match ReadSlot(s, ts[0], st)
      case None =>
      case Some((v, st1)) =>
        if target.None? || Accepts(target.value.shell, done + [v]) {
          SlotsGrow(s, ts[1..], Store(st1, target, done + [v]), target, done + [v], depth);
        }
    }
  }
}
