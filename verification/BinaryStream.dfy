/**
 What is on the stream that c#/code/XSerialize/Binary/XBinarySerializer2.cs writes, beyond that it can be
 read back: ids in their shortest form, every type announced once, and the bytes of some small messages.
 */
module BinaryStream {
  import opened IdTables
  import opened ArrayOdometer
  import opened ObjectGraph
  import opened BinaryFormat
  import opened Sequences
  import opened Wrappers

  // ----- ids -----

  /** The tokens are read as the id, by any reader and with anything behind them. */
  ghost predicate StandsFor(s: Schema, x: seq<Token>, id: nat)
    requires s.Ok()
  {
    forall st: Reader :: ReadAs(s, x, id, st)
  }

  ghost predicate ReadAs(s: Schema, x: seq<Token>, id: nat, st: Reader)
    requires s.Ok()
  {
    Read(s, st.(input := x + st.input)) == ReadTyped(s, id, st)
  }

  lemma IdTokensStand(s: Schema, id: nat)
    requires s.Ok()
    ensures StandsFor(s, IdTokens(id), id)
  {
    forall st: Reader
      ensures ReadAs(s, IdTokens(id), id, st)
    {
      var whole := IdTokens(id) + st.input;
      assert whole[1..] == (if id >= ID32 then [Int(id)] else []) + st.input;
      assert id >= ID32 ==> whole[1..][1..] == st.input;
      assert st.(input := st.input) == st;
    }
  }

  /** No tokens that stand for the id are fewer. */
  lemma IdTokensShortest(s: Schema, x: seq<Token>, id: nat)
    requires s.Ok() && StandsFor(s, x, id)
    ensures |IdTokens(id)| <= |x|
  {
    var st := OnlyPlain(id);
    assert ReadAs(s, x, id, st);
    assert x + st.input == x;
    PlainIsRead(s, id);
    if |x| == 1 && id >= ID32 {
      var t := x[0];
      assert x == [t];
      OneFlagFails(s, id, t);
    }
  }

  /** A reader whose only plain type has this id, at the end of the stream. */
  function OnlyPlain(id: nat): Reader {
    Reader(seq(id + 1, k => if k == id then Plain else Str), [], map[], 0, [])
  }

  lemma PlainIsRead(s: Schema, id: nat)
    requires s.Ok()
    ensures ReadTyped(s, id, OnlyPlain(id)).Some? && ReadTyped(s, id, OnlyPlain(id)).value.0 == Ref(0)
  {
    var st := OnlyPlain(id);
    assert st.types[id] == Plain;
    PlainObjectRead(s, st);
  }

  lemma PlainObjectRead(s: Schema, st: Reader)
    requires s.Ok()
    ensures var r := ReadObject(s, Plain, st); r.Some? && r.value.0 == Ref(st.next) && Registered(st, r.value.0, r.value.1)
  {
    assert ReadHead(s, Plain, st.input) == Some((PlainObj, [], st.input));
  }

  lemma OneFlagFails(s: Schema, id: nat, t: Token)
    requires s.Ok() && id >= ID32
    ensures var r := Read(s, OnlyPlain(id).(input := [t])); r.Some? ==> r.value.0 != Ref(0)
  {
    var st := OnlyPlain(id).(input := [t]);
    var st1 := st.(input := st.input[1..]);
    assert st1.input == [];
    if t.Flag? && t.b < ID32 {
      assert st1.types[t.b] == Str;
      assert ReadObject(s, Str, st1) == None;
      assert ReadTyped(s, t.b, st1) == None;
    }
  }

  // ----- announcements -----

  function Names(tokens: seq<Token>): seq<Type> {
    if tokens == [] then []
    else
      var front, last := Names(tokens[..|tokens| - 1]), tokens[|tokens| - 1];
      if last.Name? then front + [last.t] else front
  }

  lemma {:induction false} NamesConcat(a: seq<Token>, b: seq<Token>)
    ensures Names(a + b) == Names(a) + Names(b)
  {
    if b == [] {
      assert a + b == a;
    } else {
      NamesConcat(a, b[..|b| - 1]);
      assert (a + b)[..|a + b| - 1] == a + b[..|b| - 1];
    }
  }

  ghost predicate Distinct(ts: seq<Type>) {
    forall i, j :: 0 <= i < j < |ts| ==> ts[i] != ts[j]
  }

  /** The names on the stream are those of the types that get an id, in the order of the ids, each once. */
  ghost predicate Announces(tb: Tables, w: (Tables, seq<Token>)) {
    w.0.types == tb.types + Names(w.1) && (Distinct(tb.types) ==> Distinct(w.0.types))
  }

  lemma AnnouncesBoth(tb: Tables, w1: (Tables, seq<Token>), w2: (Tables, seq<Token>))
    requires Announces(tb, w1) && Announces(w1.0, w2)
    ensures Announces(tb, (w2.0, w1.1 + w2.1))
  {
    NamesConcat(w1.1, w2.1);
    Grouped(tb.types, Names(w1.1), Names(w2.1));
  }

  lemma NoNames(tokens: seq<Token>)
    requires forall k :: 0 <= k < |tokens| ==> !tokens[k].Name?
    ensures Names(tokens) == []
  {
  }

  lemma TypeAnnounced(tb: Tables, t: Type, objs: seq<Value>, more: seq<Token>)
    requires Names(more) == []
    ensures Announces(tb, (AddType(tb, t).(objs := objs), TypeTokens(tb, t) + more))
  {
    TypeNames(tb, t);
    NamesConcat(TypeTokens(tb, t), more);
  }

  /** A type that is not known yet is announced. */
  lemma TypeNames(tb: Tables, t: Type)
    ensures Names(TypeTokens(tb, t)) == if t in tb.types then [] else [t]
  {
    var id := IndexOf(AddType(tb, t).types, t);
    var first := if t in tb.types then [] else [Flag(TYPE), Name(t)];
    NoNames(IdTokens(id));
    OneName(Flag(TYPE), t);
    NamesConcat(first, IdTokens(id));
  }

  lemma OneName(flag: Token, t: Type)
    requires !flag.Name?
    ensures Names([flag, Name(t)]) == [t]
  {
    NoNames([flag]);
    assert [flag, Name(t)][..1] == [flag];
  }

  lemma {:induction false} DimsHaveNoNames(dims: seq<Dim>)
    ensures Names(DimTokens(dims)) == []
  {
    if dims != [] {
      DimsHaveNoNames(dims[1..]);
      var first := [Int(dims[0].length), Int(dims[0].lower)];
      NoNames(first);
      NamesConcat(first, DimTokens(dims[1..]));
    }
  }

  lemma HeadHasNoNames(o: Object)
    ensures Names(Head(o)) == []
  {
    if o.ArrObj? {
      DimsHaveNoNames(o.dims);
    } else {
      NoNames(Head(o));
    }
  }

  lemma {:induction false} WriteAnnounces(g: Graph, v: Value, tb: Tables)
    requires GraphOk(g) && ValueOk(g, v)
    ensures Announces(tb, Write(g, v, tb))
    decreases Unseen(g, tb), v, 1
  {
    if v == Null || v in tb.objs {
      NoNames(Write(g, v, tb).1);
    } else {
      var t := TypeOf(g, v);
      var tb1 := AddType(tb, t);
      if t.IsValueType() {
        TypeAnnounced(tb, t, tb.objs, []);
        assert TypeTokens(tb, t) + [] == TypeTokens(tb, t);
        ValueAnnounces(g, v, tb1);
        AnnouncesBoth(tb, (tb1, TypeTokens(tb, t)), WriteValue(g, v, tb1));
      } else if v.Text? {
        NoNames([Chars(v.s)]);
        TypeAnnounced(tb, t, tb1.objs + [v], [Chars(v.s)]);
      } else {
        ObjectAnnounces(g, v.r, tb);
      }
    }
  }

  lemma {:induction false} ObjectAnnounces(g: Graph, r: nat, tb: Tables)
    requires GraphOk(g) && r in g.heap && Ref(r) !in tb.objs
    ensures Announces(tb, Write(g, Ref(r), tb))
    decreases Unseen(g, tb), Ref(r), 0
  {
    var o := g.heap[r];
    var t, tb2 := TypeOfObject(o), Opened(g, r, tb);
    WriteObjectIs(g, r, tb);
    HeadHasNoNames(o);
    TypeAnnounced(tb, t, AddType(tb, t).objs + [Ref(r)], Head(o));
    SlotsAnnounce(g, Slots(o), SlotTypes(g.schema, o), tb2);
    AnnouncesBoth(tb, (tb2, TypeTokens(tb, t) + Head(o)), WriteSlots(g, Slots(o), SlotTypes(g.schema, o), tb2));
  }

  lemma {:induction false} ValueAnnounces(g: Graph, v: Value, tb: Tables)
    requires GraphOk(g) && ValueOk(g, v) && (v.PrimVal? || v.StructVal?)
    ensures Announces(tb, WriteValue(g, v, tb))
    decreases Unseen(g, tb), v, 0
  {
    match v
    case PrimVal(_, bits) => NoNames([Payload(bits)]);
    case StructVal(id, fields) => SlotsAnnounce(g, fields, g.schema.structs[id], tb);
  }

  lemma {:induction false} SlotAnnounces(g: Graph, v: Value, t: Type, tb: Tables)
    requires GraphOk(g) && Fits(g, v, t)
    ensures Announces(tb, WriteSlot(g, v, t, tb))
    decreases Unseen(g, tb), v, 2
  {
    if t.IsValueType() {
      ValueAnnounces(g, v, tb);
    } else {
      WriteAnnounces(g, v, tb);
    }
  }

  lemma {:induction false} SlotsAnnounce(g: Graph, vs: seq<Value>, ts: seq<Type>, tb: Tables)
    requires GraphOk(g) && AllFit(g, vs, ts)
    ensures Announces(tb, WriteSlots(g, vs, ts, tb))
    decreases Unseen(g, tb), vs, 0
  {
    if vs == [] {
      NoNames([]);
    } else {
      var w1 := WriteSlot(g, vs[0], ts[0], tb);
      SlotAnnounces(g, vs[0], ts[0], tb);
      SlotsAnnounce(g, vs[1..], ts[1..], w1.0);
      AnnouncesBoth(tb, w1, WriteSlots(g, vs[1..], ts[1..], w1.0));
    }
  }

  /** In a message every type is announced at most once. */
  lemma AnnouncedOnce(g: Graph, v: Value)
    requires GraphOk(g) && ValueOk(g, v)
    ensures Distinct(Names(Serialize(g, v))) && Names(Serialize(g, v)) == Write(g, v, NO_TABLES).0.types
  {
    WriteAnnounces(g, v, NO_TABLES);
    NothingBefore(Names(Serialize(g, v)));
  }

  // ----- small messages -----

  lemma NullMessage(g: Graph)
    requires GraphOk(g)
    ensures Serialize(g, Null) == [Flag(255)]
  {
    assert Write(g, Null, NO_TABLES).1 == [Flag(NULL)];
  }

  lemma PlainWritten(g: Graph, r: nat, tb: Tables)
    requires GraphOk(g) && r in g.heap && g.heap[r] == PlainObj && Ref(r) !in tb.objs
    ensures ValueOk(g, Ref(r)) && Write(g, Ref(r), tb) == (Opened(g, r, tb), TypeTokens(tb, Plain))
  {
    WriteObjectIs(g, r, tb);
    assert EntryOk(g, r);
    assert Slots(PlainObj) == [] && SlotTypes(g.schema, PlainObj) == [] && Head(PlainObj) == [];
    assert TypeTokens(tb, Plain) + [] + [] == TypeTokens(tb, Plain);
  }

  /** An object without fields: its type is announced and has id 0. */
  lemma PlainMessage(g: Graph, r: nat)
    requires GraphOk(g) && r in g.heap && g.heap[r] == PlainObj
    ensures ValueOk(g, Ref(r)) && Serialize(g, Ref(r)) == [Flag(254), Name(Plain), Flag(0)]
  {
    PlainWritten(g, r, NO_TABLES);
    assert TypeTokens(NO_TABLES, Plain) == [Flag(TYPE), Name(Plain), Flag(0)];
  }

  /** An object without fields that is not the first of the message, and its second occurrence. */
  lemma PlainSecond(g: Graph, r: nat, tb1: Tables, tb2: Tables, vs: seq<Value>, ts: seq<Type>)
    requires GraphOk(g) && r in g.heap && g.heap[r] == PlainObj && vs == [Ref(r), Ref(r)] && ts == [Plain, Plain] && AllFit(g, vs, ts)
    requires |tb1.types| == |tb1.objs| == 1 && Plain !in tb1.types && Ref(r) !in tb1.objs
    requires tb2 == Tables(tb1.types + [Plain], tb1.objs + [Ref(r)])
    ensures WriteSlots(g, vs, ts, tb1) == (tb2, [Flag(254), Name(Plain), Flag(1), Flag(253), Int(1)])
  {
    PlainWritten(g, r, tb1);
    assert tb2 == Opened(g, r, tb1);
    assert TypeTokens(tb1, Plain) == [Flag(TYPE), Name(Plain), Flag(1)];
    assert WriteSlot(g, vs[0], ts[0], tb1) == (tb2, [Flag(TYPE), Name(Plain), Flag(1)]);
    assert tb2.objs[1] == Ref(r) && tb2.objs[1..][0] == Ref(r) && IndexOf(tb2.objs, Ref(r)) == 1;
    assert vs[1..] == [Ref(r)] && ts[1..] == [Plain];
    assert WriteSlot(g, Ref(r), Plain, tb2) == (tb2, [Flag(REUSE), Int(1)]);
    OneSlot(g, Ref(r), Plain, tb2);
    var first, rest: seq<Token> := [Flag(TYPE), Name(Plain), Flag(1)], [Flag(REUSE), Int(1)];
    assert WriteSlots(g, vs[1..], ts[1..], tb2) == (tb2, rest);
    assert first + rest == [Flag(254), Name(Plain), Flag(1), Flag(253), Int(1)];
  }

  lemma OneSlot(g: Graph, v: Value, t: Type, tb: Tables)
    requires GraphOk(g) && Fits(g, v, t)
    ensures AllFit(g, [v], [t]) && WriteSlots(g, [v], [t], tb) == WriteSlot(g, v, t, tb)
  {
    var w := WriteSlot(g, v, t, tb);
    assert [v][1..] == [] && [t][1..] == [];
    assert w.1 + [] == w.1;
  }

  /** A list that has one object twice: the count, the object, and a reference to the object with id 1. */
  lemma SharedMessage(g: Graph, list: nat, r: nat)
    requires GraphOk(g) && list in g.heap && r in g.heap && list != r
    requires g.heap[r] == PlainObj && g.heap[list] == ListObj(Plain, [Ref(r), Ref(r)])
    ensures ValueOk(g, Ref(list)) && Serialize(g, Ref(list)) ==
      [Flag(254), Name(Lst(Plain)), Flag(0), Int(2), Flag(254), Name(Plain), Flag(1), Flag(253), Int(1)]
  {
    assert EntryOk(g, list) && EntryOk(g, r);
    var tb1 := Opened(g, list, NO_TABLES);
    WriteObjectIs(g, list, NO_TABLES);
    assert tb1 == Tables([Lst(Plain)], [Ref(list)]);
    assert SlotTypes(g.schema, g.heap[list]) == [Plain, Plain];
    PlainSecond(g, r, tb1, Tables([Lst(Plain), Plain], [Ref(list), Ref(r)]), [Ref(r), Ref(r)], [Plain, Plain]);
    assert TypeTokens(NO_TABLES, Lst(Plain)) == [Flag(TYPE), Name(Lst(Plain)), Flag(0)];
  }
}
