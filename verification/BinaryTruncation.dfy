/**
 What the reader of c#/code/XSerialize/Binary/XBinarySerializer2.cs does with a stream that goes on, and with
 one that stops too early: it takes what it takes whatever follows, so a message that is cut off fails.
 */
module BinaryTruncation {
  import opened ArrayOdometer
  import opened ObjectGraph
  import opened BinaryFormat
  import opened BinaryRoundTrip
  import opened Sequences
  import opened Wrappers

  /** The same reader with more on its stream. */
  function Longer(st: Reader, more: seq<Token>): Reader {
    st.(input := st.input + more)
  }

  function LongerResult<T>(r: Option<(T, Reader)>, more: seq<Token>): Option<(T, Reader)> {
    match r
    case None => None
    case Some((x, st)) => Some((x, Longer(st, more)))
  }

  lemma FirstToken(a: seq<Token>, more: seq<Token>)
    requires a != []
    ensures (a + more)[0] == a[0] && (a + more)[1..] == a[1..] + more
  {
  }

  lemma {:induction false} DimsGoOn(rank: nat, input: seq<Token>, more: seq<Token>)
    requires ReadDims(rank, input).Some?
    ensures ReadDims(rank, input + more) == Some((ReadDims(rank, input).value.0, ReadDims(rank, input).value.1 + more))
  {
    if rank > 0 {
      assert (input + more)[0] == input[0] && (input + more)[1] == input[1] && (input + more)[2..] == input[2..] + more;
      DimsGoOn(rank - 1, input[2..], more);
    }
  }

  lemma CountGoesOn(input: seq<Token>, more: seq<Token>)
    requires ReadCount(input).Some?
    ensures ReadCount(input + more) == Some((ReadCount(input).value.0, ReadCount(input).value.1 + more))
  {
    FirstToken(input, more);
  }

  lemma HeadGoesOn(s: Schema, t: Type, input: seq<Token>, more: seq<Token>)
    requires ReadHead(s, t, input).Some?
    ensures var (o, ts, rest) := ReadHead(s, t, input).value; ReadHead(s, t, input + more) == Some((o, ts, rest + more))
  {
    match t
    case Arr(_, rank) => DimsGoOn(rank, input, more);
    case Lst(_) => CountGoesOn(input, more);
    case Dict(_, _) => CountGoesOn(input, more);
    case Bytes =>
      CountGoesOn(input, more);
      FirstToken(ReadCount(input).value.1, more);
    case _ =>
  }

  lemma {:induction false} ReadGoesOn(s: Schema, st: Reader, more: seq<Token>)
    requires s.Ok() && Read(s, st).Some?
    ensures Read(s, Longer(st, more)) == LongerResult(Read(s, st), more)
    decreases |st.input|, 0, 0
  {
    FirstToken(st.input, more);
    var flag, st1 := st.input[0].b, st.(input := st.input[1..]);
    assert Longer(st, more).(input := Longer(st, more).input[1..]) == Longer(st1, more);
    if flag != NULL {
      if flag < ID32 {
        TypedGoesOn(s, flag, st1, more);
      } else {
        FirstToken(st1.input, more);
        if flag == TYPE {
          ReadGoesOn(s, st1.(types := st1.types + [st1.input[0].t], input := st1.input[1..]), more);
        } else if flag == ID32 {
          TypedGoesOn(s, st1.input[0].n, st1.(input := st1.input[1..]), more);
        }
      }
    }
  }

  lemma {:induction false} TypedGoesOn(s: Schema, id: int, st: Reader, more: seq<Token>)
    requires s.Ok() && ReadTyped(s, id, st).Some?
    ensures ReadTyped(s, id, Longer(st, more)) == LongerResult(ReadTyped(s, id, st), more)
    decreases |st.input|, |s.structs| + 2, 0
  {
    var t := st.types[id];
    if t.IsValueType() {
      ValueGoesOn(s, t, st, more);
    } else {
      ObjectGoesOn(s, t, st, more);
    }
  }

  lemma {:induction false} ObjectGoesOn(s: Schema, t: Type, st: Reader, more: seq<Token>)
    requires s.Ok() && !t.IsValueType() && ReadObject(s, t, st).Some?
    ensures ReadObject(s, t, Longer(st, more)) == LongerResult(ReadObject(s, t, st), more)
    decreases |st.input|, |s.structs| + 1, 0
  {
    if t == Str {
      FirstToken(st.input, more);
    } else {
      HeadGoesOn(s, t, st.input, more);
      var (shell, ts, rest) := ReadHead(s, t, st.input).value;
      var st1 := Reader(st.types, st.objs + [Ref(st.next)], st.heap[st.next := shell], st.next + 1, rest);
      SlotsGoOn(s, ts, st1, Some(Target(st.next, shell)), [], |s.structs|, more);
    }
  }

  lemma {:induction false} ValueGoesOn(s: Schema, t: Type, st: Reader, more: seq<Token>)
    requires s.Ok() && t.IsValueType() && ReadValue(s, t, st).Some?
    ensures ReadValue(s, t, Longer(st, more)) == LongerResult(ReadValue(s, t, st), more)
    decreases |st.input|, Depth(s, t), 0
  {
    match t
    case Prim(_) => FirstToken(st.input, more);
    case Struct(id) => SlotsGoOn(s, s.structs[id], st, None, [], id, more);
  }

  lemma {:induction false} SlotGoesOn(s: Schema, t: Type, st: Reader, more: seq<Token>)
    requires s.Ok() && ReadSlot(s, t, st).Some?
    ensures ReadSlot(s, t, Longer(st, more)) == LongerResult(ReadSlot(s, t, st), more)
    decreases |st.input|, Depth(s, t), 1
  {
    if t.IsValueType() {
      ValueGoesOn(s, t, st, more);
    } else {
      ReadGoesOn(s, st, more);
    }
  }

  lemma {:induction false} SlotsGoOn(s: Schema, ts: seq<Type>, st: Reader, target: Option<Target>, done: seq<Value>, depth: nat, more: seq<Token>)
    requires s.Ok() && (forall k :: 0 <= k < |ts| ==> Depth(s, ts[k]) <= depth) && ReadSlots(s, ts, st, target, done, depth).Some?
    ensures ReadSlots(s, ts, Longer(st, more), target, done, depth) == LongerResult(ReadSlots(s, ts, st, target, done, depth), more)
    decreases |st.input|, depth, |ts| + 2
  {
    if ts != [] {
      SlotGoesOn(s, ts[0], st, more);
      var (v, st1) := ReadSlot(s, ts[0], st).value;
      assert Store(Longer(st1, more), target, done + [v]) == Longer(Store(st1, target, done + [v]), more);
      SlotsGoOn(s, ts[1..], Store(st1, target, done + [v]), target, done + [v], depth, more);
    }
  }

  /** A message that is cut off anywhere cannot be read. */
  lemma TruncatedFails(g: Graph, v: Value, heap: Heap, next: nat, n: nat)
    requires GraphOk(g) && ValueOk(g, v) && n < |Serialize(g, v)|
    ensures Deserialize(g.schema, heap, next, Serialize(g, v)[..n]) == None
  {
    var whole := Serialize(g, v);
    var part, more := whole[..n], whole[n..];
    var st := Reader([], [], heap, next, part);
    var f, v', after := RoundTrip(g, v, heap, next, []);
    assert whole + [] == whole == part + more;
    assert Longer(st, more) == Reader([], [], heap, next, whole) && after.input == [];
    if Read(g.schema, st).Some? {
      ReadGoesOn(g.schema, st, more);
    }
  }

  /** Ids that were not given out cannot be read. */
  lemma UnknownIdsFail(s: Schema, st: Reader, id: nat, rest: seq<Token>)
    requires s.Ok()
    ensures id >= |st.objs| ==> Read(s, st.(input := [Flag(253), Int(id)] + rest)) == None
    ensures 252 > id >= |st.types| ==> Read(s, st.(input := [Flag(id)] + rest)) == None
    ensures id >= |st.types| ==> Read(s, st.(input := [Flag(252), Int(id)] + rest)) == None
  {
    FirstToken([Flag(253), Int(id)], rest);
    FirstToken([Flag(252), Int(id)], rest);
    if id < 252 {
      FirstToken([Flag(id)], rest);
    }
  }
}
