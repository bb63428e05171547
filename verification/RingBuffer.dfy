/**
 The ring buffer of cpp-test/test-ringbuffer.cpp: the object itself, and one producer and one
 consumer thread using it step by step.  Indices are unbounded, items are never null.
 */
module RingBuffer {
  import opened Arithmetic
  import opened Wrappers


  /** The slots hold exactly the queue q, starting at index `first` and going round. */
  ghost predicate Window<T>(slots: seq<Option<T>>, first: nat, q: seq<T>) {
    && 0 < |slots| && |q| <= |slots|
    && (forall k :: 0 <= k < |q| ==> HoldsItem(slots, first, k, q[k]))
    && (forall k :: |q| <= k < |slots| ==> IsFree(slots, first, k))
  }

  ghost predicate HoldsItem<T>(slots: seq<Option<T>>, first: nat, k: nat, x: T)
    requires 0 < |slots|
  {
    slots[(first + k) % |slots|] == Some(x)
  }

  ghost predicate IsFree<T>(slots: seq<Option<T>>, first: nat, k: nat)
    requires 0 < |slots|
  {
    slots[(first + k) % |slots|].None?
  }

  /** The slot behind the queue is occupied exactly when the queue is full. */
  lemma BehindTheQueue<T>(slots: seq<Option<T>>, first: nat, q: seq<T>)
    requires Window(slots, first, q)
    ensures slots[(first + |q|) % |slots|].None? <==> |q| < |slots|
    ensures slots[first % |slots|].Some? <==> q != []
    ensures q != [] ==> slots[first % |slots|] == Some(q[0])
  {
    if |q| < |slots| {
      assert IsFree(slots, first, |q|);
    } else {
      ModAround(first, |slots|);
      assert HoldsItem(slots, first, 0, q[0]);
    }
    if q == [] {
      assert IsFree(slots, first, 0);
    } else {
      assert HoldsItem(slots, first, 0, q[0]);
    }
  }

  lemma PutKeepsWindow<T>(slots: seq<Option<T>>, first: nat, q: seq<T>, x: T)
    requires Window(slots, first, q) && |q| < |slots|
    ensures Window(slots[(first + |q|) % |slots| := Some(x)], first, q + [x])
  {
    var n := |slots|;
    var slots2 := slots[(first + |q|) % n := Some(x)];
    forall k | 0 <= k < |q + [x]|
      ensures HoldsItem(slots2, first, k, (q + [x])[k])
    {
      if k < |q| {
        assert HoldsItem(slots, first, k, q[k]);
        ModDiffers(first + k, |q| - k, n);
      }
    }
    forall k | |q + [x]| <= k < n
      ensures IsFree(slots2, first, k)
    {
      assert IsFree(slots, first, k);
      ModDiffers(first + |q|, k - |q|, n);
    }
  }

  lemma EatKeepsWindow<T>(slots: seq<Option<T>>, first: nat, q: seq<T>)
    requires Window(slots, first, q) && q != []
    ensures Window(slots[first % |slots| := None], first + 1, q[1..])
  {
    var n := |slots|;
    var slots2, next, tail := slots[first % n := None], first + 1, q[1..];
    forall k | 0 <= k < |tail|
      ensures HoldsItem(slots2, next, k, tail[k])
    {
      assert HoldsItem(slots, first, k + 1, q[k + 1]);
      ModDiffers(first, k + 1, n);
    }
    forall k | |tail| <= k < n
      ensures IsFree(slots2, next, k)
    {
      if k == n - 1 {
        ModAround(first, n);
        assert first + 1 + k == first + n;
      } else {
        assert IsFree(slots, first, k + 1);
        ModDiffers(first, k + 1, n);
      }
    }
  }

  // ----- the object, used by one thread -----

  class RingBuffer<T> {
    var readIdx: nat
    var writeIdx: nat
    const buffer: array<Option<T>>
    ghost var queue: seq<T>

    ghost predicate Valid()
      reads this, buffer
    {
      Window(buffer[..], readIdx, queue) && writeIdx == readIdx + |queue|
    }

    constructor (size: nat)
      requires size >= 1
      ensures Valid() && fresh(buffer) && buffer.Length == size && queue == []
    {
      buffer := new Option<T>[size](_ => None);
      readIdx, writeIdx, queue := 0, 0, [];
      new;
      assert forall k :: 0 <= k < size ==> IsFree(buffer[..], 0, k);
    }

    method CanPut() returns (ok: bool)
      requires Valid()
      ensures ok <==> |queue| < buffer.Length
    {
      BehindTheQueue(buffer[..], readIdx, queue);
      ok := buffer[writeIdx % buffer.Length].None?;
    }

    method TryPut(x: T) returns (ok: bool)
      requires Valid()
      modifies this, buffer
      ensures Valid() && (ok <==> |old(queue)| < buffer.Length)
      ensures queue == if ok then old(queue) + [x] else old(queue)
    {
      ok := CanPut();
      if !ok {
        return;
      }
      PutKeepsWindow(buffer[..], readIdx, queue, x);
      buffer[writeIdx % buffer.Length] := Some(x);
      writeIdx := writeIdx + 1;
      queue := queue + [x];
    }

    method CanEat() returns (ok: bool)
      requires Valid()
      ensures ok <==> queue != []
    {
      BehindTheQueue(buffer[..], readIdx, queue);
      ok := buffer[readIdx % buffer.Length].Some?;
    }

    method TryEat() returns (x: Option<T>)
      requires Valid()
      modifies this, buffer
      ensures Valid()
      ensures if old(queue) == [] then x == None && queue == [] else x == Some(old(queue)[0]) && queue == old(queue)[1..]
    {
      var ok := CanEat();
      if !ok {
        return None;
      }
      BehindTheQueue(buffer[..], readIdx, queue);
      EatKeepsWindow(buffer[..], readIdx, queue);
      var idx := readIdx % buffer.Length;
      readIdx := readIdx + 1;
      x := buffer[idx];
      buffer[idx] := None;
      queue := queue[1..];
    }
  }

  // ----- two threads -----

  /** Where the producer is in `tryput`. */
  datatype Producer<T> =
    | Outside
    | Checked(item: T)     // canput was true, the slot is not written yet
    | Stored(item: T)      // the slot is written, the index not advanced yet

  /** Where the consumer is in `tryeat`. */
  datatype Consumer<T> =
    | Waiting
    | Seen                 // caneat was true
    | Indexed(idx: nat)    // idx computed
    | Moved(idx: nat)      // the index advanced, the slot not read yet
    | Loaded(idx: nat, item: T)  // the slot read, not cleared yet

  /** The shared fields, the two threads, and what has been put and eaten so far. */
  datatype State<T> = State(slots: seq<Option<T>>, readIdx: nat, writeIdx: nat, producer: Producer<T>, consumer: Consumer<T>,
                            put: seq<T>, eaten: seq<T>)

  /** The next step of one thread; the item is the one the producer would offer in a new call. */
  datatype Action<T> = Produce(item: T) | Consume

  /** What a step amounts to for the callers. */
  datatype Event<T> = Silent | Enqueued(item: T) | Full | Dequeued(item: T) | NothingThere

  function Start<T>(size: nat): State<T> {
    State(seq(size, _ => None), 0, 0, Outside, Waiting, [], [])
  }

  function Do<T>(s: State<T>, a: Action<T>): (State<T>, Event<T>)
    requires 0 < |s.slots|
  {
    var n := |s.slots|;
    match a
    case Produce(item) =>
      (match s.producer
       case Outside =>
         if s.slots[s.writeIdx % n].None? then (s.(producer := Checked(item)), Silent) else (s, Full)
       case Checked(x) =>
         (s.(slots := s.slots[s.writeIdx % n := Some(x)], producer := Stored(x), put := s.put + [x]), Enqueued(x))
       case Stored(_) => (s.(writeIdx := s.writeIdx + 1, producer := Outside), Silent))
    case Consume =>
      (match s.consumer
       case Waiting =>
         if s.slots[s.readIdx % n].Some? then (s.(consumer := Seen), Silent) else (s, NothingThere)
       case Seen => (s.(consumer := Indexed(s.readIdx % n)), Silent)
       case Indexed(idx) => (s.(readIdx := s.readIdx + 1, consumer := Moved(idx)), Silent)
       case Moved(idx) =>
         if idx < n && s.slots[idx].Some? then (s.(consumer := Loaded(idx, s.slots[idx].value)), Silent)
         else (s.(consumer := Waiting), NothingThere)
       case Loaded(idx, x) =>
         if idx < n then (s.(slots := s.slots[idx := None], consumer := Waiting, eaten := s.eaten + [x]), Dequeued(x))
         else (s, Silent))
  }

  function Run<T>(s: State<T>, schedule: seq<Action<T>>): (r: State<T>)
    requires 0 < |s.slots|
    ensures |r.slots| == |s.slots|
  {
    if schedule == [] then s else Do(Run(s, schedule[..|schedule| - 1]), schedule[|schedule| - 1]).0
  }

  /** The queue the callers see: put but not eaten. */
  function Queue<T>(s: State<T>): seq<T>
    requires |s.eaten| <= |s.put|
  {
    s.put[|s.eaten|..]
  }

  ghost predicate Ok<T>(s: State<T>) {
    && s.eaten <= s.put
    && Window(s.slots, |s.eaten|, Queue(s))
    && s.writeIdx == |s.put| - (if s.producer.Stored? then 1 else 0)
    && (s.producer.Checked? ==> |Queue(s)| < |s.slots|)
    && s.readIdx == |s.eaten| + (if s.consumer.Moved? || s.consumer.Loaded? then 1 else 0)
    && (!s.consumer.Waiting? ==> Queue(s) != [])
    && (s.consumer.Indexed? ==> s.consumer.idx == |s.eaten| % |s.slots|)
    && (s.consumer.Moved? ==> s.consumer.idx == |s.eaten| % |s.slots|)
    && (s.consumer.Loaded? ==> s.consumer.idx == |s.eaten| % |s.slots| && s.consumer.item == Queue(s)[0])
  }

  /** What a bounded queue of the given size may do. */
  ghost predicate QueueStep<T>(size: nat, q: seq<T>, e: Event<T>, q': seq<T>) {
    match e
    case Silent => q' == q
    case Enqueued(x) => |q| < size && q' == q + [x]
    case Full => |q| == size && q' == q
    case Dequeued(x) => q != [] && x == q[0] && q' == q[1..]
    case NothingThere => q == [] && q' == q
  }

  lemma ProducerStep<T>(s: State<T>, item: T)
    requires Ok(s)
    ensures var (s2, e) := Do(s, Produce(item));
      Ok(s2) && QueueStep(|s.slots|, Queue(s), e, Queue(s2))
  {
    var q := Queue(s);
    assert |s.eaten| + |q| == |s.put|;
    BehindTheQueue(s.slots, |s.eaten|, q);
    if s.producer.Checked? {
      PutKeepsWindow(s.slots, |s.eaten|, q, s.producer.item);
      assert (s.put + [s.producer.item])[|s.eaten|..] == q + [s.producer.item];
    }
  }

  lemma ConsumerStep<T>(s: State<T>)
    requires Ok(s)
    ensures var (s2, e) := Do(s, Consume);
      Ok(s2) && QueueStep(|s.slots|, Queue(s), e, Queue(s2))
  {
    var q := Queue(s);
    BehindTheQueue(s.slots, |s.eaten|, q);
    if s.consumer.Loaded? {
      EatKeepsWindow(s.slots, |s.eaten|, q);
      assert s.put[|s.eaten|] == q[0];
      assert s.eaten + [q[0]] <= s.put;
      assert s.put[|s.eaten| + 1..] == q[1..];
    }
  }

  /** Every interleaving of the two threads' steps. */
  lemma {:induction false} EveryRunIsOk<T>(size: nat, schedule: seq<Action<T>>)
    requires size >= 1
    ensures Ok(Run(Start<T>(size), schedule))
  {
    if schedule == [] {
      assert forall k :: 0 <= k < size ==> IsFree(Start<T>(size).slots, 0, k);
    } else {
      var before := schedule[..|schedule| - 1];
      EveryRunIsOk(size, before);
      match schedule[|schedule| - 1]
      case Produce(item) => ProducerStep(Run(Start<T>(size), before), item);
      case Consume => ConsumerStep(Run(Start<T>(size), before));
    }
  }

  /**
   The ring buffer refines a bounded queue: whatever happened before, each step of either thread
   is a step of the queue or invisible; `tryput` fails only when the queue is full and `tryeat`
   only when it is empty.
   */
  lemma RefinesQueue<T>(size: nat, schedule: seq<Action<T>>, a: Action<T>)
    requires size >= 1
    ensures var s := Run(Start<T>(size), schedule);
      var (s2, e) := Do(s, a);
      && |s.eaten| <= |s.put| && |s2.eaten| <= |s2.put|
      && QueueStep(size, Queue(s), e, Queue(s2))
  {
    EveryRunIsOk(size, schedule);
    match a
    case Produce(item) => ProducerStep(Run(Start<T>(size), schedule), item);
    case Consume => ConsumerStep(Run(Start<T>(size), schedule));
  }

  /** Eaten items are a prefix of the put items, in order; at most `size` are in flight. */
  lemma FirstInFirstOut<T>(size: nat, schedule: seq<Action<T>>)
    requires size >= 1
    ensures var s := Run(Start<T>(size), schedule);
      s.eaten <= s.put && |s.put| - |s.eaten| <= size
  {
    EveryRunIsOk(size, schedule);
  }

  // ----- whole calls -----

  lemma {:induction false} OkOnwards<T>(s: State<T>, schedule: seq<Action<T>>)
    requires Ok(s)
    ensures Ok(Run(s, schedule))
  {
    if schedule != [] {
      var before := schedule[..|schedule| - 1];
      OkOnwards(s, before);
      match schedule[|schedule| - 1]
      case Produce(item) => ProducerStep(Run(s, before), item);
      case Consume => ConsumerStep(Run(s, before));
    }
  }

  predicate OnlyConsume<T>(schedule: seq<Action<T>>) {
    forall k :: 0 <= k < |schedule| ==> schedule[k].Consume?
  }

  predicate OnlyProduce<T>(schedule: seq<Action<T>>) {
    forall k :: 0 <= k < |schedule| ==> schedule[k].Produce?
  }

  lemma {:induction false} ConsumeKeeps<T>(s: State<T>, schedule: seq<Action<T>>)
    requires 0 < |s.slots| && OnlyConsume(schedule)
    ensures Run(s, schedule).producer == s.producer
  {
    if schedule != [] {
      ConsumeKeeps(s, schedule[..|schedule| - 1]);
    }
  }

  lemma {:induction false} ProduceKeeps<T>(s: State<T>, schedule: seq<Action<T>>)
    requires 0 < |s.slots| && OnlyProduce(schedule)
    ensures var s2 := Run(s, schedule); s2.consumer == s.consumer && s2.eaten == s.eaten && s.put <= s2.put
  {
    if schedule != [] {
      ProduceKeeps(s, schedule[..|schedule| - 1]);
    }
  }

  /** What a whole call of `tryput` does, with steps of the consumer between its own: it ends after one step or three. */
  lemma TryPutEnds<T>(s: State<T>, x: T, between: seq<Action<T>>, other: T, behind: seq<Action<T>>, another: T)
    requires Ok(s) && s.producer.Outside? && OnlyConsume(between) && OnlyConsume(behind)
    ensures var (s1, e1) := Do(s, Produce(x));
      if |Queue(s)| == |s.slots| then e1 == Full && s1 == s
      else
        var (s2, e2) := Do(Run(s1, between), Produce(other));
        var (s3, e3) := Do(Run(s2, behind), Produce(another));
        e1 == Silent && e2 == Enqueued(x) && e3 == Silent && s3.producer == Outside
  {
    var (s1, e1) := Do(s, Produce(x));
    ProducerStep(s, x);
    BehindTheQueue(s.slots, |s.eaten|, Queue(s));
    assert |s.eaten| + |Queue(s)| == |s.put|;
    if |Queue(s)| < |s.slots| {
      ConsumeKeeps(s1, between);
      var (s2, e2) := Do(Run(s1, between), Produce(other));
      ConsumeKeeps(s2, behind);
    }
  }

  /** The consumer is within a call, and this is the oldest item. */
  ghost predicate Eating<T>(s: State<T>, x: T, stage: nat) {
    Ok(s) && Queue(s) != [] && Queue(s)[0] == x && Stage(s.consumer) == stage
  }

  function Stage<T>(c: Consumer<T>): nat {
    match c
    case Waiting => 0
    case Seen => 1
    case Indexed(_) => 2
    case Moved(_) => 3
    case Loaded(_, _) => 4
  }

  /** The slot of the oldest item, seen from any point of a call. */
  lemma FrontIsThere<T>(s: State<T>)
    requires Ok(s) && Queue(s) != []
    ensures s.slots[|s.eaten| % |s.slots|] == Some(Queue(s)[0]) && Queue(s)[0] == s.put[|s.eaten|]
  {
    BehindTheQueue(s.slots, |s.eaten|, Queue(s));
  }

  lemma EatingOnwards<T>(s: State<T>, x: T, stage: nat, between: seq<Action<T>>)
    requires Eating(s, x, stage) && OnlyProduce(between)
    ensures Eating(Run(s, between), x, stage)
  {
    OkOnwards(s, between);
    ProduceKeeps(s, between);
    assert Queue(Run(s, between))[0] == Run(s, between).put[|s.eaten|];
  }

  /** The steps before the last one are not seen by the callers. */
  lemma EatOnce<T>(s: State<T>, x: T, stage: nat)
    requires Eating(s, x, stage) && stage < 4
    ensures Do(s, Consume).1 == Silent && Eating(Do(s, Consume).0, x, stage + 1)
  {
    FrontIsThere(s);
    ConsumerStep(s);
  }

  lemma EatLast<T>(s: State<T>, x: T)
    requires Eating(s, x, 4)
    ensures Do(s, Consume).1 == Dequeued(x) && Ok(Do(s, Consume).0) && Do(s, Consume).0.consumer == Waiting
  {
    BehindTheQueue(s.slots, |s.eaten|, Queue(s));
    ConsumerStep(s);
  }

  /**
   What a whole call of `tryeat` does, with steps of the producer between its own: it ends after one step, or after
   five: the first in s, each of the others in what the producer made of the state behind the one before.
   */
  lemma TryEatEnds<T>(s: State<T>, between: seq<seq<Action<T>>>) returns (states: seq<State<T>>)
    requires Ok(s) && s.consumer.Waiting? && |between| == 5 && between[0] == [] && forall k :: 0 <= k < 5 ==> OnlyProduce(between[k])
    ensures Queue(s) == [] ==> Do(s, Consume) == (s, NothingThere)
    ensures Queue(s) != [] ==>
      && |states| == 6 && states[0] == s && (forall k :: 0 <= k < 6 ==> Ok(states[k])) && states[5].consumer == Waiting
      && forall k :: 0 <= k < 5 ==>
           Do(Run(states[k], between[k]), Consume) == (states[k + 1], if k < 4 then Silent else Dequeued(Queue(s)[0]))
  {
    BehindTheQueue(s.slots, |s.eaten|, Queue(s));
    states := [s];
    if Queue(s) != [] {
      var x := Queue(s)[0];
      for k := 0 to 4
        invariant |states| == k + 1 && states[0] == s && Eating(states[k], x, k)
        invariant forall j :: 0 <= j <= k ==> Ok(states[j])
        invariant forall j :: 0 <= j < k ==> Do(Run(states[j], between[j]), Consume) == (states[j + 1], Silent)
      {
        EatingOnwards(states[k], x, k, between[k]);
        EatOnce(Run(states[k], between[k]), x, k);
        states := states + [Do(Run(states[k], between[k]), Consume).0];
      }
      EatingOnwards(states[4], x, 4, between[4]);
      EatLast(Run(states[4], between[4]), x);
      states := states + [Do(Run(states[4], between[4]), Consume).0];
    }
  }
}
