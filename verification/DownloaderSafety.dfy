/**
 What holds of the downloader in every run: progress that was written down is true, whatever
 crashed, failed or was interleaved, and "finished" means the file is the source.
 */
module DownloaderSafety {
  import opened ByteFile
  import opened ChunkLayout
  import opened Downloader
  import opened Wrappers

  /** The bytes in [a, b) are those of the source. */
  ghost predicate DataOk(source: File, file: File, a: int, b: int) {
    forall p :: a <= p < b ==> ByteOk(source, file, p)
  }

  ghost predicate ByteOk(source: File, file: File, p: int) {
    0 <= p < |source| && p < |file| && file[p] == source[p]
  }

  /** The progress noted for chunk i lies in the chunk, and everything before it was obtained. */
  ghost predicate SlotOk(source: File, file: File, i: nat)
    requires |file| == FullLength(|source|) && i < Count(|source|)
  {
    && InRange(|source|, i, Slot(|source|, file, i))
    && DataOk(source, file, From(i), Slot(|source|, file, i))
  }

  ghost predicate Marked(size: nat, file: File) {
    |file| == FullLength(size) && file[|file| - 1] == MARK
  }

  /** What may be found on disk at any moment: nothing, the whole source, or a layout that does not lie. */
  ghost predicate FileOk(source: File, file: Option<File>) {
    file.None? || (
      var f := file.value;
      || f == source
      || f == []
      || (|f| == FullLength(|source|) && (Marked(|source|, f) ==> forall i :: 0 <= i < Count(|source|) ==> SlotOk(source, f, i))))
  }

  /** A chunk of a running download. */
  ghost predicate ChunkOk(source: File, file: File, currs: seq<int>, i: nat)
    requires |file| == FullLength(|source|) && |currs| == Count(|source|) && i < Count(|source|)
  {
    && From(i) <= Slot(|source|, file, i) <= currs[i] <= Limit(|source|, i)
    && DataOk(source, file, From(i), currs[i])
  }

  function Holds(w: Worker): Option<nat> {
    match w
    case Idle => None
    case Exited => None
    case Ready(i) => Some(i)
    case Streaming(i) => Some(i)
    case Writing(i, _, _) => Some(i)
    case Advanced(i, _) => Some(i)
    case Stamped(i, _) => Some(i)
  }

  /** Bytes a worker has counted in curr but not in m_current_size. */
  function Uncounted(w: Worker): nat {
    match w
    case Advanced(_, len) => len
    case Stamped(_, len) => len
    case _ => 0
  }

  function Pending(workers: seq<Worker>): nat {
    if workers == [] then 0 else Pending(workers[..|workers| - 1]) + Uncounted(workers[|workers| - 1])
  }

  ghost predicate WorkerOk(source: File, file: File, currs: seq<int>, next: nat, w: Worker) {
    && (Holds(w).Some? ==> Holds(w).value < next <= |currs|)
    && (w.Writing? ==>
      && w.buffer != [] && w.done <= |w.buffer|
      && currs[w.i] + |w.buffer| <= Limit(|source|, w.i)
      && (forall k :: 0 <= k < |w.buffer| && 0 <= currs[w.i] + k < |source| ==> w.buffer[k] == source[currs[w.i] + k])
      && DataOk(source, file, currs[w.i], currs[w.i] + w.done))
  }

  /** No chunk is held by two workers. */
  ghost predicate Exclusive(workers: seq<Worker>) {
    forall a, b :: DifferentChunks(workers, a, b)
  }

  ghost predicate DifferentChunks(workers: seq<Worker>, a: int, b: int) {
    0 <= a < |workers| && 0 <= b < |workers| && a != b && Holds(workers[a]).Some? ==> Holds(workers[a]) != Holds(workers[b])
  }

  lemma ExclusiveUpdate(workers: seq<Worker>, w: nat, x: Worker)
    requires Exclusive(workers) && w < |workers|
    requires Holds(x).None? || forall v :: 0 <= v < |workers| && v != w ==> Holds(workers[v]) != Holds(x)
    ensures Exclusive(workers[w := x])
  {
    var workers' := workers[w := x];
    forall a, b
      ensures DifferentChunks(workers', a, b)
    {
      assert DifferentChunks(workers, a, b);
    }
  }

  lemma SameChunkUpdate(workers: seq<Worker>, w: nat, x: Worker)
    requires Exclusive(workers) && w < |workers|
    requires Holds(x) == Holds(workers[w]) || Holds(x).None?
    ensures Exclusive(workers[w := x])
  {
    forall v | 0 <= v < |workers| && v != w && Holds(x).Some?
      ensures Holds(workers[v]) != Holds(x)
    {
      assert DifferentChunks(workers, w, v);
    }
    ExclusiveUpdate(workers, w, x);
  }

  ghost predicate AllChunksOk(source: File, file: File, currs: seq<int>)
    requires |file| == FullLength(|source|) && |currs| == Count(|source|)
  {
    forall i :: 0 <= i < Count(|source|) ==> ChunkOk(source, file, currs, i)
  }

  ghost predicate AllWorkersOk(source: File, file: File, currs: seq<int>, next: nat, workers: seq<Worker>) {
    forall w :: WorkerAtOk(source, file, currs, next, workers, w)
  }

  ghost predicate WorkerAtOk(source: File, file: File, currs: seq<int>, next: nat, workers: seq<Worker>, w: int) {
    0 <= w < |workers| ==> WorkerOk(source, file, currs, next, workers[w])
  }

  ghost predicate RunOk(source: File, file: File, p: Process)
    requires p.Running?
  {
    && Marked(|source|, file)
    && |p.currs| == Count(|source|) && p.next <= |p.currs|
    && AllChunksOk(source, file, p.currs)
    && AllWorkersOk(source, file, p.currs, p.next, p.workers)
    && Exclusive(p.workers)
    && p.current + Pending(p.workers) == Sum(p.currs)
  }

  ghost predicate Ok(source: File, s: State) {
    && FileOk(source, s.file)
    && match s.process
       case Down => true
       case Connecting => true
       case Opened => s.file.Some?
       case Resizing(complete) =>
         s.file.Some? && if complete then s.file.value == source else !Marked(|source|, s.file.value) && (s.file.value == [] || |s.file.value| == FullLength(|source|))
       case Stamping(complete, k) =>
         && s.file.Some? && |s.file.value| == FullLength(|source|) && !Marked(|source|, s.file.value)
         && k <= Count(|source|)
         && (complete ==> DataOk(source, s.file.value, 0, |source|))
         && forall i :: 0 <= i < k ==> Slot(|source|, s.file.value, i) == Fresh(|source|, complete, i)
       case Running(_, _, _, _) => s.file.Some? && RunOk(source, s.file.value, s.process)
  }

  // ----- the layout keeps things apart -----

  lemma Apart(size: nat, i: nat, j: nat)
    requires size <= MAX_SIZE && i < j < Count(size)
    ensures Limit(size, i) <= From(j) && SlotAt(size, i) + 8 <= SlotAt(size, j)
  {
  }

  lemma SlotUnchanged(size: nat, file: File, file2: File, i: nat)
    requires |file| == |file2| == FullLength(size) && i < Count(size)
    requires forall p :: SlotAt(size, i) <= p < SlotAt(size, i) + 8 ==> file2[p] == file[p]
    ensures Slot(size, file2, i) == Slot(size, file, i)
  {
    assert file2[SlotAt(size, i)..SlotAt(size, i) + 8] == file[SlotAt(size, i)..SlotAt(size, i) + 8];
  }

  lemma SlotWritten(size: nat, file: File, i: nat, v: nat)
    requires size <= MAX_SIZE && |file| == FullLength(size) && i < Count(size) && v <= MAX_SIZE
    ensures SlotAt(size, i) + 8 < |file|
    ensures var file2 := WriteAt(file, SlotAt(size, i), GetBytes(v));
      && Slot(size, file2, i) == v
      && (forall j :: 0 <= j < Count(size) && j != i ==> Slot(size, file2, j) == Slot(size, file, j))
      && (forall p :: 0 <= p < size ==> file2[p] == file[p])
      && file2[|file| - 1] == file[|file| - 1]
  {
    var at := SlotAt(size, i);
    var file2 := WriteAt(file, at, GetBytes(v));
    assert file2[at..at + 8] == GetBytes(v);
    Int64RoundTrip(v);
    forall j | 0 <= j < Count(size) && j != i
      ensures Slot(size, file2, j) == Slot(size, file, j)
    {
      if i < j {
        Apart(size, i, j);
      } else {
        Apart(size, j, i);
      }
      SlotUnchanged(size, file, file2, j);
    }
  }

  lemma DataUnchanged(source: File, file: File, file2: File, a: int, b: int)
    requires DataOk(source, file, a, b) && |file2| == |file|
    requires forall p :: 0 <= p < |file| && a <= p < b ==> file2[p] == file[p]
    ensures DataOk(source, file2, a, b)
  {
    forall p | a <= p < b
      ensures ByteOk(source, file2, p)
    {
      assert ByteOk(source, file, p);
    }
  }

  // ----- sums -----

  lemma {:induction false} PendingUpdate(workers: seq<Worker>, w: nat, x: Worker)
    requires w < |workers|
    ensures Pending(workers[w := x]) == Pending(workers) - Uncounted(workers[w]) + Uncounted(x)
  {
    var n := |workers| - 1;
    if w == n {
      assert workers[w := x][..n] == workers[..n];
    } else {
      assert workers[w := x][..n] == workers[..n][w := x];
      PendingUpdate(workers[..n], w, x);
    }
  }

  lemma {:induction false} SumUpdate(currs: seq<int>, i: nat, v: int)
    requires i < |currs|
    ensures Sum(currs[i := v]) == Sum(currs) - currs[i] + v
  {
    var n := |currs| - 1;
    if i == n {
      assert currs[i := v][..n] == currs[..n];
    } else {
      assert currs[i := v][..n] == currs[..n][i := v];
      SumUpdate(currs[..n], i, v);
    }
  }

  /** The bytes obtained never exceed those of the chunks, and equal them only when all are finished. */
  lemma {:induction false} SumBound(size: nat, currs: seq<int>)
    requires size <= MAX_SIZE && |currs| <= Count(size)
    requires forall i :: 0 <= i < |currs| ==> InRange(size, i, currs[i])
    ensures 0 <= Sum(currs) <= if |currs| == 0 then 0 else Limit(size, |currs| - 1)
    ensures |currs| > 0 && Sum(currs) == Limit(size, |currs| - 1) ==> forall i :: 0 <= i < |currs| ==> currs[i] == Limit(size, i)
  {
    if currs != [] {
      var n := |currs| - 1;
      SumBound(size, currs[..n]);
      if n > 0 {
        ChunkIsBlock(size, n - 1);
        assert Limit(size, n - 1) == From(n);
      }
    }
  }

  lemma {:induction false} NothingPending(workers: seq<Worker>)
    requires forall w :: 0 <= w < |workers| ==> Uncounted(workers[w]) == 0
    ensures Pending(workers) == 0
  {
    if workers != [] {
      NothingPending(workers[..|workers| - 1]);
    }
  }

  lemma {:induction false} SumFresh(size: nat, complete: bool, n: nat)
    requires size <= MAX_SIZE && n <= Count(size)
    ensures Sum(seq(n, i requires i >= 0 => Fresh(size, complete, i))) == if complete && n > 0 then Limit(size, n - 1) else 0
  {
    if n > 0 {
      SumFresh(size, complete, n - 1);
      var currs := seq(n, i requires i >= 0 => Fresh(size, complete, i));
      assert currs[..n - 1] == seq(n - 1, i requires i >= 0 => Fresh(size, complete, i));
      if n > 1 {
        ChunkIsBlock(size, n - 2);
      }
    }
  }

  // ----- starting -----

  lemma LaunchOk(source: File, file: File, currs: seq<int>, current: int, threads: nat)
    requires |source| <= MAX_SIZE && Marked(|source|, file) && |currs| == Count(|source|)
    requires forall i :: 0 <= i < Count(|source|) ==> SlotOk(source, file, i) && currs[i] == Slot(|source|, file, i)
    requires current == Sum(currs)
    ensures Ok(source, State(Some(file), Launch(|source|, currs, current, threads)))
  {
    var p := Launch(|source|, currs, current, threads);
    forall i | 0 <= i < Count(|source|)
      ensures ChunkOk(source, file, currs, i)
    {
      assert SlotOk(source, file, i);
    }
    NothingPending(p.workers);
    assert forall w :: WorkerAtOk(source, file, currs, 0, p.workers, w);
    assert forall a, b :: DifferentChunks(p.workers, a, b);
  }

  lemma OpenedOk(source: File, file: File, threads: nat)
    requires |source| <= MAX_SIZE && FileOk(source, Some(file))
    ensures Ok(source, DoInit(|source|, file, Opened, threads))
  {
    var size := |source|;
    if |file| != size && Marked(size, file) {
      var slots := Slots(size, file);
      forall i | 0 <= i < Count(size)
        ensures SlotOk(source, file, i) && slots[i] == Slot(size, file, i)
      {
      }
      assert AllInRange(size, slots);
      LaunchOk(source, file, slots, Sum(slots), threads);
    }
  }

  lemma ResizingOk(source: File, file: File, complete: bool, threads: nat)
    requires |source| <= MAX_SIZE && Ok(source, State(Some(file), Resizing(complete)))
    ensures Ok(source, DoInit(|source|, file, Resizing(complete), threads))
  {
  }

  lemma StampedOk(source: File, file: File, file2: File, complete: bool, k: nat)
    requires |source| <= MAX_SIZE && k < Count(|source|) && Ok(source, State(Some(file), Stamping(complete, k)))
    requires |file2| == |file| && file2[|file| - 1] == file[|file| - 1]
    requires forall p :: 0 <= p < |source| ==> file2[p] == file[p]
    requires Slot(|source|, file2, k) == Fresh(|source|, complete, k)
    requires forall j :: 0 <= j < Count(|source|) && j != k ==> Slot(|source|, file2, j) == Slot(|source|, file, j)
    ensures Ok(source, State(Some(file2), Stamping(complete, k + 1)))
  {
    if complete {
      DataUnchanged(source, file, file2, 0, |source|);
    }
  }

  lemma StampingOk(source: File, file: File, complete: bool, k: nat, threads: nat)
    requires |source| <= MAX_SIZE && k < Count(|source|) && Ok(source, State(Some(file), Stamping(complete, k)))
    ensures Ok(source, DoInit(|source|, file, Stamping(complete, k), threads))
  {
    var v := Fresh(|source|, complete, k);
    SlotWritten(|source|, file, k, v);
    StampedOk(source, file, WriteAt(file, SlotAt(|source|, k), GetBytes(v)), complete, k);
  }

  lemma MarkingOk(source: File, file: File, complete: bool, threads: nat)
    requires |source| <= MAX_SIZE && Ok(source, State(Some(file), Stamping(complete, Count(|source|))))
    ensures Ok(source, DoInit(|source|, file, Stamping(complete, Count(|source|)), threads))
  {
    var size := |source|;
    var file2 := WriteAt(file, |file| - 1, [MARK]);
    var currs := seq(Count(size), i requires i >= 0 => Fresh(size, complete, i));
    if complete {
      DataUnchanged(source, file, file2, 0, size);
    }
    forall i | 0 <= i < Count(size)
      ensures SlotOk(source, file2, i) && currs[i] == Slot(size, file2, i)
    {
      SlotUnchanged(size, file, file2, i);
      forall p | From(i) <= p < currs[i]
        ensures ByteOk(source, file2, p)
      {
      }
    }
    SumFresh(size, complete, Count(size));
    if Count(size) > 0 {
      ChunkIsBlock(size, Count(size) - 1);
    }
    LaunchOk(source, file2, currs, if complete then size else 0, threads);
  }

  // ----- running -----

  /** The other workers are as they were; worker w becomes x. */
  lemma WorkersUpdate(source: File, file: File, currs: seq<int>, next: nat, workers: seq<Worker>, w: nat, x: Worker)
    requires w < |workers| && WorkerOk(source, file, currs, next, x)
    requires forall v :: 0 <= v < |workers| && v != w ==> WorkerOk(source, file, currs, next, workers[v])
    ensures AllWorkersOk(source, file, currs, next, workers[w := x])
  {
  }

  lemma EveryWorkerOk(source: File, file: File, currs: seq<int>, next: nat, workers: seq<Worker>)
    requires AllWorkersOk(source, file, currs, next, workers)
    ensures forall v :: 0 <= v < |workers| ==> WorkerOk(source, file, currs, next, workers[v])
  {
    forall v | 0 <= v < |workers|
      ensures WorkerOk(source, file, currs, next, workers[v])
    {
      assert WorkerAtOk(source, file, currs, next, workers, v);
    }
  }

  /** A worker moves within the chunk it holds, or lets go of it. */
  lemma WorkerMoves(source: File, file: File, p: Process, w: nat, x: Worker)
    requires p.Running? && RunOk(source, file, p) && w < |p.workers|
    requires WorkerOk(source, file, p.currs, p.next, x)
    requires Holds(x) == Holds(p.workers[w]) || Holds(x).None?
    requires Uncounted(x) == Uncounted(p.workers[w])
    ensures RunOk(source, file, p.(workers := p.workers[w := x]))
  {
    PendingUpdate(p.workers, w, x);
    SameChunkUpdate(p.workers, w, x);
    EveryWorkerOk(source, file, p.currs, p.next, p.workers);
    WorkersUpdate(source, file, p.currs, p.next, p.workers, w, x);
  }

  lemma TakesChunk(source: File, file: File, p: Process, w: nat)
    requires p.Running? && RunOk(source, file, p) && w < |p.workers|
    requires p.workers[w] == Idle && p.next < |p.currs|
    ensures RunOk(source, file, p.(next := p.next + 1, workers := p.workers[w := Ready(p.next)]))
  {
    var x := Ready(p.next);
    PendingUpdate(p.workers, w, x);
    forall v | 0 <= v < |p.workers| && v != w
      ensures WorkerOk(source, file, p.currs, p.next + 1, p.workers[v])
      ensures Holds(p.workers[v]) != Holds(x)
    {
      assert WorkerAtOk(source, file, p.currs, p.next, p.workers, v);
    }
    ExclusiveUpdate(p.workers, w, x);
    WorkersUpdate(source, file, p.currs, p.next + 1, p.workers, w, x);
  }

  /** The next byte of the buffer goes to a place in the chunk, and is the source's byte there. */
  lemma WriterBounds(source: File, file: File, p: Process, w: nat)
    requires |source| <= MAX_SIZE && p.Running? && RunOk(source, file, p) && w < |p.workers| && p.workers[w].Writing?
    ensures var Writing(i, buffer, done) := p.workers[w];
      && i < p.next <= |p.currs| && done <= |buffer| && From(i) <= p.currs[i] <= p.currs[i] + |buffer| <= Limit(|source|, i) <= |source| < |file|
      && DataOk(source, file, p.currs[i], p.currs[i] + done)
      && (done < |buffer| ==> buffer[done] == source[p.currs[i] + done])
  {
    assert WorkerAtOk(source, file, p.currs, p.next, p.workers, w) && ChunkOk(source, file, p.currs, p.workers[w].i);
  }

  /** One byte of the buffer reaches the file. */
  lemma WritesByte(source: File, file: File, p: Process, w: nat, i: nat, buffer: seq<Byte>, done: nat, file2: File)
    requires |source| <= MAX_SIZE && p.Running? && RunOk(source, file, p) && w < |p.workers|
    requires p.workers[w] == Writing(i, buffer, done) && done < |buffer| && i < |p.currs|
    requires 0 <= p.currs[i] + done < |file| && file2 == WriteAt(file, p.currs[i] + done, [buffer[done]])
    ensures RunOk(source, file2, p.(workers := p.workers[w := Writing(i, buffer, done + 1)]))
  {
    var x, at := Writing(i, buffer, done + 1), p.currs[i] + done;
    WriterBounds(source, file, p, w);
    PendingUpdate(p.workers, w, x);
    SameChunkUpdate(p.workers, w, x);
    ByteKeepsChunks(source, file, file2, p.currs, i, at);
    assert WorkerAtOk(source, file, p.currs, p.next, p.workers, w);
    BytesGrow(source, file, file2, p.currs[i], at);
    OtherWorkers(source, file, file2, p, w, at);
    WorkersUpdate(source, file2, p.currs, p.next, p.workers, w, x);
  }

  lemma OtherWorkers(source: File, file: File, file2: File, p: Process, w: nat, at: int)
    requires |source| <= MAX_SIZE && p.Running? && RunOk(source, file, p) && w < |p.workers|
    requires Holds(p.workers[w]).Some? && Holds(p.workers[w]).value < |p.currs|
    requires p.currs[Holds(p.workers[w]).value] <= at < Limit(|source|, Holds(p.workers[w]).value)
    requires |file2| == |file| && forall q :: 0 <= q < |file| && q != at ==> file2[q] == file[q]
    ensures forall v :: 0 <= v < |p.workers| && v != w ==> WorkerOk(source, file2, p.currs, p.next, p.workers[v])
  {
    forall v | 0 <= v < |p.workers| && v != w
      ensures WorkerOk(source, file2, p.currs, p.next, p.workers[v])
    {
      OtherWorker(source, file, file2, p, w, v, at);
    }
  }

  lemma BytesGrow(source: File, file: File, file2: File, a: int, at: int)
    requires 0 <= at < |file| == |file2| && at < |source| && file2[at] == source[at]
    requires DataOk(source, file, a, at) && forall q :: 0 <= q < |file| && q != at ==> file2[q] == file[q]
    ensures DataOk(source, file2, a, at + 1)
  {
    forall q | a <= q < at + 1
      ensures ByteOk(source, file2, q)
    {
      assert q < at ==> ByteOk(source, file, q);
    }
  }

  lemma ByteKeepsChunks(source: File, file: File, file2: File, currs: seq<int>, i: nat, at: int)
    requires |source| <= MAX_SIZE && |file| == |file2| == FullLength(|source|) && |currs| == Count(|source|) && i < Count(|source|)
    requires AllChunksOk(source, file, currs)
    requires currs[i] <= at < Limit(|source|, i)
    requires forall q :: 0 <= q < |file| && q != at ==> file2[q] == file[q]
    ensures AllChunksOk(source, file2, currs)
  {
    var size := |source|;
    forall j | 0 <= j < Count(size)
      ensures ChunkOk(source, file2, currs, j)
    {
      assert ChunkOk(source, file, currs, j) && ChunkOk(source, file, currs, i);
      SlotUnchanged(size, file, file2, j);
      DataUnchanged(source, file, file2, From(j), currs[j]);
    }
  }

  lemma OtherWorker(source: File, file: File, file2: File, p: Process, w: nat, v: nat, at: int)
    requires |source| <= MAX_SIZE && p.Running? && RunOk(source, file, p) && w < |p.workers| && v < |p.workers| && v != w
    requires Holds(p.workers[w]).Some? && Holds(p.workers[w]).value < |p.currs|
    requires p.currs[Holds(p.workers[w]).value] <= at < Limit(|source|, Holds(p.workers[w]).value)
    requires |file2| == |file| && forall q :: 0 <= q < |file| && q != at ==> file2[q] == file[q]
    ensures WorkerOk(source, file2, p.currs, p.next, p.workers[v])
  {
    var size := |source|;
    assert WorkerAtOk(source, file, p.currs, p.next, p.workers, v) && WorkerAtOk(source, file, p.currs, p.next, p.workers, w);
    if p.workers[v].Writing? {
      var i, j := Holds(p.workers[w]).value, p.workers[v].i;
      assert DifferentChunks(p.workers, w, v);
      assert ChunkOk(source, file, p.currs, j) && ChunkOk(source, file, p.currs, i);
      if i < j {
        Apart(size, i, j);
      } else {
        Apart(size, j, i);
      }
      DataUnchanged(source, file, file2, p.currs[j], p.currs[j] + p.workers[v].done);
    }
  }

  /** The whole buffer is in the file: curr moves past it. */
  lemma Advances(source: File, file: File, p: Process, w: nat)
    requires |source| <= MAX_SIZE && p.Running? && RunOk(source, file, p) && w < |p.workers|
    requires p.workers[w].Writing? && p.workers[w].done == |p.workers[w].buffer|
    ensures var Writing(i, buffer, done) := p.workers[w];
      && i < |p.currs|
      && RunOk(source, file, p.(currs := p.currs[i := p.currs[i] + |buffer|], workers := p.workers[w := Advanced(i, |buffer|)]))
  {
    var Writing(i, buffer, done) := p.workers[w];
    assert WorkerAtOk(source, file, p.currs, p.next, p.workers, w) && ChunkOk(source, file, p.currs, i);
    var v, x := p.currs[i] + |buffer|, Advanced(i, |buffer|);
    var currs2 := p.currs[i := v];
    PendingUpdate(p.workers, w, x);
    SumUpdate(p.currs, i, v);
    SameChunkUpdate(p.workers, w, x);
    assert DataOk(source, file, From(i), v);
    ChunksAdvanced(source, file, p.currs, i, v);
    forall u | 0 <= u < |p.workers| && u != w
      ensures WorkerOk(source, file, currs2, p.next, p.workers[u])
    {
      OthersUnmoved(source, file, p, w, u, i, v);
    }
    WorkersUpdate(source, file, currs2, p.next, p.workers, w, x);
  }

  lemma ChunksAdvanced(source: File, file: File, currs: seq<int>, i: nat, v: int)
    requires |file| == FullLength(|source|) && |currs| == Count(|source|) && i < |currs| && AllChunksOk(source, file, currs)
    requires currs[i] <= v <= Limit(|source|, i) && DataOk(source, file, From(i), v)
    ensures AllChunksOk(source, file, currs[i := v])
  {
    var currs2 := currs[i := v];
    forall j | 0 <= j < Count(|source|)
      ensures ChunkOk(source, file, currs2, j)
    {
      assert ChunkOk(source, file, currs, j);
    }
  }

  lemma OthersUnmoved(source: File, file: File, p: Process, w: nat, u: nat, i: nat, v: int)
    requires |source| <= MAX_SIZE && p.Running? && RunOk(source, file, p) && w < |p.workers| && u < |p.workers| && u != w
    requires Holds(p.workers[w]) == Some(i) && i < |p.currs|
    ensures WorkerOk(source, file, p.currs[i := v], p.next, p.workers[u])
  {
    assert WorkerAtOk(source, file, p.currs, p.next, p.workers, u) && DifferentChunks(p.workers, w, u);
  }

  /** The progress number is written down. */
  lemma Stamps(source: File, file: File, p: Process, w: nat)
    requires |source| <= MAX_SIZE && p.Running? && RunOk(source, file, p) && w < |p.workers|
    requires p.workers[w].Advanced?
    ensures var Advanced(i, len) := p.workers[w];
      && i < |p.currs| && p.currs[i] >= 0 && SlotAt(|source|, i) + 8 <= |file|
      && RunOk(source, WriteAt(file, SlotAt(|source|, i), GetBytes(p.currs[i])), p.(workers := p.workers[w := Stamped(i, len)]))
  {
    var size := |source|;
    var Advanced(i, len) := p.workers[w];
    assert WorkerAtOk(source, file, p.currs, p.next, p.workers, w) && ChunkOk(source, file, p.currs, i);
    SlotWritten(size, file, i, p.currs[i]);
    var file2 := WriteAt(file, SlotAt(size, i), GetBytes(p.currs[i]));
    PendingUpdate(p.workers, w, Stamped(i, len));
    SameChunkUpdate(p.workers, w, Stamped(i, len));
    ChunksStamped(source, file, file2, p.currs, i);
    WorkersUndisturbed(source, file, file2, p);
    WorkersUpdate(source, file2, p.currs, p.next, p.workers, w, Stamped(i, len));
  }

  /** The slot written last says what is true, the others say what they said. */
  lemma ChunksStamped(source: File, file: File, file2: File, currs: seq<int>, i: nat)
    requires |source| <= MAX_SIZE && |file| == |file2| == FullLength(|source|) && |currs| == Count(|source|) && i < |currs|
    requires AllChunksOk(source, file, currs) && Slot(|source|, file2, i) == currs[i]
    requires forall j :: 0 <= j < |currs| && j != i ==> Slot(|source|, file2, j) == Slot(|source|, file, j)
    requires forall q :: 0 <= q < |source| ==> file2[q] == file[q]
    ensures AllChunksOk(source, file2, currs)
  {
    forall j | 0 <= j < Count(|source|)
      ensures ChunkOk(source, file2, currs, j)
    {
      assert ChunkOk(source, file, currs, j);
      DataUnchanged(source, file, file2, From(j), currs[j]);
    }
  }

  /** What is written behind the data concerns no worker. */
  lemma WorkersUndisturbed(source: File, file: File, file2: File, p: Process)
    requires |source| <= MAX_SIZE && p.Running? && RunOk(source, file, p)
    requires |file2| == |file| && forall q :: 0 <= q < |source| ==> file2[q] == file[q]
    ensures forall v :: 0 <= v < |p.workers| ==> WorkerOk(source, file2, p.currs, p.next, p.workers[v])
  {
    forall v | 0 <= v < |p.workers|
      ensures WorkerOk(source, file2, p.currs, p.next, p.workers[v])
    {
      assert WorkerAtOk(source, file, p.currs, p.next, p.workers, v);
      if p.workers[v].Writing? {
        DataUnchanged(source, file, file2, p.currs[p.workers[v].i], p.currs[p.workers[v].i] + p.workers[v].done);
      }
    }
  }

  lemma Counts(source: File, file: File, p: Process, w: nat)
    requires p.Running? && RunOk(source, file, p) && w < |p.workers| && p.workers[w].Stamped?
    ensures var Stamped(i, len) := p.workers[w];
      RunOk(source, file, p.(current := p.current + len, workers := p.workers[w := Streaming(i)]))
  {
    var Stamped(i, len) := p.workers[w];
    EveryWorkerOk(source, file, p.currs, p.next, p.workers);
    PendingUpdate(p.workers, w, Streaming(i));
    SameChunkUpdate(p.workers, w, Streaming(i));
    WorkersUpdate(source, file, p.currs, p.next, p.workers, w, Streaming(i));
  }

  /** A running download is at any moment a file that can be resumed. */
  lemma RunningFileOk(source: File, file: File, p: Process)
    requires p.Running? && RunOk(source, file, p)
    ensures Ok(source, State(Some(file), p))
  {
    forall i | 0 <= i < Count(|source|)
      ensures SlotOk(source, file, i)
    {
      assert ChunkOk(source, file, p.currs, i);
    }
  }

  lemma RequestOk(source: File, file: File, p: Process, w: nat, net: Net)
    requires p.Running? && RunOk(source, file, p) && w < |p.workers|
    requires p.workers[w].Ready? || p.workers[w].Streaming?
    ensures Ok(source, DoWork(source, file, p, w, net))
  {
    var s2 := DoWork(source, file, p, w, net);
    var x := s2.process.workers[w];
    assert WorkerAtOk(source, file, p.currs, p.next, p.workers, w);
    assert p.workers[w := p.workers[w]] == p.workers;
    WorkerMoves(source, file, p, w, x);
    assert s2 == State(Some(file), p.(workers := p.workers[w := x]));
    RunningFileOk(source, file, s2.process);
  }

  lemma IdleOk(source: File, file: File, p: Process, w: nat, net: Net)
    requires p.Running? && RunOk(source, file, p) && w < |p.workers| && p.workers[w].Idle?
    ensures Ok(source, DoWork(source, file, p, w, net))
  {
    if p.next < |p.currs| {
      TakesChunk(source, file, p, w);
    } else {
      WorkerMoves(source, file, p, w, Exited);
    }
    RunningFileOk(source, file, DoWork(source, file, p, w, net).process);
  }

  lemma WritingStep(source: File, file: File, p: Process, w: nat, net: Net, i: nat, buffer: seq<Byte>, done: nat)
    requires p.Running? && w < |p.workers| && p.workers[w] == Writing(i, buffer, done) && i < |p.currs|
    requires done <= |buffer| && 0 <= p.currs[i] && p.currs[i] + |buffer| < |file|
    ensures DoWork(source, file, p, w, net) ==
      if done < |buffer| then State(Some(WriteAt(file, p.currs[i] + done, [buffer[done]])), p.(workers := p.workers[w := Writing(i, buffer, done + 1)]))
      else State(Some(file), p.(currs := p.currs[i := p.currs[i] + |buffer|], workers := p.workers[w := Advanced(i, |buffer|)]))
  {
  }

  lemma WritingOk(source: File, file: File, p: Process, w: nat, net: Net)
    requires |source| <= MAX_SIZE && p.Running? && RunOk(source, file, p) && w < |p.workers| && p.workers[w].Writing?
    ensures Ok(source, DoWork(source, file, p, w, net))
  {
    var Writing(i, buffer, done) := p.workers[w];
    WriterBounds(source, file, p, w);
    WritingStep(source, file, p, w, net, i, buffer, done);
    if done < |buffer| {
      var file2 := WriteAt(file, p.currs[i] + done, [buffer[done]]);
      WritesByte(source, file, p, w, i, buffer, done, file2);
      RunningFileOk(source, file2, p.(workers := p.workers[w := Writing(i, buffer, done + 1)]));
    } else {
      Advances(source, file, p, w);
      RunningFileOk(source, file, p.(currs := p.currs[i := p.currs[i] + |buffer|], workers := p.workers[w := Advanced(i, |buffer|)]));
    }
  }

  lemma WorkOk(source: File, file: File, p: Process, w: nat, net: Net)
    requires |source| <= MAX_SIZE && p.Running? && RunOk(source, file, p) && w < |p.workers|
    ensures Ok(source, DoWork(source, file, p, w, net))
  {
    match p.workers[w] {
      case Exited => RunningFileOk(source, file, p);
      case Idle => IdleOk(source, file, p, w, net);
      case Ready(_) => RequestOk(source, file, p, w, net);
      case Streaming(_) => RequestOk(source, file, p, w, net);
      case Writing(_, _, _) => WritingOk(source, file, p, w, net);
      case Advanced(_, _) =>
        Stamps(source, file, p, w);
        var s2 := DoWork(source, file, p, w, net);
        RunningFileOk(source, s2.file.value, s2.process);
      case Stamped(_, _) =>
        Counts(source, file, p, w);
        RunningFileOk(source, file, DoWork(source, file, p, w, net).process);
    }
  }

  // ----- finishing -----

  /** The sizes agree only when every chunk is finished and the data is the source. */
  lemma SizesAgree(source: File, file: File, p: Process)
    requires |source| <= MAX_SIZE && p.Running? && RunOk(source, file, p)
    requires p.current == |source|
    ensures forall i :: 0 <= i < |p.currs| ==> p.currs[i] == Limit(|source|, i)
    ensures Pending(p.workers) == 0
    ensures |file| >= |source| && file[..|source|] == source
  {
    var size := |source|;
    forall i | 0 <= i < |p.currs|
      ensures InRange(size, i, p.currs[i])
    {
      assert ChunkOk(source, file, p.currs, i);
    }
    SumBound(size, p.currs);
    if Count(size) > 0 {
      ChunkIsBlock(size, Count(size) - 1);
    }
    forall q | 0 <= q < size
      ensures file[q] == source[q]
    {
      var i := q / BLOCK;
      ChunkIsBlock(size, i);
      assert ChunkOk(source, file, p.currs, i);
      assert ByteOk(source, file, q);
    }
  }

  // ----- every run -----

  lemma StepOk(source: File, s: State, a: Action)
    requires |source| <= MAX_SIZE && Ok(source, s)
    ensures Ok(source, Do(source, s, a))
  {
    match a {
      case Crash =>
      case Start =>
      case Connect =>
      case Init(threads) =>
        if s.file.Some? {
          match s.process {
            case Opened => OpenedOk(source, s.file.value, threads);
            case Resizing(complete) => ResizingOk(source, s.file.value, complete, threads);
            case Stamping(complete, k) =>
              if k < Count(|source|) {
                StampingOk(source, s.file.value, complete, k, threads);
              } else {
                MarkingOk(source, s.file.value, complete, threads);
              }
            case _ =>
          }
        }
      case Work(w, net) =>
        if s.file.Some? && s.process.Running? && w < |s.process.workers| {
          WorkOk(source, s.file.value, s.process, w, net);
        }
      case Finish =>
        if s.file.Some? && IsFinished(|source|, s.process) {
          SizesAgree(source, s.file.value, s.process);
          assert SetLength(s.file.value, |source|) == source;
        }
    }
  }

  /**
   From an absent file, or one left by earlier runs, after any sequence of thread steps, network
   failures, crashes and restarts: the invariant holds.
   */
  lemma {:induction false} EveryRunIsOk(source: File, s: State, actions: seq<Action>)
    requires |source| <= MAX_SIZE && Ok(source, s)
    ensures Ok(source, Run(source, s, actions))
  {
    if actions != [] {
      EveryRunIsOk(source, s, actions[..|actions| - 1]);
      StepOk(source, Run(source, s, actions[..|actions| - 1]), actions[|actions| - 1]);
    }
  }

  /** What that means for a resumed download: progress in memory and on disk lies in its chunk and is true. */
  lemma ProgressIsTrue(source: File, actions: seq<Action>, i: nat)
    requires |source| <= MAX_SIZE && i < Count(|source|)
    ensures var s := Run(source, State(None, Down), actions);
      && (s.file.Some? && Marked(|source|, s.file.value) ==> SlotOk(source, s.file.value, i))
      && (s.process.Running? ==>
        && s.file.Some? && |s.process.currs| == Count(|source|)
        && InRange(|source|, i, s.process.currs[i])
        && DataOk(source, s.file.value, From(i), s.process.currs[i]))
  {
    var s := Run(source, State(None, Down), actions);
    EveryRunIsOk(source, State(None, Down), actions);
    if s.file.Some? && Marked(|source|, s.file.value) {
      assert |s.file.value| > |source|;
    }
    if s.process.Running? {
      assert ChunkOk(source, s.file.value, s.process.currs, i);
    }
  }

  /** When m_current_size == m_total_size is observed, the first bytes of the file are the source. */
  lemma FinishedMeansComplete(source: File, actions: seq<Action>)
    requires |source| <= MAX_SIZE
    ensures var s := Run(source, State(None, Down), actions);
      s.process.Running? && s.process.current == |source| ==>
        && s.file.Some? && |s.file.value| >= |source| && s.file.value[..|source|] == source
        && forall i :: 0 <= i < |s.process.currs| ==> s.process.currs[i] == Limit(|source|, i)
  {
    var s := Run(source, State(None, Down), actions);
    EveryRunIsOk(source, State(None, Down), actions);
    if s.process.Running? && s.process.current == |source| {
      SizesAgree(source, s.file.value, s.process);
    }
  }

  /**
   When CheckIsFinished answers true and cuts the file to the accounted size, the file is the source
   if and only if the download is running (or there is nothing to download).
   */
  lemma AnswerIsRight(source: File, actions: seq<Action>)
    requires |source| <= MAX_SIZE
    ensures var s := Run(source, State(None, Down), actions);
      s.file.Some? && AnswersTrue(|source|, s.process) ==>
        (Do(source, s, Finish).file == Some(source) <==> s.process.Running? || source == [])
  {
    var s := Run(source, State(None, Down), actions);
    FinishedMeansComplete(source, actions);
    if s.file.Some? && s.process.Connecting? {
      assert SetLength(s.file.value, 0) == [];
    }
  }

  /** A complete file, a new start, and the question before the server has told the size: the file is empty. */
  lemma EarlyAnswerLosesFile(source: File)
    requires source != []
    ensures Ok(source, State(Some(source), Down))
    ensures Do(source, Do(source, State(Some(source), Down), Start), Finish).file == Some([])
  {
  }
}
