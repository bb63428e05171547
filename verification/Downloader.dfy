/**
 XHttpDownLoader of c#/code/XUtils/XHttpDownLoader.cs as a transition system: any number of worker
 threads interleaved step by step, a network that fails at will, a crash at any step, and restarts
 that resume from the file left behind.

 A data write is split into single bytes; a progress slot is written at once.
 */
module Downloader {
  import opened ByteFile
  import opened ChunkLayout
  import opened Wrappers

  /** A worker thread's place in DownloadChunkStart; i is the chunk it holds. */
  datatype Worker =
    | Idle                                          // about to ask for a chunk
    | Ready(i: nat)                                 // at the head of the retry loop
    | Streaming(i: nat)                             // a response is open
    | Writing(i: nat, buffer: seq<Byte>, done: nat) // part of the buffer is in the file
    | Advanced(i: nat, len: nat)                    // curr moved, slot not written yet
    | Stamped(i: nat, len: nat)                     // slot written, m_current_size not raised yet
    | Exited

  /** What the program is doing with the file; Down is before a start or after a crash. */
  datatype Process =
    | Down
    | Connecting                                    // both sizes are 0, the server was asked for the size
    | Opened                                        // the file exists and is open
    | Resizing(complete: bool)                      // before SetLength of the full layout
    | Stamping(complete: bool, k: nat)              // k slots written
    | Running(currs: seq<int>, next: nat, current: int, workers: seq<Worker>)

  datatype State = State(file: Option<File>, process: Process)

  /** What the network does when a worker turns to it. */
  datatype Net = Fails | WrongLength | Responds | Ends | Sends(bytes: seq<Byte>)

  datatype Action =
    | Start
    | Connect                     // the server has told the size; the file is opened
    | Init(threads: nat)          // the next step of InitChunkList; threads start when it is done
    | Work(w: nat, net: Net)      // the next step of one worker
    | Finish                      // CheckIsFinished returning true
    | Crash

  // ----- layout -----

  function From(i: nat): nat { BLOCK * i }

  /** One past the last byte of chunk i. */
  function Limit(size: nat, i: nat): int { ChunkAt(size, i).to + 1 }

  function SlotAt(size: nat, i: nat): nat { size + 8 * i }

  function FullLength(size: nat): nat { size + 8 * Count(size) + 1 }

  const MARK: Byte := 233

  /** The progress number of chunk i in a file of full length. */
  function Slot(size: nat, file: File, i: nat): int
    requires |file| == FullLength(size) && i < Count(size)
  {
    ToInt64(file[SlotAt(size, i)..SlotAt(size, i) + 8])
  }

  function Slots(size: nat, file: File): seq<int>
    requires |file| == FullLength(size)
  {
    seq(Count(size), i requires 0 <= i < Count(size) => Slot(size, file, i))
  }

  predicate InRange(size: nat, i: nat, curr: int) { From(i) <= curr <= Limit(size, i) }

  function Fresh(size: nat, complete: bool, i: nat): int {
    if complete then Limit(size, i) else From(i)
  }

  /** Bytes obtained so far. */
  function Sum(currs: seq<int>): int {
    if currs == [] then 0 else Sum(currs[..|currs| - 1]) + currs[|currs| - 1] - From(|currs| - 1)
  }

  // ----- steps -----

  /** One step; an action that is not possible changes nothing. */
  function Do(source: File, s: State, a: Action): State {
    match a
    case Crash => s.(process := Down)
    case Start =>
      if s.process.Down? then s.(process := Connecting) else s
    case Connect =>
      if s.process.Connecting? then State(Some(if s.file.None? then [] else s.file.value), Opened) else s
    case Init(threads) =>
      if s.file.None? then s else DoInit(|source|, s.file.value, s.process, threads)
    case Work(w, net) =>
      if s.file.Some? && s.process.Running? && w < |s.process.workers| then DoWork(source, s.file.value, s.process, w, net) else s
    case Finish =>
      if s.file.None? then s
      else if s.process.Connecting? then s.(file := Some(SetLength(s.file.value, 0)))
      else if IsFinished(|source|, s.process) then State(Some(SetLength(s.file.value, |source|)), Down)
      else s
  }

  /** CheckIsFinished compares the sizes and joins the threads. */
  predicate IsFinished(size: nat, p: Process) {
    p.Running? && p.current == size && forall w :: 0 <= w < |p.workers| ==> p.workers[w].Exited?
  }

  /** When it answers true: also while both sizes are still 0. */
  predicate AnswersTrue(size: nat, p: Process) {
    p.Connecting? || IsFinished(size, p)
  }

  function DoInit(size: nat, file: File, p: Process, threads: nat): State {
    match p
    case Opened =>
      if |file| == size then State(Some(file), Resizing(true))
      else if |file| == FullLength(size) && file[|file| - 1] == MARK && AllInRange(size, Slots(size, file)) then
        State(Some(file), Launch(size, Slots(size, file), Sum(Slots(size, file)), threads))
      else State(Some(file), Resizing(false))
    case Resizing(complete) => State(Some(SetLength(file, FullLength(size))), Stamping(complete, 0))
    case Stamping(complete, k) =>
      if |file| != FullLength(size) then State(Some(file), p)
      else if k < Count(size) && Fresh(size, complete, k) >= 0 then
        State(Some(WriteAt(file, SlotAt(size, k), GetBytes(Fresh(size, complete, k)))), Stamping(complete, k + 1))
      else
        State(Some(WriteAt(file, |file| - 1, [MARK])),
              Launch(size, seq(Count(size), i requires i >= 0 => Fresh(size, complete, i)), if complete then size else 0, threads))
    case _ => State(Some(file), p)
  }

  predicate AllInRange(size: nat, currs: seq<int>) {
    forall i :: 0 <= i < |currs| ==> InRange(size, i, currs[i])
  }

  function Launch(size: nat, currs: seq<int>, current: int, threads: nat): Process {
    Running(currs, 0, current, seq(threads, _ => Idle))
  }

  function DoWork(source: File, file: File, p: Process, w: nat, net: Net): State
    requires p.Running? && w < |p.workers|
  {
    var size := |source|;
    match p.workers[w]
    case Exited => State(Some(file), p)
    case Idle =>
      // LockGetNextChunkInfo
      if p.next < |p.currs| then State(Some(file), p.(next := p.next + 1, workers := p.workers[w := Ready(p.next)]))
      else State(Some(file), p.(workers := p.workers[w := Exited]))
    case Ready(i) =>
      if i >= |p.currs| then State(Some(file), p)
      else if p.currs[i] == Limit(size, i) || net == WrongLength then State(Some(file), p.(workers := p.workers[w := Idle]))
      else if net == Responds then State(Some(file), p.(workers := p.workers[w := Streaming(i)]))
      else State(Some(file), p)
    case Streaming(i) =>
      if i >= |p.currs| then State(Some(file), p)
      else if net.Sends? && net.bytes != [] && IsNextOf(source, p.currs[i], net.bytes) then
        // too many bytes throw before anything is written
        if p.currs[i] + |net.bytes| > Limit(size, i) then State(Some(file), p.(workers := p.workers[w := Ready(i)]))
        else State(Some(file), p.(workers := p.workers[w := Writing(i, net.bytes, 0)]))
      else if net == Fails || net == Ends then State(Some(file), p.(workers := p.workers[w := Ready(i)]))
      else State(Some(file), p)
    case Writing(i, buffer, done) =>
      if i >= |p.currs| then State(Some(file), p)
      else if done < |buffer| && 0 <= p.currs[i] + done < |file| then
        State(Some(WriteAt(file, p.currs[i] + done, [buffer[done]])), p.(workers := p.workers[w := Writing(i, buffer, done + 1)]))
      else
        State(Some(file), p.(currs := p.currs[i := p.currs[i] + |buffer|], workers := p.workers[w := Advanced(i, |buffer|)]))
    case Advanced(i, len) =>
      if i >= |p.currs| || p.currs[i] < 0 || SlotAt(size, i) + 8 > |file| then State(Some(file), p)
      else State(Some(WriteAt(file, SlotAt(size, i), GetBytes(p.currs[i]))), p.(workers := p.workers[w := Stamped(i, len)]))
    case Stamped(i, len) =>
      State(Some(file), p.(current := p.current + len, workers := p.workers[w := Streaming(i)]))
  }

  /** The server's file does not change: what it sends for the requested range is the source. */
  predicate IsNextOf(source: File, at: int, bytes: seq<Byte>) {
    forall k :: 0 <= k < |bytes| && 0 <= at + k < |source| ==> bytes[k] == source[at + k]
  }

  function Run(source: File, s: State, actions: seq<Action>): State {
    if actions == [] then s else Do(source, Run(source, s, actions[..|actions| - 1]), actions[|actions| - 1])
  }
}
