/**
 What the workers of XHttpDownLoader get done: a chunk is finished, held by a worker, not taken yet, or was
 given up when the server announced a wrong length; so the download is complete when the workers have
 exited exactly if no request since the launch met a wrong length.  And on a network that does not
 fail the workers exit after a bounded number of steps.
 */
module DownloaderProgress {
  import opened ByteFile
  import opened ChunkLayout
  import opened Downloader
  import opened DownloaderSafety
  import opened Wrappers

  // ----- no chunk is forgotten -----

  ghost predicate IsHeld(workers: seq<Worker>, i: nat) {
    exists w :: 0 <= w < |workers| && Holds(workers[w]) == Some(i)
  }

  /** A chunk that was taken is finished or held by a worker. */
  ghost predicate Accounted(size: nat, p: Process, i: nat)
    requires p.Running?
  {
    i < p.next && i < |p.currs| ==> p.currs[i] == Limit(size, i) || IsHeld(p.workers, i)
  }

  ghost predicate Tended(size: nat, p: Process)
    requires p.Running?
  {
    forall i: nat :: Accounted(size, p, i)
  }

  /** Workers exit only when every chunk was taken. */
  ghost predicate ExitedLast(p: Process)
    requires p.Running?
  {
    forall w :: 0 <= w < |p.workers| && p.workers[w].Exited? ==> p.next == |p.currs|
  }

  /** The worker lets go of an unfinished chunk. */
  ghost predicate GivesUp(size: nat, p: Process, a: Action) {
    && p.Running? && a.Work? && a.net == WrongLength && a.w < |p.workers|
    && p.workers[a.w].Ready? && p.workers[a.w].i < |p.currs| && p.currs[p.workers[a.w].i] != Limit(size, p.workers[a.w].i)
  }

  lemma HeldUpdate(workers: seq<Worker>, w: nat, x: Worker, i: nat)
    requires Exclusive(workers) && w < |workers|
    ensures IsHeld(workers[w := x], i) <==> Holds(x) == Some(i) || (IsHeld(workers, i) && Holds(workers[w]) != Some(i))
  {
    var workers2 := workers[w := x];
    if IsHeld(workers2, i) {
      var v :| 0 <= v < |workers2| && Holds(workers2[v]) == Some(i);
      assert DifferentChunks(workers, v, w);
    }
    if IsHeld(workers, i) && Holds(workers[w]) != Some(i) {
      var v :| 0 <= v < |workers| && Holds(workers[v]) == Some(i);
      assert workers2[v] == workers[v];
    }
    if Holds(x) == Some(i) {
      assert workers2[w] == x;
    }
  }

  /** A worker goes on with its chunk, perhaps moving its curr. */
  lemma SameTended(size: nat, p: Process, w: nat, x: Worker, p2: Process)
    requires p.Running? && p2.Running? && Exclusive(p.workers) && w < |p.workers|
    requires p2.workers == p.workers[w := x] && p2.next == p.next && |p2.currs| == |p.currs| && Holds(x) == Holds(p.workers[w])
    requires forall i :: 0 <= i < |p.currs| && Holds(x) != Some(i) ==> p2.currs[i] == p.currs[i]
    ensures Tended(size, p2) <==> Tended(size, p)
  {
    forall i: nat
      ensures Accounted(size, p2, i) <==> Accounted(size, p, i)
    {
      HeldUpdate(p.workers, w, x, i);
      if Holds(x) == Some(i) {
        assert IsHeld(p.workers, i);
      }
    }
  }

  /** A worker without a chunk takes the next one, if there is one. */
  lemma TakenTended(size: nat, p: Process, w: nat, p2: Process)
    requires p.Running? && Exclusive(p.workers) && w < |p.workers| && p.workers[w] == Idle && p.next < |p.currs|
    requires p2 == p.(next := p.next + 1, workers := p.workers[w := Ready(p.next)])
    ensures Tended(size, p2) <==> Tended(size, p)
  {
    forall i: nat
      ensures Accounted(size, p2, i) <==> Accounted(size, p, i)
    {
      HeldUpdate(p.workers, w, Ready(p.next), i);
    }
  }

  /** A worker lets go of its chunk. */
  lemma LeftTended(size: nat, p: Process, w: nat, p2: Process)
    requires p.Running? && Exclusive(p.workers) && w < |p.workers| && p.workers[w].Ready? && p.workers[w].i < p.next <= |p.currs|
    requires p2 == p.(workers := p.workers[w := Idle])
    ensures Tended(size, p2) <==> Tended(size, p) && p.currs[p.workers[w].i] == Limit(size, p.workers[w].i)
  {
    var j := p.workers[w].i;
    forall i: nat
      ensures Accounted(size, p2, i) <==> Accounted(size, p, i) && (i == j ==> p.currs[j] == Limit(size, j))
    {
      HeldUpdate(p.workers, w, Idle, i);
      assert IsHeld(p.workers, j);
    }
    if Tended(size, p2) {
      assert Accounted(size, p2, j);
      assert forall i: nat :: Accounted(size, p2, i) ==> Accounted(size, p, i);
    }
  }

  /** One step of a worker keeps every chunk in hand, unless it gives one up. */
  lemma WorkTended(source: File, file: File, p: Process, w: nat, net: Net)
    requires |source| <= MAX_SIZE && p.Running? && RunOk(source, file, p) && w < |p.workers|
    ensures var p2 := DoWork(source, file, p, w, net).process;
      p2.Running? && (Tended(|source|, p2) <==> Tended(|source|, p) && !GivesUp(|source|, p, Work(w, net)))
  {
    var size, p2 := |source|, DoWork(source, file, p, w, net).process;
    assert WorkerAtOk(source, file, p.currs, p.next, p.workers, w);
    assert p.workers[w := p.workers[w]] == p.workers;
    if p.workers[w].Idle? && p.next < |p.currs| {
      TakenTended(size, p, w, p2);
    } else if p.workers[w].Ready? && p2.workers[w].Idle? {
      LeftTended(size, p, w, p2);
    } else {
      SameTended(size, p, w, p2.workers[w], p2);
    }
  }

  lemma WorkExited(source: File, file: File, p: Process, w: nat, net: Net)
    requires p.Running? && RunOk(source, file, p) && w < |p.workers| && ExitedLast(p)
    ensures var p2 := DoWork(source, file, p, w, net).process; p2.Running? && ExitedLast(p2)
  {
  }

  // ----- every run -----

  /** No request since the threads were started met a wrong length. */
  ghost predicate NoneGivenUp(source: File, actions: seq<Action>) {
    actions != [] ==>
      var front := actions[..|actions| - 1];
      var s := Run(source, State(None, Down), front);
      s.process.Running? ==> NoneGivenUp(source, front) && !GivesUp(|source|, s.process, actions[|actions| - 1])
  }

  ghost predicate InHand(source: File, s: State, kept: bool) {
    s.process.Running? ==> ExitedLast(s.process) && (Tended(|source|, s.process) <==> kept)
  }

  /** The threads begin with no chunk taken. */
  lemma LaunchTended(source: File, s: State, a: Action)
    requires !s.process.Running?
    ensures InHand(source, Do(source, s, a), true)
  {
  }

  lemma StepTended(source: File, s: State, a: Action, kept: bool)
    requires |source| <= MAX_SIZE && Ok(source, s) && s.process.Running? && InHand(source, s, kept)
    ensures InHand(source, Do(source, s, a), kept && !GivesUp(|source|, s.process, a))
  {
    if a.Work? && a.w < |s.process.workers| {
      WorkTended(source, s.file.value, s.process, a.w, a.net);
      WorkExited(source, s.file.value, s.process, a.w, a.net);
    }
  }

  lemma {:induction false} EveryRunInHand(source: File, actions: seq<Action>)
    requires |source| <= MAX_SIZE
    ensures InHand(source, Run(source, State(None, Down), actions), NoneGivenUp(source, actions))
  {
    if actions != [] {
      var front, a := actions[..|actions| - 1], actions[|actions| - 1];
      var s := Run(source, State(None, Down), front);
      EveryRunInHand(source, front);
      EveryRunIsOk(source, State(None, Down), front);
      if s.process.Running? {
        StepTended(source, s, a, NoneGivenUp(source, front));
      } else {
        LaunchTended(source, s, a);
      }
    }
  }

  /** In every run: a worker has exited only when all chunks were taken. */
  lemma ExitMeansAllTaken(source: File, actions: seq<Action>, w: nat)
    requires |source| <= MAX_SIZE
    ensures var p := Run(source, State(None, Down), actions).process;
      p.Running? && w < |p.workers| && p.workers[w].Exited? ==> p.next == |p.currs| == Count(|source|)
  {
    EveryRunInHand(source, actions);
    EveryRunIsOk(source, State(None, Down), actions);
  }

  ghost predicate AllExited(p: Process) {
    p.Running? && p.workers != [] && forall w :: 0 <= w < |p.workers| ==> p.workers[w].Exited?
  }

  ghost predicate AllFinished(size: nat, p: Process)
    requires p.Running?
  {
    forall i :: 0 <= i < |p.currs| ==> p.currs[i] == Limit(size, i)
  }

  lemma NothingHeld(source: File, file: File, p: Process)
    requires |source| <= MAX_SIZE && p.Running? && RunOk(source, file, p) && AllExited(p) && ExitedLast(p)
    ensures Tended(|source|, p) <==> AllFinished(|source|, p)
  {
    assert p.workers[0].Exited?;
    forall i: nat | i < |p.currs|
      ensures Accounted(|source|, p, i) <==> p.currs[i] == Limit(|source|, i)
    {
    }
  }

  /** When all chunks are finished the sizes agree. */
  lemma FinishedAgrees(source: File, file: File, p: Process)
    requires |source| <= MAX_SIZE && p.Running? && RunOk(source, file, p) && AllFinished(|source|, p) && Pending(p.workers) == 0
    ensures p.current == |source|
  {
    var size := |source|;
    SumFresh(size, true, Count(size));
    assert p.currs == seq(Count(size), i requires i >= 0 => Fresh(size, true, i));
    if Count(size) > 0 {
      ChunkIsBlock(size, Count(size) - 1);
    }
  }

  /**
   In every run, once all of at least one worker have exited: the download is complete, by each of the
   ways to see it, if and only if no request since the launch met a wrong length.
   */
  lemma CompleteUnlessGivenUp(source: File, actions: seq<Action>)
    requires |source| <= MAX_SIZE
    ensures var s := Run(source, State(None, Down), actions);
      AllExited(s.process) ==>
        && (NoneGivenUp(source, actions) <==> AllFinished(|source|, s.process))
        && (NoneGivenUp(source, actions) <==> s.process.current == |source|)
        && (NoneGivenUp(source, actions) ==> Do(source, s, Finish) == State(Some(source), Down))
  {
    var s := Run(source, State(None, Down), actions);
    EveryRunInHand(source, actions);
    EveryRunIsOk(source, State(None, Down), actions);
    if AllExited(s.process) {
      NothingHeld(source, s.file.value, s.process);
      NothingPending(s.process.workers);
      if AllFinished(|source|, s.process) {
        FinishedAgrees(source, s.file.value, s.process);
      }
      if s.process.current == |source| {
        SizesAgree(source, s.file.value, s.process);
        assert SetLength(s.file.value, |source|) == source;
      }
    }
  }

  // ----- a network that does not fail -----

  /** The worker has something to do, and the network does its part. */
  ghost predicate Succeeds(source: File, p: Process, w: nat, net: Net) {
    p.Running? && w < |p.workers| &&
    match p.workers[w]
    case Exited => false
    case Ready(i) => i < |p.currs| && (p.currs[i] != Limit(|source|, i) ==> net == Responds)
    case Streaming(i) => i < |p.currs| && if p.currs[i] == Limit(|source|, i) then net == Ends else SendsNext(source, p.currs[i], i, net)
    case _ => true
  }

  ghost predicate SendsNext(source: File, curr: int, i: nat, net: Net) {
    net.Sends? && net.bytes != [] && IsNextOf(source, curr, net.bytes) && curr + |net.bytes| <= Limit(|source|, i)
  }

  /** How far a worker is from letting go of its chunk, for the bytes that its chunk has. */
  function Phase(size: nat, currs: seq<int>, w: Worker): nat {
    match w
    case Exited => 0
    case Idle => 1
    case Ready(i) => if i < |currs| && currs[i] == Limit(size, i) then 2 else BLOCK + 6
    case Streaming(i) => if i < |currs| && currs[i] == Limit(size, i) then 3 else BLOCK + 5
    case Writing(_, buffer, done) => if done <= |buffer| then 3 + |buffer| - done else 3
    case Advanced(_, _) => BLOCK + 7
    case Stamped(_, _) => BLOCK + 6
  }

  function Phases(size: nat, currs: seq<int>, workers: seq<Worker>): nat {
    if workers == [] then 0 else Phases(size, currs, workers[..|workers| - 1]) + Phase(size, currs, workers[|workers| - 1])
  }

  /** What is left to do: bytes to fetch, chunks to take, and the way of each worker. */
  function Effort(size: nat, p: Process): int
    requires p.Running?
  {
    (BLOCK + 5) * (size - Sum(p.currs)) + (BLOCK + 6) * (|p.currs| - p.next) + Phases(size, p.currs, p.workers)
  }

  lemma {:induction false} PhasesUpdate(size: nat, currs: seq<int>, workers: seq<Worker>, w: nat, x: Worker)
    requires w < |workers|
    ensures Phases(size, currs, workers[w := x]) == Phases(size, currs, workers) - Phase(size, currs, workers[w]) + Phase(size, currs, x)
  {
    var n := |workers| - 1;
    if w == n {
      assert workers[w := x][..n] == workers[..n];
    } else {
      assert workers[w := x][..n] == workers[..n][w := x];
      PhasesUpdate(size, currs, workers[..n], w, x);
    }
  }

  lemma {:induction false} PhasesSame(size: nat, currs: seq<int>, currs2: seq<int>, workers: seq<Worker>)
    requires forall v :: 0 <= v < |workers| ==> Phase(size, currs2, workers[v]) == Phase(size, currs, workers[v])
    ensures Phases(size, currs2, workers) == Phases(size, currs, workers)
  {
    if workers != [] {
      PhasesSame(size, currs, currs2, workers[..|workers| - 1]);
    }
  }

  /** Moving a curr concerns only the worker that holds the chunk. */
  lemma AdvancedPhases(size: nat, currs: seq<int>, workers: seq<Worker>, w: nat, i: nat, v: int, len: nat)
    requires Exclusive(workers) && w < |workers| && Holds(workers[w]) == Some(i) && i < |currs|
    ensures Phases(size, currs[i := v], workers[w := Advanced(i, len)]) == Phases(size, currs, workers) - Phase(size, currs, workers[w]) + BLOCK + 7
  {
    var workers2 := workers[w := Advanced(i, len)];
    forall u | 0 <= u < |workers2|
      ensures Phase(size, currs[i := v], workers2[u]) == Phase(size, currs, workers2[u])
    {
      assert u != w ==> DifferentChunks(workers, w, u);
    }
    PhasesSame(size, currs, currs[i := v], workers2);
    PhasesUpdate(size, currs, workers, w, Advanced(i, len));
  }

  lemma EffortBound(source: File, file: File, p: Process)
    requires |source| <= MAX_SIZE && p.Running? && RunOk(source, file, p)
    ensures Effort(|source|, p) >= 0
  {
    var size := |source|;
    forall i | 0 <= i < |p.currs|
      ensures InRange(size, i, p.currs[i])
    {
      assert ChunkOk(source, file, p.currs, i);
    }
    SumBound(size, p.currs);
    if Count(size) > 0 {
      ChunkIsBlock(size, Count(size) - 1);
    }
  }

  lemma WriteShrinks(source: File, file: File, p: Process, w: nat, net: Net)
    requires |source| <= MAX_SIZE && p.Running? && RunOk(source, file, p) && w < |p.workers| && p.workers[w].Writing?
    ensures var p2 := DoWork(source, file, p, w, net).process; p2.Running? && Effort(|source|, p2) < Effort(|source|, p)
  {
    var Writing(i, buffer, done) := p.workers[w];
    assert WorkerAtOk(source, file, p.currs, p.next, p.workers, w);
    WriterBounds(source, file, p, w);
    WritingStep(source, file, p, w, net, i, buffer, done);
    if done < |buffer| {
      PhasesUpdate(|source|, p.currs, p.workers, w, Writing(i, buffer, done + 1));
    } else {
      AdvancedPhases(|source|, p.currs, p.workers, w, i, p.currs[i] + |buffer|, |buffer|);
      SumUpdate(p.currs, i, p.currs[i] + |buffer|);
    }
  }

  lemma StreamShrinks(source: File, file: File, p: Process, w: nat, net: Net)
    requires |source| <= MAX_SIZE && p.Running? && RunOk(source, file, p) && Succeeds(source, p, w, net) && p.workers[w].Streaming?
    ensures var p2 := DoWork(source, file, p, w, net).process; p2.Running? && Effort(|source|, p2) < Effort(|source|, p)
  {
    var i, x := p.workers[w].i, DoWork(source, file, p, w, net).process.workers[w];
    assert WorkerAtOk(source, file, p.currs, p.next, p.workers, w) && ChunkOk(source, file, p.currs, i);
    ChunkIsBlock(|source|, i);
    PhasesUpdate(|source|, p.currs, p.workers, w, x);
  }

  lemma TurnShrinks(source: File, file: File, p: Process, w: nat, net: Net)
    requires |source| <= MAX_SIZE && p.Running? && RunOk(source, file, p) && Succeeds(source, p, w, net)
    requires p.workers[w].Idle? || p.workers[w].Ready?
    ensures var p2 := DoWork(source, file, p, w, net).process; p2.Running? && Effort(|source|, p2) < Effort(|source|, p)
  {
    PhasesUpdate(|source|, p.currs, p.workers, w, DoWork(source, file, p, w, net).process.workers[w]);
  }

  lemma NoteShrinks(source: File, file: File, p: Process, w: nat, net: Net)
    requires |source| <= MAX_SIZE && p.Running? && RunOk(source, file, p) && w < |p.workers|
    requires p.workers[w].Advanced? || p.workers[w].Stamped?
    ensures var p2 := DoWork(source, file, p, w, net).process; p2.Running? && Effort(|source|, p2) < Effort(|source|, p)
  {
    if p.workers[w].Advanced? {
      Stamps(source, file, p, w);
    }
    PhasesUpdate(|source|, p.currs, p.workers, w, DoWork(source, file, p, w, net).process.workers[w]);
  }

  /** A step that succeeds leaves less to do. */
  lemma StepShrinks(source: File, file: File, p: Process, w: nat, net: Net)
    requires |source| <= MAX_SIZE && p.Running? && RunOk(source, file, p) && Succeeds(source, p, w, net)
    ensures var p2 := DoWork(source, file, p, w, net).process; p2.Running? && Effort(|source|, p2) < Effort(|source|, p)
  {
    if p.workers[w].Writing? {
      WriteShrinks(source, file, p, w, net);
    } else if p.workers[w].Streaming? {
      StreamShrinks(source, file, p, w, net);
    } else if p.workers[w].Idle? || p.workers[w].Ready? {
      TurnShrinks(source, file, p, w, net);
    } else {
      NoteShrinks(source, file, p, w, net);
    }
  }

  /** And one is possible as long as a worker has not exited. */
  lemma CanSucceed(source: File, file: File, p: Process, w: nat) returns (net: Net)
    requires |source| <= MAX_SIZE && p.Running? && RunOk(source, file, p) && w < |p.workers| && !p.workers[w].Exited?
    ensures Succeeds(source, p, w, net)
  {
    assert WorkerAtOk(source, file, p.currs, p.next, p.workers, w);
    net := Responds;
    if p.workers[w].Streaming? {
      var i := p.workers[w].i;
      assert ChunkOk(source, file, p.currs, i);
      ChunkIsBlock(|source|, i);
      net := if p.currs[i] == Limit(|source|, i) then Ends else Sends([source[p.currs[i]]]);
    }
  }

  /** Every step of the sequence succeeds. */
  ghost predicate AllSucceed(source: File, s: State, steps: seq<Action>) {
    steps != [] ==>
      var front, a := steps[..|steps| - 1], steps[|steps| - 1];
      AllSucceed(source, s, front) && a.Work? && Succeeds(source, Run(source, s, front).process, a.w, a.net)
  }

  /** So the workers take a bounded number of steps, in any order. */
  lemma {:induction false} EndsInTime(source: File, s: State, steps: seq<Action>)
    requires |source| <= MAX_SIZE && Ok(source, s) && s.process.Running? && AllSucceed(source, s, steps)
    ensures var s2 := Run(source, s, steps);
      s2.process.Running? && |s2.process.workers| == |s.process.workers| && |steps| <= Effort(|source|, s.process) - Effort(|source|, s2.process)
    ensures |steps| <= Effort(|source|, s.process)
  {
    if steps != [] {
      var front, a := steps[..|steps| - 1], steps[|steps| - 1];
      var s1 := Run(source, s, front);
      EndsInTime(source, s, front);
      EveryRunIsOk(source, s, front);
      StepShrinks(source, s1.file.value, s1.process, a.w, a.net);
    }
    EveryRunIsOk(source, s, steps);
    EffortBound(source, Run(source, s, steps).file.value, Run(source, s, steps).process);
  }

  lemma {:induction false} RunFurther(source: File, s: State, a: seq<Action>, b: seq<Action>)
    ensures Run(source, s, a + b) == Run(source, Run(source, s, a), b)
  {
    if b == [] {
      assert a + b == a;
    } else {
      assert (a + b)[..|a + b| - 1] == a + b[..|b| - 1];
      RunFurther(source, s, a, b[..|b| - 1]);
    }
  }

  /** Steps that succeed give nothing up. */
  lemma {:induction false} SuccessKeeps(source: File, actions: seq<Action>, steps: seq<Action>)
    requires NoneGivenUp(source, actions) && AllSucceed(source, Run(source, State(None, Down), actions), steps)
    ensures NoneGivenUp(source, actions + steps)
  {
    if steps == [] {
      assert actions + steps == actions;
    } else {
      var front := steps[..|steps| - 1];
      SuccessKeeps(source, actions, front);
      RunFurther(source, State(None, Down), actions, front);
      assert (actions + steps)[..|actions + steps| - 1] == actions + front;
    }
  }

  /**
   A running download that gave nothing up, from there on with a network that does not fail: however the
   workers take turns, all have exited after a bounded number of steps, and the file is the source.
   */
  lemma GoodNetworkCompletes(source: File, actions: seq<Action>, steps: seq<Action>)
    requires |source| <= MAX_SIZE && NoneGivenUp(source, actions)
    requires var p := Run(source, State(None, Down), actions).process; p.Running? && p.workers != []
    requires AllSucceed(source, Run(source, State(None, Down), actions), steps)
    ensures |steps| <= Effort(|source|, Run(source, State(None, Down), actions).process)
    ensures var s := Run(source, State(None, Down), actions + steps);
      if AllExited(s.process) then Do(source, s, Finish) == State(Some(source), Down)
      else exists a :: AllSucceed(source, Run(source, State(None, Down), actions), steps + [a])
  {
    var s0 := Run(source, State(None, Down), actions);
    EveryRunIsOk(source, State(None, Down), actions);
    EndsInTime(source, s0, steps);
    EveryRunIsOk(source, s0, steps);
    RunFurther(source, State(None, Down), actions, steps);
    var s := Run(source, s0, steps);
    if AllExited(s.process) {
      SuccessKeeps(source, actions, steps);
      CompleteUnlessGivenUp(source, actions + steps);
    } else {
      var w :| 0 <= w < |s.process.workers| && !s.process.workers[w].Exited?;
      var net := CanSucceed(source, s.file.value, s.process, w);
      var a := Work(w, net);
      assert (steps + [a])[..|steps|] == steps;
      assert AllSucceed(source, s0, steps + [a]);
    }
  }
}
