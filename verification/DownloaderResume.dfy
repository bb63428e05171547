/**
 What a restart of XHttpDownLoader of c#/code/XUtils/XHttpDownLoader.cs finds: a running download that is
 interrupted goes on where the progress numbers say, and they lag behind only while a worker is between
 moving its curr and writing it down; a complete file is not fetched again.
 */
module DownloaderResume {
  import opened ByteFile
  import opened ChunkLayout
  import opened Downloader
  import opened DownloaderSafety
  import opened DownloaderProgress
  import opened Wrappers

  ghost predicate IsAdvanced(workers: seq<Worker>, w: int, i: nat) {
    0 <= w < |workers| && workers[w].Advanced? && workers[w].i == i
  }

  /** The progress number of the chunk is its curr, or a worker is about to write it down. */
  ghost predicate NotedAt(size: nat, file: File, p: Process, i: nat)
    requires p.Running? && |file| == FullLength(size) && i < |p.currs| == Count(size)
  {
    Slot(size, file, i) == p.currs[i] || exists w :: IsAdvanced(p.workers, w, i)
  }

  ghost predicate Noted(source: File, s: State) {
    s.process.Running? && s.file.Some? && |s.file.value| == FullLength(|source|) && |s.process.currs| == Count(|source|) ==>
      forall i: nat :: i < |s.process.currs| ==> NotedAt(|source|, s.file.value, s.process, i)
  }

  // ----- one step of a worker -----

  /** The chunk's number and curr are as before, and the worker that moves was not about to write it down. */
  lemma SameNoted(size: nat, file: File, p: Process, file2: File, p2: Process, w: nat, i: nat)
    requires p.Running? && p2.Running? && |file| == |file2| == FullLength(size) && i < |p.currs| == |p2.currs| == Count(size)
    requires w < |p.workers| == |p2.workers| && p2.workers == p.workers[w := p2.workers[w]] && !(p.workers[w].Advanced? && p.workers[w].i == i)
    requires Slot(size, file2, i) == Slot(size, file, i) && p2.currs[i] == p.currs[i] && NotedAt(size, file, p, i)
    ensures NotedAt(size, file2, p2, i)
  {
    if Slot(size, file, i) != p.currs[i] {
      var v :| IsAdvanced(p.workers, v, i);
      assert IsAdvanced(p2.workers, v, i);
    }
  }

  lemma ByteNoted(source: File, file: File, p: Process, w: nat, net: Net, i: nat)
    requires |source| <= MAX_SIZE && p.Running? && RunOk(source, file, p) && w < |p.workers| && p.workers[w].Writing?
    requires i < |p.currs| && NotedAt(|source|, file, p, i)
    ensures var s := DoWork(source, file, p, w, net);
      s.process.Running? && s.file.Some? && |s.file.value| == |file| && |s.process.currs| == |p.currs| && NotedAt(|source|, s.file.value, s.process, i)
  {
    var Writing(j, buffer, done) := p.workers[w];
    var s := DoWork(source, file, p, w, net);
    WriterBounds(source, file, p, w);
    WritingStep(source, file, p, w, net, j, buffer, done);
    if done == |buffer| && i == j {
      assert IsAdvanced(s.process.workers, w, i);
    } else {
      SlotUnchanged(|source|, file, s.file.value, i);
      SameNoted(|source|, file, p, s.file.value, s.process, w, i);
    }
  }

  lemma StampNoted(source: File, file: File, p: Process, w: nat, net: Net, i: nat)
    requires |source| <= MAX_SIZE && p.Running? && RunOk(source, file, p) && w < |p.workers| && p.workers[w].Advanced?
    requires i < |p.currs| && NotedAt(|source|, file, p, i)
    ensures var s := DoWork(source, file, p, w, net);
      s.process.Running? && s.file.Some? && |s.file.value| == |file| && |s.process.currs| == |p.currs| && NotedAt(|source|, s.file.value, s.process, i)
  {
    var j, s := p.workers[w].i, DoWork(source, file, p, w, net);
    Stamps(source, file, p, w);
    assert ChunkOk(source, file, p.currs, j);
    SlotWritten(|source|, file, j, p.currs[j]);
    if i != j {
      SameNoted(|source|, file, p, s.file.value, s.process, w, i);
    }
  }

  lemma TurnNoted(source: File, file: File, p: Process, w: nat, net: Net, i: nat)
    requires |source| <= MAX_SIZE && p.Running? && RunOk(source, file, p) && w < |p.workers|
    requires !p.workers[w].Writing? && !p.workers[w].Advanced?
    requires i < |p.currs| && NotedAt(|source|, file, p, i)
    ensures var s := DoWork(source, file, p, w, net);
      s.process.Running? && s.file.Some? && |s.file.value| == |file| && |s.process.currs| == |p.currs| && NotedAt(|source|, s.file.value, s.process, i)
  {
    var s := DoWork(source, file, p, w, net);
    assert p.workers[w := p.workers[w]] == p.workers;
    SameNoted(|source|, file, p, s.file.value, s.process, w, i);
  }

  lemma WorkNoted(source: File, file: File, p: Process, w: nat, net: Net)
    requires |source| <= MAX_SIZE && p.Running? && RunOk(source, file, p) && w < |p.workers| && Noted(source, State(Some(file), p))
    ensures Noted(source, DoWork(source, file, p, w, net))
  {
    var s := DoWork(source, file, p, w, net);
    forall i: nat | i < |p.currs|
      ensures s.process.Running? && s.file.Some? && |s.file.value| == |file| && |s.process.currs| == |p.currs| && NotedAt(|source|, s.file.value, s.process, i)
    {
      if p.workers[w].Writing? {
        ByteNoted(source, file, p, w, net, i);
      } else if p.workers[w].Advanced? {
        StampNoted(source, file, p, w, net, i);
      } else {
        TurnNoted(source, file, p, w, net, i);
      }
    }
  }

  // ----- every run -----

  /** At the launch every progress number is its chunk's curr. */
  lemma LaunchNoted(source: File, file: File, p: Process, threads: nat)
    requires |source| <= MAX_SIZE && Ok(source, State(Some(file), p)) && !p.Running?
    ensures Noted(source, DoInit(|source|, file, p, threads))
  {
    if p.Stamping? && p.k == Count(|source|) {
      var file2 := WriteAt(file, |file| - 1, [MARK]);
      forall i: nat | i < Count(|source|)
        ensures Slot(|source|, file2, i) == Fresh(|source|, p.complete, i)
      {
        SlotUnchanged(|source|, file, file2, i);
      }
    }
  }

  lemma StepNoted(source: File, s: State, a: Action)
    requires |source| <= MAX_SIZE && Ok(source, s) && Noted(source, s)
    ensures Noted(source, Do(source, s, a))
  {
    if a.Work? && s.process.Running? && a.w < |s.process.workers| {
      WorkNoted(source, s.file.value, s.process, a.w, a.net);
    } else if a.Init? && s.file.Some? && !s.process.Running? {
      LaunchNoted(source, s.file.value, s.process, a.threads);
    }
  }

  lemma {:induction false} EveryRunNoted(source: File, actions: seq<Action>)
    requires |source| <= MAX_SIZE
    ensures Noted(source, Run(source, State(None, Down), actions))
  {
    if actions != [] {
      var front := actions[..|actions| - 1];
      EveryRunNoted(source, front);
      EveryRunIsOk(source, State(None, Down), front);
      StepNoted(source, Run(source, State(None, Down), front), actions[|actions| - 1]);
    }
  }

  // ----- a restart -----

  function Restarted(source: File, s: State, threads: nat): State {
    Do(source, Do(source, Do(source, Do(source, s, Crash), Start), Connect), Init(threads))
  }

  /**
   A running download is interrupted and started again: it goes on at once with the same file, and each chunk
   where it was, except a chunk whose worker had not yet written down its last buffer: this goes on before it.
   */
  lemma RestartGoesOn(source: File, actions: seq<Action>, threads: nat)
    requires |source| <= MAX_SIZE
    ensures var s := Run(source, State(None, Down), actions); var s2 := Restarted(source, s, threads);
      s.process.Running? ==>
        && s2.process.Running? && s2.file == s.file && |s2.process.currs| == |s.process.currs| && |s2.process.workers| == threads
        && s2.process.current == Sum(s2.process.currs)
        && (forall i :: 0 <= i < |s.process.currs| ==> From(i) <= s2.process.currs[i] <= s.process.currs[i])
        && (forall i: nat :: i < |s.process.currs| && s2.process.currs[i] != s.process.currs[i] ==> exists w :: IsAdvanced(s.process.workers, w, i))
  {
    var s := Run(source, State(None, Down), actions);
    EveryRunIsOk(source, State(None, Down), actions);
    EveryRunNoted(source, actions);
    if s.process.Running? {
      var file, p := s.file.value, s.process;
      forall i: nat | i < Count(|source|)
        ensures InRange(|source|, i, Slot(|source|, file, i)) && Slot(|source|, file, i) <= p.currs[i]
        ensures NotedAt(|source|, file, p, i)
      {
        assert ChunkOk(source, file, p.currs, i);
      }
      assert AllInRange(|source|, Slots(|source|, file));
      assert Restarted(source, s, threads) == State(Some(file), Launch(|source|, Slots(|source|, file), Sum(Slots(|source|, file)), threads));
    }
  }

  /** A complete file: the layout is added, and no byte is left to fetch. */
  function Inits(n: nat, threads: nat): seq<Action> {
    seq(n, _ => Init(threads))
  }

  lemma {:induction false} CompleteStamped(source: File, s: State, k: nat, threads: nat)
    requires |source| <= MAX_SIZE && k <= Count(|source|)
    requires Ok(source, s) && s.process == Stamping(true, 0)
    ensures Ok(source, Run(source, s, Inits(k, threads))) && Run(source, s, Inits(k, threads)).process == Stamping(true, k)
  {
    EveryRunIsOk(source, s, Inits(k, threads));
    if k > 0 {
      CompleteStamped(source, s, k - 1, threads);
      assert Inits(k, threads)[..k - 1] == Inits(k - 1, threads);
    }
  }

  lemma CompleteIsKept(source: File, threads: nat)
    requires |source| <= MAX_SIZE
    ensures var s := Run(source, State(Some(source), Down), [Start, Connect] + Inits(Count(|source|) + 3, threads));
      && s.process.Running? && |s.process.workers| == threads
      && s.process.current == |source| && AllFinished(|source|, s.process)
  {
    var n := Count(|source|);
    var resized := State(Some(SetLength(source, FullLength(|source|))), Stamping(true, 0));
    var first := [Start, Connect] + Inits(2, threads);
    OpenedComplete(source, threads);
    CompleteStamped(source, resized, n, threads);
    RunFurther(source, State(Some(source), Down), first, Inits(n, threads));
    assert (first + Inits(n, threads)) + [Init(threads)] == [Start, Connect] + Inits(n + 3, threads);
    RunFurther(source, State(Some(source), Down), first + Inits(n, threads), [Init(threads)]);
    LastInit(source, Run(source, resized, Inits(n, threads)), threads);
  }

  lemma OpenedComplete(source: File, threads: nat)
    requires |source| <= MAX_SIZE
    ensures var s := Run(source, State(Some(source), Down), [Start, Connect] + Inits(2, threads));
      s == State(Some(SetLength(source, FullLength(|source|))), Stamping(true, 0)) && Ok(source, s)
  {
    var s := State(Some(source), Down);
    Connected(source, [Start, Connect]);
    TwoMore(source, s, [Start, Connect], Init(threads), State(Some(SetLength(source, FullLength(|source|))), Stamping(true, 0)));
    assert [Start, Connect] + [Init(threads)] + [Init(threads)] == [Start, Connect] + Inits(2, threads);
    EveryRunIsOk(source, s, [Start, Connect] + Inits(2, threads));
  }

  lemma Connected(source: File, steps: seq<Action>)
    requires steps == [Start, Connect]
    ensures Run(source, State(Some(source), Down), steps) == State(Some(source), Opened)
  {
    var none: seq<Action> := [];
    OneStep(source, State(Some(source), Down), none, Start);
    OneStep(source, State(Some(source), Down), none + [Start], Connect);
    assert none + [Start] + [Connect] == steps;
  }

  lemma TwoMore(source: File, s: State, front: seq<Action>, a: Action, s2: State)
    requires a.Init? && Run(source, s, front) == State(Some(source), Opened)
    requires s2 == State(Some(SetLength(source, FullLength(|source|))), Stamping(true, 0))
    ensures Run(source, s, front + [a] + [a]) == s2
  {
    OneStep(source, s, front, a);
    OneStep(source, s, front + [a], a);
    CompleteOpens(source, a.threads);
  }

  lemma CompleteOpens(source: File, threads: nat)
    ensures Do(source, State(Some(source), Opened), Init(threads)) == State(Some(source), Resizing(true))
    ensures Do(source, State(Some(source), Resizing(true)), Init(threads)) ==
      State(Some(SetLength(source, FullLength(|source|))), Stamping(true, 0))
  {
  }

  lemma OneStep(source: File, s: State, front: seq<Action>, a: Action)
    ensures Run(source, s, front + [a]) == Do(source, Run(source, s, front), a)
  {
    assert (front + [a])[..|front|] == front;
  }

  lemma LastInit(source: File, s: State, threads: nat)
    requires |source| <= MAX_SIZE && Ok(source, s) && s.process == Stamping(true, Count(|source|))
    ensures Run(source, s, [Init(threads)]) == Do(source, s, Init(threads))
    ensures var p := Do(source, s, Init(threads)).process;
      p.Running? && |p.workers| == threads && p.current == |source| && AllFinished(|source|, p)
  {
    assert [Init(threads)][..0] == [];
  }

  /** The file of a running download: the data, 8 bytes for each 4194304 bytes of it or a part of them, and 233. */
  lemma FileLayout(source: File, actions: seq<Action>)
    requires |source| <= MAX_SIZE
    ensures var s := Run(source, State(None, Down), actions);
      s.process.Running? ==>
        && s.file.Some? && |s.process.currs| == (|source| + 4194303) / 4194304
        && |s.file.value| == |source| + 8 * |s.process.currs| + 1 && s.file.value[|s.file.value| - 1] == 233
  {
    EveryRunIsOk(source, State(None, Down), actions);
  }

  /** The 8 bytes are a position in their part of the data, not behind what the running program has. */
  lemma SlotLayout(source: File, actions: seq<Action>, i: nat)
    requires |source| <= MAX_SIZE && i < (|source| + 4194303) / 4194304
    ensures var s := Run(source, State(None, Down), actions);
      s.process.Running? ==>
        && s.file.Some? && i < |s.process.currs| && |source| + 8 * i + 8 < |s.file.value|
        && 4194304 * i <= ToInt64(s.file.value[|source| + 8 * i..|source| + 8 * i + 8]) <= s.process.currs[i] <= 4194304 * (i + 1)
  {
    var s := Run(source, State(None, Down), actions);
    EveryRunIsOk(source, State(None, Down), actions);
    if s.process.Running? {
      SlotInChunk(source, s.file.value, s.process.currs, i);
    }
  }

  lemma SlotInChunk(source: File, file: File, currs: seq<int>, i: nat)
    requires |source| <= MAX_SIZE && |file| == FullLength(|source|) && |currs| == Count(|source|) && i < |currs|
    requires AllChunksOk(source, file, currs)
    ensures |source| + 8 * i + 8 < |file|
    ensures 4194304 * i <= ToInt64(file[|source| + 8 * i..|source| + 8 * i + 8]) <= currs[i] <= 4194304 * (i + 1)
  {
    assert ChunkOk(source, file, currs, i);
    ChunkIsBlock(|source|, i);
  }
}
