/**
 One machine of python/lang_convert/langconv.py as a value: lookup nodes, the reaction to a
 character, and what a machine stands for in a search over all segmentations.

 A `View` is the value of a machine's fields.  `segs` is not a field of the original: it records
 the words the machine has translated so far.
 */
module MachineStep {
  import opened Segmentation
  import opened Wrappers
  import opened Sequences

  datatype State = START | END | FAIL | WAIT_TAIL

  datatype Condition = TAIL | ERROR | MATCHED_SWITCH | UNMATCHED_SWITCH | CONNECTOR

  datatype Entry = Entry(isTail: bool, haveChild: bool, toWord: string)

  type Table = map<string, Entry>

  datatype Node = Node(fromWord: string, toWord: string, isTail: bool, haveChild: bool, isOriginal: bool)
  {
    predicate IsOriginalLongWord() { isOriginal && |fromWord| > 1 }

    predicate IsFollow(chars: string) {
      chars != if fromWord == "" then "" else fromWord[..|fromWord| - 1]
    }

    function Cond(): Condition {
      if haveChild then
        if isTail then if isOriginal then UNMATCHED_SWITCH else MATCHED_SWITCH else CONNECTOR
      else if isTail then TAIL else ERROR
    }
  }

  /** A missing key gives an original leaf; an empty translation falls back to the source word. */
  function Lookup(table: Table, k: string): Node {
    if k in table then
      var e := table[k];
      Node(k, if e.toWord == "" then k else e.toWord, e.isTail, e.haveChild, false)
    else
      Node(k, k, true, false, true)
  }

  datatype View = View(state: State, final: string, len: nat, pool: string, segs: seq<string>)
  {
    /** Commits the node's word. */
    function Take(node: Node): View {
      View(END, final + node.toWord, len + 1, pool, segs + [node.fromWord])
    }

    /** The waiting twin a branching machine leaves behind. */
    function Waiting(stem: string): View { this.(state := WAIT_TAIL, pool := stem) }
  }

  const FRESH_VIEW := View(START, "", 0, "", [])

  /** Either the exception of a FAIL machine, or the machine's new fields and its branch, if any. */
  datatype Outcome = Raised | Fed(self: View, branch: Option<View>)

  /** One machine's reaction to a looked-up node, for any fields and any node. */
  function React(v: View, node: Node): Outcome {
    match node.Cond()
    case ERROR => Fed(v.(state := FAIL), None)
    case TAIL =>
      if v.state == WAIT_TAIL && node.IsOriginalLongWord() then Fed(v.(state := FAIL), None)
      else Fed(v.Take(node).(pool := ""), None)
    case cond =>
      if v.state == FAIL then Raised
      else if cond == MATCHED_SWITCH then Fed(v.Take(node).(pool := ""), Some(v.Waiting(node.fromWord)))
      else if v.state != WAIT_TAIL then Fed(v.Take(node), Some(v.Waiting(node.fromWord)))
      else if node.IsFollow(v.pool) then Fed(v.(state := FAIL), None)
      else Fed(v.(pool := node.fromWord), None)
  }

  function ReactTo(table: Table, v: View, c: char): Outcome {
    React(v, Lookup(table, v.pool + [c]))
  }

  /** The table says of every key and every non-empty proper prefix of a key what it is. */
  ghost predicate TableFor(table: Table, m: Dictionary) {
    forall k :: EntryFor(table, m, k)
  }

  ghost predicate EntryFor(table: Table, m: Dictionary, k: string) {
    && (k in table <==> k in m || (k != "" && IsStem(m, k)))
    && (k in table ==> table[k] == Entry(k in m, k != "" && IsStem(m, k), if k in m then m[k] else ""))
  }

  /** What a machine that has cut part of `text` into words and kept a pending stem looks like. */
  ghost predicate Reached(m: Dictionary, v: View, text: string) {
    && AllWords(m, v.segs)
    && Flatten(v.segs) + v.pool == text
    && (v.pool == "" || IsStem(m, v.pool))
    && v.final == TranslateAll(m, v.segs)
    && v.len == |v.segs|
    && v.state == if v.pool != "" then WAIT_TAIL else if text == "" then START else END
  }

  /** The machine for a given choice of words and pending stem. */
  function MachineOf(m: Dictionary, segs: seq<string>, pool: string): View {
    View(if pool != "" then WAIT_TAIL else if Flatten(segs) == "" then START else END,
         TranslateAll(m, segs), |segs|, pool, segs)
  }

  // ----- one machine, one character -----

  /** With a table built from a dictionary a lookup is never an error or an unmatched switch. */
  lemma LookupConditions(table: Table, m: Dictionary, k: string)
    requires TableFor(table, m) && k != ""
    ensures var node := Lookup(table, k);
      && node.fromWord == k && node.toWord == Translate(m, k)
      && node.Cond() != ERROR && node.Cond() != UNMATCHED_SWITCH
      && (node.Cond() == MATCHED_SWITCH <==> k in m && IsStem(m, k))
      && (node.Cond() == CONNECTOR <==> k !in m && IsStem(m, k))
      && (node.IsOriginalLongWord() <==> !IsWord(m, k) && !IsStem(m, k))
  {
    assert EntryFor(table, m, k);
  }

  /** The machine after committing `pool + c`, and the machine that keeps it pending. */
  lemma NextMachines(m: Dictionary, v: View, text: string, c: char)
    requires Reached(m, v, text)
    ensures var w := v.pool + [c];
      && MachineOf(m, v.segs + [w], "") == View(END, v.final + Translate(m, w), v.len + 1, "", v.segs + [w])
      && MachineOf(m, v.segs, w) == v.Waiting(w)
  {
    var w := v.pool + [c];
    FlattenAppend(v.segs, w);
    TranslateAppend(m, v.segs, w);
  }

  /** The state machine's case analysis, with the table's answers given. */
  lemma ReactCases(v: View, node: Node, word: bool, stem: bool)
    requires v.state != FAIL && (v.state == WAIT_TAIL <==> v.pool != "")
    requires |node.fromWord| == |v.pool| + 1 && v.pool == node.fromWord[..|v.pool|]
    requires node.Cond() != ERROR && node.Cond() != UNMATCHED_SWITCH
    requires stem <==> node.Cond() != TAIL
    requires node.Cond() == CONNECTOR ==> (word <==> |node.fromWord| == 1)
    requires node.Cond() == MATCHED_SWITCH ==> word
    requires node.IsOriginalLongWord() <==> !word && !stem
    requires !word ==> |node.fromWord| > 1
    ensures var r := React(v, node);
      && r.Fed?
      && (r.self.state == FAIL <==> !word && !stem)
      && (word ==> r.self == v.Take(node).(pool := ""))
      && (!word && stem ==> r.self == v.Waiting(node.fromWord))
      && r.branch == (if word && stem then Some(v.Waiting(node.fromWord)) else None)
  {
  }

  /**
   A reached machine fed `c` never raises; it survives as the machine that takes `pool + c` as a
   word, if it is one, or as the machine that waits with it; it branches when both are possible.
   */
  lemma ReactReached(table: Table, m: Dictionary, v: View, text: string, c: char)
    requires TableFor(table, m) && Reached(m, v, text)
    ensures var r := ReactTo(table, v, c); var w := v.pool + [c];
      && r.Fed?
      && (r.self.state == FAIL <==> !IsWord(m, w) && !IsStem(m, w))
      && (IsWord(m, w) ==> r.self == MachineOf(m, v.segs + [w], ""))
      && (!IsWord(m, w) && IsStem(m, w) ==> r.self == MachineOf(m, v.segs, w))
      && r.branch == (if IsWord(m, w) && IsStem(m, w) then Some(MachineOf(m, v.segs, w)) else None)
  {
    var w := v.pool + [c];
    LookupConditions(table, m, w);
    NextMachines(m, v, text, c);
    ReactCases(v, Lookup(table, w), IsWord(m, w), IsStem(m, w));
  }

  /** The choice that led to a machine: its last character taken back. */
  function Origin(m: Dictionary, v: View): View {
    if v.pool != "" then MachineOf(m, v.segs, v.pool[..|v.pool| - 1])
    else if v.segs == [] || v.segs[|v.segs| - 1] == "" then v
    else
      var w := v.segs[|v.segs| - 1];
      MachineOf(m, v.segs[..|v.segs| - 1], w[..|w| - 1])
  }

  lemma MachineOfReached(m: Dictionary, segs: seq<string>, pool: string, text: string)
    requires AllWords(m, segs) && Flatten(segs) + pool == text && (pool == "" || IsStem(m, pool))
    ensures Reached(m, MachineOf(m, segs, pool), text)
  {
  }

  predicate SurvivesAs(table: Table, v: View, c: char, x: View) {
    var r := ReactTo(table, v, c);
    r.Fed? && r.self.state != FAIL && r.self == x
  }

  predicate BranchesTo(table: Table, v: View, c: char, x: View) {
    var r := ReactTo(table, v, c);
    r.Fed? && r.branch == Some(x)
  }

  /** Taking back the last character of a next machine gives the machine it came from. */
  lemma OriginOfNext(m: Dictionary, v: View, w: string)
    requires w != "" && v == MachineOf(m, v.segs, w[..|w| - 1])
    ensures Origin(m, MachineOf(m, v.segs + [w], "")) == v && Origin(m, MachineOf(m, v.segs, w)) == v
  {
    assert (v.segs + [w])[..|v.segs|] == v.segs;
  }

  lemma NextIsReached(m: Dictionary, v: View, text: string, c: char)
    requires Reached(m, v, text)
    ensures IsWord(m, v.pool + [c]) ==> Reached(m, MachineOf(m, v.segs + [v.pool + [c]], ""), text + [c])
    ensures IsStem(m, v.pool + [c]) ==> Reached(m, MachineOf(m, v.segs, v.pool + [c]), text + [c])
  {
    var w := v.pool + [c];
    FlattenAppend(v.segs, w);
    Grouped(Flatten(v.segs), v.pool, [c]);
    if IsWord(m, w) {
      MachineOfReached(m, v.segs + [w], "", text + [c]);
    }
    if IsStem(m, w) {
      MachineOfReached(m, v.segs, w, text + [c]);
    }
  }

  /** Soundness of a step: whatever a reached machine turns into is reached, and remembers it. */
  lemma StepSound(table: Table, m: Dictionary, v: View, text: string, c: char, x: View)
    requires TableFor(table, m) && Reached(m, v, text)
    requires SurvivesAs(table, v, c, x) || BranchesTo(table, v, c, x)
    ensures Reached(m, x, text + [c]) && Origin(m, x) == v
    ensures !(SurvivesAs(table, v, c, x) && BranchesTo(table, v, c, x))
  {
    ReactReached(table, m, v, text, c);
    NextIsReached(m, v, text, c);
    var w := v.pool + [c];
    assert w[..|w| - 1] == v.pool;
    OriginOfNext(m, v, w);
  }

  /** Completeness of a step: every machine reached one character later came from a reached one. */
  lemma StepComplete(table: Table, m: Dictionary, x: View, text: string, c: char)
    requires TableFor(table, m) && Reached(m, x, text + [c])
    ensures Reached(m, Origin(m, x), text)
    ensures SurvivesAs(table, Origin(m, x), c, x) || BranchesTo(table, Origin(m, x), c, x)
  {
    if x.pool != "" {
      WaitingOrigin(m, x, text, c);
    } else {
      TakenOrigin(m, x, text, c);
    }
    ReactReached(table, m, Origin(m, x), text, c);
    assert x == MachineOf(m, x.segs, x.pool);
  }

  /** The last character of a concatenation is that of its second part. */
  lemma TakenBack(a: string, b: string, text: string, c: char)
    requires a + b == text + [c] && b != ""
    ensures b == b[..|b| - 1] + [c] && a + b[..|b| - 1] == text
  {
    var whole := a + b;
    assert whole[|whole| - 1] == b[|b| - 1] && whole[..|whole| - 1] == a + b[..|b| - 1];
    assert (text + [c])[..|text|] == text;
  }

  lemma WaitingOrigin(m: Dictionary, x: View, text: string, c: char)
    requires Reached(m, x, text + [c]) && x.pool != ""
    ensures Reached(m, Origin(m, x), text)
    ensures Origin(m, x).segs == x.segs && Origin(m, x).pool + [c] == x.pool
  {
    TakenBack(Flatten(x.segs), x.pool, text, c);
    StemOfStem(m, x.pool);
    MachineOfReached(m, x.segs, x.pool[..|x.pool| - 1], text);
  }

  lemma TakenOrigin(m: Dictionary, x: View, text: string, c: char)
    requires Reached(m, x, text + [c]) && x.pool == ""
    ensures Reached(m, Origin(m, x), text)
    ensures var w := Origin(m, x).pool + [c]; IsWord(m, w) && Origin(m, x).segs + [w] == x.segs
  {
    assert x.segs != [];
    var n := |x.segs| - 1;
    var w := x.segs[n];
    assert w in x.segs && IsWord(m, w);
    assert Flatten(x.segs) == Flatten(x.segs[..n]) + w;
    TakenBack(Flatten(x.segs[..n]), w, text, c);
    var p := w[..|w| - 1];
    if p != "" {
      KeyHasStem(m, w, p);
    }
    MachineOfReached(m, x.segs[..n], p, text);
  }

  lemma StemOfStem(m: Dictionary, p: string)
    requires IsStem(m, p) && p != ""
    ensures IsStem(m, p[..|p| - 1])
  {
    var k :| k in m && |p| < |k| && p == k[..|p|];
    assert p[..|p| - 1] == k[..|p| - 1];
    KeyHasStem(m, k, p[..|p| - 1]);
  }
}
