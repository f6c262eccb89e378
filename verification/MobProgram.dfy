/**
 The mob program interpreter: `process_block` steps through the lines of a program over a stack
 of frames. Conditions and commands act on a world (random number generator included) that this
 module knows nothing about; both semantics below are given the same two world functions.
 */
module MobProgram {
  import opened Options
  import opened MobLines

  /**
   How lines are read, what a condition answers and what a command does; a condition may draw
   random numbers. The game reads lines with `KindOf`; nothing below depends on that choice.
   */
  datatype Rules<!W> = Rules(read: Reader, ask: (W, string) -> (W, bool), act: (W, string) -> W)

  /** One thing the interpreter did, and the world it did it in. */
  datatype Event<W> = Asked(condition: string, world: W) | Did(line: string, world: W)

  datatype Frame = Frame(executable: bool, executing: bool)

  /** The interpreter between two lines; the last frame is the top of the stack. */
  datatype State<W> = State(frames: seq<Frame>, world: W, trace: seq<Event<W>>)

  function Top(frames: seq<Frame>): Frame
    requires frames != []
  {
    frames[|frames| - 1]
  }

  function Pop(frames: seq<Frame>): seq<Frame>
    requires frames != []
  {
    frames[..|frames| - 1]
  }

  /** One turn of the loop; reading the top of an empty stack has no meaning. */
  function FlatStep<W>(rules: Rules<W>, s: State<W>, line: string): Option<State<W>> {
    if s.frames == [] then None else
    var top := Top(s.frames);
    match rules.read(line)
    case EndIf => Some(s.(frames := Pop(s.frames)))
    case Else =>
      Some(if top.executable then s.(frames := Pop(s.frames) + [Frame(true, !top.executing)]) else s)
    case If(condition) =>
      if top.executing then
        var (world, yes) := rules.ask(s.world, condition);
        Some(State(s.frames + [Frame(true, yes)], world, s.trace + [Asked(condition, s.world)]))
      else
        Some(s.(frames := s.frames + [Frame(false, false)]))
    case Command =>
      Some(if top.executing then
             State(s.frames, rules.act(s.world, line), s.trace + [Did(line, s.world)])
           else s)
  }

  /** The loop without its recursion. */
  function FlatRun<W>(rules: Rules<W>, s: State<W>, lines: seq<string>): Option<State<W>>
    decreases |lines|
  {
    if lines == [] then Some(s) else
    match FlatStep(rules, s, lines[0])
    case None => None
    case Some(s') => FlatRun(rules, s', lines[1..])
  }

  // ----- stack height

  function Delta(read: Reader, line: string): int {
    match read(line)
    case If(_) => 1
    case EndIf => -1
    case _ => 0
  }

  /** The height the stack has after `lines` if it had height `h` before. */
  function Height(read: Reader, h: int, lines: seq<string>): int
    decreases |lines|
  {
    if lines == [] then h else Height(read, h + Delta(read, lines[0]), lines[1..])
  }

  /** No line is read over an empty stack. */
  predicate Safe(read: Reader, h: int, lines: seq<string>)
    decreases |lines|
  {
    lines == [] || (h > 0 && Safe(read, h + Delta(read, lines[0]), lines[1..]))
  }

  /** The run has a meaning exactly if no line is read over an empty stack. */
  lemma {:induction false} FlatRunDefined<W>(rules: Rules<W>, s: State<W>, lines: seq<string>)
    ensures FlatRun(rules, s, lines).Some? <==> Safe(rules.read, |s.frames|, lines)
    ensures Safe(rules.read, |s.frames|, lines) ==>
        |FlatRun(rules, s, lines).value.frames| == Height(rules.read, |s.frames|, lines)
    decreases |lines|
  {
    if lines != [] && s.frames != [] {
      FlatRunDefined(rules, FlatStep(rules, s, lines[0]).value, lines[1..]);
    }
  }

  // ----- frames

  /** Each frame may execute if the one below does, and executes only if it may. */
  ghost predicate Nested(frames: seq<Frame>) {
    && (frames != [] ==> frames[0].executable)
    && (forall i :: 0 <= i < |frames| && frames[i].executing ==> frames[i].executable)
    && (forall i :: 0 < i < |frames| ==> frames[i].executable == frames[i - 1].executing)
  }

  lemma {:induction false} FramesStayNested<W>(rules: Rules<W>, s: State<W>, lines: seq<string>)
    requires Nested(s.frames) && Safe(rules.read, |s.frames|, lines)
    ensures FlatRun(rules, s, lines).Some? && Nested(FlatRun(rules, s, lines).value.frames)
    decreases |lines|
  {
    if lines != [] {
      var s' := FlatStep(rules, s, lines[0]).value;
      assert Nested(s'.frames);
      FramesStayNested(rules, s', lines[1..]);
    }
  }

  // ----- the recursive interpreter

  class ExecutionCtx<!W> {
    const rules: Rules<W>
    var world: W
    var frames: seq<Frame>
    ghost var trace: seq<Event<W>>

    constructor (rules: Rules<W>, world: W)
      ensures this.rules == rules && Now() == Start(world)
    {
      this.rules, this.world := rules, world;
      frames, trace := [Frame(true, true)], [];
    }

    ghost function Now(): State<W>
      reads this
    {
      State(frames, world, trace)
    }

    /** What one line does to the frames and the world; true if it opened a frame. */
    method ProcessLine(line: string) returns (entered: bool)
      requires frames != []
      modifies this
      ensures Some(Now()) == FlatStep(rules, old(Now()), line)
      ensures entered == rules.read(line).If?
    {
      entered := false;
      var current := Top(frames);
      match rules.read(line) {
        case EndIf =>
          frames := Pop(frames);
        case Else =>
          if current.executable {
            frames := Pop(frames) + [Frame(current.executable, !current.executing)];
          }
        case If(condition) =>
          var execNext := false;
          if current.executing {
            trace := trace + [Asked(condition, world)];
            var (world', yes) := rules.ask(world, condition);
            world, execNext := world', yes;
          }
          frames := frames + [Frame(current.executing, execNext)];
          entered := true;
        case Command =>
          if current.executing {
            trace := trace + [Did(line, world)];
            world := rules.act(world, line);
          }
      }
    }

    /**
     `process_block`. It calls itself at every `if`, but the inner call runs to the last line, so
     what it does is what one flat loop does. Reading the top of an empty stack is undefined, so
     the caller must not let it come to that.
     */
    method ProcessBlock(lines: seq<string>, start: nat) returns (lineIt: nat)
      requires start <= |lines| && Safe(rules.read, |frames|, lines[start..])
      modifies this
      ensures lineIt == |lines|
      ensures Some(Now()) == FlatRun(rules, old(Now()), lines[start..])
      decreases |lines| - start
    {
      lineIt := start;
      while lineIt < |lines|
        invariant start <= lineIt <= |lines| && Safe(rules.read, |frames|, lines[lineIt..])
        invariant FlatRun(rules, Now(), lines[lineIt..]) == FlatRun(rules, old(Now()), lines[start..])
      {
        assert lines[lineIt..][0] == lines[lineIt] && lines[lineIt..][1..] == lines[lineIt + 1..];
        assert Safe(rules.read, |frames| + Delta(rules.read, lines[lineIt]), lines[lineIt + 1..]);
        var entered := ProcessLine(lines[lineIt]);
        lineIt := lineIt + 1;
        if entered {
          lineIt := ProcessBlock(lines, lineIt);
          assert lines[lineIt..] == [];
        }
      }
      assert lines[lineIt..] == [];
    }
  }

  function Start<W>(world: W): State<W> {
    State([Frame(true, true)], world, [])
  }

  // ----- unclosed ifs

  /** Line `i` opens an `if` that no later line closes. */
  ghost predicate Unclosed(read: Reader, lines: seq<string>, i: nat) {
    && i < |lines| && read(lines[i]).If?
    && forall k :: i < k <= |lines| ==> Height(read, 1, lines[..k]) > Height(read, 1, lines[..i])
  }

  lemma {:induction false} HeightConcat(read: Reader, h: int, a: seq<string>, b: seq<string>)
    ensures Height(read, h, a + b) == Height(read, Height(read, h, a), b)
    decreases |a|
  {
    if a == [] {
      assert a + b == b;
    } else {
      assert (a + b)[1..] == a[1..] + b;
      HeightConcat(read, h + Delta(read, a[0]), a[1..], b);
    }
  }

  lemma HeightNext(read: Reader, lines: seq<string>, i: nat)
    requires i < |lines|
    ensures Height(read, 1, lines[..i + 1]) == Height(read, 1, lines[..i]) + Delta(read, lines[i])
  {
    assert lines[..i + 1] == lines[..i] + [lines[i]];
    HeightConcat(read, 1, lines[..i], [lines[i]]);
  }

  lemma {:induction false} SafeHeights(read: Reader, h: int, lines: seq<string>, i: nat)
    requires Safe(read, h, lines) && i < |lines|
    ensures Height(read, h, lines[..i]) > 0
    decreases |lines|
  {
    if i > 0 {
      assert lines[..i][1..] == lines[1..][..i - 1];
      SafeHeights(read, h + Delta(read, lines[0]), lines[1..], i - 1);
    }
  }

  /** From a prefix of height 1 to the end: the last time the height is 1 is at an unclosed `if`. */
  lemma {:induction false} FindUnclosed(read: Reader, lines: seq<string>, from: nat) returns (i: nat)
    requires Safe(read, 1, lines) && Height(read, 1, lines) > 1
    requires from <= |lines| && Height(read, 1, lines[..from]) == 1
    ensures Unclosed(read, lines, i)
    decreases |lines| - from
  {
    assert lines[..|lines|] == lines;
    if k :| from < k <= |lines| && Height(read, 1, lines[..k]) == 1 {
      i := FindUnclosed(read, lines, k);
    } else {
      i := from;
      forall m | i < m <= |lines| ensures Height(read, 1, lines[..m]) > 1 {
        if m < |lines| {
          SafeHeights(read, 1, lines, m);
        }
      }
      HeightNext(read, lines, i);
    }
  }

  // ----- readers that read alike

  lemma StepsAlike<W>(a: Rules<W>, b: Rules<W>, s: State<W>, line: string)
    requires a.ask == b.ask && a.act == b.act && a.read(line) == b.read(line)
    ensures FlatStep(a, s, line) == FlatStep(b, s, line)
  {
  }

  lemma {:induction false} RunsAlike<W>(a: Rules<W>, b: Rules<W>, s: State<W>, lines: seq<string>)
    requires a.ask == b.ask && a.act == b.act && forall line :: a.read(line) == b.read(line)
    ensures FlatRun(a, s, lines) == FlatRun(b, s, lines)
    decreases |lines|
  {
    if lines != [] {
      StepsAlike(a, b, s, lines[0]);
      if FlatStep(a, s, lines[0]).Some? {
        RunsAlike(a, b, FlatStep(a, s, lines[0]).value, lines[1..]);
      }
    }
  }

  lemma {:induction false} HeightsAlike(a: Reader, b: Reader, h: int, lines: seq<string>)
    requires forall line :: a(line) == b(line)
    ensures Height(a, h, lines) == Height(b, h, lines) && Safe(a, h, lines) == Safe(b, h, lines)
    decreases |lines|
  {
    if lines != [] {
      HeightsAlike(a, b, h + Delta(a, lines[0]), lines[1..]);
    }
  }

  /**
   `mprog_driver`: nothing for a charmed mob; otherwise pick somebody at random, which draws from
   the world's generator, run from the first line and report if frames are left over. `read` is any
   reader that takes lines for what their texts are.
   */
  method Drive<W>(
      charmed: bool, pick: W -> W, ask: (W, string) -> (W, bool), act: (W, string) -> W, world: W, lines: seq<string>,
      ghost read: Reader)
    returns (final: W, unbalanced: bool, ghost trace: seq<Event<W>>)
    requires ReadsLines(read) && Safe(read, 1, lines)
    ensures charmed ==> final == world && trace == []
    ensures !charmed ==> FlatRun(Rules(read, ask, act), Start(pick(world)), lines).Some?
    ensures !charmed ==> final == FlatRun(Rules(read, ask, act), Start(pick(world)), lines).value.world
    ensures !charmed ==> trace == FlatRun(Rules(read, ask, act), Start(pick(world)), lines).value.trace
    ensures unbalanced <==> !charmed && exists i :: Unclosed(read, lines, i)
  {
    if charmed {
      return world, false, [];
    }
    forall line ensures KindOf(line) == read(line) {
      ReadersAgree(read, line);
    }
    var rules := Rules(KindOf, ask, act);
    HeightsAlike(KindOf, read, 1, lines);
    RunsAlike(rules, Rules(read, ask, act), Start(pick(world)), lines);
    var ctx := new ExecutionCtx(rules, pick(world));
    FlatRunDefined(rules, Start(pick(world)), lines);
    assert lines[0..] == lines;
    var end := ctx.ProcessBlock(lines, 0);
    final, unbalanced, trace := ctx.world, |ctx.frames| > 1, ctx.trace;
    UnclosedIffFramesLeft(read, lines);
  }

  // ----- what ifs are for

  /**
   An `if` with an `else` around one command each: the condition is asked once, in the world there
   is, and then the one command is done or the other, in the world the condition has left.
   */
  lemma OneBranchRuns<W>(
      rules: Rules<W>, world: W, head: string, yes: string, elseLine: string, no: string, tail: string)
    requires rules.read(head).If? && rules.read(elseLine).Else? && rules.read(tail).EndIf?
    requires rules.read(yes).Command? && rules.read(no).Command?
    ensures var condition := rules.read(head).condition;
            var (asked, holds) := rules.ask(world, condition);
            var done := if holds then yes else no;
            FlatRun(rules, Start(world), [head, yes, elseLine, no, tail]) ==
              Some(State([Frame(true, true)], rules.act(asked, done), [Asked(condition, world), Did(done, asked)]))
  {
    var condition := rules.read(head).condition;
    var (asked, holds) := rules.ask(world, condition);
    var s1 := State([OUTER, Frame(true, holds)], asked, [Asked(condition, world)]);
    assert [OUTER] + [Frame(true, holds)] == s1.frames && Start(world).trace + [Asked(condition, world)] == s1.trace;
    assert FlatStep(rules, Start(world), head) == Some(s1);
    RunsFirst(rules, Start(world), s1, head, [yes, elseLine, no, tail]);
    assert [head] + [yes, elseLine, no, tail] == [head, yes, elseLine, no, tail];
    if holds {
      FirstBranchRuns(rules, s1, yes, elseLine, no, tail);
    } else {
      SecondBranchRuns(rules, s1, yes, elseLine, no, tail);
    }
    assert [Asked(condition, world)] + [Did(yes, asked)] == [Asked(condition, world), Did(yes, asked)];
    assert [Asked(condition, world)] + [Did(no, asked)] == [Asked(condition, world), Did(no, asked)];
  }

  const OUTER := Frame(true, true)

  lemma FirstBranchRuns<W>(rules: Rules<W>, s: State<W>, yes: string, elseLine: string, no: string, tail: string)
    requires rules.read(elseLine).Else? && rules.read(tail).EndIf?
    requires rules.read(yes).Command? && rules.read(no).Command? && s.frames == [OUTER, Frame(true, true)]
    ensures FlatRun(rules, s, [yes, elseLine, no, tail]) ==
        Some(State([OUTER], rules.act(s.world, yes), s.trace + [Did(yes, s.world)]))
  {
    var s2 := State(s.frames, rules.act(s.world, yes), s.trace + [Did(yes, s.world)]);
    RunsFirst(rules, s, s2, yes, [elseLine, no, tail]);
    assert [yes] + [elseLine, no, tail] == [yes, elseLine, no, tail];
    TurnsOver(rules, s2, elseLine, [no, tail]);
    var s3 := s2.(frames := [OUTER, Frame(true, false)]);
    RunsFirst(rules, s3, s3, no, [tail]);
    assert [elseLine] + [no, tail] == [elseLine, no, tail] && [no] + [tail] == [no, tail];
    Closes(rules, s3, tail);
  }

  lemma SecondBranchRuns<W>(rules: Rules<W>, s: State<W>, yes: string, elseLine: string, no: string, tail: string)
    requires rules.read(elseLine).Else? && rules.read(tail).EndIf?
    requires rules.read(yes).Command? && rules.read(no).Command? && s.frames == [OUTER, Frame(true, false)]
    ensures FlatRun(rules, s, [yes, elseLine, no, tail]) ==
        Some(State([OUTER], rules.act(s.world, no), s.trace + [Did(no, s.world)]))
  {
    RunsFirst(rules, s, s, yes, [elseLine, no, tail]);
    assert [yes] + [elseLine, no, tail] == [yes, elseLine, no, tail];
    TurnsOver(rules, s, elseLine, [no, tail]);
    var s3 := s.(frames := [OUTER, Frame(true, true)]);
    var s4 := State(s3.frames, rules.act(s.world, no), s.trace + [Did(no, s.world)]);
    RunsFirst(rules, s3, s4, no, [tail]);
    assert [elseLine] + [no, tail] == [elseLine, no, tail] && [no] + [tail] == [no, tail];
    Closes(rules, s4, tail);
  }

  lemma TurnsOver<W>(rules: Rules<W>, s: State<W>, elseLine: string, rest: seq<string>)
    requires rules.read(elseLine).Else? && |s.frames| == 2 && s.frames[0] == OUTER && s.frames[1].executable
    ensures FlatRun(rules, s, [elseLine] + rest) ==
        FlatRun(rules, s.(frames := [OUTER, Frame(true, !s.frames[1].executing)]), rest)
  {
    assert Pop(s.frames) + [Frame(true, !s.frames[1].executing)] == [OUTER, Frame(true, !s.frames[1].executing)];
    RunsFirst(rules, s, s.(frames := [OUTER, Frame(true, !s.frames[1].executing)]), elseLine, rest);
  }

  lemma Closes<W>(rules: Rules<W>, s: State<W>, tail: string)
    requires rules.read(tail).EndIf? && |s.frames| == 2 && s.frames[0] == OUTER
    ensures FlatRun(rules, s, [tail]) == Some(s.(frames := [OUTER]))
  {
    assert Pop(s.frames) == [OUTER] && [tail] + [] == [tail];
    RunsFirst(rules, s, s.(frames := [OUTER]), tail, []);
  }

  lemma RunsFirst<W>(rules: Rules<W>, s: State<W>, next: State<W>, line: string, rest: seq<string>)
    requires FlatStep(rules, s, line) == Some(next)
    ensures FlatRun(rules, s, [line] + rest) == FlatRun(rules, next, rest)
  {
    assert ([line] + rest)[1..] == rest;
  }

  /** Inside a branch that does not run nothing is asked or done, however its own ifs and elses go. */
  lemma {:induction false} SkippedLinesDoNothing<W>(rules: Rules<W>, s: State<W>, lines: seq<string>)
    requires Safe(rules.read, |s.frames|, lines)
    requires s.frames != [] && !Top(s.frames).executing && !Top(s.frames).executable
    requires forall k :: 0 <= k <= |lines| ==> Height(rules.read, |s.frames|, lines[..k]) >= |s.frames|
    ensures var end := FlatRun(rules, s, lines);
            end.Some? && end.value.world == s.world && end.value.trace == s.trace
  {
    SkippedRun(rules, s, |s.frames|, lines);
  }

  ghost predicate AllDead(frames: seq<Frame>, from: nat) {
    |frames| >= from > 0 && forall i :: from - 1 <= i < |frames| ==> frames[i] == Frame(false, false)
  }

  lemma {:induction false} SkippedRun<W>(rules: Rules<W>, s: State<W>, from: nat, lines: seq<string>)
    requires AllDead(s.frames, from)
    requires forall k :: 0 <= k <= |lines| ==> Height(rules.read, |s.frames|, lines[..k]) >= from
    ensures var end := FlatRun(rules, s, lines);
            end.Some? && end.value.world == s.world && end.value.trace == s.trace
    decreases |lines|
  {
    if lines != [] {
      var s' := FlatStep(rules, s, lines[0]).value;
      assert lines[..1][1..] == [];
      assert Height(rules.read, |s.frames|, lines[..1]) == |s.frames| + Delta(rules.read, lines[0]);
      forall k | 0 <= k <= |lines[1..]| ensures Height(rules.read, |s'.frames|, lines[1..][..k]) >= from {
        assert lines[..k + 1][0] == lines[0] && lines[..k + 1][1..] == lines[1..][..k];
      }
      SkippedRun(rules, s', from, lines[1..]);
    }
  }

  /** Frames are left over at the end exactly if some `if` is never closed. */
  lemma UnclosedIffFramesLeft(read: Reader, lines: seq<string>)
    requires Safe(read, 1, lines)
    ensures Height(read, 1, lines) > 1 <==> exists i :: Unclosed(read, lines, i)
  {
    if Height(read, 1, lines) > 1 {
      var i := FindUnclosed(read, lines, 0);
    }
    forall i | Unclosed(read, lines, i) ensures Height(read, 1, lines) > 1 {
      assert lines[..|lines|] == lines;
      SafeHeights(read, 1, lines, i);
    }
  }
}
