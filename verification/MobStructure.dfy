/**
 Mob programs as nested programs, and the proof that the flat interpreter gives them their
 structured meaning: every program it can run is the text of exactly one nested program, up to
 missing `endif`s at the end, and does what that program says.
 */
module MobStructure {
  import opened Options
  import opened MobProgram
  import opened MobLines
  import opened Text

  /** An `if` owns sections separated by `else` lines; there may be any number of them. */
  datatype Stmt = Cmd(line: string) | Cond(head: string, body: Sections, tail: string)
  datatype Block = Nil | Cons(first: Stmt, rest: Block)
  datatype Sections = One(block: Block) | More(block: Block, elseLine: string, rest: Sections)

  ghost predicate BlockOk(read: Reader, b: Block) {
    b.Cons? ==> StmtOk(read, b.first) && BlockOk(read, b.rest)
  }

  ghost predicate StmtOk(read: Reader, s: Stmt) {
    match s
    case Cmd(line) => read(line).Command?
    case Cond(head, body, tail) => read(head).If? && read(tail).EndIf? && SectionsOk(read, body)
  }

  ghost predicate SectionsOk(read: Reader, s: Sections) {
    && BlockOk(read, s.block)
    && (s.More? ==> read(s.elseLine).Else? && SectionsOk(read, s.rest))
  }

  // ----- the text of a nested program

  function BlockLines(b: Block): seq<string> {
    match b
    case Nil => []
    case Cons(s, rest) => StmtLines(s) + BlockLines(rest)
  }

  function StmtLines(s: Stmt): seq<string> {
    match s
    case Cmd(line) => [line]
    case Cond(head, body, tail) => [head] + SectionsLines(body) + [tail]
  }

  function SectionsLines(s: Sections): seq<string> {
    match s
    case One(b) => BlockLines(b)
    case More(b, elseLine, rest) => BlockLines(b) + [elseLine] + SectionsLines(rest)
  }

  // ----- its meaning

  datatype Out<W> = Out(world: W, trace: seq<Event<W>>)

  function ExecBlock<W>(rules: Rules<W>, out: Out<W>, b: Block): Out<W>
    decreases b
  {
    match b
    case Nil => out
    case Cons(s, rest) => ExecBlock(rules, ExecStmt(rules, out, s), rest)
  }

  function ExecStmt<W>(rules: Rules<W>, out: Out<W>, s: Stmt): Out<W>
    decreases s
  {
    match s
    case Cmd(line) => Out(rules.act(out.world, line), out.trace + [Did(line, out.world)])
    case Cond(head, body, _) =>
      var condition := if rules.read(head).If? then rules.read(head).condition else "";
      var (world, yes) := rules.ask(out.world, condition);
      ExecSections(rules, Out(world, out.trace + [Asked(condition, out.world)]), body, yes)
  }

  /** Every other section runs, the first one if `on`. */
  function ExecSections<W>(rules: Rules<W>, out: Out<W>, s: Sections, on: bool): Out<W>
    decreases s
  {
    var out' := if on then ExecBlock(rules, out, s.block) else out;
    match s
    case One(_) => out'
    case More(_, _, rest) => ExecSections(rules, out', rest, !on)
  }

  /** Whether the last section runs. */
  function LastOn(s: Sections, on: bool): bool {
    if s.One? then on else LastOn(s.rest, !on)
  }

  // ----- the interpreter gives every nested program its meaning

  function At<W>(frames: seq<Frame>, out: Out<W>): State<W> {
    State(frames, out.world, out.trace)
  }

  lemma {:induction false} RunConcat<W>(rules: Rules<W>, s: State<W>, a: seq<string>, b: seq<string>)
    ensures FlatRun(rules, s, a + b) ==
        match FlatRun(rules, s, a) case None => None case Some(s') => FlatRun(rules, s', b)
    decreases |a|
  {
    if a == [] {
      assert a + b == b;
    } else {
      assert (a + b)[1..] == a[1..] + b;
      if FlatStep(rules, s, a[0]).Some? {
        RunConcat(rules, FlatStep(rules, s, a[0]).value, a[1..], b);
      }
    }
  }

  lemma RunLine<W>(rules: Rules<W>, s: State<W>, line: string)
    ensures FlatRun(rules, s, [line]) == FlatStep(rules, s, line)
  {
    assert [line][1..] == [];
  }

  /** A block does its work if the top frame is executing and nothing otherwise; the frames come back. */
  lemma {:induction false} BlockRuns<W>(rules: Rules<W>, frames: seq<Frame>, out: Out<W>, b: Block)
    requires frames != [] && BlockOk(rules.read, b)
    ensures FlatRun(rules, At(frames, out), BlockLines(b)) ==
        Some(At(frames, if Top(frames).executing then ExecBlock(rules, out, b) else out))
    decreases b
  {
    if b.Cons? {
      var out' := if Top(frames).executing then ExecStmt(rules, out, b.first) else out;
      StmtRuns(rules, frames, out, b.first);
      BlockRuns(rules, frames, out', b.rest);
      RunConcat(rules, At(frames, out), StmtLines(b.first), BlockLines(b.rest));
    }
  }

  lemma {:induction false} StmtRuns<W>(rules: Rules<W>, frames: seq<Frame>, out: Out<W>, s: Stmt)
    requires frames != [] && StmtOk(rules.read, s)
    ensures FlatRun(rules, At(frames, out), StmtLines(s)) ==
        Some(At(frames, if Top(frames).executing then ExecStmt(rules, out, s) else out))
    decreases s
  {
    match s
    case Cmd(line) =>
      RunLine(rules, At(frames, out), line);
    case Cond(head, body, tail) =>
      var start := At(frames, out);
      var inside := FlatStep(rules, start, head).value;
      RunLine(rules, start, head);
      var top := Top(inside.frames);
      assert Pop(inside.frames) == frames;
      SectionsRun(rules, frames, top, Out(inside.world, inside.trace), body);
      var end := FlatRun(rules, inside, SectionsLines(body)).value;
      RunLine(rules, end, tail);
      assert Pop(end.frames) == frames;
      RunConcat(rules, start, [head], SectionsLines(body));
      RunConcat(rules, start, [head] + SectionsLines(body), [tail]);
  }

  lemma {:induction false} SectionsRun<W>(
      rules: Rules<W>, below: seq<Frame>, top: Frame, out: Out<W>, s: Sections)
    requires SectionsOk(rules.read, s) && (top.executing ==> top.executable)
    ensures FlatRun(rules, At(below + [top], out), SectionsLines(s)) ==
        Some(if top.executable then
               At(below + [Frame(true, LastOn(s, top.executing))], ExecSections(rules, out, s, top.executing))
             else At(below + [top], out))
    decreases s
  {
    var start := At(below + [top], out);
    BlockRuns(rules, below + [top], out, s.block);
    match s
    case One(_) =>
    case More(b, elseLine, rest) =>
      var mid := FlatRun(rules, start, BlockLines(b)).value;
      RunLine(rules, mid, elseLine);
      var next := FlatStep(rules, mid, elseLine).value;
      var top' := if top.executable then Frame(true, !top.executing) else top;
      assert Pop(mid.frames) == below && next.frames == below + [top'];
      SectionsRun(rules, below, top', Out(next.world, next.trace), rest);
      RunConcat(rules, start, BlockLines(b), [elseLine]);
      RunConcat(rules, start, BlockLines(b) + [elseLine], SectionsLines(rest));
  }

  // ----- every runnable program is the text of a nested program

  function ParseBlock(read: Reader, lines: seq<string>): (r: (Block, seq<string>))
    ensures |r.1| <= |lines|
    ensures r.1 != [] ==> read(r.1[0]).Else? || read(r.1[0]).EndIf?
    decreases |lines|, 0
  {
    if lines == [] then (Nil, []) else
    match read(lines[0])
    case Command =>
      var (b, rest) := ParseBlock(read, lines[1..]);
      (Cons(Cmd(lines[0]), b), rest)
    case If(_) =>
      var (body, rest) := ParseSections(read, lines[1..]);
      if rest == [] then (Cons(Cond(lines[0], body, "endif"), Nil), []) else
      var (b, rest') := ParseBlock(read, rest[1..]);
      (Cons(Cond(lines[0], body, rest[0]), b), rest')
    case _ => (Nil, lines)
  }

  function ParseSections(read: Reader, lines: seq<string>): (r: (Sections, seq<string>))
    ensures |r.1| <= |lines|
    ensures r.1 != [] ==> read(r.1[0]).EndIf?
    decreases |lines|, 1
  {
    var (b, rest) := ParseBlock(read, lines);
    if rest != [] && read(rest[0]).Else? then
      var (s, rest') := ParseSections(read, rest[1..]);
      (More(b, rest[0], s), rest')
    else (One(b), rest)
  }

  /** Starting inside `h` open ifs, the lines close them all, or close one more than that. */
  predicate Settles(read: Reader, h: nat, lines: seq<string>)
    decreases |lines|
  {
    if lines == [] then h == 0
    else h + Delta(read, lines[0]) < 0 || Settles(read, h + Delta(read, lines[0]), lines[1..])
  }

  /** What parsing leaves over: still settling, as safe and as high as before, nothing if `h` is 0. */
  ghost predicate LeftOver(read: Reader, h: nat, lines: seq<string>, rest: seq<string>) {
    && Settles(read, h, rest) && (h > 0 ==> rest != [])
    && Height(read, h + 1, lines) == Height(read, h + 1, rest)
    && (Safe(read, h + 1, lines) ==> Safe(read, h + 1, rest))
  }

  lemma {:induction false} BlockLeaves(read: Reader, h: nat, lines: seq<string>)
    requires Settles(read, h, lines)
    ensures LeftOver(read, h, lines, ParseBlock(read, lines).1)
    decreases |lines|, 0
  {
    if lines != [] {
      match read(lines[0])
      case Command =>
        BlockLeaves(read, h, lines[1..]);
      case If(_) =>
        var rest := ParseSections(read, lines[1..]).1;
        SectionsLeave(read, h + 1, lines[1..]);
        BlockLeaves(read, h, rest[1..]);
      case _ =>
    }
  }

  lemma {:induction false} SectionsLeave(read: Reader, h: nat, lines: seq<string>)
    requires Settles(read, h, lines)
    ensures LeftOver(read, h, lines, ParseSections(read, lines).1)
    decreases |lines|, 1
  {
    BlockLeaves(read, h, lines);
    var rest := ParseBlock(read, lines).1;
    if rest != [] && read(rest[0]).Else? {
      SectionsLeave(read, h, rest[1..]);
    }
  }

  lemma {:induction false} BlockParsed(read: Reader, h: nat, lines: seq<string>)
    requires Settles(read, h, lines)
    ensures var (b, rest) := ParseBlock(read, lines); BlockOk(read, b) && lines == BlockLines(b) + rest
    decreases |lines|, 1
  {
    if lines != [] {
      match read(lines[0])
      case Command =>
        BlockParsed(read, h, lines[1..]);
        CommandParsed(read, lines);
      case If(_) =>
        CondParsed(read, h, lines);
      case _ =>
    }
  }

  lemma CommandParsed(read: Reader, lines: seq<string>)
    requires lines != [] && read(lines[0]).Command?
    requires var (b, rest) := ParseBlock(read, lines[1..]); BlockOk(read, b) && lines[1..] == BlockLines(b) + rest
    ensures var (b, rest) := ParseBlock(read, lines); BlockOk(read, b) && lines == BlockLines(b) + rest
  {
    var (b, rest) := ParseBlock(read, lines[1..]);
    Uncons(lines);
    GlueThree([lines[0]], BlockLines(b), rest);
    assert BlockLines(Cons(Cmd(lines[0]), b)) == [lines[0]] + BlockLines(b);
  }

  lemma {:induction false} CondParsed(read: Reader, h: nat, lines: seq<string>)
    requires lines != [] && read(lines[0]).If? && Settles(read, h, lines)
    ensures var (b, rest) := ParseBlock(read, lines); BlockOk(read, b) && lines == BlockLines(b) + rest
    decreases |lines|, 0
  {
    var (body, rest) := ParseSections(read, lines[1..]);
    SectionsLeave(read, h + 1, lines[1..]);
    SectionsParsed(read, h + 1, lines[1..]);
    BlockParsed(read, h, rest[1..]);
    var (b, rest') := ParseBlock(read, rest[1..]);
    var block := Cons(Cond(lines[0], body, rest[0]), b);
    assert ParseBlock(read, lines) == (block, rest');
    Uncons(lines);
    Uncons(rest);
    GlueFive([lines[0]], SectionsLines(body), [rest[0]], BlockLines(b), rest');
    assert BlockLines(block) == ([lines[0]] + SectionsLines(body) + [rest[0]]) + BlockLines(b);
  }

  lemma {:induction false} SectionsParsed(read: Reader, h: nat, lines: seq<string>)
    requires Settles(read, h, lines)
    ensures var (s, rest) := ParseSections(read, lines); SectionsOk(read, s) && lines == SectionsLines(s) + rest
    decreases |lines|, 2
  {
    BlockLeaves(read, h, lines);
    BlockParsed(read, h, lines);
    var (b, rest) := ParseBlock(read, lines);
    if rest != [] && read(rest[0]).Else? {
      SectionsParsed(read, h, rest[1..]);
      var (s, rest') := ParseSections(read, rest[1..]);
      Uncons(rest);
      GlueFour(BlockLines(b), [rest[0]], SectionsLines(s), rest');
    }
  }

  lemma Uncons<X>(s: seq<X>)
    requires s != []
    ensures s == [s[0]] + s[1..]
  {
  }

  lemma GlueThree<X>(a: seq<X>, b: seq<X>, c: seq<X>)
    ensures a + (b + c) == (a + b) + c
  {
  }

  lemma GlueFour<X>(a: seq<X>, b: seq<X>, c: seq<X>, d: seq<X>)
    ensures a + (b + (c + d)) == (a + b + c) + d
  {
  }

  lemma GlueFive<X>(a: seq<X>, b: seq<X>, c: seq<X>, d: seq<X>, e: seq<X>)
    ensures a + (b + (c + (d + e))) == ((a + b + c) + d) + e
  {
    GlueFour(a, b, c, d + e);
  }

  lemma {:induction false} BalancedSettles(read: Reader, h: nat, lines: seq<string>)
    requires Safe(read, h + 1, lines) && Height(read, h + 1, lines) == 1
    ensures Settles(read, h, lines)
    decreases |lines|
  {
    if lines != [] && h + Delta(read, lines[0]) >= 0 {
      BalancedSettles(read, h + Delta(read, lines[0]), lines[1..]);
    }
  }

  /** Every balanced list of lines is the text of the nested program that parsing finds. */
  lemma BalancedIsText(read: Reader, lines: seq<string>)
    requires Safe(read, 1, lines) && Height(read, 1, lines) == 1
    ensures var (p, rest) := ParseSections(read, lines);
            rest == [] && SectionsOk(read, p) && SectionsLines(p) == lines
  {
    BalancedSettles(read, 0, lines);
    SectionsLeave(read, 0, lines);
    SectionsParsed(read, 0, lines);
    var rest := ParseSections(read, lines).1;
    assert rest != [] ==> Safe(read, 0, rest[1..]) && Height(read, 1, rest) == Height(read, 0, rest[1..]);
  }

  ghost predicate Stops(read: Reader, rest: seq<string>, atElse: bool) {
    rest != [] ==> read(rest[0]).EndIf? || (atElse && read(rest[0]).Else?)
  }

  /** No two nested programs have the same text. */
  lemma {:induction false} TextParsesBack(read: Reader, p: Sections, rest: seq<string>)
    requires SectionsOk(read, p) && Stops(read, rest, false)
    ensures ParseSections(read, SectionsLines(p) + rest) == (p, rest)
    decreases p
  {
    match p
    case One(b) =>
      BlockParsesBack(read, b, rest);
    case More(b, elseLine, more) =>
      assert SectionsLines(p) + rest == BlockLines(b) + ([elseLine] + (SectionsLines(more) + rest));
      BlockParsesBack(read, b, [elseLine] + (SectionsLines(more) + rest));
      TextParsesBack(read, more, rest);
  }

  lemma {:induction false} BlockParsesBack(read: Reader, b: Block, rest: seq<string>)
    requires BlockOk(read, b) && Stops(read, rest, true)
    ensures ParseBlock(read, BlockLines(b) + rest) == (b, rest)
    decreases b
  {
    match b
    case Nil =>
      assert [] + rest == rest;
    case Cons(Cmd(line), more) =>
      assert BlockLines(b) + rest == [line] + (BlockLines(more) + rest);
      BlockParsesBack(read, more, rest);
    case Cons(Cond(head, body, tail), more) =>
      var after := [tail] + (BlockLines(more) + rest);
      assert BlockLines(b) + rest == [head] + (SectionsLines(body) + after);
      TextParsesBack(read, body, after);
      BlockParsesBack(read, more, rest);
  }

  // ----- every runnable program has a structured meaning

  function Closers(closer: string, n: nat): seq<string> {
    if n == 0 then [] else [closer] + Closers(closer, n - 1)
  }

  /** The program with its missing `endif`s added, or without a last `endif` that closes nothing. */
  function Completed(read: Reader, lines: seq<string>, closer: string): seq<string> {
    if Height(read, 1, lines) > 0 then lines + Closers(closer, Height(read, 1, lines) - 1)
    else if lines == [] then []
    else lines[..|lines| - 1]
  }

  lemma {:induction false} ClosersOnlyPop<W>(rules: Rules<W>, s: State<W>, closer: string, n: nat)
    requires rules.read(closer).EndIf? && |s.frames| == n + 1
    ensures var end := FlatRun(rules, s, Closers(closer, n));
            end.Some? && end.value.world == s.world && end.value.trace == s.trace
    ensures |FlatRun(rules, s, Closers(closer, n)).value.frames| == 1
    decreases n
  {
    if n > 0 {
      ClosersOnlyPop(rules, s.(frames := Pop(s.frames)), closer, n - 1);
      assert Closers(closer, n)[1..] == Closers(closer, n - 1);
    }
  }

  /** An `endif` too many can only be the last line. */
  lemma LastLineOnlyPops<W>(rules: Rules<W>, world: W, lines: seq<string>)
    requires Safe(rules.read, 1, lines) && Height(rules.read, 1, lines) <= 0
    ensures lines != []
    ensures var end, end' := FlatRun(rules, Start(world), lines), FlatRun(rules, Start(world), lines[..|lines| - 1]);
            end.Some? && end'.Some? && end.value.world == end'.value.world && end.value.trace == end'.value.trace
            && |end'.value.frames| == 1
  {
    FlatRunDefined(rules, Start(world), lines);
    RunLast(rules, Start(world), lines);
    var s := FlatRun(rules, Start(world), lines[..|lines| - 1]).value;
    PopsToNothing(rules, s, lines[|lines| - 1]);
  }

  lemma RunLast<W>(rules: Rules<W>, s: State<W>, lines: seq<string>)
    requires lines != []
    ensures FlatRun(rules, s, lines) ==
        match FlatRun(rules, s, lines[..|lines| - 1])
        case None => None
        case Some(s') => FlatStep(rules, s', lines[|lines| - 1])
  {
    var front, last := lines[..|lines| - 1], lines[|lines| - 1];
    assert lines == front + [last];
    RunConcat(rules, s, front, [last]);
    if FlatRun(rules, s, front).Some? {
      RunLine(rules, FlatRun(rules, s, front).value, last);
    }
  }

  lemma PopsToNothing<W>(rules: Rules<W>, s: State<W>, line: string)
    requires FlatStep(rules, s, line).Some? && FlatStep(rules, s, line).value.frames == []
    ensures |s.frames| == 1
    ensures FlatStep(rules, s, line).value.world == s.world && FlatStep(rules, s, line).value.trace == s.trace
  {
  }

  /** Completing a program changes nothing it does. */
  lemma CompletedRunsAlike<W>(rules: Rules<W>, world: W, lines: seq<string>, closer: string)
    requires rules.read(closer).EndIf? && Safe(rules.read, 1, lines)
    ensures var end := FlatRun(rules, Start(world), lines);
            var end' := FlatRun(rules, Start(world), Completed(rules.read, lines, closer));
            end.Some? && end'.Some? && end.value.world == end'.value.world && end.value.trace == end'.value.trace
    ensures Safe(rules.read, 1, Completed(rules.read, lines, closer))
    ensures Height(rules.read, 1, Completed(rules.read, lines, closer)) == 1
  {
    var n := Height(rules.read, 1, lines);
    FlatRunDefined(rules, Start(world), lines);
    if n > 0 {
      ClosersOnlyPop(rules, FlatRun(rules, Start(world), lines).value, closer, n - 1);
      RunConcat(rules, Start(world), lines, Closers(closer, n - 1));
    } else {
      LastLineOnlyPops(rules, world, lines);
    }
    FlatRunDefined(rules, Start(world), Completed(rules.read, lines, closer));
  }

  /**
   The main result. Take any program that never reads a line over an empty stack, and complete
   it. The result is the text of one nested program, and the flat interpreter runs the original
   lines exactly as that nested program says: the same commands, the same conditions asked, in
   the same order and in the same worlds, and none from a branch that is not taken.
   */
  lemma FlatMeansStructured<W>(rules: Rules<W>, world: W, lines: seq<string>, closer: string)
    requires rules.read(closer).EndIf? && Safe(rules.read, 1, lines)
    ensures var text := Completed(rules.read, lines, closer);
            var p := ParseSections(rules.read, text).0;
            var end := FlatRun(rules, Start(world), lines);
            && SectionsOk(rules.read, p) && SectionsLines(p) == text
            && end.Some?
            && Out(end.value.world, end.value.trace) == ExecSections(rules, Out(world, []), p, true)
  {
    var text := Completed(rules.read, lines, closer);
    CompletedRunsAlike(rules, world, lines, closer);
    BalancedIsText(rules.read, text);
    var p := ParseSections(rules.read, text).0;
    assert [] + [Frame(true, true)] == Start(world).frames;
    SectionsRun(rules, [], Frame(true, true), Out(world, []), p);
  }

  /** `endif` by itself is a line that closes an if. */
  lemma EndIfIsRead(read: Reader)
    requires ReadsLines(read)
    ensures read("endif") == EndIf
  {
    var s := Spelling("", "", "endif", "", "");
    assert SpellingOk(s) && Spelled(s) == "endif";
    assert AllSpace("") && "" == "" + "";
    assert StartsAfterSpace("", "");
    assert IsKeyword("endif", "endif", "");
  }

  /** The main result for lines as their texts are. */
  lemma GameProgramsMeanWhatTheySay<W>(
      read: Reader, ask: (W, string) -> (W, bool), act: (W, string) -> W, world: W, lines: seq<string>)
    requires ReadsLines(read) && Safe(read, 1, lines)
    ensures var rules, text := Rules(read, ask, act), Completed(read, lines, "endif");
            var p := ParseSections(read, text).0;
            var end := FlatRun(rules, Start(world), lines);
            && SectionsOk(read, p) && SectionsLines(p) == text
            && end.Some?
            && Out(end.value.world, end.value.trace) == ExecSections(rules, Out(world, []), p, true)
  {
    EndIfIsRead(read);
    FlatMeansStructured(Rules(read, ask, act), world, lines, "endif");
  }
}
