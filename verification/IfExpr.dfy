/** The conditions of mob programs: `func(arg)` or `func(arg) op operand`, blanks almost anywhere. */
module IfExpressions {
  import opened Options
  import opened Text

  datatype Operand = Word(text: string) | Number(n: int)
  datatype IfExpr = IfExpr(func: string, arg: string, op: string, operand: Operand)

  /** The parts of a condition as they stand in the text; a bare call has no comparison. */
  datatype Parts = Parts(func: string, arg: string, comparison: Option<(string, string)>)

  function ToOperand(text: string): Operand {
    if IsNumber(text) then Number(ParseNumber(text)) else Word(text)
  }

  function ToIfExpr(parts: Parts): IfExpr {
    match parts.comparison
    case None => IfExpr(parts.func, parts.arg, "", Word(""))
    case Some((op, operand)) => IfExpr(parts.func, parts.arg, op, ToOperand(operand))
  }

  /** `IfExpr::parse_if`: take the text apart, then read the operand as a number if it is one. */
  function ParseIf(text: string): Option<IfExpr> {
    match Split(text)
    case None => None
    case Some(parts) => Some(ToIfExpr(parts))
  }

  function Split(text: string): Option<Parts> {
    var text := Trim(text);
    if text == [] then None else
    var open := Find(text, {'('});
    if open == |text| then None else
    var func := Trim(text[..open]);
    if func == [] then None else
    SplitArg(func, LTrim(text[open + 1..]))
  }

  function SplitArg(func: string, text: string): Option<Parts> {
    var close := Find(text, {')'});
    if close == |text| then None else
    var arg := Trim(text[..close]);
    if arg == [] then None else
    SplitTail(func, arg, LTrim(text[close + 1..]))
  }

  function SplitTail(func: string, arg: string, text: string): Option<Parts> {
    if text == [] then Some(Parts(func, arg, None)) else
    var afterOp := Find(text, {' ', '\t'});
    if afterOp == |text| then None else
    var op := Trim(text[..afterOp]);
    var operand := LTrim(text[afterOp + 1..]);
    if operand == [] then None else Some(Parts(func, arg, Some((op, operand))))
  }

  // ----- the language

  /** A non-empty text without white space at its ends and without the given characters. */
  ghost predicate Token(s: string, without: set<char>) {
    s != [] && Trimmed(s) && Free(s, without)
  }

  ghost predicate Free(s: string, chars: set<char>) {
    forall i :: 0 <= i < |s| ==> s[i] !in chars
  }

  /** The white space of one layout, from left to right; `sep` is the blank or tab that ends the operator. */
  datatype Spacing = Spacing(
    start: string, afterFunc: string, beforeArg: string, afterArg: string,
    beforeOp: string, afterOp: string, sep: char, beforeOperand: string, end: string)

  ghost predicate SpacingOk(w: Spacing) {
    && AllSpace(w.start) && AllSpace(w.afterFunc) && AllSpace(w.beforeArg) && AllSpace(w.afterArg)
    && AllSpace(w.beforeOp) && AllSpace(w.afterOp) && AllSpace(w.beforeOperand) && AllSpace(w.end)
    && w.sep in {' ', '\t'} && Free(w.afterOp, {' ', '\t'})
  }

  /** `func ( arg ) rest`, without the outer white space. */
  function CallText(func: string, arg: string, w: Spacing, rest: string): string {
    (func + w.afterFunc) + ['('] + (w.beforeArg + ArgText(arg, w, rest))
  }

  function ArgText(arg: string, w: Spacing, rest: string): string {
    (arg + w.afterArg) + [')'] + rest
  }

  /** `op operand` after the closing parenthesis. */
  function OpText(op: string, operand: string, w: Spacing): string {
    (op + w.afterOp) + [w.sep] + (w.beforeOperand + operand)
  }

  /** What follows the closing parenthesis. */
  function RestText(comparison: Option<(string, string)>, w: Spacing): string {
    match comparison
    case None => ""
    case Some((op, operand)) => w.beforeOp + OpText(op, operand, w)
  }

  ghost predicate PartsOk(parts: Parts) {
    && Token(parts.func, {'('}) && Token(parts.arg, {')'})
    && (parts.comparison.Some? ==>
          Token(parts.comparison.value.0, {' ', '\t'}) && Token(parts.comparison.value.1, {}))
  }

  /** `parts` laid out with spacing `w`. */
  function Layout(parts: Parts, w: Spacing): string {
    w.start + (CallText(parts.func, parts.arg, w, RestText(parts.comparison, w)) + w.end)
  }

  // ----- every layout is understood

  lemma CallUnderstood(func: string, arg: string, w: Spacing, rest: string)
    requires SpacingOk(w) && Token(func, {'('}) && Token(arg, {')'})
    requires Trimmed(CallText(func, arg, w, rest))
    ensures Split(CallText(func, arg, w, rest)) == SplitTail(func, arg, LTrim(rest))
  {
    TrimKeepsTrimmed(CallText(func, arg, w, rest));
    CutAt(func + w.afterFunc, '(', w.beforeArg + ArgText(arg, w, rest), {'('});
    TrimPad("", func, w.afterFunc);
    assert "" + (func + w.afterFunc) == func + w.afterFunc;
    LTrimPad(w.beforeArg, ArgText(arg, w, rest));
    ArgUnderstood(func, arg, w, rest);
  }

  lemma ArgUnderstood(func: string, arg: string, w: Spacing, rest: string)
    requires SpacingOk(w) && Token(arg, {')'})
    ensures SplitArg(func, ArgText(arg, w, rest)) == SplitTail(func, arg, LTrim(rest))
  {
    CutAt(arg + w.afterArg, ')', rest, {')'});
    TrimPad("", arg, w.afterArg);
    assert "" + (arg + w.afterArg) == arg + w.afterArg;
  }

  lemma OpUnderstood(func: string, arg: string, op: string, operand: string, w: Spacing)
    requires SpacingOk(w) && Token(op, {' ', '\t'}) && Token(operand, {})
    ensures SplitTail(func, arg, OpText(op, operand, w)) == Some(Parts(func, arg, Some((op, operand))))
  {
    CutAt(op + w.afterOp, w.sep, w.beforeOperand + operand, {' ', '\t'});
    TrimPad("", op, w.afterOp);
    assert "" + (op + w.afterOp) == op + w.afterOp;
    LTrimPad(w.beforeOperand, operand);
  }

  /** Whatever the spacing, the parts are found again. */
  lemma LayoutSplits(parts: Parts, w: Spacing)
    requires PartsOk(parts) && SpacingOk(w)
    ensures Split(Layout(parts, w)) == Some(parts)
  {
    var rest := RestText(parts.comparison, w);
    var core := CallText(parts.func, parts.arg, w, rest);
    assert core[0] == parts.func[0];
    match parts.comparison
    case None =>
      assert core[|core| - 1] == ')';
      CoreSplits(parts, w);
    case Some((op, operand)) =>
      EndsWith(OpText(op, operand, w), (op + w.afterOp) + [w.sep], w.beforeOperand, operand);
      EndsWith(rest, "", w.beforeOp, OpText(op, operand, w));
      EndsWith(ArgText(parts.arg, w, rest), "", (parts.arg + w.afterArg) + [')'], rest);
      EndsWith(core, (parts.func + w.afterFunc) + ['('], w.beforeArg, ArgText(parts.arg, w, rest));
      CoreSplits(parts, w);
  }

  lemma LayoutIsCall(parts: Parts, w: Spacing)
    requires PartsOk(parts) && SpacingOk(w)
    requires Trimmed(CallText(parts.func, parts.arg, w, RestText(parts.comparison, w)))
    ensures Split(Layout(parts, w)) == SplitTail(parts.func, parts.arg, LTrim(RestText(parts.comparison, w)))
  {
    var rest := RestText(parts.comparison, w);
    var core := CallText(parts.func, parts.arg, w, rest);
    TrimPad(w.start, core, w.end);
    TrimKeepsTrimmed(core);
    CallUnderstood(parts.func, parts.arg, w, rest);
  }

  lemma CoreSplits(parts: Parts, w: Spacing)
    requires PartsOk(parts) && SpacingOk(w)
    requires Trimmed(CallText(parts.func, parts.arg, w, RestText(parts.comparison, w)))
    ensures Split(Layout(parts, w)) == Some(parts)
  {
    LayoutIsCall(parts, w);
    match parts.comparison
    case None =>
      assert RestText(parts.comparison, w) == "";
    case Some((op, operand)) =>
      OpSplits(parts.func, parts.arg, op, operand, w);
  }

  lemma OpSplits(func: string, arg: string, op: string, operand: string, w: Spacing)
    requires SpacingOk(w) && Token(op, {' ', '\t'}) && Token(operand, {})
    ensures SplitTail(func, arg, LTrim(w.beforeOp + OpText(op, operand, w))) ==
        Some(Parts(func, arg, Some((op, operand))))
  {
    LTrimPad(w.beforeOp, OpText(op, operand, w));
    OpUnderstood(func, arg, op, operand, w);
  }

  // ----- and nothing else is

  lemma NoPadAhead(pad: string, s: string)
    requires AllSpace(pad) && s != [] && !IsSpace((pad + s)[0])
    ensures pad == []
  {
  }

  lemma NoPadBehind(s: string, pad: string)
    requires AllSpace(pad) && s != [] && !IsSpace((s + pad)[|s + pad| - 1])
    ensures pad == []
  {
  }

  /** Cutting at the first character of `chars` a text that does not start with white space. */
  lemma CutSplits(s: string, chars: set<char>) returns (after: string)
    requires Find(s, chars) < |s| && !IsSpace(s[0]) && Trim(s[..Find(s, chars)]) != []
    ensures AllSpace(after)
    ensures var i := Find(s, chars);
            && s[i] in chars && Free(after, chars) && Token(Trim(s[..i]), chars)
            && s == (Trim(s[..i]) + after) + [s[i]] + s[i + 1..]
  {
    var i := Find(s, chars);
    var front := s[..i];
    var before, after' := TrimSplits(front);
    after := after';
    var token := Trim(front);
    NoPadAhead(before, token + after);
    assert front == token + after && s == front + [s[i]] + s[i + 1..];
    FreeParts(token, after, chars);
  }

  lemma FreeParts(a: string, b: string, chars: set<char>)
    requires Free(a + b, chars)
    ensures Free(a, chars) && Free(b, chars)
  {
    assert forall k :: 0 <= k < |a| ==> a[k] == (a + b)[k];
    assert forall k :: 0 <= k < |b| ==> b[k] == (a + b)[|a| + k];
  }

  lemma NotAllSpace(s: string)
    requires s != [] && !IsSpace(s[0])
    ensures Trim(s) != []
  {
    var before, after := TrimSplits(s);
  }

  /** The last character of a text is that of its last part. */
  lemma EndsWith(text: string, a: string, b: string, s: string)
    requires s != [] && text == a + (b + s)
    ensures text != [] && text[|text| - 1] == s[|s| - 1]
  {
  }

  /** The part after the parenthesis, once it is known not to be empty. */
  lemma TailIsLayout(func: string, arg: string, text: string) returns (w: Spacing)
    requires SplitTail(func, arg, text).Some?
    requires text != [] && !IsSpace(text[0]) && !IsSpace(text[|text| - 1])
    ensures AllSpace(w.afterOp) && Free(w.afterOp, {' ', '\t'}) && w.sep in {' ', '\t'} && AllSpace(w.beforeOperand)
    ensures var (op, operand) := SplitTail(func, arg, text).value.comparison.value;
            Token(op, {' ', '\t'}) && Token(operand, {}) && text == OpText(op, operand, w)
  {
    var i := Find(text, {' ', '\t'});
    NotAllSpace(text[..i]);
    var afterOp := CutSplits(text, {' ', '\t'});
    var beforeOperand := LTrimSplits(text[i + 1..]);
    var operand := LTrim(text[i + 1..]);
    EndsWith(text, (Trim(text[..i]) + afterOp) + [text[i]], beforeOperand, operand);
    w := TIGHT.(afterOp := afterOp, sep := text[i], beforeOperand := beforeOperand);
  }

  const TIGHT := Spacing("", "", "", "", "", "", ' ', "", "")

  /** The same for the part from the argument on. */
  lemma ArgIsLayout(func: string, text: string) returns (w: Spacing)
    requires SplitArg(func, text).Some?
    requires text != [] && !IsSpace(text[0]) && !IsSpace(text[|text| - 1])
    ensures SpacingOk(w)
    ensures var parts := SplitArg(func, text).value;
            && Token(parts.arg, {')'}) && (PartsOk(parts) || !Token(func, {'('}))
            && text == ArgText(parts.arg, w, RestText(parts.comparison, w))
  {
    var i := Find(text, {')'});
    var arg := Trim(text[..i]);
    var afterArg := CutSplits(text, {')'});
    var rest := text[i + 1..];
    var beforeOp := LTrimSplits(rest);
    var tail := LTrim(rest);
    w := TIGHT.(afterArg := afterArg);
    if tail == [] {
      NoPadBehind((arg + afterArg) + [')'], rest);
    } else {
      EndsWith(text, (arg + afterArg) + [')'], beforeOp, tail);
      var v := TailIsLayout(func, arg, tail);
      w := Spacing("", "", "", afterArg, beforeOp, v.afterOp, v.sep, v.beforeOperand, "");
    }
  }

  /** Whatever is split at all is a layout of the parts it is split into. */
  lemma SplitIsLayout(text: string) returns (w: Spacing)
    requires Split(text).Some?
    ensures PartsOk(Split(text).value) && SpacingOk(w) && text == Layout(Split(text).value, w)
  {
    var start, end := TrimSplits(text);
    var core := Trim(text);
    TrimKeepsTrimmed(core);
    w := CoreIsLayout(core);
    w := w.(start := start, end := end);
  }

  lemma CoreIsLayout(core: string) returns (w: Spacing)
    requires Trimmed(core) && Trim(core) == core && Split(core).Some?
    ensures PartsOk(Split(core).value) && SpacingOk(w)
    ensures var parts := Split(core).value; core == CallText(parts.func, parts.arg, w, RestText(parts.comparison, w))
  {
    var open := Find(core, {'('});
    var func := Trim(core[..open]);
    var afterFunc := CutSplits(core, {'('});
    var beforeArg := LTrimSplits(core[open + 1..]);
    var inner := LTrim(core[open + 1..]);
    EndsWith(core, (func + afterFunc) + ['('], beforeArg, inner);
    w := ArgIsLayout(func, inner);
    w := w.(afterFunc := afterFunc, beforeArg := beforeArg);
    assert Split(core) == SplitArg(func, inner);
  }

  /** A text is accepted exactly if it is some layout of well-formed parts, and gives what they mean. */
  lemma ParseIfExact(text: string, e: IfExpr)
    ensures ParseIf(text) == Some(e) <==>
        exists parts, w :: PartsOk(parts) && SpacingOk(w) && text == Layout(parts, w) && e == ToIfExpr(parts)
  {
    if ParseIf(text) == Some(e) {
      var w := SplitIsLayout(text);
      assert text == Layout(Split(text).value, w);
    }
    forall parts, w | PartsOk(parts) && SpacingOk(w) && text == Layout(parts, w) && e == ToIfExpr(parts)
      ensures ParseIf(text) == Some(e)
    {
      LayoutSplits(parts, w);
    }
  }

  /** A sign or none, and digits; a lone sign counts. */
  ghost predicate SignAndDigits(text: string, sign: string, digits: string) {
    && text == sign + digits && text != "" && (sign == "" || sign == "-" || sign == "+")
    && forall i :: 0 <= i < |digits| ==> '0' <= digits[i] <= '9'
  }

  ghost predicate Numeral(text: string) {
    exists sign, digits :: SignAndDigits(text, sign, digits)
  }

  lemma NumeralExactly(text: string)
    ensures Numeral(text) <==> IsNumber(text)
  {
    if IsNumber(text) {
      if text[0] == '-' || text[0] == '+' {
        assert forall i :: 0 <= i < |text[1..]| ==> IsDigit(text[1..][i]);
        assert SignAndDigits(text, [text[0]], text[1..]);
      } else {
        assert forall i :: 0 <= i < |text| ==> IsDigit(text[i]);
        assert SignAndDigits(text, "", text);
      }
    }
    forall sign, digits | SignAndDigits(text, sign, digits) ensures IsNumber(text) {
      NumeralIsNumber(text, sign, digits);
    }
  }

  lemma NumeralIsNumber(text: string, sign: string, digits: string)
    requires SignAndDigits(text, sign, digits)
    ensures IsNumber(text)
  {
    assert forall i :: 0 <= i < |digits| ==> IsDigit(digits[i]);
    if sign == "" {
      assert text == digits && IsDigit(text[0]);
    } else {
      assert text[1..] == digits;
    }
  }

  /** A comparison with a number is read with that number, and one with another word with that word. */
  lemma OperandsAreRead(func: string, arg: string, op: string, n: int, word: string, w: Spacing)
    requires Token(func, {'('}) && Token(arg, {')'}) && Token(op, {' ', '\t'}) && SpacingOk(w)
    ensures -0x8000_0000 <= n < 0x8000_0000 ==>
        ParseIf(Layout(Parts(func, arg, Some((op, Decimal(n)))), w)) == Some(IfExpr(func, arg, op, Number(n)))
    ensures Token(word, {}) && !Numeral(word) ==>
        ParseIf(Layout(Parts(func, arg, Some((op, word))), w)) == Some(IfExpr(func, arg, op, Word(word)))
    ensures ParseIf(Layout(Parts(func, arg, None), w)) == Some(IfExpr(func, arg, "", Word("")))
  {
    if -0x8000_0000 <= n < 0x8000_0000 {
      DecimalReadsBack(n);
      DecimalNotEmpty(n);
      LayoutSplits(Parts(func, arg, Some((op, Decimal(n)))), w);
    }
    if Token(word, {}) && !Numeral(word) {
      NumeralExactly(word);
      LayoutSplits(Parts(func, arg, Some((op, word))), w);
    }
    LayoutSplits(Parts(func, arg, None), w);
  }

  lemma DecimalNotEmpty(n: int)
    ensures Decimal(n) != ""
  {
  }

  // ----- printing

  /** Shortest spacing, but for one blank on each side of the operator. */
  const PLAIN := TIGHT.(beforeOp := " ")

  function ToParts(e: IfExpr): Parts {
    Parts(e.func, e.arg,
          if e.op == "" then None
          else Some((e.op, match e.operand case Word(t) => t case Number(n) => Decimal(n))))
  }

  function Print(e: IfExpr): string {
    Layout(ToParts(e), PLAIN)
  }

  lemma OperandReadsBack(operand: string)
    requires Token(operand, {})
    ensures var o := ToOperand(operand);
            var text := match o case Word(t) => t case Number(n) => Decimal(n);
            Token(text, {}) && ToOperand(text) == o
  {
    if IsNumber(operand) {
      DecimalReadsBack(ParseNumber(operand));
    }
  }

  /** Printing what was parsed parses to the same again, numbers included. */
  lemma PrintParsesBack(text: string)
    requires ParseIf(text).Some?
    ensures ParseIf(Print(ParseIf(text).value)) == ParseIf(text)
  {
    var w := SplitIsLayout(text);
    var parts := Split(text).value;
    if parts.comparison.Some? {
      OperandReadsBack(parts.comparison.value.1);
    }
    LayoutSplits(ToParts(ToIfExpr(parts)), PLAIN);
  }
}
