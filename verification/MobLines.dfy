/**
 The lines of a mob program. The first word of a line, or a phrase in quotes, decides what the line
 is; this module says which texts those are.
 */
module MobLines {
  import opened Text

  /** How a line is read: its first word decides, whatever its case, quotes or leading blanks. */
  datatype Kind = If(condition: string) | Else | EndIf | Command

  function KindOf(line: string): Kind {
    var (command, remaining) := Shift(line);
    if Matches(command, "endif") then EndIf
    else if Matches(command, "else") then Else
    else if Matches(command, "if") then If(remaining)
    else Command
  }

  type Reader = string -> Kind

  // ----- which texts are keywords

  /** The word in capital or small letters. */
  ghost predicate SpelledLike(word: string, keyword: string) {
    |word| == |keyword| &&
    forall i :: 0 <= i < |word| ==> word[i] == keyword[i] || word[i] as int + 32 == keyword[i] as int
  }

  ghost predicate SmallLetters(keyword: string) {
    keyword != "" && forall i :: 0 <= i < |keyword| ==> 'a' <= keyword[i] <= 'z'
  }

  /** A line taken apart: white space, a quote or nothing, the word, what ends it, and the tail. */
  datatype Spelling = Spelling(pad: string, quote: string, word: string, close: string, tail: string)

  /** A word is ended by a blank, a quoted one by its quote, either by the end of the line. */
  ghost predicate SpellingOk(s: Spelling) {
    && AllSpace(s.pad)
    && (s.quote == "" || s.quote == "'" || s.quote == "\"")
    && (s.close == (if s.quote == "" then " " else s.quote) || (s.close == "" && s.tail == ""))
  }

  function Spelled(s: Spelling): string {
    s.pad + (s.quote + (s.word + (s.close + s.tail)))
  }

  /** `rest` is `tail` without the white space it starts with. */
  ghost predicate StartsAfterSpace(tail: string, rest: string) {
    (rest != "" ==> !IsSpace(rest[0])) && exists pad :: AllSpace(pad) && tail == pad + rest
  }

  /** The line is `keyword`, spelled one way or another, and then `rest`. */
  ghost predicate IsKeyword(line: string, keyword: string, rest: string) {
    exists s :: SpellingOk(s) && line == Spelled(s) && SpelledLike(s.word, keyword) && StartsAfterSpace(s.tail, rest)
  }

  /** The reader takes exactly the lines that are these keywords for ifs, elses and endifs, and others for commands. */
  ghost predicate ReadsLines(read: Reader) {
    && (forall line, c :: read(line) == If(c) <==> IsKeyword(line, "if", c))
    && (forall line :: read(line) == Else <==> exists c :: IsKeyword(line, "else", c))
    && (forall line :: read(line) == EndIf <==> exists c :: IsKeyword(line, "endif", c))
  }

  // ----- the game's reader is that one

  lemma MatchesMeans(word: string, keyword: string)
    requires SmallLetters(keyword)
    ensures Matches(word, keyword) <==> SpelledLike(word, keyword)
  {
    if |word| == |keyword| {
      forall i | 0 <= i < |word|
        ensures Lower(word[i]) == Lower(keyword[i]) <==>
            word[i] == keyword[i] || word[i] as int + 32 == keyword[i] as int
      {
        LetterMatches(word[i], keyword[i]);
      }
    }
  }

  lemma LetterMatches(c: char, k: char)
    requires 'a' <= k <= 'z'
    ensures Lower(c) == Lower(k) <==> c == k || c as int + 32 == k as int
  {
    assert Lower(k) == k;
    if 'A' <= c <= 'Z' {
      assert Lower(c) as int == c as int + 32;
    }
  }

  lemma NoSpaceInside(word: string, keyword: string)
    requires SmallLetters(keyword) && SpelledLike(word, keyword)
    ensures forall i :: 0 <= i < |word| ==> word[i] !in {' ', '\'', '"'} && !IsSpace(word[i])
  {
    forall i | 0 <= i < |word| ensures word[i] !in {' ', '\'', '"'} && !IsSpace(word[i]) {
      assert 'a' <= keyword[i] <= 'z' && (word[i] == keyword[i] || word[i] as int + 32 == keyword[i] as int);
    }
  }

  lemma UpToUnderstands(word: string, close: string, tail: string, rest: string, terminator: char)
    requires close == [terminator] || (close == "" && tail == "")
    requires (forall i :: 0 <= i < |word| ==> word[i] != terminator) && StartsAfterSpace(tail, rest)
    ensures UpTo(word + (close + tail), terminator) == (word, rest)
  {
    var pad :| AllSpace(pad) && tail == pad + rest;
    LTrimPad(pad, rest);
    if close == "" {
      assert word + ("" + "") == word;
      assert pad == "" && rest == "";
    } else {
      assert word + (close + tail) == word + [terminator] + tail;
      CutAt(word, terminator, tail, {terminator});
    }
  }

  lemma ShiftUnderstands(s: Spelling, keyword: string, rest: string)
    requires SmallLetters(keyword) && SpellingOk(s) && SpelledLike(s.word, keyword) && StartsAfterSpace(s.tail, rest)
    ensures Shift(Spelled(s)) == (s.word, rest)
  {
    NoSpaceInside(s.word, keyword);
    var body := s.word + (s.close + s.tail);
    assert body[0] == s.word[0];
    if s.quote == "" {
      assert s.quote + body == body;
      LTrimPad(s.pad, body);
      UpToUnderstands(s.word, s.close, s.tail, rest, ' ');
    } else {
      assert (s.quote + body)[1..] == body;
      LTrimPad(s.pad, s.quote + body);
      UpToUnderstands(s.word, s.close, s.tail, rest, s.quote[0]);
    }
  }

  lemma UpToIsSpelled(text: string, terminator: char) returns (close: string, tail: string)
    ensures close == [terminator] || (close == "" && tail == "")
    ensures text == UpTo(text, terminator).0 + (close + tail) && StartsAfterSpace(tail, UpTo(text, terminator).1)
  {
    var end := Find(text, {terminator});
    if end == |text| {
      close, tail := "", "";
      assert text + ("" + "") == text;
      assert AllSpace("") && "" == "" + "";
    } else {
      close, tail := [terminator], text[end + 1..];
      assert text == text[..end] + ([terminator] + tail);
      var pad := LTrimSplits(tail);
    }
  }

  lemma ShiftIsSpelled(line: string) returns (s: Spelling)
    requires LTrim(line) != ""
    ensures SpellingOk(s) && line == Spelled(s) && Shift(line).0 == s.word && StartsAfterSpace(s.tail, Shift(line).1)
  {
    var pad := LTrimSplits(line);
    var text := LTrim(line);
    if text[0] == '\'' || text[0] == '"' {
      var close, tail := UpToIsSpelled(text[1..], text[0]);
      s := Spelling(pad, [text[0]], UpTo(text[1..], text[0]).0, close, tail);
      assert text == [text[0]] + text[1..];
    } else {
      var close, tail := UpToIsSpelled(text, ' ');
      s := Spelling(pad, "", UpTo(text, ' ').0, close, tail);
      assert text == "" + text;
    }
  }

  lemma ShiftExactly(line: string, keyword: string, rest: string)
    requires SmallLetters(keyword)
    ensures IsKeyword(line, keyword, rest) <==> SpelledLike(Shift(line).0, keyword) && Shift(line).1 == rest
  {
    forall s | SpellingOk(s) && line == Spelled(s) && SpelledLike(s.word, keyword) && StartsAfterSpace(s.tail, rest)
      ensures Shift(line) == (s.word, rest)
    {
      ShiftUnderstands(s, keyword, rest);
    }
    if SpelledLike(Shift(line).0, keyword) && Shift(line).1 == rest {
      var s := ShiftIsSpelled(line);
    }
  }

  /** What the game's reader makes of a line, in terms of its text. */
  lemma KindOfExactly(line: string, c: string)
    ensures KindOf(line) == If(c) <==> IsKeyword(line, "if", c)
    ensures KindOf(line) == Else <==> exists x :: IsKeyword(line, "else", x)
    ensures KindOf(line) == EndIf <==> exists x :: IsKeyword(line, "endif", x)
  {
    var (word, rest) := Shift(line);
    MatchesMeans(word, "if");
    MatchesMeans(word, "else");
    MatchesMeans(word, "endif");
    ShiftExactly(line, "if", c);
    ShiftExactly(line, "else", rest);
    ShiftExactly(line, "endif", rest);
    forall x | IsKeyword(line, "else", x) || IsKeyword(line, "endif", x) ensures x == rest {
      ShiftExactly(line, "else", x);
      ShiftExactly(line, "endif", x);
    }
  }

  lemma KindOfReadsLines()
    ensures ReadsLines(KindOf)
  {
    forall line, c ensures KindOf(line) == If(c) <==> IsKeyword(line, "if", c) {
      KindOfExactly(line, c);
    }
    forall line ensures KindOf(line) == Else <==> exists x :: IsKeyword(line, "else", x) {
      KindOfExactly(line, "");
    }
    forall line ensures KindOf(line) == EndIf <==> exists x :: IsKeyword(line, "endif", x) {
      KindOfExactly(line, "");
    }
  }

  /** There is no other way to read lines so. */
  lemma ReadersAgree(read: Reader, line: string)
    requires ReadsLines(read)
    ensures read(line) == KindOf(line)
  {
    match read(line)
    case If(c) => KindOfExactly(line, c);
    case _ =>
      match KindOf(line)
      case If(c) => KindOfExactly(line, c);
      case _ => KindOfExactly(line, "");
  }
}
