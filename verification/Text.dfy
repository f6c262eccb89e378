/** The string helpers the other modules rest on (src/string_utils.cpp, src/ArgParser.cpp), in the C locale. */
module Text {

  predicate IsSpace(c: char) {
    c == ' ' || '\t' <= c <= '\r'
  }

  predicate IsDigit(c: char) {
    '0' <= c <= '9'
  }

  function Lower(c: char): char {
    if 'A' <= c <= 'Z' then c + ('a' - 'A') else c
  }

  function LowerCase(s: string): (r: string)
    ensures |r| == |s|
    ensures forall i :: 0 <= i < |s| ==> r[i] == Lower(s[i])
  {
    seq(|s|, i requires 0 <= i < |s| => Lower(s[i]))
  }

  /** Case-insensitive equality. */
  predicate Matches(a: string, b: string) {
    |a| == |b| && forall i :: 0 <= i < |a| ==> Lower(a[i]) == Lower(b[i])
  }

  function LTrim(s: string): string {
    if s != [] && IsSpace(s[0]) then LTrim(s[1..]) else s
  }

  function RTrim(s: string): string {
    if s != [] && IsSpace(s[|s| - 1]) then RTrim(s[..|s| - 1]) else s
  }

  function Trim(s: string): string {
    RTrim(LTrim(s))
  }

  /** The first position of a character of `set`, or the length if there is none. */
  function Find(s: string, chars: set<char>): (i: nat)
    ensures i <= |s|
    ensures i < |s| ==> s[i] in chars
    ensures forall k :: 0 <= k < i ==> s[k] !in chars
  {
    if s == [] || s[0] in chars then 0
    else
      var n := Find(s[1..], chars);
      assert forall k :: 0 < k <= n ==> s[k] == s[1..][k - 1] || k == n;
      1 + n
  }

  /** `ArgParser::shift`: the first word, or quoted phrase, and what is left. */
  function Shift(line: string): (string, string) {
    var text := LTrim(line);
    if text == [] then ("", "")
    else if text[0] == '\'' || text[0] == '"' then UpTo(text[1..], text[0])
    else UpTo(text, ' ')
  }

  /** What stands before the terminator, if there is one, and what is left behind it. */
  function UpTo(text: string, terminator: char): (string, string) {
    var end := Find(text, {terminator});
    if end == |text| then (text, "") else (text[..end], LTrim(text[end + 1..]))
  }

  lemma {:induction false} RTrimEnds(s: string)
    ensures RTrim(s) == [] || !IsSpace(RTrim(s)[|RTrim(s)| - 1])
    ensures |RTrim(s)| <= |s| && RTrim(s) == s[..|RTrim(s)|]
  {
    if s != [] && IsSpace(s[|s| - 1]) {
      RTrimEnds(s[..|s| - 1]);
    }
  }

  /** Neither end of the text is white space. */
  predicate Trimmed(s: string) {
    s != [] ==> !IsSpace(s[0]) && !IsSpace(s[|s| - 1])
  }

  lemma TrimKeepsTrimmed(s: string)
    requires Trimmed(s)
    ensures LTrim(s) == s && RTrim(s) == s && Trim(s) == s
  {
  }

  // ----- padding

  predicate AllSpace(s: string) {
    forall i :: 0 <= i < |s| ==> IsSpace(s[i])
  }

  lemma {:induction false} LTrimPad(pad: string, s: string)
    requires AllSpace(pad) && (s != [] ==> !IsSpace(s[0]))
    ensures LTrim(pad + s) == s
  {
    if pad == [] {
      assert pad + s == s;
    } else {
      assert (pad + s)[1..] == pad[1..] + s;
      LTrimPad(pad[1..], s);
    }
  }

  lemma {:induction false} RTrimPad(s: string, pad: string)
    requires AllSpace(pad) && (s != [] ==> !IsSpace(s[|s| - 1]))
    ensures RTrim(s + pad) == s
  {
    if pad == [] {
      assert s + pad == s;
    } else {
      assert (s + pad)[..|s + pad| - 1] == s + pad[..|pad| - 1];
      RTrimPad(s, pad[..|pad| - 1]);
    }
  }

  /** White space around a trimmed text is what trimming takes off. */
  lemma TrimPad(before: string, s: string, after: string)
    requires AllSpace(before) && AllSpace(after) && s != [] && Trimmed(s)
    ensures Trim(before + (s + after)) == s
  {
    LTrimPad(before, s + after);
    RTrimPad(s, after);
  }

  lemma {:induction false} LTrimSplits(s: string) returns (pad: string)
    ensures AllSpace(pad) && s == pad + LTrim(s)
    ensures LTrim(s) != [] ==> !IsSpace(LTrim(s)[0])
  {
    if s != [] && IsSpace(s[0]) {
      var rest := LTrimSplits(s[1..]);
      pad := [s[0]] + rest;
      assert s == [s[0]] + s[1..];
      assert pad + LTrim(s[1..]) == [s[0]] + (rest + LTrim(s[1..]));
    } else {
      pad := [];
    }
  }

  lemma {:induction false} RTrimSplits(s: string) returns (pad: string)
    ensures AllSpace(pad) && s == RTrim(s) + pad
    ensures RTrim(s) != [] ==> !IsSpace(RTrim(s)[|RTrim(s)| - 1])
  {
    if s != [] && IsSpace(s[|s| - 1]) {
      pad := RTrimSplits(s[..|s| - 1]);
      pad := pad + [s[|s| - 1]];
      assert s == s[..|s| - 1] + [s[|s| - 1]];
    } else {
      pad := [];
    }
  }

  lemma TrimSplits(s: string) returns (before: string, after: string)
    ensures AllSpace(before) && AllSpace(after) && s == before + (Trim(s) + after)
    ensures Trimmed(Trim(s))
  {
    before := LTrimSplits(s);
    after := RTrimSplits(LTrim(s));
    RTrimEnds(LTrim(s));
  }

  /** Searching and cutting at the first character of `chars`. */
  lemma CutAt(before: string, c: char, after: string, chars: set<char>)
    requires c in chars && forall i :: 0 <= i < |before| ==> before[i] !in chars
    ensures var s := before + [c] + after;
            Find(s, chars) == |before| && s[..|before|] == before && s[|before| + 1..] == after
  {
    var s := before + [c] + after;
    assert s[|before|] == c && forall i :: 0 <= i < |before| ==> s[i] == before[i];
  }

  // ----- numbers

  /** `is_number`: an optional sign, then digits only; a lone sign counts. */
  predicate IsNumber(s: string) {
    s != [] && AllDigits(if s[0] == '-' || s[0] == '+' then s[1..] else s)
  }

  predicate AllDigits(s: string) {
    forall i :: 0 <= i < |s| ==> IsDigit(s[i])
  }

  function DigitValue(c: char): int {
    c as int - '0' as int
  }

  /** Digits read into an unsigned 64-bit number, most significant first. */
  function Accumulate(digits: string): int {
    if digits == [] then 0
    else (Accumulate(digits[..|digits| - 1]) * 10 + DigitValue(digits[|digits| - 1])) % 0x1_0000_0000_0000_0000
  }

  /** The conversion to a 32-bit int. */
  function ToInt(n: int): (r: int)
    ensures -0x8000_0000 <= r < 0x8000_0000
    ensures -0x8000_0000 <= n < 0x8000_0000 ==> r == n
  {
    var low := n % 0x1_0000_0000;
    if low < 0x8000_0000 then low else low - 0x1_0000_0000
  }

  /** `parse_number`; negating the least int is left as it wraps. */
  function ParseNumber(s: string): (n: int)
    ensures -0x8000_0000 <= n < 0x8000_0000
  {
    if s == [] then 0 else
    var negative := s[0] == '-';
    var digits := if s[0] == '-' || s[0] == '+' then s[1..] else s;
    if exists i :: 0 <= i < |digits| && !IsDigit(digits[i]) then 0
    else if negative then ToInt(-ToInt(Accumulate(digits))) else ToInt(Accumulate(digits))
  }

  function Digits(n: nat): string {
    var last := [('0' as int + n % 10) as char];
    if n < 10 then last else Digits(n / 10) + last
  }

  function Decimal(n: int): string {
    if n < 0 then "-" + Digits(-n) else Digits(n)
  }

  lemma {:induction false} DigitsReadBack(n: nat)
    requires n < 0x1_0000_0000_0000_0000
    ensures Digits(n) != [] && forall i :: 0 <= i < |Digits(n)| ==> IsDigit(Digits(n)[i])
    ensures Accumulate(Digits(n)) == n
  {
    var d := Digits(n);
    if n < 10 {
      assert d[..|d| - 1] == [];
    } else {
      DigitsReadBack(n / 10);
      assert d[..|d| - 1] == Digits(n / 10);
    }
  }

  lemma PositiveReadsBack(d: string, m: nat)
    requires d != [] && forall i :: 0 <= i < |d| ==> IsDigit(d[i])
    requires Accumulate(d) == m < 0x8000_0000
    ensures Trimmed(d) && IsNumber(d) && ParseNumber(d) == m
  {
    assert IsDigit(d[0]) && IsDigit(d[|d| - 1]);
  }

  lemma DecimalReadsBack(n: int)
    requires -0x8000_0000 <= n < 0x8000_0000
    ensures Trimmed(Decimal(n)) && IsNumber(Decimal(n)) && ParseNumber(Decimal(n)) == n
  {
    if n < 0 {
      DigitsReadBack(-n);
      NegativeReadsBack(Digits(-n), -n);
    } else {
      DigitsReadBack(n);
      PositiveReadsBack(Digits(n), n);
    }
  }

  /** Leading zeros and a plus sign change nothing. */
  lemma {:induction false} LeadingZero(digits: string)
    ensures Accumulate("0" + digits) == Accumulate(digits)
    decreases |digits|
  {
    if digits == "" {
      assert "0" + digits == "0" && "0"[..0] == "";
    } else {
      var n := |digits| - 1;
      assert ("0" + digits)[..n + 1] == "0" + digits[..n];
      LeadingZero(digits[..n]);
    }
  }

  lemma PlusSign(digits: string)
    requires digits != "" && forall i :: 0 <= i < |digits| ==> IsDigit(digits[i])
    ensures ParseNumber("+" + digits) == ParseNumber(digits) && ParseNumber("0" + digits) == ParseNumber(digits)
  {
    assert ("+" + digits)[1..] == digits;
    assert IsDigit(digits[0]);
    assert forall i :: 0 <= i < |"0" + digits| ==> IsDigit(("0" + digits)[i]);
    LeadingZero(digits);
  }

  /** White space in the C locale. */
  lemma SpaceMeans(c: char)
    ensures IsSpace(c) <==> c as int in {9, 10, 11, 12, 13, 32}
  {
  }

  /** Two characters are one letter in different case, or the same. */
  lemma CaseMeans(c: char, d: char)
    ensures Lower(c) == Lower(d) <==>
        || c == d
        || ('A' <= c <= 'Z' && d as int == c as int + 32)
        || ('A' <= d <= 'Z' && c as int == d as int + 32)
  {
    if 'A' <= c <= 'Z' {
      assert Lower(c) as int == c as int + 32;
    }
    if 'A' <= d <= 'Z' {
      assert Lower(d) as int == d as int + 32;
    }
  }

  lemma NegateInt(m: nat)
    requires m <= 0x8000_0000
    ensures ToInt(-ToInt(m)) + m == 0
  {
    if m < 0x8000_0000 {
      assert ToInt(m) == m;
    } else {
      assert ToInt(m) == -0x8000_0000;
    }
  }

  lemma ParseMinus(d: string)
    requires d != [] && forall i :: 0 <= i < |d| ==> IsDigit(d[i])
    ensures Trimmed("-" + d) && IsNumber("-" + d) && ParseNumber("-" + d) == ToInt(-ToInt(Accumulate(d)))
  {
    var s := "-" + d;
    assert s[0] == '-' && s[1..] == d && s[|s| - 1] == d[|d| - 1];
  }

  lemma NegativeReadsBack(d: string, m: nat)
    requires d != [] && forall i :: 0 <= i < |d| ==> IsDigit(d[i])
    requires Accumulate(d) == m <= 0x8000_0000
    ensures Trimmed("-" + d) && IsNumber("-" + d) && ParseNumber("-" + d) + m == 0
  {
    ParseMinus(d);
    NegateInt(m);
  }
}
