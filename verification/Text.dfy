/** The string operations the parsers use, with Python's meaning: split, join, strip, splitlines, int. */
module Text {
  import opened Common

  // ---------------------------------------------------------- split and join

  // The index of the first c in s, or |s|.
  function Find(s: string, c: char): (i: nat)
    ensures i <= |s| && c !in s[..i] && (i < |s| ==> s[i] == c)
  {
    if s == "" || s[0] == c then 0
    else
      var j := Find(s[1..], c);
      assert s[..1 + j] == [s[0]] + s[1..][..j];
      1 + j
  }

  function Split(s: string, c: char): (parts: seq<string>)
    ensures |parts| > 0
    decreases |s|
  {
    var i := Find(s, c);
    if i == |s| then [s] else [s[..i]] + Split(s[i + 1..], c)
  }

  function Join(parts: seq<string>, c: char): string
  {
    if parts == [] then "" else if |parts| == 1 then parts[0] else parts[0] + [c] + Join(parts[1..], c)
  }

  lemma FindIn(a: string, c: char, b: string)
    requires c !in a
    ensures Find(a + [c] + b, c) == |a|
  {
    assert (a + [c] + b)[|a|] == c;
  }

  lemma FindNone(s: string, c: char)
    requires c !in s
    ensures Find(s, c) == |s|
  {
  }

  lemma {:induction false} SplitJoin(parts: seq<string>, c: char)
    requires parts != [] && forall p :: p in parts ==> c !in p
    ensures Split(Join(parts, c), c) == parts
  {
    if |parts| == 1 {
      FindNone(parts[0], c);
    } else {
      var rest := Join(parts[1..], c);
      FindIn(parts[0], c, rest);
      SplitJoin(parts[1..], c);
      var s := parts[0] + [c] + rest;
      assert s[..|parts[0]|] == parts[0] && s[|parts[0]| + 1..] == rest;
    }
  }

  // Split at the first c only.
  function SplitOnce(s: string, c: char): (string, string)
    requires c in s
  {
    var i := Find(s, c);
    assert i < |s|;
    (s[..i], s[i + 1..])
  }

  lemma SplitOnceAt(a: string, c: char, b: string)
    requires c !in a
    ensures c in a + [c] + b && SplitOnce(a + [c] + b, c) == (a, b)
  {
    var s := a + [c] + b;
    assert s[|a|] == c;
    FindIn(a, c, b);
    assert s[..|a|] == a && s[|a| + 1..] == b;
  }

  // ------------------------------------------------------------------- strip

  predicate IsSpace(c: char) {
    || '\t' <= c <= '\r' || '\U{1c}' <= c <= ' ' || c == '\U{85}' || c == '\U{a0}' || c == '\U{1680}'
    || '\U{2000}' <= c <= '\U{200a}' || c == '\U{2028}' || c == '\U{2029}' || c == '\U{202f}' || c == '\U{205f}'
    || c == '\U{3000}'
  }

  function StripLeft(s: string): string { if s != "" && IsSpace(s[0]) then StripLeft(s[1..]) else s }

  function StripRight(s: string): string
  {
    if s != "" && IsSpace(s[|s| - 1]) then StripRight(s[..|s| - 1]) else s
  }

  function Strip(s: string): string { StripRight(StripLeft(s)) }

  // No white space at either end.
  predicate Trimmed(s: string) { s == "" || (!IsSpace(s[0]) && !IsSpace(s[|s| - 1])) }

  lemma StripTrimmed(s: string)
    requires Trimmed(s)
    ensures Strip(s) == s
  {
  }

  ghost predicate Within(part: string, s: string) { forall c :: c in part ==> c in s }

  lemma {:induction false} StripLeftWithin(s: string)
    ensures Within(StripLeft(s), s) && (StripLeft(s) != "" ==> !IsSpace(StripLeft(s)[0]))
  {
    if s != "" && IsSpace(s[0]) { StripLeftWithin(s[1..]); }
  }

  lemma {:induction false} StripRightWithin(s: string)
    ensures Within(StripRight(s), s) && StripRight(s) <= s
    ensures StripRight(s) != "" ==> !IsSpace(StripRight(s)[|StripRight(s)| - 1])
  {
    if s != "" && IsSpace(s[|s| - 1]) { StripRightWithin(s[..|s| - 1]); }
  }

  lemma StripYieldsTrimmed(s: string)
    ensures Trimmed(Strip(s)) && Within(Strip(s), s)
  {
    StripLeftWithin(s);
    StripRightWithin(StripLeft(s));
  }

  // White space at the end does not change what stripping leaves.
  lemma {:induction false} StripIgnoresTail(s: string)
    ensures Strip(StripRight(s)) == Strip(s)
    decreases |s|
  {
    if s == "" {
    } else if IsSpace(s[|s| - 1]) {
      var head := s[..|s| - 1];
      StripIgnoresTail(head);
      StripLeftKeepsTail(head, s[|s| - 1]);
      assert s == head + [s[|s| - 1]];
    }
  }

  lemma {:induction false} StripLeftKeepsTail(head: string, c: char)
    requires IsSpace(c)
    ensures Strip(head + [c]) == Strip(head)
  {
    var s := head + [c];
    if head == "" {
      assert s == [c] && s[1..] == "";
    } else if IsSpace(head[0]) {
      StripLeftKeepsTail(head[1..], c);
      assert s[1..] == head[1..] + [c];
    } else {
      assert StripLeft(s) == s && s[..|s| - 1] == head;
    }
  }

  lemma {:induction false} StripRightKeepsHead(a: string, b: string)
    requires a != "" && !IsSpace(a[|a| - 1])
    ensures StripRight(a + b) == a + StripRight(b)
  {
    if b != "" && IsSpace(b[|b| - 1]) {
      StripRightKeepsHead(a, b[..|b| - 1]);
      assert (a + b)[..|a + b| - 1] == a + b[..|b| - 1];
    } else if b == "" {
      assert a + b == a;
    }
  }

  // ------------------------------------------------------------------- lines

  predicate IsBreak(c: char) {
    '\n' <= c <= '\r' || '\U{1c}' <= c <= '\U{1e}' || c == '\U{85}' || c == '\U{2028}' || c == '\U{2029}'
  }

  predicate OneLine(s: string) { forall c :: c in s ==> !IsBreak(c) }

  function FindBreak(s: string): (i: nat)
    ensures i <= |s| && OneLine(s[..i]) && (i < |s| ==> IsBreak(s[i]))
  {
    if s == "" || IsBreak(s[0]) then 0
    else
      var j := FindBreak(s[1..]);
      assert s[..1 + j] == [s[0]] + s[1..][..j];
      1 + j
  }

  // Where the line after a break begins.
  function AfterBreak(s: string, i: nat): (next: nat)
    requires i < |s|
    ensures i < next <= |s|
  {
    if s[i] == '\r' && i + 1 < |s| && s[i + 1] == '\n' then i + 2 else i + 1
  }

  function SplitLines(s: string): seq<string>
    decreases |s|
  {
    if s == "" then []
    else
      var i := FindBreak(s);
      if i == |s| then [s]
      else
        [s[..i]] + SplitLines(s[AfterBreak(s, i)..])
  }

  // A text whose every line, the last one too, is ended by a newline.
  function Unlines(lines: seq<string>): string {
    if lines == [] then "" else lines[0] + "\n" + Unlines(lines[1..])
  }

  lemma {:induction false} JoinIsUnlines(lines: seq<string>)
    ensures Join(lines + [""], '\n') == Unlines(lines)
  {
    if lines != [] {
      JoinIsUnlines(lines[1..]);
      assert (lines + [""])[1..] == lines[1..] + [""];
      assert lines[0] + ['\n'] == lines[0] + "\n";
    }
  }

  lemma {:induction false} FindBreakAt(a: string, c: char, rest: string)
    requires OneLine(a) && IsBreak(c)
    ensures FindBreak(a + [c] + rest) == |a|
  {
    var s := a + [c] + rest;
    if a != "" {
      assert forall d :: d in a[1..] ==> d in a;
      FindBreakAt(a[1..], c, rest);
      assert s[1..] == a[1..] + [c] + rest;
      assert a[0] in a;
    }
  }

  lemma {:induction false} SplitUnlines(lines: seq<string>)
    requires forall l :: l in lines ==> OneLine(l)
    ensures SplitLines(Unlines(lines)) == lines
  {
    if lines != [] {
      var rest := Unlines(lines[1..]);
      var s := lines[0] + "\n" + rest;
      SplitUnlines(lines[1..]);
      FindBreakAt(lines[0], '\n', rest);
      assert s == lines[0] + ['\n'] + rest;
      assert s[..|lines[0]|] == lines[0] && s[|lines[0]| + 1..] == rest;
    }
  }

  lemma {:induction false} LinesAreLines(s: string)
    ensures forall l :: l in SplitLines(s) ==> OneLine(l)
    decreases |s|
  {
    if s != "" {
      var i := FindBreak(s);
      if i < |s| {
        LinesAreLines(s[AfterBreak(s, i)..]);
      } else {
        assert s[..i] == s;
      }
    }
  }

  // ---------------------------------------------------------------- line ends

  // What reading a file in text mode makes of it: every line end becomes a newline.
  function ReadText(s: string): (r: string)
    ensures '\r' !in r
    decreases |s|
  {
    if s == "" then ""
    else if s[0] != '\r' then [s[0]] + ReadText(s[1..])
    else if |s| > 1 && s[1] == '\n' then "\n" + ReadText(s[2..])
    else "\n" + ReadText(s[1..])
  }

  lemma {:induction false} ReadTextAfter(a: string, rest: string)
    requires '\r' !in a
    ensures ReadText(a + rest) == a + ReadText(rest)
  {
    if a == "" {
      assert a + rest == rest;
    } else {
      assert a[0] in a && forall c :: c in a[1..] ==> c in a;
      ReadTextAfter(a[1..], rest);
      assert (a + rest)[1..] == a[1..] + rest;
    }
  }

  // A text comes through unchanged exactly when it holds no carriage return.
  lemma ReadTextKeeps(s: string)
    ensures ReadText(s) == s <==> '\r' !in s
  {
    if '\r' !in s {
      ReadTextAfter(s, "");
      assert s + "" == s;
    }
  }

  // The break of a line as it is read.
  function BreakAsRead(c: char): char { if c == '\r' then '\n' else c }

  lemma BreakIsRead(s: string, i: nat)
    requires i < |s|
    ensures ReadText(s[i..]) == [BreakAsRead(s[i])] + ReadText(s[AfterBreak(s, i)..])
  {
    var rest := s[i..];
    assert rest[0] == s[i] && rest[1..] == s[i + 1..];
    if AfterBreak(s, i) == i + 2 { assert rest[1] == '\n' && rest[2..] == s[i + 2..]; }
  }

  lemma FirstLineIsRead(s: string, i: nat)
    requires i < |s| && OneLine(s[..i])
    ensures ReadText(s) == s[..i] + [BreakAsRead(s[i])] + ReadText(s[AfterBreak(s, i)..])
  {
    BreakIsRead(s, i);
    assert s == s[..i] + s[i..];
    ReadTextInParts(s[..i], s[i..], BreakAsRead(s[i]), ReadText(s[AfterBreak(s, i)..]));
  }

  lemma ReadTextInParts(line: string, tail: string, c: char, rest: string)
    requires '\r' !in line && ReadText(tail) == [c] + rest
    ensures ReadText(line + tail) == line + [c] + rest
  {
    ReadTextAfter(line, tail);
  }

  lemma SplitFirstLine(line: string, c: char, rest: string)
    requires OneLine(line) && IsBreak(c) && c != '\r'
    ensures SplitLines(line + [c] + rest) == [line] + SplitLines(rest)
  {
    var text := line + [c] + rest;
    FindBreakAt(line, c, rest);
    assert text[|line|] == c && text[..|line|] == line && text[|line| + 1..] == rest;
  }

  // The ten characters at which a line ends.
  const BREAKS: set<char> := {
    '\n', '\U{b}', '\U{c}', '\r', '\U{1c}', '\U{1d}', '\U{1e}', '\U{85}', '\U{2028}', '\U{2029}'}

  lemma BreaksAre(c: char)
    ensures IsBreak(c) <==> c in BREAKS
  {
  }

  // Two texts without any of them are two lines exactly when one of them is between.
  lemma BreaksSeparate(a: string, c: char, b: string)
    requires b != "" && forall d :: d in a + b ==> d !in BREAKS
    ensures SplitLines(a + [c] + b) == if c in BREAKS then [a, b] else [a + [c] + b]
  {
    var s := a + [c] + b;
    BreaksAre(c);
    forall d | d in a || d in b ensures !IsBreak(d) {
      assert d in a + b;
      BreaksAre(d);
    }
    assert b[0] in b && s[|a| + 1] == b[0];
    WholeLine(b);
    if c in BREAKS {
      FindBreakAt(a, c, b);
      assert s[..|a|] == a && s[|a| + 1..] == b;
    } else {
      WholeLine(s);
    }
  }

  lemma WholeLine(s: string)
    requires s != "" && OneLine(s)
    ensures SplitLines(s) == [s]
  {
  }

  // The lines of a text are those of the text as read.
  lemma {:induction false} LinesAsRead(s: string)
    ensures SplitLines(ReadText(s)) == SplitLines(s)
    decreases |s|
  {
    var i := FindBreak(s);
    if i < |s| {
      var next := AfterBreak(s, i);
      LinesAsRead(s[next..]);
      FirstLineIsRead(s, i);
      SplitFirstLine(s[..i], BreakAsRead(s[i]), ReadText(s[next..]));
    } else {
      assert s[..i] == s && '\r' !in s;
      ReadTextKeeps(s);
    }
  }

  // ----------------------------------------------------------------- numbers

  predicate IsDigit(c: char) { '0' <= c <= '9' }

  function Digit(n: nat): char
    requires n < 10
  {
    '0' + n as char
  }

  function DigitValue(c: char): nat
    requires IsDigit(c)
  {
    c as int - '0' as int
  }

  function Decimal(n: nat): string {
    if n < 10 then [Digit(n)] else Decimal(n / 10) + [Digit(n % 10)]
  }

  // A non-empty run of ASCII digits, as int() reads it when single underscores may separate digits.
  function ParseDigits(s: string): Option<nat> {
    if s == "" || !IsDigit(s[|s| - 1]) then None
    else
      var d, head := DigitValue(s[|s| - 1]), s[..|s| - 1];
      if head == "" then Some(d)
      else
        var more := ParseDigits(if head[|head| - 1] == '_' then head[..|head| - 1] else head);
        if more.None? then None else Some(10 * more.value + d)
  }

  // Python's int() on a text of ASCII characters without white space.
  function ParseInt(s: string): Option<int> {
    if s != "" && (s[0] == '+' || s[0] == '-') then
      var m := ParseDigits(s[1..]);
      if m.None? then None
      else var n: int := m.value; Some(if s[0] == '-' then 0 - n else n)
    else
      var m := ParseDigits(s);
      if m.None? then None else Some(m.value)
  }

  lemma {:induction false} DecimalDigits(n: nat)
    ensures Decimal(n) != "" && forall c :: c in Decimal(n) ==> IsDigit(c)
    ensures n > 0 ==> Decimal(n)[0] != '0'
    ensures n < 10 ==> |Decimal(n)| == 1
  {
    if n >= 10 { DecimalDigits(n / 10); }
  }

  lemma {:induction false} ParseDecimal(n: nat)
    ensures ParseDigits(Decimal(n)) == Some(n)
  {
    if n >= 10 {
      ParseDecimal(n / 10);
      DecimalDigits(n / 10);
      var s := Decimal(n);
      assert s[..|s| - 1] == Decimal(n / 10);
      assert Decimal(n / 10)[|Decimal(n / 10)| - 1] in Decimal(n / 10);
    }
  }

  lemma ParseIntDecimal(n: nat)
    ensures ParseInt(Decimal(n)) == Some(n)
  {
    DecimalDigits(n);
    assert Decimal(n)[0] in Decimal(n);
    ParseDecimal(n);
  }

  // Which texts are digit runs, by position: digits, with single underscores between digits.
  predicate DigitAt(s: string, i: nat)
    requires i < |s|
  {
    IsDigit(s[i]) || (s[i] == '_' && 0 < i < |s| - 1 && IsDigit(s[i - 1]) && IsDigit(s[i + 1]))
  }

  ghost predicate DigitRun(s: string) { s != "" && forall i :: 0 <= i < |s| ==> DigitAt(s, i) }

  lemma {:induction false} DigitRunsAreRead(s: string)
    ensures ParseDigits(s).Some? <==> DigitRun(s)
    decreases |s|
  {
    var n := |s| - 1;
    if s != "" && IsDigit(s[n]) && n > 0 {
      var more := if s[n - 1] == '_' then s[..n - 1] else s[..n];
      assert s[..n][..n - 1] == s[..n - 1];
      DigitRunsAreRead(more);
      if DigitRun(s) {
        assert DigitAt(s, n - 1);
        forall i | 0 <= i < |more| ensures DigitAt(more, i) { assert DigitAt(s, i); }
      }
      if DigitRun(more) {
        assert DigitAt(more, |more| - 1);
        forall i | 0 <= i < |s| ensures DigitAt(s, i) { if i < |more| { assert DigitAt(more, i); } }
      }
    } else if s != "" {
      assert DigitAt(s, n) <==> IsDigit(s[n]);
    }
  }

  // The signs of int().
  lemma SignedNumbers(n: nat)
    ensures ParseInt("+" + Decimal(n)) == Some(n) && ParseInt("-" + Decimal(n)) == Some(0 - n as int)
  {
    ParseDecimal(n);
    assert ("+" + Decimal(n))[1..] == Decimal(n) && ("-" + Decimal(n))[1..] == Decimal(n);
  }

  // A number read from digits without a leading zero is written like that again.
  lemma {:induction false} CanonicalDigits(s: string)
    requires s != "" && (forall c :: c in s ==> IsDigit(c)) && (|s| > 1 ==> s[0] != '0')
    ensures ParseDigits(s).Some? && Decimal(ParseDigits(s).value) == s
    ensures s[0] != '0' ==> ParseDigits(s).value > 0
  {
    var n := |s| - 1;
    assert s[n] in s;
    if n > 0 {
      assert s[n - 1] in s;
      CanonicalDigits(s[..n]);
      assert Digit(DigitValue(s[n])) == s[n];
    }
  }

  lemma {:induction false} JoinSplit(s: string, c: char)
    ensures Join(Split(s, c), c) == s
    ensures forall p :: p in Split(s, c) ==> c !in p
    decreases |s|
  {
    var i := Find(s, c);
    if i < |s| {
      JoinSplit(s[i + 1..], c);
      assert Split(s, c)[1..] == Split(s[i + 1..], c);
      assert s == s[..i] + [c] + s[i + 1..];
    } else {
      assert s[..i] == s;
    }
  }
}
