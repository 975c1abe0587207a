// Python's string operations, as the tools use them: strip, split on blanks,
// splitlines and join. Blanks and line breaks are the full Unicode sets of
// str.isspace and str.splitlines, not only the ASCII ones.
module Text {
  import opened Seqs

  predicate IsSpace(c: char) {
    || '\t' <= c <= '\r'
    || '\U{1c}' <= c <= ' '
    || c == '\U{85}' || c == '\U{a0}' || c == '\U{1680}'
    || '\U{2000}' <= c <= '\U{200a}'
    || c == '\U{2028}' || c == '\U{2029}' || c == '\U{202f}'
    || c == '\U{205f}' || c == '\U{3000}'
  }

  // Where splitlines cuts: more characters than the line feed and carriage return.
  predicate IsBreak(c: char) {
    '\n' <= c <= '\r' || '\U{1c}' <= c <= '\U{1e}' || c == '\U{85}' || c == '\U{2028}' || c == '\U{2029}'
  }

  predicate IsDigit(c: char) { '0' <= c <= '9' }

  predicate All(s: string, p: char -> bool) { forall i | 0 <= i < |s| :: p(s[i]) }

  predicate No(s: string, p: char -> bool) { forall i | 0 <= i < |s| :: !p(s[i]) }

  lemma NoAppend(a: string, b: string, p: char -> bool)
    ensures No(a + b, p) <==> No(a, p) && No(b, p)
  {
    var s := a + b;
    assert forall i | 0 <= i < |a| :: s[i] == a[i];
    assert forall i | 0 <= i < |b| :: s[|a| + i] == b[i];
  }

  lemma NoPart(s: string, i: nat, j: nat, p: char -> bool)
    requires i <= j <= |s| && No(s, p)
    ensures No(s[i..j], p)
  {
  }

  // How many characters at the front satisfy p, and how many do not.
  function Span(s: string, p: char -> bool): (n: nat)
    ensures n <= |s|
  {
    if s != "" && p(s[0]) then 1 + Span(s[1..], p) else 0
  }

  function SpanNot(s: string, p: char -> bool): (n: nat)
    ensures n <= |s|
  {
    if s != "" && !p(s[0]) then 1 + SpanNot(s[1..], p) else 0
  }

  // A prefix that satisfies p and cannot be extended is the span.
  lemma {:induction false} SpanIs(a: string, b: string, p: char -> bool)
    requires All(a, p)
    requires b == "" || !p(b[0])
    ensures Span(a + b, p) == |a|
    decreases |a|
  {
    if a == "" {
      assert a + b == b;
    } else {
      assert (a + b)[1..] == a[1..] + b;
      SpanIs(a[1..], b, p);
    }
  }

  lemma {:induction false} SpanNotIs(a: string, b: string, p: char -> bool)
    requires No(a, p)
    requires b == "" || p(b[0])
    ensures SpanNot(a + b, p) == |a|
    decreases |a|
  {
    if a == "" {
      assert a + b == b;
    } else {
      assert (a + b)[1..] == a[1..] + b;
      SpanNotIs(a[1..], b, p);
    }
  }

  lemma {:induction false} SpanShape(s: string, p: char -> bool)
    ensures All(s[..Span(s, p)], p)
    ensures Span(s, p) < |s| ==> !p(s[Span(s, p)])
    decreases |s|
  {
    if s != "" && p(s[0]) {
      SpanShape(s[1..], p);
      assert s[..Span(s, p)] == [s[0]] + s[1..][..Span(s[1..], p)];
    }
  }

  lemma {:induction false} SpanNotShape(s: string, p: char -> bool)
    ensures No(s[..SpanNot(s, p)], p)
    ensures SpanNot(s, p) < |s| ==> p(s[SpanNot(s, p)])
    ensures SpanNot(s, p) == |s| <==> No(s, p)
    decreases |s|
  {
    if s != "" && !p(s[0]) {
      SpanNotShape(s[1..], p);
      assert s[..SpanNot(s, p)] == [s[0]] + s[1..][..SpanNot(s[1..], p)];
      NoAppend([s[0]], s[1..], p);
      assert s == [s[0]] + s[1..];
    }
  }

  // ---------------------------------------------------------------- strip

  // Length of s without the characters at its end that satisfy p.
  function Trunk(s: string, p: char -> bool): (n: nat)
    ensures n <= |s|
    decreases |s|
  {
    if s != "" && p(s[|s| - 1]) then Trunk(s[..|s| - 1], p) else |s|
  }

  lemma {:induction false} TrunkIs(a: string, b: string, p: char -> bool)
    requires a == "" || !p(a[|a| - 1])
    requires All(b, p)
    ensures Trunk(a + b, p) == |a|
    decreases |b|
  {
    if b == "" {
      assert a + b == a;
    } else {
      var b' := b[..|b| - 1];
      assert (a + b)[..|a + b| - 1] == a + b';
      TrunkIs(a, b', p);
    }
  }

  lemma {:induction false} TrunkShape(s: string, p: char -> bool)
    ensures All(s[Trunk(s, p)..], p)
    ensures Trunk(s, p) > 0 ==> !p(s[Trunk(s, p) - 1])
    decreases |s|
  {
    if s != "" && p(s[|s| - 1]) {
      var s' := s[..|s| - 1];
      TrunkShape(s', p);
      assert s[Trunk(s, p)..] == s'[Trunk(s, p)..] + [s[|s| - 1]];
    }
  }

  function LStrip(s: string): string { s[Span(s, IsSpace)..] }

  function RStrip(s: string): string { s[..Trunk(s, IsSpace)] }

  function Strip(s: string): string { RStrip(LStrip(s)) }

  // No character that satisfies p at either end.
  predicate Trimmed(s: string, p: char -> bool) {
    s != "" ==> !p(s[0]) && !p(s[|s| - 1])
  }

  predicate Stripped(s: string) { Trimmed(s, IsSpace) }

  // Blank padding on either side is what strip takes off.
  lemma StripPadded(a: string, s: string, b: string)
    requires All(a, IsSpace) && All(b, IsSpace) && Stripped(s)
    ensures Strip(a + s + b) == s
  {
    if s == "" {
      TrimBlank(a + b, IsSpace);
      assert a + s + b == a + b;
    } else {
      SpanIs(a, s + b, IsSpace);
      assert a + s + b == a + (s + b);
      assert LStrip(a + s + b) == s + b;
      TrunkIs(s, b, IsSpace);
    }
  }

  lemma StripTrailing(s: string, b: string)
    requires All(b, IsSpace) && Stripped(s)
    ensures Strip(s + b) == s
  {
    StripPadded("", s, b);
    assert "" + s + b == s + b;
  }

  lemma TrimBlank(s: string, p: char -> bool)
    requires All(s, p)
    ensures Span(s, p) == |s| && Trunk("", p) == 0
  {
    SpanIs(s, "", p);
    assert s + "" == s;
  }

  lemma StripId(s: string)
    requires Stripped(s)
    ensures Strip(s) == s
  {
    StripPadded("", s, "");
    assert "" + s + "" == s;
  }

  // Strip keeps a contiguous part of s, trimmed.
  lemma StripShape(s: string)
    ensures Stripped(Strip(s))
    ensures exists i, j | 0 <= i <= j <= |s| :: Strip(s) == s[i..j]
  {
    var i := Span(s, IsSpace);
    var l := LStrip(s);
    SpanShape(s, IsSpace);
    TrunkShape(l, IsSpace);
    var n := Trunk(l, IsSpace);
    assert Strip(s) == s[i..i + n];
    assert l != "" ==> l[0] == s[i];
  }

  // A graphic character is never stripped.
  lemma NotBlank(s: string, k: nat)
    requires k < |s| && !IsSpace(s[k])
    ensures Strip(s) != ""
  {
    var i, l := Span(s, IsSpace), LStrip(s);
    SpanShape(s, IsSpace);
    assert forall j | 0 <= j < i :: s[..i][j] == s[j];
    assert l[k - i] == s[k];
    TrunkShape(l, IsSpace);
    var n := Trunk(l, IsSpace);
    assert forall j | n <= j < |l| :: l[n..][j - n] == l[j];
  }

  // Nothing is left of a text exactly if it is blank.
  lemma WhenBlank(s: string)
    ensures Strip(s) == "" <==> All(s, IsSpace)
  {
    if All(s, IsSpace) {
      TrimBlank(s, IsSpace);
    } else {
      var k :| 0 <= k < |s| && !IsSpace(s[k]);
      NotBlank(s, k);
    }
  }

  lemma StripKeeps(s: string, p: char -> bool)
    requires No(s, p)
    ensures No(Strip(s), p)
  {
    StripShape(s);
    var i, j :| 0 <= i <= j <= |s| && Strip(s) == s[i..j];
    NoPart(s, i, j, p);
  }

  // ---------------------------------------------------------------- lines

  // A carriage return followed by a line feed is one break.
  function BreakLength(s: string): (n: nat)
    requires s != ""
    ensures 1 <= n <= |s|
  {
    if |s| > 1 && s[0] == '\r' && s[1] == '\n' then 2 else 1
  }

  function SplitLines(s: string): seq<string>
    decreases |s|
  {
    if s == "" then []
    else
      var k := SpanNot(s, IsBreak);
      if k == |s| then [s] else [s[..k]] + SplitLines(s[k + BreakLength(s[k..])..])
  }

  lemma {:induction false} LinesHaveNoBreak(s: string)
    ensures forall line | line in SplitLines(s) :: No(line, IsBreak)
    decreases |s|
  {
    if s != "" {
      var k := SpanNot(s, IsBreak);
      SpanNotShape(s, IsBreak);
      if k < |s| {
        LinesHaveNoBreak(s[k + BreakLength(s[k..])..]);
      }
    }
  }

  // A text with a break in it, cut in front of the first one.
  lemma CutAtBreak(s: string) returns (a: string, b: string)
    requires !No(s, IsBreak)
    ensures s == a + b && No(a, IsBreak) && b != "" && IsBreak(b[0])
    ensures SpanNot(s, IsBreak) == |a| && s[..|a|] == a && s[|a|..] == b
  {
    var k := SpanNot(s, IsBreak);
    SpanNotShape(s, IsBreak);
    a, b := s[..k], s[k..];
  }

  // A text read up to its first break.
  lemma SplitAtBreak(a: string, b: string)
    requires No(a, IsBreak) && b != "" && IsBreak(b[0])
    ensures SplitLines(a + b) == [a] + SplitLines(b[BreakLength(b)..])
  {
    var s, n := a + b, BreakLength(b);
    SpanNotIs(a, b, IsBreak);
    assert s[..|a|] == a && s[|a|..] == b && s[|a| + n..] == b[n..];
  }

  // A line without breaks, closed by a line feed, is cut off whole.
  lemma SplitFirstLine(line: string, rest: string)
    requires No(line, IsBreak)
    ensures SplitLines(line + "\n" + rest) == [line] + SplitLines(rest)
  {
    var b := "\n" + rest;
    assert line + "\n" + rest == line + b;
    SplitAtBreak(line, b);
    assert b[1..] == rest;
  }

  // Each of these ends a line, and a carriage return with the line feed behind it does so
  // once.
  lemma LineEnds(line: string, end: string, rest: string)
    requires No(line, IsBreak)
    requires end == "\r\n" || (|end| == 1 && IsBreak(end[0]) && !(end == "\r" && rest != "" && rest[0] == '\n'))
    ensures SplitLines(line + (end + rest)) == [line] + SplitLines(rest)
  {
    var b := end + rest;
    SplitAtBreak(line, b);
    assert b[|end|..] == rest && b[0] == end[0] && (|b| > 1 ==> b[1] == if |end| > 1 then end[1] else rest[0]);
  }

  lemma Breaks()
    ensures forall c: char ::
      IsBreak(c) <==> c in "\n\r\U{b}\U{c}\U{1c}\U{1d}\U{1e}\U{85}\U{2028}\U{2029}"
  {
  }

  // The closing line feed of a text that does not end in a break adds no line.
  lemma {:induction false} SplitClosed(s: string)
    requires s != "" && !IsBreak(s[|s| - 1])
    ensures SplitLines(s + "\n") == SplitLines(s)
    decreases |s|
  {
    if No(s, IsBreak) {
      SplitWhole(s);
      SplitFirstLine(s, "");
      assert s + "\n" + "" == s + "\n";
    } else {
      var a, b := CutAtBreak(s);
      assert b[|b| - 1] == s[|s| - 1];
      var rest := LaterLines(b);
      calc {
        SplitLines(s + "\n");
        { assert s + "\n" == a + (b + "\n"); SplitAtBreak(a, b + "\n"); }
        [a] + SplitLines(rest + "\n");
        { SplitClosed(rest); }
        [a] + SplitLines(rest);
        { SplitAtBreak(a, b); }
        SplitLines(s);
      }
    }
  }

  lemma SplitWhole(s: string)
    requires s != "" && No(s, IsBreak)
    ensures SplitLines(s) == [s]
  {
    SpanNotShape(s, IsBreak);
  }

  lemma LaterLines(b: string) returns (rest: string)
    requires b != "" && IsBreak(b[0]) && !IsBreak(b[|b| - 1])
    ensures rest != "" && !IsBreak(rest[|rest| - 1]) && |rest| < |b|
    ensures b[BreakLength(b)..] == rest
    ensures (b + "\n")[BreakLength(b + "\n")..] == rest + "\n"
  {
    BreakInside(b);
    rest := b[BreakLength(b)..];
    assert (b + "\n")[BreakLength(b)..] == rest + "\n";
  }

  lemma BreakInside(b: string)
    requires b != "" && IsBreak(b[0]) && !IsBreak(b[|b| - 1])
    ensures BreakLength(b) < |b| && BreakLength(b + "\n") == BreakLength(b)
  {
  }

  // ---------------------------------------------------------------- join and split

  // sep.join(parts)
  function Join(sep: string, parts: seq<string>): string {
    if |parts| == 0 then ""
    else if |parts| == 1 then parts[0]
    else parts[0] + sep + Join(sep, parts[1..])
  }

  predicate IsWord(w: string) { w != "" && No(w, IsSpace) }

  // s.split() with no argument: the maximal runs of graphic characters.
  function Words(s: string): seq<string>
    decreases |s|
  {
    var t := LStrip(s);
    if t == "" then []
    else if SpanNot(t, IsSpace) == 0 then assert false by { SpanShape(s, IsSpace); } []
    else [t[..SpanNot(t, IsSpace)]] + Words(t[SpanNot(t, IsSpace)..])
  }

  lemma WordsStep(word: string, rest: string)
    requires IsWord(word)
    requires rest == "" || IsSpace(rest[0])
    ensures Words(word + rest) == [word] + Words(rest)
  {
    var s := word + rest;
    assert s[0] == word[0];
    assert LStrip(s) == s;
    SpanNotIs(word, rest, IsSpace);
    assert s[..|word|] == word && s[|word|..] == rest;
  }

  lemma WordsSkip(c: char, s: string)
    requires IsSpace(c)
    ensures Words([c] + s) == Words(s)
  {
    var t := [c] + s;
    assert t[1..] == s;
    assert LStrip(t) == LStrip(s);
  }

  ghost predicate AllWords(words: seq<string>) { forall w | w in words :: IsWord(w) }

  lemma WordThenBlank(word: string, rest: string)
    requires IsWord(word)
    ensures Words(word + (" " + rest)) == [word] + Words(rest)
  {
    WordsStep(word, " " + rest);
    WordsSkip(' ', rest);
  }

  lemma OneWord(word: string)
    requires IsWord(word)
    ensures Words(word) == [word]
  {
    WordsStep(word, "");
    assert word + "" == word;
    assert Words("") == [];
  }

  lemma JoinHead(sep: string, head: string, tail: seq<string>)
    ensures Join(sep, [head] + tail) == if tail == [] then head else head + (sep + Join(sep, tail))
  {
    assert ([head] + tail)[1..] == tail;
    Assoc(head, sep, Join(sep, tail));
  }

  // Splitting undoes joining with a blank.
  lemma {:induction false} WordsOfJoin(words: seq<string>)
    requires AllWords(words)
    ensures Words(Join(" ", words)) == words
    decreases |words|
  {
    if words != [] {
      var head, tail := HeadTail(words);
      JoinHead(" ", head, tail);
      if tail == [] {
        OneWord(head);
      } else {
        WordThenBlank(head, Join(" ", tail));
        WordsOfJoin(tail);
      }
    }
  }

  // ---------------------------------------------------------------- case

  function LowerChar(c: char): char {
    if 'A' <= c <= 'Z' then (c as int + 32) as char else c
  }

  // str.lower on ASCII letters.
  function Lower(s: string): (r: string)
    ensures |r| == |s|
    ensures forall i | 0 <= i < |s| :: r[i] == LowerChar(s[i])
  {
    seq(|s|, i requires 0 <= i < |s| => LowerChar(s[i]))
  }

  lemma LowerOfAppend(a: string, b: string)
    ensures Lower(a + b) == Lower(a) + Lower(b)
  {
  }

  predicate StartsWith(s: string, prefix: string) { prefix <= s }

  lemma StartsWithChar(s: string, prefix: string, i: nat)
    requires i < |prefix|
    ensures StartsWith(s, prefix) ==> i < |s| && s[i] == prefix[i]
  {
  }

  predicate EndsWith(s: string, suffix: string) {
    |suffix| <= |s| && s[|s| - |suffix|..] == suffix
  }

  predicate Contains(s: string, part: string) {
    part <= s || (s != "" && Contains(s[1..], part))
  }

  // A part is contained exactly if the text is something, the part and something.
  lemma {:induction false} WhenContains(s: string, part: string)
    ensures Contains(s, part) <==> exists a, b :: s == a + (part + b)
    decreases |s|
  {
    if part <= s {
      assert s == "" + (part + s[|part|..]);
    } else if s != "" {
      WhenContains(s[1..], part);
      if Contains(s[1..], part) {
        var a, b :| s[1..] == a + (part + b);
        assert s == ([s[0]] + a) + (part + b);
      }
      forall a, b | s == a + (part + b)
        ensures exists c, d :: s[1..] == c + (part + d)
      {
        assert a != "" && s[1..] == a[1..] + (part + b);
      }
    }
  }

  // ---------------------------------------------------------------- decimal numbers

  function DigitValue(c: char): (v: nat)
    requires IsDigit(c)
    ensures v < 10
  {
    c as int - '0' as int
  }

  function DigitChar(v: nat): (c: char)
    requires v < 10
    ensures IsDigit(c) && DigitValue(c) == v
  {
    (v + '0' as int) as char
  }

  // int(s)
  function ParseNat(s: string): nat
    requires All(s, IsDigit)
  {
    if s == "" then 0 else 10 * ParseNat(s[..|s| - 1]) + DigitValue(s[|s| - 1])
  }

  // str(n)
  function NatString(n: nat): (s: string)
    ensures s != "" && All(s, IsDigit) && ParseNat(s) == n
  {
    if n < 10 then assert [DigitChar(n)][..0] == ""; [DigitChar(n)]
    else
      var s := NatString(n / 10) + [DigitChar(n % 10)];
      assert s[..|s| - 1] == NatString(n / 10);
      s
  }
}
