// The sqlite3 script sent over SSH: three quotings nested in one another, and the
// proof that undoing them in order gives every script line and every value back.
module SqlScript {
  import opened Wrappers
  import opened Seqs
  import opened Text

  // ---------------------------------------------------------------- building the command

  datatype Value =
    | BoolValue(b: bool)
    | IntValue(n: int)
    | FloatValue(repr: string)
    | TextValue(s: string)

  // s.replace(c, t) for a single character c.
  function Replace(s: string, c: char, t: string): string
    decreases |s|
  {
    if s == "" then "" else (if s[0] == c then t else [s[0]]) + Replace(s[1..], c, t)
  }

  predicate IsSafe(c: char) {
    || 'A' <= c <= 'Z' || 'a' <= c <= 'z' || '0' <= c <= '9'
    || c == '_' || c == '.' || c == '/' || c == ':' || c == '-'
  }

  // The regular expression's $ also matches in front of a final line feed.
  predicate SafeToken(s: string) {
    || (s != "" && All(s, IsSafe))
    || (|s| > 1 && s[|s| - 1] == '\n' && All(s[..|s| - 1], IsSafe))
  }

  function IntString(n: int): string {
    if n < 0 then "-" + NatString(-n) else NatString(n)
  }

  function SqliteQuote(v: Value): string {
    match v
    case BoolValue(b) => if b then "1" else "0"
    case IntValue(n) => IntString(n)
    case FloatValue(repr) => repr
    case TextValue(s) => if SafeToken(s) then "'" + (s + "'") else "'" + (Replace(s, '\'', "''") + "'")
  }

  function EscapePrintf(line: string): string {
    Replace(Replace(line, '\\', "\\\\"), '\'', "'\\''")
  }

  const PARAMETER := ".parameter set :"

  function ParameterLine(key: string, v: Value): string { PARAMETER + (key + (" " + SqliteQuote(v))) }

  predicate IsSemicolon(c: char) { c == ';' }

  // sql.rstrip().rstrip(";") + ";"
  function Statement(sql: string): string {
    var s := RStrip(sql);
    s[..Trunk(s, IsSemicolon)] + ";"
  }

  function ParameterLines(params: seq<(string, Value)>): seq<string> {
    Map(params, (p: (string, Value)) => ParameterLine(p.0, p.1))
  }

  function ScriptLines(sql: string, params: seq<(string, Value)>): seq<string> {
    [".mode json", ".headers on"] + ParameterLines(params) + [Statement(sql)]
  }

  // The two characters \n that printf turns into a line feed.
  const NEWLINE := "\\n"

  function Payload(lines: seq<string>): string { Join(NEWLINE, Map(lines, EscapePrintf)) + NEWLINE }

  method BuildPayload(sql: string, params: seq<(string, Value)>) returns (payload: string)
    ensures payload == Payload(ScriptLines(sql, params))
  {
    var scriptLines := [".mode json", ".headers on"];
    for i := 0 to |params|
      invariant scriptLines == [".mode json", ".headers on"] + ParameterLines(params)[..i]
    {
      scriptLines := scriptLines + [ParameterLine(params[i].0, params[i].1)];
    }
    assert ParameterLines(params)[..|params|] == ParameterLines(params);
    scriptLines := scriptLines + [Statement(sql)];
    payload := Join(NEWLINE, Map(scriptLines, EscapePrintf)) + NEWLINE;
  }

  // ---------------------------------------------------------------- layer one: the shell

  // Characters that end a word or mean more than themselves outside quotes.
  predicate IsSpecial(c: char) {
    c in {' ', '\t', '\n', '|', '&', ';', '<', '>', '(', ')', '$', '`', '"', '*', '?', '[', '#', '~', '=', '%', '!', '{', '}'}
  }

  // One word as section 2.2 of the POSIX shell language reads it: text in single
  // quotes stands for itself, a backslash outside quotes preserves the next
  // character. None for what this command does not use.
  function ShellWord(s: string, quoted: bool): Option<(string, string)>
    decreases |s|
  {
    if quoted then
      if s == "" then None
      else if s[0] == '\'' then ShellWord(s[1..], false)
      else
        var rest :- ShellWord(s[1..], true);
        Some(([s[0]] + rest.0, rest.1))
    else if s == "" || s[0] == ' ' then Some(("", s))
    else if s[0] == '\'' then ShellWord(s[1..], true)
    else if s[0] == '\\' then
      if |s| == 1 || s[1] == '\n' then None
      else
        var rest :- ShellWord(s[2..], false);
        Some(([s[1]] + rest.0, rest.1))
    else if IsSpecial(s[0]) then None
    else
      var rest :- ShellWord(s[1..], false);
      Some(([s[0]] + rest.0, rest.1))
  }

  function QuoteSingles(s: string): string { Replace(s, '\'', "'\\''") }

  lemma {:induction false} ReplaceConcat(a: string, b: string, c: char, t: string)
    ensures Replace(a + b, c, t) == Replace(a, c, t) + Replace(b, c, t)
    decreases |a|
  {
    if a == "" {
      assert a + b == b;
    } else {
      var head, tail := HeadTail(a);
      Assoc([head], tail, b);
      assert (a + b)[1..] == tail + b && a[1..] == tail;
      ReplaceConcat(tail, b, c, t);
    }
  }

  lemma QuotedChar(c: char, s: string)
    requires c != '\''
    ensures ShellWord([c] + s, true)
         == match ShellWord(s, true) { case None => None case Some(r) => Some(([c] + r.0, r.1)) }
  {
    assert ([c] + s)[1..] == s;
  }

  lemma ClosedQuote(s: string)
    ensures ShellWord("'" + s, true) == ShellWord(s, false)
    ensures ShellWord("'" + s, false) == ShellWord(s, true)
  {
    assert ("'" + s)[1..] == s;
  }

  lemma EscapedQuote(s: string)
    ensures ShellWord("'\\''" + s, true)
         == match ShellWord(s, true) { case None => None case Some(r) => Some((['\''] + r.0, r.1)) }
  {
    assert "'\\''" + s == "'" + ("\\'" + ("'" + s));
    ClosedQuote("\\'" + ("'" + s));
    assert ("\\'" + ("'" + s))[2..] == "'" + s;
    ClosedQuote(s);
  }

  // A word quoted this way reads back as itself, and stops at the blank behind it.
  lemma {:induction false} ShellUndoes(w: string, rest: string)
    requires rest == "" || rest[0] == ' '
    ensures ShellWord(QuoteSingles(w) + ("'" + rest), true) == Some((w, rest))
    decreases |w|
  {
    if w == "" {
      assert QuoteSingles(w) + ("'" + rest) == "'" + rest;
      ClosedQuote(rest);
    } else {
      var head, tail := HeadTail(w);
      assert w[1..] == tail;
      var piece := if head == '\'' then "'\\''" else [head];
      Assoc(piece, QuoteSingles(tail), "'" + rest);
      ShellUndoes(tail, rest);
      if head == '\'' {
        EscapedQuote(QuoteSingles(tail) + ("'" + rest));
      } else {
        QuotedChar(head, QuoteSingles(tail) + ("'" + rest));
      }
    }
  }

  // ---------------------------------------------------------------- layer two: printf

  // What printf makes of the text behind a single % sign, without arguments: how much
  // it takes and what it prints, or None if it stops there with an error. Any such
  // behaviour will do that does not stop inside an escape and prints no more % signs
  // than it takes behind the first one, as the date formats %(%%)T and %(%Q%Q)T do.
  type Conversion = string -> Option<(nat, string)>

  ghost predicate Plausible(conv: Conversion) {
    forall s: string :: conv(s).Some? ==>
      var (n, out) := conv(s).value;
      n <= |s| && (WellEscaped(s) ==> WellEscaped(s[n..])) && Percents(out) <= Percents(s[..n])
  }

  function Printf(f: string, conv: Conversion): string
    decreases |f|
  {
    if f == "" then ""
    else if f[0] == '\\' && |f| > 1 && f[1] == '\\' then "\\" + Printf(f[2..], conv)
    else if f[0] == '\\' && |f| > 1 && f[1] == 'n' then "\n" + Printf(f[2..], conv)
    else if f[0] != '%' then [f[0]] + Printf(f[1..], conv)
    else if |f| > 1 && f[1] == '%' then "%" + Printf(f[2..], conv)
    else
      match conv(f[1..])
      case None => ""
      case Some((n, out)) => if n < |f| then out + Printf(f[1 + n..], conv) else ""
  }

  function Double(line: string): string { Replace(line, '\\', "\\\\") }

  // The word the shell hands to printf.
  function FormatWord(lines: seq<string>): string {
    if lines == [] then "" else Double(lines[0]) + (NEWLINE + FormatWord(lines[1..]))
  }

  // The text sqlite3 should read.
  function ScriptText(lines: seq<string>): string {
    if lines == [] then "" else lines[0] + ("\n" + ScriptText(lines[1..]))
  }

  lemma PayloadStep(head: string, tail: seq<string>)
    requires tail != []
    ensures Payload([head] + tail) == EscapePrintf(head) + (NEWLINE + Payload(tail))
  {
    MapHead(head, tail, EscapePrintf);
    var rest := Map(tail, EscapePrintf);
    JoinHead(NEWLINE, EscapePrintf(head), rest);
    Regroup(EscapePrintf(head), NEWLINE, Join(NEWLINE, rest), NEWLINE);
  }

  lemma NewlineQuoted()
    ensures QuoteSingles(NEWLINE) == NEWLINE
  {
    assert NEWLINE == [NEWLINE[0]] + [NEWLINE[1]];
    assert NEWLINE[1..] == [NEWLINE[1]];
    assert NEWLINE[1..][1..] == "";
  }

  // The payload is the format word with its single quotes quoted.
  lemma {:induction false} PayloadQuotes(lines: seq<string>)
    requires lines != []
    ensures Payload(lines) == QuoteSingles(FormatWord(lines))
    decreases |lines|
  {
    var head, tail := HeadTail(lines);
    assert lines[1..] == tail;
    NewlineQuoted();
    ReplaceConcat(Double(head), NEWLINE + FormatWord(tail), '\'', "'\\''");
    ReplaceConcat(NEWLINE, FormatWord(tail), '\'', "'\\''");
    if tail == [] {
      assert Map(lines, EscapePrintf) == [EscapePrintf(head)];
      assert QuoteSingles("") == "";
      assert NEWLINE + "" == NEWLINE;
    } else {
      PayloadStep(head, tail);
      PayloadQuotes(tail);
    }
  }

  function Percents(s: string): nat
    decreases |s|
  {
    if s == "" then 0 else (if s[0] == '%' then 1 else 0) + Percents(s[1..])
  }

  lemma {:induction false} PercentsConcat(a: string, b: string)
    ensures Percents(a + b) == Percents(a) + Percents(b)
    decreases |a|
  {
    if a == "" {
      assert a + b == b;
    } else {
      assert (a + b)[1..] == a[1..] + b;
      PercentsConcat(a[1..], b);
    }
  }

  lemma {:induction false} PercentsZero(s: string)
    ensures Percents(s) == 0 <==> '%' !in s
    decreases |s|
  {
    if s != "" {
      PercentsZero(s[1..]);
      assert s == [s[0]] + s[1..];
    }
  }

  // Backslashes come in pairs or in front of an n.
  predicate WellEscaped(f: string)
    decreases |f|
  {
    f == "" ||
    (if f[0] != '\\' then WellEscaped(f[1..])
     else |f| > 1 && (f[1] == '\\' || f[1] == 'n') && WellEscaped(f[2..]))
  }

  lemma {:induction false} WellEscapedConcat(a: string, b: string)
    requires WellEscaped(a) && WellEscaped(b)
    ensures WellEscaped(a + b)
    decreases |a|
  {
    if a == "" {
      assert a + b == b;
    } else if a[0] != '\\' {
      assert (a + b)[1..] == a[1..] + b;
      WellEscapedConcat(a[1..], b);
    } else {
      assert (a + b)[2..] == a[2..] + b;
      WellEscapedConcat(a[2..], b);
    }
  }

  lemma {:induction false} DoubleShape(line: string)
    ensures WellEscaped(Double(line)) && Percents(Double(line)) == Percents(line)
    decreases |line|
  {
    if line != "" {
      var rest := Double(line[1..]);
      DoubleShape(line[1..]);
      if line[0] == '\\' {
        assert ("\\\\" + rest)[2..] == rest;
        PercentsConcat("\\\\", rest);
        assert "\\\\"[1..] == "\\" && "\\"[1..] == "";
      } else {
        assert ([line[0]] + rest)[1..] == rest;
      }
    }
  }

  lemma NewlineShape(s: string)
    ensures WellEscaped(s) ==> WellEscaped(NEWLINE + s)
    ensures Percents(NEWLINE + s) == Percents(s) && Percents("\n" + s) == Percents(s)
  {
    assert (NEWLINE + s)[2..] == s;
    assert (NEWLINE + s)[1..] == "n" + s && ("n" + s)[1..] == s;
    assert ("\n" + s)[1..] == s;
  }

  lemma {:induction false} FormatShape(lines: seq<string>)
    ensures WellEscaped(FormatWord(lines))
    ensures Percents(FormatWord(lines)) == Percents(ScriptText(lines))
    decreases |lines|
  {
    if lines != [] {
      var rest := FormatWord(lines[1..]);
      FormatShape(lines[1..]);
      DoubleShape(lines[0]);
      NewlineShape(rest);
      NewlineShape(ScriptText(lines[1..]));
      WellEscapedConcat(Double(lines[0]), NEWLINE + rest);
      PercentsConcat(Double(lines[0]), NEWLINE + rest);
      PercentsConcat(lines[0], "\n" + ScriptText(lines[1..]));
    }
  }

  // printf loses at least one of the % signs it is given.
  lemma {:induction false} PrintfLoses(f: string, conv: Conversion)
    requires WellEscaped(f) && Plausible(conv)
    ensures Percents(Printf(f, conv)) <= Percents(f)
    ensures Percents(f) > 0 ==> Percents(Printf(f, conv)) < Percents(f)
    decreases |f|
  {
    if f == "" {
    } else if f[0] == '\\' {
      PrintfLoses(f[2..], conv);
      PrintfStep(f, conv);
    } else if f[0] != '%' {
      PrintfLoses(f[1..], conv);
      PrintfStep(f, conv);
    } else if |f| > 1 && f[1] == '%' {
      PrintfLoses(f[2..], conv);
      PrintfStep(f, conv);
    } else if conv(f[1..]).Some? {
      var s := f[1..];
      var (n, out) := conv(s).value;
      assert s == s[..n] + s[n..] && s[n..] == f[1 + n..];
      PercentsConcat(s[..n], s[n..]);
      PrintfLoses(s[n..], conv);
      PercentsConcat(out, Printf(s[n..], conv));
    }
  }

  lemma PrintfStep(f: string, conv: Conversion)
    requires f != "" && WellEscaped(f)
    ensures f[0] == '\\' ==> Percents(Printf(f, conv)) == Percents(Printf(f[2..], conv)) && Percents(f) == Percents(f[2..])
    ensures f[0] != '\\' && f[0] != '%' ==>
      Percents(Printf(f, conv)) == Percents(Printf(f[1..], conv)) && Percents(f) == Percents(f[1..])
    ensures f[0] == '%' && |f| > 1 && f[1] == '%' ==>
      Percents(Printf(f, conv)) == 1 + Percents(Printf(f[2..], conv)) && Percents(f) == 2 + Percents(f[2..])
  {
    if |f| > 1 {
      assert f[1..][1..] == f[2..];
      var p := Printf(f[2..], conv);
      assert ("\\" + p)[1..] == p && ("\n" + p)[1..] == p && ("%" + p)[1..] == p;
    }
    assert ([f[0]] + Printf(f[1..], conv))[1..] == Printf(f[1..], conv);
  }

  lemma {:induction false} PrintfDouble(line: string, f: string, conv: Conversion)
    requires '%' !in line
    ensures Printf(Double(line) + f, conv) == line + Printf(f, conv)
    decreases |line|
  {
    if line == "" {
      assert Double(line) + f == f && line + Printf(f, conv) == Printf(f, conv);
    } else {
      var head, tail := HeadTail(line);
      assert line[1..] == tail;
      PrintfDouble(tail, f, conv);
      var rest := Double(tail) + f;
      Assoc([head], tail, Printf(f, conv));
      if head == '\\' {
        Assoc("\\\\", Double(tail), f);
        assert ("\\\\" + rest)[2..] == rest;
      } else {
        Assoc([head], Double(tail), f);
        assert ([head] + rest)[1..] == rest;
      }
    }
  }

  lemma {:induction false} PrintfFormat(lines: seq<string>, conv: Conversion)
    requires forall line | line in lines :: '%' !in line
    ensures Printf(FormatWord(lines), conv) == ScriptText(lines)
    decreases |lines|
  {
    if lines != [] {
      var rest := FormatWord(lines[1..]);
      assert lines[0] in lines;
      PrintfFormat(lines[1..], conv);
      PrintfDouble(lines[0], NEWLINE + rest, conv);
      assert (NEWLINE + rest)[2..] == rest;
    }
  }

  lemma {:induction false} TextHasPercent(lines: seq<string>)
    ensures '%' in ScriptText(lines) <==> exists line :: line in lines && '%' in line
    decreases |lines|
  {
    if lines != [] {
      TextHasPercent(lines[1..]);
      assert lines == [lines[0]] + lines[1..];
    }
  }

  // What printf prints is the script text exactly when no script line has a % sign.
  lemma PrintfUndoes(lines: seq<string>, conv: Conversion)
    requires Plausible(conv)
    ensures Printf(FormatWord(lines), conv) == ScriptText(lines) <==> forall line | line in lines :: '%' !in line
  {
    if forall line | line in lines :: '%' !in line {
      PrintfFormat(lines, conv);
    } else {
      FormatShape(lines);
      PrintfLoses(FormatWord(lines), conv);
      TextHasPercent(lines);
      PercentsZero(ScriptText(lines));
    }
  }

  // ---------------------------------------------------------------- reading lines off stdin

  predicate IsLineFeed(c: char) { c == '\n' }

  // The lines sqlite3's shell reads, one for each line feed.
  function ReadLines(text: string): seq<string>
    decreases |text|
  {
    var k := SpanNot(text, IsLineFeed);
    if k == |text| then (if text == "" then [] else [text]) else [text[..k]] + ReadLines(text[k + 1..])
  }

  lemma ReadFirstLine(line: string, rest: string)
    requires No(line, IsLineFeed)
    ensures ReadLines(line + ("\n" + rest)) == [line] + ReadLines(rest)
  {
    var s := line + ("\n" + rest);
    SpanNotIs(line, "\n" + rest, IsLineFeed);
    assert s[..|line|] == line && s[|line| + 1..] == rest;
  }

  lemma {:induction false} ReadLinesHaveNoFeed(text: string)
    ensures forall line | line in ReadLines(text) :: No(line, IsLineFeed)
    decreases |text|
  {
    var k := SpanNot(text, IsLineFeed);
    SpanNotShape(text, IsLineFeed);
    if k < |text| {
      ReadLinesHaveNoFeed(text[k + 1..]);
    }
  }

  lemma {:induction false} ReadScriptText(lines: seq<string>)
    requires forall line | line in lines :: No(line, IsLineFeed)
    ensures ReadLines(ScriptText(lines)) == lines
    decreases |lines|
  {
    if lines != [] {
      assert lines[0] in lines;
      ReadFirstLine(lines[0], ScriptText(lines[1..]));
      ReadScriptText(lines[1..]);
      assert lines == [lines[0]] + lines[1..];
    }
  }

  // The script is read line by line exactly when no line holds a line feed.
  lemma ReadLinesUndoes(lines: seq<string>)
    ensures ReadLines(ScriptText(lines)) == lines <==> forall line | line in lines :: No(line, IsLineFeed)
  {
    if forall line | line in lines :: No(line, IsLineFeed) {
      ReadScriptText(lines);
    } else {
      ReadLinesHaveNoFeed(ScriptText(lines));
    }
  }

  // ---------------------------------------------------------------- layer three: the SQL literal

  // '...' with '' for a quote; the value and what follows the closing quote.
  function LiteralBody(s: string): Option<(string, string)>
    decreases |s|
  {
    if s == "" then None
    else if s[0] != '\'' then
      var rest :- LiteralBody(s[1..]);
      Some(([s[0]] + rest.0, rest.1))
    else if |s| > 1 && s[1] == '\'' then
      var rest :- LiteralBody(s[2..]);
      Some((['\''] + rest.0, rest.1))
    else Some(("", s[1..]))
  }

  function ParseLiteral(s: string): Option<(string, string)> {
    if s == "" || s[0] != '\'' then None else LiteralBody(s[1..])
  }

  function DoubleQuotes(s: string): string { Replace(s, '\'', "''") }

  lemma {:induction false} LiteralUndoes(s: string, rest: string)
    requires rest == "" || rest[0] != '\''
    ensures LiteralBody(DoubleQuotes(s) + ("'" + rest)) == Some((s, rest))
    decreases |s|
  {
    if s == "" {
      assert DoubleQuotes(s) + ("'" + rest) == "'" + rest;
      assert ("'" + rest)[1..] == rest;
    } else {
      var head, tail := HeadTail(s);
      assert s[1..] == tail;
      var t := DoubleQuotes(tail) + ("'" + rest);
      LiteralUndoes(tail, rest);
      if head == '\'' {
        Assoc("''", DoubleQuotes(tail), "'" + rest);
        assert ("''" + t)[2..] == t;
      } else {
        Assoc([head], DoubleQuotes(tail), "'" + rest);
        assert ([head] + t)[1..] == t;
      }
    }
  }

  lemma {:induction false} NoQuotesToDouble(s: string)
    requires '\'' !in s
    ensures DoubleQuotes(s) == s
    decreases |s|
  {
    if s != "" {
      NoQuotesToDouble(s[1..]);
      assert s == [s[0]] + s[1..];
    }
  }

  lemma SafeHasNoQuote(s: string)
    requires SafeToken(s)
    ensures '\'' !in s
  {
    if !All(s, IsSafe) {
      var init := s[..|s| - 1];
      assert forall i | 0 <= i < |init| :: IsSafe(init[i]) && init[i] == s[i];
    }
  }

  // Both branches of the quoting function write the same literal.
  lemma BranchesAgree(s: string)
    ensures SqliteQuote(TextValue(s)) == "'" + (DoubleQuotes(s) + "'")
  {
    if SafeToken(s) {
      SafeHasNoQuote(s);
      NoQuotesToDouble(s);
    }
  }

  // Reading the literal gives the text back, whatever characters it holds.
  lemma QuoteUndone(s: string, rest: string)
    requires rest == "" || rest[0] != '\''
    ensures ParseLiteral(SqliteQuote(TextValue(s)) + rest) == Some((s, rest))
  {
    BranchesAgree(s);
    Assoc(DoubleQuotes(s), "'", rest);
    Assoc("'", DoubleQuotes(s) + "'", rest);
    assert ("'" + (DoubleQuotes(s) + ("'" + rest)))[1..] == DoubleQuotes(s) + ("'" + rest);
    LiteralUndoes(s, rest);
  }

  // ---------------------------------------------------------------- all three

  // From the quoted word of the command to the lines sqlite3 executes.
  function Received(word: string, conv: Conversion): Option<seq<string>> {
    var parsed :- ShellWord(word, false);
    Some(ReadLines(Printf(parsed.0, conv)))
  }

  lemma PayloadParses(lines: seq<string>, rest: string)
    requires lines != [] && (rest == "" || rest[0] == ' ')
    ensures ShellWord("'" + (Payload(lines) + ("'" + rest)), false) == Some((FormatWord(lines), rest))
  {
    PayloadQuotes(lines);
    ClosedQuote(Payload(lines) + ("'" + rest));
    ShellUndoes(FormatWord(lines), rest);
  }

  function PercentsIn(lines: seq<string>): nat
    decreases |lines|
  {
    if lines == [] then 0 else Percents(lines[0]) + PercentsIn(lines[1..])
  }

  lemma {:induction false} ReadLinesKeepsPercents(text: string)
    ensures PercentsIn(ReadLines(text)) == Percents(text)
    decreases |text|
  {
    var k := SpanNot(text, IsLineFeed);
    SpanNotShape(text, IsLineFeed);
    if k == |text| {
      assert text == "" ==> Percents(text) == 0;
      assert text != "" ==> ReadLines(text)[1..] == [];
    } else {
      var line, rest := text[..k], text[k + 1..];
      ReadLinesKeepsPercents(rest);
      assert text == line + ("\n" + rest) && ("\n" + rest)[1..] == rest;
      PercentsConcat(line, "\n" + rest);
      assert ([line] + ReadLines(rest))[1..] == ReadLines(rest);
    }
  }

  lemma {:induction false} TextKeepsPercents(lines: seq<string>)
    ensures PercentsIn(lines) == Percents(ScriptText(lines))
    decreases |lines|
  {
    if lines != [] {
      TextKeepsPercents(lines[1..]);
      NewlineShape(ScriptText(lines[1..]));
      PercentsConcat(lines[0], "\n" + ScriptText(lines[1..]));
    }
  }

  // What sqlite3 reads is the script, line by line, exactly when no script line has a
  // % sign or a line feed in it.
  lemma ScriptArrives(lines: seq<string>, rest: string, conv: Conversion)
    requires lines != [] && (rest == "" || rest[0] == ' ') && Plausible(conv)
    ensures Received("'" + (Payload(lines) + ("'" + rest)), conv) == Some(lines)
       <==> forall line | line in lines :: '%' !in line && No(line, IsLineFeed)
  {
    var printed := Printf(FormatWord(lines), conv);
    PayloadParses(lines, rest);
    if forall line | line in lines :: '%' !in line && No(line, IsLineFeed) {
      PrintfUndoes(lines, conv);
      ReadLinesUndoes(lines);
    } else if ReadLines(printed) == lines {
      ReadLinesHaveNoFeed(printed);
      ReadLinesKeepsPercents(printed);
      FormatShape(lines);
      PrintfLoses(FormatWord(lines), conv);
      TextKeepsPercents(lines);
      PercentsZero(ScriptText(lines));
      TextHasPercent(lines);
    }
  }

  lemma {:induction false} ReplaceKeeps(s: string, c: char, t: string, d: char)
    requires d in s && d != c
    ensures d in Replace(s, c, t)
    decreases |s|
  {
    if s[0] != d {
      assert d in s[1..];
      ReplaceKeeps(s[1..], c, t, d);
    }
  }

  lemma LineHas(sql: string, params: seq<(string, Value)>, i: nat, c: char) returns (line: string)
    requires i < |params| && params[i].1.TextValue? && c in params[i].1.s && c != '\''
    ensures line in ScriptLines(sql, params) && c in line
  {
    var s := params[i].1.s;
    line := ParameterLine(params[i].0, params[i].1);
    BranchesAgree(s);
    ReplaceKeeps(s, '\'', "''", c);
    assert c in SqliteQuote(params[i].1);
    assert line == ScriptLines(sql, params)[2 + i];
  }

  lemma FeedInLine(line: string)
    requires '\n' in line
    ensures !No(line, IsLineFeed)
  {
    var k :| 0 <= k < |line| && line[k] == '\n';
    assert IsLineFeed(line[k]);
  }

  // So a text parameter with a % sign in it spoils the script, whatever printf does
  // with the sign.
  lemma PercentIsLost(sql: string, params: seq<(string, Value)>, i: nat, rest: string, conv: Conversion)
    requires i < |params| && params[i].1.TextValue? && '%' in params[i].1.s
    requires (rest == "" || rest[0] == ' ') && Plausible(conv)
    ensures var lines := ScriptLines(sql, params);
            Received("'" + (Payload(lines) + ("'" + rest)), conv) != Some(lines)
  {
    var lines := ScriptLines(sql, params);
    var line := LineHas(sql, params, i, '%');
    ScriptArrives(lines, rest, conv);
  }

  const FIFTY: seq<(string, Value)> := [("pid", TextValue("50%"))]

  // A plan id such as 50%.
  lemma PlanIdIsLost(sql: string, rest: string, conv: Conversion)
    requires (rest == "" || rest[0] == ' ') && Plausible(conv)
    ensures var lines := ScriptLines(sql, FIFTY);
            Received("'" + (Payload(lines) + ("'" + rest)), conv) != Some(lines)
  {
    assert "50%"[2] == '%';
    PercentIsLost(sql, FIFTY, 0, rest, conv);
  }

  // A text parameter with a line feed in it spoils the script too.
  lemma FeedIsLost(sql: string, params: seq<(string, Value)>, i: nat, rest: string, conv: Conversion)
    requires i < |params| && params[i].1.TextValue? && '\n' in params[i].1.s
    requires (rest == "" || rest[0] == ' ') && Plausible(conv)
    ensures var lines := ScriptLines(sql, params);
            Received("'" + (Payload(lines) + ("'" + rest)), conv) != Some(lines)
  {
    var lines := ScriptLines(sql, params);
    var line := LineHas(sql, params, i, '\n');
    FeedInLine(line);
    ScriptArrives(lines, rest, conv);
  }

  const TWO_LINES: seq<(string, Value)> := [("pid", TextValue("a\nb"))]
  const CUT_LINE := ".parameter set :pid 'a"

  lemma TwoLinesLine()
    ensures ParameterLine("pid", TextValue("a\nb")) == CUT_LINE + ("\n" + "b'")
  {
    var s := "a\nb";
    NoQuotesToDouble(s);
    BranchesAgree(s);
    assert s == "a" + ("\n" + "b");
    assert ParameterLine("pid", TextValue(s)) == CUT_LINE + ("\n" + "b'");
  }

  lemma TwoLinesText(sql: string)
    ensures ScriptLines(sql, TWO_LINES) == [".mode json", ".headers on", CUT_LINE + ("\n" + "b'"), Statement(sql)]
  {
    TwoLinesLine();
  }

  lemma CutText(a: string, b: string, c: string, d: string, e: string)
    ensures ScriptText([a, b, c + ("\n" + d), e]) == ScriptText([a, b, c, d, e])
  {
    TextFirst(c + ("\n" + d), [e]);
    TextFirst(d, [e]);
    TextFirst(c, [d] + [e]);
    TextFirst(b, [c + ("\n" + d)] + [e]);
    TextFirst(b, [c] + ([d] + [e]));
    TextFirst(a, [b] + ([c + ("\n" + d)] + [e]));
    TextFirst(a, [b] + ([c] + ([d] + [e])));
    Regroup(c, "\n", d, "\n" + ScriptText([e]));
    assert [a, b, c + ("\n" + d), e] == [a] + ([b] + ([c + ("\n" + d)] + [e]));
    assert [a, b, c, d, e] == [a] + ([b] + ([c] + ([d] + [e])));
  }

  lemma TextFirst(line: string, rest: seq<string>)
    ensures ScriptText([line] + rest) == line + ("\n" + ScriptText(rest))
  {
    assert ([line] + rest)[1..] == rest;
  }

  // A plan id of two lines: sqlite3 reads the second one as a line of its own.
  lemma PlanIdAddsALine(sql: string, rest: string, conv: Conversion)
    requires '%' !in sql && No(sql, IsLineFeed)
    requires (rest == "" || rest[0] == ' ') && Plausible(conv)
    ensures Received("'" + (Payload(ScriptLines(sql, TWO_LINES)) + ("'" + rest)), conv)
         == Some([".mode json", ".headers on", CUT_LINE, "b'", Statement(sql)])
  {
    var lines := ScriptLines(sql, TWO_LINES);
    var cut := [".mode json", ".headers on", CUT_LINE, "b'", Statement(sql)];
    StatementIsPlain(sql);
    LinesArePlain(Statement(sql));
    TwoLinesText(sql);
    CutText(".mode json", ".headers on", CUT_LINE, "b'", Statement(sql));
    PayloadParses(lines, rest);
    PrintfUndoes(lines, conv);
    ReadLinesUndoes(cut);
  }

  lemma StatementIsPlain(sql: string)
    requires '%' !in sql && No(sql, IsLineFeed)
    ensures '%' !in Statement(sql) && No(Statement(sql), IsLineFeed)
  {
    var t := RStrip(sql);
    var n := Trunk(t, IsSemicolon);
    assert t[..n] == sql[..n];
    NoPart(sql, 0, n, IsLineFeed);
    NoAppend(t[..n], ";", IsLineFeed);
  }

  lemma LinesArePlain(statement: string)
    requires '%' !in statement && No(statement, IsLineFeed)
    ensures forall line | line in [".mode json", ".headers on", CUT_LINE + ("\n" + "b'"), statement] :: '%' !in line
    ensures forall line | line in [".mode json", ".headers on", CUT_LINE, "b'", statement] :: No(line, IsLineFeed)
  {
    CutIsPlain();
  }

  lemma CutIsPlain()
    ensures '%' !in CUT_LINE && '%' !in CUT_LINE + ("\n" + "b'") && '%' !in ".mode json" && '%' !in ".headers on"
    ensures No(".mode json", IsLineFeed) && No(".headers on", IsLineFeed) && No(CUT_LINE, IsLineFeed) && No("b'", IsLineFeed)
  {
  }

  // There is such a printf: one that stops at every conversion.
  lemma StoppingIsPlausible()
    ensures Plausible(s => None)
  {
  }

  // The text that the SQL literal of a parameter line denotes.
  function BoundValue(line: string, key: string): Option<string> {
    var prefix := PARAMETER + (key + " ");
    if !StartsWith(line, prefix) then None
    else
      var literal :- ParseLiteral(line[|prefix|..]);
      if literal.1 == "" then Some(literal.0) else None
  }

  lemma BoundValueIs(key: string, s: string)
    ensures BoundValue(ParameterLine(key, TextValue(s)), key) == Some(s)
  {
    var prefix, quoted := PARAMETER + (key + " "), SqliteQuote(TextValue(s));
    Regroup(PARAMETER, key, " ", quoted);
    assert ParameterLine(key, TextValue(s)) == prefix + quoted;
    assert (prefix + quoted)[|prefix|..] == quoted;
    QuoteUndone(s, "");
    assert quoted + "" == quoted;
  }

  // A text parameter: if the script arrives, the literal of the line at its place denotes
  // the original value.
  lemma ParameterArrives(sql: string, params: seq<(string, Value)>, i: nat, rest: string, conv: Conversion)
    requires i < |params| && params[i].1.TextValue?
    requires (rest == "" || rest[0] == ' ') && Plausible(conv)
    requires forall line | line in ScriptLines(sql, params) :: '%' !in line && No(line, IsLineFeed)
    ensures var received := Received("'" + (Payload(ScriptLines(sql, params)) + ("'" + rest)), conv);
            && received == Some(ScriptLines(sql, params))
            && |received.value| == |params| + 3
            && BoundValue(received.value[2 + i], params[i].0) == Some(params[i].1.s)
  {
    ScriptArrives(ScriptLines(sql, params), rest, conv);
    BoundValueIs(params[i].0, params[i].1.s);
  }

  // ---------------------------------------------------------------- the query arrives

  // A query as it may be written: the statement, semicolons behind it, blanks behind those.
  predicate Ended(body: string, semis: string, blanks: string) {
    && All(semis, IsSemicolon) && All(blanks, IsSpace)
    && (body == "" || (body[|body| - 1] != ';' && (semis == "" ==> !IsSpace(body[|body| - 1]))))
  }

  lemma StatementIs(body: string, semis: string, blanks: string)
    requires Ended(body, semis, blanks)
    ensures Statement(body + (semis + blanks)) == body + ";"
  {
    var s := body + semis;
    Assoc(body, semis, blanks);
    assert s == "" || !IsSpace(s[|s| - 1]) by {
      if semis != "" {
        assert s[|s| - 1] == semis[|semis| - 1] && IsSemicolon(semis[|semis| - 1]);
      } else {
        assert s == body;
      }
    }
    TrunkIs(s, blanks, IsSpace);
    assert (s + blanks)[..|s|] == s;
    TrunkIs(body, semis, IsSemicolon);
    assert s[..|body|] == body;
  }

  // A decimal number with or without a minus sign.
  function ReadInteger(s: string): Option<int> {
    if s != "" && s[0] == '-' && |s| > 1 && All(s[1..], IsDigit) then Some(-(ParseNat(s[1..]) as int))
    else if s != "" && All(s, IsDigit) then Some(ParseNat(s))
    else None
  }

  // What a literal stands for in SQL.
  ghost predicate Denotes(literal: string, v: Value) {
    match v
    case BoolValue(b) => literal == if b then "1" else "0"
    case IntValue(n) => ReadInteger(literal) == Some(n)
    case FloatValue(repr) => literal == repr
    case TextValue(s) => ParseLiteral(literal) == Some((s, ""))
  }

  lemma QuoteDenotes(v: Value)
    ensures Denotes(SqliteQuote(v), v)
  {
    match v
    case IntValue(n) => IntegerReads(n);
    case TextValue(s) =>
      QuoteUndone(s, "");
      assert SqliteQuote(v) + "" == SqliteQuote(v);
    case BoolValue(_) =>
    case FloatValue(_) =>
  }

  lemma IntegerReads(n: int)
    ensures ReadInteger(IntString(n)) == Some(n)
  {
    if n < 0 {
      assert ("-" + NatString(-n))[1..] == NatString(-n);
    } else {
      assert IsDigit(NatString(n)[0]);
    }
  }

  ghost predicate PlainText(s: string) { '%' !in s && '\n' !in s }

  ghost predicate PlainValue(v: Value) {
    match v
    case TextValue(s) => PlainText(s)
    case FloatValue(repr) => PlainText(repr)
    case _ => true
  }

  ghost predicate PlainParams(params: seq<(string, Value)>) {
    forall i | 0 <= i < |params| :: PlainText(params[i].0) && PlainValue(params[i].1)
  }

  lemma {:induction false} ReplaceAvoids(s: string, c: char, t: string, d: char)
    requires d !in s && d !in t
    ensures d !in Replace(s, c, t)
    decreases |s|
  {
    if s != "" {
      ReplaceAvoids(s[1..], c, t, d);
    }
  }

  lemma QuoteIsPlain(v: Value)
    requires PlainValue(v)
    ensures PlainText(SqliteQuote(v))
  {
    match v
    case IntValue(n) =>
      var digits := NatString(if n < 0 then -n else n);
      assert forall i | 0 <= i < |digits| :: IsDigit(digits[i]);
    case TextValue(s) =>
      BranchesAgree(s);
      ReplaceAvoids(s, '\'', "''", '%');
      ReplaceAvoids(s, '\'', "''", '\n');
    case BoolValue(_) =>
    case FloatValue(_) =>
  }

  lemma PlainIsFedless(s: string)
    requires PlainText(s)
    ensures '%' !in s && No(s, IsLineFeed)
  {
    forall i | 0 <= i < |s|
      ensures !IsLineFeed(s[i])
    {
      assert s[i] in s;
    }
  }

  lemma ParameterIsPlain(key: string, v: Value)
    requires PlainText(key) && PlainValue(v)
    ensures PlainText(ParameterLine(key, v))
  {
    QuoteIsPlain(v);
    PrefixIsPlain();
  }

  lemma PrefixIsPlain()
    ensures PlainText(PARAMETER) && PlainText(".mode json") && PlainText(".headers on")
  {
  }

  // The line that sets a parameter: the dot command, the key, a literal.
  ghost predicate Sets(line: string, key: string, v: Value) {
    exists literal :: line == ".parameter set :" + (key + (" " + literal)) && Denotes(literal, v)
  }

  lemma ParameterSets(key: string, v: Value)
    ensures Sets(ParameterLine(key, v), key, v)
  {
    QuoteDenotes(v);
    assert PARAMETER == ".parameter set :";
  }

  lemma Framed<T>(a: T, b: T, inner: seq<T>, e: T)
    ensures var s := [a, b] + inner + [e];
            && |s| == |inner| + 3 && s[0] == a && s[1] == b && s[|inner| + 2] == e
            && (forall i | 0 <= i < |inner| :: s[2 + i] == inner[i])
            && (forall x | x in s :: x == a || x == b || x == e || x in inner)
  {
  }

  lemma ParametersArePlain(params: seq<(string, Value)>)
    requires PlainParams(params)
    ensures |ParameterLines(params)| == |params|
    ensures forall line | line in ParameterLines(params) :: PlainText(line)
    ensures forall i | 0 <= i < |params| :: Sets(ParameterLines(params)[i], params[i].0, params[i].1)
  {
    forall i | 0 <= i < |params|
      ensures PlainText(ParameterLines(params)[i]) && Sets(ParameterLines(params)[i], params[i].0, params[i].1)
    {
      ParameterIsPlain(params[i].0, params[i].1);
      ParameterSets(params[i].0, params[i].1);
    }
  }

  // The script as sqlite3 should read it: the two mode commands, one command for each
  // parameter, in order, whose literal denotes its value, and the statement.
  ghost predicate IsScript(lines: seq<string>, params: seq<(string, Value)>, statement: string) {
    && |lines| == |params| + 3 && lines[0] == ".mode json" && lines[1] == ".headers on"
    && (forall i | 0 <= i < |params| :: Sets(lines[2 + i], params[i].0, params[i].1))
    && lines[|params| + 2] == statement
  }

  lemma ScriptIs(sql: string, params: seq<(string, Value)>)
    requires PlainText(Statement(sql)) && PlainParams(params)
    ensures IsScript(ScriptLines(sql, params), params, Statement(sql))
    ensures forall line | line in ScriptLines(sql, params) :: '%' !in line && No(line, IsLineFeed)
  {
    Framed(".mode json", ".headers on", ParameterLines(params), Statement(sql));
    ParametersArePlain(params);
    PrefixIsPlain();
    forall line | line in ScriptLines(sql, params)
      ensures '%' !in line && No(line, IsLineFeed)
    {
      assert PlainText(line);
      PlainIsFedless(line);
    }
  }

  // End to end, for a query and parameters without % signs and line feeds: that script is
  // what sqlite3 reads, with the statement closed by exactly one semicolon.
  lemma QueryArrives(
    body: string, semis: string, blanks: string, params: seq<(string, Value)>, rest: string, conv: Conversion)
    requires Ended(body, semis, blanks) && PlainText(body) && PlainParams(params)
    requires (rest == "" || rest[0] == ' ') && Plausible(conv)
    ensures var received := Received("'" + (Payload(ScriptLines(body + (semis + blanks), params)) + ("'" + rest)), conv);
            received.Some? && IsScript(received.value, params, body + ";")
  {
    var sql := body + (semis + blanks);
    StatementIs(body, semis, blanks);
    ScriptIs(sql, params);
    ScriptArrives(ScriptLines(sql, params), rest, conv);
  }
}
