// The /proc/mdstat parser: its regular expressions as explicit recognisers, the
// records as a line-by-line function of the text, and the two-index loop that
// computes them.
module Mdstat {
  import opened Wrappers
  import opened Seqs
  import opened Text

  // ---------------------------------------------------------------- the header line

  // md<digits>, a colon, and at least three words behind it: the state, the next
  // word (the level, if the array prints one there) and the start of the member list.
  datatype HeaderLine = HeaderLine(device: string, words: seq<string>)
  type Header = h: HeaderLine | |h.words| >= 3 witness HeaderLine("md0", ["active", "raid1", "sda1[0]"])

  // On a stripped line.
  function MatchHeader(line: string): Option<Header> {
    if !StartsWith(line, "md") then None
    else
      var n := Span(line[2..], IsDigit);
      var rest := LStrip(line[2 + n..]);
      if n == 0 || rest == "" || rest[0] != ':' then None
      else
        var words := Words(rest[1..]);
        if |words| < 3 then None else Some(HeaderLine(line[..2 + n], words))
  }

  // ---------------------------------------------------------------- members

  datatype Member = Member(disk: string, index: nat, flag: Option<char>)

  predicate IsFlag(c: char) { c in "FSR" }

  // [digits], and what follows it.
  function IndexAt(s: string): Option<(nat, string)> {
    if s == "" || s[0] != '[' then None
    else
      var t := s[1..];
      var n := Span(t, IsDigit);
      if n == 0 || n == |t| || t[n] != ']' then None else DigitsThen(t, n)
  }

  function DigitsThen(t: string, n: nat): Option<(nat, string)>
    requires n == Span(t, IsDigit) < |t|
  {
    SpanShape(t, IsDigit);
    Some((ParseNat(t[..n]), t[n + 1..]))
  }

  function FlagAt(s: string): Option<char> {
    if |s| >= 3 && s[0] == '(' && IsFlag(s[1]) && s[2] == ')' then Some(s[1]) else None
  }

  // The disk name is taken as short as possible, but not empty.
  function SearchMember(disk: string, s: string): Option<Member>
    decreases |s|
  {
    var found := IndexAt(s);
    if disk != "" && found.Some? then Some(Member(disk, found.value.0, FlagAt(found.value.1)))
    else if s == "" then None
    else SearchMember(disk + [s[0]], s[1..])
  }

  function MatchMember(token: string): Option<Member> { SearchMember("", token) }

  function ParseMembers(tokens: seq<string>): seq<Member>
    decreases |tokens|
  {
    if tokens == [] then []
    else
      var m := MatchMember(tokens[0]);
      (if m.Some? then [m.value] else []) + ParseMembers(tokens[1..])
  }

  // The level is the third word if that starts with raid, else the second.
  function LevelAndTokens(header: Header): (string, seq<string>) {
    var tokens := header.words[2..];
    if StartsWith(tokens[0], "raid") then (tokens[0], tokens[1..]) else (header.words[1], tokens)
  }

  // ---------------------------------------------------------------- the [UU_U] field

  predicate IsUpDown(c: char) { c == 'U' || c == '_' }

  function StatusAt(s: string): Option<string> {
    if s == "" || s[0] != '[' then None
    else
      var t := s[1..];
      var n := Span(t, IsUpDown);
      if n == 0 || n == |t| || t[n] != ']' then None else Some(t[..n])
  }

  // The leftmost match in the line.
  function SearchStatus(s: string): Option<string>
    decreases |s|
  {
    if StatusAt(s).Some? then StatusAt(s) else if s == "" then None else SearchStatus(s[1..])
  }

  // ---------------------------------------------------------------- the progress line

  // The texts the groups capture.
  datatype Captures = Captures(pct: string, eta: string, speed: nat)

  predicate IsBar(c: char) { c == '=' || c == '>' || c == '.' }
  predicate IsDecimal(c: char) { IsDigit(c) || c == '.' }

  // The characters the patterns are about.
  lemma Classes()
    ensures forall c :: IsFlag(c) <==> c == 'F' || c == 'S' || c == 'R'
    ensures forall c :: IsUpDown(c) <==> c == 'U' || c == '_'
    ensures forall c :: IsBar(c) <==> c == '=' || c == '>' || c == '.'
    ensures forall c :: IsDecimal(c) <==> c in "0123456789."
    ensures forall c :: IsDigit(c) <==> c in "0123456789"
    ensures KEYWORDS == ["resync", "recovery", "reshape", "check"]
  {
  }

  function Literal(s: string, lower: string): Option<string> {
    if |lower| <= |s| && Lower(s[..|lower|]) == lower then Some(s[|lower|..]) else None
  }

  // One or more characters that satisfy p, as many as there are.
  function Run1(s: string, p: char -> bool): Option<(string, string)> {
    var n := Span(s, p);
    if n == 0 then None else Some((s[..n], s[n..]))
  }

  function Number(s: string): Option<(nat, string)> {
    var run :- Run1(s, IsDigit);
    SpanShape(s, IsDigit);
    Some((ParseNat(run.0), run.1))
  }

  function Blanks1(s: string): Option<string> {
    var run :- Run1(s, IsSpace);
    Some(run.1)
  }

  const KEYWORDS: seq<string> := ["resync", "recovery", "reshape", "check"]

  function KeywordAt(s: string): Option<string> {
    if Literal(s, "resync").Some? then Literal(s, "resync")
    else if Literal(s, "recovery").Some? then Literal(s, "recovery")
    else if Literal(s, "reshape").Some? then Literal(s, "reshape")
    else Literal(s, "check")
  }

  // [===>...]  keyword = 47.3% (done/total) finish=2156.4min speed=95432K/sec
  function ResyncAt(s: string): Option<Captures> {
    var t0 :- Literal(s, "[");
    var bar :- Run1(t0, IsBar);
    var t1 :- Literal(bar.1, "]");
    var t2 :- Blanks1(t1);
    var t3 :- KeywordAt(t2);
    ProgressAt(t3)
  }

  // = 47.3%
  function ProgressAt(s: string): Option<Captures> {
    var t4 :- Literal(LStrip(s), "=");
    var pct :- Run1(LStrip(t4), IsDecimal);
    var t5 :- Literal(pct.1, "%");
    DoneAt(pct.0, t5)
  }

  // (done/
  function DoneAt(pct: string, s: string): Option<Captures> {
    var t6 :- Blanks1(s);
    var t7 :- Literal(t6, "(");
    var done :- Number(t7);
    var t8 :- Literal(done.1, "/");
    TotalAt(pct, t8)
  }

  // total)
  function TotalAt(pct: string, s: string): Option<Captures> {
    var total :- Number(s);
    var t9 :- Literal(total.1, ")");
    var t10 :- Blanks1(t9);
    FinishAt(pct, t10)
  }

  // finish=2156.4min
  function FinishAt(pct: string, s: string): Option<Captures> {
    var t11 :- Literal(s, "finish=");
    var eta :- Run1(t11, IsDecimal);
    var t12 :- Literal(eta.1, "min");
    SpeedAt(pct, eta.0, t12)
  }

  // speed=95432K/sec
  function SpeedAt(pct: string, eta: string, s: string): Option<Captures> {
    var t13 :- Blanks1(s);
    var t14 :- Literal(t13, "speed=");
    var speed :- Number(t14);
    var _ :- Literal(speed.1, "k/sec");
    Some(Captures(pct, eta, speed.0))
  }

  function SearchResync(s: string): Option<Captures>
    decreases |s|
  {
    if ResyncAt(s).Some? then ResyncAt(s) else if s == "" then None else SearchResync(s[1..])
  }

  predicate IsDot(c: char) { c == '.' }

  // float(s) on digits and dots, exactly; None where it raises.
  function Decimal(s: string): Option<real> {
    var k := SpanNot(s, IsDot);
    if k < |s| then Placed(s[..k] + s[k + 1..], k) else Placed(s, k)
  }

  // The digits of a number, of which so many are in front of the dot.
  function Placed(digits: string, k: nat): Option<real>
    requires k <= |digits|
  {
    if digits == "" || !All(digits, IsDigit) then None else Some(Ratio(ParseNat(digits), |digits| - k))
  }

  // n with so many places behind the dot.
  function Ratio(n: nat, places: nat): real { n as real / Pow10(places) as real }

  function Pow10(n: nat): (r: nat)
    ensures r > 0
  {
    if n == 0 then 1 else 10 * Pow10(n - 1)
  }

  function Minutes(whole: nat, part: string): real
    requires All(part, IsDigit)
  {
    whole as real + Ratio(ParseNat(part), |part|)
  }

  lemma {:induction false} ParseAppended(a: string, b: string)
    requires All(a, IsDigit) && All(b, IsDigit)
    ensures All(a + b, IsDigit) && ParseNat(a + b) == ParseNat(a) * Pow10(|b|) + ParseNat(b)
    decreases |b|
  {
    if b == "" {
      assert a + b == a;
    } else {
      var front, last := b[..|b| - 1], b[|b| - 1];
      ParseAppended(a, front);
      assert (a + b)[..|a + b| - 1] == a + front && (a + b)[|a + b| - 1] == last;
      Shifted(ParseNat(a), Pow10(|front|), ParseNat(front), DigitValue(last));
    }
  }

  lemma Shifted(a: nat, p: nat, f: nat, d: nat)
    ensures 10 * (a * p + f) + d == a * (10 * p) + (10 * f + d)
  {
  }

  lemma DigitsHaveNoDot(a: string)
    requires All(a, IsDigit)
    ensures No(a, IsDot)
  {
  }

  // A number without a dot is itself.
  lemma WholeIs(a: string)
    requires a != "" && All(a, IsDigit)
    ensures Decimal(a) == Some(ParseNat(a) as real)
  {
    DigitsHaveNoDot(a);
    SpanNotShape(a, IsDot);
    DecimalWhole(a);
    assert Ratio(ParseNat(a), 0) == ParseNat(a) as real;
  }

  lemma DecimalWhole(s: string)
    requires s != "" && All(s, IsDigit) && SpanNot(s, IsDot) == |s|
    ensures Decimal(s) == Some(Ratio(ParseNat(s), 0))
  {
  }

  // One with a dot is the whole and the part behind the dot.
  lemma DecimalIs(a: string, b: string)
    requires a != "" && All(a, IsDigit) && All(b, IsDigit)
    ensures Decimal(a + ("." + b)) == Some(Minutes(ParseNat(a), b))
  {
    RatioSplit(a, b);
    DecimalOf(a, b, a + b);
  }

  lemma RatioSplit(a: string, b: string)
    requires All(a, IsDigit) && All(b, IsDigit)
    ensures All(a + b, IsDigit) && Ratio(ParseNat(a + b), |b|) == Minutes(ParseNat(a), b)
  {
    ParseAppended(a, b);
    Divided(ParseNat(a), ParseNat(b), |b|);
  }

  lemma DecimalOf(a: string, b: string, digits: string)
    requires a != "" && All(a, IsDigit) && digits == a + b && All(digits, IsDigit)
    ensures Decimal(a + ("." + b)) == Some(Ratio(ParseNat(digits), |b|))
  {
    DotCut(a, b);
    SomeDigits(digits, a);
    DecimalAt(a + ("." + b), |a|, digits);
  }

  lemma SomeDigits(digits: string, a: string)
    requires a != "" && a <= digits
    ensures digits != ""
  {
  }

  lemma DotCut(a: string, b: string)
    requires All(a, IsDigit)
    ensures var s := a + ("." + b);
            |a| < |s| && SpanNot(s, IsDot) == |a| && s[..|a|] + s[|a| + 1..] == a + b
  {
    var s := a + ("." + b);
    DigitsHaveNoDot(a);
    SpanNotIs(a, "." + b, IsDot);
    assert s[..|a|] == a && s[|a| + 1..] == b;
  }

  lemma DecimalAt(s: string, k: nat, digits: string)
    requires k < |s| && SpanNot(s, IsDot) == k && digits == s[..k] + s[k + 1..]
    ensures Decimal(s) == Placed(digits, k)
  {
  }

  // One with more dots, or with nothing but a dot, raises.
  lemma DotsRaise(a: string, b: string, c: string)
    requires All(a, IsDigit)
    ensures Decimal(a + ("." + (b + ("." + c)))) == None && Decimal(".") == None
  {
    var rest := b + ("." + c);
    var s := a + ("." + rest);
    DotCut(a, rest);
    assert (a + rest)[|a| + |b|] == '.';
    DecimalAt(s, |a|, a + rest);
    assert "."[..0] + "."[1..] == "";
    DecimalAt(".", 0, "");
  }

  lemma Divided(a: nat, b: nat, places: nat)
    ensures Ratio(a * Pow10(places) + b, places) == a as real + Ratio(b, places)
  {
    DividedBy(a, b, Pow10(places));
  }

  lemma DividedBy(a: nat, b: nat, p: nat)
    requires p > 0
    ensures (a * p + b) as real / p as real == a as real + b as real / p as real
  {
  }

  // finish=N.Fmin is 60 N seconds and those of the part of a minute, rounded down.
  lemma SecondsAre(whole: nat, part: string)
    requires All(part, IsDigit)
    ensures Seconds(Minutes(whole, part)) == 60 * whole + 60 * ParseNat(part) / Pow10(|part|)
  {
    var f, p := ParseNat(part), Pow10(|part|);
    Sixty(whole, f, p);
    FloorOf(60 * f, p);
  }

  lemma Sixty(whole: nat, f: nat, p: nat)
    requires p > 0
    ensures (whole as real + f as real / p as real) * 60.0 == (60 * whole) as real + (60 * f) as real / p as real
  {
  }

  lemma FloorOf(a: nat, p: nat)
    requires p > 0
    ensures (a as real / p as real).Floor == a / p
  {
    var q, r := a / p, a % p;
    assert a as real == q as real * p as real + r as real;
    assert a as real / p as real == q as real + r as real / p as real;
  }

  // The first keyword, in this order, that occurs anywhere in the line.
  function FirstKeyword(lower: string): Option<string> {
    if Contains(lower, "resync") then Some("resync")
    else if Contains(lower, "recovery") then Some("recovery")
    else if Contains(lower, "reshape") then Some("reshape")
    else if Contains(lower, "check") then Some("check")
    else None
  }

  datatype Progress = Progress(pct: real, speedKbps: nat, etaSeconds: int, action: Option<string>)

  // What a progress line says, if the line is one; or a number in it that is none,
  // where the conversion raises.
  datatype Reading = NoProgress | Malformed | Read(progress: Progress)

  // The keyword that counts is the first one, in this order, that the line has anywhere.
  lemma WhenFirstKeyword(lower: string)
    ensures FirstKeyword(lower) == Some("resync") <==> Contains(lower, "resync")
    ensures FirstKeyword(lower) == Some("recovery") <==> !Contains(lower, "resync") && Contains(lower, "recovery")
    ensures FirstKeyword(lower) == Some("reshape")
       <==> !Contains(lower, "resync") && !Contains(lower, "recovery") && Contains(lower, "reshape")
    ensures FirstKeyword(lower) == Some("check")
       <==> !Contains(lower, "resync") && !Contains(lower, "recovery") && !Contains(lower, "reshape") && Contains(lower, "check")
    ensures FirstKeyword(lower).Some? ==> FirstKeyword(lower).value in {"resync", "recovery", "reshape", "check"}
  {
    assert |"resync"| == 6 && |"recovery"| == 8 && |"reshape"| == 7 && |"check"| == 5;
  }

  function ReadCaptures(sub: string, captures: Captures): Reading {
    match (Decimal(captures.pct), Decimal(captures.eta))
    case (Some(pct), Some(eta)) =>
      Read(Progress(pct, captures.speed, Seconds(eta), FirstKeyword(Lower(sub))))
    case _ => Malformed
  }

  function Seconds(minutes: real): int { (minutes * 60.0).Floor }

  // ---------------------------------------------------------------- how one line reads

  function BlankLine(line: string): bool { Strip(line) == "" }

  function HeaderOf(line: string): Option<Header> { MatchHeader(Strip(line)) }

  function StatusOf(line: string): Option<string> { SearchStatus(Strip(line)) }

  function ProgressOf(line: string): Reading {
    match SearchResync(Strip(line))
    case None => NoProgress
    case Some(captures) => ReadCaptures(Strip(line), captures)
  }

  // The loop asks four things of a line; it is right for any way of answering them.
  datatype Readers = Readers(
    blank: string -> bool,
    header: string -> Option<Header>,
    status: string -> Option<string>,
    progress: string -> Reading)

  const MDSTAT := Readers(BlankLine, HeaderOf, StatusOf, ProgressOf)

  // ---------------------------------------------------------------- the records, line by line

  datatype Record = Record(
    device: string, level: string, state: string,
    progress: Option<Progress>, upDown: Option<string>, members: seq<Member>)

  // The lines that end an array's paragraph.
  predicate Stops(g: Readers, line: string) { g.blank(line) || g.header(line).Some? }

  // The first line from j on that ends a paragraph.
  function ParagraphEnd(g: Readers, lines: seq<string>, j: nat): (end: nat)
    requires j <= |lines|
    ensures j <= end <= |lines|
    decreases |lines| - j
  {
    if j == |lines| || Stops(g, lines[j]) then j else ParagraphEnd(g, lines, j + 1)
  }

  // From the last line of [lo, hi) that matches.
  function LastStatus(g: Readers, lines: seq<string>, lo: nat, hi: nat): Option<string>
    requires lo <= hi <= |lines|
    decreases hi
  {
    if lo == hi then None
    else if g.status(lines[hi - 1]).Some? then g.status(lines[hi - 1])
    else LastStatus(g, lines, lo, hi - 1)
  }

  function LastProgress(g: Readers, lines: seq<string>, lo: nat, hi: nat): Option<Progress>
    requires lo <= hi <= |lines|
    decreases hi
  {
    if lo == hi then None
    else
      match g.progress(lines[hi - 1])
      case Read(p) => Some(p)
      case _ => LastProgress(g, lines, lo, hi - 1)
  }

  function State(word: string, progress: Option<Progress>, upDown: Option<string>): string {
    if progress.Some? then (if progress.value.action == Some("recovery") then "recovering" else "resyncing")
    else if upDown.Some? && '_' in upDown.value then "degraded"
    else if word == "active" then "clean"
    else word
  }

  function MakeRecord(header: Header, progress: Option<Progress>, upDown: Option<string>): Record {
    var (level, tokens) := LevelAndTokens(header);
    Record(header.device, level, State(header.words[0], progress, upDown), progress, upDown, ParseMembers(tokens))
  }

  // The record of the header at line i: its own words, and its paragraph.
  function RecordAt(g: Readers, lines: seq<string>, i: nat): Record
    requires i < |lines| && g.header(lines[i]).Some?
  {
    var end := ParagraphEnd(g, lines, i + 1);
    MakeRecord(g.header(lines[i]).value, LastProgress(g, lines, i + 1, end), LastStatus(g, lines, i + 1, end))
  }

  // One record for each header line, in order; every line is looked at for itself.
  function RecordsFrom(g: Readers, lines: seq<string>, i: nat): seq<Record>
    requires i <= |lines|
    decreases |lines| - i
  {
    if i == |lines| then []
    else (if g.header(lines[i]).Some? then [RecordAt(g, lines, i)] else []) + RecordsFrom(g, lines, i + 1)
  }

  // A line of some array's paragraph raises.
  predicate RaisesIn(g: Readers, lines: seq<string>, lo: nat, hi: nat)
    requires lo <= hi <= |lines|
  {
    exists k | lo <= k < hi :: g.progress(lines[k]) == Malformed
  }

  predicate RaisesFrom(g: Readers, lines: seq<string>, i: nat)
    requires i <= |lines|
    decreases |lines| - i
  {
    && i < |lines|
    && ((g.header(lines[i]).Some? && RaisesIn(g, lines, i + 1, ParagraphEnd(g, lines, i + 1)))
        || RaisesFrom(g, lines, i + 1))
  }

  datatype ParseError = ValueError

  function Parse(g: Readers, lines: seq<string>): Result<seq<Record>, ParseError> {
    if RaisesFrom(g, lines, 0) then Failure(ValueError) else Success(RecordsFrom(g, lines, 0))
  }

  // ---------------------------------------------------------------- the loop

  // Skipping over a paragraph skips no header.
  lemma {:induction false} SkipParagraph(g: Readers, lines: seq<string>, j: nat)
    requires j <= |lines|
    ensures RecordsFrom(g, lines, j) == RecordsFrom(g, lines, ParagraphEnd(g, lines, j))
    ensures RaisesFrom(g, lines, j) == RaisesFrom(g, lines, ParagraphEnd(g, lines, j))
    decreases |lines| - j
  {
    if j < |lines| && !Stops(g, lines[j]) {
      SkipParagraph(g, lines, j + 1);
    }
  }

  lemma NoHeaderStep(g: Readers, lines: seq<string>, i: nat)
    requires i < |lines| && g.header(lines[i]) == None
    ensures RecordsFrom(g, lines, i) == RecordsFrom(g, lines, i + 1)
    ensures RaisesFrom(g, lines, i) == RaisesFrom(g, lines, i + 1)
  {
  }

  lemma HeaderStep(g: Readers, lines: seq<string>, i: nat)
    requires i < |lines| && g.header(lines[i]).Some?
    ensures var end := ParagraphEnd(g, lines, i + 1);
            && RecordsFrom(g, lines, i) == [RecordAt(g, lines, i)] + RecordsFrom(g, lines, end)
            && (RaisesFrom(g, lines, i) <==> RaisesIn(g, lines, i + 1, end) || RaisesFrom(g, lines, end))
  {
    SkipParagraph(g, lines, i + 1);
  }

  method ReadMembers(tokens: seq<string>) returns (members: seq<Member>)
    ensures members == ParseMembers(tokens)
  {
    members := [];
    for k := 0 to |tokens|
      invariant members + ParseMembers(tokens[k..]) == ParseMembers(tokens)
    {
      assert tokens[k..][1..] == tokens[k + 1..];
      var m := MatchMember(tokens[k]);
      if m == None {
        continue;
      }
      members := members + [m.value];
    }
  }

  method ParseLines(g: Readers, lines: seq<string>) returns (r: Result<seq<Record>, ParseError>)
    ensures r == Parse(g, lines)
  {
    var out := [];
    var i := 0;
    while i < |lines|
      invariant 0 <= i <= |lines|
      invariant out + RecordsFrom(g, lines, i) == RecordsFrom(g, lines, 0)
      invariant RaisesFrom(g, lines, 0) == RaisesFrom(g, lines, i)
      decreases |lines| - i
    {
      var m := g.header(lines[i]);
      if m == None {
        NoHeaderStep(g, lines, i);
        i := i + 1;
        continue;
      }
      var (level, tokens) := LevelAndTokens(m.value);
      var members := ReadMembers(tokens);
      var progress: Option<Progress> := None;
      var upDown: Option<string> := None;
      ghost var end := ParagraphEnd(g, lines, i + 1);
      var j := i + 1;
      while j < |lines|
        invariant i + 1 <= j <= end == ParagraphEnd(g, lines, j)
        invariant upDown == LastStatus(g, lines, i + 1, j)
        invariant progress == LastProgress(g, lines, i + 1, j)
        invariant !RaisesIn(g, lines, i + 1, j)
        decreases |lines| - j
      {
        if g.blank(lines[j]) || g.header(lines[j]).Some? {
          break;
        }
        var sm := g.status(lines[j]);
        if sm.Some? {
          upDown := sm;
        }
        match g.progress(lines[j]) {
          case NoProgress =>
          case Malformed =>
            assert RaisesIn(g, lines, i + 1, end);
            HeaderStep(g, lines, i);
            return Failure(ValueError);
          case Read(p) =>
            progress := Some(p);
        }
        j := j + 1;
      }
      HeaderStep(g, lines, i);
      var state := State(m.value.words[0], progress, upDown);
      var record := Record(m.value.device, level, state, progress, upDown, members);
      Assoc(out, [record], RecordsFrom(g, lines, j));
      out := out + [record];
      i := j;
    }
    assert out + [] == out;
    return Success(out);
  }

  method ParseMdstat(text: string) returns (r: Result<seq<Record>, ParseError>)
    ensures r == Parse(MDSTAT, SplitLines(text))
  {
    var lines := SplitLines(text);
    r := ParseLines(MDSTAT, lines);
  }

  // ---------------------------------------------------------------- what the records are

  function Headers(g: Readers, lines: seq<string>): seq<Header>
    decreases |lines|
  {
    if lines == [] then []
    else (if g.header(lines[0]).Some? then [g.header(lines[0]).value] else []) + Headers(g, lines[1..])
  }

  // The record is this header's: its device, level and members, and some state.
  ghost predicate RecordOf(record: Record, header: Header) {
    exists progress, upDown :: record == MakeRecord(header, progress, upDown)
  }

  // One record for each header line, in the order of the lines, each with its own
  // header's device, level and members.
  lemma {:induction false} OneRecordPerHeader(g: Readers, lines: seq<string>, i: nat)
    requires i <= |lines|
    ensures var records, headers := RecordsFrom(g, lines, i), Headers(g, lines[i..]);
            |records| == |headers| && forall k | 0 <= k < |records| :: RecordOf(records[k], headers[k])
    decreases |lines| - i
  {
    if i < |lines| {
      OneRecordPerHeader(g, lines, i + 1);
      assert lines[i..][1..] == lines[i + 1..];
      if g.header(lines[i]).Some? {
        assert RecordOf(RecordAt(g, lines, i), g.header(lines[i]).value);
      }
    }
  }

  // The status of a paragraph is the last one in it that matches.
  lemma {:induction false} LastStatusIsLast(g: Readers, lines: seq<string>, lo: nat, hi: nat)
    requires lo <= hi <= |lines|
    ensures LastStatus(g, lines, lo, hi) == None <==> forall k | lo <= k < hi :: g.status(lines[k]) == None
    ensures LastStatus(g, lines, lo, hi).Some? ==>
      exists k | lo <= k < hi ::
        && g.status(lines[k]) == LastStatus(g, lines, lo, hi)
        && forall later | k < later < hi :: g.status(lines[later]) == None
    decreases hi
  {
    if lo < hi && g.status(lines[hi - 1]) == None {
      LastStatusIsLast(g, lines, lo, hi - 1);
    }
  }

  // And so are the progress fields those of the last line that has any.
  lemma {:induction false} LastProgressIsLast(g: Readers, lines: seq<string>, lo: nat, hi: nat)
    requires lo <= hi <= |lines|
    ensures LastProgress(g, lines, lo, hi) == None <==> forall k | lo <= k < hi :: !g.progress(lines[k]).Read?
    ensures LastProgress(g, lines, lo, hi).Some? ==>
      exists k | lo <= k < hi ::
        && g.progress(lines[k]) == Read(LastProgress(g, lines, lo, hi).value)
        && forall later | k < later < hi :: !g.progress(lines[later]).Read?
    decreases hi
  {
    if lo < hi && !g.progress(lines[hi - 1]).Read? {
      LastProgressIsLast(g, lines, lo, hi - 1);
    }
  }

  // A paragraph holds no blank line and no header, and ends at one or at the end.
  lemma {:induction false} ParagraphIsMaximal(g: Readers, lines: seq<string>, j: nat)
    requires j <= |lines|
    ensures var end := ParagraphEnd(g, lines, j);
            && (forall k | j <= k < end :: !Stops(g, lines[k]))
            && (end < |lines| ==> Stops(g, lines[end]))
    decreases |lines| - j
  {
    if j < |lines| && !Stops(g, lines[j]) {
      ParagraphIsMaximal(g, lines, j + 1);
    }
  }
}
