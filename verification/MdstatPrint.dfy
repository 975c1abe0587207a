// The layout the kernel prints the arrays of /proc/mdstat in, with and without the
// [UU] field and a progress line, and what parsing makes of it: exactly when parsing
// undoes printing.
module MdstatPrint {
  import opened Wrappers
  import opened Seqs
  import opened Text
  import opened Mdstat
  import opened MdstatBlocks

  // keyword: in any case; pad: the blanks in front of the percentage.
  datatype Bar = Bar(bar: string, keyword: string, pad: string, pct: string, done: nat, total: nat, eta: string, speed: nat)

  datatype Array = Array(
    number: nat, readOnly: bool, level: string, members: seq<Member>,
    detail: string, counts: Option<Counts>, progress: Option<Bar>)

  // [4/3] [UU_U]
  datatype Counts = Counts(total: nat, active: nat, upDown: string)

  // An array of the file; an inactive one is printed without a level.
  datatype Printed = Active(a: Array) | Inactive(number: nat, members: seq<Member>, detail: string)

  const READ_ONLY := "(auto-read-only)"

  predicate IsOpen(c: char) { c == '[' }

  predicate Printable(m: Member) {
    IsWord(m.disk) && No(m.disk, IsOpen) && (m.flag.Some? ==> IsFlag(m.flag.value))
  }

  predicate IsBlank(c: char) { c == ' ' }

  predicate PrintableBar(p: Bar) {
    && p.bar != "" && All(p.bar, IsBar)
    && Lower(p.keyword) in KEYWORDS
    && All(p.pad, IsBlank)
    && p.pct != "" && All(p.pct, IsDecimal) && Decimal(p.pct).Some?
    && p.eta != "" && All(p.eta, IsDecimal) && Decimal(p.eta).Some?
  }

  predicate PrintableDetail(s: string) {
    s != "" && IsDigit(s[0]) && No(s, IsOpen) && No(s, IsBreak)
  }

  // For a detail that ends its line.
  predicate EndsPlain(s: string) { s != "" && !IsSpace(s[|s| - 1]) }

  predicate PrintableCounts(c: Counts) { c.upDown != "" && All(c.upDown, IsUpDown) }

  ghost predicate PrintableArray(a: Array) {
    && IsWord(a.level)
    && a.members != [] && (forall m | m in a.members :: Printable(m))
    && PrintableDetail(a.detail)
    && (if a.counts.Some? then PrintableCounts(a.counts.value) else EndsPlain(a.detail))
    && (a.progress.Some? ==> PrintableBar(a.progress.value))
  }

  ghost predicate PrintableInactive(members: seq<Member>, detail: string) {
    members != [] && (forall m | m in members :: Printable(m)) && PrintableDetail(detail) && EndsPlain(detail)
  }

  ghost predicate PrintableOne(p: Printed) {
    match p
    case Active(a) => PrintableArray(a)
    case Inactive(_, members, detail) => PrintableInactive(members, detail)
  }

  // ---------------------------------------------------------------- printing

  function FlagText(flag: Option<char>): string {
    if flag.Some? then ['(', flag.value, ')'] else ""
  }

  // sda1[0](F)
  function MemberText(m: Member): string {
    m.disk + ("[" + (NatString(m.index) + ("]" + FlagText(m.flag))))
  }

  function HeaderWords(a: Array): seq<string> {
    ["active"] + ((if a.readOnly then [READ_ONLY] else []) + ([a.level] + Map(a.members, MemberText)))
  }

  // md2 : active raid6 sda3[0] sdb3[1]
  function HeaderText(number: nat, words: seq<string>): string {
    "md" + (NatString(number) + (" " + (":" + (" " + Join(" ", words)))))
  }

  // 2097088 blocks super 1.2 [4/3] [UU_U]
  function CountedText(detail: string, c: Counts): string {
    detail + (" " + ("[" + (NatString(c.total) + ("/" + (NatString(c.active) + ("] " + ("[" + (c.upDown + "]"))))))))
  }

  function DetailText(a: Array): string {
    if a.counts.Some? then CountedText(a.detail, a.counts.value) else a.detail
  }

  function SpeedText(p: Bar): string { " " + ("speed=" + (NatString(p.speed) + "K/sec")) }
  function FinishText(p: Bar): string { "finish=" + (p.eta + ("min" + SpeedText(p))) }
  function TotalText(p: Bar): string { NatString(p.total) + (")" + (" " + FinishText(p))) }
  function DoneText(p: Bar): string { " " + ("(" + (NatString(p.done) + ("/" + TotalText(p)))) }
  function PercentText(p: Bar): string { " " + ("=" + (p.pad + (p.pct + ("%" + DoneText(p))))) }

  // [==>....]  resync = 47.3% (11/23) finish=2156.4min speed=95432K/sec
  function ProgressText(p: Bar): string {
    "[" + (p.bar + ("]" + ("  " + (p.keyword + PercentText(p)))))
  }

  const INDENT := "      "

  function Paragraph(a: Array): seq<string> {
    [HeaderText(a.number, HeaderWords(a)), INDENT + DetailText(a)]
    + (if a.progress.Some? then [INDENT + ProgressText(a.progress.value)] else [])
  }

  const TRAILER := "unused devices: <none>"

  // md3 : inactive sda3[0](S) sdb3[1](S)
  //       2097088 blocks super 1.2
  function InactiveParagraph(number: nat, members: seq<Member>, detail: string): seq<string> {
    [HeaderText(number, ["inactive"] + Map(members, MemberText)), INDENT + detail]
  }

  function Lines(p: Printed): seq<string> {
    match p
    case Active(a) => Paragraph(a)
    case Inactive(number, members, detail) => InactiveParagraph(number, members, detail)
  }

  function Body(list: seq<Printed>): seq<string> {
    if list == [] then [TRAILER] else Lines(list[0]) + [""] + Body(list[1..])
  }

  function PrintedLines(personalities: string, list: seq<Printed>): seq<string> {
    ["Personalities : " + personalities] + Body(list)
  }

  // Every line with its line feed.
  function Unlines(lines: seq<string>): string {
    if lines == [] then "" else lines[0] + "\n" + Unlines(lines[1..])
  }

  // ---------------------------------------------------------------- what should come back

  function ExpectedProgress(p: Bar): Progress
    requires PrintableBar(p)
  {
    Progress(Decimal(p.pct).value, p.speed, Seconds(Decimal(p.eta).value), Some(Lower(p.keyword)))
  }

  function UpDown(a: Array): Option<string> {
    if a.counts.Some? then Some(a.counts.value.upDown) else None
  }

  function ExpectedState(a: Array): string {
    if a.progress.Some? then (if Lower(a.progress.value.keyword) == "recovery" then "recovering" else "resyncing")
    else if a.counts.Some? && '_' in a.counts.value.upDown then "degraded"
    else "clean"
  }

  function MaybeProgress(a: Array): Option<Progress>
    requires a.progress.Some? ==> PrintableBar(a.progress.value)
  {
    if a.progress.Some? then Some(ExpectedProgress(a.progress.value)) else None
  }

  function Expected(a: Array): Record
    requires a.progress.Some? ==> PrintableBar(a.progress.value)
  {
    Record("md" + NatString(a.number), a.level, ExpectedState(a), MaybeProgress(a), UpDown(a), a.members)
  }

  // An inactive array has no level and all its members.
  ghost function ExpectedOne(p: Printed): Record
    requires PrintableOne(p)
  {
    match p
    case Active(a) => Expected(a)
    case Inactive(number, members, _) => Record("md" + NatString(number), "", "inactive", None, None, members)
  }

  // ---------------------------------------------------------------- what does come back

  // The level is told from the words around it: behind the read-only word only by its
  // "raid", or by being that word; otherwise unless the first member's name has it.
  predicate LevelTold(a: Array)
    requires a.members != []
  {
    if a.readOnly then StartsWith(a.level, "raid") || a.level == READ_ONLY
    else !StartsWith(a.members[0].disk, "raid")
  }

  // The level that is recorded, and the words left for the members.
  function ReadLevel(a: Array): (string, seq<string>)
    requires a.members != []
  {
    var texts := Map(a.members, MemberText);
    if a.readOnly then (if StartsWith(a.level, "raid") then (a.level, texts) else (READ_ONLY, [a.level] + texts))
    else if StartsWith(a.members[0].disk, "raid") then (texts[0], texts[1..])
    else (a.level, texts)
  }

  function Recorded(a: Array): Record
    requires a.members != [] && (a.progress.Some? ==> PrintableBar(a.progress.value))
  {
    var (level, tokens) := ReadLevel(a);
    Record("md" + NatString(a.number), level, ExpectedState(a), MaybeProgress(a), UpDown(a), ParseMembers(tokens))
  }

  // Of an inactive array: nothing, if it has one member; else one member takes the
  // level's place and is missing from the members. It is the first one, unless the
  // second one's name starts with raid, and then both are missing.
  function InactiveRecord(number: nat, members: seq<Member>): Record
    requires |members| > 1
  {
    var n := if StartsWith(members[1].disk, "raid") then 1 else 0;
    Record("md" + NatString(number), MemberText(members[n]), "inactive", None, None, members[n + 1..])
  }

  ghost function RecordedOne(p: Printed): seq<Record>
    requires PrintableOne(p)
  {
    match p
    case Active(a) => [Recorded(a)]
    case Inactive(number, members, _) => if |members| == 1 then [] else [InactiveRecord(number, members)]
  }

  ghost predicate ToldOne(p: Printed)
    requires PrintableOne(p)
  {
    p.Active? && LevelTold(p.a)
  }

  // ---------------------------------------------------------------- pieces of text

  lemma PartsOf(a: string, b: string)
    ensures (a + b)[|a|..] == b && (a + b)[..|a|] == a
  {
  }

  lemma RunOf(a: string, b: string, p: char -> bool)
    requires a != "" && All(a, p) && (b == "" || !p(b[0]))
    ensures Run1(a + b, p) == Some((a, b)) && Span(a + b, p) == |a|
  {
    SpanIs(a, b, p);
    PartsOf(a, b);
  }

  lemma LiteralOf(a: string, b: string)
    requires Lower(a) == a
    ensures Literal(a + b, a) == Some(b)
  {
    PartsOf(a, b);
  }

  lemma NumberOf(n: nat, b: string)
    requires b == "" || !IsDigit(b[0])
    ensures Number(NatString(n) + b) == Some((n, b))
  {
    RunOf(NatString(n), b, IsDigit);
  }

  lemma BlanksOf(a: string, b: string)
    requires a != "" && All(a, IsSpace) && (b == "" || !IsSpace(b[0]))
    ensures Blanks1(a + b) == Some(b) && LStrip(a + b) == b
  {
    RunOf(a, b, IsSpace);
    PartsOf(a, b);
  }

  lemma NoLStrip(s: string)
    requires s == "" || !IsSpace(s[0])
    ensures LStrip(s) == s
  {
  }

  // ---------------------------------------------------------------- the header line

  lemma IndexOf(n: nat, rest: string)
    ensures IndexAt("[" + (NatString(n) + ("]" + rest))) == Some((n, rest))
  {
    var t := NatString(n) + ("]" + rest);
    PartsOf("[", t);
    RunOf(NatString(n), "]" + rest, IsDigit);
    PartsOf(NatString(n), "]" + rest);
    assert t[|NatString(n)| + 1..] == rest;
  }

  lemma {:induction false} SearchPastDisk(taken: string, disk: string, s: string)
    requires No(disk, IsOpen) && taken + disk != ""
    requires IndexAt(s).Some?
    ensures SearchMember(taken, disk + s)
         == Some(Member(taken + disk, IndexAt(s).value.0, FlagAt(IndexAt(s).value.1)))
    decreases |disk|
  {
    if disk == "" {
      assert disk + s == s && taken + disk == taken;
    } else {
      var head, tail := HeadTail(disk);
      Assoc([head], tail, s);
      Assoc(taken, [head], tail);
      NoAppend([head], tail, IsOpen);
      assert (disk + s)[0] == head && (disk + s)[1..] == tail + s;
      SearchPastDisk(taken + [head], tail, s);
    }
  }

  lemma MemberReadsBack(m: Member)
    requires Printable(m)
    ensures MatchMember(MemberText(m)) == Some(m)
    ensures IsWord(MemberText(m))
  {
    var tail := "[" + (NatString(m.index) + ("]" + FlagText(m.flag)));
    IndexOf(m.index, FlagText(m.flag));
    SearchPastDisk("", m.disk, tail);
    assert "" + m.disk == m.disk;
    MemberTailIsGraph(m);
    NoAppend(m.disk, tail, IsSpace);
  }

  lemma DigitsAreGraph(s: string)
    requires All(s, IsDigit)
    ensures No(s, IsSpace) && No(s, IsOpen)
  {
  }

  lemma MemberTailIsGraph(m: Member)
    requires Printable(m)
    ensures No("[" + (NatString(m.index) + ("]" + FlagText(m.flag))), IsSpace)
  {
    DigitsAreGraph(NatString(m.index));
    NoAppend("]", FlagText(m.flag), IsSpace);
    NoAppend(NatString(m.index), "]" + FlagText(m.flag), IsSpace);
    NoAppend("[", NatString(m.index) + ("]" + FlagText(m.flag)), IsSpace);
  }

  lemma {:induction false} MembersReadBack(members: seq<Member>)
    requires forall m | m in members :: Printable(m)
    ensures ParseMembers(Map(members, MemberText)) == members
    ensures AllWords(Map(members, MemberText))
    decreases |members|
  {
    if members != [] {
      var head, tail := HeadTail(members);
      MapConcat([head], tail, MemberText);
      assert Map([head], MemberText) == [MemberText(head)];
      MemberReadsBack(head);
      MembersReadBack(tail);
      var texts := Map(tail, MemberText);
      assert ([MemberText(head)] + texts)[1..] == texts;
    }
  }

  lemma {:induction false} JoinEnds(words: seq<string>)
    requires words != [] && AllWords(words)
    ensures var s := Join(" ", words);
            s != "" && !IsSpace(s[|s| - 1]) && !IsSpace(s[0])
    decreases |words|
  {
    var head, tail := HeadTail(words);
    JoinHead(" ", head, tail);
    if tail != [] {
      JoinEnds(tail);
    }
  }

  // A header line reads as its device and its words, for any three words or more.
  lemma HeaderReadsBack(number: nat, words: seq<string>)
    requires |words| >= 3 && AllWords(words)
    ensures HeaderOf(HeaderText(number, words)) == Some(HeaderLine("md" + NatString(number), words))
  {
    HeaderStrips(number, words);
    HeaderMatches(number, words);
  }

  lemma HeaderStrips(number: nat, words: seq<string>)
    requires words != [] && AllWords(words)
    ensures Strip(HeaderText(number, words)) == HeaderText(number, words)
  {
    var j, line := Join(" ", words), HeaderText(number, words);
    JoinEnds(words);
    assert line[|line| - 1] == j[|j| - 1] && line[0] == 'm';
    StripId(line);
  }

  lemma HeaderParts(number: nat, gap: string, rest: string)
    requires All(gap, IsSpace)
    ensures var line := "md" + (NatString(number) + (gap + (":" + rest)));
            && StartsWith(line, "md")
            && Span(line[2..], IsDigit) == |NatString(number)|
            && LStrip(line[2 + |NatString(number)|..]) == ":" + rest
            && line[..2 + |NatString(number)|] == "md" + NatString(number)
  {
    var digits, tail := NatString(number), gap + (":" + rest);
    PartsOf("md", digits + tail);
    assert tail[0] == if gap == "" then ':' else gap[0];
    RunOf(digits, tail, IsDigit);
    Assoc("md", digits, tail);
    PartsOf("md" + digits, tail);
    if gap == "" {
      assert tail == ":" + rest;
      NoLStrip(tail);
    } else {
      BlanksOf(gap, ":" + rest);
    }
  }

  lemma {:induction false} WordsSkipAll(gap: string, s: string)
    requires All(gap, IsSpace)
    ensures Words(gap + s) == Words(s)
    decreases |gap|
  {
    if gap == "" {
      assert gap + s == s;
    } else {
      var tail := gap[1..];
      assert gap + s == [gap[0]] + (tail + s);
      WordsSkip(gap[0], tail + s);
      WordsSkipAll(tail, s);
    }
  }

  lemma WordsBehind(after: string, words: seq<string>)
    requires AllWords(words) && All(after, IsSpace)
    ensures Words(after + Join(" ", words)) == words
  {
    WordsSkipAll(after, Join(" ", words));
    WordsOfJoin(words);
  }

  // Any blanks, or none, may stand around the colon.
  lemma HeaderAnyBlanks(number: nat, gap: string, after: string, words: seq<string>)
    requires AllWords(words) && All(gap, IsSpace) && All(after, IsSpace)
    ensures MatchHeader("md" + (NatString(number) + (gap + (":" + (after + Join(" ", words))))))
         == if |words| < 3 then None else Some(HeaderLine("md" + NatString(number), words))
  {
    var rest := after + Join(" ", words);
    WordsBehind(after, words);
    HeaderOfRest(number, gap, rest);
  }

  lemma HeaderMatches(number: nat, words: seq<string>)
    requires AllWords(words)
    ensures MatchHeader(HeaderText(number, words))
         == if |words| < 3 then None else Some(HeaderLine("md" + NatString(number), words))
  {
    HeaderAnyBlanks(number, " ", " ", words);
  }

  lemma HeaderOfRest(number: nat, gap: string, rest: string)
    requires All(gap, IsSpace)
    ensures MatchHeader("md" + (NatString(number) + (gap + (":" + rest))))
         == if |Words(rest)| < 3 then None else Some(HeaderLine("md" + NatString(number), Words(rest)))
  {
    HeaderParts(number, gap, rest);
    MatchesByParts("md" + (NatString(number) + (gap + (":" + rest))), |NatString(number)|, rest);
  }

  lemma MatchesByParts(line: string, n: nat, rest: string)
    requires StartsWith(line, "md") && n > 0 && n == Span(line[2..], IsDigit)
    requires 2 + n <= |line| && LStrip(line[2 + n..]) == ":" + rest
    ensures MatchHeader(line) == if |Words(rest)| < 3 then None else Some(HeaderLine(line[..2 + n], Words(rest)))
  {
    PartsOf(":", rest);
  }

  lemma AllWordsConcat(a: seq<string>, b: seq<string>)
    requires AllWords(a) && AllWords(b)
    ensures AllWords(a + b)
  {
  }

  lemma HeaderWordsAreWords(a: Array)
    requires PrintableArray(a)
    ensures AllWords(HeaderWords(a)) && |HeaderWords(a)| >= 3
  {
    var texts := Map(a.members, MemberText);
    MembersReadBack(a.members);
    FixedWords();
    AllWordsConcat([a.level], texts);
    AllWordsConcat(if a.readOnly then [READ_ONLY] else [], [a.level] + texts);
    AllWordsConcat(["active"], (if a.readOnly then [READ_ONLY] else []) + ([a.level] + texts));
  }

  lemma FixedWords()
    ensures IsWord("active") && IsWord("inactive") && IsWord(READ_ONLY)
  {
  }

  // A member's word starts with raid exactly if its disk's name does.
  lemma RaidName(m: Member)
    requires Printable(m)
    ensures StartsWith(MemberText(m), "raid") <==> StartsWith(m.disk, "raid")
  {
    var s := MemberText(m);
    if |m.disk| < 4 {
      assert s[|m.disk|] == '[';
      StartsWithChar(s, "raid", |m.disk|);
    } else {
      assert s[..4] == m.disk[..4];
    }
  }

  lemma LevelReadsBack(a: Array, header: Header)
    requires PrintableArray(a) && header.words == HeaderWords(a)
    ensures LevelAndTokens(header) == ReadLevel(a)
  {
    var texts := Map(a.members, MemberText);
    assert a.members[0] in a.members && texts[0] == MemberText(a.members[0]);
    RaidName(a.members[0]);
    if a.readOnly {
      assert header.words[2..] == [a.level] + texts;
      assert ([a.level] + texts)[1..] == texts;
    } else {
      assert header.words[2..] == texts;
    }
  }

  lemma {:induction false} NoMember(taken: string, s: string)
    requires No(s, IsOpen)
    ensures SearchMember(taken, s) == None
    decreases |s|
  {
    if s != "" {
      NoMember(taken + [s[0]], s[1..]);
    }
  }

  // Printing and parsing cancel on this array exactly if the level is told.
  lemma WhenLevelTold(a: Array)
    requires PrintableArray(a)
    ensures Recorded(a) == Expected(a) <==> LevelTold(a)
  {
    MembersReadBack(a.members);
    if a.readOnly && !StartsWith(a.level, "raid") {
      LevelBehindReadOnly(a.level, a.members);
    } else if !a.readOnly && StartsWith(a.members[0].disk, "raid") {
      FirstTakenForLevel(a.members);
    }
  }

  lemma LevelBehindReadOnly(level: string, members: seq<Member>)
    requires forall m | m in members :: Printable(m)
    ensures level == READ_ONLY ==> ParseMembers([level] + Map(members, MemberText)) == members
  {
    var texts := Map(members, MemberText);
    assert ([level] + texts)[1..] == texts && No(READ_ONLY, IsOpen);
    MembersReadBack(members);
    NoMember("", READ_ONLY);
  }

  lemma FirstTakenForLevel(members: seq<Member>)
    requires members != [] && forall m | m in members :: Printable(m)
    ensures |ParseMembers(Map(members, MemberText)[1..])| < |members|
  {
    var tail := members[1..];
    assert Map(members, MemberText)[1..] == Map(tail, MemberText);
    MembersReadBack(tail);
  }

  // ---------------------------------------------------------------- the status line

  lemma {:induction false} SkipStatus(a: string, s: string)
    requires No(a, IsOpen)
    ensures SearchStatus(a + s) == SearchStatus(s)
    decreases |a|
  {
    if a == "" {
      assert a + s == s;
    } else {
      var head, tail := HeadTail(a);
      Assoc([head], tail, s);
      NoAppend([head], tail, IsOpen);
      assert (a + s)[0] == head && (a + s)[1..] == tail + s;
      SkipStatus(tail, s);
    }
  }

  lemma StatusMiss(t: string)
    requires t != "" && !IsUpDown(t[0])
    ensures SearchStatus("[" + t) == SearchStatus(t)
  {
    PartsOf("[", t);
  }

  lemma StatusHit(u: string, rest: string)
    requires u != "" && All(u, IsUpDown)
    ensures SearchStatus("[" + (u + ("]" + rest))) == Some(u)
  {
    PartsOf("[", u + ("]" + rest));
    RunOf(u, "]" + rest, IsUpDown);
    PartsOf(u, "]" + rest);
  }

  lemma {:induction false} SkipResync(a: string, s: string)
    requires No(a, IsOpen)
    ensures SearchResync(a + s) == SearchResync(s)
    decreases |a|
  {
    if a == "" {
      assert a + s == s;
    } else {
      var head, tail := HeadTail(a);
      Assoc([head], tail, s);
      NoAppend([head], tail, IsOpen);
      assert (a + s)[0] == head && (a + s)[1..] == tail + s;
      NoBracket(a + s);
      SkipResync(tail, s);
    }
  }

  lemma NoBracket(s: string)
    requires s == "" || s[0] != '['
    ensures ResyncAt(s) == None
  {
    if s != "" {
      assert Lower(s[..1])[0] == LowerChar(s[0]);
    }
  }

  lemma ResyncMiss(t: string)
    requires t != "" && !IsBar(t[0])
    ensures SearchResync("[" + t) == SearchResync(t)
  {
    LiteralOf("[", t);
    PartsOf("[", t);
  }

  lemma ResyncNone(s: string)
    requires No(s, IsOpen)
    ensures SearchResync(s) == None
  {
    SkipResync(s, "");
    assert s + "" == s;
    NoBracket("");
  }

  lemma StatusNone(s: string)
    requires No(s, IsOpen)
    ensures SearchStatus(s) == None
  {
    SkipStatus(s, "");
    assert s + "" == s;
  }

  lemma Indented(s: string)
    requires s != "" && !IsSpace(s[0]) && !IsSpace(s[|s| - 1])
    ensures Strip(INDENT + s) == s
  {
    StripPadded(INDENT, s, "");
    assert INDENT + s + "" == INDENT + s;
  }

  // The inside of the first bracket of the status line, with its digits in front.
  function CountText(c: Counts): string { NatString(c.total) + ("/" + (NatString(c.active) + "] ")) }

  lemma CountPieces(detail: string, c: Counts)
    ensures CountedText(detail, c) == (detail + " ") + ("[" + (CountText(c) + ("[" + (c.upDown + "]"))))
    ensures No(CountText(c), IsOpen) && CountText(c) != "" && IsDigit(CountText(c)[0])
  {
    var end := "[" + (c.upDown + "]");
    var t, k := NatString(c.total), NatString(c.active);
    Assoc(k, "] ", end);
    Assoc("/", k + "] ", end);
    Assoc(t, "/" + (k + "] "), end);
    Assoc(detail, " ", "[" + (CountText(c) + end));
    DigitsAreGraph(t);
    DigitsAreGraph(k);
    NoAppend(k, "] ", IsOpen);
    NoAppend("/", k + "] ", IsOpen);
    NoAppend(t, "/" + (k + "] "), IsOpen);
  }

  lemma CountsAreFound(detail: string, c: Counts)
    requires PrintableDetail(detail) && PrintableCounts(c)
    ensures SearchStatus(CountedText(detail, c)) == Some(c.upDown) && SearchResync(CountedText(detail, c)) == None
  {
    var front, count, last := detail + " ", CountText(c), c.upDown + "]";
    CountPieces(detail, c);
    NoAppend(detail, " ", IsOpen);
    var inner := count + ("[" + last);
    assert inner[0] == count[0];
    SkipStatus(front, "[" + inner);
    StatusMiss(inner);
    SkipStatus(count, "[" + last);
    StatusHit(c.upDown, "");
    assert "]" + "" == "]";
    SkipResync(front, "[" + inner);
    ResyncMiss(inner);
    SkipResync(count, "[" + last);
    assert last[0] == c.upDown[0];
    ResyncMiss(last);
    assert No(c.upDown, IsOpen);
    NoAppend(c.upDown, "]", IsOpen);
    ResyncNone(last);
  }

  lemma NotAHeader(s: string)
    requires s != "" && s[0] != 'm'
    ensures MatchHeader(s) == None
  {
    StartsWithChar(s, "md", 0);
  }

  // A line that is neither blank nor a header stays in the paragraph.
  lemma LineStays(line: string, s: string)
    requires Strip(line) == s && s != "" && MatchHeader(s) == None
    ensures !Stops(MDSTAT, line)
  {
  }

  lemma DetailLineReads(a: Array)
    requires PrintableArray(a)
    ensures var line := INDENT + DetailText(a);
            && !Stops(MDSTAT, line)
            && StatusOf(line) == UpDown(a)
            && ProgressOf(line) == NoProgress
  {
    var s := DetailText(a);
    if a.counts.Some? {
      CountsAreFound(a.detail, a.counts.value);
      CountedEnds(a.detail, a.counts.value);
    } else {
      StatusNone(s);
      ResyncNone(s);
    }
    Indented(s);
    NotAHeader(s);
    LineStays(INDENT + s, s);
  }

  lemma CountedEnds(detail: string, c: Counts)
    requires PrintableDetail(detail)
    ensures var s := CountedText(detail, c);
            s != "" && IsDigit(s[0]) && s[|s| - 1] == ']'
  {
    CountPieces(detail, c);
    var front, tail := detail + " ", CountText(c) + ("[" + (c.upDown + "]"));
    assert tail[|tail| - 1] == ']';
    assert front[0] == detail[0];
  }

  // ---------------------------------------------------------------- the progress line

  lemma SpeedThen(pct: string, eta: string, speed: nat)
    ensures SpeedAt(pct, eta, " " + ("speed=" + (NatString(speed) + "K/sec"))) == Some(Captures(pct, eta, speed))
  {
    var t := NatString(speed) + "K/sec";
    BlanksOf(" ", "speed=" + t);
    LiteralOf("speed=", t);
    NumberOf(speed, "K/sec");
    UnitReads();
  }

  lemma UnitReads()
    ensures Literal("K/sec", "k/sec") == Some("")
  {
    var u := "K/sec";
    assert u[..5] == u && u[5..] == "";
    assert Lower(u) == "k/sec";
  }

  lemma FinishThen(pct: string, eta: string, rest: string)
    requires eta != "" && All(eta, IsDecimal)
    ensures FinishAt(pct, "finish=" + (eta + ("min" + rest))) == SpeedAt(pct, eta, rest)
  {
    LiteralOf("finish=", eta + ("min" + rest));
    RunOf(eta, "min" + rest, IsDecimal);
    LiteralOf("min", rest);
  }

  lemma TotalThen(pct: string, total: nat, rest: string)
    requires rest != "" && !IsSpace(rest[0])
    ensures TotalAt(pct, NatString(total) + (")" + (" " + rest))) == FinishAt(pct, rest)
  {
    NumberOf(total, ")" + (" " + rest));
    LiteralOf(")", " " + rest);
    BlanksOf(" ", rest);
  }

  lemma DoneThen(pct: string, done: nat, rest: string)
    ensures DoneAt(pct, " " + ("(" + (NatString(done) + ("/" + rest)))) == TotalAt(pct, rest)
  {
    var t := NatString(done) + ("/" + rest);
    BlanksOf(" ", "(" + t);
    LiteralOf("(", t);
    NumberOf(done, "/" + rest);
    LiteralOf("/", rest);
  }

  lemma PercentThen(pad: string, pct: string, rest: string)
    requires pct != "" && All(pct, IsDecimal) && All(pad, IsBlank)
    ensures ProgressAt(" " + ("=" + (pad + (pct + ("%" + rest))))) == DoneAt(pct, rest)
  {
    EqualsThen(pad, pct + ("%" + rest));
    RunOf(pct, "%" + rest, IsDecimal);
    LiteralOf("%", rest);
  }

  lemma EqualsThen(pad: string, t: string)
    requires t != "" && !IsSpace(t[0]) && All(pad, IsBlank)
    ensures Literal(LStrip(" " + ("=" + (pad + t))), "=") == Some(pad + t) && LStrip(pad + t) == t
  {
    BlanksOf(" ", "=" + (pad + t));
    LiteralOf("=", pad + t);
    if pad == "" {
      assert pad + t == t;
      NoLStrip(t);
    } else {
      BlanksOf(pad, t);
    }
  }

  lemma PercentReads(p: Bar)
    requires PrintableBar(p)
    ensures ProgressAt(PercentText(p)) == Some(Captures(p.pct, p.eta, p.speed))
  {
    PercentThen(p.pad, p.pct, DoneText(p));
    DoneThen(p.pct, p.done, TotalText(p));
    TotalThen(p.pct, p.total, FinishText(p));
    FinishThen(p.pct, p.eta, SpeedText(p));
    SpeedThen(p.pct, p.eta, p.speed);
  }

  lemma LiteralMiss(s: string, lower: string, i: nat)
    requires i < |s| && i < |lower| && LowerChar(s[i]) != lower[i]
    ensures Literal(s, lower) == None
  {
    if |lower| <= |s| {
      assert Lower(s[..|lower|])[i] == LowerChar(s[i]);
    }
  }

  lemma LiteralAny(a: string, b: string)
    ensures Literal(a + b, Lower(a)) == Some(b)
  {
    PartsOf(a, b);
  }

  // In any case: its small letters tell it from the other keywords.
  lemma KeywordReads(keyword: string, rest: string)
    requires Lower(keyword) in KEYWORDS
    ensures KeywordAt(keyword + rest) == Some(rest)
  {
    var s, lower := keyword + rest, Lower(keyword);
    KeywordsAreLong(lower);
    LiteralAny(keyword, rest);
    assert LowerChar(s[0]) == lower[0] && LowerChar(s[2]) == lower[2] && LowerChar(s[3]) == lower[3];
    if lower == "recovery" {
      LiteralMiss(s, "resync", 2);
    } else if lower == "reshape" {
      LiteralMiss(s, "resync", 3);
      LiteralMiss(s, "recovery", 2);
    } else if lower == "check" {
      LiteralMiss(s, "resync", 0);
      LiteralMiss(s, "recovery", 0);
      LiteralMiss(s, "reshape", 0);
    }
  }

  lemma KeywordsAreLong(lower: string)
    requires lower in KEYWORDS
    ensures |lower| >= 5 && forall i | 0 <= i < |lower| :: 'a' <= lower[i] <= 'z'
  {
  }

  // Letters, in either case.
  lemma KeywordIsLetters(keyword: string)
    requires Lower(keyword) in KEYWORDS
    ensures |keyword| >= 5 && No(keyword, IsOpen) && No(keyword, IsBreak) && No(keyword, IsSpace)
  {
    KeywordsAreLong(Lower(keyword));
    forall i | 0 <= i < |keyword|
      ensures !IsOpen(keyword[i]) && !IsBreak(keyword[i]) && !IsSpace(keyword[i])
    {
      assert 'a' <= LowerChar(keyword[i]) <= 'z';
    }
  }

  lemma BarThen(bar: string, keyword: string, rest: string)
    requires bar != "" && All(bar, IsBar) && Lower(keyword) in KEYWORDS
    ensures ResyncAt("[" + (bar + ("]" + ("  " + (keyword + rest))))) == ProgressAt(rest)
  {
    var t := keyword + rest;
    KeywordReads(keyword, rest);
    KeywordIsLetters(keyword);
    assert t[0] == keyword[0];
    BlanksOf("  ", t);
    BracketThen(bar, "  " + t);
  }

  lemma BracketThen(bar: string, rest: string)
    requires bar != "" && All(bar, IsBar)
    ensures Literal("[" + (bar + ("]" + rest)), "[") == Some(bar + ("]" + rest))
    ensures Run1(bar + ("]" + rest), IsBar) == Some((bar, "]" + rest))
    ensures Literal("]" + rest, "]") == Some(rest)
  {
    LiteralOf("[", bar + ("]" + rest));
    RunOf(bar, "]" + rest, IsBar);
    LiteralOf("]", rest);
  }

  lemma BarReads(p: Bar)
    requires PrintableBar(p)
    ensures ResyncAt(ProgressText(p)) == Some(Captures(p.pct, p.eta, p.speed))
  {
    BarThen(p.bar, p.keyword, PercentText(p));
    PercentReads(p);
  }

  // ---------------------------------------------------------------- the action keyword

  predicate IsR(c: char) { c == 'r' || c == 'R' }

  lemma LowerNoR(s: string)
    requires No(s, IsR)
    ensures 'r' !in Lower(s)
  {
  }

  lemma {:induction false} SkipContains(a: string, s: string, part: string)
    requires part != "" && part[0] !in a
    ensures Contains(a + s, part) == Contains(s, part)
    decreases |a|
  {
    if a == "" {
      assert a + s == s;
    } else {
      var head, tail := HeadTail(a);
      Assoc([head], tail, s);
      assert (a + s)[0] == head && (a + s)[1..] == tail + s;
      StartsWithChar(a + s, part, 0);
      SkipContains(tail, s, part);
    }
  }

  lemma NotContained(s: string, part: string)
    requires part != "" && part[0] !in s
    ensures !Contains(s, part)
  {
    SkipContains(s, "", part);
    assert s + "" == s;
  }

  // Which keyword is found: the only letters r stand in the keyword itself.
  lemma FirstKeywordIs(a: string, keyword: string, b: string)
    requires keyword in KEYWORDS && 'r' !in a && 'r' !in b && 'c' !in a
    ensures FirstKeyword(a + (keyword + b)) == Some(keyword)
  {
    var s := keyword + b;
    SkipContains(a, s, "resync");
    SkipContains(a, s, "recovery");
    SkipContains(a, s, "reshape");
    SkipContains(a, s, "check");
    assert StartsWith(s, keyword);
    if keyword == "recovery" {
      RecoveryIsNotResync(b);
    } else if keyword == "reshape" {
      StartsWithChar(s, "resync", 3);
      StartsWithChar(s, "recovery", 2);
      assert s[3] == 'h' && s[2] == 's';
      assert s[1..] == "eshape" + b;
      NotContained("eshape" + b, "resync");
      NotContained("eshape" + b, "recovery");
    } else if keyword == "check" {
      NotContained(s, "resync");
      NotContained(s, "recovery");
      NotContained(s, "reshape");
    }
  }

  lemma RecoveryIsNotResync(b: string)
    requires 'r' !in b
    ensures !Contains("recovery" + b, "resync")
  {
    var s, t, u := "recovery" + b, "ecove" + ("ry" + b), "y" + b;
    assert s[2] == 'c';
    StartsWithChar(s, "resync", 2);
    assert s[1..] == t;
    SkipContains("ecove", "ry" + b, "resync");
    assert ("ry" + b)[1] == 'y';
    StartsWithChar("ry" + b, "resync", 1);
    assert ("ry" + b)[1..] == u;
    NotContained(u, "resync");
  }

  // q is about letters, brackets or breaks: no digit, dot or label character has it.
  ghost predicate Avoidable(q: char -> bool) {
    && (forall c | IsDecimal(c) :: !q(c))
    && No("finish=", q) && No("min", q) && No("speed=", q) && No("K/sec", q) && No(" ", q)
    && No(")", q) && No("(", q) && No("/", q) && No("%", q) && No("=", q)
  }

  lemma NumbersAvoid(s: string, q: char -> bool)
    requires All(s, IsDecimal) && Avoidable(q)
    ensures No(s, q)
  {
    forall i | 0 <= i < |s|
      ensures !q(s[i])
    {
      assert IsDecimal(s[i]);
    }
  }

  lemma DigitsAvoid(n: nat, q: char -> bool)
    requires Avoidable(q)
    ensures No(NatString(n), q)
  {
    var s := NatString(n);
    assert forall i | 0 <= i < |s| :: IsDigit(s[i]);
    NumbersAvoid(s, q);
  }

  lemma BlanksAvoid(s: string, q: char -> bool)
    requires All(s, IsBlank) && Avoidable(q)
    ensures No(s, q)
  {
    assert !q(" "[0]);
  }

  lemma NoPieces(a: string, b: string, c: string, d: string, p: char -> bool)
    requires No(a, p) && No(b, p) && No(c, p) && No(d, p)
    ensures No(a + (b + (c + d)), p)
  {
    NoAppend(c, d, p);
    NoAppend(b, c + d, p);
    NoAppend(a, b + (c + d), p);
  }

  lemma PercentAvoids(p: Bar, q: char -> bool)
    requires PrintableBar(p) && Avoidable(q)
    ensures No(PercentText(p), q)
  {
    DigitsAvoid(p.speed, q);
    DigitsAvoid(p.total, q);
    DigitsAvoid(p.done, q);
    NumbersAvoid(p.eta, q);
    NumbersAvoid(p.pct, q);
    NoPieces(" ", "speed=", NatString(p.speed), "K/sec", q);
    NoPieces("finish=", p.eta, "min", SpeedText(p), q);
    NoPieces(NatString(p.total), ")", " ", FinishText(p), q);
    NoAppend("/", TotalText(p), q);
    NoPieces(" ", "(", NatString(p.done), "/" + TotalText(p), q);
    BlanksAvoid(p.pad, q);
    NoPieces(p.pad, p.pct, "%", DoneText(p), q);
    NoAppend("=", p.pad + (p.pct + ("%" + DoneText(p))), q);
    NoAppend(" ", "=" + (p.pad + (p.pct + ("%" + DoneText(p)))), q);
  }

  lemma RIsAvoidable()
    ensures Avoidable(IsR)
  {
  }

  lemma OpenIsAvoidable()
    ensures Avoidable(IsOpen)
  {
  }

  lemma BreakIsAvoidable()
    ensures Avoidable(IsBreak)
  {
  }

  function BarText(p: Bar): string { "[" + (p.bar + ("]" + "  ")) }

  lemma ProgressPieces(p: Bar)
    ensures ProgressText(p) == BarText(p) + (p.keyword + PercentText(p))
  {
    var t := p.keyword + PercentText(p);
    Assoc("]", "  ", t);
    Assoc(p.bar, "]" + "  ", t);
    Assoc("[", p.bar + ("]" + "  "), t);
  }

  predicate IsRC(c: char) { IsR(c) || c == 'c' || c == 'C' }

  lemma LowerNoRC(s: string)
    requires No(s, IsRC)
    ensures 'r' !in Lower(s) && 'c' !in Lower(s)
  {
  }

  lemma BarTextHasNoRC(p: Bar)
    requires PrintableBar(p)
    ensures No(BarText(p), IsRC)
  {
    BarHasNoLetters(p.bar);
    BracketsHaveNoRC();
    NoPieces("[", p.bar, "]", "  ", IsRC);
  }

  lemma BracketsHaveNoRC()
    ensures No("[", IsRC) && No("]", IsRC) && No("  ", IsRC)
  {
  }

  lemma BarTextChars(p: Bar)
    requires PrintableBar(p)
    ensures 'r' !in Lower(BarText(p)) && 'c' !in Lower(BarText(p))
  {
    BarTextHasNoRC(p);
    LowerNoRC(BarText(p));
  }

  lemma BarHasNoLetters(s: string)
    requires All(s, IsBar)
    ensures No(s, IsRC)
  {
  }

  lemma ActionReads(p: Bar)
    requires PrintableBar(p)
    ensures FirstKeyword(Lower(ProgressText(p))) == Some(Lower(p.keyword))
  {
    ProgressPieces(p);
    LowerOfAppend(BarText(p), p.keyword + PercentText(p));
    LowerOfAppend(p.keyword, PercentText(p));
    BarTextChars(p);
    RIsAvoidable();
    PercentAvoids(p, IsR);
    LowerNoR(PercentText(p));
    FirstKeywordIs(Lower(BarText(p)), Lower(p.keyword), Lower(PercentText(p)));
  }

  lemma ProgressLineStays(p: Bar)
    requires PrintableBar(p)
    ensures Strip(INDENT + ProgressText(p)) == ProgressText(p)
    ensures !Stops(MDSTAT, INDENT + ProgressText(p))
  {
    var s := ProgressText(p);
    ProgressEnds(p);
    Indented(s);
    NotAHeader(s);
    LineStays(INDENT + s, s);
  }

  lemma CapturesRead(p: Bar, s: string)
    requires PrintableBar(p) && FirstKeyword(Lower(s)) == Some(Lower(p.keyword))
    ensures ReadCaptures(s, Captures(p.pct, p.eta, p.speed)) == Read(ExpectedProgress(p))
  {
    DecimalsRead(s, p.pct, p.eta, p.speed);
  }

  lemma DecimalsRead(s: string, pct: string, eta: string, speed: nat)
    requires Decimal(pct).Some? && Decimal(eta).Some?
    ensures ReadCaptures(s, Captures(pct, eta, speed))
         == Read(Progress(Decimal(pct).value, speed, Seconds(Decimal(eta).value), FirstKeyword(Lower(s))))
  {
  }

  lemma ProgressLineReads(p: Bar)
    requires PrintableBar(p)
    ensures ProgressOf(INDENT + ProgressText(p)) == Read(ExpectedProgress(p))
  {
    var s := ProgressText(p);
    ProgressLineStays(p);
    BarReads(p);
    ReadsAs(INDENT + s, s, Captures(p.pct, p.eta, p.speed));
    ActionReads(p);
    CapturesRead(p, s);
  }

  lemma ProgressLineStatus(p: Bar)
    requires PrintableBar(p)
    ensures StatusOf(INDENT + ProgressText(p)) == None
  {
    ProgressLineStays(p);
    ProgressHasNoStatus(p);
  }

  lemma ReadsAs(line: string, s: string, captures: Captures)
    requires Strip(line) == s && ResyncAt(s) == Some(captures)
    ensures ProgressOf(line) == ReadCaptures(s, captures)
  {
  }

  predicate LastIs(s: string, c: char) { s != "" && s[|s| - 1] == c }

  lemma LastOf(a: string, s: string, c: char)
    requires LastIs(s, c)
    ensures LastIs(a + s, c)
  {
  }

  lemma PercentEnds(p: Bar)
    ensures LastIs(PercentText(p), 'c')
  {
    LastOf(NatString(p.speed), "K/sec", 'c');
    LastOf("speed=", NatString(p.speed) + "K/sec", 'c');
    LastOf(" ", "speed=" + (NatString(p.speed) + "K/sec"), 'c');
    LastOf("min", SpeedText(p), 'c');
    LastOf(p.eta, "min" + SpeedText(p), 'c');
    LastOf("finish=", p.eta + ("min" + SpeedText(p)), 'c');
    TotalEnds(p);
  }

  lemma TotalEnds(p: Bar)
    requires LastIs(FinishText(p), 'c')
    ensures LastIs(PercentText(p), 'c')
  {
    LastOf(" ", FinishText(p), 'c');
    LastOf(")", " " + FinishText(p), 'c');
    LastOf(NatString(p.total), ")" + (" " + FinishText(p)), 'c');
    LastOf("/", TotalText(p), 'c');
    LastOf(NatString(p.done), "/" + TotalText(p), 'c');
    LastOf("(", NatString(p.done) + ("/" + TotalText(p)), 'c');
    LastOf(" ", "(" + (NatString(p.done) + ("/" + TotalText(p))), 'c');
    DoneEnds(p, DoneText(p));
  }

  lemma DoneEnds(p: Bar, done: string)
    requires LastIs(done, 'c')
    ensures LastIs(" " + ("=" + (p.pad + (p.pct + ("%" + done)))), 'c')
  {
    LastOf("%", done, 'c');
    LastOf(p.pct, "%" + done, 'c');
    LastOf(p.pad, p.pct + ("%" + done), 'c');
    LastOf("=", p.pad + (p.pct + ("%" + done)), 'c');
    LastOf(" ", "=" + (p.pad + (p.pct + ("%" + done))), 'c');
  }

  lemma ProgressEnds(p: Bar)
    ensures LastIs(ProgressText(p), 'c') && ProgressText(p)[0] == '['
  {
    PercentEnds(p);
    ProgressPieces(p);
    LastOf(p.keyword, PercentText(p), 'c');
    LastOf(BarText(p), p.keyword + PercentText(p), 'c');
  }

  lemma ProgressHasNoStatus(p: Bar)
    requires PrintableBar(p)
    ensures SearchStatus(ProgressText(p)) == None
  {
    var rest := p.bar + ("]" + ("  " + (p.keyword + PercentText(p))));
    assert rest[0] == p.bar[0];
    StatusMiss(rest);
    OpenIsAvoidable();
    PercentAvoids(p, IsOpen);
    assert No(p.bar, IsOpen);
    KeywordIsLetters(p.keyword);
    NoAppend(p.keyword, PercentText(p), IsOpen);
    NoPieces(p.bar, "]", "  ", p.keyword + PercentText(p), IsOpen);
    StatusNone(rest);
  }

  // ---------------------------------------------------------------- one array

  // A header line and one or two lines that neither end the paragraph nor raise.
  lemma OneParagraph(g: Readers, lines: seq<string>)
    requires 2 <= |lines| <= 3
    requires g.header(lines[0]).Some?
    requires forall k | 1 <= k < |lines| :: !Stops(g, lines[k]) && g.progress(lines[k]) != Malformed
    ensures Parse(g, lines)
         == Success([MakeRecord(g.header(lines[0]).value, LastProgress(g, lines, 1, |lines|), LastStatus(g, lines, 1, |lines|))])
  {
    var n := |lines|;
    assert !Stops(g, lines[1]);
    ParagraphIsMaximal(g, lines, 1);
    HeaderStep(g, lines, 0);
    assert ParagraphEnd(g, lines, 1) == n;
    assert RecordsFrom(g, lines, n) == [] && !RaisesFrom(g, lines, n);
    assert [RecordAt(g, lines, 0)] + [] == [RecordAt(g, lines, 0)];
  }

  lemma TwoLines(g: Readers, lines: seq<string>)
    requires |lines| == 2
    ensures LastStatus(g, lines, 1, 2) == g.status(lines[1])
    ensures LastProgress(g, lines, 1, 2) == match g.progress(lines[1]) { case Read(p) => Some(p) case _ => None }
  {
    assert LastStatus(g, lines, 1, 1) == None && LastProgress(g, lines, 1, 1) == None;
  }

  lemma ThreeLines(g: Readers, lines: seq<string>)
    requires |lines| == 3 && g.status(lines[2]) == None && g.progress(lines[2]).Read?
    ensures LastStatus(g, lines, 1, 3) == g.status(lines[1])
    ensures LastProgress(g, lines, 1, 3) == Some(g.progress(lines[2]).progress)
  {
    assert LastStatus(g, lines, 1, 1) == None;
    assert LastStatus(g, lines, 1, 2) == g.status(lines[1]);
  }

  lemma HeaderLineReads(a: Array) returns (header: Header)
    requires PrintableArray(a)
    ensures header == HeaderLine("md" + NatString(a.number), HeaderWords(a))
    ensures MDSTAT.header(HeaderText(a.number, HeaderWords(a))) == Some(header)
  {
    HeaderWordsAreWords(a);
    header := HeaderLine("md" + NatString(a.number), HeaderWords(a));
    HeaderReadsBack(a.number, HeaderWords(a));
  }

  lemma PlainLines(g: Readers, h: string, s: string, header: Header, u: Option<string>)
    requires g.header(h) == Some(header)
    requires !Stops(g, s) && g.status(s) == u && g.progress(s) == NoProgress
    ensures Parse(g, [h, s]) == Success([MakeRecord(header, None, u)])
  {
    OneParagraph(g, [h, s]);
    TwoLines(g, [h, s]);
  }

  lemma SyncingLines(g: Readers, h: string, s: string, t: string, header: Header, u: Option<string>, p: Progress)
    requires g.header(h) == Some(header)
    requires !Stops(g, s) && g.status(s) == u && g.progress(s) == NoProgress
    requires !Stops(g, t) && g.status(t) == None && g.progress(t) == Read(p)
    ensures Parse(g, [h, s, t]) == Success([MakeRecord(header, Some(p), u)])
  {
    OneParagraph(g, [h, s, t]);
    ThreeLines(g, [h, s, t]);
  }

  lemma PlainParagraph(a: Array)
    requires PrintableArray(a) && a.progress == None
    ensures Parse(MDSTAT, Paragraph(a)) == Success([Recorded(a)])
  {
    var h, s := HeaderText(a.number, HeaderWords(a)), INDENT + DetailText(a);
    assert Paragraph(a) == [h, s];
    var header := HeaderLineReads(a);
    DetailLineReads(a);
    PlainLines(MDSTAT, h, s, header, UpDown(a));
    RecordReadsBack(a, header, None);
  }

  lemma ProgressLine(p: Bar)
    requires PrintableBar(p)
    ensures var t := INDENT + ProgressText(p);
            !Stops(MDSTAT, t) && MDSTAT.status(t) == None && MDSTAT.progress(t) == Read(ExpectedProgress(p))
  {
    ProgressLineStays(p);
    ProgressLineReads(p);
    ProgressLineStatus(p);
  }

  lemma SyncingParts(a: Array, p: Bar) returns (h: string, s: string, t: string)
    requires a.progress == Some(p)
    ensures h == HeaderText(a.number, HeaderWords(a)) && s == INDENT + DetailText(a) && t == INDENT + ProgressText(p)
    ensures Paragraph(a) == [h, s, t]
  {
    h, s, t := HeaderText(a.number, HeaderWords(a)), INDENT + DetailText(a), INDENT + ProgressText(p);
  }

  lemma SyncingParagraph(a: Array, p: Bar)
    requires PrintableArray(a) && a.progress == Some(p)
    ensures Parse(MDSTAT, Paragraph(a)) == Success([Recorded(a)])
  {
    var h, s, t := SyncingParts(a, p);
    var header := HeaderLineReads(a);
    DetailLineReads(a);
    ProgressLine(p);
    SyncingLines(MDSTAT, h, s, t, header, UpDown(a), ExpectedProgress(p));
    RecordReadsBack(a, header, Some(ExpectedProgress(p)));
  }

  lemma ParagraphReadsBack(a: Array)
    requires PrintableArray(a)
    ensures Parse(MDSTAT, Paragraph(a)) == Success([Recorded(a)])
  {
    if a.progress.Some? {
      SyncingParagraph(a, a.progress.value);
    } else {
      PlainParagraph(a);
    }
  }

  lemma RecordReadsBack(a: Array, header: Header, progress: Option<Progress>)
    requires PrintableArray(a) && progress == MaybeProgress(a)
    requires header == HeaderLine("md" + NatString(a.number), HeaderWords(a))
    ensures MakeRecord(header, progress, UpDown(a)) == Recorded(a)
  {
    LevelReadsBack(a, header);
  }

  // ---------------------------------------------------------------- the whole text

  ghost predicate PrintableList(list: seq<Printed>) { forall p | p in list :: PrintableOne(p) }

  ghost function ExpectedAll(list: seq<Printed>): (r: seq<Record>)
    requires PrintableList(list)
    ensures |r| == |list|
  {
    if list == [] then []
    else
      assert list[0] in list;
      [ExpectedOne(list[0])] + ExpectedAll(list[1..])
  }

  ghost function RecordedAll(list: seq<Printed>): (r: seq<Record>)
    requires PrintableList(list)
    ensures |r| <= |list|
  {
    if list == [] then []
    else
      assert list[0] in list;
      RecordedOne(list[0]) + RecordedAll(list[1..])
  }

  ghost predicate AllTold(list: seq<Printed>)
    requires PrintableList(list)
  {
    forall p | p in list :: ToldOne(p)
  }

  lemma WhenTold(p: Printed)
    requires PrintableOne(p)
    ensures RecordedOne(p) == [ExpectedOne(p)] <==> ToldOne(p)
  {
    match p
    case Active(a) => WhenLevelTold(a);
    case Inactive(number, members, _) =>
      if |members| > 1 {
        assert |InactiveRecord(number, members).members| < |members|;
      }
  }

  lemma {:induction false} WhenAllTold(list: seq<Printed>)
    requires PrintableList(list)
    ensures RecordedAll(list) == ExpectedAll(list) <==> AllTold(list)
    decreases |list|
  {
    if list != [] {
      var p, rest := list[0], list[1..];
      assert p in list && forall q :: q in list <==> q == p || q in rest;
      WhenTold(p);
      WhenAllTold(rest);
      SameParts(RecordedOne(p), RecordedAll(rest), ExpectedOne(p), ExpectedAll(rest));
    }
  }

  // Two lists in pieces, the one never longer than the other.
  lemma SameParts<T>(a: seq<T>, s: seq<T>, b: T, t: seq<T>)
    requires |a| <= 1 && |s| <= |t|
    ensures a + s == [b] + t <==> a == [b] && s == t
  {
    if |a| == 1 {
      SameHeads(a[0], s, b, t);
      assert a == [a[0]];
    } else {
      assert |a + s| < |[b] + t|;
    }
  }

  lemma SameHeads<T>(a: T, s: seq<T>, b: T, t: seq<T>)
    ensures [a] + s == [b] + t <==> a == b && s == t
  {
    assert ([a] + s)[0] == a && ([b] + t)[0] == b && ([a] + s)[1..] == s && ([b] + t)[1..] == t;
  }

  lemma NotStopsBlank()
    ensures BlankLine("") && HeaderOf("") == None
  {
  }

  lemma TrailerReads()
    ensures Parse(MDSTAT, [TRAILER]) == Success([])
  {
    assert TRAILER[0] == 'u' && TRAILER[|TRAILER| - 1] == '>';
    StripId(TRAILER);
    NotAHeader(TRAILER);
    NoHeaderStep(MDSTAT, [TRAILER], 0);
  }

  lemma LinesRead(p: Printed)
    requires PrintableOne(p)
    ensures Parse(MDSTAT, Lines(p)) == Success(RecordedOne(p))
  {
    match p
    case Active(a) => ParagraphReadsBack(a);
    case Inactive(number, members, detail) => InactiveParagraphReads(number, members, detail);
  }

  lemma {:induction false} BodyReadsBack(list: seq<Printed>)
    requires PrintableList(list)
    ensures Parse(MDSTAT, Body(list)) == Success(RecordedAll(list))
    decreases |list|
  {
    if list == [] {
      TrailerReads();
    } else {
      var p, rest := list[0], list[1..];
      assert p in list && forall q | q in rest :: q in list;
      LinesRead(p);
      BodyReadsBack(rest);
      NotStopsBlank();
      ParseConcat(MDSTAT, Lines(p), "", Body(rest));
    }
  }

  lemma NoHeaderInFront(g: Readers, first: string, body: seq<string>)
    requires g.header(first) == None
    ensures Parse(g, [first] + body) == Parse(g, body)
  {
    var lines := [first] + body;
    NoHeaderStep(g, lines, 0);
    RecordsBehind(g, body, lines, 1, 0);
  }

  lemma PrefaceReads(personalities: string, body: seq<string>)
    ensures Parse(MDSTAT, ["Personalities : " + personalities] + body) == Parse(MDSTAT, body)
  {
    PrefaceIsNoHeader("Personalities : " + personalities);
    NoHeaderInFront(MDSTAT, "Personalities : " + personalities, body);
  }

  lemma PrefaceIsNoHeader(line: string)
    requires StartsWith(line, "Personalities")
    ensures HeaderOf(line) == None
  {
    StartsWithChar(line, "Personalities", 0);
    NoLStrip(line);
    var s := Strip(line);
    TrunkShape(line, IsSpace);
    if s != "" {
      assert s[0] == line[0] == 'P';
      NotAHeader(s);
    }
  }

  lemma LinesReadBack(personalities: string, list: seq<Printed>)
    requires PrintableList(list)
    ensures Parse(MDSTAT, PrintedLines(personalities, list)) == Success(RecordedAll(list))
  {
    PrefaceReads(personalities, Body(list));
    BodyReadsBack(list);
  }

  // ---------------------------------------------------------------- lines of the text

  ghost predicate WholeLines(lines: seq<string>) { forall line | line in lines :: No(line, IsBreak) }

  lemma {:induction false} UnlinesSplit(lines: seq<string>)
    requires WholeLines(lines)
    ensures SplitLines(Unlines(lines)) == lines
    decreases |lines|
  {
    if lines != [] {
      var head, tail := HeadTail(lines);
      assert lines[1..] == tail;
      SplitFirstLine(head, Unlines(tail));
      UnlinesSplit(tail);
    }
  }

  lemma GraphHasNoBreak(s: string)
    requires No(s, IsSpace)
    ensures No(s, IsBreak)
  {
  }

  lemma {:induction false} JoinHasNoBreak(words: seq<string>)
    requires AllWords(words)
    ensures No(Join(" ", words), IsBreak)
    decreases |words|
  {
    if words != [] {
      var head, tail := HeadTail(words);
      JoinHead(" ", head, tail);
      GraphHasNoBreak(head);
      JoinHasNoBreak(tail);
      NoAppend(" ", Join(" ", tail), IsBreak);
      NoAppend(head, " " + Join(" ", tail), IsBreak);
    }
  }

  lemma HeaderTextIsWhole(a: Array)
    requires PrintableArray(a)
    ensures No(HeaderText(a.number, HeaderWords(a)), IsBreak)
  {
    HeaderWordsAreWords(a);
    HeaderIsWhole(a.number, HeaderWords(a));
  }

  lemma HeaderIsWhole(number: nat, words: seq<string>)
    requires AllWords(words)
    ensures No(HeaderText(number, words), IsBreak)
  {
    var j := Join(" ", words);
    JoinHasNoBreak(words);
    BreakIsAvoidable();
    DigitsAvoid(number, IsBreak);
    assert No("md", IsBreak) && No(":", IsBreak);
    NoAppend(" ", j, IsBreak);
    NoPieces(NatString(number), " ", ":", " " + j, IsBreak);
    NoAppend("md", NatString(number) + (" " + (":" + (" " + j))), IsBreak);
  }

  lemma PrefaceIsWhole(personalities: string)
    requires No(personalities, IsBreak)
    ensures No("Personalities : " + personalities, IsBreak)
  {
    assert No("Personalities : ", IsBreak);
    NoAppend("Personalities : ", personalities, IsBreak);
  }

  lemma DetailTextIsWhole(a: Array)
    requires PrintableArray(a)
    ensures No(INDENT + DetailText(a), IsBreak)
  {
    SmallPartsAreWhole();
    if a.counts.Some? {
      CountedIsWhole(a.detail, a.counts.value);
    }
    NoAppend(INDENT, DetailText(a), IsBreak);
  }

  lemma CountedIsWhole(detail: string, c: Counts)
    requires PrintableDetail(detail) && PrintableCounts(c)
    ensures No(CountedText(detail, c), IsBreak)
  {
    var end := "[" + (c.upDown + "]");
    BreakIsAvoidable();
    DigitsAvoid(c.total, IsBreak);
    DigitsAvoid(c.active, IsBreak);
    UpDownIsWhole(c.upDown);
    SmallPartsAreWhole();
    NoAppend(c.upDown, "]", IsBreak);
    NoAppend("[", c.upDown + "]", IsBreak);
    NoPieces("/", NatString(c.active), "] ", end, IsBreak);
    NoAppend(NatString(c.total), "/" + (NatString(c.active) + ("] " + end)), IsBreak);
    NoPieces(detail, " ", "[", NatString(c.total) + ("/" + (NatString(c.active) + ("] " + end))), IsBreak);
  }

  lemma UpDownIsWhole(s: string)
    requires All(s, IsUpDown)
    ensures No(s, IsBreak)
  {
  }

  lemma BarIsWhole(s: string)
    requires All(s, IsBar)
    ensures No(s, IsBreak)
  {
  }

  lemma SmallPartsAreWhole()
    ensures No("[", IsBreak) && No("]", IsBreak) && No("] ", IsBreak) && No("  ", IsBreak) && No(INDENT, IsBreak)
  {
  }

  lemma ProgressTextIsWhole(p: Bar)
    requires PrintableBar(p)
    ensures No(INDENT + ProgressText(p), IsBreak)
  {
    BreakIsAvoidable();
    PercentAvoids(p, IsBreak);
    BarIsWhole(p.bar);
    SmallPartsAreWhole();
    KeywordIsLetters(p.keyword);
    NoAppend(p.keyword, PercentText(p), IsBreak);
    NoPieces(p.bar, "]", "  ", p.keyword + PercentText(p), IsBreak);
    NoAppend("[", p.bar + ("]" + ("  " + (p.keyword + PercentText(p)))), IsBreak);
    NoAppend(INDENT, ProgressText(p), IsBreak);
  }

  lemma ParagraphIsWhole(a: Array)
    requires PrintableArray(a)
    ensures WholeLines(Paragraph(a))
  {
    HeaderTextIsWhole(a);
    DetailTextIsWhole(a);
    if a.progress.Some? {
      ProgressTextIsWhole(a.progress.value);
    }
  }

  lemma InactiveIsWhole(number: nat, members: seq<Member>, detail: string)
    requires PrintableInactive(members, detail)
    ensures WholeLines(InactiveParagraph(number, members, detail))
  {
    InactiveWords(members);
    HeaderIsWhole(number, ["inactive"] + Map(members, MemberText));
    SmallPartsAreWhole();
    NoAppend(INDENT, detail, IsBreak);
  }

  lemma LinesAreWhole(p: Printed)
    requires PrintableOne(p)
    ensures WholeLines(Lines(p))
  {
    match p
    case Active(a) => ParagraphIsWhole(a);
    case Inactive(number, members, detail) => InactiveIsWhole(number, members, detail);
  }

  lemma {:induction false} BodyIsWhole(list: seq<Printed>)
    requires PrintableList(list)
    ensures WholeLines(Body(list))
    decreases |list|
  {
    if list == [] {
      assert No(TRAILER, IsBreak);
    } else {
      assert list[0] in list;
      LinesAreWhole(list[0]);
      BodyIsWhole(list[1..]);
    }
  }

  // Any list of arrays, active ones with and without the read-only word, member flags,
  // the [UU] field and a progress line, and inactive ones: what parsing makes of each,
  // and so that it undoes printing exactly if each is active and its level is told.
  lemma ParseUndoesPrint(personalities: string, list: seq<Printed>)
    requires PrintableList(list) && No(personalities, IsBreak)
    ensures var text := Unlines(PrintedLines(personalities, list));
            && Parse(MDSTAT, SplitLines(text)) == Success(RecordedAll(list))
            && (Parse(MDSTAT, SplitLines(text)) == Success(ExpectedAll(list)) <==> AllTold(list))
  {
    var lines := PrintedLines(personalities, list);
    BodyIsWhole(list);
    PrefaceIsWhole(personalities);
    UnlinesSplit(lines);
    LinesReadBack(personalities, list);
    WhenAllTold(list);
  }

  lemma AloneReads(personalities: string, p: Printed)
    requires PrintableOne(p) && No(personalities, IsBreak)
    ensures Parse(MDSTAT, SplitLines(Unlines(PrintedLines(personalities, [p])))) == Success(RecordedOne(p))
  {
    assert [p][1..] == [] && RecordedOne(p) + [] == RecordedOne(p);
    ParseUndoesPrint(personalities, [p]);
  }

  lemma DigitIsDecimal(s: string)
    requires |s| == 1 && IsDigit(s[0])
    ensures All(s, IsDecimal) && Decimal(s).Some?
  {
  }

  lemma SomeBarIsPrintable()
    ensures PrintableBar(Bar("=>.", "recovery", "  ", "5", 1, 20, "7", 9))
  {
    DigitIsDecimal("5");
    DigitIsDecimal("7");
    assert Lower("recovery") == "recovery" == KEYWORDS[1];
  }

  lemma SomeMembersArePrintable()
    ensures Printable(Member("sda3", 0, None)) && Printable(Member("sdb3", 1, Some('S')))
    ensures !StartsWith("sda3", "raid")
  {
    StartsWithChar("sda3", "raid", 0);
  }

  lemma SomeTextsArePrintable()
    ensures IsWord("raid1") && StartsWith("raid1", "raid")
    ensures IsWord("linear") && !StartsWith("linear", "raid")
    ensures PrintableDetail("1 blocks") && EndsPlain("1 blocks") && PrintableCounts(Counts(2, 1, "U_"))
  {
    assert "raid1"[..4] == "raid";
    StartsWithChar("linear", "raid", 0);
  }

  lemma TwoArePrintable(m: Member, n: Member)
    requires Printable(m) && Printable(n)
    ensures forall x | x in [m, n] :: Printable(x)
  {
  }

  // There are such arrays, one with a spare and a recovery running among them.
  lemma SomeArrayIsPrintable()
    ensures exists a :: PrintableArray(a) && LevelTold(a) && a.readOnly && a.counts.Some? && a.progress.Some?
  {
    SomeBarIsPrintable();
    SomeMembersArePrintable();
    SomeTextsArePrintable();
    var m, n := Member("sda3", 0, None), Member("sdb3", 1, Some('S'));
    TwoArePrintable(m, n);
    var a := Array(2, true, "raid1", [m, n], "1 blocks", Some(Counts(2, 1, "U_")), Some(Bar("=>.", "recovery", "  ", "5", 1, 20, "7", 9)));
    assert PrintableArray(a);
  }

  // Printed, parsed, and not what it was.
  ghost predicate Misread(personalities: string, a: Array) {
    && PrintableArray(a) && Recorded(a) != Expected(a)
    && Parse(MDSTAT, SplitLines(Unlines(PrintedLines(personalities, [Active(a)])))) == Success([Recorded(a)])
  }

  // A read-only linear array is recorded with the read-only word for its level.
  lemma LinearIsMisread(personalities: string)
    requires No(personalities, IsBreak)
    ensures exists a :: Misread(personalities, a) && a.level == "linear" && Recorded(a).level == READ_ONLY
  {
    SomeMembersArePrintable();
    SomeTextsArePrintable();
    var m := Member("sda3", 0, None);
    assert forall x | x in [m] :: x == m;
    var a := Array(2, true, "linear", [m], "1 blocks", None, None);
    MisreadAlone(personalities, a);
  }

  lemma MisreadAlone(personalities: string, a: Array)
    requires No(personalities, IsBreak) && PrintableArray(a) && !LevelTold(a)
    ensures Misread(personalities, a)
  {
    WhenLevelTold(a);
    AloneReads(personalities, Active(a));
  }

  // ---------------------------------------------------------------- arrays printed without a level

  lemma InactiveWords(members: seq<Member>)
    requires members != [] && forall m | m in members :: Printable(m)
    ensures AllWords(["inactive"] + Map(members, MemberText))
  {
    MembersReadBack(members);
    FixedWords();
    AllWordsConcat(["inactive"], Map(members, MemberText));
  }

  lemma RecordOfWords(header: Header, first: string, texts: seq<string>)
    requires texts != [] && header.words == ["inactive"] + ([first] + texts)
    ensures MakeRecord(header, None, None)
         == if StartsWith(texts[0], "raid") then Record(header.device, texts[0], "inactive", None, None, ParseMembers(texts[1..]))
            else Record(header.device, first, "inactive", None, None, ParseMembers(texts))
  {
    DropTwo("inactive", first, texts);
  }

  lemma RecordWithoutLevel(header: Header, number: nat, members: seq<Member>)
    requires |members| > 1 && forall m | m in members :: Printable(m)
    requires header == HeaderLine("md" + NatString(number), ["inactive"] + Map(members, MemberText))
    ensures MakeRecord(header, None, None) == InactiveRecord(number, members)
  {
    var first, rest := HeadTail(members);
    MapHead(first, rest, MemberText);
    RaidName(members[1]);
    RecordOfWords(header, MemberText(first), Map(rest, MemberText));
    MembersReadBack(rest);
    MembersReadBack(rest[1..]);
    assert Map(rest, MemberText)[1..] == Map(rest[1..], MemberText);
    assert rest == members[1..] && rest[1..] == members[2..];
  }

  lemma InactiveHeader(number: nat, members: seq<Member>)
    requires members != [] && forall m | m in members :: Printable(m)
    ensures var header := HeaderOf(HeaderText(number, ["inactive"] + Map(members, MemberText)));
            if |members| == 1 then header == None
            else
              header.Some? && MakeRecord(header.value, None, None) == InactiveRecord(number, members)
  {
    var words := ["inactive"] + Map(members, MemberText);
    InactiveWords(members);
    HeaderStrips(number, words);
    HeaderMatches(number, words);
    if |members| >= 2 {
      RecordWithoutLevel(HeaderLine("md" + NatString(number), words), number, members);
    }
  }

  lemma InactiveDetail(detail: string)
    requires PrintableDetail(detail) && EndsPlain(detail)
    ensures var line := INDENT + detail;
            !Stops(MDSTAT, line) && StatusOf(line) == None && ProgressOf(line) == NoProgress && HeaderOf(line) == None
  {
    StatusNone(detail);
    ResyncNone(detail);
    Indented(detail);
    NotAHeader(detail);
    LineStays(INDENT + detail, detail);
  }

  lemma TwoUnread(g: Readers, h: string, s: string)
    requires g.header(h) == None && g.header(s) == None
    ensures Parse(g, [h, s]) == Success([])
  {
    NoHeaderStep(g, [h, s], 0);
    NoHeaderStep(g, [h, s], 1);
  }

  lemma InactiveParagraphReads(number: nat, members: seq<Member>, detail: string)
    requires PrintableInactive(members, detail)
    ensures Parse(MDSTAT, InactiveParagraph(number, members, detail))
         == Success(if |members| == 1 then [] else [InactiveRecord(number, members)])
  {
    var h, s := HeaderText(number, ["inactive"] + Map(members, MemberText)), INDENT + detail;
    InactiveHeader(number, members);
    InactiveDetail(detail);
    if |members| == 1 {
      TwoUnread(MDSTAT, h, s);
    } else {
      PlainLines(MDSTAT, h, s, HeaderOf(h).value, None);
    }
  }

  // A text with one inactive array: exactly what parsing makes of it, which is never
  // the array.
  lemma InactiveArray(personalities: string, number: nat, members: seq<Member>, detail: string)
    requires No(personalities, IsBreak) && PrintableInactive(members, detail)
    ensures var p := Inactive(number, members, detail);
            && Parse(MDSTAT, SplitLines(Unlines(PrintedLines(personalities, [p]))))
               == Success(if |members| == 1 then [] else [InactiveRecord(number, members)])
            && RecordedOne(p) != [ExpectedOne(p)]
  {
    AloneReads(personalities, Inactive(number, members, detail));
    WhenTold(Inactive(number, members, detail));
  }

  // Of an inactive array of sda3 and sdb3 only sdb3 is recorded.
  lemma InactivePairIsMisread(personalities: string)
    requires No(personalities, IsBreak)
    ensures var m, n := Member("sda3", 0, None), Member("sdb3", 1, Some('S'));
            var lines := PrintedLines(personalities, [Inactive(3, [m, n], "1 blocks")]);
            && Parse(MDSTAT, SplitLines(Unlines(lines))) == Success([InactiveRecord(3, [m, n])])
            && InactiveRecord(3, [m, n]).members == [n]
  {
    var m, n := Member("sda3", 0, None), Member("sdb3", 1, Some('S'));
    SomeMembersArePrintable();
    StartsWithChar("sdb3", "raid", 0);
    TwoArePrintable(m, n);
    SomeTextsArePrintable();
    InactiveArray(personalities, 3, [m, n], "1 blocks");
    assert [m, n][1..] == [n];
  }
}
