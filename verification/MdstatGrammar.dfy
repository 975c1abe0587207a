// Exactly what the recognisers of the /proc/mdstat parser accept: each pattern as a
// concatenation of its parts, in both directions.
module MdstatGrammar {
  import opened Wrappers
  import opened Seqs
  import opened Text
  import opened Mdstat
  import opened MdstatPrint

  predicate Digits(s: string) { s != "" && All(s, IsDigit) }
  predicate Gap(s: string) { s != "" && All(s, IsSpace) }

  // ---------------------------------------------------------------- parts

  lemma LiteralParts(s: string, lower: string) returns (a: string)
    requires Literal(s, lower).Some?
    ensures s == a + Literal(s, lower).value && Lower(a) == lower
  {
    a := s[..|lower|];
  }

  lemma RunParts(s: string, p: char -> bool)
    requires Run1(s, p).Some?
    ensures var (a, b) := Run1(s, p).value;
            s == a + b && a != "" && All(a, p) && (b == "" || !p(b[0]))
  {
    SpanShape(s, p);
  }

  lemma NumberParts(s: string) returns (digits: string)
    requires Number(s).Some?
    ensures var (n, b) := Number(s).value;
            s == digits + b && Digits(digits) && ParseNat(digits) == n && (b == "" || !IsDigit(b[0]))
  {
    RunParts(s, IsDigit);
    digits := Run1(s, IsDigit).value.0;
  }

  lemma NumberReads(digits: string, b: string)
    requires Digits(digits) && (b == "" || !IsDigit(b[0]))
    ensures Number(digits + b) == Some((ParseNat(digits), b))
  {
    RunOf(digits, b, IsDigit);
  }

  lemma GapParts(s: string) returns (gap: string)
    requires Blanks1(s).Some?
    ensures s == gap + Blanks1(s).value && Gap(gap)
    ensures var b := Blanks1(s).value; b == "" || !IsSpace(b[0])
  {
    RunParts(s, IsSpace);
    gap := Run1(s, IsSpace).value.0;
  }

  lemma LStripParts(s: string) returns (blanks: string)
    ensures s == blanks + LStrip(s) && All(blanks, IsSpace)
  {
    SpanShape(s, IsSpace);
    blanks := s[..Span(s, IsSpace)];
  }

  lemma LStripOf(blanks: string, t: string)
    requires All(blanks, IsSpace) && t != "" && !IsSpace(t[0])
    ensures LStrip(blanks + t) == t
  {
    if blanks == "" {
      assert blanks + t == t;
      NoLStrip(t);
    } else {
      BlanksOf(blanks, t);
    }
  }

  // ---------------------------------------------------------------- the progress line, part by part

  // speed=95432K/sec, behind blanks.
  ghost predicate SpeedIs(s: string, gap: string, word: string, digits: string, unit: string, rest: string) {
    && Gap(gap) && Lower(word) == "speed=" && Digits(digits) && Lower(unit) == "k/sec"
    && s == gap + (word + (digits + (unit + rest)))
  }

  lemma WhenSpeed(s: string, pct: string, eta: string, c: Captures)
    ensures SpeedAt(pct, eta, s) == Some(c)
       <==> exists gap, word, digits, unit, rest ::
              SpeedIs(s, gap, word, digits, unit, rest) && c == Captures(pct, eta, ParseNat(digits))
  {
    if SpeedAt(pct, eta, s) == Some(c) {
      var gap := GapParts(s);
      var t := Blanks1(s).value;
      var word := LiteralParts(t, "speed=");
      var u := Literal(t, "speed=").value;
      var digits := NumberParts(u);
      var v := Number(u).value.1;
      var unit := LiteralParts(v, "k/sec");
      assert SpeedIs(s, gap, word, digits, unit, Literal(v, "k/sec").value);
    }
    forall gap, word, digits, unit, rest | SpeedIs(s, gap, word, digits, unit, rest)
      ensures SpeedAt(pct, eta, s) == Some(Captures(pct, eta, ParseNat(digits)))
    {
      SpeedReads(s, pct, eta, gap, word, digits, unit, rest);
    }
  }

  lemma SpeedReads(s: string, pct: string, eta: string, gap: string, word: string, digits: string, unit: string, rest: string)
    requires SpeedIs(s, gap, word, digits, unit, rest)
    ensures SpeedAt(pct, eta, s) == Some(Captures(pct, eta, ParseNat(digits)))
  {
    var v := unit + rest;
    var t := word + (digits + v);
    FirstIs(word, "speed=", digits + v);
    FirstIs(unit, "k/sec", rest);
    BlanksOf(gap, t);
    LiteralAny(word, digits + v);
    NumberReads(digits, v);
    LiteralAny(unit, rest);
  }

  // finish=2156.4min, and what follows.
  ghost predicate FinishIs(s: string, word: string, eta: string, unit: string, tail: string) {
    Lower(word) == "finish=" && eta != "" && All(eta, IsDecimal) && Lower(unit) == "min" && s == word + (eta + (unit + tail))
  }

  lemma WhenFinish(s: string, pct: string, c: Captures)
    ensures FinishAt(pct, s) == Some(c)
       <==> exists word, eta, unit, tail :: FinishIs(s, word, eta, unit, tail) && SpeedAt(pct, eta, tail) == Some(c)
  {
    if FinishAt(pct, s) == Some(c) {
      var word := LiteralParts(s, "finish=");
      var t := Literal(s, "finish=").value;
      RunParts(t, IsDecimal);
      var (eta, u) := Run1(t, IsDecimal).value;
      var unit := LiteralParts(u, "min");
      assert FinishIs(s, word, eta, unit, Literal(u, "min").value);
    }
    forall word, eta, unit, tail | FinishIs(s, word, eta, unit, tail)
      ensures FinishAt(pct, s) == SpeedAt(pct, eta, tail)
    {
      FinishReads(s, pct, word, eta, unit, tail);
    }
  }

  lemma FinishReads(s: string, pct: string, word: string, eta: string, unit: string, tail: string)
    requires FinishIs(s, word, eta, unit, tail)
    ensures FinishAt(pct, s) == SpeedAt(pct, eta, tail)
    ensures s != "" && !IsSpace(s[0])
  {
    var u := unit + tail;
    LiteralAny(word, eta + u);
    FirstIs(word, "finish=", eta + u);
    FirstIs(unit, "min", tail);
    RunOf(eta, u, IsDecimal);
    LiteralAny(unit, tail);
  }

  // The first character of a word in any case.
  lemma FirstIs(word: string, lower: string, rest: string)
    requires Lower(word) == lower && lower != ""
    ensures word != "" && LowerChar((word + rest)[0]) == lower[0]
  {
    assert Lower(word)[0] == lower[0];
  }

  lemma NotBlankOrNumber(c: char)
    requires 'a' <= LowerChar(c) <= 'z'
    ensures !IsSpace(c) && !IsDecimal(c)
  {
  }

  // total), blanks, and what follows.
  ghost predicate TotalIs(s: string, digits: string, gap: string, tail: string) {
    Digits(digits) && Gap(gap) && s == digits + (")" + (gap + tail))
  }

  lemma WhenTotal(s: string, pct: string, c: Captures)
    ensures TotalAt(pct, s) == Some(c)
       <==> exists digits, gap, tail :: TotalIs(s, digits, gap, tail) && FinishAt(pct, tail) == Some(c)
  {
    if TotalAt(pct, s) == Some(c) {
      var digits := NumberParts(s);
      var t := Number(s).value.1;
      var close := LiteralParts(t, ")");
      OneSign(close, ')');
      var u := Literal(t, ")").value;
      var gap := GapParts(u);
      assert TotalIs(s, digits, gap, Blanks1(u).value);
    }
    forall digits, gap, tail | TotalIs(s, digits, gap, tail) && FinishAt(pct, tail) == Some(c)
      ensures TotalAt(pct, s) == Some(c)
    {
      WhenFinish(tail, pct, c);
      var word, eta, unit, rest :| FinishIs(tail, word, eta, unit, rest) && SpeedAt(pct, eta, rest) == Some(c);
      FinishReads(tail, pct, word, eta, unit, rest);
      NumberReads(digits, ")" + (gap + tail));
      LiteralOf(")", gap + tail);
      BlanksOf(gap, tail);
    }
  }

  // A sign has no other case.
  lemma OneSign(a: string, c: char)
    requires Lower(a) == [c] && !('a' <= c <= 'z')
    ensures a == [c]
  {
    assert Lower(a)[0] == LowerChar(a[0]);
  }

  // Blanks, (done/ and what follows.
  ghost predicate DoneIs(s: string, gap: string, digits: string, tail: string) {
    Gap(gap) && Digits(digits) && s == gap + ("(" + (digits + ("/" + tail)))
  }

  lemma WhenDone(s: string, pct: string, c: Captures)
    ensures DoneAt(pct, s) == Some(c)
       <==> exists gap, digits, tail :: DoneIs(s, gap, digits, tail) && TotalAt(pct, tail) == Some(c)
  {
    if DoneAt(pct, s) == Some(c) {
      var gap := GapParts(s);
      var t := Blanks1(s).value;
      var open := LiteralParts(t, "(");
      OneSign(open, '(');
      var u := Literal(t, "(").value;
      var digits := NumberParts(u);
      var v := Number(u).value.1;
      var slash := LiteralParts(v, "/");
      OneSign(slash, '/');
      assert DoneIs(s, gap, digits, Literal(v, "/").value);
    }
    forall gap, digits, tail | DoneIs(s, gap, digits, tail)
      ensures DoneAt(pct, s) == TotalAt(pct, tail)
    {
      BlanksOf(gap, "(" + (digits + ("/" + tail)));
      LiteralOf("(", digits + ("/" + tail));
      NumberReads(digits, "/" + tail);
      LiteralOf("/", tail);
    }
  }

  // = 47.3% with any blanks or none around the sign, and what follows.
  ghost predicate PercentIs(s: string, before: string, after: string, pct: string, tail: string) {
    && All(before, IsSpace) && All(after, IsSpace) && pct != "" && All(pct, IsDecimal)
    && s == before + ("=" + (after + (pct + ("%" + tail))))
  }

  lemma WhenPercent(s: string, c: Captures)
    ensures ProgressAt(s) == Some(c)
       <==> exists before, after, pct, tail :: PercentIs(s, before, after, pct, tail) && DoneAt(pct, tail) == Some(c)
  {
    if ProgressAt(s) == Some(c) {
      var before := LStripParts(s);
      var t := LStrip(s);
      var sign := LiteralParts(t, "=");
      OneSign(sign, '=');
      var u := Literal(t, "=").value;
      var after := LStripParts(u);
      var v := LStrip(u);
      RunParts(v, IsDecimal);
      var (pct, w) := Run1(v, IsDecimal).value;
      var percent := LiteralParts(w, "%");
      OneSign(percent, '%');
      assert PercentIs(s, before, after, pct, Literal(w, "%").value);
    }
    forall before, after, pct, tail | PercentIs(s, before, after, pct, tail)
      ensures ProgressAt(s) == DoneAt(pct, tail)
    {
      var v := pct + ("%" + tail);
      assert IsDecimal(pct[0]);
      LStripOf(before, "=" + (after + v));
      LiteralOf("=", after + v);
      LStripOf(after, v);
      RunOf(pct, "%" + tail, IsDecimal);
      LiteralOf("%", tail);
    }
  }

  lemma WhenKeyword(s: string, rest: string)
    ensures KeywordAt(s) == Some(rest) <==> exists word :: Lower(word) in KEYWORDS && s == word + rest
  {
    if KeywordAt(s) == Some(rest) {
      var lower := if Literal(s, "resync").Some? then "resync" else if Literal(s, "recovery").Some? then "recovery"
                   else if Literal(s, "reshape").Some? then "reshape" else "check";
      var word := LiteralParts(s, lower);
    }
    forall word | Lower(word) in KEYWORDS && s == word + rest
      ensures KeywordAt(s) == Some(rest)
    {
      KeywordReads(word, rest);
    }
  }

  // [===>...], blanks, a keyword, and what follows.
  ghost predicate BarIs(s: string, bar: string, gap: string, word: string, tail: string) {
    bar != "" && All(bar, IsBar) && Gap(gap) && Lower(word) in KEYWORDS && s == "[" + (bar + ("]" + (gap + (word + tail))))
  }

  lemma WhenBar(s: string, c: Captures)
    ensures ResyncAt(s) == Some(c)
       <==> exists bar, gap, word, tail :: BarIs(s, bar, gap, word, tail) && ProgressAt(tail) == Some(c)
  {
    if ResyncAt(s) == Some(c) {
      var open := LiteralParts(s, "[");
      OneSign(open, '[');
      var t := Literal(s, "[").value;
      RunParts(t, IsBar);
      var (bar, u) := Run1(t, IsBar).value;
      var close := LiteralParts(u, "]");
      OneSign(close, ']');
      var v := Literal(u, "]").value;
      var gap := GapParts(v);
      var w := Blanks1(v).value;
      WhenKeyword(w, KeywordAt(w).value);
      var word :| Lower(word) in KEYWORDS && w == word + KeywordAt(w).value;
      assert BarIs(s, bar, gap, word, KeywordAt(w).value);
    }
    forall bar, gap, word, tail | BarIs(s, bar, gap, word, tail)
      ensures ResyncAt(s) == ProgressAt(tail)
    {
      var w := word + tail;
      BracketThen(bar, gap + w);
      KeywordIsLetters(word);
      BlanksOf(gap, w);
      KeywordReads(word, tail);
    }
  }

  // ---------------------------------------------------------------- the leftmost match

  // Where a search finds its match: the first place that has one.
  ghost predicate FirstPlace(s: string, k: int, at: string -> bool) {
    0 <= k <= |s| && at(s[k..]) && forall j | 0 <= j < k :: !at(s[j..])
  }

  lemma {:induction false} WhenResyncFound(s: string)
    ensures SearchResync(s) == None <==> forall k | 0 <= k <= |s| :: ResyncAt(s[k..]) == None
    ensures forall k | FirstPlace(s, k, t => ResyncAt(t).Some?) :: SearchResync(s) == ResyncAt(s[k..])
    decreases |s|
  {
    assert s[0..] == s;
    if ResyncAt(s) == None && s != "" {
      WhenResyncFound(s[1..]);
      assert forall k | 1 <= k <= |s| :: s[k..] == s[1..][k - 1..];
      forall k | FirstPlace(s, k, t => ResyncAt(t).Some?)
        ensures SearchResync(s) == ResyncAt(s[k..])
      {
        assert FirstPlace(s[1..], k - 1, t => ResyncAt(t).Some?);
      }
    }
  }

  // [U_U] with at least one letter.
  lemma WhenStatusAt(s: string, u: string)
    ensures StatusAt(s) == Some(u)
       <==> u != "" && All(u, IsUpDown) && exists rest :: s == "[" + (u + ("]" + rest))
  {
    if StatusAt(s) == Some(u) {
      var t := s[1..];
      var n := Span(t, IsUpDown);
      SpanShape(t, IsUpDown);
      assert t == u + ([t[n]] + t[n + 1..]);
      assert s == "[" + (u + ("]" + t[n + 1..]));
    }
    forall rest | u != "" && All(u, IsUpDown) && s == "[" + (u + ("]" + rest))
      ensures StatusAt(s) == Some(u)
    {
      var t := u + ("]" + rest);
      assert s[1..] == t;
      SpanIs(u, "]" + rest, IsUpDown);
      assert t[..|u|] == u;
    }
  }

  lemma {:induction false} WhenStatusFound(s: string)
    ensures SearchStatus(s) == None <==> forall k | 0 <= k <= |s| :: StatusAt(s[k..]) == None
    ensures forall k | FirstPlace(s, k, t => StatusAt(t).Some?) :: SearchStatus(s) == StatusAt(s[k..])
    decreases |s|
  {
    assert s[0..] == s;
    if StatusAt(s) == None && s != "" {
      WhenStatusFound(s[1..]);
      assert forall k | 1 <= k <= |s| :: s[k..] == s[1..][k - 1..];
      forall k | FirstPlace(s, k, t => StatusAt(t).Some?)
        ensures SearchStatus(s) == StatusAt(s[k..])
      {
        assert FirstPlace(s[1..], k - 1, t => StatusAt(t).Some?);
      }
    }
  }

  // ---------------------------------------------------------------- members and headers

  // [index], and what follows.
  lemma WhenIndexAt(s: string, n: nat, rest: string)
    ensures IndexAt(s) == Some((n, rest)) <==> exists digits :: Digits(digits) && ParseNat(digits) == n && s == "[" + (digits + ("]" + rest))
  {
    if IndexAt(s) == Some((n, rest)) {
      var t := s[1..];
      var k := Span(t, IsDigit);
      SpanShape(t, IsDigit);
      assert t == t[..k] + ([t[k]] + t[k + 1..]);
      assert Digits(t[..k]) && s == "[" + (t[..k] + ("]" + rest));
    }
    forall digits | Digits(digits) && ParseNat(digits) == n && s == "[" + (digits + ("]" + rest))
      ensures IndexAt(s) == Some((n, rest))
    {
      var t := digits + ("]" + rest);
      assert s[1..] == t;
      SpanIs(digits, "]" + rest, IsDigit);
      assert t[..|digits|] == digits && t[|digits| + 1..] == rest;
    }
  }

  lemma WhenFlagAt(s: string, c: char)
    ensures FlagAt(s) == Some(c) <==> (c == 'F' || c == 'S' || c == 'R') && ['(', c, ')'] <= s
  {
    Classes();
  }

  // The member at place k of a token: an index there, behind one character or more.
  ghost function MemberAt(disk: string, s: string, k: int): Option<Member>
    requires 0 <= k <= |s|
  {
    var found := IndexAt(s[k..]);
    if disk + s[..k] == "" || found == None then None
    else Some(Member(disk + s[..k], found.value.0, FlagAt(found.value.1)))
  }

  ghost predicate FirstMember(disk: string, s: string, k: int) {
    0 <= k <= |s| && MemberAt(disk, s, k).Some? && forall j | 0 <= j < k :: MemberAt(disk, s, j) == None
  }

  lemma MemberHere(disk: string, s: string)
    ensures MemberAt(disk, s, 0).Some? <==> disk != "" && IndexAt(s).Some?
    ensures MemberAt(disk, s, 0).Some? ==> SearchMember(disk, s) == MemberAt(disk, s, 0)
  {
    assert s[0..] == s && disk + s[..0] == disk;
  }

  lemma MemberBehind(disk: string, s: string, k: int)
    requires 1 <= k <= |s|
    ensures MemberAt(disk, s, k) == MemberAt(disk + [s[0]], s[1..], k - 1)
  {
    assert s[k..] == s[1..][k - 1..];
    assert s[..k] == [s[0]] + s[1..][..k - 1];
    Assoc(disk, [s[0]], s[1..][..k - 1]);
  }

  // A token is a member at the first place that has one, and no member if there is none.
  lemma {:induction false} WhenMemberFound(disk: string, s: string)
    ensures SearchMember(disk, s) == None <==> forall k | 0 <= k <= |s| :: MemberAt(disk, s, k) == None
    ensures forall k | FirstMember(disk, s, k) :: SearchMember(disk, s) == MemberAt(disk, s, k)
    decreases |s|
  {
    MemberHere(disk, s);
    if s != "" && MemberAt(disk, s, 0) == None {
      var next, tail := disk + [s[0]], s[1..];
      WhenMemberFound(next, tail);
      forall k | 1 <= k <= |s|
        ensures MemberAt(disk, s, k) == MemberAt(next, tail, k - 1)
      {
        MemberBehind(disk, s, k);
      }
      MembersBehind(disk, s);
    }
  }

  lemma MembersBehind(disk: string, s: string)
    requires s != ""
    ensures (forall k | 1 <= k <= |s| :: MemberAt(disk, s, k) == None)
       <==> (forall k | 0 <= k <= |s| - 1 :: MemberAt(disk + [s[0]], s[1..], k) == None)
    ensures MemberAt(disk, s, 0) == None ==>
              forall k | FirstMember(disk, s, k) :: k > 0 && FirstMember(disk + [s[0]], s[1..], k - 1)
  {
    forall k | 1 <= k <= |s|
      ensures MemberAt(disk, s, k) == MemberAt(disk + [s[0]], s[1..], k - 1)
    {
      MemberBehind(disk, s, k);
    }
    assert forall k | 0 <= k <= |s| - 1 :: MemberAt(disk + [s[0]], s[1..], k) == MemberAt(disk, s, k + 1);
  }

  // md and a number, a colon with any blanks around it, and three words or more.
  lemma WhenHeader(line: string, header: Header)
    ensures MatchHeader(line) == Some(header)
       <==> exists digits, gap, rest ::
              HeaderIs(line, digits, gap, rest) && header == HeaderLine("md" + digits, Words(rest)) && |Words(rest)| >= 3
  {
    if MatchHeader(line) == Some(header) {
      var digits, gap, rest := HeaderTaken(line, header);
    }
    forall digits, gap, rest | HeaderIs(line, digits, gap, rest) && |Words(rest)| >= 3
      ensures MatchHeader(line) == Some(HeaderLine("md" + digits, Words(rest)))
    {
      HeaderReads(line, digits, gap, rest);
    }
  }

  ghost predicate HeaderIs(line: string, digits: string, gap: string, rest: string) {
    Digits(digits) && All(gap, IsSpace) && line == "md" + (digits + (gap + (":" + rest)))
  }

  lemma HeaderTaken(line: string, header: Header) returns (digits: string, gap: string, rest: string)
    requires MatchHeader(line) == Some(header)
    ensures HeaderIs(line, digits, gap, rest) && header == HeaderLine("md" + digits, Words(rest)) && |Words(rest)| >= 3
  {
    Matched(line, header);
    ColonMatched(line, header);
    var n := Span(line[2..], IsDigit);
    var tail := MdTaken(line);
    var behind := line[2 + n..];
    rest := LStrip(behind)[1..];
    ColonTaken(LStrip(behind), rest);
    digits, gap := DigitsTaken(line, tail, behind, n, rest);
  }

  lemma Matched(line: string, header: Header)
    requires MatchHeader(line) == Some(header)
    ensures "md" <= line && Span(line[2..], IsDigit) > 0
    ensures header.device == line[..2 + Span(line[2..], IsDigit)]
  {
  }

  lemma ColonMatched(line: string, header: Header)
    requires "md" <= line && MatchHeader(line) == Some(header)
    ensures var behind := LStrip(line[2 + Span(line[2..], IsDigit)..]);
            && behind != "" && behind[0] == ':'
            && |Words(behind[1..])| >= 3 && header.words == Words(behind[1..])
  {
  }

  lemma MdTaken(line: string) returns (tail: string)
    requires "md" <= line
    ensures line == "md" + tail && tail == line[2..]
    ensures forall n | 0 <= n <= |tail| :: tail[n..] == line[2 + n..]
  {
    tail := line[2..];
  }

  lemma ColonTaken(s: string, rest: string)
    requires s != "" && s[0] == ':' && rest == s[1..]
    ensures s == ":" + rest
  {
  }

  lemma DigitsTaken(line: string, tail: string, behind: string, n: nat, rest: string) returns (digits: string, gap: string)
    requires line == "md" + tail && n > 0 && n == Span(tail, IsDigit) && n <= |tail| && behind == tail[n..]
    requires LStrip(behind) == ":" + rest
    ensures HeaderIs(line, digits, gap, rest) && line[..2 + n] == "md" + digits
  {
    SpanShape(tail, IsDigit);
    gap := LStripParts(behind);
    digits := tail[..n];
    assert tail == digits + behind;
  }

  lemma HeaderReads(line: string, digits: string, gap: string, rest: string)
    requires HeaderIs(line, digits, gap, rest)
    ensures MatchHeader(line) == if |Words(rest)| < 3 then None else Some(HeaderLine("md" + digits, Words(rest)))
  {
    var tail := gap + (":" + rest);
    PartsOf("md", digits + tail);
    assert tail[0] == if gap == "" then ':' else gap[0];
    RunOf(digits, tail, IsDigit);
    Assoc("md", digits, tail);
    PartsOf("md" + digits, tail);
    LStripOf(gap, ":" + rest);
    MatchesByParts(line, |digits|, rest);
  }
}
