// The contents of an authorized_keys file: reading entries off the text, writing
// entries back, and what adding and removing a key make of the text, call by call.
module KeyFile {
  import opened Wrappers
  import opened Text
  import opened Seqs
  import opened Keys

  // ---------------------------------------------------------------- entries and text

  // A trimmed line that is neither blank nor a comment line.
  predicate IsKept(line: string) { line != "" && line[0] != '#' }

  function KeepEntries(lines: seq<string>): seq<string> { Filter(Map(lines, Strip), IsKept) }

  function Entries(contents: string): seq<string> { KeepEntries(SplitLines(contents)) }

  function JoinEntries(entries: seq<string>): string {
    if entries == [] then "" else Join("\n", entries) + "\n"
  }

  predicate IsEntry(e: string) {
    e != "" && e[0] != '#' && Stripped(e) && No(e, IsBreak)
  }

  predicate AllEntries(es: seq<string>) { forall e | e in es :: IsEntry(e) }

  lemma KeepConcat(a: seq<string>, b: seq<string>)
    ensures KeepEntries(a + b) == KeepEntries(a) + KeepEntries(b)
  {
    MapConcat(a, b, Strip);
    FilterConcat(Map(a, Strip), Map(b, Strip), IsKept);
  }

  lemma KeepOne(line: string)
    ensures KeepEntries([line]) == if IsKept(Strip(line)) then [Strip(line)] else []
  {
    assert Map([line], Strip) == [Strip(line)];
  }

  lemma EntriesOfFirstLine(line: string, rest: string)
    requires No(line, IsBreak)
    ensures Entries(line + "\n" + rest) == KeepEntries([line]) + Entries(rest)
  {
    SplitFirstLine(line, rest);
    KeepConcat([line], SplitLines(rest));
  }

  lemma KeepNext(lines: seq<string>, i: nat)
    requires i < |lines|
    ensures KeepEntries(lines[..i + 1])
         == KeepEntries(lines[..i]) + (if IsKept(Strip(lines[i])) then [Strip(lines[i])] else [])
  {
    assert lines[..i + 1] == lines[..i] + [lines[i]];
    KeepConcat(lines[..i], [lines[i]]);
    KeepOne(lines[i]);
  }

  method SplitAuthorizedKeys(contents: string) returns (out: seq<string>)
    ensures out == Entries(contents)
  {
    var lines := SplitLines(contents);
    out := [];
    for i := 0 to |lines|
      invariant out == KeepEntries(lines[..i])
    {
      KeepNext(lines, i);
      var line := Strip(lines[i]);
      if !IsKept(line) {
        continue;
      }
      out := out + [line];
    }
    assert lines[..|lines|] == lines;
  }

  lemma KeptAreEntries(lines: seq<string>)
    requires forall line | line in lines :: No(line, IsBreak)
    ensures AllEntries(KeepEntries(lines))
  {
    forall e | e in KeepEntries(lines)
      ensures IsEntry(e)
    {
      var i :| 0 <= i < |lines| && e == Strip(lines[i]);
      assert lines[i] in lines;
      StripKeeps(lines[i], IsBreak);
      StripShape(lines[i]);
    }
  }

  // Everything read from a file is a trimmed single line.
  lemma EntriesAreEntries(contents: string)
    ensures AllEntries(Entries(contents))
  {
    LinesHaveNoBreak(contents);
    KeptAreEntries(SplitLines(contents));
  }

  lemma JoinStep(e: string, es: seq<string>)
    ensures JoinEntries([e] + es) == e + "\n" + JoinEntries(es)
  {
    var all := [e] + es;
    assert all[1..] == es;
    if es != [] {
      assert e + "\n" + Join("\n", es) + "\n" == e + "\n" + (Join("\n", es) + "\n");
    } else {
      assert e + "\n" + "" == e + "\n";
    }
  }

  lemma EntriesOfJoinStep(e: string, es: seq<string>)
    requires IsEntry(e)
    ensures Entries(JoinEntries([e] + es)) == [e] + Entries(JoinEntries(es))
  {
    JoinStep(e, es);
    EntriesOfFirstLine(e, JoinEntries(es));
    StripId(e);
    KeepOne(e);
  }

  lemma EntriesOfClosedLine(line: string)
    requires line != "" && Stripped(line)
    ensures Entries(JoinEntries([line])) == Entries(line)
  {
    SplitClosed(line);
  }

  // Writing entries followed by one more trimmed line: the entries come back, then
  // whatever that line reads as.
  lemma {:induction false} EntriesAfterAppend(es: seq<string>, line: string)
    requires AllEntries(es) && line != "" && Stripped(line)
    ensures Entries(JoinEntries(es + [line])) == es + Entries(line)
    decreases |es|
  {
    if es == [] {
      assert es + [line] == [line] && es + Entries(line) == Entries(line);
      EntriesOfClosedLine(line);
    } else {
      var e, tail := HeadTail(es);
      calc {
        Entries(JoinEntries(es + [line]));
        { Assoc([e], tail, [line]); EntriesOfJoinStep(e, tail + [line]); }
        [e] + Entries(JoinEntries(tail + [line]));
        { EntriesAfterAppend(tail, line); }
        [e] + (tail + Entries(line));
        { Assoc([e], tail, Entries(line)); }
        es + Entries(line);
      }
    }
  }

  // Splitting undoes joining, for every list of entries.
  lemma {:induction false} EntriesOfJoin(es: seq<string>)
    requires AllEntries(es)
    ensures Entries(JoinEntries(es)) == es
    decreases |es|
  {
    if es == [] {
      NoEntries();
    } else {
      var e, tail := HeadTail(es);
      EntriesOfJoinStep(e, tail);
      EntriesOfJoin(tail);
    }
  }

  lemma NoEntries()
    ensures Entries("") == []
  {
  }

  lemma EntryReadsBack(e: string)
    requires IsEntry(e)
    ensures Entries(e) == [e]
  {
    EntriesOfClosedLine(e);
    EntriesOfJoinStep(e, []);
    NoEntries();
    assert [e] + [] == [e];
  }

  // ---------------------------------------------------------------- add and remove

  // What identifies an entry: its fingerprint, if it parses as a key at all. The
  // lists are worked on through such a reading of entries.
  type Reading = string -> Option<string>

  function EntryFingerprint(hash: Hash, e: string): Option<string> {
    match ParseKey(e)
    case Success(key) => Some(Fingerprint(hash, key.blob))
    case Failure(_) => None
  }

  function Fingerprints(hash: Hash): Reading { e => EntryFingerprint(hash, e) }

  function Differs(id: Reading, fp: string): string -> bool { e => id(e) != Some(fp) }

  function Without(id: Reading, es: seq<string>, fp: string): seq<string> {
    Filter(es, Differs(id, fp))
  }

  predicate Present(id: Reading, es: seq<string>, fp: string) {
    exists e | e in es :: id(e) == Some(fp)
  }

  lemma PresentIffRemoves(id: Reading, es: seq<string>, fp: string)
    ensures Present(id, es, fp) <==> Without(id, es, fp) != es
    ensures Present(id, es, fp) <==> |Without(id, es, fp)| < |es|
    ensures !Present(id, Without(id, es, fp), fp)
  {
    FilterAll(es, Differs(id, fp));
  }

  // The scan for a key that is already there.
  method FindFingerprint(id: Reading, entries: seq<string>, fp: string) returns (present: bool)
    ensures present == Present(id, entries, fp)
  {
    for i := 0 to |entries|
      invariant forall k | 0 <= k < i :: id(entries[k]) != Some(fp)
    {
      var found := id(entries[i]);
      if found == None {
        continue;
      }
      if found.value == fp {
        return true;
      }
    }
    return false;
  }

  // The scan that drops every entry with the fingerprint and counts them.
  method DropFingerprint(id: Reading, entries: seq<string>, fp: string) returns (kept: seq<string>, removedCount: nat)
    ensures kept == Without(id, entries, fp)
    ensures removedCount == |entries| - |kept|
  {
    ghost var differs := Differs(id, fp);
    kept, removedCount := [], 0;
    for i := 0 to |entries|
      invariant kept == Filter(entries[..i], differs)
      invariant removedCount == i - |kept|
    {
      FilterNext(entries, i, differs);
      var found := id(entries[i]);
      if found == None {
        kept := kept + [entries[i]];
        continue;
      }
      if found.value == fp {
        removedCount := removedCount + 1;
        continue;
      }
      kept := kept + [entries[i]];
    }
    assert entries[..|entries|] == entries;
  }

  // The text an add of one line leaves: unchanged if its key is there, else rewritten
  // with one more line.
  function AddTo(id: Reading, contents: string, line: string, fp: string): string {
    if Present(id, Entries(contents), fp) then contents else JoinEntries(Entries(contents) + [line])
  }

  // The text a remove leaves: unchanged if nothing matches, else rewritten without the matches.
  function RemoveFrom(id: Reading, contents: string, fp: string): string {
    var kept := Without(id, Entries(contents), fp);
    if kept == Entries(contents) then contents else JoinEntries(kept)
  }

  function RemovedCount(id: Reading, contents: string, fp: string): int {
    |Entries(contents)| - |Without(id, Entries(contents), fp)|
  }

  // ---------------------------------------------------------------- comments of several lines

  predicate SingleLine(key: PublicKey) { No(key.comment, IsBreak) }

  // The comment behind its first line break.
  function CommentTail(comment: string): string {
    var k := SpanNot(comment, IsBreak);
    if k == |comment| then "" else comment[k + BreakLength(comment[k..])..]
  }

  // The key as the first line of its comment shows it.
  function FirstLineOf(key: PublicKey): PublicKey {
    var k := SpanNot(key.comment, IsBreak);
    if k == |key.comment| then key else key.(comment := RStrip(key.comment[..k]))
  }

  lemma FirstLineIsWellFormed(key: PublicKey)
    requires WellFormed(key)
    ensures WellFormed(FirstLineOf(key))
    ensures No(FirstLineOf(key).comment, IsBreak)
    ensures key.comment != "" ==> FirstLineOf(key).comment != ""
  {
    if SingleLine(key) {
      SpanNotShape(key.comment, IsBreak);
    } else {
      var p, q := CutComment(key);
      assert key.comment[0] == (p + q)[0];
      assert p != "" && p[0] == key.comment[0];
      FirstPart(p);
    }
  }

  lemma FirstPart(p: string)
    requires p != "" && !IsSpace(p[0]) && No(p, IsBreak)
    ensures var r := RStrip(p);
            r != "" && Stripped(r) && OneLine(r) && No(r, IsBreak)
  {
    TrunkShape(p, IsSpace);
    var n := Trunk(p, IsSpace);
    assert p[n..] != "" ==> IsSpace(p[n..][0]);
    NoPart(p, 0, n, IsBreak);
    assert p[0..n] == RStrip(p);
    NoBreakIsOneLine(RStrip(p));
  }

  lemma EntriesAtBreak(a: string, b: string)
    requires No(a, IsBreak) && b != "" && IsBreak(b[0])
    ensures Entries(a + b) == KeepEntries([a]) + Entries(b[BreakLength(b)..])
  {
    SplitAtBreak(a, b);
    KeepConcat([a], SplitLines(b[BreakLength(b)..]));
  }

  // A comment of several lines in pieces: p is its first line, q the rest with the break.
  predicate CommentPieces(key: PublicKey, p: string, q: string) {
    && key.comment == p + q
    && No(p, IsBreak) && q != "" && IsBreak(q[0])
    && CommentTail(key.comment) == q[BreakLength(q)..]
    && FirstLineOf(key) == key.(comment := RStrip(p))
  }

  lemma CutComment(key: PublicKey) returns (p: string, q: string)
    requires !SingleLine(key)
    ensures CommentPieces(key, p, q)
  {
    p, q := CutAtBreak(key.comment);
  }

  lemma FirstLineCut(key: PublicKey, p: string, q: string)
    requires WellFormed(key) && CommentPieces(key, p, q)
    ensures ComposeLine(key) == (Head(key) + (" " + p)) + q
    ensures No(Head(key) + (" " + p), IsBreak)
  {
    var h := Head(key);
    HeadShape(key);
    NoAppend(" ", p, IsBreak);
    NoAppend(h, " " + p, IsBreak);
    ComposeIsHead(key);
    Regroup(h, " ", p, q);
  }

  lemma TrimmedTail(p: string) returns (r: string, pad: string)
    ensures r == RStrip(p) && p == r + pad && All(pad, IsSpace)
  {
    TrunkShape(p, IsSpace);
    r, pad := RStrip(p), p[Trunk(p, IsSpace)..];
  }

  lemma FirstLineKept(key: PublicKey, p: string, q: string)
    requires WellFormed(key) && CommentPieces(key, p, q)
    ensures KeepEntries([Head(key) + (" " + p)]) == [ComposeLine(FirstLineOf(key))]
  {
    var first, a := FirstLineOf(key), Head(key) + (" " + p);
    FirstLineIsWellFormed(key);
    ComposeShape(first);
    ComposeIsHead(first);
    var r, pad := TrimmedTail(p);
    Regroup(Head(key), " ", r, pad);
    StripTrailing(ComposeLine(first), pad);
    KeepOne(a);
  }

  // The first entry a composed line reads as holds the same key; the others are
  // the entries of the comment's later lines.
  lemma ComposedLineReads(key: PublicKey)
    requires WellFormed(key)
    ensures Entries(ComposeLine(key)) == [ComposeLine(FirstLineOf(key))] + Entries(CommentTail(key.comment))
  {
    if SingleLine(key) {
      ComposeShape(key);
      TailOfSingleEntries(key);
      EntryReadsBack(ComposeLine(key));
    } else {
      var p, q := CutComment(key);
      FirstLineCut(key, p, q);
      FirstLineKept(key, p, q);
      EntriesAtBreak(Head(key) + (" " + p), q);
    }
  }

  // ---------------------------------------------------------------- what one call does

  // The reading gives every line of this key the fingerprint, whatever its comment.
  ghost predicate Identifies(id: Reading, key: PublicKey, fp: string) {
    forall first | WellFormed(first) && first.blob == key.blob :: id(ComposeLine(first)) == Some(fp)
  }

  lemma FingerprintIdentifies(hash: Hash, key: PublicKey)
    ensures Identifies(Fingerprints(hash), key, Fingerprint(hash, key.blob))
  {
    forall first | WellFormed(first) && first.blob == key.blob
      ensures Fingerprints(hash)(ComposeLine(first)) == Some(Fingerprint(hash, key.blob))
    {
      ParseOfCompose(first);
    }
  }

  // The entries after an add that writes: all the old ones in order, the new key's
  // entry, and the entries of the comment's later lines.
  lemma EntriesAfterAdd(id: Reading, contents: string, key: PublicKey, fp: string)
    requires WellFormed(key) && Identifies(id, key, fp)
    requires !Present(id, Entries(contents), fp)
    ensures Entries(AddTo(id, contents, ComposeLine(key), fp))
         == Entries(contents) + ([ComposeLine(FirstLineOf(key))] + Entries(CommentTail(key.comment)))
    ensures id(ComposeLine(FirstLineOf(key))) == Some(fp)
  {
    EntriesAreEntries(contents);
    ComposeShape(key);
    EntriesAfterAppend(Entries(contents), ComposeLine(key));
    ComposedLineReads(key);
    FirstLineIsWellFormed(key);
  }

  lemma EntriesAfterRemove(id: Reading, contents: string, fp: string)
    ensures Entries(RemoveFrom(id, contents, fp)) == Without(id, Entries(contents), fp)
  {
    EntriesAreEntries(contents);
    EntriesOfJoin(Without(id, Entries(contents), fp));
  }

  lemma TailOfSingleEntries(key: PublicKey)
    requires SingleLine(key)
    ensures Entries(CommentTail(key.comment)) == [] && FirstLineOf(key) == key
  {
    SpanNotShape(key.comment, IsBreak);
    NoEntries();
  }

  // The written line reads back as itself exactly when the comment is one line.
  lemma AddReadsBack(hash: Hash, contents: string, key: PublicKey)
    requires WellFormed(key)
    requires !Present(Fingerprints(hash), Entries(contents), Fingerprint(hash, key.blob))
    ensures var added := AddTo(Fingerprints(hash), contents, ComposeLine(key), Fingerprint(hash, key.blob));
            Entries(added) == Entries(contents) + [ComposeLine(key)] <==> SingleLine(key)
  {
    var id, fp, es, line := Fingerprints(hash), Fingerprint(hash, key.blob), Entries(contents), ComposeLine(key);
    var added := AddTo(id, contents, line, fp);
    FingerprintIdentifies(hash, key);
    EntriesAfterAdd(id, contents, key, fp);
    if SingleLine(key) {
      TailOfSingleEntries(key);
      assert [line] + [] == [line];
    } else if Entries(added) == es + [line] {
      EntriesAreEntries(added);
      assert line == (es + [line])[|es|] && line in Entries(added);
      ComposeShape(key);
    }
  }

  lemma AddThenRemoveEntries(id: Reading, contents: string, key: PublicKey, fp: string)
    requires WellFormed(key) && Identifies(id, key, fp)
    requires !Present(id, Entries(contents), fp)
    ensures var added := AddTo(id, contents, ComposeLine(key), fp);
            var tail := Entries(CommentTail(key.comment));
            && Entries(RemoveFrom(id, added, fp)) == Entries(contents) + Without(id, tail, fp)
            && RemovedCount(id, added, fp) == 1 + |tail| - |Without(id, tail, fp)|
  {
    var added := AddTo(id, contents, ComposeLine(key), fp);
    var es, tail, one := Entries(contents), Entries(CommentTail(key.comment)), [ComposeLine(FirstLineOf(key))];
    EntriesAfterAdd(id, contents, key, fp);
    EntriesAfterRemove(id, added, fp);
    PresentIffRemoves(id, es, fp);
    FilterConcat(es, one + tail, Differs(id, fp));
    FilterConcat(one, tail, Differs(id, fp));
    FilterNone(one, Differs(id, fp));
    assert [] + Without(id, tail, fp) == Without(id, tail, fp);
  }

  lemma CancelsIff(id: Reading, contents: string, key: PublicKey, fp: string)
    requires WellFormed(key) && Identifies(id, key, fp)
    requires !Present(id, Entries(contents), fp)
    ensures var added := AddTo(id, contents, ComposeLine(key), fp);
            var tail := Entries(CommentTail(key.comment));
            && (Entries(RemoveFrom(id, added, fp)) == Entries(contents) <==>
                forall e | e in tail :: id(e) == Some(fp))
            && (Entries(RemoveFrom(id, added, fp)) == Entries(contents) && RemovedCount(id, added, fp) == 1
                <==> tail == [])
  {
    var es, tail := Entries(contents), Entries(CommentTail(key.comment));
    AddThenRemoveEntries(id, contents, key, fp);
    FilterNone(tail, Differs(id, fp));
    assert es + Without(id, tail, fp) == es <==> Without(id, tail, fp) == [];
  }

  // Adding a key and removing the fingerprint that was reported gives the original
  // entries back exactly when each later line of the comment is blank, a # line or a
  // line of the same key; and removes exactly one entry when each is blank or a # line.
  lemma AddThenRemove(hash: Hash, contents: string, key: PublicKey)
    requires WellFormed(key)
    requires !Present(Fingerprints(hash), Entries(contents), Fingerprint(hash, key.blob))
    ensures var id, fp := Fingerprints(hash), Fingerprint(hash, key.blob);
            var added := AddTo(id, contents, ComposeLine(key), fp);
            var tail := Entries(CommentTail(key.comment));
            && (Entries(RemoveFrom(id, added, fp)) == Entries(contents) <==>
                forall e | e in tail :: id(e) == Some(fp))
            && (Entries(RemoveFrom(id, added, fp)) == Entries(contents) && RemovedCount(id, added, fp) == 1
                <==> tail == [])
  {
    FingerprintIdentifies(hash, key);
    CancelsIff(Fingerprints(hash), contents, key, Fingerprint(hash, key.blob));
  }

  // For a one-line comment, and so for every comment without an exotic line break,
  // add then remove cancels, removing one entry.
  lemma AddThenRemoveCancels(hash: Hash, contents: string, key: PublicKey)
    requires WellFormed(key) && SingleLine(key)
    requires !Present(Fingerprints(hash), Entries(contents), Fingerprint(hash, key.blob))
    ensures var id, fp := Fingerprints(hash), Fingerprint(hash, key.blob);
            var added := AddTo(id, contents, ComposeLine(key), fp);
            && NormalizeFingerprint(fp) == Success(fp)
            && Entries(RemoveFrom(id, added, fp)) == Entries(contents)
            && RemovedCount(id, added, fp) == 1
  {
    FingerprintIsNormal(hash, key.blob);
    TailOfSingleEntries(key);
    AddThenRemove(hash, contents, key);
  }

  // Repeating a call leaves the text as it is, to the last character.
  lemma RepeatedAdd(hash: Hash, contents: string, key: PublicKey)
    requires WellFormed(key)
    ensures var id, fp, line := Fingerprints(hash), Fingerprint(hash, key.blob), ComposeLine(key);
            AddTo(id, AddTo(id, contents, line, fp), line, fp) == AddTo(id, contents, line, fp)
  {
    var id, fp := Fingerprints(hash), Fingerprint(hash, key.blob);
    if !Present(id, Entries(contents), fp) {
      FingerprintIdentifies(hash, key);
      EntriesAfterAdd(id, contents, key, fp);
      assert ComposeLine(FirstLineOf(key)) in Entries(AddTo(id, contents, ComposeLine(key), fp));
    }
  }

  lemma RepeatedRemove(id: Reading, contents: string, fp: string)
    ensures var removed := RemoveFrom(id, contents, fp);
            RemoveFrom(id, removed, fp) == removed && !Present(id, Entries(removed), fp)
  {
    EntriesAfterRemove(id, contents, fp);
    PresentIffRemoves(id, Entries(contents), fp);
    PresentIffRemoves(id, Entries(RemoveFrom(id, contents, fp)), fp);
  }
}
