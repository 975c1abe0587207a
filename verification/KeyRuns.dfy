// Whole runs of add and remove calls on one authorized_keys file. A call either
// lands, replacing the text, or is lost before the replacement and changes nothing.
module KeyRuns {
  import opened Wrappers
  import opened Text
  import opened Seqs
  import opened Keys
  import opened KeyFile

  datatype KeyCall =
    | AddKey(key: PublicKey, landed: bool)
    | RemoveKey(fp: string, landed: bool)

  function Apply(hash: Hash, contents: string, call: KeyCall): string {
    var id := Fingerprints(hash);
    if !call.landed then contents
    else
      match call
      case AddKey(key, _) => AddTo(id, contents, ComposeLine(key), Fingerprint(hash, key.blob))
      case RemoveKey(fp, _) => RemoveFrom(id, contents, fp)
  }

  function RunCalls(hash: Hash, contents: string, calls: seq<KeyCall>): string
    decreases |calls|
  {
    if calls == [] then contents else RunCalls(hash, Apply(hash, contents, calls[0]), calls[1..])
  }

  // Keys as the parser returns them.
  predicate ValidCalls(calls: seq<KeyCall>) {
    forall call | call in calls :: call.AddKey? ==> WellFormed(call.key)
  }

  predicate SingleLineCalls(calls: seq<KeyCall>) {
    forall call | call in calls :: call.AddKey? ==> SingleLine(call.key)
  }

  // Entries that no removal of a fingerprint in fps can touch.
  function Survives(id: Reading, fps: set<string>): string -> bool {
    e => id(e) == None || id(e).value !in fps
  }

  function Survivors(id: Reading, es: seq<string>, fps: set<string>): seq<string> {
    Filter(es, Survives(id, fps))
  }

  function RemovedFingerprints(calls: seq<KeyCall>): set<string> {
    set call | call in calls && call.RemoveKey? :: call.fp
  }

  lemma AddGrows(hash: Hash, contents: string, key: PublicKey)
    requires WellFormed(key)
    ensures Entries(contents) <= Entries(AddTo(Fingerprints(hash), contents, ComposeLine(key), Fingerprint(hash, key.blob)))
  {
    var id, fp := Fingerprints(hash), Fingerprint(hash, key.blob);
    if !Present(id, Entries(contents), fp) {
      FingerprintIdentifies(hash, key);
      EntriesAfterAdd(id, contents, key, fp);
    }
  }

  lemma PrefixFilter<T>(a: seq<T>, b: seq<T>, p: T -> bool)
    requires a <= b
    ensures Filter(a, p) <= Filter(b, p)
  {
    FilterConcat(a, b[|a|..], p);
    assert a + b[|a|..] == b;
  }

  lemma StepKeepsSurvivors(hash: Hash, contents: string, call: KeyCall, fps: set<string>)
    requires call.AddKey? ==> WellFormed(call.key)
    requires call.RemoveKey? ==> call.fp in fps
    ensures var id := Fingerprints(hash);
            Survivors(id, Entries(contents), fps) <= Survivors(id, Entries(Apply(hash, contents, call)), fps)
  {
    var id, es := Fingerprints(hash), Entries(contents);
    if call.landed {
      match call {
        case AddKey(key, _) =>
          AddGrows(hash, contents, key);
          PrefixFilter(es, Entries(Apply(hash, contents, call)), Survives(id, fps));
        case RemoveKey(fp, _) =>
          EntriesAfterRemove(id, contents, fp);
          FilterFilter(es, Differs(id, fp), Survives(id, fps));
      }
    }
  }

  // Over any run, every entry whose fingerprint no call removes, and every entry that
  // does not parse as a key, is still there at the end, once for each time it was
  // there before, and in the same order; anything new comes after them.
  lemma {:induction false} SurvivorsKeepTheirOrder(hash: Hash, contents: string, calls: seq<KeyCall>, fps: set<string>)
    requires ValidCalls(calls) && RemovedFingerprints(calls) <= fps
    ensures var id := Fingerprints(hash);
            Survivors(id, Entries(contents), fps) <= Survivors(id, Entries(RunCalls(hash, contents, calls)), fps)
    decreases |calls|
  {
    if calls != [] {
      var call := calls[0];
      assert call in calls;
      assert call.RemoveKey? ==> call.fp in RemovedFingerprints(calls);
      StepKeepsSurvivors(hash, contents, call, fps);
      SurvivorsKeepTheirOrder(hash, Apply(hash, contents, call), calls[1..], fps);
    }
  }

  function IsUnparsed(id: Reading): string -> bool { e => id(e) == None }

  function Unparsed(id: Reading, es: seq<string>): seq<string> { Filter(es, IsUnparsed(id)) }

  // ---------------------------------------------------------------- lines that come with a comment

  // An add that writes.
  predicate Adds(hash: Hash, contents: string, call: KeyCall) {
    call.AddKey? && call.landed && !Present(Fingerprints(hash), Entries(contents), Fingerprint(hash, call.key.blob))
  }

  // The entries that its comment's later lines become.
  function NewTail(hash: Hash, contents: string, call: KeyCall): seq<string> {
    if Adds(hash, contents, call) then Entries(CommentTail(call.key.comment)) else []
  }

  lemma OneLineHasNoTail(hash: Hash, contents: string, call: KeyCall)
    requires call.AddKey? ==> SingleLine(call.key)
    ensures NewTail(hash, contents, call) == []
  {
    if call.AddKey? {
      TailOfSingleEntries(call.key);
    }
  }

  // What one call makes of the entries.
  lemma EntriesAfterStep(hash: Hash, contents: string, call: KeyCall) returns (first: string)
    requires call.AddKey? ==> WellFormed(call.key)
    ensures var id, es, after := Fingerprints(hash), Entries(contents), Entries(Apply(hash, contents, call));
            if Adds(hash, contents, call) then
              id(first) == Some(Fingerprint(hash, call.key.blob)) && after == es + ([first] + NewTail(hash, contents, call))
            else if call.RemoveKey? && call.landed then after == Without(id, es, call.fp)
            else after == es
  {
    first := "";
    if call.AddKey? {
      first := ComposeLine(FirstLineOf(call.key));
      if Adds(hash, contents, call) {
        FingerprintIdentifies(hash, call.key);
        EntriesAfterAdd(Fingerprints(hash), contents, call.key, Fingerprint(hash, call.key.blob));
      }
    } else {
      EntriesAfterRemove(Fingerprints(hash), contents, call.fp);
    }
  }

  lemma UnparsedWith(id: Reading, es: seq<string>, first: string, tail: seq<string>)
    requires id(first) != None
    ensures Unparsed(id, es + ([first] + tail)) == Unparsed(id, es) + Unparsed(id, tail)
  {
    FilterConcat(es, [first] + tail, IsUnparsed(id));
    FilterConcat([first], tail, IsUnparsed(id));
    FilterNone([first], IsUnparsed(id));
    assert [] + Unparsed(id, tail) == Unparsed(id, tail);
  }

  lemma UnparsedOtherwise(id: Reading, es: seq<string>, after: seq<string>, fp: string)
    requires after == es || after == Without(id, es, fp)
    ensures Unparsed(id, after) == Unparsed(id, es) + Unparsed(id, [])
  {
    FilterFilter(es, Differs(id, fp), IsUnparsed(id));
    assert Unparsed(id, []) == [] && Unparsed(id, es) + [] == Unparsed(id, es);
  }

  // One call adds to the unparsed lines exactly those of the comment it writes.
  lemma StepUnparsed(hash: Hash, contents: string, call: KeyCall)
    requires call.AddKey? ==> WellFormed(call.key)
    ensures var id := Fingerprints(hash);
            Unparsed(id, Entries(Apply(hash, contents, call)))
            == Unparsed(id, Entries(contents)) + Unparsed(id, NewTail(hash, contents, call))
  {
    var id, es, after := Fingerprints(hash), Entries(contents), Entries(Apply(hash, contents, call));
    var first := EntriesAfterStep(hash, contents, call);
    if Adds(hash, contents, call) {
      UnparsedWith(id, es, first, NewTail(hash, contents, call));
    } else {
      UnparsedOtherwise(id, es, after, if call.RemoveKey? then call.fp else "");
    }
  }

  // The unparsed lines that a run leaves in the file, in order.
  function LeftBehind(hash: Hash, contents: string, calls: seq<KeyCall>): seq<string>
    decreases |calls|
  {
    if calls == [] then []
    else Unparsed(Fingerprints(hash), NewTail(hash, contents, calls[0])) + LeftBehind(hash, Apply(hash, contents, calls[0]), calls[1..])
  }

  // Over any run, lines that do not parse are never lost, doubled or reordered; those
  // of the comments written come behind them. So they stay the same list exactly if no
  // add writes such a line.
  lemma {:induction false} UnparsedStay(hash: Hash, contents: string, calls: seq<KeyCall>)
    requires ValidCalls(calls)
    ensures var id := Fingerprints(hash);
            var before, after := Unparsed(id, Entries(contents)), Unparsed(id, Entries(RunCalls(hash, contents, calls)));
            && after == before + LeftBehind(hash, contents, calls)
            && (after == before <==> LeftBehind(hash, contents, calls) == [])
    decreases |calls|
  {
    if calls != [] {
      assert calls[0] in calls;
      var id, next := Fingerprints(hash), Apply(hash, contents, calls[0]);
      StepUnparsed(hash, contents, calls[0]);
      UnparsedStay(hash, next, calls[1..]);
      Assoc(Unparsed(id, Entries(contents)), Unparsed(id, NewTail(hash, contents, calls[0])), LeftBehind(hash, next, calls[1..]));
    }
  }

  lemma {:induction false} OneLinersLeaveNothing(hash: Hash, contents: string, calls: seq<KeyCall>)
    requires SingleLineCalls(calls)
    ensures LeftBehind(hash, contents, calls) == []
    decreases |calls|
  {
    if calls != [] {
      assert calls[0] in calls;
      OneLineHasNoTail(hash, contents, calls[0]);
      OneLinersLeaveNothing(hash, Apply(hash, contents, calls[0]), calls[1..]);
    }
  }

  // ---------------------------------------------------------------- no key twice

  // No two entries are the same key.
  predicate NoDuplicates(id: Reading, es: seq<string>) {
    forall i, j | 0 <= i < j < |es| :: id(es[i]) == None || id(es[i]) != id(es[j])
  }

  // No entry of the one is the same key as an entry of the other.
  ghost predicate Apart(id: Reading, a: seq<string>, b: seq<string>) {
    forall x, y | x in a && y in b :: id(x) == None || id(x) != id(y)
  }

  lemma NoDuplicatesConcat(id: Reading, a: seq<string>, b: seq<string>)
    ensures NoDuplicates(id, a + b) <==> NoDuplicates(id, a) && NoDuplicates(id, b) && Apart(id, a, b)
  {
    var s, n := a + b, |a|;
    if NoDuplicates(id, s) {
      assert forall i | 0 <= i < n :: s[i] == a[i];
      assert forall j | 0 <= j < |b| :: s[n + j] == b[j];
      forall x, y | x in a && y in b
        ensures id(x) == None || id(x) != id(y)
      {
        var i :| 0 <= i < n && a[i] == x;
        var j :| 0 <= j < |b| && b[j] == y;
        assert s[i] == x && s[n + j] == y;
      }
    }
  }

  lemma {:induction false} FilterKeepsNoDuplicates(id: Reading, es: seq<string>, p: string -> bool)
    requires NoDuplicates(id, es)
    ensures NoDuplicates(id, Filter(es, p))
    decreases |es|
  {
    if es != [] {
      var head, tail := HeadTail(es);
      NoDuplicatesConcat(id, [head], tail);
      FilterKeepsNoDuplicates(id, tail, p);
      NoDuplicatesConcat(id, if p(head) then [head] else [], Filter(tail, p));
      assert es[0] == head && es[1..] == tail;
    }
  }

  // Lines are no keys but new ones: pairwise distinct, none of them this key, none in
  // the file already.
  ghost predicate NewKeysOnly(id: Reading, es: seq<string>, fp: string, tail: seq<string>) {
    NoDuplicates(id, tail) && forall e | e in tail && id(e).Some? :: id(e) != Some(fp) && !Present(id, es, id(e).value)
  }

  // The comment that a call writes, if it does, fits the file.
  ghost predicate TailFits(hash: Hash, contents: string, call: KeyCall) {
    Adds(hash, contents, call) ==>
      NewKeysOnly(Fingerprints(hash), Entries(contents), Fingerprint(hash, call.key.blob), NewTail(hash, contents, call))
  }

  lemma DistinctWith(id: Reading, es: seq<string>, first: string, tail: seq<string>, fp: string)
    requires NoDuplicates(id, es) && id(first) == Some(fp) && !Present(id, es, fp)
    ensures NoDuplicates(id, es + ([first] + tail)) <==> NewKeysOnly(id, es, fp, tail)
  {
    NoDuplicatesConcat(id, es, [first] + tail);
    NoDuplicatesConcat(id, [first], tail);
    NewKeyApart(id, es, first, tail, fp);
  }

  // One call keeps the keys distinct exactly if the comment it writes fits.
  lemma StepDistinct(hash: Hash, contents: string, call: KeyCall)
    requires call.AddKey? ==> WellFormed(call.key)
    requires NoDuplicates(Fingerprints(hash), Entries(contents))
    ensures NoDuplicates(Fingerprints(hash), Entries(Apply(hash, contents, call))) <==> TailFits(hash, contents, call)
  {
    var id, es := Fingerprints(hash), Entries(contents);
    var first := EntriesAfterStep(hash, contents, call);
    if Adds(hash, contents, call) {
      DistinctWith(id, es, first, NewTail(hash, contents, call), Fingerprint(hash, call.key.blob));
    } else if call.RemoveKey? {
      FilterKeepsNoDuplicates(id, es, Differs(id, call.fp));
    }
  }

  lemma NewKeyApart(id: Reading, es: seq<string>, first: string, tail: seq<string>, fp: string)
    requires id(first) == Some(fp) && !Present(id, es, fp)
    ensures Apart(id, es, [first] + tail) && Apart(id, [first], tail)
       <==> forall e | e in tail && id(e).Some? :: id(e) != Some(fp) && !Present(id, es, id(e).value)
  {
    var added := [first] + tail;
    assert forall e :: e in added <==> e == first || e in tail;
    assert first in [first];
  }

  ghost predicate DistinctThroughout(hash: Hash, contents: string, calls: seq<KeyCall>)
    decreases |calls|
  {
    && NoDuplicates(Fingerprints(hash), Entries(contents))
    && (calls == [] || DistinctThroughout(hash, Apply(hash, contents, calls[0]), calls[1..]))
  }

  ghost predicate TailsFit(hash: Hash, contents: string, calls: seq<KeyCall>)
    decreases |calls|
  {
    calls == [] || (TailFits(hash, contents, calls[0]) && TailsFit(hash, Apply(hash, contents, calls[0]), calls[1..]))
  }

  // A file whose keys are pairwise distinct stays so all through a run exactly if every
  // comment written fits.
  lemma {:induction false} DistinctKeysStayDistinct(hash: Hash, contents: string, calls: seq<KeyCall>)
    requires ValidCalls(calls)
    requires NoDuplicates(Fingerprints(hash), Entries(contents))
    ensures DistinctThroughout(hash, contents, calls) <==> TailsFit(hash, contents, calls)
    ensures DistinctThroughout(hash, contents, calls) ==>
              NoDuplicates(Fingerprints(hash), Entries(RunCalls(hash, contents, calls)))
    decreases |calls|
  {
    if calls != [] {
      assert calls[0] in calls;
      StepDistinct(hash, contents, calls[0]);
      if TailFits(hash, contents, calls[0]) {
        DistinctKeysStayDistinct(hash, Apply(hash, contents, calls[0]), calls[1..]);
      }
    }
  }

  lemma {:induction false} OneLinersFit(hash: Hash, contents: string, calls: seq<KeyCall>)
    requires SingleLineCalls(calls)
    ensures TailsFit(hash, contents, calls)
    decreases |calls|
  {
    if calls != [] {
      assert calls[0] in calls;
      OneLineHasNoTail(hash, contents, calls[0]);
      OneLinersFit(hash, Apply(hash, contents, calls[0]), calls[1..]);
    }
  }

  // With one-line comments both hold over any run.
  lemma OneLinersKeepLines(hash: Hash, contents: string, calls: seq<KeyCall>)
    requires ValidCalls(calls) && SingleLineCalls(calls)
    ensures var id, es, after := Fingerprints(hash), Entries(contents), Entries(RunCalls(hash, contents, calls));
            Unparsed(id, after) == Unparsed(id, es) && (NoDuplicates(id, es) ==> NoDuplicates(id, after))
  {
    UnparsedStay(hash, contents, calls);
    OneLinersLeaveNothing(hash, contents, calls);
    if NoDuplicates(Fingerprints(hash), Entries(contents)) {
      DistinctKeysStayDistinct(hash, contents, calls);
      OneLinersFit(hash, contents, calls);
    }
  }

  // ---------------------------------------------------------------- a key added twice at once

  const FORM_FEED := "\U{c}"

  // A comment whose second line is the key's own line.
  function Twice(key: PublicKey): PublicKey {
    key.(comment := "x" + (FORM_FEED + ComposeLine(key)))
  }

  lemma TailOfTwice(key: PublicKey)
    requires WellFormed(key) && SingleLine(key)
    ensures WellFormed(Twice(key)) && Entries(CommentTail(Twice(key).comment)) == [ComposeLine(key)]
  {
    ComposeShape(key);
    TwiceIsOneLine(ComposeLine(key));
    TailBehindFeed(ComposeLine(key));
    OneLineReads(key);
  }

  lemma TailBehindFeed(line: string)
    ensures CommentTail("x" + (FORM_FEED + line)) == line
  {
    var comment, rest := "x" + (FORM_FEED + line), FORM_FEED + line;
    SpanNotIs("x", rest, IsBreak);
    assert comment[1..] == rest && rest[0] == '\U{c}' && comment[2..] == line;
  }

  lemma OneLineReads(key: PublicKey)
    requires WellFormed(key) && SingleLine(key)
    ensures Entries(ComposeLine(key)) == [ComposeLine(key)]
  {
    ComposedLineReads(key);
    TailOfSingleEntries(key);
    SpanNotShape(key.comment, IsBreak);
    assert [ComposeLine(key)] + [] == [ComposeLine(key)];
  }

  lemma TwiceIsOneLine(line: string)
    requires line != "" && Stripped(line) && OneLine(line)
    ensures var comment := "x" + (FORM_FEED + line); Stripped(comment) && OneLine(comment)
  {
    var comment := "x" + (FORM_FEED + line);
    assert comment[|comment| - 1] == line[|line| - 1];
  }

  // One add of such a key to an empty file, and the file has the key twice.
  lemma OneAddDoublesAKey(hash: Hash, key: PublicKey)
    requires WellFormed(key) && SingleLine(key)
    ensures NoDuplicates(Fingerprints(hash), Entries(""))
    ensures !NoDuplicates(Fingerprints(hash), Entries(Apply(hash, "", AddKey(Twice(key), true))))
  {
    var call := AddKey(Twice(key), true);
    TailOfTwice(key);
    NoEntries();
    StepDistinct(hash, "", call);
    FingerprintIdentifies(hash, key);
    NotNew(Fingerprints(hash), [], Fingerprint(hash, key.blob), ComposeLine(key));
  }

  lemma NotNew(id: Reading, es: seq<string>, fp: string, line: string)
    requires id(line) == Some(fp)
    ensures !NewKeysOnly(id, es, fp, [line])
  {
    assert line in [line];
  }
}
