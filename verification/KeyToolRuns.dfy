// Whole runs of the two key tools, on any users, whatever the calls ran into: whose
// files they may touch; and, if the calls that wrote had seen every entry, that what
// they did to a user's file is a run of key calls.
module KeyToolRuns {
  import opened Wrappers
  import opened Text
  import opened Keys
  import opened KeyFile
  import opened KeyRuns
  import opened Paths
  import opened Shell
  import opened KeyTools

  // What stays the same over a run.
  datatype Setting = Setting(hash: Hash, alnum: char -> bool, session: Session)

  // shown: what the call saw of the file, if not the whole text.
  datatype ToolCall =
    | AddCall(user: string, pubkey: string, comment: string, shown: Option<string>, added: AddResult)
    | RemoveCall(user: string, fingerprint: string, shown: Option<string>, removed: RemoveResult)

  // One call, as the tools' contracts bound it.
  ghost predicate Effect(t: Setting, call: ToolCall, a: Fs, b: Fs) {
    match call
    case AddCall(user, pubkey, comment, shown, r) =>
      AddEffect(t.hash, t.alnum, t.session, user, pubkey, comment, shown, a, b, r)
    case RemoveCall(user, fingerprint, shown, r) =>
      RemoveEffect(t.hash, t.alnum, t.session, user, fingerprint, shown, a, b, r)
  }

  // The file systems before, between and after the calls.
  ghost predicate IsRun(t: Setting, calls: seq<ToolCall>, states: seq<Fs>)
    decreases |calls|
  {
    && |states| == |calls| + 1
    && (calls == [] || (Effect(t, calls[0], states[0], states[1]) && IsRun(t, calls[1..], states[1..])))
  }

  // ---------------------------------------------------------------- other users' files

  // A call that cannot reach this user's files: another user's, or one that the
  // cross-user check refuses.
  predicate Foreign(t: Setting, call: ToolCall, user: string) {
    call.user != user || CrossUser(t.session, user)
  }

  ghost predicate SameFiles(a: Fs, b: Fs, user: string) {
    forall p | p in KeyPaths(user) :: SameAt(a, b, p)
  }

  lemma ForeignCall(t: Setting, call: ToolCall, a: Fs, b: Fs, user: string)
    requires AlnumLike(t.alnum) && ValidUsername(t.alnum, user)
    requires Effect(t, call, a, b) && Foreign(t, call, user)
    ensures SameFiles(b, a, user)
  {
    if b != a {
      assert call.user != user && ValidUsername(t.alnum, call.user);
      forall p | p !in KeyPaths(call.user)
        ensures SameAt(b, a, p)
      {
        assert p !in {KeysPath(call.user), TempPath(call.user)};
      }
      OtherUsersUntouched(t.alnum, a, b, call.user, user);
    }
  }

  // Over any run, no file of a user that every call is foreign to ever changes.
  lemma {:induction false} FrameOverRuns(t: Setting, calls: seq<ToolCall>, states: seq<Fs>, user: string)
    requires AlnumLike(t.alnum) && ValidUsername(t.alnum, user)
    requires IsRun(t, calls, states) && forall call | call in calls :: Foreign(t, call, user)
    ensures SameFiles(states[|calls|], states[0], user)
    decreases |calls|
  {
    if calls != [] {
      assert calls[0] in calls;
      ForeignCall(t, calls[0], states[0], states[1], user);
      FrameOverRuns(t, calls[1..], states[1..], user);
      forall p | p in KeyPaths(user)
        ensures SameAt(states[|calls|], states[0], p)
      {
        assert SameAt(states[|calls|], states[1], p) && SameAt(states[1], states[0], p);
      }
    }
  }

  // With a password, whatever the calls name: no file of any user but the session's.
  lemma OnlyTheSessionsUser(t: Setting, calls: seq<ToolCall>, states: seq<Fs>, user: string)
    requires AlnumLike(t.alnum) && ValidUsername(t.alnum, user)
    requires IsRun(t, calls, states) && t.session.hasPassword && user != t.session.user
    ensures SameFiles(states[|calls|], states[0], user)
  {
    FrameOverRuns(t, calls, states, user);
  }

  // ---------------------------------------------------------------- one user's file

  function TextOf(fs: Fs, user: string): string { Cat(fs, KeysPath(user)) }

  // A call that changed this user's file saw every entry of it.
  ghost predicate SawAll(call: ToolCall, a: Fs, b: Fs, user: string) {
    call.user == user && TextOf(b, user) != TextOf(a, user) ==>
      Entries(Seen(call.shown, TextOf(a, user))) == Entries(TextOf(a, user))
  }

  ghost predicate AllSaw(calls: seq<ToolCall>, states: seq<Fs>, user: string)
    requires |states| == |calls| + 1
    decreases |calls|
  {
    calls == [] || (SawAll(calls[0], states[0], states[1], user) && AllSaw(calls[1..], states[1..], user))
  }

  // The key call that a tool call on this user's file makes, if it lands.
  predicate Makes(call: ToolCall, user: string, k: KeyCall) {
    && call.user == user
    && match call
       case AddCall(_, pubkey, comment, _, _) => k.AddKey? && KeyToAdd(pubkey, comment) == Success(k.key)
       case RemoveCall(_, fingerprint, _, _) => k.RemoveKey? && NormalizeFingerprint(fingerprint) == Success(k.fp)
  }

  ghost predicate MadeBy(ks: seq<KeyCall>, calls: seq<ToolCall>, user: string) {
    forall k | k in ks :: exists call :: call in calls && Makes(call, user, k)
  }

  lemma OneCall(t: Setting, call: ToolCall, a: Fs, b: Fs, user: string) returns (ks: seq<KeyCall>)
    requires AlnumLike(t.alnum) && ValidUsername(t.alnum, user) && Effect(t, call, a, b) && SawAll(call, a, b, user)
    ensures |ks| <= 1 && forall k | k in ks :: Makes(call, user, k)
    ensures Cat(b, KeysPath(user)) == if ks == [] then Cat(a, KeysPath(user)) else Apply(t.hash, Cat(a, KeysPath(user)), ks[0])
    ensures ks != [] ==> ks[0].landed && Cat(b, KeysPath(user)) != Cat(a, KeysPath(user))
  {
    if call.user != user {
      ForeignCall(t, call, a, b, user);
      assert KeysPath(user) in KeyPaths(user);
      ks := [];
    } else {
      ks := OwnCall(t, call, a, b);
    }
  }

  lemma OwnCall(t: Setting, call: ToolCall, a: Fs, b: Fs) returns (ks: seq<KeyCall>)
    requires Effect(t, call, a, b) && SawAll(call, a, b, call.user)
    ensures |ks| <= 1 && forall k | k in ks :: Makes(call, call.user, k)
    ensures Cat(b, KeysPath(call.user))
         == if ks == [] then Cat(a, KeysPath(call.user)) else Apply(t.hash, Cat(a, KeysPath(call.user)), ks[0])
    ensures ks != [] ==> ks[0].landed && Cat(b, KeysPath(call.user)) != Cat(a, KeysPath(call.user))
  {
    var before, after := Cat(a, KeysPath(call.user)), Cat(b, KeysPath(call.user));
    if after == before {
      ks := [];
    } else {
      var k := LandedCall(t, call, a, b);
      ks := [k];
    }
  }

  lemma LandedCall(t: Setting, call: ToolCall, a: Fs, b: Fs) returns (k: KeyCall)
    requires Effect(t, call, a, b) && SawAll(call, a, b, call.user)
    requires Cat(b, KeysPath(call.user)) != Cat(a, KeysPath(call.user))
    ensures Makes(call, call.user, k) && k.landed
    ensures Cat(b, KeysPath(call.user)) == Apply(t.hash, Cat(a, KeysPath(call.user)), k)
  {
    var before, after := TextOf(a, call.user), TextOf(b, call.user);
    match call {
      case AddCall(_, pubkey, comment, shown, r) =>
        var key := KeyToAdd(pubkey, comment);
        AddLands(t.hash, key, Seen(shown, before), before, after, r);
        k := AddKey(key.value, true);
      case RemoveCall(_, fingerprint, shown, r) =>
        var target := NormalizeFingerprint(fingerprint);
        RemoveLands(t.hash, target, Seen(shown, before), before, after, r);
        k := RemoveKey(target.value, true);
    }
  }

  // An outcome that changed the text, on all its entries, is a call that landed.
  lemma AddLands(hash: Hash, key: Result<PublicKey, ToolError>, seen: string, before: string, after: string, r: AddResult)
    requires AddOutcome(hash, key, seen, before, after, r) && after != before && Entries(seen) == Entries(before)
    ensures key.Success? && after == Apply(hash, before, AddKey(key.value, true))
  {
  }

  lemma RemoveLands(
    hash: Hash, target: Result<string, FingerprintError>, seen: string, before: string, after: string, r: RemoveResult)
    requires RemoveOutcome(hash, target, seen, before, after, r) && after != before && Entries(seen) == Entries(before)
    ensures target.Success? && after == Apply(hash, before, RemoveKey(target.value, true))
  {
    var id := Fingerprints(hash);
    PresentIffRemoves(id, Entries(seen), target.value);
  }

  // Over any run of tool calls, what becomes of a user's file is a run of key calls,
  // each made by one of the tool calls on that user.
  lemma {:induction false} ToolRunsAreKeyRuns(t: Setting, calls: seq<ToolCall>, states: seq<Fs>, user: string)
    returns (ks: seq<KeyCall>)
    requires AlnumLike(t.alnum) && ValidUsername(t.alnum, user) && IsRun(t, calls, states) && AllSaw(calls, states, user)
    ensures RunCalls(t.hash, Cat(states[0], KeysPath(user)), ks) == Cat(states[|calls|], KeysPath(user))
    ensures MadeBy(ks, calls, user) && ValidCalls(ks)
    decreases |calls|
  {
    if calls == [] {
      ks := [];
    } else {
      var first := OneCall(t, calls[0], states[0], states[1], user);
      var rest := ToolRunsAreKeyRuns(t, calls[1..], states[1..], user);
      ks := first + rest;
      OneMoreCall(t.hash, Cat(states[0], KeysPath(user)), first, rest);
      OneMoreMade(first, rest, calls, user);
      MadeAreValid(ks, calls, user);
    }
  }

  lemma OneMoreCall(hash: Hash, contents: string, first: seq<KeyCall>, rest: seq<KeyCall>)
    requires |first| <= 1
    ensures RunCalls(hash, contents, first + rest)
         == RunCalls(hash, if first == [] then contents else Apply(hash, contents, first[0]), rest)
  {
    if first == [] {
      assert first + rest == rest;
    } else {
      assert (first + rest)[1..] == rest;
    }
  }

  lemma OneMoreMade(first: seq<KeyCall>, rest: seq<KeyCall>, calls: seq<ToolCall>, user: string)
    requires calls != [] && (forall k | k in first :: Makes(calls[0], user, k)) && MadeBy(rest, calls[1..], user)
    ensures MadeBy(first + rest, calls, user)
  {
    forall k | k in first + rest
      ensures exists call :: call in calls && Makes(call, user, k)
    {
      if k in first {
        assert calls[0] in calls && Makes(calls[0], user, k);
      } else {
        var call :| call in calls[1..] && Makes(call, user, k);
        assert call in calls;
      }
    }
  }

  lemma MadeAreValid(ks: seq<KeyCall>, calls: seq<ToolCall>, user: string)
    requires MadeBy(ks, calls, user)
    ensures ValidCalls(ks)
  {
    forall k | k in ks
      ensures k.AddKey? ==> WellFormed(k.key)
    {
      var call :| call in calls && Makes(call, user, k);
      if call.AddCall? {
        KeyToAddIsWellFormed(call.pubkey, call.comment);
      }
    }
  }

  // ---------------------------------------------------------------- what runs of the tools keep

  // The fingerprints that calls on this user ask to remove are among these.
  ghost predicate RemovesOnly(calls: seq<ToolCall>, user: string, fps: set<string>) {
    forall call | call in calls && call.user == user && call.RemoveCall? ::
      NormalizeFingerprint(call.fingerprint).Success? ==> NormalizeFingerprint(call.fingerprint).value in fps
  }

  // Every comment that calls on this user add is one line.
  ghost predicate AddsOneLiners(calls: seq<ToolCall>, user: string) {
    forall call | call in calls && call.user == user && call.AddCall? ::
      KeyToAdd(call.pubkey, call.comment).Success? ==> SingleLine(KeyToAdd(call.pubkey, call.comment).value)
  }

  lemma MadeRemovesOnly(ks: seq<KeyCall>, calls: seq<ToolCall>, user: string, fps: set<string>)
    requires MadeBy(ks, calls, user) && RemovesOnly(calls, user, fps)
    ensures RemovedFingerprints(ks) <= fps
  {
    forall fp | fp in RemovedFingerprints(ks)
      ensures fp in fps
    {
      var k :| k in ks && k.RemoveKey? && k.fp == fp;
      var call :| call in calls && Makes(call, user, k);
    }
  }

  lemma MadeOneLiners(ks: seq<KeyCall>, calls: seq<ToolCall>, user: string)
    requires MadeBy(ks, calls, user) && AddsOneLiners(calls, user)
    ensures SingleLineCalls(ks)
  {
    forall k | k in ks
      ensures k.AddKey? ==> SingleLine(k.key)
    {
      var call :| call in calls && Makes(call, user, k);
    }
  }

  // Entries that no call asks to remove, and unparsed ones, keep their place in front
  // of everything new.
  lemma ToolRunsKeepSurvivors(t: Setting, calls: seq<ToolCall>, states: seq<Fs>, user: string, fps: set<string>)
    requires AlnumLike(t.alnum) && ValidUsername(t.alnum, user) && IsRun(t, calls, states) && AllSaw(calls, states, user)
    requires RemovesOnly(calls, user, fps)
    ensures var id := Fingerprints(t.hash);
            Survivors(id, Entries(Cat(states[0], KeysPath(user))), fps)
            <= Survivors(id, Entries(Cat(states[|calls|], KeysPath(user))), fps)
  {
    var ks := ToolRunsAreKeyRuns(t, calls, states, user);
    MadeRemovesOnly(ks, calls, user, fps);
    SurvivorsKeepTheirOrder(t.hash, Cat(states[0], KeysPath(user)), ks, fps);
  }

  // The key that a call writes into this user's file, going from a to b, if it does.
  function Written(call: ToolCall, a: Fs, b: Fs, user: string): Option<PublicKey> {
    if call.AddCall? && call.user == user && TextOf(b, user) != TextOf(a, user) && KeyToAdd(call.pubkey, call.comment).Success?
    then Some(KeyToAdd(call.pubkey, call.comment).value)
    else None
  }

  // The entries that the later lines of its comment become.
  function WrittenTail(call: ToolCall, a: Fs, b: Fs, user: string): seq<string> {
    var key := Written(call, a, b, user);
    if key.Some? then Entries(CommentTail(key.value.comment)) else []
  }

  // A tool call is one key call, which adds exactly the key that is written; or none.
  lemma AsKeyCall(t: Setting, call: ToolCall, a: Fs, b: Fs, user: string) returns (k: KeyCall)
    requires AlnumLike(t.alnum) && ValidUsername(t.alnum, user) && Effect(t, call, a, b) && SawAll(call, a, b, user)
    ensures k.AddKey? ==> WellFormed(k.key)
    ensures TextOf(b, user) == Apply(t.hash, TextOf(a, user), k)
    ensures Written(call, a, b, user) == if Adds(t.hash, TextOf(a, user), k) then Some(k.key) else None
  {
    var ks := OneCall(t, call, a, b, user);
    if ks == [] {
      k := RemoveKey("", false);
    } else {
      k := ks[0];
      assert Makes(call, user, k);
      if call.AddCall? {
        KeyToAddIsWellFormed(call.pubkey, call.comment);
      }
    }
  }

  // No line written in any call of the run is left unparsed.
  ghost predicate NothingLeft(t: Setting, calls: seq<ToolCall>, states: seq<Fs>, user: string)
    requires |states| == |calls| + 1
    decreases |calls|
  {
    calls == [] ||
    (Unparsed(Fingerprints(t.hash), WrittenTail(calls[0], states[0], states[1], user)) == []
     && NothingLeft(t, calls[1..], states[1..], user))
  }

  function UnparsedOf(t: Setting, fs: Fs, user: string): seq<string> {
    Unparsed(Fingerprints(t.hash), Entries(TextOf(fs, user)))
  }

  lemma CallUnparsed(t: Setting, call: ToolCall, a: Fs, b: Fs, user: string)
    requires AlnumLike(t.alnum) && ValidUsername(t.alnum, user) && Effect(t, call, a, b) && SawAll(call, a, b, user)
    ensures UnparsedOf(t, b, user) == UnparsedOf(t, a, user) + Unparsed(Fingerprints(t.hash), WrittenTail(call, a, b, user))
  {
    var k := AsKeyCall(t, call, a, b, user);
    StepUnparsed(t.hash, TextOf(a, user), k);
  }

  // Over any run, the unparsed lines of a user's file are never lost, doubled or
  // reordered, and they stay the same list exactly if no comment leaves one behind.
  lemma {:induction false} ToolRunsKeepUnparsed(t: Setting, calls: seq<ToolCall>, states: seq<Fs>, user: string)
    requires AlnumLike(t.alnum) && ValidUsername(t.alnum, user) && IsRun(t, calls, states) && AllSaw(calls, states, user)
    ensures var before, after := UnparsedOf(t, states[0], user), UnparsedOf(t, states[|calls|], user);
            before <= after && (after == before <==> NothingLeft(t, calls, states, user))
    decreases |calls|
  {
    if calls != [] {
      CallUnparsed(t, calls[0], states[0], states[1], user);
      ToolRunsKeepUnparsed(t, calls[1..], states[1..], user);
      GrowsIff(UnparsedOf(t, states[0], user), Unparsed(Fingerprints(t.hash), WrittenTail(calls[0], states[0], states[1], user)),
               UnparsedOf(t, states[|calls|], user));
    }
  }

  lemma GrowsIff<T>(a: seq<T>, b: seq<T>, c: seq<T>)
    requires a + b <= c
    ensures a <= c && (c == a <==> b == [] && c == a + b)
  {
    if b == [] {
      assert a + b == a;
    }
  }

  ghost predicate DistinctIn(t: Setting, fs: Fs, user: string) {
    NoDuplicates(Fingerprints(t.hash), Entries(TextOf(fs, user)))
  }

  // The later lines of a written comment are no keys but new ones.
  ghost predicate Fitting(t: Setting, call: ToolCall, a: Fs, b: Fs, user: string) {
    var key := Written(call, a, b, user);
    key.Some? ==>
      NewKeysOnly(Fingerprints(t.hash), Entries(TextOf(a, user)), Fingerprint(t.hash, key.value.blob), WrittenTail(call, a, b, user))
  }

  ghost predicate AllFitting(t: Setting, calls: seq<ToolCall>, states: seq<Fs>, user: string)
    requires |states| == |calls| + 1
    decreases |calls|
  {
    calls == [] || (Fitting(t, calls[0], states[0], states[1], user) && AllFitting(t, calls[1..], states[1..], user))
  }

  lemma CallDistinct(t: Setting, call: ToolCall, a: Fs, b: Fs, user: string)
    requires AlnumLike(t.alnum) && ValidUsername(t.alnum, user) && Effect(t, call, a, b) && SawAll(call, a, b, user)
    requires DistinctIn(t, a, user)
    ensures DistinctIn(t, b, user) <==> Fitting(t, call, a, b, user)
  {
    var k := AsKeyCall(t, call, a, b, user);
    StepDistinct(t.hash, TextOf(a, user), k);
  }

  ghost predicate DistinctInAll(t: Setting, states: seq<Fs>, user: string) {
    forall fs | fs in states :: DistinctIn(t, fs, user)
  }

  lemma OneMoreState(t: Setting, states: seq<Fs>, user: string)
    requires states != []
    ensures DistinctInAll(t, states, user) <==> DistinctIn(t, states[0], user) && DistinctInAll(t, states[1..], user)
  {
    assert forall fs :: fs in states <==> fs == states[0] || fs in states[1..];
  }

  // Over any run that starts with pairwise distinct keys, they are so in every state
  // exactly if every written comment fits the file it is written to.
  lemma {:induction false} ToolRunsKeepDistinct(t: Setting, calls: seq<ToolCall>, states: seq<Fs>, user: string)
    requires AlnumLike(t.alnum) && ValidUsername(t.alnum, user) && IsRun(t, calls, states) && AllSaw(calls, states, user)
    requires DistinctIn(t, states[0], user)
    ensures DistinctInAll(t, states, user) <==> AllFitting(t, calls, states, user)
    decreases |calls|
  {
    OneMoreState(t, states, user);
    if calls != [] {
      CallDistinct(t, calls[0], states[0], states[1], user);
      OneMoreState(t, states[1..], user);
      if DistinctIn(t, states[1], user) {
        ToolRunsKeepDistinct(t, calls[1..], states[1..], user);
      }
    }
  }

  // With one-line comments both hold over any run.
  lemma ToolRunsKeepLines(t: Setting, calls: seq<ToolCall>, states: seq<Fs>, user: string)
    requires AlnumLike(t.alnum) && ValidUsername(t.alnum, user) && IsRun(t, calls, states) && AllSaw(calls, states, user)
    requires AddsOneLiners(calls, user)
    ensures UnparsedOf(t, states[|calls|], user) == UnparsedOf(t, states[0], user)
    ensures DistinctIn(t, states[0], user) ==> DistinctIn(t, states[|calls|], user)
  {
    var ks := ToolRunsAreKeyRuns(t, calls, states, user);
    MadeOneLiners(ks, calls, user);
    OneLinersKeepLines(t.hash, TextOf(states[0], user), ks);
  }

  // One add to an empty file, and the file has a key twice.
  ghost predicate Doubles(hash: Hash, pubkey: string, comment: string) {
    var key := KeyToAdd(pubkey, comment);
    key.Success? && !NoDuplicates(Fingerprints(hash), Entries(Apply(hash, "", AddKey(key.value, true))))
  }

  // The tools let a comment through whose second line is the key itself, and that
  // one does.
  lemma ToolDoublesAKey(hash: Hash)
    ensures exists pubkey, comment :: Doubles(hash, pubkey, comment)
  {
    var key := PublicKey("ssh-rsa", [1], "");
    ParseOfCompose(key);
    TailOfTwice(key);
    StripId(Twice(key).comment);
    GivenComment(ComposeLine(key), key, Twice(key).comment);
    OneAddDoublesAKey(hash, key);
    assert Doubles(hash, ComposeLine(key), Twice(key).comment);
  }
}
