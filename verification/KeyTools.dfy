// The two key tools end to end: checks, reads and the atomic write, over the retrying
// SSH client, for every pattern of failures of every remote call.
module KeyTools {
  import opened Wrappers
  import opened Text
  import opened Keys
  import opened KeyFile
  import opened Paths
  import opened Shell
  import opened Transport
  import Base64
  import Utf8

  // The DSM account the tools act as; without a password there is no session to ask.
  datatype Session = Session(hasPassword: bool, user: string)

  datatype ToolError =
    | BadUsername
    | BadKey(key: KeyError)
    | BadFingerprint(fingerprint: FingerprintError)
    | BadComment
    | NoPassword
    | CommandFailed
    | SshFailed(ssh: SshError)

  datatype AddResult =
    | Added(fingerprint: string)
    | AlreadyPresent(present: string)
    | AddRefused(crossUser: bool)    // another user's file, or User Home not enabled
    | AddRaised(error: ToolError)

  datatype RemoveResult =
    | Removed(count: nat, fingerprint: string)
    | RemoveRefused
    | RemoveRaised(error: ToolError)

  // The outcomes of the remote calls of one tool call. shown: what the reading command
  // printed, if not the whole text: a cat that is refused or cut off still ends in exit
  // status 0.
  datatype Fates = Fates(setup: Attempts, read: Attempts, shown: Option<string>, write: Attempts, cleanup: Attempts)

  // cat path 2>/dev/null || true, and what a call sees of it.
  function Seen(shown: Option<string>, text: string): string { if shown.Some? then shown.value else text }

  // The text of the file.
  function Cat(fs: Fs, path: string): string {
    if path in fs && fs[path].File? then fs[path].contents else ""
  }

  predicate CrossUser(session: Session, user: string) { session.hasPassword && session.user != user }

  // The comment that is written: the caller's, if it gave one, else the key's own.
  function ChosenComment(key: PublicKey, comment: string): string {
    if comment != "" then Strip(comment) else key.comment
  }

  // The key an add would write, if the arguments pass every check.
  function KeyToAdd(pubkey: string, comment: string): Result<PublicKey, ToolError> {
    match ParseKey(pubkey)
    case Failure(e) => Failure(BadKey(e))
    case Success(key) =>
      var chosen := ChosenComment(key, comment);
      if OneLine(chosen) then Success(key.(comment := chosen)) else Failure(BadComment)
  }

  lemma KeyToAddIsWellFormed(pubkey: string, comment: string)
    requires KeyToAdd(pubkey, comment).Success?
    ensures ParseKey(pubkey).Success? && WellFormed(KeyToAdd(pubkey, comment).value)
    ensures KeyToAdd(pubkey, comment).value.blob == ParseKey(pubkey).value.blob
  {
    ParsedIsWellFormed(pubkey);
    StripShape(comment);
  }

  // The comment that is written. The key's own, if the caller gives none; else the
  // caller's, trimmed, even if that leaves nothing of it; and one with a line feed or
  // carriage return in it is refused.
  lemma WhichComment(pubkey: string, key: PublicKey, before: string, c: string, after: string)
    requires ParseKey(pubkey) == Success(key)
    requires All(before, IsSpace) && All(after, IsSpace) && Stripped(c)
    ensures var comment := before + c + after;
            KeyToAdd(pubkey, comment)
            == if comment == "" then Success(key)
               else if '\n' in c || '\r' in c then Failure(BadComment)
               else Success(PublicKey(key.keyType, key.blob, c))
  {
    ParsedIsWellFormed(pubkey);
    StripPadded(before, c, after);
  }

  // A key line that the tool wrote itself: added again without a comment it is that key.
  lemma OwnComment(key: PublicKey)
    requires WellFormed(key)
    ensures KeyToAdd(ComposeLine(key), "") == Success(key)
  {
    ParseOfCompose(key);
    WhichComment(ComposeLine(key), key, "", "", "");
    assert "" + "" + "" == "";
  }

  // A command that connects and runs to its end at the first attempt.
  predicate Smooth(a: Attempts) { a.first.connects && a.first.fate.Completes? }

  predicate AllSmooth(f: Fates) { Smooth(f.setup) && Smooth(f.read) && Smooth(f.write) }

  lemma SmoothRun(c: Conn, script: seq<Step>, attempts: Attempts)
    requires Smooth(attempts)
    ensures var (d, r) := RunCommand(c, script, false, attempts);
            r == Returned(RunSteps(script, c.fs).ok) && d.fs == RunSteps(script, c.fs).fs
  {
  }

  // The user's directory and files, where there are any, are a directory and files.
  predicate Fits(fs: Fs, user: string) {
    && (SshDir(user) in fs ==> fs[SshDir(user)].Dir?)
    && (KeysPath(user) in fs ==> fs[KeysPath(user)].File?)
    && (TempPath(user) in fs ==> fs[TempPath(user)].File?)
  }

  // Commands that meet no failure work on such a home.
  lemma SetupWorks(fs: Fs, user: string)
    requires Fits(fs, user)
    ensures var o := RunSteps(SetupScript(SshDir(user), KeysPath(user)), fs); o.ok && Fits(o.fs, user)
  {
    OwnPathsDiffer(user);
    SetupRun(SshDir(user), KeysPath(user), fs);
  }

  lemma ReplaceWorks(fs: Fs, user: string, contents: string)
    requires Fits(fs, user)
    ensures RunSteps(ReplaceScript(KeysPath(user), TempPath(user), contents), fs).ok
  {
    OwnPathsDiffer(user);
    ReplaceRun(KeysPath(user), TempPath(user), contents, fs);
  }

  // ---------------------------------------------------------------- the payload of a write

  // base64.b64encode(contents.encode("utf-8"))
  function Packed(contents: string): string { Base64.Encode(Utf8.EncodeText(contents)) }

  // The text that base64 -d writes into the temp file.
  function Unpacked(payload: string): Option<string> {
    var bytes :- Base64.Decode(payload);
    Utf8.DecodeText(bytes)
  }

  lemma PayloadArrives(contents: string)
    ensures Unpacked(Packed(contents)) == Some(contents)
  {
    Base64.RoundTrip(Utf8.EncodeText(contents));
    Utf8.TextRoundTrip(contents);
  }

  // printf %s payload | base64 -d > tmp && chmod 600 tmp && mv tmp path
  function WriteScript(path: string, tmp: string, payload: string): seq<Step>
    requires Unpacked(payload).Some?
  {
    ReplaceScript(path, tmp, Unpacked(payload).value)
  }

  method CheckStatus(r: RunResult) returns (error: Option<ToolError>)
    ensures error == match r {
      case Raised(e) => Some(SshFailed(e))
      case Returned(ok) => if ok then None else Some(CommandFailed)
    }
  {
    match r {
      case Raised(e) => return Some(SshFailed(e));
      case Returned(ok) => return if ok then None else Some(CommandFailed);
    }
  }

  // Create the directory and the file, readable by their owner only.
  method EnsureSshDir(ssh: SshClient, user: string, attempts: Attempts) returns (error: Option<ToolError>)
    requires ssh.Valid()
    modifies ssh
    ensures ssh.Valid()
    ensures SameOutside(ssh.fs, old(ssh.fs), {SshDir(user), KeysPath(user)})
    ensures Cat(ssh.fs, KeysPath(user)) == Cat(old(ssh.fs), KeysPath(user))
    ensures Smooth(attempts) && Fits(old(ssh.fs), user) ==> error == None && Fits(ssh.fs, user)
    ensures error == None ==> DirReady(ssh.fs, user) && FileReady(ssh.fs, user)
    ensures error.Some? ==> error.value.CommandFailed? || error.value.SshFailed?
  {
    ghost var before := ssh.State();
    OwnPathsDiffer(user);
    var r := ssh.Run(SetupScript(SshDir(user), KeysPath(user)), false, attempts);
    if Smooth(attempts) && Fits(before.fs, user) {
      SmoothRun(before, SetupScript(SshDir(user), KeysPath(user)), attempts);
      SetupWorks(before.fs, user);
    }
    SetupReaches(before, SshDir(user), KeysPath(user), attempts);
    if r == Returned(true) {
      SetupDone(before, SshDir(user), KeysPath(user), attempts);
    }
    error := CheckStatus(r);
  }

  // A directory only its owner may enter (rwx------), and a file only its owner may read
  // and write (rw-------).
  ghost predicate DirReady(fs: Fs, user: string) { SshDir(user) in fs && fs[SshDir(user)] == Dir(7 * 64) }
  ghost predicate FileReady(fs: Fs, user: string) {
    KeysPath(user) in fs && HasMode(fs[KeysPath(user)]) && fs[KeysPath(user)].mode == 6 * 64
  }

  lemma SetupDone(c: Conn, dir: string, file: string, attempts: Attempts)
    requires dir != file
    ensures var (d, r) := RunCommand(c, SetupScript(dir, file), false, attempts);
            r == Returned(true) ==>
              (&& dir in d.fs && d.fs[dir] == Dir(7 * 64)
               && file in d.fs && HasMode(d.fs[file]) && d.fs[file].mode == 6 * 64)
  {
    RunAnswers(c, SetupScript(dir, file), false, attempts);
    SetupRun(dir, file, c.fs);
    if attempts.first.fate.Breaks? {
      SetupRun(dir, file, CutOff(SetupScript(dir, file), attempts.first.fate.after, c.fs));
    }
  }

  lemma SetupReaches(c: Conn, dir: string, file: string, attempts: Attempts)
    requires dir != file
    ensures var d := RunCommand(c, SetupScript(dir, file), false, attempts).0;
            SameOutside(d.fs, c.fs, {dir, file}) && Cat(d.fs, file) == Cat(c.fs, file)
  {
    var script := SetupScript(dir, file);
    RunReaches(c, script, false, attempts);
    var d := RunCommand(c, script, false, attempts).0;
    var j: nat, k: nat :| d.fs == CutOff(script, k, CutOff(script, j, c.fs));
    var mid := CutOff(script, j, c.fs);
    SetupKeeps(dir, file, j, c.fs);
    SetupKeeps(dir, file, k, mid);
    forall p | p !in {dir, file}
      ensures SameAt(d.fs, c.fs, p)
    {
      assert SameAt(d.fs, mid, p) && SameAt(mid, c.fs, p);
    }
  }

  // Setting up never changes what the key file reads as.
  lemma SetupKeeps(dir: string, file: string, k: nat, fs: Fs)
    requires dir != file
    ensures var cut := CutOff(SetupScript(dir, file), k, fs);
            SameOutside(cut, fs, {dir, file}) && Cat(cut, file) == Cat(fs, file)
  {
    var script := SetupScript(dir, file);
    var part := if k < |script| then script[..k] else script;
    assert forall step | step in part :: step in script;
    RunFrame(part, fs, {dir, file});
    SetupCut(dir, file, k, fs);
  }

  // An error, or what was shown: the whole text only if the command printed it.
  method ReadAuthorizedKeys(ssh: SshClient, user: string, attempts: Attempts, shown: Option<string>)
    returns (r: Result<string, ToolError>)
    requires ssh.Valid()
    modifies ssh
    ensures ssh.Valid() && ssh.fs == old(ssh.fs)
    ensures r.Success? ==> r.value == Seen(shown, Cat(ssh.fs, KeysPath(user)))
    ensures Smooth(attempts) ==> r.Success?
    ensures r.Failure? ==> r.error.CommandFailed? || r.error.SshFailed?
  {
    ghost var before := ssh.State();
    var done := ssh.Run([], false, attempts);
    if Smooth(attempts) {
      SmoothRun(before, [], attempts);
    }
    RunReaches(before, [], false, attempts);
    var error := CheckStatus(done);
    if error.Some? {
      return Failure(error.value);
    }
    return Success(Seen(shown, Cat(ssh.fs, KeysPath(user))));
  }

  // Old contents or exactly the new ones, whatever fails; the new ones on success.
  method WriteAuthorizedKeys(ssh: SshClient, user: string, contents: string, fates: Fates)
    returns (error: Option<ToolError>)
    requires ssh.Valid()
    modifies ssh
    ensures ssh.Valid()
    ensures SameOutside(ssh.fs, old(ssh.fs), {KeysPath(user), TempPath(user)})
    ensures Cat(ssh.fs, KeysPath(user)) in {Cat(old(ssh.fs), KeysPath(user)), contents}
    ensures error == None ==> Cat(ssh.fs, KeysPath(user)) == contents && FileReady(ssh.fs, user)
    ensures Smooth(fates.write) && Fits(old(ssh.fs), user) ==> error == None
    ensures error.Some? ==> error.value.CommandFailed? || error.value.SshFailed?
    // A command that failed leaves no temp file, if the clean-up goes through.
    ensures error == Some(CommandFailed) && Smooth(fates.cleanup) && !IsDir(old(ssh.fs), TempPath(user)) ==> TempPath(user) !in ssh.fs
  {
    ghost var before := ssh.State();
    var path, tmp := KeysPath(user), TempPath(user);
    OwnPathsDiffer(user);
    var payload := Packed(contents);
    PayloadArrives(contents);
    var r := ssh.Run(WriteScript(path, tmp, payload), false, fates.write);
    if Smooth(fates.write) && Fits(before.fs, user) {
      SmoothRun(before, ReplaceScript(path, tmp, contents), fates.write);
      ReplaceWorks(before.fs, user, contents);
    }
    ReplaceOverSsh(before, path, tmp, contents, fates.write);
    ghost var written := ssh.State();
    if r.Raised? {
      return Some(SshFailed(r.error));
    }
    if !r.ok {
      // Best effort: clear the temp file away; what happens to that is ignored.
      var _ := ssh.Run([Unlink(tmp)], false, fates.cleanup);
      CleanupAfter(before, path, tmp, contents, fates.write, fates.cleanup);
      return Some(CommandFailed);
    }
    return None;
  }

  predicate IsDir(fs: Fs, p: string) { p in fs && fs[p].Dir? }

  lemma TempNeverDir(c: Conn, path: string, tmp: string, text: string, attempts: Attempts)
    requires path != tmp && !IsDir(c.fs, tmp)
    ensures !IsDir(RunCommand(c, ReplaceScript(path, tmp, text), false, attempts).0.fs, tmp)
  {
    var script := ReplaceScript(path, tmp, text);
    RunReaches(c, script, false, attempts);
    var d := RunCommand(c, script, false, attempts).0;
    var j: nat, k: nat :| d.fs == CutOff(script, k, CutOff(script, j, c.fs));
    CutNeverDir(path, tmp, text, j, c.fs);
    CutNeverDir(path, tmp, text, k, CutOff(script, j, c.fs));
  }

  lemma CutNeverDir(path: string, tmp: string, text: string, k: nat, fs: Fs)
    requires path != tmp && !IsDir(fs, tmp)
    ensures !IsDir(CutOff(ReplaceScript(path, tmp, text), k, fs), tmp)
  {
    if k < |ReplaceScript(path, tmp, text)| {
      BeforeTheRename(path, tmp, text, k, fs);
    } else {
      ReplaceRun(path, tmp, text, fs);
    }
  }

  // The clean-up leaves the key file as the write left it, and no temp file if it goes through.
  lemma CleanupAfter(c: Conn, path: string, tmp: string, text: string, write: Attempts, cleanup: Attempts)
    requires path != tmp && SameOutside(RunCommand(c, ReplaceScript(path, tmp, text), false, write).0.fs, c.fs, {path, tmp})
    ensures var d := RunCommand(c, ReplaceScript(path, tmp, text), false, write).0;
            var e := RunCommand(d, [Unlink(tmp)], false, cleanup).0;
            && SameOutside(e.fs, c.fs, {path, tmp}) && SameAt(e.fs, d.fs, path)
            && (Smooth(cleanup) && !IsDir(c.fs, tmp) ==> tmp !in e.fs)
  {
    var d := RunCommand(c, ReplaceScript(path, tmp, text), false, write).0;
    var e := RunCommand(d, [Unlink(tmp)], false, cleanup).0;
    CleanupReaches(d, tmp, cleanup);
    if Smooth(cleanup) && !IsDir(c.fs, tmp) {
      TempNeverDir(c, path, tmp, text, write);
      CleanupClears(d, tmp, cleanup);
    }
    forall p | p !in {path, tmp}
      ensures SameAt(e.fs, c.fs, p)
    {
      assert SameAt(e.fs, d.fs, p) && SameAt(d.fs, c.fs, p);
    }
  }

  lemma CleanupClears(c: Conn, tmp: string, attempts: Attempts)
    requires Smooth(attempts) && !IsDir(c.fs, tmp)
    ensures tmp !in RunCommand(c, [Unlink(tmp)], false, attempts).0.fs
  {
    SmoothRun(c, [Unlink(tmp)], attempts);
    RunOne(Unlink(tmp), c.fs);
  }

  lemma CleanupReaches(c: Conn, tmp: string, attempts: Attempts)
    ensures SameOutside(RunCommand(c, [Unlink(tmp)], false, attempts).0.fs, c.fs, {tmp})
  {
    var script := [Unlink(tmp)];
    RunReaches(c, script, false, attempts);
    var d := RunCommand(c, script, false, attempts).0;
    var j: nat, k: nat :| d.fs == CutOff(script, k, CutOff(script, j, c.fs));
    var mid := CutOff(script, j, c.fs);
    RunFrame(if j < 1 then script[..j] else script, c.fs, {tmp});
    RunFrame(if k < 1 then script[..k] else script, mid, {tmp});
    forall p | p !in {tmp}
      ensures SameAt(d.fs, c.fs, p)
    {
      assert SameAt(d.fs, mid, p) && SameAt(mid, c.fs, p);
    }
  }

  // What an add that saw this much of the text may have made of it: nothing, or exactly
  // what it saw with the key; and which of the two the answer says.
  ghost predicate AddOutcome(hash: Hash, key: Result<PublicKey, ToolError>, seen: string, before: string, after: string, r: AddResult) {
    var id := Fingerprints(hash);
    && (after == before || (key.Success? && Rewritten(hash, key.value, seen, after)))
    && match r
       case Added(fp) => key.Success? && fp == Fingerprint(hash, key.value.blob) && Rewritten(hash, key.value, seen, after)
       case AlreadyPresent(fp) =>
         && key.Success? && fp == Fingerprint(hash, key.value.blob)
         && Present(id, Entries(seen), fp)
         && after == before
       case AddRefused(_) => after == before
       case AddRaised(_) => true
  }

  ghost predicate Rewritten(hash: Hash, key: PublicKey, seen: string, after: string) {
    var id, fp := Fingerprints(hash), Fingerprint(hash, key.blob);
    !Present(id, Entries(seen), fp) && after == AddTo(id, seen, ComposeLine(key), fp)
  }

  // What one add call may have done to the file system: nothing but to the user's own
  // key files, only if that is the session's user, and to the text as AddOutcome says.
  ghost predicate AddEffect(
    hash: Hash, alnum: char -> bool, session: Session, user: string, pubkey: string, comment: string,
    shown: Option<string>, a: Fs, b: Fs, r: AddResult)
  {
    var before, after := Cat(a, KeysPath(user)), Cat(b, KeysPath(user));
    && SameOutside(b, a, KeyPaths(user))
    && (b != a ==> session.hasPassword && session.user == user && ValidUsername(alnum, user))
    && AddOutcome(hash, KeyToAdd(pubkey, comment), Seen(shown, before), before, after, r)
  }

  // What an add answers without any command to the NAS, if anything; the first of the
  // checks that fails decides.
  function AddCheck(alnum: char -> bool, session: Session, home: Option<bool>, user: string, pubkey: string, comment: string): Option<AddResult> {
    FirstRefusal(ValidUsername(alnum, user), ParseKey(pubkey), session, user, home, KeyToAdd(pubkey, comment))
  }

  function FirstRefusal(
    valid: bool, given: Result<PublicKey, KeyError>, session: Session, user: string,
    home: Option<bool>, chosen: Result<PublicKey, ToolError>): Option<AddResult>
  {
    if !valid then Some(AddRaised(BadUsername))
    else if given.Failure? then Some(AddRaised(BadKey(given.error)))
    else if CrossUser(session, user) then Some(AddRefused(true))
    else if !session.hasPassword then Some(AddRaised(NoPassword))
    else if home == None then Some(AddRaised(CommandFailed))
    else if !home.value then Some(AddRefused(false))
    else if chosen.Failure? then Some(AddRaised(BadComment))
    else None
  }

  lemma WhenFirst(
    valid: bool, given: Result<PublicKey, KeyError>, session: Session, user: string,
    home: Option<bool>, chosen: Result<PublicKey, ToolError>)
    ensures var check := FirstRefusal(valid, given, session, user, home, chosen);
            var own := session.hasPassword && user == session.user;
            && (check == Some(AddRaised(BadUsername)) <==> !valid)
            && (forall e :: check == Some(AddRaised(BadKey(e))) <==> valid && given == Failure(e))
            && (check == Some(AddRefused(true)) <==> valid && given.Success? && session.hasPassword && user != session.user)
            && (check == Some(AddRaised(NoPassword)) <==> valid && given.Success? && !session.hasPassword)
            && (check == Some(AddRaised(CommandFailed)) <==> valid && given.Success? && own && home == None)
            && (check == Some(AddRefused(false)) <==> valid && given.Success? && own && home == Some(false))
            && (check == Some(AddRaised(BadComment)) <==> valid && given.Success? && own && home == Some(true) && chosen.Failure?)
            && (check == None <==> valid && given.Success? && own && home == Some(true) && chosen.Success?)
  {
  }

  function RemoveCheck(alnum: char -> bool, session: Session, user: string, fingerprint: string): Option<RemoveResult> {
    if !ValidUsername(alnum, user) then Some(RemoveRaised(BadUsername))
    else if NormalizeFingerprint(fingerprint).Failure? then Some(RemoveRaised(BadFingerprint(NormalizeFingerprint(fingerprint).error)))
    else if CrossUser(session, user) then Some(RemoveRefused)
    else None
  }

  // A name that stands for a user: one to 32 characters, letters, digits and ._- only.
  ghost predicate NamesUser(alnum: char -> bool, user: string) {
    1 <= |user| <= 32 && forall c | c in user :: alnum(c) || c == '.' || c == '_' || c == '-'
  }

  lemma WhenValidUsername(alnum: char -> bool, user: string)
    ensures ValidUsername(alnum, user) <==> NamesUser(alnum, user)
  {
    assert forall i | 0 <= i < |user| :: user[i] in user;
  }

  // Which check refuses an add, each only if the ones before it do not: the name, the
  // key, another user's file, no password, a User Home check that raised or that found it
  // off, the comment. And none only if all are passed.
  lemma WhenAddRefused(alnum: char -> bool, session: Session, home: Option<bool>, user: string, pubkey: string, comment: string)
    ensures var check := AddCheck(alnum, session, home, user, pubkey, comment);
            var name, key := NamesUser(alnum, user), ParseKey(pubkey).Success?;
            var own := session.hasPassword && user == session.user;
            && (check == Some(AddRaised(BadUsername)) <==> !name)
            && (forall e :: check == Some(AddRaised(BadKey(e))) <==> name && ParseKey(pubkey) == Failure(e))
            && (check == Some(AddRefused(true)) <==> name && key && session.hasPassword && user != session.user)
            && (check == Some(AddRaised(NoPassword)) <==> name && key && !session.hasPassword)
            && (check == Some(AddRaised(CommandFailed)) <==> name && key && own && home == None)
            && (check == Some(AddRefused(false)) <==> name && key && own && home == Some(false))
            && (check == Some(AddRaised(BadComment)) <==> name && key && own && home == Some(true) && KeyToAdd(pubkey, comment).Failure?)
            && (check == None <==> name && key && own && home == Some(true) && KeyToAdd(pubkey, comment).Success?)
  {
    WhenValidUsername(alnum, user);
    WhenFirst(ValidUsername(alnum, user), ParseKey(pubkey), session, user, home, KeyToAdd(pubkey, comment));
  }

  // The same of a remove: the name, the fingerprint, another user's file; and without a
  // password anybody's file passes.
  lemma WhenRemoveRefused(alnum: char -> bool, session: Session, user: string, fingerprint: string)
    ensures var check := RemoveCheck(alnum, session, user, fingerprint);
            var name, target := NamesUser(alnum, user), NormalizeFingerprint(fingerprint);
            && (check == Some(RemoveRaised(BadUsername)) <==> !name)
            && (forall e :: check == Some(RemoveRaised(BadFingerprint(e))) <==> name && target == Failure(e))
            && (check == Some(RemoveRefused) <==> name && target.Success? && session.hasPassword && user != session.user)
            && (check == None <==> name && target.Success? && (!session.hasPassword || user == session.user))
  {
    WhenValidUsername(alnum, user);
  }

  // home: what the User Home check answers, or None if one of its calls raises.
  method AddAuthorizedKey(
    ssh: SshClient, hash: Hash, alnum: char -> bool, session: Session, home: Option<bool>,
    user: string, pubkey: string, comment: string, fates: Fates)
    returns (r: AddResult)
    requires ssh.Valid()
    modifies ssh
    ensures ssh.Valid()
    ensures AddEffect(hash, alnum, session, user, pubkey, comment, fates.shown, old(ssh.fs), ssh.fs, r)
    ensures ssh.fs != old(ssh.fs) ==> home == Some(true)
    // After an answer the home's .ssh and its key file are its owner's alone.
    ensures r.Added? || r.AlreadyPresent? ==> DirReady(ssh.fs, user) && FileReady(ssh.fs, user)
    // The answer is the failing check's, or there is none and the add goes through
    // unless a command fails.
    ensures var check := AddCheck(alnum, session, home, user, pubkey, comment);
            && (check.Some? ==> r == check.value && ssh.State() == old(ssh.State()))
            && (check.None? && AllSmooth(fates) && Fits(old(ssh.fs), user) ==> r.Added? || r.AlreadyPresent?)
            && (check.None? ==> r.Added? || r.AlreadyPresent? || (r.AddRaised? && (r.error.CommandFailed? || r.error.SshFailed?)))
  {
    if !ValidUsername(alnum, user) {
      return AddRaised(BadUsername);
    }
    var parsed := ParseKey(pubkey);
    if parsed.Failure? {
      return AddRaised(BadKey(parsed.error));
    }
    var fp := Fingerprint(hash, parsed.value.blob);
    if CrossUser(session, user) {
      return AddRefused(true);
    }
    if !session.hasPassword {
      return AddRaised(NoPassword);
    }
    if home == None {
      return AddRaised(CommandFailed);
    }
    if !home.value {
      return AddRefused(false);
    }
    var chosen := ChosenComment(parsed.value, comment);
    if !OneLine(chosen) {
      return AddRaised(BadComment);
    }
    var key := parsed.value.(comment := chosen);
    r := AddLine(ssh, Fingerprints(hash), user, ComposeLine(key), fp, fates);
  }

  // The part of an add that talks to the NAS.
  method AddLine(ssh: SshClient, id: Reading, user: string, line: string, fp: string, fates: Fates)
    returns (r: AddResult)
    requires ssh.Valid()
    modifies ssh
    ensures ssh.Valid()
    ensures SameOutside(ssh.fs, old(ssh.fs), KeyPaths(user))
    ensures var before, after := Cat(old(ssh.fs), KeysPath(user)), Cat(ssh.fs, KeysPath(user));
            var seen := Seen(fates.shown, before);
            var rewritten := !Present(id, Entries(seen), fp) && after == AddTo(id, seen, line, fp);
            && (after == before || rewritten)
            && (r == Added(fp) ==> rewritten)
            && (r == AlreadyPresent(fp) ==> Present(id, Entries(seen), fp) && after == before)
    ensures r in {Added(fp), AlreadyPresent(fp)} ==> DirReady(ssh.fs, user) && FileReady(ssh.fs, user)
    ensures r in {Added(fp), AlreadyPresent(fp)} || (r.AddRaised? && (r.error.CommandFailed? || r.error.SshFailed?))
    ensures AllSmooth(fates) && Fits(old(ssh.fs), user) ==> !r.AddRaised?
  {
    ghost var start := ssh.fs;
    var failed := EnsureSshDir(ssh, user, fates.setup);
    if failed.Some? {
      SetupOnly(ssh.fs, start, user);
      return AddRaised(failed.value);
    }
    SetupOnly(ssh.fs, start, user);
    var contents := ReadAuthorizedKeys(ssh, user, fates.read, fates.shown);
    if contents.Failure? {
      return AddRaised(contents.error);
    }
    var entries := SplitAuthorizedKeys(contents.value);
    var present := FindFingerprint(id, entries, fp);
    if present {
      return AlreadyPresent(fp);
    }
    ghost var ready := ssh.fs;
    failed := WriteAuthorizedKeys(ssh, user, JoinEntries(entries + [line]), fates);
    OutsideBoth(ssh.fs, ready, start, user);
    OwnPathsDiffer(user);
    assert SameAt(ssh.fs, ready, SshDir(user));
    return if failed.Some? then AddRaised(failed.value) else Added(fp);
  }

  lemma SetupOnly(b: Fs, a: Fs, user: string)
    requires SameOutside(b, a, {SshDir(user), KeysPath(user)})
    ensures SameOutside(b, a, KeyPaths(user))
  {
    forall p | p !in KeyPaths(user)
      ensures SameAt(b, a, p)
    {
      assert p !in {SshDir(user), KeysPath(user)};
    }
  }

  lemma OutsideBoth(c: Fs, b: Fs, a: Fs, user: string)
    requires SameOutside(c, b, {KeysPath(user), TempPath(user)})
    requires SameOutside(b, a, {SshDir(user), KeysPath(user)})
    ensures SameOutside(c, a, KeyPaths(user))
  {
    forall p | p !in KeyPaths(user)
      ensures SameAt(c, a, p)
    {
      assert SameAt(c, b, p) && SameAt(b, a, p);
    }
  }

  ghost predicate RemoveOutcome(
    hash: Hash, target: Result<string, FingerprintError>, seen: string, before: string, after: string, r: RemoveResult)
  {
    var id := Fingerprints(hash);
    && (after == before || (target.Success? && Dropped(id, seen, target.value, after)))
    && match r
       case Removed(count, fp) =>
         && target == Success(fp)
         && Reported(id, seen, before, after, fp, count)
       case RemoveRefused => after == before
       case RemoveRaised(_) => true
  }

  // What a reported remove counted and did.
  ghost predicate Reported(id: Reading, seen: string, before: string, after: string, fp: string, count: nat) {
    && count == RemovedCount(id, seen, fp)
    && (if count == 0 then after == before else Dropped(id, seen, fp, after))
  }

  ghost predicate Dropped(id: Reading, seen: string, fp: string, after: string) {
    Present(id, Entries(seen), fp) && after == RemoveFrom(id, seen, fp)
  }

  // The same of a remove: the directory is left alone, and without a password it is not
  // tied to the session's user.
  ghost predicate RemoveEffect(
    hash: Hash, alnum: char -> bool, session: Session, user: string, fingerprint: string,
    shown: Option<string>, a: Fs, b: Fs, r: RemoveResult)
  {
    var before, after := Cat(a, KeysPath(user)), Cat(b, KeysPath(user));
    && SameOutside(b, a, {KeysPath(user), TempPath(user)})
    && (b != a ==> !CrossUser(session, user) && ValidUsername(alnum, user))
    && RemoveOutcome(hash, NormalizeFingerprint(fingerprint), Seen(shown, before), before, after, r)
  }

  method RemoveAuthorizedKey(
    ssh: SshClient, hash: Hash, alnum: char -> bool, session: Session,
    user: string, fingerprint: string, fates: Fates)
    returns (r: RemoveResult)
    requires ssh.Valid()
    modifies ssh
    ensures ssh.Valid()
    ensures RemoveEffect(hash, alnum, session, user, fingerprint, fates.shown, old(ssh.fs), ssh.fs, r)
    ensures r.Removed? && r.count == 0 ==> ssh.fs == old(ssh.fs)
    ensures var check := RemoveCheck(alnum, session, user, fingerprint);
            && (check.Some? ==> r == check.value && ssh.State() == old(ssh.State()))
            && (check.None? && AllSmooth(fates) && Fits(old(ssh.fs), user) ==> r.Removed?)
            && (check.None? ==> r.Removed? || (r.RemoveRaised? && (r.error.CommandFailed? || r.error.SshFailed?)))
  {
    if !ValidUsername(alnum, user) {
      return RemoveRaised(BadUsername);
    }
    var target := NormalizeFingerprint(fingerprint);
    if target.Failure? {
      return RemoveRaised(BadFingerprint(target.error));
    }
    if CrossUser(session, user) {
      return RemoveRefused;
    }
    r := RemoveLines(ssh, Fingerprints(hash), user, target.value, fates);
  }

  // The part of a remove that talks to the NAS.
  method RemoveLines(ssh: SshClient, id: Reading, user: string, fp: string, fates: Fates)
    returns (r: RemoveResult)
    requires ssh.Valid()
    modifies ssh
    ensures ssh.Valid()
    ensures SameOutside(ssh.fs, old(ssh.fs), {KeysPath(user), TempPath(user)})
    ensures var before, after := Cat(old(ssh.fs), KeysPath(user)), Cat(ssh.fs, KeysPath(user));
            var seen := Seen(fates.shown, before);
            && (after == before || Dropped(id, seen, fp, after))
            && (r.Removed? ==>
                r.count == RemovedCount(id, seen, fp) && (if r.count == 0 then after == before else Dropped(id, seen, fp, after)))
    ensures r.Removed? ==> r.fingerprint == fp && (r.count == 0 ==> ssh.fs == old(ssh.fs))
    ensures r.Removed? || (r.RemoveRaised? && (r.error.CommandFailed? || r.error.SshFailed?))
    ensures AllSmooth(fates) && Fits(old(ssh.fs), user) ==> r.Removed?
  {
    var contents := ReadAuthorizedKeys(ssh, user, fates.read, fates.shown);
    if contents.Failure? {
      return RemoveRaised(contents.error);
    }
    var entries := SplitAuthorizedKeys(contents.value);
    var kept, count := DropFingerprint(id, entries, fp);
    PresentIffRemoves(id, entries, fp);
    if count == 0 {
      return Removed(0, fp);
    }
    var failed := WriteAuthorizedKeys(ssh, user, JoinEntries(kept), fates);
    return if failed.Some? then RemoveRaised(failed.value) else Removed(count, fp);
  }

  // Whatever two users' calls do, a change confined to one user's key files leaves the
  // other user's file as it is.
  lemma OtherUsersUntouched(alnum: char -> bool, a: Fs, b: Fs, user: string, other: string)
    requires AlnumLike(alnum) && ValidUsername(alnum, user) && ValidUsername(alnum, other)
    requires user != other && SameOutside(b, a, KeyPaths(user))
    ensures Cat(b, KeysPath(other)) == Cat(a, KeysPath(other))
    ensures forall p | p in KeyPaths(other) :: SameAt(b, a, p)
  {
    PathsApart(alnum, user, other);
    assert KeysPath(other) in KeyPaths(other);
    assert SameAt(b, a, KeysPath(other));
  }

  // A comment that every check lets through and that is two lines of the file.
  const FORM_FEED_COMMENT := "a\U{c}b"

  // The added line does not read back, and removing the key leaves the comment's second
  // line behind as an entry.
  ghost predicate FormFeedSplits(hash: Hash, pubkey: string, contents: string) {
    KeyToAdd(pubkey, FORM_FEED_COMMENT).Success? &&
    var key, id := KeyToAdd(pubkey, FORM_FEED_COMMENT).value, Fingerprints(hash);
    var fp := Fingerprint(hash, key.blob);
    var added := AddTo(id, contents, ComposeLine(key), fp);
    Entries(added) != Entries(contents) + [ComposeLine(key)] && Entries(RemoveFrom(id, added, fp)) != Entries(contents)
  }

  // So it is for every key that is new to the file.
  lemma FormFeedSplitsTheLine(hash: Hash, pubkey: string, contents: string)
    requires ParseKey(pubkey).Success?
    requires !Present(Fingerprints(hash), Entries(contents), Fingerprint(hash, ParseKey(pubkey).value.blob))
    ensures FormFeedSplits(hash, pubkey, contents)
  {
    var key := FormFeedIsAllowed(pubkey);
    AddReadsBack(hash, contents, key);
    FormFeedIsNotSingle(key);
    FormFeedStays(hash, contents, key);
  }

  lemma FormFeedIsAllowed(pubkey: string) returns (key: PublicKey)
    requires ParseKey(pubkey).Success?
    ensures KeyToAdd(pubkey, FORM_FEED_COMMENT) == Success(key)
    ensures WellFormed(key) && key.comment == FORM_FEED_COMMENT && key.blob == ParseKey(pubkey).value.blob
  {
    FormFeedIsOneLine();
    GivenComment(pubkey, ParseKey(pubkey).value, FORM_FEED_COMMENT);
    KeyToAddIsWellFormed(pubkey, FORM_FEED_COMMENT);
    key := KeyToAdd(pubkey, FORM_FEED_COMMENT).value;
  }

  lemma FormFeedIsOneLine()
    ensures FORM_FEED_COMMENT != "" && Strip(FORM_FEED_COMMENT) == FORM_FEED_COMMENT && OneLine(FORM_FEED_COMMENT)
  {
    StripId(FORM_FEED_COMMENT);
  }

  lemma GivenComment(pubkey: string, parsed: PublicKey, comment: string)
    requires ParseKey(pubkey) == Success(parsed)
    requires comment != "" && Strip(comment) == comment && OneLine(comment)
    ensures KeyToAdd(pubkey, comment) == Success(parsed.(comment := comment))
  {
  }

  lemma FormFeedIsNotSingle(key: PublicKey)
    requires key.comment == FORM_FEED_COMMENT
    ensures !SingleLine(key)
  {
    assert IsBreak(key.comment[1]);
  }

  lemma FormFeedStays(hash: Hash, contents: string, key: PublicKey)
    requires WellFormed(key) && key.comment == FORM_FEED_COMMENT
    requires !Present(Fingerprints(hash), Entries(contents), Fingerprint(hash, key.blob))
    ensures var id, fp := Fingerprints(hash), Fingerprint(hash, key.blob);
            Entries(RemoveFrom(id, AddTo(id, contents, ComposeLine(key), fp), fp)) != Entries(contents)
  {
    AddThenRemove(hash, contents, key);
    TailOfFormFeed();
    OneLetterIsNoKey(hash);
    assert "b" in Entries(CommentTail(key.comment));
  }

  lemma TailOfFormFeed()
    ensures Entries(CommentTail(FORM_FEED_COMMENT)) == ["b"]
  {
    SpanNotIs("a", "\U{c}b", IsBreak);
    assert FORM_FEED_COMMENT == "a" + "\U{c}b";
    assert FORM_FEED_COMMENT[1..] == "\U{c}b" && FORM_FEED_COMMENT[2..] == "b";
    EntryReadsBack("b");
  }

  lemma OneLetterIsNoKey(hash: Hash)
    ensures Fingerprints(hash)("b") == None
  {
  }

  // And there is such a key and file.
  lemma FormFeedSplitsAFile(hash: Hash)
    ensures exists pubkey, contents :: FormFeedSplits(hash, pubkey, contents)
  {
    var key := PublicKey("ssh-rsa", [1], "");
    ParseOfCompose(key);
    NoEntries();
    FormFeedSplitsTheLine(hash, ComposeLine(key), "");
  }
}
