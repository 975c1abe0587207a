// Switching User Home off, guarded: without confirmation only after a probe that was
// able to look found nobody whose keys would become unreachable.
module UserHomeDisable {
  import opened Wrappers
  import opened Seqs
  import opened Text
  import opened Paths
  import opened Shell
  import opened UserHome

  // How the probe for key files ends: no answer at all, or an exit status and output.
  datatype Listing = NoListing | Listing(exit: int, stdout: string, stderr: string)

  const SUDO_MARKERS: seq<string> := ["password is required", "a terminal is required", "a password is required", "sudo:"]

  predicate SudoFailed(l: Listing) {
    l.Listing? && l.exit != 0 && exists i | 0 <= i < |SUDO_MARKERS| :: Contains(Lower(l.stderr), SUDO_MARKERS[i])
  }

  // ---------------------------------------------------------------- the listed users

  // The user of each listed path, in order; blank lines and other paths name nobody.
  function UsersOf(lines: seq<string>): seq<string>
    decreases |lines|
  {
    if lines == [] then [] else UserOfLine(lines[0]) + UsersOf(lines[1..])
  }

  function UserOfLine(line: string): seq<string> {
    if Strip(line) == "" then []
    else
      match UserOf(Strip(line))
      case None => []
      case Some(user) => [user]
  }

  lemma {:induction false} UsersOfConcat(a: seq<string>, b: seq<string>)
    ensures UsersOf(a + b) == UsersOf(a) + UsersOf(b)
    decreases |a|
  {
    if a == [] {
      assert a + b == b;
    } else {
      assert (a + b)[1..] == a[1..] + b;
      UsersOfConcat(a[1..], b);
      Assoc(UserOfLine(a[0]), UsersOf(a[1..]), UsersOf(b));
    }
  }

  // Each element where it first occurs.
  function Dedup<T(==)>(s: seq<T>): seq<T>
    decreases |s|
  {
    if s == [] then []
    else
      var before := s[..|s| - 1];
      var last := s[|s| - 1];
      Dedup(before) + (if last in before then [] else [last])
  }

  // The positions of first occurrences, in order.
  function Firsts<T(==)>(s: seq<T>): seq<nat>
    decreases |s|
  {
    if s == [] then []
    else Firsts(s[..|s| - 1]) + (if s[|s| - 1] in s[..|s| - 1] then [] else [|s| - 1])
  }

  predicate Increasing(ps: seq<nat>) { forall i, j | 0 <= i < j < |ps| :: ps[i] < ps[j] }

  predicate FirstAt<T(==)>(s: seq<T>, p: nat, x: T) { p < |s| && s[p] == x && x !in s[..p] }

  // Nobody is lost, nobody is listed twice, and the order is that of first occurrence.
  lemma {:induction false} DedupShape<T>(s: seq<T>)
    ensures Distinct(Dedup(s))
    ensures forall x :: x in Dedup(s) <==> x in s
    ensures |Firsts(s)| == |Dedup(s)| && Increasing(Firsts(s))
    ensures forall i | 0 <= i < |Dedup(s)| :: FirstAt(s, Firsts(s)[i], Dedup(s)[i])
    decreases |s|
  {
    if s != [] {
      var before, last := s[..|s| - 1], s[|s| - 1];
      DedupShape(before);
      assert forall x :: x in s <==> x in before || x == last;
      forall i | 0 <= i < |Dedup(before)|
        ensures FirstAt(s, Firsts(before)[i], Dedup(before)[i])
      {
        var p := Firsts(before)[i];
        assert FirstAt(before, p, Dedup(before)[i]);
        assert s[..p] == before[..p];
      }
    }
  }

  lemma {:induction false} DedupDistinct<T>(s: seq<T>)
    requires Distinct(s)
    ensures Dedup(s) == s
    decreases |s|
  {
    if s != [] {
      var before, last := s[..|s| - 1], s[|s| - 1];
      DedupDistinct(before);
      assert last !in before;
      assert s == before + [last];
    }
  }

  function ListedUsers(stdout: string): seq<string> { Dedup(UsersOf(SplitLines(stdout))) }

  lemma UsersOfNext(lines: seq<string>, i: nat)
    requires i < |lines|
    ensures UsersOf(lines[..i + 1]) == UsersOf(lines[..i]) + UserOfLine(lines[i])
  {
    assert lines[..i + 1] == lines[..i] + [lines[i]];
    UsersOfConcat(lines[..i], [lines[i]]);
    assert UsersOf([lines[i]]) == UserOfLine(lines[i]) + [];
  }

  method NamedUsers(lines: seq<string>) returns (out: seq<string>)
    ensures out == UsersOf(lines)
  {
    out := [];
    for i := 0 to |lines|
      invariant out == UsersOf(lines[..i])
    {
      UsersOfNext(lines, i);
      var line := Strip(lines[i]);
      if line == "" {
        continue;
      }
      var parts := SplitSlash(line);
      if |parts| >= 5 && parts[3] == "homes" {
        out := out + [parts[4]];
      }
    }
    assert lines[..|lines|] == lines;
  }

  method DedupInOrder(out: seq<string>) returns (users: seq<string>)
    ensures users == Dedup(out)
  {
    var seen := {};
    users := [];
    for i := 0 to |out|
      invariant forall x :: x in seen <==> x in out[..i]
      invariant users == Dedup(out[..i])
    {
      var part := out[..i + 1];
      assert part[..|part| - 1] == out[..i];
      if out[i] !in seen {
        seen := seen + {out[i]};
        users := users + [out[i]];
      }
    }
    assert out[..|out|] == out;
  }

  method ListUsersWithAuthorizedKeys(stdout: string) returns (users: seq<string>)
    ensures users == ListedUsers(stdout)
  {
    var out := NamedUsers(SplitLines(stdout));
    users := DedupInOrder(out);
  }

  // ---------------------------------------------------------------- what find prints

  function KeyListing(users: seq<string>): string
    decreases |users|
  {
    if users == [] then "" else KeysPath(users[0]) + ("\n" + KeyListing(users[1..]))
  }

  lemma HomeLineIsWhole(user: string, rest: string)
    requires No(user, IsBreak) && No(rest, IsBreak)
    ensures No(HomePath(user, rest), IsBreak)
  {
    NoAppend("/", rest, IsBreak);
    NoAppend(user, "/" + rest, IsBreak);
    NoAppend("/", user + ("/" + rest), IsBreak);
    NoAppend(HOMES, "/" + (user + ("/" + rest)), IsBreak);
  }

  lemma HomeLineIsTrimmed(user: string, rest: string)
    requires rest != "" && !IsSpace(rest[|rest| - 1])
    ensures Stripped(HomePath(user, rest))
  {
    var path := HomePath(user, rest);
    assert path[0] == '/' && path[|path| - 1] == rest[|rest| - 1];
  }

  lemma KeysPathLine(alnum: char -> bool, user: string)
    requires AlnumLike(alnum) && ValidUsername(alnum, user)
    ensures No(KeysPath(user), IsBreak) && UserOfLine(KeysPath(user)) == [user]
  {
    ValidHasNoSlash(alnum, user);
    HomeLineIsWhole(user, KEYS_FILE);
    HomeLineIsTrimmed(user, KEYS_FILE);
    StripId(KeysPath(user));
    UserOfHomePath(user, KEYS_FILE);
  }

  // Reading back the listing of any users' key files gives those users.
  lemma {:induction false} UsersOfListing(alnum: char -> bool, users: seq<string>)
    requires AlnumLike(alnum)
    requires forall u | u in users :: ValidUsername(alnum, u)
    ensures UsersOf(SplitLines(KeyListing(users))) == users
    decreases |users|
  {
    if users != [] {
      var head, tail := HeadTail(users);
      assert users[1..] == tail && users[0] == head;
      KeysPathLine(alnum, head);
      SplitFirstLine(KeysPath(head), KeyListing(tail));
      Assoc(KeysPath(head), "\n", KeyListing(tail));
      UsersOfListing(alnum, tail);
      var lines := SplitLines(KeyListing(users));
      assert lines[1..] == SplitLines(KeyListing(tail));
    }
  }

  lemma ListingReadsBack(alnum: char -> bool, users: seq<string>)
    requires AlnumLike(alnum)
    requires forall u | u in users :: ValidUsername(alnum, u)
    ensures ListedUsers(KeyListing(users)) == Dedup(users)
    ensures Distinct(users) ==> ListedUsers(KeyListing(users)) == users
  {
    UsersOfListing(alnum, users);
    if Distinct(users) {
      DedupDistinct(users);
    }
  }

  // ---------------------------------------------------------------- the tool

  datatype DisableResult =
    | DisableRaised
    | AlreadyOff
    | SudoRequired
    | WouldOrphan(affected: seq<string>)
    | TurnedOff(users: seq<string>, unchecked: bool)

  datatype DisableFates = DisableFates(check: CheckFates, listing: Listing, web: WebFate)

  function Disable(w: World, confirm: bool, f: DisableFates): (World, DisableResult) {
    match TriCheck(w, f.check)
    case None => (w, DisableRaised)
    case Some(signals) =>
      if !Enabled(signals) then (w, AlreadyOff)
      else if f.listing.NoListing? then (w, DisableRaised)
      else
        var blind := SudoFailed(f.listing);
        var users := if blind then [] else ListedUsers(f.listing.stdout);
        if blind && !confirm then (w, SudoRequired)
        else if users != [] && !confirm then (w, WouldOrphan(users))
        else (SetWeb(w, false, f.web), if f.web.Rejected? then DisableRaised else TurnedOff(users, blind))
  }

  method TurnOff(nas: Nas, confirm: bool, f: DisableFates) returns (r: DisableResult)
    modifies nas
    ensures (nas.State(), r) == Disable(old(nas.State()), confirm, f)
  {
    var pre := Check(nas.fs, nas.web, f.check);
    if pre == None {
      return DisableRaised;
    }
    if !Enabled(pre.value) {
      return AlreadyOff;
    }
    if f.listing.NoListing? {
      return DisableRaised;
    }
    var users, blind := [], SudoFailed(f.listing);
    if !blind {
      users := ListUsersWithAuthorizedKeys(f.listing.stdout);
    } else if !confirm {
      return SudoRequired;
    }
    if users != [] && !confirm {
      return WouldOrphan(users);
    }
    var ok := nas.WebSet(false, f.web);
    return if ok then TurnedOff(users, blind) else DisableRaised;
  }

  // A text in which sudo says that it wants a password or refuses: one of its phrases, in
  // any case, anywhere.
  ghost predicate SudoSpeaks(stderr: string) {
    exists a, phrase, b :: stderr == a + (phrase + b) && IsSudoPhrase(phrase)
  }

  ghost predicate IsSudoPhrase(phrase: string) {
    || Lower(phrase) == "password is required" || Lower(phrase) == "a terminal is required"
    || Lower(phrase) == "a password is required" || Lower(phrase) == "sudo:"
  }

  // The listing counts as refused by sudo exactly if the command failed, whatever its
  // exit status was, and sudo speaks in its error output.
  lemma WhenSudoFailed(l: Listing)
    ensures SudoFailed(l) <==> l.Listing? && l.exit != 0 && SudoSpeaks(l.stderr)
  {
    if l.Listing? {
      forall i | 0 <= i < |SUDO_MARKERS|
        ensures Contains(Lower(l.stderr), SUDO_MARKERS[i]) <==> HasPhrase(l.stderr, SUDO_MARKERS[i])
      {
        WhenHasPhrase(l.stderr, SUDO_MARKERS[i]);
      }
      PhrasesAreMarkers(l.stderr);
    }
  }

  ghost predicate HasPhrase(s: string, marker: string) {
    exists a, phrase, b :: s == a + (phrase + b) && Lower(phrase) == marker
  }

  lemma WhenHasPhrase(s: string, marker: string)
    ensures Contains(Lower(s), marker) <==> HasPhrase(s, marker)
  {
    WhenContains(Lower(s), marker);
    if Contains(Lower(s), marker) {
      var a, b :| Lower(s) == a + (marker + b);
      PhraseOf(s, a, marker, b);
    }
    if HasPhrase(s, marker) {
      var a, phrase, b :| s == a + (phrase + b) && Lower(phrase) == marker;
      LowerOfAppend(phrase, b);
      LowerOfAppend(a, phrase + b);
      assert Lower(s) == Lower(a) + (marker + Lower(b));
    }
  }

  lemma PhraseOf(s: string, a: string, marker: string, b: string)
    requires Lower(s) == a + (marker + b)
    ensures HasPhrase(s, marker)
  {
    var i, j := |a|, |a| + |marker|;
    var x, phrase, y := s[..i], s[i..j], s[j..];
    assert s == x + (phrase + y);
    assert Lower(phrase) == Lower(s)[i..j];
    assert (a + (marker + b))[i..j] == marker;
  }

  lemma PhrasesAreMarkers(s: string)
    ensures SudoSpeaks(s) <==> exists i | 0 <= i < |SUDO_MARKERS| :: HasPhrase(s, SUDO_MARKERS[i])
  {
    if SudoSpeaks(s) {
      var a, phrase, b :| s == a + (phrase + b) && IsSudoPhrase(phrase);
      var i := if Lower(phrase) == "password is required" then 0
               else if Lower(phrase) == "a terminal is required" then 1
               else if Lower(phrase) == "a password is required" then 2
               else 3;
      assert HasPhrase(s, SUDO_MARKERS[i]);
    }
    forall i | 0 <= i < |SUDO_MARKERS| && HasPhrase(s, SUDO_MARKERS[i])
      ensures SudoSpeaks(s)
    {
      var a, phrase, b :| s == a + (phrase + b) && Lower(phrase) == SUDO_MARKERS[i];
      assert IsSudoPhrase(phrase);
    }
  }

  // User Home is found on.
  ghost predicate FoundOn(w: World, f: CheckFates) { f.web && TrulyOn(w) && (f.keyTool || f.grep) && f.readlink }

  // What a call answers, and when: nothing on the NAS is looked at for that but whether
  // User Home is on and what the listing printed.
  lemma WhenAnswered(w: World, confirm: bool, f: DisableFates)
    ensures var (w', r) := Disable(w, confirm, f);
            var on := FoundOn(w, f.check);
            var refused := f.listing.Listing? && f.listing.exit != 0 && SudoSpeaks(f.listing.stderr);
            var nobody := f.listing.Listing? && (refused || NamesNobody(f.listing.stdout));
            var goes := on && f.listing.Listing? && (confirm || (!refused && nobody));
            && (r == AlreadyOff <==> f.check.web && !on)
            && (r == SudoRequired <==> on && refused && !confirm)
            && (r.WouldOrphan? <==> on && f.listing.Listing? && !nobody && !confirm)
            && (r.TurnedOff? <==> goes && f.web == Applied)
            && (r.WouldOrphan? ==> r.affected == ListedUsers(f.listing.stdout))
            && (r.TurnedOff? ==> r == TurnedOff(if refused then [] else ListedUsers(f.listing.stdout), refused))
            && (w'.sets > w.sets <==> goes)
            && w' == if goes then SetWeb(w, false, f.web) else w
  {
    WhenFoundEnabled(w, f.check);
    if f.listing.Listing? {
      WhenSudoFailed(f.listing);
      NobodyInListing(f.listing.stdout);
    }
  }

  // The gate: what sudo answers without the right to run, at any exit status but 0.
  lemma SudoIsRequired(w: World, f: DisableFates, exit: int, out: string, a: string, phrase: string, b: string)
    requires FoundOn(w, f.check) && exit != 0 && IsSudoPhrase(phrase)
    requires f.listing == Listing(exit, out, a + (phrase + b))
    ensures Disable(w, false, f) == (w, SudoRequired)
  {
    assert SudoSpeaks(a + (phrase + b));
    WhenAnswered(w, false, f);
  }

  // Exactly when the web API is asked to switch off. Without confirmation: only if
  // sudo did not refuse the probe and the probe listed nobody.
  lemma WhenTurnedOff(w: World, confirm: bool, f: DisableFates)
    ensures var (w', r) := Disable(w, confirm, f);
            && w'.fs == w.fs && w.sets <= w'.sets <= w.sets + 1
            && (w'.sets == w.sets ==> w' == w)
            && (w'.sets > w.sets <==>
                && FoundOn(w, f.check)
                && f.listing.Listing?
                && (confirm || (!(f.listing.exit != 0 && SudoSpeaks(f.listing.stderr)) && NamesNobody(f.listing.stdout))))
  {
    WhenAnswered(w, confirm, f);
  }

  ghost predicate NamesNobody(stdout: string) {
    forall line | line in SplitLines(stdout) :: UserOfLine(line) == []
  }

  lemma NobodyInListing(stdout: string)
    ensures ListedUsers(stdout) == [] <==> NamesNobody(stdout)
  {
    var lines := SplitLines(stdout);
    NobodyListed(lines);
    EmptyDedup(UsersOf(lines));
  }

  lemma EmptyDedup<T>(s: seq<T>)
    ensures Dedup(s) == [] <==> s == []
  {
    DedupShape(s);
    if s != [] {
      assert s[0] in s;
    }
  }

  lemma {:induction false} NobodyListed(lines: seq<string>)
    ensures UsersOf(lines) == [] <==> forall line | line in lines :: UserOfLine(line) == []
    decreases |lines|
  {
    if lines != [] {
      var head, tail := HeadTail(lines);
      assert lines[1..] == tail && lines[0] == head;
      NobodyListed(tail);
      assert forall line | line in lines :: line == head || line in tail;
    }
  }

  // The users whose keys live under User Home on this file system.
  ghost predicate HasKeys(fs: Fs, user: string) {
    KeysPath(user) in fs && fs[KeysPath(user)].File? && fs[KeysPath(user)].contents != ""
  }

  // The users the probe's path pattern reaches: it passes over hidden directories.
  predicate Reached(alnum: char -> bool, user: string) { ValidUsername(alnum, user) && user[0] != '.' }

  // What find prints on a NAS it may look at: the non-empty key files, in any order.
  ghost predicate ListsKeys(fs: Fs, alnum: char -> bool, users: seq<string>) {
    && (forall u | u in users :: Reached(alnum, u))
    && (forall u | Reached(alnum, u) :: HasKeys(fs, u) <==> u in users)
  }

  // When the probe can look, an unconfirmed call switches off exactly if no user within
  // its reach has keys to lose, and otherwise names exactly the users that do.
  lemma NobodyIsOrphaned(w: World, f: DisableFates, alnum: char -> bool, users: seq<string>)
    requires AlnumLike(alnum) && ListsKeys(w.fs, alnum, users)
    requires f.listing == Listing(0, KeyListing(users), "") && FoundOn(w, f.check)
    ensures var (w', r) := Disable(w, false, f);
            && (w'.sets > w.sets <==> forall u | Reached(alnum, u) :: !HasKeys(w.fs, u))
            && (r.WouldOrphan? <==> w'.sets == w.sets)
            && (r.WouldOrphan? ==> Distinct(r.affected) && forall u | Reached(alnum, u) :: u in r.affected <==> HasKeys(w.fs, u))
  {
    ProbeIsExact(w.fs, alnum, users);
    NobodyInListing(KeyListing(users));
    WhenAnswered(w, false, f);
  }

  lemma ProbeIsExact(fs: Fs, alnum: char -> bool, users: seq<string>)
    requires AlnumLike(alnum) && ListsKeys(fs, alnum, users)
    ensures var listed := ListedUsers(KeyListing(users));
            && Distinct(listed)
            && (forall u | Reached(alnum, u) :: u in listed <==> HasKeys(fs, u))
            && (listed == [] <==> forall u | Reached(alnum, u) :: !HasKeys(fs, u))
  {
    ListingReadsBack(alnum, users);
    DedupShape(users);
    EmptyDedup(users);
    if users != [] {
      assert users[0] in users && HasKeys(fs, users[0]);
    }
  }

  // ---------------------------------------------------------------- a probe that finds no directory

  lemma {:induction false} WithoutChar(s: string, part: string, c: char)
    requires c in part && c !in s
    ensures !Contains(s, part)
    decreases |s|
  {
    var i :| 0 <= i < |part| && part[i] == c;
    StartsWithChar(s, part, i);
    if s != "" {
      WithoutChar(s[1..], part, c);
    }
  }

  // A colon that no "o" stands before is not that of the marker "sudo:".
  lemma {:induction false} ColonIsNotSudo(a: string, b: string)
    requires ':' !in a && a != "" && a[|a| - 1] != 'o' && !Contains(b, "sudo:")
    ensures !Contains(a + (":" + b), "sudo:")
    decreases |a|
  {
    var s := a + (":" + b);
    assert forall i | 0 <= i < |a| :: s[i] == a[i];
    var telling := if |a| < 4 then |a| else if |a| == 4 then 3 else 4;
    assert s[telling] != "sudo:"[telling];
    StartsWithChar(s, "sudo:", telling);
    if |a| == 1 {
      assert s[1..] == ":" + b && (":" + b)[1..] == b;
      assert Contains(s[1..], "sudo:") ==> Contains(b, "sudo:");
    } else {
      assert s[1..] == a[1..] + (":" + b);
      ColonIsNotSudo(a[1..], b);
    }
  }

  const UNMATCHED := " '" + (HOMES + ("/*/" + (KEYS_FILE + "'")))
  const NO_SUCH_FILE := " No such file or directory"

  // What find prints when the pattern matched nothing and was handed to it as it is.
  const NO_MATCH := "find" + (":" + (UNMATCHED + (":" + NO_SUCH_FILE)))

  predicate IsTelling(c: char) { c == ':' || c == 'q' || c == 'Q' }

  lemma LowerIsPlain(s: string)
    requires No(s, IsTelling)
    ensures ':' !in Lower(s) && 'q' !in Lower(s)
  {
    assert forall i | 0 <= i < |s| :: !IsTelling(s[i]) && LowerChar(s[i]) != ':' && LowerChar(s[i]) != 'q';
  }

  lemma UnmatchedIsPlain()
    ensures No(UNMATCHED, IsTelling)
  {
    assert No(HOMES, IsTelling) && No(KEYS_FILE, IsTelling);
    NoAppend(KEYS_FILE, "'", IsTelling);
    NoAppend("/*/", KEYS_FILE + "'", IsTelling);
    NoAppend(HOMES, "/*/" + (KEYS_FILE + "'"), IsTelling);
    NoAppend(" '", HOMES + ("/*/" + (KEYS_FILE + "'")), IsTelling);
  }

  lemma LowerThree(a: string, b: string, c: string)
    ensures Lower(a + (":" + (b + (":" + c)))) == Lower(a) + (":" + (Lower(b) + (":" + Lower(c))))
  {
    assert ":" == Lower(":");
    LowerOfAppend(":", c);
    LowerOfAppend(b, ":" + c);
    LowerOfAppend(":", b + (":" + c));
    LowerOfAppend(a, ":" + (b + (":" + c)));
  }

  lemma NoSudoInThree(a: string, b: string, c: string)
    requires ':' !in a && ':' !in b && ':' !in c
    requires a != "" && a[|a| - 1] != 'o' && b != "" && b[|b| - 1] != 'o'
    ensures !Contains(a + (":" + (b + (":" + c))), "sudo:")
  {
    WithoutChar(c, "sudo:", ':');
    ColonIsNotSudo(b, c);
    ColonIsNotSudo(a, b + (":" + c));
  }

  // Words that only a sudo asking for a password prints have a "q" in them.
  lemma NoPasswordInThree(a: string, b: string, c: string)
    requires 'q' !in a && 'q' !in b && 'q' !in c
    ensures forall i | 0 <= i < 3 :: !Contains(a + (":" + (b + (":" + c))), SUDO_MARKERS[i])
  {
    var s := a + (":" + (b + (":" + c)));
    assert 'q' !in s;
    WithoutChar(s, SUDO_MARKERS[0], 'q');
    WithoutChar(s, SUDO_MARKERS[1], 'q');
    WithoutChar(s, SUDO_MARKERS[2], 'q');
  }

  lemma PiecesArePlain(a: string, b: string, c: string)
    requires a == "find" && b == UNMATCHED && c == NO_SUCH_FILE
    ensures No(a, IsTelling) && No(b, IsTelling) && No(c, IsTelling)
    ensures a[|a| - 1] == 'd' && b[|b| - 1] == '\'' && |b| > 0
  {
    UnmatchedIsPlain();
  }

  lemma NoMarkerInThree(a: string, b: string, c: string)
    requires No(a, IsTelling) && No(b, IsTelling) && No(c, IsTelling)
    requires a != "" && LowerChar(a[|a| - 1]) != 'o' && b != "" && LowerChar(b[|b| - 1]) != 'o'
    ensures forall i | 0 <= i < |SUDO_MARKERS| :: !Contains(Lower(a + (":" + (b + (":" + c)))), SUDO_MARKERS[i])
  {
    LowerThree(a, b, c);
    LowerIsPlain(a);
    LowerIsPlain(b);
    LowerIsPlain(c);
    NoSudoInThree(Lower(a), Lower(b), Lower(c));
    NoPasswordInThree(Lower(a), Lower(b), Lower(c));
  }

  lemma NoMatchIsNoSudoFailure(exit: int, stdout: string)
    ensures !SudoFailed(Listing(exit, stdout, NO_MATCH))
  {
    PiecesArePlain("find", UNMATCHED, NO_SUCH_FILE);
    NoMarkerInThree("find", UNMATCHED, NO_SUCH_FILE);
  }

  // An unconfirmed call after which User Home is off, and was not, although this user has
  // keys under it; whatever the call reports.
  ghost predicate Orphaned(w: World, f: DisableFates, user: string) {
    HasKeys(w.fs, user) && w.web && !Disable(w, false, f).0.web
  }

  // Exactly when an unconfirmed call does that to a user: User Home is found on, the
  // listing is answered, without a sudo marker or at exit status 0, and names nobody,
  // and the web API takes the change, even if it then reports an error.
  lemma WhenOrphaned(w: World, f: DisableFates, user: string)
    ensures Orphaned(w, f, user) <==>
      (&& HasKeys(w.fs, user) && FoundOn(w, f.check)
       && f.listing.Listing? && !(f.listing.exit != 0 && SudoSpeaks(f.listing.stderr)) && NamesNobody(f.listing.stdout)
       && f.web != Rejected(false))
  {
    WhenAnswered(w, false, f);
  }

  // A NAS with User Home on and one key of this user.
  ghost function WithOneKey(user: string): World {
    World(map[HOMES := Link("/volume1/homes"), SYNOINFO := Settings(map[ENABLE_KEY := "yes"]), KeysPath(user) := File("k", OWNER_FILE)], true, 0)
  }

  lemma OneKeyIsEnabled(user: string, check: CheckFates)
    requires AllAnswer(check)
    ensures HasKeys(WithOneKey(user).fs, user)
    ensures TriCheck(WithOneKey(user), check).Some? && Enabled(TriCheck(WithOneKey(user), check).value)
  {
    var path := KeysPath(user);
    assert |path| > |HOMES| && path[1] == 'v' && SYNOINFO[1] == 'e' && HOMES[1] == 'v';
    StripId("/volume1/homes");
    YesIsYes(WithOneKey(user), check);
  }

  // The pattern is expanded without the rights to look into other homes. Unmatched, it
  // makes find fail without a word from sudo, and an unconfirmed call then switches off
  // although a user has keys, whether it reports that or an error.
  lemma UnmatchedPatternOrphans(user: string, web: WebFate)
    requires web != Rejected(false)
    ensures exists w: World, f: DisableFates :: f.listing == Listing(1, "", NO_MATCH) && f.web == web && Orphaned(w, f, user)
  {
    var f := DisableFates(CheckFates(true, true, true, true), Listing(1, "", NO_MATCH), web);
    OneKeyIsEnabled(user, f.check);
    NoMatchIsNoSudoFailure(1, "");
    assert SplitLines("") == [];
    WhenOrphaned(WithOneKey(user), f, user);
    assert Orphaned(WithOneKey(user), f, user);
  }
}
