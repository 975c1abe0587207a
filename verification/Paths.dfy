// Where a user's keys live, and how a user name is read back off such a path.
module Paths {
  import opened Wrappers
  import opened Text

  const HOMES := "/var/services/homes"
  const SSH_DIR := ".ssh"
  const KEYS_FILE := ".ssh/authorized_keys"
  const TEMP_FILE := ".ssh/authorized_keys.synology-mcp.tmp"

  // The path of a file under the user's home: HOMES/user/rest.
  function HomePath(user: string, rest: string): string {
    HOMES + ("/" + (user + ("/" + rest)))
  }

  function SshDir(user: string): string { HomePath(user, SSH_DIR) }
  function KeysPath(user: string): string { HomePath(user, KEYS_FILE) }
  function TempPath(user: string): string { HomePath(user, TEMP_FILE) }

  lemma PathsAre(user: string)
    ensures SshDir(user) == "/var/services/homes/" + (user + "/.ssh")
    ensures KeysPath(user) == "/var/services/homes/" + (user + "/.ssh/authorized_keys")
    ensures TempPath(user) == "/var/services/homes/" + (user + "/.ssh/authorized_keys.synology-mcp.tmp")
  {
    assert HOMES + "/" == "/var/services/homes/";
    assert "/" + SSH_DIR == "/.ssh" && "/" + KEYS_FILE == "/.ssh/authorized_keys";
    assert "/" + TEMP_FILE == "/.ssh/authorized_keys.synology-mcp.tmp";
  }

  function KeyPaths(user: string): set<string> { {SshDir(user), KeysPath(user), TempPath(user)} }

  // str.isalnum of one character, as far as it matters here: never a slash, never blank.
  ghost predicate AlnumLike(alnum: char -> bool) {
    forall c | alnum(c) :: c != '/' && !IsSpace(c)
  }

  predicate ValidUsername(alnum: char -> bool, user: string) {
    && 0 < |user| <= 32
    && forall i | 0 <= i < |user| :: alnum(user[i]) || user[i] in "._-"
  }

  predicate IsSlash(c: char) { c == '/' }

  // s.split("/")
  function SplitSlash(s: string): seq<string>
    decreases |s|
  {
    var k := SpanNot(s, IsSlash);
    if k == |s| then [s] else [s[..k]] + SplitSlash(s[k + 1..])
  }

  lemma SplitSlashStep(a: string, b: string)
    requires No(a, IsSlash)
    ensures SplitSlash(a + ("/" + b)) == [a] + SplitSlash(b)
  {
    var s := a + ("/" + b);
    SpanNotIs(a, "/" + b, IsSlash);
    assert s[..|a|] == a && s[|a| + 1..] == b;
  }

  // The user a listed path belongs to: its fifth segment, under a third one "homes".
  function UserOf(path: string): Option<string> {
    var parts := SplitSlash(path);
    if |parts| >= 5 && parts[3] == "homes" then Some(parts[4]) else None
  }

  lemma HomesSegments(rest: string)
    ensures SplitSlash(HOMES + ("/" + rest)) == ["", "var", "services", "homes"] + SplitSlash(rest)
  {
    var a := "homes" + ("/" + rest);
    var b := "services" + ("/" + a);
    var c := "var" + ("/" + b);
    HomesPieces("/" + rest);
    SplitSlashStep("homes", rest);
    SplitSlashStep("services", a);
    SplitSlashStep("var", b);
    SplitSlashStep("", c);
    Prepend("", "var", "services", "homes", SplitSlash(rest));
  }

  lemma HomesPieces(t: string)
    ensures HOMES + t == "" + ("/" + ("var" + ("/" + ("services" + ("/" + ("homes" + t))))))
  {
    assert HOMES == "" + ("/" + ("var" + ("/" + ("services" + ("/" + "homes")))));
  }

  lemma Prepend<T>(a: T, b: T, c: T, d: T, s: seq<T>)
    ensures [a] + ([b] + ([c] + ([d] + s))) == [a, b, c, d] + s
  {
  }

  // Any path under a user's home names the user.
  lemma UserOfHomePath(user: string, rest: string)
    requires No(user, IsSlash)
    ensures UserOf(HomePath(user, rest)) == Some(user)
  {
    HomesSegments(user + ("/" + rest));
    SplitSlashStep(user, rest);
    SplitNotEmpty(rest);
  }

  lemma SplitNotEmpty(s: string)
    ensures |SplitSlash(s)| >= 1
  {
  }

  // A path of at least five segments, named: the fifth is the user.
  ghost predicate FifthIs(path: string, a: string, b: string, c: string, user: string, rest: string) {
    && No(a, IsSlash) && No(b, IsSlash) && No(c, IsSlash) && No(user, IsSlash)
    && (rest == "" || rest[0] == '/')
    && path == a + ("/" + (b + ("/" + (c + ("/" + ("homes" + ("/" + (user + rest))))))))
  }

  // A path names this user exactly if its fourth segment is "homes" and its fifth the user.
  lemma WhenUserOf(path: string, user: string)
    ensures UserOf(path) == Some(user) <==> exists a, b, c, rest :: FifthIs(path, a, b, c, user, rest)
  {
    if UserOf(path) == Some(user) {
      var a, p1 := FirstSegment(path);
      var b, p2 := FirstSegment(p1);
      var c, p3 := FirstSegment(p2);
      var d, p4 := FirstSegment(p3);
      var rest := LastSegment(p4);
      assert FifthIs(path, a, b, c, user, rest);
    }
    forall a, b, c, rest | FifthIs(path, a, b, c, user, rest)
      ensures UserOf(path) == Some(user)
    {
      FifthIsUser(path, a, b, c, user, rest);
    }
  }

  lemma FirstSegment(s: string) returns (a: string, b: string)
    requires |SplitSlash(s)| > 1
    ensures s == a + ("/" + b) && No(a, IsSlash) && SplitSlash(s) == [a] + SplitSlash(b)
  {
    var k := SpanNot(s, IsSlash);
    SpanNotShape(s, IsSlash);
    a, b := s[..k], s[k + 1..];
    assert s == a + ([s[k]] + b);
  }

  lemma LastSegment(s: string) returns (rest: string)
    ensures No(SplitSlash(s)[0], IsSlash) && s == SplitSlash(s)[0] + rest && (rest == "" || rest[0] == '/')
  {
    var k := SpanNot(s, IsSlash);
    SpanNotShape(s, IsSlash);
    rest := s[k..];
    assert s == s[..k] + rest;
  }

  lemma FifthIsUser(path: string, a: string, b: string, c: string, user: string, rest: string)
    requires FifthIs(path, a, b, c, user, rest)
    ensures UserOf(path) == Some(user)
  {
    var p4 := user + rest;
    var p3 := "homes" + ("/" + p4);
    var p2 := c + ("/" + p3);
    var p1 := b + ("/" + p2);
    SplitSlashStep(a, p1);
    SplitSlashStep(b, p2);
    SplitSlashStep(c, p3);
    SplitSlashStep("homes", p4);
    Prepend(a, b, c, "homes", SplitSlash(p4));
    UserOfParts(path, a, b, c, SplitSlash(p4));
    FirstOf(user, rest);
  }

  lemma UserOfParts(path: string, a: string, b: string, c: string, tail: seq<string>)
    requires SplitSlash(path) == [a, b, c, "homes"] + tail && tail != []
    ensures UserOf(path) == Some(tail[0])
  {
  }

  lemma FirstOf(user: string, rest: string)
    requires No(user, IsSlash) && (rest == "" || rest[0] == '/')
    ensures SplitSlash(user + rest)[0] == user
  {
    SpanNotIs(user, rest, IsSlash);
    assert (user + rest)[..|user|] == user;
  }

  lemma ValidHasNoSlash(alnum: char -> bool, user: string)
    requires AlnumLike(alnum) && ValidUsername(alnum, user)
    ensures No(user, IsSlash) && No(user, IsSpace) && No(user, IsBreak)
  {
  }

  // No file that one user's keys are kept in is a file of another user's.
  lemma PathsApart(alnum: char -> bool, user: string, other: string)
    requires AlnumLike(alnum) && ValidUsername(alnum, user) && ValidUsername(alnum, other)
    requires user != other
    ensures KeyPaths(user) !! KeyPaths(other)
  {
    ValidHasNoSlash(alnum, user);
    ValidHasNoSlash(alnum, other);
    forall p | p in KeyPaths(user)
      ensures UserOf(p) == Some(user)
    {
      UserOfHomePath(user, SSH_DIR);
      UserOfHomePath(user, KEYS_FILE);
      UserOfHomePath(user, TEMP_FILE);
    }
    forall p | p in KeyPaths(other)
      ensures UserOf(p) == Some(other)
    {
      UserOfHomePath(other, SSH_DIR);
      UserOfHomePath(other, KEYS_FILE);
      UserOfHomePath(other, TEMP_FILE);
    }
  }

  lemma OwnPathsDiffer(user: string)
    ensures SshDir(user) != KeysPath(user) && SshDir(user) != TempPath(user) && KeysPath(user) != TempPath(user)
  {
    assert |SshDir(user)| < |KeysPath(user)| < |TempPath(user)|;
  }
}
