// One authorized_keys entry: parsing a key line, composing one, and the SHA256
// fingerprint that identifies a key whatever its comment says.
module Keys {
  import opened Wrappers
  import opened Text
  import opened Base64

  // SHA-256 is any function from bytes to 32 bytes; nothing below depends on which.
  type Digest = d: seq<Byte> | |d| == 32 witness seq(32, i => 0)
  type Hash = seq<Byte> -> Digest

  const RSA := "ssh-rsa"
  const DSS := "ssh-dss"
  const ED25519 := "ssh-ed25519"
  const NISTP256 := "ecdsa-sha2-nistp256"
  const NISTP384 := "ecdsa-sha2-nistp384"
  const NISTP521 := "ecdsa-sha2-nistp521"
  const SK := "sk-"
  const OPENSSH := "@openssh.com"
  const CERT := "-cert-v01@openssh.com"

  const VALID_KEY_TYPES: set<string> := {
    RSA, DSS, ED25519, NISTP256, NISTP384, NISTP521,
    SK + NISTP256 + OPENSSH, SK + ED25519 + OPENSSH,
    RSA + CERT, ED25519 + CERT, NISTP256 + CERT, NISTP384 + CERT, NISTP521 + CERT
  }

  datatype PublicKey = PublicKey(keyType: string, blob: seq<Byte>, comment: string)

  datatype KeyError =
    | EmptyKey
    | NewlineInKey
    | TooFewParts
    | UnknownKeyType
    | MalformedBlob
    | EmptyBlob

  // pubkey.split(None, 2) on a stripped text: two blank-delimited words and the rest.
  datatype Fields = TooFew | Two(first: string, second: string) | Three(first: string, second: string, rest: string)

  function SplitFields(s: string): Fields {
    var n := SpanNot(s, IsSpace);
    var t := LStrip(s[n..]);
    if t == "" then TooFew
    else
      var m := SpanNot(t, IsSpace);
      var rest := LStrip(t[m..]);
      if rest == "" then Two(s[..n], t[..m]) else Three(s[..n], t[..m], rest)
  }

  function ParseKey(pubkey: string): Result<PublicKey, KeyError> {
    if Strip(pubkey) == "" then Failure(EmptyKey)
    else if !OneLine(pubkey) then Failure(NewlineInKey)
    else
      match SplitFields(Strip(pubkey))
      case TooFew => Failure(TooFewParts)
      case Two(keyType, blob) => CheckKey(keyType, blob, "")
      case Three(keyType, blob, comment) => CheckKey(keyType, blob, comment)
  }

  function CheckKey(keyType: string, blob: string, comment: string): Result<PublicKey, KeyError> {
    if keyType !in VALID_KEY_TYPES then Failure(UnknownKeyType)
    else
      match Decode(blob)
      case None => Failure(MalformedBlob)
      case Some(bytes) => if bytes == [] then Failure(EmptyBlob) else Success(PublicKey(keyType, bytes, comment))
  }

  // The line written for a key: type, re-encoded blob, and the comment if there is one.
  function ComposeLine(key: PublicKey): string {
    if key.comment == "" then key.keyType + " " + Encode(key.blob)
    else key.keyType + " " + Encode(key.blob) + " " + key.comment
  }

  // What ParseKey can return and the tool can write: a known type, bytes, a trimmed comment.
  predicate WellFormed(key: PublicKey) {
    && key.keyType in VALID_KEY_TYPES
    && key.blob != []
    && Stripped(key.comment)
    && OneLine(key.comment)
  }

  predicate IsTypeChar(c: char) { 'a' <= c <= 'z' || IsDigit(c) || c == '-' || c == '@' || c == '.' }

  lemma KeyTypeChars(t: string)
    requires t in VALID_KEY_TYPES
    ensures t != "" && All(t, IsTypeChar)
  {
    assert All(RSA, IsTypeChar) && All(DSS, IsTypeChar) && All(ED25519, IsTypeChar);
    NistChars();
    assert All(SK, IsTypeChar) && All(OPENSSH, IsTypeChar) && All(CERT, IsTypeChar);
  }

  lemma NistChars()
    ensures All(NISTP256, IsTypeChar) && All(NISTP384, IsTypeChar) && All(NISTP521, IsTypeChar)
  {
  }

  // Text that can stand in a key line as one word.
  predicate IsField(s: string) { IsWord(s) && No(s, IsBreak) && s[0] != '#' }

  lemma KeyTypeIsField(t: string)
    requires t in VALID_KEY_TYPES
    ensures IsField(t)
  {
    KeyTypeChars(t);
  }

  lemma EncodeIsField(b: seq<Byte>)
    requires b != []
    ensures IsField(Encode(b))
  {
    var body, pads := EncodeBody(b), Padding(|b|);
    BodyShape(b);
    PaddingIsPads(|b|);
    assert forall i | 0 <= i < |body| :: IsSymbol(body[i]);
    assert forall i | 0 <= i < |pads| :: IsPad(pads[i]);
    NoAppend(body, pads, IsSpace);
    NoAppend(body, pads, IsBreak);
    assert |body| >= 2 && Encode(b)[0] == body[0];
  }

  lemma BlankThen(s: string)
    requires s != "" && !IsSpace(s[0])
    ensures LStrip(" " + s) == s
  {
    SpanIs(" ", s, IsSpace);
  }

  lemma FirstField(word: string, tail: string)
    requires IsWord(word) && tail != "" && !IsSpace(tail[0])
    ensures var s := word + (" " + tail);
            SpanNot(s, IsSpace) == |word| && s[..|word|] == word && LStrip(s[|word|..]) == tail
  {
    var s := word + (" " + tail);
    SpanNotIs(word, " " + tail, IsSpace);
    assert s[|word|..] == " " + tail;
    BlankThen(tail);
  }

  lemma SplitOfTwo(first: string, second: string)
    requires IsWord(first) && IsWord(second)
    ensures SplitFields(first + (" " + second)) == Two(first, second)
  {
    FirstField(first, second);
    SpanNotIs(second, "", IsSpace);
    assert second + "" == second && second[|second|..] == "";
  }

  lemma SplitOfThree(first: string, second: string, rest: string)
    requires IsWord(first) && IsWord(second)
    requires rest != "" && !IsSpace(rest[0])
    ensures SplitFields(first + (" " + (second + (" " + rest)))) == Three(first, second, rest)
  {
    var tail := second + (" " + rest);
    assert tail[0] == second[0];
    FirstField(first, tail);
    FirstField(second, rest);
  }

  predicate OneLine(s: string) { '\n' !in s && '\r' !in s }

  lemma NoBreakIsOneLine(s: string)
    requires No(s, IsBreak)
    ensures OneLine(s)
  {
  }

  // The words before the comment.
  function Head(key: PublicKey): string { key.keyType + (" " + Encode(key.blob)) }

  lemma HeadShape(key: PublicKey)
    requires WellFormed(key)
    ensures var h := Head(key);
            h != "" && No(h, IsBreak) && Stripped(h) && h[0] != '#'
  {
    KeyTypeIsField(key.keyType);
    EncodeIsField(key.blob);
    var b := Encode(key.blob);
    NoAppend(" ", b, IsBreak);
    NoAppend(key.keyType, " " + b, IsBreak);
    assert Head(key)[|Head(key)| - 1] == b[|b| - 1];
  }

  lemma ComposeIsHead(key: PublicKey)
    ensures ComposeLine(key) == if key.comment == "" then Head(key) else Head(key) + (" " + key.comment)
  {
  }

  // The key line's own shape: it is trimmed, holds no carriage return or line
  // feed, and every line break in it lies in the comment.
  lemma ComposeShape(key: PublicKey)
    requires WellFormed(key)
    ensures var line := ComposeLine(key);
            && line != "" && line[0] != '#' && Stripped(line) && OneLine(line)
            && (No(line, IsBreak) <==> No(key.comment, IsBreak))
  {
    var h, c, line := Head(key), key.comment, ComposeLine(key);
    HeadShape(key);
    ComposeIsHead(key);
    NoBreakIsOneLine(h);
    if c != "" {
      NoAppend(" ", c, IsBreak);
      NoAppend(h, " " + c, IsBreak);
      assert line[0] == h[0] && line[|line| - 1] == c[|c| - 1];
    }
  }

  lemma CheckOfEncode(keyType: string, blob: seq<Byte>, comment: string)
    requires keyType in VALID_KEY_TYPES && blob != []
    ensures CheckKey(keyType, Encode(blob), comment) == Success(PublicKey(keyType, blob, comment))
  {
    RoundTrip(blob);
  }

  lemma SplitOfCompose(key: PublicKey)
    requires WellFormed(key)
    ensures SplitFields(ComposeLine(key))
         == if key.comment == "" then Two(key.keyType, Encode(key.blob))
            else Three(key.keyType, Encode(key.blob), key.comment)
  {
    var t, b, c := key.keyType, Encode(key.blob), key.comment;
    KeyTypeIsField(t);
    EncodeIsField(key.blob);
    ComposeIsHead(key);
    if c == "" {
      SplitOfTwo(t, b);
    } else {
      assert (t + (" " + b)) + (" " + c) == t + (" " + (b + (" " + c)));
      SplitOfThree(t, b, c);
    }
  }

  // Re-parsing a composed line gives the key back, whatever bytes and comment it has.
  lemma ParseOfCompose(key: PublicKey)
    requires WellFormed(key)
    ensures ParseKey(ComposeLine(key)) == Success(key)
  {
    ComposeShape(key);
    StripId(ComposeLine(key));
    SplitOfCompose(key);
    CheckOfEncode(key.keyType, key.blob, key.comment);
  }

  // What is left after a word and the blanks behind it is an end of the text.
  lemma TailIsSuffix(s: string)
    ensures var t := LStrip(s[SpanNot(s, IsSpace)..]);
            EndsWith(s, t) && (t == "" || !IsSpace(t[0]))
  {
    var n := SpanNot(s, IsSpace);
    var r := s[n..];
    var m := Span(r, IsSpace);
    SpanShape(r, IsSpace);
    assert r[m..] == s[n + m..];
  }

  lemma SuffixKeeps(s: string, t: string)
    requires EndsWith(s, t) && Stripped(s) && OneLine(s)
    requires t != "" && !IsSpace(t[0])
    ensures Stripped(t) && OneLine(t)
  {
    assert forall i | 0 <= i < |t| :: t[i] == s[|s| - |t| + i];
  }

  // The third field is the end of the text.
  lemma RestIsSuffix(s: string)
    requires SplitFields(s).Three? && Stripped(s) && OneLine(s)
    ensures Stripped(SplitFields(s).rest) && OneLine(SplitFields(s).rest)
  {
    var t := LStrip(s[SpanNot(s, IsSpace)..]);
    TailIsSuffix(s);
    SuffixKeeps(s, t);
    TailIsSuffix(t);
    SuffixKeeps(t, SplitFields(s).rest);
  }

  lemma StripIsOneLine(s: string)
    requires OneLine(s)
    ensures OneLine(Strip(s))
  {
    StripKeeps(s, c => c == '\n' || c == '\r');
  }

  lemma CheckedKey(keyType: string, blob: string, comment: string)
    requires CheckKey(keyType, blob, comment).Success?
    ensures var key := CheckKey(keyType, blob, comment).value;
            key.keyType in VALID_KEY_TYPES && key.blob != [] && key.comment == comment
  {
  }

  // Conversely, everything ParseKey accepts is well formed.
  lemma ParsedIsWellFormed(pubkey: string)
    requires ParseKey(pubkey).Success?
    ensures WellFormed(ParseKey(pubkey).value)
  {
    var s := Strip(pubkey);
    StripShape(pubkey);
    StripIsOneLine(pubkey);
    match SplitFields(s) {
      case Two(keyType, blob) =>
        CheckedKey(keyType, blob, "");
      case Three(keyType, blob, comment) =>
        CheckedKey(keyType, blob, comment);
        RestIsSuffix(s);
    }
  }

  // ---------------------------------------------------------------- fingerprints

  const PREFIX := "SHA256:"

  function Fingerprint(hash: Hash, blob: seq<Byte>): string {
    PREFIX + StripPads(Encode(hash(blob)))
  }

  datatype FingerprintError = EmptyFingerprint | Md5Fingerprint | WrongLength | BadAlphabet

  function NormalizeFingerprint(fingerprint: string): Result<string, FingerprintError> {
    var fp := Strip(fingerprint);
    if fp == "" then Failure(EmptyFingerprint)
    else if StartsWith(Lower(fp), "md5:") then Failure(Md5Fingerprint)
    else
      var body := StripPads(WithoutPrefix(fp));
      if |body| != 43 then Failure(WrongLength)
      else if Decode(body + "=") == None then Failure(BadAlphabet)
      else Success(PREFIX + body)
  }

  function WithoutPrefix(fp: string): string {
    if StartsWith(Lower(fp), "sha256:") then fp[|PREFIX|..] else fp
  }

  // A canonical fingerprint body: 43 symbols, the unpadded encoding length of 32 bytes.
  predicate IsFingerprintBody(body: string) { |body| == 43 && All(body, IsSymbol) }

  // The fingerprint of any key is the prefix and 43 symbols; its encoded digest has one pad.
  lemma FingerprintShape(hash: Hash, blob: seq<Byte>)
    ensures Encode(hash(blob)) == EncodeBody(hash(blob)) + "="
    ensures IsFingerprintBody(EncodeBody(hash(blob)))
    ensures Fingerprint(hash, blob) == PREFIX + EncodeBody(hash(blob))
  {
    StripPadsOfEncode(hash(blob));
    BodyShape(hash(blob));
  }

  lemma AcceptedBody(body: string)
    requires |body| == 43 && StripPads(body) == body
    ensures Decode(body + "=").Some? <==> All(body, IsSymbol)
  {
    var s := body + "=";
    assert s[..|s| - 1] == body;
    assert Trunk(s, IsPad) == Trunk(body, IsPad);
  }

  lemma BodyIsGraph(body: string)
    requires IsFingerprintBody(body)
    ensures forall i | 0 <= i < 43 :: !IsSpace(body[i]) && LowerChar(body[i]) != ':' && body[i] != PAD
  {
    assert forall i | 0 <= i < 43 :: IsSymbol(body[i]);
  }

  lemma BareForm(body: string, pad: string)
    requires IsFingerprintBody(body) && All(pad, IsPad)
    ensures var fp := body + pad;
            Stripped(fp) && WithoutPrefix(fp) == fp && !StartsWith(Lower(fp), "md5:")
  {
    BodyIsGraph(body);
    var fp := body + pad;
    assert fp[0] == body[0] && fp[3] == body[3] && fp[6] == body[6];
    assert fp[|fp| - 1] == if pad == "" then body[42] else pad[|pad| - 1];
    assert pad != "" ==> IsPad(pad[|pad| - 1]);
    assert Lower(fp)[3] != "md5:"[3];
    assert Lower(fp)[6] != "sha256:"[6];
  }

  lemma PrefixShape(prefix: string)
    requires Lower(prefix) == "sha256:"
    ensures |prefix| == 7 && !IsSpace(prefix[0])
  {
    assert LowerChar(prefix[0]) == Lower(prefix)[0] == 's';
  }

  lemma NotMd5(s: string)
    requires s != "" && s[0] == 's'
    ensures !StartsWith(s, "md5:")
  {
  }

  lemma PrefixedForm(prefix: string, text: string)
    requires Lower(prefix) == "sha256:"
    requires text != "" && !IsSpace(text[|text| - 1])
    ensures var fp := prefix + text;
            Stripped(fp) && WithoutPrefix(fp) == text && !StartsWith(Lower(fp), "md5:")
  {
    PrefixShape(prefix);
    LowerOfAppend(prefix, text);
    NotMd5("sha256:" + Lower(text));
  }

  lemma BodyAccepted(body: string, pad: string)
    requires IsFingerprintBody(body) && All(pad, IsPad)
    ensures StripPads(body + pad) == body && Decode(body + "=").Some?
  {
    StripPadsOf(body, pad);
    StripPadsOf(body, "");
    assert body + "" == body;
    AcceptedBody(body);
  }

  // What the tools take as a fingerprint, with or without its prefix and pads, in any
  // case of the prefix and with blanks around it: one canonical string.
  lemma NormalizeForms(body: string, prefix: string, pad: string, before: string, after: string)
    requires IsFingerprintBody(body)
    requires Lower(prefix) == "sha256:" || prefix == ""
    requires All(pad, IsPad)
    requires All(before, IsSpace) && All(after, IsSpace)
    ensures NormalizeFingerprint(before + (prefix + (body + pad)) + after) == Success(PREFIX + body)
  {
    var fp := prefix + (body + pad);
    BareForm(body, pad);
    if prefix == "" {
      assert fp == body + pad;
    } else {
      PrefixedForm(prefix, body + pad);
    }
    StripPadded(before, fp, after);
    BodyAccepted(body, pad);
  }

  lemma CanonicalForm(body: string)
    requires IsFingerprintBody(body)
    ensures NormalizeFingerprint(PREFIX + body) == Success(PREFIX + body)
  {
    assert Lower(PREFIX) == "sha256:";
    NormalizeForms(body, PREFIX, "", "", "");
    assert "" + (PREFIX + (body + "")) + "" == PREFIX + body;
  }

  // Whatever is accepted is the prefix and a canonical body.
  lemma NormalizedShape(fingerprint: string)
    requires NormalizeFingerprint(fingerprint).Success?
    ensures exists body :: IsFingerprintBody(body) && NormalizeFingerprint(fingerprint) == Success(PREFIX + body)
  {
    var fp := Strip(fingerprint);
    var body := StripPads(WithoutPrefix(fp));
    StripPadsAgain(WithoutPrefix(fp));
    AcceptedBody(body);
    assert IsFingerprintBody(body);
  }

  // A spelling of this body: the prefix or none, the body, any pads.
  ghost predicate Spells(fp: string, body: string) {
    exists prefix, pads :: SpelledWith(fp, prefix, body, pads)
  }

  predicate SpelledWith(fp: string, prefix: string, body: string, pads: string) {
    (prefix == "" || Lower(prefix) == "sha256:") && All(pads, IsPad) && fp == prefix + (body + pads)
  }

  // A text is accepted as a fingerprint exactly if, trimmed, it spells one.
  lemma WhenAccepted(fingerprint: string, body: string)
    requires IsFingerprintBody(body)
    ensures NormalizeFingerprint(fingerprint) == Success(PREFIX + body) <==> Spells(Strip(fingerprint), body)
  {
    var fp := Strip(fingerprint);
    if Spells(fp, body) {
      SpellingIsAccepted(fp, body);
      NormalizeTrimmed(fingerprint);
    }
    if NormalizeFingerprint(fingerprint) == Success(PREFIX + body) {
      AcceptedValue(fingerprint);
      SamePrefix(body, StripPads(WithoutPrefix(fp)));
      var prefix, pads := Spelling(fp);
    }
  }

  lemma SpellingIsAccepted(fp: string, body: string)
    requires IsFingerprintBody(body) && Spells(fp, body)
    ensures NormalizeFingerprint(fp) == Success(PREFIX + body)
  {
    var prefix, pads :| SpelledWith(fp, prefix, body, pads);
    NormalizeForms(body, prefix, pads, "", "");
    assert "" + fp + "" == fp;
  }

  lemma NormalizeTrimmed(fingerprint: string)
    ensures NormalizeFingerprint(Strip(fingerprint)) == NormalizeFingerprint(fingerprint)
  {
    StripShape(fingerprint);
    StripId(Strip(fingerprint));
  }

  lemma AcceptedValue(fingerprint: string)
    requires NormalizeFingerprint(fingerprint).Success?
    ensures NormalizeFingerprint(fingerprint) == Success(PREFIX + StripPads(WithoutPrefix(Strip(fingerprint))))
  {
  }

  lemma SamePrefix(a: string, b: string)
    ensures PREFIX + a == PREFIX + b <==> a == b
  {
    assert (PREFIX + a)[|PREFIX|..] == a && (PREFIX + b)[|PREFIX|..] == b;
  }

  lemma Spelling(fp: string) returns (prefix: string, pads: string)
    ensures SpelledWith(fp, prefix, StripPads(WithoutPrefix(fp)), pads)
  {
    var rest := WithoutPrefix(fp);
    prefix := if rest == fp then "" else fp[..|PREFIX|];
    pads := rest[|StripPads(rest)|..];
    TrunkShape(rest, IsPad);
    assert rest == StripPads(rest) + pads;
    PrefixTaken(fp);
  }

  lemma PrefixTaken(fp: string)
    ensures WithoutPrefix(fp) == fp
         || (|fp| >= |PREFIX| && fp == fp[..|PREFIX|] + WithoutPrefix(fp) && Lower(fp[..|PREFIX|]) == "sha256:")
  {
    if StartsWith(Lower(fp), "sha256:") {
      assert Lower(fp)[..|PREFIX|] == Lower(fp[..|PREFIX|]);
    }
  }

  lemma StripPadsAgain(s: string)
    ensures StripPads(StripPads(s)) == StripPads(s)
  {
    TrunkShape(s, IsPad);
    TrunkIs(StripPads(s), "", IsPad);
    assert StripPads(s) + "" == StripPads(s);
  }

  lemma NormalizeIdempotent(fingerprint: string)
    requires NormalizeFingerprint(fingerprint).Success?
    ensures NormalizeFingerprint(NormalizeFingerprint(fingerprint).value) == NormalizeFingerprint(fingerprint)
  {
    NormalizedShape(fingerprint);
    var body :| IsFingerprintBody(body) && NormalizeFingerprint(fingerprint) == Success(PREFIX + body);
    CanonicalForm(body);
  }

  // The fingerprint a tool reports is one the tools accept, unchanged.
  lemma FingerprintIsNormal(hash: Hash, blob: seq<Byte>)
    ensures NormalizeFingerprint(Fingerprint(hash, blob)) == Success(Fingerprint(hash, blob))
  {
    FingerprintShape(hash, blob);
    var body := EncodeBody(hash(blob));
    CanonicalForm(body);
  }
}
