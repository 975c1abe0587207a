// Exactly which texts are key lines: an independent reading of what the parser accepts.
module KeySpelling {
  import opened Wrappers
  import opened Seqs
  import opened Text
  import opened Base64
  import opened Keys

  predicate Blanks(s: string) { s != "" && All(s, IsSpace) }

  // What may follow the second word: blanks, or blanks, a trimmed comment and blanks.
  ghost predicate Tail(tail: string, comment: string) {
    if comment == "" then All(tail, IsSpace)
    else
      Stripped(comment) &&
      exists gap, after :: Blanks(gap) && All(after, IsSpace) && tail == gap + (comment + after)
  }

  // Two words and a comment or none, with any blanks around and between them.
  ghost predicate Spelled(s: string, first: string, second: string, comment: string) {
    && IsWord(first) && IsWord(second)
    && exists before, gap, tail ::
         All(before, IsSpace) && Blanks(gap) && Tail(tail, comment) && s == before + (first + (gap + (second + tail)))
  }

  // A text is read as this key exactly if it holds no line feed or carriage return and
  // spells its type, an encoding of its bytes, and its comment.
  lemma WhenParsed(s: string, key: PublicKey)
    ensures ParseKey(s) == Success(key)
       <==> OneLine(s) && exists blob :: Spelled(s, key.keyType, blob, key.comment) && Encodes(blob, key)
  {
    if ParseKey(s) == Success(key) {
      var blob := ParsedIsSpelled(s, key);
    }
    forall blob | OneLine(s) && Spelled(s, key.keyType, blob, key.comment) && Encodes(blob, key)
      ensures ParseKey(s) == Success(key)
    {
      SpelledIsParsed(s, blob, key);
    }
  }

  ghost predicate Encodes(blob: string, key: PublicKey) {
    key.keyType in VALID_KEY_TYPES && key.blob != [] && Decode(blob) == Some(key.blob)
  }

  // ---------------------------------------------------------------- a spelling is read

  lemma FirstOfTwo(word: string, gap: string, rest: string)
    requires IsWord(word) && Blanks(gap) && rest != "" && !IsSpace(rest[0])
    ensures var s := word + (gap + rest);
            SpanNot(s, IsSpace) == |word| && s[..|word|] == word && LStrip(s[|word|..]) == rest
  {
    var s := word + (gap + rest);
    SpanNotIs(word, gap + rest, IsSpace);
    assert s[|word|..] == gap + rest && s[..|word|] == word;
    SpanIs(gap, rest, IsSpace);
    assert (gap + rest)[|gap|..] == rest;
  }

  lemma FieldsOfTwo(first: string, gap: string, second: string)
    requires IsWord(first) && Blanks(gap) && IsWord(second)
    ensures SplitFields(first + (gap + second)) == Two(first, second)
  {
    FirstOfTwo(first, gap, second);
    SpanNotIs(second, "", IsSpace);
    assert second + "" == second && second[|second|..] == "";
  }

  lemma FieldsOfThree(first: string, gap: string, second: string, gap2: string, comment: string)
    requires IsWord(first) && Blanks(gap) && IsWord(second) && Blanks(gap2) && comment != "" && !IsSpace(comment[0])
    ensures SplitFields(first + (gap + (second + (gap2 + comment)))) == Three(first, second, comment)
  {
    var t := second + (gap2 + comment);
    assert t[0] == second[0];
    FirstOfTwo(first, gap, t);
    FirstOfTwo(second, gap2, comment);
  }

  lemma TrimmedTwo(first: string, gap: string, second: string)
    requires IsWord(first) && IsWord(second)
    ensures Stripped(first + (gap + second)) && first + (gap + second) != ""
  {
    var s := first + (gap + second);
    assert s[0] == first[0] && s[|s| - 1] == second[|second| - 1];
  }

  lemma TrimmedThree(first: string, gap: string, rest: string)
    requires IsWord(first) && rest != "" && !IsSpace(rest[|rest| - 1])
    ensures Stripped(first + (gap + rest)) && first + (gap + rest) != ""
  {
    var s := first + (gap + rest);
    assert s[0] == first[0] && s[|s| - 1] == rest[|rest| - 1];
  }

  lemma SpelledIsParsed(s: string, blob: string, key: PublicKey)
    requires OneLine(s) && Spelled(s, key.keyType, blob, key.comment) && Encodes(blob, key)
    ensures ParseKey(s) == Success(key)
  {
    var before, gap, tail :|
      All(before, IsSpace) && Blanks(gap) && Tail(tail, key.comment) && s == before + (key.keyType + (gap + (blob + tail)));
    if key.comment == "" {
      TwoParsed(s, before, gap, blob, tail, key);
    } else {
      var gap2, after :| Blanks(gap2) && All(after, IsSpace) && tail == gap2 + (key.comment + after);
      ThreeParsed(s, before, gap, blob, gap2, after, key);
    }
  }

  lemma TwoParsed(s: string, before: string, gap: string, blob: string, after: string, key: PublicKey)
    requires OneLine(s) && All(before, IsSpace) && Blanks(gap) && All(after, IsSpace)
    requires IsWord(key.keyType) && IsWord(blob) && key.comment == "" && Encodes(blob, key)
    requires s == before + (key.keyType + (gap + (blob + after)))
    ensures ParseKey(s) == Success(key)
  {
    var inner := key.keyType + (gap + blob);
    TrimmedTwo(key.keyType, gap, blob);
    StripPadded(before, inner, after);
    Assoc(gap, blob, after);
    Assoc(key.keyType, gap + blob, after);
    Assoc(before, inner, after);
    FieldsOfTwo(key.keyType, gap, blob);
    ParsedFields(s, inner, Two(key.keyType, blob), key);
  }

  lemma ThreeParsed(s: string, before: string, gap: string, blob: string, gap2: string, after: string, key: PublicKey)
    requires OneLine(s) && All(before, IsSpace) && Blanks(gap) && Blanks(gap2) && All(after, IsSpace)
    requires IsWord(key.keyType) && IsWord(blob) && key.comment != "" && Stripped(key.comment) && Encodes(blob, key)
    requires s == before + (key.keyType + (gap + (blob + (gap2 + (key.comment + after)))))
    ensures ParseKey(s) == Success(key)
  {
    var rest := blob + (gap2 + key.comment);
    var inner := key.keyType + (gap + rest);
    assert rest[|rest| - 1] == key.comment[|key.comment| - 1];
    TrimmedThree(key.keyType, gap, rest);
    StripPadded(before, inner, after);
    Padded(before, key.keyType, gap, blob, gap2, key.comment, after);
    FieldsOfThree(key.keyType, gap, blob, gap2, key.comment);
    ParsedFields(s, inner, Three(key.keyType, blob, key.comment), key);
  }

  lemma Padded(a: string, b: string, c: string, d: string, e: string, f: string, g: string)
    ensures a + (b + (c + (d + (e + (f + g))))) == a + (b + (c + (d + (e + f)))) + g
  {
    Assoc(e, f, g);
    Assoc(d, e + f, g);
    Assoc(c, d + (e + f), g);
    Assoc(b, c + (d + (e + f)), g);
    Assoc(a, b + (c + (d + (e + f))), g);
  }

  lemma ParsedFields(s: string, inner: string, fields: Fields, key: PublicKey)
    requires OneLine(s) && Strip(s) == inner && inner != "" && SplitFields(inner) == fields
    requires fields.Two? ==> key.comment == "" && fields.first == key.keyType && Encodes(fields.second, key)
    requires fields.Three? ==> key.comment == fields.rest && fields.first == key.keyType && Encodes(fields.second, key)
    requires !fields.TooFew?
    ensures ParseKey(s) == Success(key)
  {
  }

  // ---------------------------------------------------------------- what is read is a spelling

  lemma StripParts(s: string) returns (before: string, after: string)
    ensures All(before, IsSpace) && All(after, IsSpace) && s == before + (Strip(s) + after)
  {
    var i, l := Span(s, IsSpace), LStrip(s);
    SpanShape(s, IsSpace);
    TrunkShape(l, IsSpace);
    before, after := s[..i], l[Trunk(l, IsSpace)..];
    assert l == Strip(s) + after;
    assert s == before + l;
  }

  // A trimmed text is one word, or a word, blanks and what follows.
  lemma WordParts(s: string) returns (gap: string)
    requires s != "" && !IsSpace(s[0])
    ensures var n := SpanNot(s, IsSpace);
            var t := LStrip(s[n..]);
            && IsWord(s[..n]) && All(gap, IsSpace) && s == s[..n] + (gap + t)
            && (t != "" ==> gap != "" && !IsSpace(t[0]))
  {
    var n := SpanNot(s, IsSpace);
    var r := s[n..];
    SpanNotShape(s, IsSpace);
    SpanShape(r, IsSpace);
    gap := r[..Span(r, IsSpace)];
    assert r == gap + LStrip(r);
    assert s == s[..n] + r;
    assert r != "" ==> r[0] == s[n];
  }

  lemma ParsedIsSpelled(s: string, key: PublicKey) returns (blob: string)
    requires ParseKey(s) == Success(key)
    ensures OneLine(s) && Spelled(s, key.keyType, blob, key.comment) && Encodes(blob, key)
  {
    var u := Strip(s);
    StripShape(s);
    var before, after := StripParts(s);
    var n := SpanNot(u, IsSpace);
    var gap := WordParts(u);
    var t := LStrip(u[n..]);
    assert t != "";
    var m := SpanNot(t, IsSpace);
    var gap2 := WordParts(t);
    var comment := LStrip(t[m..]);
    blob := t[..m];
    ReadAs(s, key);
    assert u == key.keyType + (gap + (blob + (gap2 + comment)));
    SpellingOf(s, before, key.keyType, gap, blob, gap2, comment, after);
  }

  // The second and third of two or three fields.
  function Second(f: Fields): string requires !f.TooFew? { f.second }
  function Third(f: Fields): string requires !f.TooFew? { if f.Three? then f.rest else "" }

  lemma FieldsAre(u: string)
    ensures var n, f := SpanNot(u, IsSpace), SplitFields(u);
            var t := LStrip(u[n..]);
            var m := SpanNot(t, IsSpace);
            && (f.TooFew? <==> t == "")
            && (!f.TooFew? ==> f.first == u[..n] && Second(f) == t[..m] && Third(f) == LStrip(t[m..]))
  {
  }

  lemma ReadFields(s: string, key: PublicKey)
    requires ParseKey(s) == Success(key)
    ensures OneLine(s) && Strip(s) != ""
    ensures var f := SplitFields(Strip(s));
            !f.TooFew? && f.first == key.keyType && Encodes(Second(f), key) && key.comment == Third(f)
  {
    var f := SplitFields(Strip(s));
    CheckedAs(f.first, Second(f), Third(f), key);
  }

  lemma CheckedAs(keyType: string, blob: string, comment: string, key: PublicKey)
    requires CheckKey(keyType, blob, comment) == Success(key)
    ensures keyType == key.keyType && Encodes(blob, key) && comment == key.comment
  {
  }

  lemma ReadAs(s: string, key: PublicKey)
    requires ParseKey(s) == Success(key)
    ensures OneLine(s) && Strip(s) != ""
    ensures var u := Strip(s);
            var n := SpanNot(u, IsSpace);
            var t := LStrip(u[n..]);
            var m := SpanNot(t, IsSpace);
            t != "" && u[..n] == key.keyType && Encodes(t[..m], key) && key.comment == LStrip(t[m..])
  {
    ReadFields(s, key);
    FieldsAre(Strip(s));
  }

  lemma SpellingOf(
    s: string, before: string, first: string, gap: string, second: string, gap2: string, comment: string, after: string)
    requires All(before, IsSpace) && Blanks(gap) && All(gap2, IsSpace) && All(after, IsSpace)
    requires IsWord(first) && IsWord(second) && (comment != "" ==> gap2 != "" && Stripped(comment))
    requires s == before + ((first + (gap + (second + (gap2 + comment)))) + after)
    ensures Spelled(s, first, second, comment)
  {
    var tail := gap2 + (comment + after);
    if comment == "" {
      assert tail == gap2 + after;
    } else {
      assert Blanks(gap2);
    }
    Padded(before, first, gap, second, gap2, comment, after);
    Assoc(before, first + (gap + (second + (gap2 + comment))), after);
    assert Tail(tail, comment);
  }
}
