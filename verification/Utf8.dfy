// str.encode("utf-8") and its reading back: one to four bytes a character, as section 3
// of RFC 3629 lays them out.
module Utf8 {
  import opened Wrappers
  import opened Seqs
  import opened Base64

  // A first byte, whose high bits say how many bytes there are, and a further one.
  function Lead(mark: nat, n: nat): Byte
    requires mark + n < 256
  {
    mark + n
  }

  function Trail(n: nat): Byte { 128 + n % 64 }

  // The bits they carry: a first byte's number below the mark, a further one's six.
  function Head(mark: nat, b: Byte): int { var x: int := b; x - mark }
  function Six(b: Byte): int { var x: int := b; x % 64 }

  function EncodeChar(c: char): seq<Byte> {
    var n := c as int;
    if n < 0x80 then [n]
    else if n < 0x800 then [Lead(192, n / 64), Trail(n)]
    else if n < 0x1_0000 then [Lead(224, n / 64 / 64), Trail(n / 64), Trail(n)]
    else [Lead(240, n / 64 / 64 / 64), Trail(n / 64 / 64), Trail(n / 64), Trail(n)]
  }

  function EncodeText(s: string): seq<Byte>
    decreases |s|
  {
    if s == "" then [] else EncodeChar(s[0]) + EncodeText(s[1..])
  }

  predicate IsScalar(n: int) { 0 <= n < 0xD800 || 0xE000 <= n < 0x11_0000 }

  // The number the bytes of one character stand for, and how many they are; None if
  // there are not as many as the first one calls for.
  function FirstNumber(b: seq<Byte>): Option<(int, nat)> {
    if b == [] then None
    else if b[0] < 128 then Some((Head(0, b[0]), 1))
    else if |b| >= 2 && b[0] < 224 then Some((Head(192, b[0]) * 64 + Six(b[1]), 2))
    else if |b| >= 3 && b[0] < 240 then Some(((Head(224, b[0]) * 64 + Six(b[1])) * 64 + Six(b[2]), 3))
    else if |b| >= 4 then Some((((Head(240, b[0]) * 64 + Six(b[1])) * 64 + Six(b[2])) * 64 + Six(b[3]), 4))
    else None
  }

  function DecodeText(b: seq<Byte>): Option<string>
    decreases |b|
  {
    if b == [] then Some("")
    else
      var (n, k) :- FirstNumber(b);
      if !IsScalar(n) || k > |b| || k == 0 then None
      else
        var rest :- DecodeText(b[k..]);
        Some([n as char] + rest)
  }

  lemma TrailBits(n: nat)
    ensures n / 64 * 64 + Six(Trail(n)) == n
  {
  }

  lemma FirstNumberIs(c: char, rest: seq<Byte>)
    ensures FirstNumber(EncodeChar(c) + rest) == Some((c as int, |EncodeChar(c)|))
  {
    var n, code := c as int, EncodeChar(c);
    var b := code + rest;
    assert forall i | 0 <= i < |code| :: b[i] == code[i];
    TrailBits(n);
    TrailBits(n / 64);
    TrailBits(n / 64 / 64);
  }

  // Reading undoes writing, for every text.
  lemma {:induction false} TextRoundTrip(s: string)
    ensures DecodeText(EncodeText(s)) == Some(s)
    decreases |s|
  {
    if s != "" {
      var head, tail := HeadTail(s);
      assert s[0] == head && s[1..] == tail;
      FirstNumberIs(head, EncodeText(tail));
      var b := EncodeChar(head) + EncodeText(tail);
      assert b[|EncodeChar(head)|..] == EncodeText(tail);
      TextRoundTrip(tail);
    }
  }

  // Examples of section 7 of RFC 3629 and one character of each length: which bits go
  // where.
  lemma Examples()
    ensures EncodeChar('A') == [0x41]
    ensures EncodeChar('\U{e9}') == [0xC3, 0xA9]
    ensures EncodeChar('\U{2262}') == [0xE2, 0x89, 0xA2]
    ensures EncodeChar('\U{233b4}') == [0xF0, 0xA3, 0x8E, 0xB4]
  {
  }
}
