// Base64 as section 4 of RFC 4648 lays it out: three bytes to four symbols,
// the last group filled with one or two pad characters.
module Base64 {
  import opened Wrappers
  import opened Text
  import opened Seqs

  type Byte = b: int | 0 <= b < 256
  type Sextet = v: int | 0 <= v < 64

  const PAD := '='

  predicate IsSymbol(c: char) {
    'A' <= c <= 'Z' || 'a' <= c <= 'z' || '0' <= c <= '9' || c == '+' || c == '/'
  }

  function Symbol(v: Sextet): char {
    if v < 26 then (v + 65) as char
    else if v < 52 then (v + 71) as char
    else if v < 62 then (v - 4) as char
    else if v == 62 then '+'
    else '/'
  }

  function Value(c: char): Sextet
    requires IsSymbol(c)
  {
    if 'A' <= c <= 'Z' then c as int - 65
    else if 'a' <= c <= 'z' then c as int - 71
    else if '0' <= c <= '9' then c as int + 4
    else if c == '+' then 62
    else 63
  }

  lemma SymbolValue(v: Sextet)
    ensures IsSymbol(Symbol(v)) && Value(Symbol(v)) == v
  {
  }

  // The sextets of b, the last one filled with zero bits.
  function Sextets(b: seq<Byte>): seq<Sextet> {
    if |b| == 0 then []
    else if |b| == 1 then [b[0] / 4, b[0] % 4 * 16]
    else if |b| == 2 then [b[0] / 4, b[0] % 4 * 16 + b[1] / 16, b[1] % 16 * 4]
    else [b[0] / 4, b[0] % 4 * 16 + b[1] / 16, b[1] % 16 * 4 + b[2] / 64, b[2] % 64] + Sextets(b[3..])
  }

  // The three bytes a group of sextets carries.
  function First(v: Sextet, w: Sextet): Byte { var x: int := v; x * 4 + w / 16 }
  function Second(v: Sextet, w: Sextet): Byte { var x: int := v; x % 16 * 16 + w / 4 }
  function Third(v: Sextet, w: Sextet): Byte { var x: int := v; x % 4 * 64 + w }

  // The bytes that sextets stand for; bits beyond the last byte are dropped.
  function Bytes(v: seq<Sextet>): seq<Byte> {
    if |v| < 2 then []
    else if |v| == 2 then [First(v[0], v[1])]
    else if |v| == 3 then [First(v[0], v[1]), Second(v[1], v[2])]
    else [First(v[0], v[1]), Second(v[1], v[2]), Third(v[2], v[3])] + Bytes(v[4..])
  }

  // The symbols of b, before padding.
  function EncodeBody(b: seq<Byte>): string { Map(Sextets(b), Symbol) }

  function Padding(n: nat): string {
    if n % 3 == 1 then "==" else if n % 3 == 2 then "=" else ""
  }

  // base64.b64encode
  function Encode(b: seq<Byte>): string { EncodeBody(b) + Padding(|b|) }

  function DecodeBody(s: string): seq<Byte>
    requires All(s, IsSymbol)
  {
    Bytes(seq(|s|, i requires 0 <= i < |s| => Value(s[i])))
  }

  predicate IsPad(c: char) { c == PAD }

  // s.rstrip("=")
  function StripPads(s: string): string { s[..Trunk(s, IsPad)] }

  // How many pads may follow n symbols: a partial group needs exactly its own,
  // and pads after a whole group are let through.
  predicate PadsFit(n: nat, pads: nat) {
    || (n % 4 == 0 && (pads == 0 || n > 0))
    || (n % 4 == 2 && pads == 2)
    || (n % 4 == 3 && pads == 1)
  }

  // base64.b64decode with validate=True: only symbols, then pads at the end.
  function Decode(s: string): Option<seq<Byte>> {
    var body := StripPads(s);
    if All(body, IsSymbol) && PadsFit(|body|, |s| - |body|) then Some(DecodeBody(body)) else None
  }

  function BodyLength(n: nat): nat { 4 * (n / 3) + (if n % 3 == 0 then 0 else n % 3 + 1) }

  lemma {:induction false} SextetCount(b: seq<Byte>)
    ensures |Sextets(b)| == BodyLength(|b|)
  {
    if |b| >= 3 {
      SextetCount(b[3..]);
    }
  }

  lemma {:induction false} BytesOfSextets(b: seq<Byte>)
    ensures Bytes(Sextets(b)) == b
  {
    if |b| >= 3 {
      var v, rest := Sextets(b), Sextets(b[3..]);
      assert v[4..] == rest && |v| >= 4;
      BytesOfSextets(b[3..]);
      assert b == [b[0], b[1], b[2]] + b[3..];
    } else if |b| > 0 {
      assert b == if |b| == 1 then [b[0]] else [b[0], b[1]];
    }
  }

  // The body is all symbols, four for every three bytes and two or three for the rest.
  lemma BodyShape(b: seq<Byte>)
    ensures All(EncodeBody(b), IsSymbol)
    ensures |EncodeBody(b)| == BodyLength(|b|)
  {
    SextetCount(b);
    forall i | 0 <= i < |Sextets(b)|
      ensures IsSymbol(EncodeBody(b)[i])
    {
      SymbolValue(Sextets(b)[i]);
    }
  }

  lemma DecodeBodyOfEncodeBody(b: seq<Byte>)
    ensures All(EncodeBody(b), IsSymbol) && DecodeBody(EncodeBody(b)) == b
  {
    BodyShape(b);
    var v, s := Sextets(b), EncodeBody(b);
    var back := seq(|s|, i requires 0 <= i < |s| => Value(s[i]));
    forall i | 0 <= i < |v|
      ensures back[i] == v[i]
    {
      SymbolValue(v[i]);
    }
    assert back == v;
    BytesOfSextets(b);
  }

  // Pads behind symbols are what rstrip takes off.
  lemma StripPadsOf(body: string, pads: string)
    requires All(body, IsSymbol) && All(pads, IsPad)
    ensures StripPads(body + pads) == body
  {
    TrunkIs(body, pads, IsPad);
  }

  lemma PaddingIsPads(n: nat)
    ensures All(Padding(n), IsPad) && PadsFit(BodyLength(n), |Padding(n)|)
  {
    assert BodyLength(n) % 4 == if n % 3 == 0 then 0 else n % 3 + 1;
  }

  // Stripping the pads of an encoding leaves the symbols of its bytes.
  lemma StripPadsOfEncode(b: seq<Byte>)
    ensures StripPads(Encode(b)) == EncodeBody(b)
  {
    BodyShape(b);
    PaddingIsPads(|b|);
    StripPadsOf(EncodeBody(b), Padding(|b|));
  }

  // Decoding undoes encoding, for every byte string.
  lemma RoundTrip(b: seq<Byte>)
    ensures Decode(Encode(b)) == Some(b)
  {
    StripPadsOfEncode(b);
    BodyShape(b);
    PaddingIsPads(|b|);
    DecodeBodyOfEncodeBody(b);
  }

  // How many of n sextets are given back by encoding again: all but a last one whose
  // low bits were dropped.
  function Exact(n: nat): nat { if n % 4 == 0 then n else n - 1 }

  predicate Agree<T(==)>(a: seq<T>, b: seq<T>, n: nat) {
    |a| == |b| && n <= |b| && forall i | 0 <= i < n :: a[i] == b[i]
  }

  lemma {:induction false} SextetsOfBytes(v: seq<Sextet>)
    requires |v| % 4 != 1
    ensures Agree(Sextets(Bytes(v)), v, Exact(|v|))
    decreases |v|
  {
    if |v| >= 4 {
      var tail := v[4..];
      SextetsOfBytes(tail);
      OneGroup(v, Bytes(tail));
      var again := Sextets(Bytes(v));
      assert v == v[..4] + tail && again == v[..4] + Sextets(Bytes(tail));
      AgreeBehind(v[..4], Sextets(Bytes(tail)), tail, Exact(|tail|));
      assert Exact(|v|) == 4 + Exact(|tail|);
    } else if |v| >= 2 {
      GroupBack(v[0], v[1], if |v| == 3 then v[2] else 0, 0);
    }
  }

  lemma AgreeBehind<T>(front: seq<T>, a: seq<T>, b: seq<T>, n: nat)
    requires Agree(a, b, n)
    ensures Agree(front + a, front + b, |front| + n)
  {
  }

  lemma OneGroup(v: seq<Sextet>, rest: seq<Byte>)
    requires |v| >= 4
    ensures Sextets([First(v[0], v[1]), Second(v[1], v[2]), Third(v[2], v[3])] + rest) == v[..4] + Sextets(rest)
  {
    GroupBack(v[0], v[1], v[2], v[3]);
    var b := [First(v[0], v[1]), Second(v[1], v[2]), Third(v[2], v[3])] + rest;
    assert b[3..] == rest;
    assert v[..4] == [v[0], v[1], v[2], v[3]];
  }

  lemma GroupBack(p: Sextet, q: Sextet, r: Sextet, s: Sextet)
    ensures var a, b, c := First(p, q), Second(q, r), Third(r, s);
            && p == a / 4 && q == a % 4 * 16 + b / 16 && r == b % 16 * 4 + c / 64 && s == c % 64
  {
  }

  lemma ValueSymbol(c: char)
    requires IsSymbol(c)
    ensures Symbol(Value(c)) == c
  {
  }

  // Conversely: whatever decodes is symbols and pads, and encoding the bytes again
  // gives those symbols back, save the last one of a partial group.
  lemma EncodeUndoes(s: string)
    requires Decode(s).Some?
    ensures All(StripPads(s), IsSymbol) && |StripPads(s)| % 4 != 1
    ensures Agree(EncodeBody(Decode(s).value), StripPads(s), Exact(|StripPads(s)|))
  {
    var body := StripPads(s);
    var v := seq(|body|, i requires 0 <= i < |body| => Value(body[i]));
    SextetsOfBytes(v);
    forall i | 0 <= i < Exact(|body|)
      ensures EncodeBody(Bytes(v))[i] == body[i]
    {
      ValueSymbol(body[i]);
    }
  }

  // The alphabet: A to Z, a to z, 0 to 9, + and /, in this order.
  lemma Alphabet()
    ensures Symbol(0) == 'A' && Symbol(26) == 'a' && Symbol(52) == '0' && Symbol(62) == '+' && Symbol(63) == '/'
    ensures forall v: Sextet | v < 61 && v != 25 && v != 51 :: (Symbol(v + 1) as int) == (Symbol(v) as int) + 1
  {
  }

  // Test vectors of section 10 of RFC 4648: which bits go where.
  lemma TestVectors()
    ensures Encode([]) == ""
    ensures Encode([102]) == "Zg=="
    ensures Encode([102, 111]) == "Zm8="
    ensures Encode([102, 111, 111]) == "Zm9v"
  {
    VectorSextets();
    EncodesAs([], [], "");
    EncodesAs([102], [25, 32], "Zg");
    EncodesAs([102, 111], [25, 38, 60], "Zm8");
    EncodesAs([102, 111, 111], [25, 38, 61, 47], "Zm9v");
  }

  lemma VectorSextets()
    ensures Sextets([]) == [] && Sextets([102]) == [25, 32] && Sextets([102, 111]) == [25, 38, 60]
    ensures Sextets([102, 111, 111]) == [25, 38, 61, 47]
  {
    assert [102, 111, 111][3..] == [];
  }

  lemma EncodesAs(b: seq<Byte>, v: seq<Sextet>, body: string)
    requires Sextets(b) == v && |body| == |v| && forall i | 0 <= i < |v| :: body[i] == Symbol(v[i])
    ensures Encode(b) == body + Padding(|b|)
  {
    assert EncodeBody(b) == body;
  }
}
