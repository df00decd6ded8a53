/**
 * `application/x-www-form-urlencoded`: serializing (section 5.2 of the WHATWG URL Standard) and parsing (section
 * 5.1).
 */
module FormUrlEncoded {
  import opened Prelude
  import Utf8

  const UPPER_HEX := "0123456789ABCDEF"

  /** Bytes that stand for themselves. */
  predicate Plain(b: int) {
    || b == 0x2A || b == 0x2D || b == 0x2E || b == 0x5F
    || 0x30 <= b <= 0x39 || 0x41 <= b <= 0x5A || 0x61 <= b <= 0x7A
  }

  function EncodeByte(b: int): (s: string)
    requires 0 <= b < 256
    ensures |s| >= 1
  {
    if b == 0x20 then "+"
    else if Plain(b) then [b as char]
    else ['%', UPPER_HEX[b / 16], UPPER_HEX[b % 16]]
  }

  function EncodeBytes(bytes: seq<int>): string
    requires Utf8.Octets(bytes)
  {
    if bytes == [] then "" else EncodeByte(bytes[0]) + EncodeBytes(bytes[1..])
  }

  function HexValue(c: char): int {
    if '0' <= c <= '9' then (c as int) - 0x30
    else if 'A' <= c <= 'F' then (c as int) - 0x41 + 10
    else if 'a' <= c <= 'f' then (c as int) - 0x61 + 10
    else -1
  }

  /** `+` is a space, `%XY` is a byte, and anything else is its own UTF-8. */
  function DecodeBytes(s: string): seq<int> {
    if s == "" then []
    else if s[0] == '+' then [0x20] + DecodeBytes(s[1..])
    else if s[0] == '%' && |s| >= 3 && HexValue(s[1]) >= 0 && HexValue(s[2]) >= 0
    then [HexValue(s[1]) * 16 + HexValue(s[2])] + DecodeBytes(s[3..])
    else Utf8.EncodePoint(s[0] as int) + DecodeBytes(s[1..])
  }

  function EncodeField(s: string): string {
    EncodeBytes(Utf8.Encode(s))
  }

  function DecodeField(s: string): string {
    Utf8.Decode(DecodeBytes(s))
  }

  lemma HexDigitBack(d: int)
    requires 0 <= d < 16
    ensures HexValue(UPPER_HEX[d]) == d && UPPER_HEX[d] != '&' && UPPER_HEX[d] != '='
  {
  }

  lemma EncodeByteText(b: int)
    requires 0 <= b < 256
    ensures forall i :: 0 <= i < |EncodeByte(b)| ==>
      EncodeByte(b)[i] != '&' && EncodeByte(b)[i] != '=' && EncodeByte(b)[i] != '?'
  {
    HexDigitBack(b / 16);
    HexDigitBack(b % 16);
  }

  lemma DecodeOneByte(b: int, rest: string)
    requires 0 <= b < 256
    ensures DecodeBytes(EncodeByte(b) + rest) == [b] + DecodeBytes(rest)
  {
    var s := EncodeByte(b) + rest;
    if b == 0x20 || Plain(b) {
      assert s[1..] == rest;
    } else {
      HexDigitBack(b / 16);
      HexDigitBack(b % 16);
      assert s[0] == '%' && s[1] == UPPER_HEX[b / 16] && s[2] == UPPER_HEX[b % 16];
      assert s[3..] == rest;
    }
  }

  lemma {:induction false} DecodeBytesInverts(bytes: seq<int>)
    requires Utf8.Octets(bytes)
    ensures DecodeBytes(EncodeBytes(bytes)) == bytes
  {
    if bytes != [] {
      DecodeBytesInverts(bytes[1..]);
      DecodeOneByte(bytes[0], EncodeBytes(bytes[1..]));
    }
  }

  lemma FieldInverts(s: string)
    ensures DecodeField(EncodeField(s)) == s
  {
    DecodeBytesInverts(Utf8.Encode(s));
    Utf8.DecodeInverts(s);
  }

  /** Text without the separators of a query. */
  predicate Unbroken(s: string) {
    forall i :: 0 <= i < |s| ==> s[i] != '&' && s[i] != '=' && s[i] != '?'
  }

  lemma {:induction false} EncodedUnbroken(bytes: seq<int>)
    requires Utf8.Octets(bytes)
    ensures Unbroken(EncodeBytes(bytes))
  {
    if bytes != [] {
      EncodeByteText(bytes[0]);
      EncodedUnbroken(bytes[1..]);
    }
  }

  // ---- lists of pairs -----------------------------------------------------------------------------------------

  datatype Pair = Pair(name: string, value: string)

  function SerializePair(p: Pair): string {
    EncodeField(p.name) + "=" + EncodeField(p.value)
  }

  function Serialize(ps: seq<Pair>): string {
    if ps == [] then ""
    else if |ps| == 1 then SerializePair(ps[0])
    else SerializePair(ps[0]) + "&" + Serialize(ps[1..])
  }

  /** Position of the first `c`, or the length. */
  function IndexOf(s: string, c: char): (i: nat)
    ensures i <= |s| && (forall k :: 0 <= k < i ==> s[k] != c) && (i < |s| ==> s[i] == c)
  {
    if s == "" || s[0] == c then 0 else 1 + IndexOf(s[1..], c)
  }

  function ParsePair(s: string): Pair {
    var i := IndexOf(s, '=');
    Pair(DecodeField(s[..i]), if i < |s| then DecodeField(s[i + 1..]) else "")
  }

  function Parse(s: string): seq<Pair>
    decreases |s|
  {
    if s == "" then []
    else
      var i := IndexOf(s, '&');
      var rest := if i < |s| then Parse(s[i + 1..]) else [];
      if i == 0 then rest else [ParsePair(s[..i])] + rest
  }

  lemma IndexAfter(a: string, c: char, rest: string)
    requires Lacks(a, c)
    ensures IndexOf(a, c) == |a|
    ensures IndexOf(a + [c] + rest, c) == |a|
  {
    var s := a + [c] + rest;
    assert s[|a|] == c;
    forall k | 0 <= k < |a| ensures s[k] != c { assert s[k] == a[k]; }
  }

  predicate Lacks(s: string, c: char) {
    forall k :: 0 <= k < |s| ==> s[k] != c
  }

  lemma LacksJoined(a: string, b: string, c: char)
    requires Lacks(a, c) && Lacks(b, c) && c != '&'
    ensures Lacks(a + "&" + b, c)
  {
  }

  lemma FieldUnbroken(s: string)
    ensures Unbroken(EncodeField(s))
  {
    EncodedUnbroken(Utf8.Encode(s));
  }

  lemma SplitAtEquals(n: string, v: string)
    requires Unbroken(n) && Unbroken(v)
    ensures var s := n + "=" + v;
      |s| >= 1 && Lacks(s, '&') && Lacks(s, '?') && ParsePair(s) == Pair(DecodeField(n), DecodeField(v))
  {
    IndexAfter(n, '=', v);
    var s := n + "=" + v;
    assert s[..|n|] == n && s[|n| + 1..] == v;
  }

  lemma PairInverts(p: Pair)
    ensures ParsePair(SerializePair(p)) == p
    ensures |SerializePair(p)| >= 1 && Lacks(SerializePair(p), '&') && Lacks(SerializePair(p), '?')
  {
    FieldUnbroken(p.name);
    FieldUnbroken(p.value);
    FieldInverts(p.name);
    FieldInverts(p.value);
    SplitAtEquals(EncodeField(p.name), EncodeField(p.value));
  }

  /** Parsing takes the first segment off. */
  lemma ParseSegment(a: string, rest: string)
    requires |a| >= 1 && Lacks(a, '&')
    ensures Parse(a) == [ParsePair(a)]
    ensures Parse(a + "&" + rest) == [ParsePair(a)] + Parse(rest)
  {
    IndexAfter(a, '&', rest);
    assert a[..|a|] == a;
    var s := a + "&" + rest;
    assert s[..|a|] == a && s[|a| + 1..] == rest;
  }

  /** Parsing inverts serializing on every list of pairs. */
  lemma {:induction false} ParseInverts(ps: seq<Pair>)
    ensures Parse(Serialize(ps)) == ps
  {
    if ps != [] {
      PairInverts(ps[0]);
      ParseSegment(SerializePair(ps[0]), Serialize(ps[1..]));
      if |ps| > 1 {
        ParseInverts(ps[1..]);
        assert [ps[0]] + ps[1..] == ps;
      }
    }
  }

  lemma {:induction false} SerializeAppend(ps: seq<Pair>, qs: seq<Pair>)
    requires ps != [] && qs != []
    ensures Serialize(ps + qs) == Serialize(ps) + "&" + Serialize(qs)
  {
    if |ps| == 1 {
      assert (ps + qs)[1..] == qs;
    } else {
      assert (ps + qs)[1..] == ps[1..] + qs;
      SerializeAppend(ps[1..], qs);
    }
  }

  lemma {:induction false} NoQuestionMark(ps: seq<Pair>)
    ensures Lacks(Serialize(ps), '?')
  {
    if ps != [] {
      PairInverts(ps[0]);
      if |ps| > 1 {
        NoQuestionMark(ps[1..]);
        LacksJoined(SerializePair(ps[0]), Serialize(ps[1..]), '?');
      }
    }
  }

  /** Plain ASCII text is its own encoding. */
  predicate PlainText(s: string) {
    forall i :: 0 <= i < |s| ==> Plain(s[i] as int)
  }

  lemma {:induction false} PlainEncodesToItself(s: string)
    requires PlainText(s)
    ensures EncodeField(s) == s
  {
    if s != "" {
      var b := s[0] as int;
      assert Utf8.Encode(s)[0] == b && Utf8.Encode(s)[1..] == Utf8.Encode(s[1..]);
      PlainEncodesToItself(s[1..]);
      assert EncodeByte(b) == [s[0]];
      assert [s[0]] + s[1..] == s;
    }
  }

  lemma PlainPair(name: string, value: string)
    requires PlainText(name) && PlainText(value)
    ensures SerializePair(Pair(name, value)) == name + "=" + value
  {
    PlainEncodesToItself(name);
    PlainEncodesToItself(value);
  }

  lemma SerializeTwo(a: Pair, b: Pair)
    ensures Serialize([a, b]) == SerializePair(a) + "&" + SerializePair(b)
  {
    assert [a, b][1..] == [b];
  }
}
