/** UTF-8 of Unicode scalar values. */
module Utf8 {

  predicate Scalar(cp: int) {
    0 <= cp < 0xD800 || 0xE000 <= cp < 0x11_0000
  }

  predicate Octets(bytes: seq<int>) {
    forall i :: 0 <= i < |bytes| ==> 0 <= bytes[i] < 256
  }

  function EncodePoint(cp: int): (bytes: seq<int>)
    requires Scalar(cp)
    ensures |bytes| >= 1 && Octets(bytes)
  {
    if cp < 0x80 then [cp]
    else if cp < 0x800 then [0xC0 + cp / 64, 0x80 + cp % 64]
    else if cp < 0x1_0000 then [0xE0 + cp / 4096, 0x80 + cp / 64 % 64, 0x80 + cp % 64]
    else [0xF0 + cp / 262144, 0x80 + cp / 4096 % 64, 0x80 + cp / 64 % 64, 0x80 + cp % 64]
  }

  predicate Continues(b: int) {
    0x80 <= b < 0xC0
  }

  const REPLACEMENT := 0xFFFD

  /** The next code point and the bytes it takes; a byte that starts no well-formed sequence is replaced. */
  function Next(b: seq<int>): (r: (int, nat))
    requires b != []
    ensures Scalar(r.0) && 1 <= r.1 <= |b|
  {
    var two := |b| >= 2 && Continues(b[1]);
    var three := two && |b| >= 3 && Continues(b[2]);
    var four := three && |b| >= 4 && Continues(b[3]);
    if 0 <= b[0] < 0x80 then (b[0], 1)
    else if 0xC2 <= b[0] < 0xE0 && two then ((b[0] - 0xC0) * 64 + b[1] - 0x80, 2)
    else if 0xE0 <= b[0] < 0xF0 && three then
      var cp := (b[0] - 0xE0) * 4096 + (b[1] - 0x80) * 64 + b[2] - 0x80;
      if cp >= 0x800 && Scalar(cp) then (cp, 3) else (REPLACEMENT, 1)
    else if 0xF0 <= b[0] < 0xF5 && four then
      var cp := (b[0] - 0xF0) * 262144 + (b[1] - 0x80) * 4096 + (b[2] - 0x80) * 64 + b[3] - 0x80;
      if cp >= 0x1_0000 && Scalar(cp) then (cp, 4) else (REPLACEMENT, 1)
    else (REPLACEMENT, 1)
  }

  function Encode(s: string): (bytes: seq<int>)
    ensures Octets(bytes)
  {
    if s == "" then [] else EncodePoint(s[0] as int) + Encode(s[1..])
  }

  function Decode(bytes: seq<int>): string {
    if bytes == [] then "" else [Next(bytes).0 as char] + Decode(bytes[Next(bytes).1..])
  }

  lemma TwoBytes(cp: int)
    requires 0x80 <= cp < 0x800
    ensures 0xC2 <= 0xC0 + cp / 64 < 0xE0 && (0xC0 + cp / 64 - 0xC0) * 64 + (0x80 + cp % 64) - 0x80 == cp
  {
  }

  lemma ThreeBytes(cp: int)
    requires 0x800 <= cp < 0x1_0000
    ensures 0xE0 <= 0xE0 + cp / 4096 < 0xF0
    ensures cp / 4096 * 4096 + cp / 64 % 64 * 64 + cp % 64 == cp
  {
    assert cp / 64 / 64 == cp / 4096;
  }

  lemma FourBytes(cp: int)
    requires 0x1_0000 <= cp < 0x11_0000
    ensures 0xF0 <= 0xF0 + cp / 262144 < 0xF5
    ensures cp / 262144 * 262144 + cp / 4096 % 64 * 4096 + cp / 64 % 64 * 64 + cp % 64 == cp
  {
    assert cp / 64 / 64 == cp / 4096;
    assert cp / 4096 / 64 == cp / 262144;
  }

  lemma NextDecodes(cp: int, rest: seq<int>)
    requires Scalar(cp)
    ensures Next(EncodePoint(cp) + rest) == (cp, |EncodePoint(cp)|)
  {
    var b := EncodePoint(cp) + rest;
    if 0x80 <= cp < 0x800 {
      TwoBytes(cp);
      assert b[0] == 0xC0 + cp / 64 && b[1] == 0x80 + cp % 64;
    } else if 0x800 <= cp < 0x1_0000 {
      ThreeBytes(cp);
      assert b[0] == 0xE0 + cp / 4096 && b[1] == 0x80 + cp / 64 % 64 && b[2] == 0x80 + cp % 64;
    } else if cp >= 0x1_0000 {
      FourBytes(cp);
      assert b[0] == 0xF0 + cp / 262144 && b[1] == 0x80 + cp / 4096 % 64;
      assert b[2] == 0x80 + cp / 64 % 64 && b[3] == 0x80 + cp % 64;
    }
  }

  /** Decoding inverts encoding on every string. */
  lemma {:induction false} DecodeInverts(s: string)
    ensures Decode(Encode(s)) == s
  {
    if s != "" {
      var cp := s[0] as int;
      var b := EncodePoint(cp) + Encode(s[1..]);
      NextDecodes(cp, Encode(s[1..]));
      assert b[|EncodePoint(cp)|..] == Encode(s[1..]);
      DecodeInverts(s[1..]);
      assert [cp as char] + s[1..] == s;
    }
  }
}
