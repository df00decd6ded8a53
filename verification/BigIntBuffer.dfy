/** The bigint/buffer conversions, through hex text as the package does them, and the stored P-256 coordinates. */
module BigIntBuffer {
  import opened Prelude
  import opened Radix

  type Bytes = s: seq<nat> | DigitsIn(s, 256) witness []

  datatype RangeError = NegativeNumber | BadWidth | DoesNotFit

  // ---- hex text of a buffer --------------------------------------------------------------------------------

  /** The two hex digits of every byte. */
  function Nibbles(buf: seq<nat>): (ds: seq<nat>)
    requires DigitsIn(buf, 256)
    ensures |ds| == 2 * |buf| && DigitsIn(ds, 16)
  {
    if buf == [] then [] else [buf[0] / 16, buf[0] % 16] + Nibbles(buf[1..])
  }

  /** `buf.toString('hex')` */
  function HexOf(buf: Bytes): string {
    Text(Nibbles(buf))
  }

  /** `Buffer.from(text, 'hex')`: whole pairs, up to the first pair that is not hex. */
  function BufferFrom(hex: string): (buf: Bytes) {
    if |hex| < 2 then []
    else
      var (hi, lo) := (DigitOf(hex[0]), DigitOf(hex[1]));
      if hi.Some? && lo.Some? && hi.value < 16 && lo.value < 16
      then var rest := BufferFrom(hex[2..]); [16 * hi.value + lo.value] + rest else []
  }

  lemma BufferPair(hi: nat, lo: nat, c: char, d: char, rest: string)
    requires hi < 16 && lo < 16 && DigitOf(c) == Some(hi) && DigitOf(d) == Some(lo)
    ensures BufferFrom([c, d] + rest) == [16 * hi + lo] + BufferFrom(rest)
  {
    assert ([c, d] + rest)[2..] == rest;
  }

  lemma NibblesPair(hi: nat, lo: nat, buf: Bytes)
    requires hi < 16 && lo < 16
    ensures DigitsIn([16 * hi + lo] + buf, 256) && Nibbles([16 * hi + lo] + buf) == [hi, lo] + Nibbles(buf)
  {
    var x := 16 * hi + lo;
    assert ([x] + buf)[1..] == buf;
    assert x / 16 == hi && x % 16 == lo;
  }

  /** Decoding the text of an even number of hex digits gives the buffer with those digits. */
  lemma {:induction false} BufferOfText(ds: seq<nat>)
    requires DigitsIn(ds, 16) && |ds| % 2 == 0
    ensures |BufferFrom(Text(ds))| == |ds| / 2 && Nibbles(BufferFrom(Text(ds))) == ds
  {
    if ds == [] {
      assert Text(ds) == "";
    } else {
      var a, b, rest := ds[0], ds[1], ds[2..];
      BufferOfText(rest);
      TextCons(b, rest);
      TextCons(a, [b] + rest);
      assert ds == [a] + ([b] + rest);
      DigitChar(a);
      DigitChar(b);
      var c, d := DIGIT_CHARS[a], DIGIT_CHARS[b];
      assert [c] + ([d] + Text(rest)) == [c, d] + Text(rest);
      BufferPair(a, b, c, d, Text(rest));
      NibblesPair(a, b, BufferFrom(Text(rest)));
      assert ds == [a, b] + rest;
    }
  }

  lemma {:induction false} NibblesSnoc(buf: Bytes, x: nat)
    requires x < 256
    ensures DigitsIn(buf + [x], 256) && Nibbles(buf + [x]) == Nibbles(buf) + [x / 16, x % 16]
  {
    if buf == [] {
      assert buf + [x] == [x];
    } else {
      NibblesSnoc(buf[1..], x);
      assert (buf + [x])[1..] == buf[1..] + [x];
    }
  }

  lemma ValueTwo(ds: seq<nat>, hi: nat, lo: nat)
    ensures Value(ds + [hi, lo], 16) == (Value(ds, 16) * 16 + hi) * 16 + lo
  {
    var s := ds + [hi, lo];
    assert s[..|s| - 1] == ds + [hi];
    assert (ds + [hi])[..|ds|] == ds;
  }

  /** A buffer's hex digits have its value. */
  lemma {:induction false} NibblesValue(buf: Bytes)
    ensures Value(Nibbles(buf), 16) == Value(buf, 256)
  {
    if buf != [] {
      var init, x := buf[..|buf| - 1], buf[|buf| - 1];
      assert buf == init + [x];
      NibblesValue(init);
      NibblesSnoc(init, x);
      ValueTwo(Nibbles(init), x / 16, x % 16);
    }
  }

  // ---- big-endian --------------------------------------------------------------------------------------------

  function ToBigIntBE(buf: Bytes): nat {
    var hex := HexOf(buf);
    var digits := Parse(hex, 16);
    if hex == "" || digits.None? then 0 else Value(digits.value, 16)
  }

  function PadStart(hex: string, width: nat): string {
    if |hex| >= width then hex else ZeroChars(width - |hex|) + hex
  }

  function ToBufferBE(num: int, width: int): Result<Bytes, RangeError> {
    if num < 0 then Err(NegativeNumber)
    else if width < 0 then Err(BadWidth)
    else
      var hex := Text(Digits(num, 16));
      if |hex| > width * 2 then Err(DoesNotFit) else Ok(BufferFrom(PadStart(hex, width * 2)))
  }

  lemma BigIntIsValue(buf: Bytes)
    ensures ToBigIntBE(buf) == Value(buf, 256)
  {
    ParseText(Nibbles(buf), 16);
    NibblesValue(buf);
    if buf == [] { assert Nibbles(buf) == []; }
  }

  function ZeroChars(k: nat): string {
    seq(k, _ => '0')
  }

  lemma OneMoreZero(k: nat, ds: seq<nat>, text: string)
    requires k > 0
    ensures Zeros(k) + ds == [0] + (Zeros(k - 1) + ds)
    ensures ZeroChars(k) + text == ['0'] + (ZeroChars(k - 1) + text)
  {
    assert Zeros(k) == [0] + Zeros(k - 1);
    assert ZeroChars(k) == ['0'] + ZeroChars(k - 1);
  }

  lemma {:induction false} TextOfZeros(k: nat, ds: seq<nat>)
    requires DigitsIn(ds, 16)
    ensures DigitsIn(Zeros(k) + ds, 16) && Text(Zeros(k) + ds) == ZeroChars(k) + Text(ds)
  {
    if k == 0 {
      assert Zeros(0) + ds == ds && ZeroChars(0) + Text(ds) == Text(ds);
    } else {
      TextOfZeros(k - 1, ds);
      TextCons(0, Zeros(k - 1) + ds);
      OneMoreZero(k, ds, Text(ds));
    }
  }

  lemma PaddedText(n: nat, width: nat)
    ensures |Digits(n, 16)| <= width ==> PadStart(Text(Digits(n, 16)), width) == Text(Pad(Digits(n, 16), width))
    ensures |Text(Digits(n, 16))| == |Digits(n, 16)|
    ensures DigitsIn(Pad(Digits(n, 16), width), 16)
  {
    var ds := Digits(n, 16);
    ParseText(ds, 16);
    PadValue(ds, width, 16);
    if |ds| < width { TextOfZeros(width - |ds|, ds); }
  }

  /** Exactly the numbers below 256 to the width fit, and no number fits width zero. */
  lemma FitsExactly(num: int, width: int)
    ensures ToBufferBE(num, width).Ok? <==> num >= 0 && width >= 1 && num < Pow(256, width)
  {
    if num >= 0 && width >= 0 {
      PaddedText(num, width * 2);
      if width >= 1 { HexDigitsFit(num, width); }
    }
  }

  lemma HexDigitsFit(num: nat, width: nat)
    requires width >= 1
    ensures |Digits(num, 16)| <= width * 2 <==> num < Pow(256, width)
  {
    DigitCount(num, 16, 2 * width);
    PowSquare(16, width);
    assert 16 * 16 == 256;
  }

  /** The buffer of padded hex digits holds their value. */
  lemma PaddedBuffer(n: nat, width: nat)
    requires |Digits(n, 16)| <= 2 * width
    ensures var buf := BufferFrom(Text(Pad(Digits(n, 16), 2 * width))); |buf| == width && Value(buf, 256) == n
  {
    var ds := Pad(Digits(n, 16), 2 * width);
    PadValue(Digits(n, 16), 2 * width, 16);
    BufferOfText(ds);
    NibblesValue(BufferFrom(Text(ds)));
    ValueOfDigits(n, 16);
  }

  /** Writing and reading back gives the number, in exactly `width` bytes. */
  lemma ReadsBack(num: int, width: int)
    requires ToBufferBE(num, width).Ok?
    ensures |ToBufferBE(num, width).value| == width && ToBigIntBE(ToBufferBE(num, width).value) == num
  {
    PaddedText(num, 2 * width);
    PaddedBuffer(num, width);
    BigIntIsValue(ToBufferBE(num, width).value);
  }

  /** Reading and writing back gives the buffer. */
  lemma WritesBack(buf: Bytes)
    requires |buf| >= 1
    ensures ToBufferBE(ToBigIntBE(buf), |buf|) == Ok(buf)
  {
    var n := ToBigIntBE(buf);
    BigIntIsValue(buf);
    ValueBound(buf, 256);
    FitsExactly(n, |buf|);
    ReadsBack(n, |buf|);
    var back := ToBufferBE(n, |buf|).value;
    BigIntIsValue(back);
    SameValueSameDigits(back, buf, 256);
  }

  // ---- little-endian ------------------------------------------------------------------------------------------

  function Reverse(s: seq<nat>): (r: seq<nat>)
    ensures |r| == |s| && forall i :: 0 <= i < |s| ==> r[i] == s[|s| - 1 - i]
  {
    if s == [] then [] else Reverse(s[1..]) + [s[0]]
  }

  lemma ReverseTwice(s: seq<nat>)
    ensures Reverse(Reverse(s)) == s
    ensures DigitsIn(s, 256) ==> DigitsIn(Reverse(s), 256)
  {
  }

  function ToBigIntLE(buf: Bytes): nat {
    ReverseTwice(buf);
    ToBigIntBE(Reverse(buf))
  }

  function ToBufferLE(num: int, width: int): Result<Bytes, RangeError> {
    var r := ToBufferBE(num, width);
    if r.Err? then r else
      ReverseTwice(r.value);
      Ok(Reverse(r.value))
  }

  /** The same three laws, byte order reversed. */
  lemma LittleEndianLaws(num: int, width: int, buf: Bytes)
    requires |buf| >= 1
    ensures ToBufferLE(num, width).Ok? <==> num >= 0 && width >= 1 && num < Pow(256, width)
    ensures ToBufferLE(num, width).Ok? ==>
      |ToBufferLE(num, width).value| == width && ToBigIntLE(ToBufferLE(num, width).value) == num
    ensures ToBufferLE(ToBigIntLE(buf), |buf|) == Ok(buf)
  {
    FitsExactly(num, width);
    if ToBufferBE(num, width).Ok? {
      ReadsBack(num, width);
      ReverseTwice(ToBufferBE(num, width).value);
    }
    ReverseTwice(buf);
    WritesBack(Reverse(buf));
  }

  // ---- stored coordinates --------------------------------------------------------------------------------------

  datatype CoordinateError = NotANumber | OutOfRange

  /** Registration stores a coordinate as the decimal text of `BigInt("0x" + hex)`; without a digit that throws. */
  function StoreCoordinate(x: Bytes): Result<string, CoordinateError> {
    var digits := Parse(HexOf(x), 16);
    if HexOf(x) == "" || digits.None? then Err(NotANumber) else Ok(Text(Digits(Value(digits.value, 16), 10)))
  }

  /** `BigInt(text)` for decimal text; the empty text is zero. */
  function ParseInteger(s: string): Option<nat> {
    var ds := Parse(s, 10);
    if ds.Some? then Some(Value(ds.value, 10)) else None
  }

  const COORDINATE_LIMIT: nat := 0x1_0000_0000_0000_0000_0000_0000_0000_0000_0000_0000_0000_0000_0000_0000_0000_0000

  function CoordinateToBytes(text: string): Result<Bytes, CoordinateError> {
    var n := ParseInteger(text);
    if n.None? then Err(NotANumber)
    else if n.value <= 0 || n.value >= COORDINATE_LIMIT then Err(OutOfRange)
    else Ok(BufferFrom(PadStart(Text(Digits(n.value, 16)), 64)))
  }

  lemma TimesAssociates(a: nat, b: nat, c: nat)
    ensures a * (b * c) == (a * b) * c
  {
  }

  lemma {:induction false} PowSteps(b: nat, j: nat, k: nat)
    ensures Pow(b, j + k) == Pow(b, j) * Pow(b, k)
    decreases j
  {
    if j > 0 {
      PowSteps(b, j - 1, k);
      TimesAssociates(b, Pow(b, j - 1), Pow(b, k));
    }
  }

  lemma LimitIsPower()
    ensures Pow(256, 32) == COORDINATE_LIMIT
  {
    assert Pow(256, 1) == 256 * Pow(256, 0) && Pow(256, 2) == 256 * Pow(256, 1);
    PowSteps(256, 2, 2);
    PowSteps(256, 4, 4);
    PowSteps(256, 8, 8);
    PowSteps(256, 16, 16);
  }

  /**
   * Storing fails exactly for an empty coordinate. A stored one comes back exactly when its value is in range: as 32
   * bytes of the same value, hence byte-identical exactly when it had 32 bytes.
   */
  lemma CoordinateRoundTrip(x: Bytes)
    ensures StoreCoordinate(x).Ok? <==> x != []
    ensures x != [] ==> var r := CoordinateToBytes(StoreCoordinate(x).value);
      && (r.Ok? <==> 0 < Value(x, 256) < COORDINATE_LIMIT)
      && (r.Ok? ==> |r.value| == 32 && Value(r.value, 256) == Value(x, 256))
      && (r.Ok? ==> (r.value == x <==> |x| == 32))
  {
    var n := ToBigIntBE(x);
    BigIntIsValue(x);
    ParseText(Nibbles(x), 16);
    ParseText(Digits(n, 10), 10);
    ValueOfDigits(n, 10);
    LimitIsPower();
    FitsExactly(n, 32);
    if x != [] && 0 < n < COORDINATE_LIMIT {
      ReadsBack(n, 32);
      var back := ToBufferBE(n, 32).value;
      BigIntIsValue(back);
      assert CoordinateToBytes(StoreCoordinate(x).value) == Ok(back);
      if |x| == 32 { SameValueSameDigits(back, x, 256); }
    }
  }
}
