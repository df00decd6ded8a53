/** Numbers as digit sequences, most significant digit first, in any base. */
module Radix {
  import opened Prelude

  function Pow(b: nat, k: nat): nat {
    if k == 0 then 1 else b * Pow(b, k - 1)
  }

  predicate DigitsIn(ds: seq<nat>, b: nat) {
    forall i :: 0 <= i < |ds| ==> ds[i] < b
  }

  function Value(ds: seq<nat>, b: nat): nat {
    if ds == [] then 0 else Value(ds[..|ds| - 1], b) * b + ds[|ds| - 1]
  }

  /** The digits a number prints with: no leading zero, and one digit for zero. */
  function Digits(n: nat, b: nat): (ds: seq<nat>)
    requires b >= 2
    ensures |ds| >= 1 && DigitsIn(ds, b)
  {
    if n < b then [n] else
      DivSmaller(n, b);
      Digits(n / b, b) + [n % b]
  }

  lemma DivSmaller(n: nat, b: nat)
    requires b >= 2 && n >= b
    ensures 1 <= n / b < n && n == n / b * b + n % b && 0 <= n % b < b
  {
    var q, r := n / b, n % b;
    assert n == q * b + r && 0 <= r < b;
    assert q == 0 ==> q * b == 0;
    MulMono(2, b, q);
    assert b * q == q * b;
  }

  lemma PowPositive(b: nat, k: nat)
    requires b >= 1
    ensures Pow(b, k) >= 1
  {
  }

  lemma {:induction false} ValueOfDigits(n: nat, b: nat)
    requires b >= 2
    ensures Value(Digits(n, b), b) == n
  {
    if n < b {
      assert [n][..0] == [];
      assert Value([n], b) == Value([], b) * b + n;
    } else {
      DivSmaller(n, b);
      ValueOfDigits(n / b, b);
      var ds := Digits(n / b, b);
      assert (ds + [n % b])[..|ds|] == ds;
    }
  }

  lemma {:induction false} ValueBound(ds: seq<nat>, b: nat)
    requires b >= 2 && DigitsIn(ds, b)
    ensures Value(ds, b) < Pow(b, |ds|)
  {
    if ds != [] {
      var init := ds[..|ds| - 1];
      ValueBound(init, b);
      var v, p := Value(init, b), Pow(b, |init|);
      assert (v + 1) * b <= p * b by { MulMono(v + 1, p, b); }
      assert (v + 1) * b == v * b + b;
      assert p * b == b * p;
    }
  }

  lemma MulMono(x: nat, y: nat, b: nat)
    requires x <= y
    ensures x * b <= y * b
  {
  }

  /** A number prints with at most `k` digits exactly when it is below the `k`-th power. */
  lemma {:induction false} DigitCount(n: nat, b: nat, k: nat)
    requires b >= 2
    ensures k >= 1 ==> (|Digits(n, b)| <= k <==> n < Pow(b, k))
    decreases k
  {
    if k == 1 {
      assert Pow(b, 1) == b * Pow(b, 0);
    } else if k > 1 {
      if n < b {
        PowPositive(b, k - 1);
        assert Pow(b, k) >= b by { MulMono(1, Pow(b, k - 1), b); assert Pow(b, k - 1) * b == b * Pow(b, k - 1); }
      } else {
        DivSmaller(n, b);
        DigitCount(n / b, b, k - 1);
        QuotientBelow(n, b, Pow(b, k - 1));
      }
    }
  }

  lemma QuotientBelow(n: nat, b: nat, p: nat)
    requires b >= 2
    ensures n / b < p <==> n < b * p
  {
    var q, r := n / b, n % b;
    assert n == q * b + r && 0 <= r < b;
    if q < p {
      MulMono(q + 1, p, b);
      assert (q + 1) * b == q * b + b;
      assert p * b == b * p;
    } else {
      MulMono(p, q, b);
      assert p * b == b * p;
    }
  }

  function Zeros(k: nat): seq<nat> {
    seq(k, _ => 0)
  }

  /** Left-padding with zeros, as `padStart` does. */
  function Pad(ds: seq<nat>, width: nat): seq<nat> {
    if |ds| >= width then ds else Zeros(width - |ds|) + ds
  }

  lemma {:induction false} LeadingZero(ds: seq<nat>, b: nat)
    ensures Value([0] + ds, b) == Value(ds, b)
  {
    if ds == [] {
      assert [0] + ds == [0] && [0][..0] == [];
      assert Value([0], b) == Value([], b) * b + 0;
    } else {
      var s := [0] + ds;
      assert s[..|s| - 1] == [0] + ds[..|ds| - 1];
      LeadingZero(ds[..|ds| - 1], b);
    }
  }

  lemma {:induction false} ZerosValue(k: nat, ds: seq<nat>, b: nat)
    ensures Value(Zeros(k) + ds, b) == Value(ds, b)
  {
    if k == 0 {
      assert Zeros(0) + ds == ds;
    } else {
      ZerosValue(k - 1, ds, b);
      assert Zeros(k) + ds == [0] + (Zeros(k - 1) + ds);
      LeadingZero(Zeros(k - 1) + ds, b);
    }
  }

  /** Padding keeps the value and the digit range. */
  lemma PadValue(ds: seq<nat>, width: nat, b: nat)
    requires b >= 2 && DigitsIn(ds, b)
    ensures Value(Pad(ds, width), b) == Value(ds, b) && DigitsIn(Pad(ds, width), b)
    ensures |ds| <= width ==> |Pad(ds, width)| == width
  {
    if |ds| < width { ZerosValue(width - |ds|, ds, b); }
  }

  lemma DivModUnique(q: nat, r: nat, q': nat, r': nat, b: nat)
    requires r < b && r' < b && q * b + r == q' * b + r'
    ensures q == q' && r == r'
  {
    assert (q + 1) * b == q * b + b && (q' + 1) * b == q' * b + b;
    if q < q' {
      MulMono(q + 1, q', b);
    } else if q' < q {
      MulMono(q' + 1, q, b);
    }
  }

  /** Digit sequences of one length are determined by their value. */
  lemma {:induction false} SameValueSameDigits(a: seq<nat>, c: seq<nat>, b: nat)
    requires b >= 2 && DigitsIn(a, b) && DigitsIn(c, b) && |a| == |c| && Value(a, b) == Value(c, b)
    ensures a == c
  {
    if a != [] {
      var k := |a| - 1;
      DivModUnique(Value(a[..k], b), a[k], Value(c[..k], b), c[k], b);
      SameValueSameDigits(a[..k], c[..k], b);
      assert a == a[..k] + [a[k]] && c == c[..k] + [c[k]];
    }
  }

  lemma {:induction false} PowSquare(b: nat, k: nat)
    ensures Pow(b * b, k) == Pow(b, 2 * k)
  {
    if k > 0 {
      PowSquare(b, k - 1);
      var p := Pow(b, 2 * (k - 1));
      assert Pow(b, 2 * k) == b * Pow(b, 2 * k - 1) == b * (b * p);
      assert b * (b * p) == b * b * p;
    }
  }

  // ---- digits as text -------------------------------------------------------------------------------------

  const DIGIT_CHARS := "0123456789abcdef"

  /** Digits printed as lower-case characters. */
  function Text(ds: seq<nat>): string
    requires DigitsIn(ds, 16)
  {
    if ds == [] then "" else [DIGIT_CHARS[ds[0]]] + Text(ds[1..])
  }

  lemma TextCons(d: nat, ds: seq<nat>)
    requires d < 16 && DigitsIn(ds, 16)
    ensures DigitsIn([d] + ds, 16) && Text([d] + ds) == [DIGIT_CHARS[d]] + Text(ds)
  {
    assert ([d] + ds)[1..] == ds;
  }

  function DigitOf(c: char): Option<nat> {
    if '0' <= c <= '9' then Some((c as int) - ('0' as int))
    else if 'a' <= c <= 'f' then Some((c as int) - ('a' as int) + 10)
    else if 'A' <= c <= 'F' then Some((c as int) - ('A' as int) + 10)
    else None
  }

  /** The digits of a text in base `b`, if every character is one. */
  function Parse(s: string, b: nat): Option<seq<nat>> {
    if s == "" then Some([])
    else
      var rest := Parse(s[1..], b);
      if DigitOf(s[0]).Some? && DigitOf(s[0]).value < b && rest.Some?
      then Some([DigitOf(s[0]).value] + rest.value) else None
  }

  lemma DigitChar(d: nat)
    requires d < 16
    ensures DigitOf(DIGIT_CHARS[d]) == Some(d)
  {
  }

  lemma {:induction false} ParseText(ds: seq<nat>, b: nat)
    requires b <= 16 && DigitsIn(ds, b)
    ensures |Text(ds)| == |ds| && Parse(Text(ds), b) == Some(ds)
  {
    if ds != [] {
      DigitChar(ds[0]);
      ParseText(ds[1..], b);
      var s := Text(ds);
      assert s[0] == DIGIT_CHARS[ds[0]] && s[1..] == Text(ds[1..]);
      assert Parse(s, b) == Some([ds[0]] + ds[1..]);
      assert [ds[0]] + ds[1..] == ds;
    }
  }
}
