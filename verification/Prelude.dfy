/** Small vocabulary shared by the protocol models. */
module Prelude {

  datatype Option<+T> = None | Some(value: T)

  datatype Result<+T, +E> = Ok(value: T) | Err(error: E)

  /** No element occurs twice. */
  ghost predicate Distinct<T>(s: seq<T>) {
    forall i, j :: 0 <= i < j < |s| ==> s[i] != s[j]
  }

  /** The elements of a sequence, as a set. */
  ghost function Elements<T>(s: seq<T>): set<T> {
    set x | x in s
  }

  function Min(a: int, b: int): int { if a <= b then a else b }

  function Max(a: int, b: int): int { if a >= b then a else b }

  function Sum(s: seq<int>): int {
    if s == [] then 0 else Sum(s[..|s| - 1]) + s[|s| - 1]
  }

  lemma SumAppend(s: seq<int>, x: int)
    ensures Sum(s + [x]) == Sum(s) + x
  {
    assert (s + [x])[..|s|] == s;
  }

  lemma DistinctAppend<T>(s: seq<T>, x: T)
    requires Distinct(s) && x !in s
    ensures Distinct(s + [x])
  {
  }

  /** Rounding of a non-negative amount to whole cents, ties upwards (`toFixed(2)`). */
  function RoundHalfUp(x: real): (n: int)
    ensures x - 0.5 < n as real <= x + 0.5
  {
    (x + 0.5).Floor
  }

  /** Multiplying a quotient back. */
  lemma QuotientTimes(b: real, n: real, factor: real)
    requires n > 0.0
    ensures b / n * factor * n == b * factor
  {
    var q := b / n;
    assert q * n == b;
    assert q * factor * n == q * n * factor;
  }

  lemma TimesNonNegative(x: real, n: real)
    requires x >= 0.0 && n >= 0.0
    ensures x * n >= 0.0
  {
  }

  lemma DifferenceTimes(x: real, y: real, n: real)
    ensures (y - x) * n == y * n - x * n
  {
  }

  /** Comparing after multiplying both sides. */
  lemma CompareTimes(x: real, y: real, n: real)
    requires n > 0.0
    ensures x <= y <==> x * n <= y * n
  {
    DifferenceTimes(x, y, n);
    if x <= y { TimesNonNegative(y - x, n); } else { assert (y - x) * n < 0.0; }
  }

  /** What is within a half stays so in proportion. */
  lemma NearTimes(x: real, y: real, n: real, aim: real)
    requires n > 0.0 && x * n == aim && x - 0.5 <= y <= x + 0.5
    ensures aim - 0.5 * n <= y * n <= aim + 0.5 * n
  {
    TimesNonNegative(y - x + 0.5, n);
    TimesNonNegative(x - y + 0.5, n);
    assert (y - x + 0.5) * n == y * n - x * n + 0.5 * n;
    assert (x - y + 0.5) * n == x * n - y * n + 0.5 * n;
  }
}
