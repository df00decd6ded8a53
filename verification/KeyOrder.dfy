/** The default ordering of `Array.prototype.sort` on strings: a set of keys has exactly one sorted listing. */
module KeyOrder {
  import opened Prelude

  predicate Less(a: string, b: string) {
    b != "" && (a == "" || a[0] < b[0] || (a[0] == b[0] && Less(a[1..], b[1..])))
  }

  lemma {:induction false} LessTransitive(a: string, b: string, c: string)
    requires Less(a, b) && Less(b, c)
    ensures Less(a, c)
  {
    if a != "" && a[0] == b[0] == c[0] { LessTransitive(a[1..], b[1..], c[1..]); }
  }

  lemma {:induction false} LessTotal(a: string, b: string)
    ensures Less(a, b) || Less(b, a) || a == b
  {
    if a != "" && b != "" && a[0] == b[0] {
      LessTotal(a[1..], b[1..]);
      assert a == [a[0]] + a[1..] && b == [b[0]] + b[1..];
    }
  }

  lemma {:induction false} LessAsymmetric(a: string, b: string)
    requires Less(a, b)
    ensures !Less(b, a) && a != b
  {
    if a != "" && a[0] == b[0] { LessAsymmetric(a[1..], b[1..]); }
  }

  ghost predicate Increasing(s: seq<string>) {
    forall i, j :: 0 <= i < j < |s| ==> Less(s[i], s[j])
  }

  function Insert(s: seq<string>, k: string): seq<string> {
    if s == [] || Less(k, s[0]) then [k] + s else [s[0]] + Insert(s[1..], k)
  }

  function Sort(s: seq<string>): seq<string> {
    if s == [] then [] else Insert(Sort(s[1..]), s[0])
  }

  lemma {:induction false} InsertMembers(s: seq<string>, k: string, x: string)
    ensures x in Insert(s, k) <==> x in s || x == k
  {
    if s != [] {
      assert s == [s[0]] + s[1..];
      InsertMembers(s[1..], k, x);
    }
  }

  lemma {:induction false} InsertIncreasing(s: seq<string>, k: string)
    requires Increasing(s) && k !in s
    ensures Increasing(Insert(s, k))
  {
    if s == [] {
    } else if Less(k, s[0]) {
      forall j | 0 < j < |s| ensures Less(k, s[j]) { LessTransitive(k, s[0], s[j]); }
    } else {
      LessTotal(k, s[0]);
      assert s == [s[0]] + s[1..];
      InsertIncreasing(s[1..], k);
      var rest := Insert(s[1..], k);
      forall j | 0 <= j < |rest| ensures Less(s[0], rest[j]) { InsertMembers(s[1..], k, rest[j]); }
    }
  }

  lemma {:induction false} SortMembers(s: seq<string>, x: string)
    ensures x in Sort(s) <==> x in s
  {
    if s != [] {
      assert s == [s[0]] + s[1..];
      SortMembers(s[1..], x);
      InsertMembers(Sort(s[1..]), s[0], x);
    }
  }

  lemma {:induction false} SortIncreasing(s: seq<string>)
    requires Distinct(s)
    ensures Increasing(Sort(s))
  {
    if s != [] {
      SortIncreasing(s[1..]);
      SortMembers(s[1..], s[0]);
      InsertIncreasing(Sort(s[1..]), s[0]);
    }
  }

  lemma IncreasingHead(s: seq<string>, t: seq<string>)
    requires Increasing(s) && Increasing(t) && s != [] && t != []
    requires s[0] in t && t[0] in s
    ensures s[0] == t[0]
  {
    var i :| 0 <= i < |t| && t[i] == s[0];
    var j :| 0 <= j < |s| && s[j] == t[0];
    if i > 0 && j > 0 { LessAsymmetric(t[0], s[0]); }
  }

  lemma TailMembers(s: seq<string>, x: string)
    requires Increasing(s) && s != []
    ensures x in s[1..] <==> x in s && x != s[0]
  {
    assert s == [s[0]] + s[1..];
    if x in s[1..] { LessAsymmetric(s[0], x); }
  }

  /** Two increasing listings of the same keys are the same listing. */
  lemma {:induction false} IncreasingUnique(s: seq<string>, t: seq<string>)
    requires Increasing(s) && Increasing(t) && forall x :: x in s <==> x in t
    ensures s == t
  {
    assert t == [] || t[0] in t;
    if s != [] {
      assert s[0] in t;
      assert t[0] in s;
      IncreasingHead(s, t);
      forall x ensures x in s[1..] <==> x in t[1..] {
        TailMembers(s, x);
        TailMembers(t, x);
      }
      IncreasingUnique(s[1..], t[1..]);
      assert s == [s[0]] + s[1..] && t == [t[0]] + t[1..];
    }
  }
}
