/**
 * Python's ordering of strings (by code point, a proper prefix first) and
 * of pairs of strings (by the first component, then the second), and
 * `list.sort()` on a list of such pairs.
 */
module PairOrder {

  /** `a <= b` on Python strings. */
  predicate StrLe(a: string, b: string)
    decreases |a|
  {
    |a| == 0 || (|b| > 0 && (a[0] < b[0] || (a[0] == b[0] && StrLe(a[1..], b[1..]))))
  }

  lemma {:induction false} StrLeReflexive(a: string)
    ensures StrLe(a, a)
    decreases |a|
  {
    if |a| > 0 {
      StrLeReflexive(a[1..]);
    }
  }

  lemma {:induction false} StrLeTotal(a: string, b: string)
    ensures StrLe(a, b) || StrLe(b, a)
    decreases |a|
  {
    if |a| > 0 && |b| > 0 && a[0] == b[0] {
      StrLeTotal(a[1..], b[1..]);
    }
  }

  lemma {:induction false} StrLeAntisymmetric(a: string, b: string)
    requires StrLe(a, b) && StrLe(b, a)
    ensures a == b
    decreases |a|
  {
    if |a| > 0 {
      StrLeAntisymmetric(a[1..], b[1..]);
      assert a == [a[0]] + a[1..] && b == [b[0]] + b[1..];
    }
  }

  lemma {:induction false} StrLeTransitive(a: string, b: string, c: string)
    requires StrLe(a, b) && StrLe(b, c)
    ensures StrLe(a, c)
    decreases |a|
  {
    if |a| > 0 && a[0] == b[0] && b[0] == c[0] {
      StrLeTransitive(a[1..], b[1..], c[1..]);
    }
  }

  /** `p <= q` on pairs of strings. */
  predicate PairLe(p: (string, string), q: (string, string))
  {
    (StrLe(p.0, q.0) && p.0 != q.0) || (p.0 == q.0 && StrLe(p.1, q.1))
  }

  lemma PairLeTotal(p: (string, string), q: (string, string))
    ensures PairLe(p, q) || PairLe(q, p)
  {
    StrLeTotal(p.0, q.0);
    StrLeTotal(p.1, q.1);
  }

  lemma PairLeAntisymmetric(p: (string, string), q: (string, string))
    requires PairLe(p, q) && PairLe(q, p)
    ensures p == q
  {
    if p.0 != q.0 {
      StrLeAntisymmetric(p.0, q.0);
    } else {
      StrLeAntisymmetric(p.1, q.1);
    }
  }

  lemma PairLeTransitive(p: (string, string), q: (string, string), r: (string, string))
    requires PairLe(p, q) && PairLe(q, r)
    ensures PairLe(p, r)
  {
    if p.0 == q.0 && q.0 == r.0 {
      StrLeTransitive(p.1, q.1, r.1);
    } else {
      StrLeReflexive(p.0);
      StrLeReflexive(q.0);
      StrLeTransitive(p.0, q.0, r.0);
      if p.0 == r.0 {
        StrLeAntisymmetric(p.0, q.0);
      }
    }
  }

  /** Each pair is no greater than the next. */
  predicate Sorted(s: seq<(string, string)>)
  {
    forall i :: 0 < i < |s| ==> PairLe(s[i - 1], s[i])
  }

  /** `x` placed before the first element it does not exceed. */
  function Insert(x: (string, string), s: seq<(string, string)>): (r: seq<(string, string)>)
    requires Sorted(s)
    ensures Sorted(r) && multiset(r) == multiset(s) + multiset{x}
    ensures |r| == |s| + 1 && (r[0] == x || (|s| > 0 && r[0] == s[0]))
    decreases |s|
  {
    if s == [] then [x]
    else if PairLe(x, s[0]) then [x] + s
    else
      PairLeTotal(x, s[0]);
      var rest := Insert(x, s[1..]);
      assert s == [s[0]] + s[1..];
      [s[0]] + rest
  }

  /** `list.sort()`: the pairs in ascending order. */
  function SortPairs(s: seq<(string, string)>): (r: seq<(string, string)>)
    ensures Sorted(r) && multiset(r) == multiset(s) && |r| == |s|
    decreases |s|
  {
    if s == [] then []
    else
      var rest := SortPairs(s[..|s| - 1]);
      assert s == s[..|s| - 1] + [s[|s| - 1]];
      Insert(s[|s| - 1], rest)
  }

  lemma {:induction false} SortedAll(s: seq<(string, string)>, i: int, j: int)
    requires Sorted(s) && 0 <= i <= j < |s|
    ensures PairLe(s[i], s[j])
    decreases j - i
  {
    if i == j {
      StrLeReflexive(s[i].1);
    } else {
      SortedAll(s, i, j - 1);
      PairLeTransitive(s[i], s[j - 1], s[j]);
    }
  }

  lemma TailSorted(s: seq<(string, string)>)
    requires Sorted(s) && |s| > 0
    ensures Sorted(s[1..])
  {
    forall i | 0 < i < |s| - 1 ensures PairLe(s[1..][i - 1], s[1..][i]) {
      assert s[1..][i - 1] == s[i] && s[1..][i] == s[i + 1];
    }
  }

  lemma TailMultiset(s: seq<(string, string)>)
    requires |s| > 0
    ensures multiset(s[1..]) == multiset(s) - multiset{s[0]}
  {
    assert s == [s[0]] + s[1..];
  }

  /** A sorted list starts with its least element. */
  lemma HeadIsLeast(s: seq<(string, string)>, x: (string, string))
    requires Sorted(s) && x in multiset(s)
    ensures PairLe(s[0], x)
  {
    var k :| 0 <= k < |s| && s[k] == x;
    SortedAll(s, 0, k);
  }

  /**
   * The order is total and antisymmetric, so there is only one sorted
   * arrangement of a list: whatever algorithm sorts it gives `SortPairs`.
   */
  lemma {:induction false} SortedPermutationUnique(a: seq<(string, string)>, b: seq<(string, string)>)
    requires Sorted(a) && Sorted(b) && multiset(a) == multiset(b)
    ensures a == b
    decreases |a|
  {
    assert |a| == |multiset(a)| == |multiset(b)| == |b|;
    if a != [] {
      assert a[0] in multiset(a) && b[0] in multiset(b);
      HeadIsLeast(b, a[0]);
      HeadIsLeast(a, b[0]);
      PairLeAntisymmetric(a[0], b[0]);
      TailMultiset(a);
      TailMultiset(b);
      TailSorted(a);
      TailSorted(b);
      SortedPermutationUnique(a[1..], b[1..]);
      assert a == [a[0]] + a[1..] && b == [b[0]] + b[1..];
    }
  }
}
