/** Total orders and Python's `sorted` on sets. */
module Orders {

  ghost predicate TotalOrder<T(!new)>(leq: (T, T) -> bool) {
    && (forall x, y :: leq(x, y) || leq(y, x))
    && (forall x, y :: leq(x, y) && leq(y, x) ==> x == y)
    && (forall x, y, z :: leq(x, y) && leq(y, z) ==> leq(x, z))
  }

  /** Code-point order on strings, as Python compares `str` values. */
  predicate StrLeq(a: string, b: string) {
    a == [] || (b != [] && (a[0] < b[0] || (a[0] == b[0] && StrLeq(a[1..], b[1..]))))
  }

  lemma {:induction false} StrLeqAntisymmetric(a: string, b: string)
    requires StrLeq(a, b) && StrLeq(b, a)
    ensures a == b
  {
    if a != [] {
      StrLeqAntisymmetric(a[1..], b[1..]);
      assert a == [a[0]] + a[1..] && b == [b[0]] + b[1..];
    }
  }

  lemma {:induction false} StrLeqTransitive(a: string, b: string, c: string)
    requires StrLeq(a, b) && StrLeq(b, c)
    ensures StrLeq(a, c)
  {
    if a != [] && a[0] == b[0] == c[0] {
      StrLeqTransitive(a[1..], b[1..], c[1..]);
    }
  }

  lemma {:induction false} StrLeqConnected(a: string, b: string)
    ensures StrLeq(a, b) || StrLeq(b, a)
  {
    if a != [] && b != [] && a[0] == b[0] {
      StrLeqConnected(a[1..], b[1..]);
    }
  }

  lemma StrLeqTotalOrder()
    ensures TotalOrder(StrLeq)
  {
    forall a, b ensures StrLeq(a, b) || StrLeq(b, a) { StrLeqConnected(a, b); }
    forall a, b | StrLeq(a, b) && StrLeq(b, a) ensures a == b { StrLeqAntisymmetric(a, b); }
    forall a, b, c | StrLeq(a, b) && StrLeq(b, c) ensures StrLeq(a, c) { StrLeqTransitive(a, b, c); }
  }

  /** The order is that of the first difference. */
  lemma {:induction false} LessAt(a: string, b: string, n: nat)
    requires n < |a| && n < |b| && a[..n] == b[..n] && a[n] < b[n]
    ensures StrLeq(a, b) && !StrLeq(b, a)
  {
    if n > 0 {
      assert a[..n][0] == a[0] && b[..n][0] == b[0];
      assert a[1..][..n - 1] == a[..n][1..] && b[1..][..n - 1] == b[..n][1..];
      LessAt(a[1..], b[1..], n - 1);
    }
  }

  lemma {:induction false} PrefixLeq(a: string, b: string)
    requires a <= b
    ensures StrLeq(a, b)
  {
    if a != [] {
      PrefixLeq(a[1..], b[1..]);
    }
  }

  lemma {:induction false} FirstDifference(a: string, b: string) returns (n: nat)
    ensures a <= b || b <= a || (n < |a| && n < |b| && a[..n] == b[..n] && a[n] != b[n])
  {
    n := 0;
    if a != [] && b != [] && a[0] == b[0] {
      n := FirstDifference(a[1..], b[1..]);
      n := n + 1;
      assert a == [a[0]] + a[1..] && b == [b[0]] + b[1..];
      assert n < |a| && n < |b| ==> a[..n] == [a[0]] + a[1..][..n - 1] && b[..n] == [b[0]] + b[1..][..n - 1];
    }
  }

  /** Strings compare as Python compares them: a prefix comes first, otherwise the first difference decides. */
  lemma StrLeqIff(a: string, b: string)
    ensures StrLeq(a, b) <==> a <= b || exists n :: 0 <= n < |a| && n < |b| && a[..n] == b[..n] && a[n] < b[n]
  {
    var n := FirstDifference(a, b);
    if a <= b {
      PrefixLeq(a, b);
    } else if b <= a {
      PrefixLeq(b, a);
      if StrLeq(a, b) { StrLeqAntisymmetric(a, b); }
    } else if a[n] < b[n] {
      LessAt(a, b, n);
    } else {
      LessAt(b, a, n);
    }
    forall m | 0 <= m < |a| && m < |b| && a[..m] == b[..m] && a[m] < b[m] ensures StrLeq(a, b) {
      LessAt(a, b, m);
    }
  }

  /** Strictly increasing: sorted and free of duplicates. */
  ghost predicate Increasing<T(!new)>(s: seq<T>, leq: (T, T) -> bool) {
    forall i, j :: 0 <= i < j < |s| ==> leq(s[i], s[j]) && s[i] != s[j]
  }

  predicate IsLeast<T(==,!new)>(m: T, s: set<T>, leq: (T, T) -> bool) {
    m in s && forall y :: y in s ==> leq(m, y)
  }

  lemma {:induction false} LeastExists<T(!new)>(s: set<T>, leq: (T, T) -> bool)
    requires TotalOrder(leq) && s != {}
    ensures exists m :: IsLeast(m, s, leq)
  {
    var x :| x in s;
    var rest := s - {x};
    if rest == {} {
      assert s == {x};
      assert IsLeast(x, s, leq);
    } else {
      LeastExists(rest, leq);
      var m :| IsLeast(m, rest, leq);
      if leq(x, m) {
        assert IsLeast(x, s, leq);
      } else {
        assert IsLeast(m, s, leq);
      }
    }
  }

  /** `sorted(s)` for a set. */
  function SortSet<T(==,!new)>(s: set<T>, leq: (T, T) -> bool): (r: seq<T>)
    requires TotalOrder(leq)
    ensures Increasing(r, leq)
    ensures forall x :: x in r <==> x in s
    ensures |r| == |s|
  {
    if s == {} then [] else
      LeastExists(s, leq);
      var m :| IsLeast(m, s, leq);
      [m] + SortSet(s - {m}, leq)
  }

  /** A strictly increasing sequence is determined by its elements. */
  lemma {:induction false} IncreasingUnique<T(!new)>(a: seq<T>, b: seq<T>, leq: (T, T) -> bool)
    requires TotalOrder(leq)
    requires Increasing(a, leq) && Increasing(b, leq)
    requires forall x :: x in a <==> x in b
    ensures a == b
  {
    assert Elements(a) == Elements(b);
    DistinctCount(a);
    DistinctCount(b);
    if a == [] {
    } else {
      assert a[0] in b;
      assert b[0] in a;
      assert a[0] == b[0];
      assert a == [a[0]] + a[1..] && b == [b[0]] + b[1..];
      forall x ensures x in a[1..] <==> x in b[1..] {
        assert x in a[1..] <==> x in a && x != a[0];
        assert x in b[1..] <==> x in b && x != b[0];
      }
      IncreasingUnique(a[1..], b[1..], leq);
      assert a == [a[0]] + a[1..] && b == [b[0]] + b[1..];
    }
  }

  /** `sorted(s)` for a set of strings. */
  function Sorted(s: set<string>): (r: seq<string>)
    ensures Increasing(r, StrLeq)
    ensures forall x :: x in r <==> x in s
    ensures |r| == |s|
  {
    StrLeqTotalOrder();
    SortSet(s, StrLeq)
  }

  lemma SortedUnique(r: seq<string>, s: set<string>)
    requires Increasing(r, StrLeq)
    requires forall x :: x in r <==> x in s
    ensures r == Sorted(s)
  {
    StrLeqTotalOrder();
    IncreasingUnique(r, Sorted(s), StrLeq);
  }

  function Elements<T>(s: seq<T>): set<T> {
    set x | x in s
  }

  ghost predicate NoDuplicates<T>(s: seq<T>) {
    forall i, j :: 0 <= i < j < |s| ==> s[i] != s[j]
  }

  function Reversed<T>(s: seq<T>): seq<T> {
    seq(|s|, i requires 0 <= i < |s| => s[|s| - 1 - i])
  }

  lemma {:induction false} DistinctCount<T>(s: seq<T>)
    requires NoDuplicates(s)
    ensures |Elements(s)| == |s|
  {
    if s != [] {
      DistinctCount(s[1..]);
      assert Elements(s) == Elements(s[1..]) + {s[0]};
    }
  }

  lemma ReversedElements<T>(s: seq<T>)
    ensures Elements(Reversed(s)) == Elements(s)
  {
    forall i | 0 <= i < |s| ensures s[i] in Elements(Reversed(s)) {
      assert Reversed(s)[|s| - 1 - i] == s[i];
    }
  }

  lemma ElementsSnoc<T>(s: seq<T>, x: T)
    ensures Elements(s + [x]) == Elements(s) + {x}
  {
  }

  lemma SortedElements(s: set<string>)
    ensures Elements(Sorted(s)) == s
  {
  }

  lemma SubsetCount<T>(a: set<T>, b: set<T>)
    requires a <= b
    ensures |a| <= |b|
    ensures a != b ==> |a| < |b|
  {
    assert b == a + (b - a);
    if a != b { assert b - a != {}; }
  }
}
