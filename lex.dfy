/** Python's ordering of `str` values (code point by code point) and `list.sort()` on names. */
module Lex {

  /** `a <= b` on Python strings. */
  predicate Le(a: string, b: string)
    decreases |a|
  {
    a == [] || (b != [] && (a[0] < b[0] || (a[0] == b[0] && Le(a[1..], b[1..]))))
  }

  /** `a < b` on Python strings. */
  predicate Lt(a: string, b: string) {
    Le(a, b) && a != b
  }

  lemma {:induction false} LeRefl(a: string)
    ensures Le(a, a)
    decreases |a|
  {
    if a != [] { LeRefl(a[1..]); }
  }

  lemma {:induction false} LeAntisym(a: string, b: string)
    requires Le(a, b) && Le(b, a)
    ensures a == b
    decreases |a|
  {
    if a != [] {
      LeAntisym(a[1..], b[1..]);
      assert a == [a[0]] + a[1..] && b == [b[0]] + b[1..];
    }
  }

  lemma {:induction false} LeTrans(a: string, b: string, c: string)
    requires Le(a, b) && Le(b, c)
    ensures Le(a, c)
    decreases |a|
  {
    if a != [] && a[0] == b[0] && b[0] == c[0] {
      LeTrans(a[1..], b[1..], c[1..]);
    }
  }

  lemma {:induction false} LeTotal(a: string, b: string)
    ensures Le(a, b) || Le(b, a)
    decreases |a|
  {
    if a != [] && b != [] && a[0] == b[0] {
      LeTotal(a[1..], b[1..]);
    }
  }

  /** Comparing behind a common prefix is comparing what follows it. */
  lemma {:induction false} LeCommonPrefix(p: string, a: string, b: string)
    ensures Le(p + a, p + b) <==> Le(a, b)
    decreases |p|
  {
    if p == [] {
      assert p + a == a && p + b == b;
    } else {
      assert (p + a)[1..] == p[1..] + a;
      assert (p + b)[1..] == p[1..] + b;
      LeCommonPrefix(p[1..], a, b);
    }
  }

  /** For equal-length heads, the order is decided by the heads and, on a tie, by the tails. */
  lemma {:induction false} LeConcat(a1: string, a2: string, b1: string, b2: string)
    requires |a1| == |b1|
    ensures Le(a1 + a2, b1 + b2) <==> Lt(a1, b1) || (a1 == b1 && Le(a2, b2))
    decreases |a1|
  {
    if a1 == [] {
      assert a1 + a2 == a2 && b1 + b2 == b2;
    } else {
      assert (a1 + a2)[1..] == a1[1..] + a2;
      assert (b1 + b2)[1..] == b1[1..] + b2;
      LeConcat(a1[1..], a2, b1[1..], b2);
      if a1[0] == b1[0] {
        assert a1 == b1 <==> a1[1..] == b1[1..] by {
          assert a1 == [a1[0]] + a1[1..] && b1 == [b1[0]] + b1[1..];
        }
      }
    }
  }

  predicate SortedAsc(s: seq<string>) {
    forall i, j :: 0 <= i < j < |s| ==> Le(s[i], s[j])
  }

  predicate SortedDesc(s: seq<string>) {
    forall i, j :: 0 <= i < j < |s| ==> Le(s[j], s[i])
  }

  predicate Distinct<T(==)>(s: seq<T>) {
    forall i, j :: 0 <= i < j < |s| ==> s[i] != s[j]
  }

  function Insert(x: string, s: seq<string>): seq<string> {
    if s == [] then [x] else if Le(x, s[0]) then [x] + s else [s[0]] + Insert(x, s[1..])
  }

  /** `sorted(s)`: insertion sort in ascending order. */
  function Sort(s: seq<string>): seq<string> {
    if s == [] then [] else Insert(s[0], Sort(s[1..]))
  }

  function InsertDesc(x: string, s: seq<string>): seq<string> {
    if s == [] then [x] else if Le(s[0], x) then [x] + s else [s[0]] + InsertDesc(x, s[1..])
  }

  /** `sorted(s, reverse=True)`: insertion sort in descending order. */
  function SortDesc(s: seq<string>): seq<string> {
    if s == [] then [] else InsertDesc(s[0], SortDesc(s[1..]))
  }

  function Reverse<T>(s: seq<T>): (r: seq<T>)
    ensures |r| == |s|
    ensures forall i :: 0 <= i < |s| ==> r[i] == s[|s| - 1 - i]
  {
    if s == [] then [] else Reverse(s[1..]) + [s[0]]
  }

  lemma {:induction false} InsertPerm(x: string, s: seq<string>)
    ensures multiset(Insert(x, s)) == multiset(s) + multiset{x}
  {
    if s != [] && !Le(x, s[0]) {
      InsertPerm(x, s[1..]);
      assert s == [s[0]] + s[1..];
    }
  }

  lemma {:induction false} InsertDescPerm(x: string, s: seq<string>)
    ensures multiset(InsertDesc(x, s)) == multiset(s) + multiset{x}
  {
    if s != [] && !Le(s[0], x) {
      InsertDescPerm(x, s[1..]);
      assert s == [s[0]] + s[1..];
    }
  }

  /** The head of an ascending sequence is below every element. */
  lemma SortedHeadLe(s: seq<string>, y: string)
    requires SortedAsc(s) && y in s
    ensures Le(s[0], y)
  {
    var k :| 0 <= k < |s| && s[k] == y;
    if k == 0 { LeRefl(y); }
  }

  lemma SortedDescHeadGe(s: seq<string>, y: string)
    requires SortedDesc(s) && y in s
    ensures Le(y, s[0])
  {
    var k :| 0 <= k < |s| && s[k] == y;
    if k == 0 { LeRefl(y); }
  }

  lemma {:induction false} InsertProps(x: string, s: seq<string>)
    requires SortedAsc(s)
    ensures SortedAsc(Insert(x, s))
    ensures multiset(Insert(x, s)) == multiset(s) + multiset{x}
  {
    InsertPerm(x, s);
    if s != [] {
      if Le(x, s[0]) {
        forall j | 0 < j < |s| + 1 ensures Le(x, ([x] + s)[j]) {
          if j > 1 { LeTrans(x, s[0], s[j - 1]); }
        }
      } else {
        LeTotal(x, s[0]);
        InsertProps(x, s[1..]);
        InsertBehindHead(x, s);
      }
    }
  }

  lemma InsertBehindHead(x: string, s: seq<string>)
    requires SortedAsc(s) && s != [] && Le(s[0], x)
    requires SortedAsc(Insert(x, s[1..]))
    requires multiset(Insert(x, s[1..])) == multiset(s[1..]) + multiset{x}
    ensures SortedAsc([s[0]] + Insert(x, s[1..]))
  {
    var t := Insert(x, s[1..]);
    forall y | y in t ensures Le(s[0], y) {
      assert y in multiset(t);
      if y != x {
        assert y in s;
        SortedHeadLe(s, y);
      }
    }
    var r := [s[0]] + t;
    forall i, j | 0 <= i < j < |r| ensures Le(r[i], r[j]) {
      if i == 0 { assert r[j] in t; }
    }
  }

  lemma {:induction false} InsertDescProps(x: string, s: seq<string>)
    requires SortedDesc(s)
    ensures SortedDesc(InsertDesc(x, s))
    ensures multiset(InsertDesc(x, s)) == multiset(s) + multiset{x}
  {
    InsertDescPerm(x, s);
    if s != [] {
      if Le(s[0], x) {
        forall j | 0 < j < |s| + 1 ensures Le(([x] + s)[j], x) {
          if j > 1 { LeTrans(s[j - 1], s[0], x); }
        }
      } else {
        LeTotal(x, s[0]);
        InsertDescProps(x, s[1..]);
        var t := InsertDesc(x, s[1..]);
        forall y | y in t ensures Le(y, s[0]) {
          assert y in multiset(t);
          if y != x {
            assert y in s;
            SortedDescHeadGe(s, y);
          }
        }
        var r := [s[0]] + t;
        forall i, j | 0 <= i < j < |r| ensures Le(r[j], r[i]) {
          if i == 0 { assert r[j] in t; }
        }
      }
    }
  }

  /** `sorted` returns an ascending permutation of its input. */
  lemma {:induction false} SortProps(s: seq<string>)
    ensures SortedAsc(Sort(s))
    ensures multiset(Sort(s)) == multiset(s)
  {
    if s != [] {
      SortProps(s[1..]);
      InsertProps(s[0], Sort(s[1..]));
      assert s == [s[0]] + s[1..];
    }
  }

  /** `sorted(..., reverse=True)` returns a descending permutation of its input. */
  lemma {:induction false} SortDescProps(s: seq<string>)
    ensures SortedDesc(SortDesc(s))
    ensures multiset(SortDesc(s)) == multiset(s)
  {
    if s != [] {
      SortDescProps(s[1..]);
      InsertDescProps(s[0], SortDesc(s[1..]));
      assert s == [s[0]] + s[1..];
    }
  }

  lemma MultisetTail(s: seq<string>)
    requires s != []
    ensures multiset(s[1..]) == multiset(s) - multiset{s[0]}
    ensures s[0] in multiset(s)
  {
    assert s == [s[0]] + s[1..];
  }

  /** There is only one ascending arrangement of a multiset of names. */
  lemma {:induction false} SortedUnique(a: seq<string>, b: seq<string>)
    requires SortedAsc(a) && SortedAsc(b)
    requires multiset(a) == multiset(b)
    ensures a == b
    decreases |a|
  {
    assert |b| == |a| by { assert |multiset(a)| == |multiset(b)|; }
    if a != [] {
      SameHead(a, b);
      MultisetTail(a);
      MultisetTail(b);
      SortedTail(a);
      SortedTail(b);
      SortedUnique(a[1..], b[1..]);
      forall i | 0 <= i < |a| ensures a[i] == b[i] {
        if i > 0 { assert a[i] == a[1..][i - 1] && b[i] == b[1..][i - 1]; }
      }
    }
  }

  lemma SortedTail(a: seq<string>)
    requires SortedAsc(a) && a != []
    ensures SortedAsc(a[1..])
  {
    forall i, j | 0 <= i < j < |a| - 1 ensures Le(a[1..][i], a[1..][j]) {
      assert a[1..][i] == a[i + 1] && a[1..][j] == a[j + 1];
    }
  }

  /** Two ascending arrangements of the same names start alike. */
  lemma SameHead(a: seq<string>, b: seq<string>)
    requires SortedAsc(a) && SortedAsc(b) && a != [] && |b| == |a|
    requires multiset(a) == multiset(b)
    ensures a[0] == b[0]
  {
    MultisetTail(a);
    MultisetTail(b);
    assert a[0] in b && b[0] in a;
    SortedHeadLe(b, a[0]);
    SortedHeadLe(a, b[0]);
    LeAntisym(a[0], b[0]);
  }

  lemma {:induction false} ReverseMultiset<T>(s: seq<T>)
    ensures multiset(Reverse(s)) == multiset(s)
  {
    if s != [] {
      ReverseMultiset(s[1..]);
      assert s == [s[0]] + s[1..];
    }
  }

  lemma ReverseDescIsAsc(d: seq<string>)
    requires SortedDesc(d)
    ensures SortedAsc(Reverse(d))
  {
    var rd := Reverse(d);
    forall i, j | 0 <= i < j < |rd| ensures Le(rd[i], rd[j]) {
      assert rd[i] == d[|d| - 1 - i] && rd[j] == d[|d| - 1 - j];
    }
  }

  lemma ReverseTwice<T>(s: seq<T>)
    ensures Reverse(Reverse(s)) == s
  {
    var r := Reverse(Reverse(s));
    forall i | 0 <= i < |s| ensures r[i] == s[i] {
      assert r[i] == Reverse(s)[|s| - 1 - i];
    }
  }

  /** Sorting in reverse yields the ascending order read backwards. */
  lemma SortDescIsReversedSort(s: seq<string>)
    ensures SortDesc(s) == Reverse(Sort(s))
  {
    var d := SortDesc(s);
    SortDescProps(s);
    SortProps(s);
    ReverseMultiset(d);
    ReverseDescIsAsc(d);
    SortedUnique(Reverse(d), Sort(s));
    ReverseTwice(d);
  }

  /** Sorting keeps names apart that were apart. */
  lemma {:induction false} InsertDistinct(x: string, s: seq<string>)
    requires Distinct(s) && x !in s
    ensures Distinct(Insert(x, s))
    ensures forall y :: y in Insert(x, s) <==> y == x || y in s
  {
    if s == [] {
    } else if Le(x, s[0]) {
      assert Insert(x, s) == [x] + s;
    } else {
      InsertDistinct(x, s[1..]);
      var t := Insert(x, s[1..]);
      assert s[0] !in s[1..] by {
        forall k | 0 <= k < |s[1..]| ensures s[1..][k] != s[0] {
          assert s[1..][k] == s[k + 1];
        }
      }
      assert s[0] != x;
      assert s[0] !in t;
      var r := [s[0]] + t;
      forall i, j | 0 <= i < j < |r| ensures r[i] != r[j] {
        if i == 0 { assert r[j] in t; }
      }
      assert forall y :: y in s <==> y == s[0] || y in s[1..];
    }
  }

  lemma {:induction false} SortDistinct(s: seq<string>)
    requires Distinct(s)
    ensures Distinct(Sort(s))
    ensures forall y :: y in Sort(s) <==> y in s
  {
    if s != [] {
      SortDistinct(s[1..]);
      InsertDistinct(s[0], Sort(s[1..]));
    }
  }

  /** Ascending and duplicate-free means strictly ascending. */
  lemma StrictlyAscending(s: seq<string>, i: int, j: int)
    requires SortedAsc(s) && Distinct(s)
    requires 0 <= i < j < |s|
    ensures Lt(s[i], s[j])
  {
  }

  lemma HeadIn(b: seq<string>)
    requires b != []
    ensures b[0] in b
  {
  }

  /** Two duplicate-free ascending sequences with the same elements are equal. */
  lemma {:induction false} SortedSetUnique(a: seq<string>, b: seq<string>)
    requires SortedAsc(a) && SortedAsc(b) && Distinct(a) && Distinct(b)
    requires forall x :: x in a <==> x in b
    ensures a == b
    decreases |a|
  {
    if a == [] {
      if b != [] {
        HeadIn(b);
        assert false;
      }
    } else {
      assert a[0] in b && b[0] in a;
      SortedHeadLe(b, a[0]);
      SortedHeadLe(a, b[0]);
      LeAntisym(a[0], b[0]);
      assert a == [a[0]] + a[1..] && b == [b[0]] + b[1..];
      forall x ensures x in a[1..] <==> x in b[1..] {
        assert a[0] !in a[1..];
        assert b[0] !in b[1..];
        assert x in a <==> x == a[0] || x in a[1..];
        assert x in b <==> x == b[0] || x in b[1..];
      }
      SortedSetUnique(a[1..], b[1..]);
      assert a == [a[0]] + a[1..] && b == [b[0]] + b[1..];
    }
  }
}
