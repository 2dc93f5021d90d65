/** Total orders, sorting by insertion, and the lexicographic order that string and
    list comparison use. */
module Ordering {

  ghost predicate TotalOrder<T(!new)>(le: (T, T) -> bool) {
    && (forall x :: le(x, x))
    && (forall x, y :: le(x, y) || le(y, x))
    && (forall x, y :: le(x, y) && le(y, x) ==> x == y)
    && (forall x, y, z :: le(x, y) && le(y, z) ==> le(x, z))
  }

  function Range<T>(s: seq<T>): set<T> {
    set x | x in s
  }

  /** Strictly increasing, hence without duplicates. */
  ghost predicate Ascending<T(!new)>(le: (T, T) -> bool, s: seq<T>) {
    forall i, j :: 0 <= i < j < |s| ==> le(s[i], s[j]) && s[i] != s[j]
  }

  predicate LexLe<T(==)>(le: (T, T) -> bool, a: seq<T>, b: seq<T>) {
    if a == [] then true
    else if b == [] then false
    else if a[0] == b[0] then LexLe(le, a[1..], b[1..])
    else le(a[0], b[0])
  }

  predicate CharLe(c: char, d: char) {
    c <= d
  }

  predicate StringLe(a: string, b: string) {
    LexLe(CharLe, a, b)
  }

  predicate ListLe(a: seq<string>, b: seq<string>) {
    LexLe(StringLe, a, b)
  }

  lemma {:induction false} LexRefl<T(!new)>(le: (T, T) -> bool, a: seq<T>)
    ensures LexLe(le, a, a)
  {
    if a != [] {
      LexRefl(le, a[1..]);
    }
  }

  lemma {:induction false} LexTotalAntisym<T(!new)>(le: (T, T) -> bool, a: seq<T>, b: seq<T>)
    requires TotalOrder(le)
    ensures LexLe(le, a, b) || LexLe(le, b, a)
    ensures LexLe(le, a, b) && LexLe(le, b, a) ==> a == b
  {
    if a != [] && b != [] {
      assert a == [a[0]] + a[1..] && b == [b[0]] + b[1..];
      if a[0] == b[0] {
        LexTotalAntisym(le, a[1..], b[1..]);
      }
    }
  }

  lemma {:induction false} LexTrans<T(!new)>(le: (T, T) -> bool, a: seq<T>, b: seq<T>, c: seq<T>)
    requires TotalOrder(le)
    requires LexLe(le, a, b) && LexLe(le, b, c)
    ensures LexLe(le, a, c)
  {
    if a != [] && b != [] && c != [] && a[0] == b[0] == c[0] {
      LexTrans(le, a[1..], b[1..], c[1..]);
    }
  }

  lemma StringOrder()
    ensures TotalOrder(StringLe)
  {
    forall x | true ensures StringLe(x, x) { LexRefl(CharLe, x); }
    forall x, y | true
      ensures StringLe(x, y) || StringLe(y, x)
      ensures StringLe(x, y) && StringLe(y, x) ==> x == y
    { LexTotalAntisym(CharLe, x, y); }
    forall x, y, z | StringLe(x, y) && StringLe(y, z) ensures StringLe(x, z) { LexTrans(CharLe, x, y, z); }
  }

  lemma ListOrder()
    ensures TotalOrder(ListLe)
  {
    StringOrder();
    forall x | true ensures ListLe(x, x) { LexRefl(StringLe, x); }
    forall x, y | true
      ensures ListLe(x, y) || ListLe(y, x)
      ensures ListLe(x, y) && ListLe(y, x) ==> x == y
    { LexTotalAntisym(StringLe, x, y); }
    forall x, y, z | ListLe(x, y) && ListLe(y, z) ensures ListLe(x, z) { LexTrans(StringLe, x, y, z); }
  }

  /** Insert x into an ascending list that does not hold it. */
  method InsertInto<T(==, !new)>(le: (T, T) -> bool, s: seq<T>, x: T) returns (r: seq<T>)
    requires TotalOrder(le) && Ascending(le, s) && x !in s
    ensures Ascending(le, r)
    ensures forall y :: y in r <==> y in s || y == x
    ensures |r| == |s| + 1
  {
    var k := 0;
    while k < |s| && le(s[k], x)
      invariant 0 <= k <= |s|
      invariant forall i :: 0 <= i < k ==> le(s[i], x)
    {
      k := k + 1;
    }
    r := s[..k] + [x] + s[k..];
    forall i, j | 0 <= i < j < |r| ensures le(r[i], r[j]) && r[i] != r[j] {
      if i == k {
        assert r[j] == s[j - 1] && le(x, s[k]) && (s[k] == s[j - 1] || le(s[k], s[j - 1]));
      } else if j == k {
        assert r[i] == s[i];
      }
    }
    assert s == s[..k] + s[k..];
  }

  /** Python's `sorted` on a set: the elements, each once, in increasing order. */
  method SortSet<T(==, !new)>(le: (T, T) -> bool, s: set<T>) returns (r: seq<T>)
    requires TotalOrder(le)
    ensures Ascending(le, r) && Range(r) == s && |r| == |s|
  {
    r := [];
    var rest := s;
    while rest != {}
      invariant rest <= s && Ascending(le, r) && |r| + |rest| == |s|
      invariant forall y :: y in r <==> y in s && y !in rest
      decreases rest
    {
      var x :| x in rest;
      r := InsertInto(le, r, x);
      rest := rest - {x};
    }
  }

  method SortStrings(s: set<string>) returns (r: seq<string>)
    ensures Ascending(StringLe, r) && Range(r) == s && |r| == |s|
  {
    StringOrder();
    r := SortSet(StringLe, s);
  }

  method SortLists(s: set<seq<string>>) returns (r: seq<seq<string>>)
    ensures Ascending(ListLe, r) && Range(r) == s && |r| == |s|
  {
    ListOrder();
    r := SortSet(ListLe, s);
  }

  /** Every element of a list without duplicates, once. */
  lemma {:induction false} DistinctSize<T(!new)>(s: seq<T>)
    requires forall i, j :: 0 <= i < j < |s| ==> s[i] != s[j]
    ensures |Range(s)| == |s|
  {
    if s != [] {
      var n := |s| - 1;
      DistinctSize(s[..n]);
      assert s == s[..n] + [s[n]];
      assert Range(s) == Range(s[..n]) + {s[n]};
    }
  }

  /** An ascending list is determined by its elements. */
  lemma {:induction false} AscendingUnique<T(!new)>(le: (T, T) -> bool, a: seq<T>, b: seq<T>)
    requires TotalOrder(le) && Ascending(le, a) && Ascending(le, b)
    requires forall x :: x in a <==> x in b
    ensures a == b
  {
    assert forall i :: 0 <= i < |a| ==> a[i] in b;
    assert forall i :: 0 <= i < |b| ==> b[i] in a;
    if a != [] && b != [] {
      assert a == [a[0]] + a[1..] && b == [b[0]] + b[1..];
      forall x ensures x in a[1..] <==> x in b[1..] {
        assert x in a[1..] ==> x in a && x != a[0];
        assert x in b[1..] ==> x in b && x != b[0];
      }
      AscendingUnique(le, a[1..], b[1..]);
    }
  }
}
