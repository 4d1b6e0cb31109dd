/** Orders on text and on numbers, and the arrangements they induce.

    Python compares strings, and SQLite's default BINARY collation compares
    TEXT, code point by code point with a prefix first; SQLite keeps a rowid
    table and a primary-key index in the order of their keys. Sorting a
    sequence of records by one column (`SortBy`) is what `list.sort` does to
    a list of names and what an index scan does to the rows it visits. */
module Order {

  // ---------------------------------------------------------------------
  // The order on text

  /** `a <= b` on strings: lexicographic on code points, a prefix coming
      first. */
  predicate NotAfter(a: string, b: string)
    decreases |a|
  {
    |a| == 0 || (|b| > 0 && (a[0] < b[0] || (a[0] == b[0] && NotAfter(a[1..], b[1..]))))
  }

  lemma {:induction false} NotAfterReflexive(a: string)
    ensures NotAfter(a, a)
    decreases |a|
  {
    if |a| > 0 {
      NotAfterReflexive(a[1..]);
    }
  }

  /** Any two strings are comparable. */
  lemma {:induction false} NotAfterTotal(a: string, b: string)
    ensures NotAfter(a, b) || NotAfter(b, a)
    decreases |a|
  {
    if |a| > 0 && |b| > 0 && a[0] == b[0] {
      NotAfterTotal(a[1..], b[1..]);
    }
  }

  lemma {:induction false} NotAfterTransitive(a: string, b: string, c: string)
    requires NotAfter(a, b) && NotAfter(b, c)
    ensures NotAfter(a, c)
    decreases |a|
  {
    if |a| > 0 && a[0] == b[0] && b[0] == c[0] {
      NotAfterTransitive(a[1..], b[1..], c[1..]);
    }
  }

  /** Two strings each not after the other are the same string. */
  lemma {:induction false} NotAfterAntisymmetric(a: string, b: string)
    requires NotAfter(a, b) && NotAfter(b, a)
    ensures a == b
    decreases |a|
  {
    if |a| > 0 {
      NotAfterAntisymmetric(a[1..], b[1..]);
      assert a == [a[0]] + a[1..] && b == [b[0]] + b[1..];
    }
  }

  // ---------------------------------------------------------------------
  // Arranging records by a text column

  /** The elements come in the order of their `key` column. */
  predicate SortedBy<T>(s: seq<T>, key: T -> string) {
    forall i, j :: 0 <= i < j < |s| ==> NotAfter(key(s[i]), key(s[j]))
  }

  /** No two distinct elements share a `key`: the column identifies them. */
  predicate KeyIdentifies<T(==)>(s: seq<T>, key: T -> string) {
    forall x, y :: x in s && y in s && key(x) == key(y) ==> x == y
  }

  /** Inserts `x` before the first element whose key it is not after. */
  function InsertBy<T>(x: T, s: seq<T>, key: T -> string): seq<T> {
    if s == [] then [x]
    else if NotAfter(key(x), key(s[0])) then [x] + s
    else [s[0]] + InsertBy(x, s[1..], key)
  }

  /** The arrangement of `s` in the order of its `key` column. */
  function SortBy<T>(s: seq<T>, key: T -> string): seq<T> {
    if s == [] then [] else InsertBy(s[0], SortBy(s[1..], key), key)
  }

  /** Insertion adds `x` and keeps every element. */
  lemma {:induction false} InsertByPermutes<T>(x: T, s: seq<T>, key: T -> string)
    ensures multiset(InsertBy(x, s, key)) == multiset(s) + multiset{x}
  {
    if s != [] && !NotAfter(key(x), key(s[0])) {
      InsertByPermutes(x, s[1..], key);
      assert s == [s[0]] + s[1..];
    }
  }

  /** Insertion puts `x` somewhere among the elements, which keep their
      order. */
  lemma {:induction false} InsertBySplits<T>(x: T, s: seq<T>, key: T -> string)
    ensures exists k :: 0 <= k <= |s| && InsertBy(x, s, key) == s[..k] + [x] + s[k..]
  {
    if s == [] {
      assert InsertBy(x, s, key) == s[..0] + [x] + s[0..];
    } else if NotAfter(key(x), key(s[0])) {
      assert InsertBy(x, s, key) == s[..0] + [x] + s[0..];
    } else {
      InsertBySplits(x, s[1..], key);
      var k :| 0 <= k <= |s[1..]| && InsertBy(x, s[1..], key) == s[1..][..k] + [x] + s[1..][k..];
      assert s[..k + 1] == [s[0]] + s[1..][..k];
      assert s[k + 1..] == s[1..][k..];
      assert InsertBy(x, s, key) == s[..k + 1] + [x] + s[k + 1..];
    }
  }

  lemma {:induction false} InsertByKeepsSorted<T>(x: T, s: seq<T>, key: T -> string)
    requires SortedBy(s, key)
    ensures SortedBy(InsertBy(x, s, key), key)
  {
    if s == [] {
    } else if NotAfter(key(x), key(s[0])) {
      SortedByCons(x, s, key);
    } else {
      NotAfterTotal(key(x), key(s[0]));
      InsertByKeepsSorted(x, s[1..], key);
      SortedByHead(s, key);
      InsertByMembers(x, s[1..], key);
      assert s == [s[0]] + s[1..];
      SortedByPrepend(s[0], InsertBy(x, s[1..], key), key);
    }
  }

  /** An element whose key is not after the head's may precede a sorted
      sequence. */
  lemma SortedByCons<T>(x: T, s: seq<T>, key: T -> string)
    requires SortedBy(s, key) && s != [] && NotAfter(key(x), key(s[0]))
    ensures SortedBy([x] + s, key)
  {
    var r := [x] + s;
    forall i, j | 0 <= i < j < |r|
      ensures NotAfter(key(r[i]), key(r[j]))
    {
      if i == 0 && j > 1 {
        NotAfterTransitive(key(x), key(s[0]), key(s[j - 1]));
      }
    }
  }

  /** An element whose key is not after any other may precede a sorted
      sequence. */
  lemma SortedByPrepend<T>(h: T, t: seq<T>, key: T -> string)
    requires SortedBy(t, key) && forall y :: y in t ==> NotAfter(key(h), key(y))
    ensures SortedBy([h] + t, key)
  {
    var r := [h] + t;
    forall i, j | 0 <= i < j < |r|
      ensures NotAfter(key(r[i]), key(r[j]))
    {
      if i == 0 {
        assert r[j] == t[j - 1] && t[j - 1] in t;
      } else {
        assert r[i] == t[i - 1] && r[j] == t[j - 1];
      }
    }
  }

  /** Insertion brings in no element other than `x`. */
  lemma {:induction false} InsertByMembers<T>(x: T, s: seq<T>, key: T -> string)
    ensures forall y :: y in InsertBy(x, s, key) ==> y == x || y in s
  {
    if s != [] && !NotAfter(key(x), key(s[0])) {
      InsertByMembers(x, s[1..], key);
      assert s == [s[0]] + s[1..];
    }
  }

  /** The arrangement is in key order and holds exactly the elements of its
      input. */
  lemma {:induction false} SortByIsSortedPermutation<T>(s: seq<T>, key: T -> string)
    ensures SortedBy(SortBy(s, key), key)
    ensures multiset(SortBy(s, key)) == multiset(s)
  {
    if s != [] {
      SortByIsSortedPermutation(s[1..], key);
      InsertByKeepsSorted(s[0], SortBy(s[1..], key), key);
      InsertByPermutes(s[0], SortBy(s[1..], key), key);
      assert s == [s[0]] + s[1..];
    }
  }

  /** The head of a sorted sequence has the least key, and the rest is
      sorted. */
  lemma SortedByHead<T>(a: seq<T>, key: T -> string)
    requires SortedBy(a, key) && a != []
    ensures SortedBy(a[1..], key)
    ensures forall x :: x in a ==> NotAfter(key(a[0]), key(x))
  {
    NotAfterReflexive(key(a[0]));
    forall x | x in a
      ensures NotAfter(key(a[0]), key(x))
    {
      var i :| 0 <= i < |a| && a[i] == x;
    }
    forall i, j | 0 <= i < j < |a[1..]|
      ensures NotAfter(key(a[1..][i]), key(a[1..][j]))
    {
      assert a[1..][i] == a[i + 1] && a[1..][j] == a[j + 1];
    }
  }

  /** When the column identifies the elements, only one arrangement of
      them is in key order: whatever algorithm produces it, the result is
      `SortBy`. */
  lemma {:induction false} SortedByIsUnique<T>(a: seq<T>, b: seq<T>, key: T -> string)
    requires SortedBy(a, key) && SortedBy(b, key) && multiset(a) == multiset(b)
    requires KeyIdentifies(a, key)
    ensures a == b
    decreases |a|
  {
    assert |a| == |multiset(a)| == |multiset(b)| == |b|;
    if a != [] {
      SameHead(a, b, key);
      assert a == [a[0]] + a[1..] && b == [b[0]] + b[1..];
      assert multiset(a[1..]) == multiset(a) - multiset{a[0]};
      assert multiset(b[1..]) == multiset(b) - multiset{b[0]};
      SortedByHead(a, key);
      SortedByHead(b, key);
      assert KeyIdentifies(a[1..], key) by {
        assert forall x :: x in a[1..] ==> x in a;
      }
      SortedByIsUnique(a[1..], b[1..], key);
    }
  }

  /** Two sorted arrangements of the same elements start alike. */
  lemma SameHead<T>(a: seq<T>, b: seq<T>, key: T -> string)
    requires SortedBy(a, key) && SortedBy(b, key) && multiset(a) == multiset(b)
    requires KeyIdentifies(a, key) && a != []
    ensures b != [] && a[0] == b[0]
  {
    assert a[0] in multiset(b);
    assert b != [];
    assert b[0] in multiset(a);
    SortedByHead(a, key);
    SortedByHead(b, key);
    assert a[0] in b && b[0] in a;
    NotAfterAntisymmetric(key(a[0]), key(b[0]));
  }

  /** Arranging a sequence with one more element is inserting that element
      into the arrangement of the others. */
  lemma SortBySnoc<T>(s: seq<T>, x: T, key: T -> string)
    requires KeyIdentifies(s + [x], key)
    ensures SortBy(s + [x], key) == InsertBy(x, SortBy(s, key), key)
  {
    SortByIsSortedPermutation(s + [x], key);
    SortByIsSortedPermutation(s, key);
    InsertByKeepsSorted(x, SortBy(s, key), key);
    InsertByPermutes(x, SortBy(s, key), key);
    assert multiset(s + [x]) == multiset(s) + multiset{x};
    assert forall y :: y in SortBy(s + [x], key) ==> y in multiset(s + [x]);
    SortedByIsUnique(SortBy(s + [x], key), InsertBy(x, SortBy(s, key), key), key);
  }

  // ---------------------------------------------------------------------
  // Arranging records by a number column

  /** The elements come in increasing order of their `key` column. */
  predicate SortedByNumber<T>(s: seq<T>, key: T -> int) {
    forall i, j :: 0 <= i < j < |s| ==> key(s[i]) <= key(s[j])
  }

  function InsertByNumber<T>(x: T, s: seq<T>, key: T -> int): seq<T> {
    if s == [] then [x]
    else if key(x) <= key(s[0]) then [x] + s
    else [s[0]] + InsertByNumber(x, s[1..], key)
  }

  /** The arrangement of `s` in increasing order of its `key` column. */
  function SortByNumber<T>(s: seq<T>, key: T -> int): seq<T> {
    if s == [] then [] else InsertByNumber(s[0], SortByNumber(s[1..], key), key)
  }

  lemma {:induction false} InsertByNumberPermutes<T>(x: T, s: seq<T>, key: T -> int)
    ensures multiset(InsertByNumber(x, s, key)) == multiset(s) + multiset{x}
  {
    if s != [] && key(x) > key(s[0]) {
      InsertByNumberPermutes(x, s[1..], key);
      assert s == [s[0]] + s[1..];
    }
  }

  lemma {:induction false} InsertByNumberSorted<T>(x: T, s: seq<T>, key: T -> int)
    requires SortedByNumber(s, key)
    ensures SortedByNumber(InsertByNumber(x, s, key), key)
  {
    if s != [] && key(x) > key(s[0]) {
      var t := s[1..];
      assert SortedByNumber(t, key) by {
        forall i, j | 0 <= i < j < |t|
          ensures key(t[i]) <= key(t[j])
        {
          assert t[i] == s[i + 1] && t[j] == s[j + 1];
        }
      }
      InsertByNumberSorted(x, t, key);
      InsertByNumberPermutes(x, t, key);
      var u := InsertByNumber(x, t, key);
      forall y | y in u
        ensures key(s[0]) <= key(y)
      {
        assert y in multiset(u);
        if y != x {
          assert y in multiset(t);
          var i :| 0 <= i < |t| && t[i] == y;
          assert y == s[i + 1];
        }
      }
      NumberPrepend(s[0], u, key);
    }
  }

  lemma NumberPrepend<T>(h: T, u: seq<T>, key: T -> int)
    requires SortedByNumber(u, key) && forall y :: y in u ==> key(h) <= key(y)
    ensures SortedByNumber([h] + u, key)
  {
    var r := [h] + u;
    forall i, j | 0 <= i < j < |r|
      ensures key(r[i]) <= key(r[j])
    {
      if i == 0 {
        assert r[j] == u[j - 1] && u[j - 1] in u;
      } else {
        assert r[i] == u[i - 1] && r[j] == u[j - 1];
      }
    }
  }

  /** The arrangement is in increasing key order and holds exactly the
      elements of its input. */
  lemma {:induction false} SortByNumberIsSortedPermutation<T>(s: seq<T>, key: T -> int)
    ensures SortedByNumber(SortByNumber(s, key), key)
    ensures multiset(SortByNumber(s, key)) == multiset(s)
  {
    if s != [] {
      SortByNumberIsSortedPermutation(s[1..], key);
      InsertByNumberSorted(s[0], SortByNumber(s[1..], key), key);
      InsertByNumberPermutes(s[0], SortByNumber(s[1..], key), key);
      assert s == [s[0]] + s[1..];
    }
  }
}
