/** Sequences of records searched, filtered and edited by one column.

    The domain lists and the four tables of the store are all sequences of
    records; every search, filter, delete and update in the system compares
    one column (a `key` function) against a value. The functions here are
    the reference definitions those operations are proved against. */
module Seqs {
  import opened Wrappers

  /** Index of the first element whose column equals `k`, or None. */
  function FirstIndex<T, K(==)>(s: seq<T>, key: T -> K, k: K): (r: Option<nat>)
    ensures r.Some? ==> r.value < |s| && key(s[r.value]) == k
    ensures r.Some? ==> forall j :: 0 <= j < r.value ==> key(s[j]) != k
    ensures r.None? <==> forall j :: 0 <= j < |s| ==> key(s[j]) != k
  {
    if s == [] then None
    else if key(s[0]) == k then Some(0)
    else
      match FirstIndex(s[1..], key, k)
      case None => None
      case Some(i) => Some(i + 1)
  }

  /** True iff some element's column equals `k`. */
  predicate Has<T, K(==)>(s: seq<T>, key: T -> K, k: K) {
    exists i :: 0 <= i < |s| && key(s[i]) == k
  }

  /** The elements whose column equals `k`, in their original order. */
  function Select<T, K(==)>(s: seq<T>, key: T -> K, k: K): (r: seq<T>)
    ensures |r| <= |s|
    ensures forall x :: x in r ==> x in s && key(x) == k
  {
    if s == [] then []
    else (if key(s[0]) == k then [s[0]] else []) + Select(s[1..], key, k)
  }

  /** The elements whose column differs from `k`, in their original order
      (an SQL DELETE keeps exactly these rows). */
  function Without<T, K(==)>(s: seq<T>, key: T -> K, k: K): (r: seq<T>)
    ensures |r| <= |s|
    ensures forall x :: x in r ==> x in s && key(x) != k
  {
    if s == [] then []
    else (if key(s[0]) != k then [s[0]] else []) + Without(s[1..], key, k)
  }

  /** Every element whose column equals `k` replaced by `f` of it (an SQL
      UPDATE with a key condition). */
  function Update<T, K(==)>(s: seq<T>, key: T -> K, k: K, f: T -> T): (r: seq<T>)
    ensures |r| == |s|
    ensures forall i :: 0 <= i < |s| ==> r[i] == if key(s[i]) == k then f(s[i]) else s[i]
  {
    if s == [] then []
    else [if key(s[0]) == k then f(s[0]) else s[0]] + Update(s[1..], key, k, f)
  }

  /** The primary-key constraint: no two elements share a column value. */
  predicate UniqueKeys<T, K(==)>(s: seq<T>, key: T -> K) {
    forall i, j :: 0 <= i < j < |s| ==> key(s[i]) != key(s[j])
  }

  /** Apply `f` to every element, stopping at the first failure, left to
      right (a loop that converts rows one by one and lets an exception
      escape). */
  function MapResult<A, B, E>(xs: seq<A>, f: A -> Result<B, E>): Result<seq<B>, E>
  {
    if xs == [] then Ok([])
    else
      match MapResult(xs[..|xs| - 1], f)
      case Err(e) => Err(e)
      case Ok(ys) =>
        match f(xs[|xs| - 1])
        case Err(e) => Err(e)
        case Ok(y) => Ok(ys + [y])
  }

  // ---------------------------------------------------------------------
  // Lemmas

  lemma {:induction false} SelectAppend<T, K>(s: seq<T>, x: T, key: T -> K, k: K)
    ensures Select(s + [x], key, k) == Select(s, key, k) + (if key(x) == k then [x] else [])
  {
    if s == [] {
      assert Select([x], key, k) == (if key(x) == k then [x] else []) + Select([x][1..], key, k);
    } else {
      assert (s + [x])[1..] == s[1..] + [x];
      SelectAppend(s[1..], x, key, k);
    }
  }

  lemma {:induction false} SelectComplete<T, K>(s: seq<T>, key: T -> K, k: K, i: nat)
    requires i < |s| && key(s[i]) == k
    ensures s[i] in Select(s, key, k)
  {
    if i > 0 {
      SelectComplete(s[1..], key, k, i - 1);
    }
  }

  /** The selected elements are exactly those whose column equals `k`. */
  lemma SelectMembers<T, K>(s: seq<T>, key: T -> K, k: K)
    ensures forall x :: x in Select(s, key, k) <==> x in s && key(x) == k
  {
    forall x | x in s && key(x) == k
      ensures x in Select(s, key, k)
    {
      var i :| 0 <= i < |s| && s[i] == x;
      SelectComplete(s, key, k, i);
    }
  }

  /** Two arrangements of the same elements have the same members. */
  lemma SameMembers<T>(a: seq<T>, b: seq<T>)
    requires multiset(a) == multiset(b)
    ensures forall x :: x in a <==> x in b
  {
    forall x
      ensures x in a <==> x in b
    {
      assert x in a <==> x in multiset(a);
      assert x in b <==> x in multiset(b);
    }
  }

  /** Under the primary-key constraint a key value names one element. */
  lemma UniqueKeysIdentify<T, K>(s: seq<T>, key: T -> K, x: T, y: T)
    requires UniqueKeys(s, key) && x in s && y in s && key(x) == key(y)
    ensures x == y
  {
    var i :| 0 <= i < |s| && s[i] == x;
    var j :| 0 <= j < |s| && s[j] == y;
  }

  lemma {:induction false} SelectAllOrNone<T, K>(s: seq<T>, key: T -> K, k: K)
    ensures !Has(s, key, k) ==> Select(s, key, k) == []
    ensures (forall i :: 0 <= i < |s| ==> key(s[i]) == k) ==> Select(s, key, k) == s
  {
    if s != [] {
      SelectAllOrNone(s[1..], key, k);
      if !Has(s, key, k) {
        assert forall i :: 0 <= i < |s| - 1 ==> key(s[1..][i]) == key(s[i + 1]);
      }
    }
  }

  /** Deleting by a unique key removes exactly the one element that has it. */
  lemma {:induction false} WithoutUnique<T, K>(s: seq<T>, key: T -> K, i: nat)
    requires UniqueKeys(s, key) && i < |s|
    ensures Without(s, key, key(s[i])) == s[..i] + s[i + 1..]
  {
    var k := key(s[i]);
    if i == 0 {
      assert !Has(s[1..], key, k) by {
        forall j | 0 <= j < |s[1..]|
          ensures key(s[1..][j]) != k
        {
          assert s[1..][j] == s[j + 1];
        }
      }
      WithoutAbsent(s[1..], key, k);
      assert s[..0] + s[1..] == s[1..];
    } else {
      TailUnique(s, key);
      assert s[1..][i - 1] == s[i];
      WithoutUnique(s[1..], key, i - 1);
      assert key(s[0]) != k;
      assert Without(s, key, k) == [s[0]] + (s[1..][..i - 1] + s[1..][i..]);
      assert s[1..][..i - 1] == s[1..i];
      assert s[1..][i..] == s[i + 1..];
      assert s[..i] == [s[0]] + s[1..i];
    }
  }

  lemma TailUnique<T, K>(s: seq<T>, key: T -> K)
    requires UniqueKeys(s, key) && s != []
    ensures UniqueKeys(s[1..], key)
  {
    forall a, b | 0 <= a < b < |s[1..]|
      ensures key(s[1..][a]) != key(s[1..][b])
    {
      assert s[1..][a] == s[a + 1] && s[1..][b] == s[b + 1];
    }
  }

  /** Deleting a key no element has changes nothing. */
  lemma {:induction false} WithoutAbsent<T, K>(s: seq<T>, key: T -> K, k: K)
    requires !Has(s, key, k)
    ensures Without(s, key, k) == s
  {
    if s != [] {
      assert forall j :: 0 <= j < |s| - 1 ==> s[1..][j] == s[j + 1];
      WithoutAbsent(s[1..], key, k);
    }
  }

  /** Updating by a unique key changes exactly the one element that has it. */
  lemma {:induction false} UpdateUnique<T, K>(s: seq<T>, key: T -> K, i: nat, f: T -> T)
    requires UniqueKeys(s, key) && i < |s|
    ensures Update(s, key, key(s[i]), f) == s[i := f(s[i])]
  {
    var k := key(s[i]);
    if i == 0 {
      UpdateAbsent(s[1..], key, k, f);
    } else {
      assert s[1..][i - 1] == s[i];
      UpdateUnique(s[1..], key, i - 1, f);
      assert key(s[0]) != k;
      assert [s[0]] + s[1..][i - 1 := f(s[i])] == s[i := f(s[i])];
    }
  }

  /** Updating a key no element has changes nothing. */
  lemma {:induction false} UpdateAbsent<T, K>(s: seq<T>, key: T -> K, k: K, f: T -> T)
    requires !Has(s, key, k)
    ensures Update(s, key, k, f) == s
  {
    if s != [] {
      assert forall j :: 0 <= j < |s| - 1 ==> s[1..][j] == s[j + 1];
      UpdateAbsent(s[1..], key, k, f);
    }
  }

  /** Appending an element with a fresh key keeps the keys unique. */
  lemma AppendUnique<T, K>(s: seq<T>, key: T -> K, x: T)
    requires UniqueKeys(s, key) && !Has(s, key, key(x))
    ensures UniqueKeys(s + [x], key)
  {
    forall i, j | 0 <= i < j < |s| + 1
      ensures key((s + [x])[i]) != key((s + [x])[j])
    {
      if j == |s| {
        assert (s + [x])[i] == s[i];
      } else {
        assert (s + [x])[i] == s[i] && (s + [x])[j] == s[j];
      }
    }
  }

  /** Removing one element keeps the remaining keys unique. */
  lemma RemoveUnique<T, K>(s: seq<T>, key: T -> K, i: nat)
    requires UniqueKeys(s, key) && i < |s|
    ensures UniqueKeys(s[..i] + s[i + 1..], key)
  {
    var r := s[..i] + s[i + 1..];
    forall a, b | 0 <= a < b < |r|
      ensures key(r[a]) != key(r[b])
    {
      var a' := if a < i then a else a + 1;
      var b' := if b < i then b else b + 1;
      assert r[a] == s[a'] && r[b] == s[b'];
    }
  }

  /** Filtering finds something exactly when some element has the key, and
      then the first element it finds is the first element with the key. */
  lemma {:induction false} SelectFirst<T, K>(s: seq<T>, key: T -> K, k: K)
    ensures Select(s, key, k) != [] <==> Has(s, key, k)
    ensures Has(s, key, k) ==> Select(s, key, k)[0] == s[FirstIndex(s, key, k).value]
  {
    if s != [] {
      SelectFirst(s[1..], key, k);
      if key(s[0]) != k {
        assert Has(s, key, k) <==> Has(s[1..], key, k) by {
          if Has(s, key, k) {
            var i :| 0 <= i < |s| && key(s[i]) == k;
            assert key(s[1..][i - 1]) == k;
          }
          if Has(s[1..], key, k) {
            var i :| 0 <= i < |s[1..]| && key(s[1..][i]) == k;
            assert key(s[i + 1]) == k;
          }
        }
      } else {
        assert key(s[0]) == k;
      }
    }
  }

  /** Updating with a change that keeps every key keeps the keys unique. */
  lemma UpdateKeepsUnique<T, K>(s: seq<T>, key: T -> K, k: K, f: T -> T)
    requires UniqueKeys(s, key)
    requires forall x :: key(f(x)) == key(x)
    ensures UniqueKeys(Update(s, key, k, f), key)
  {
    var r := Update(s, key, k, f);
    forall i, j | 0 <= i < j < |r|
      ensures key(r[i]) != key(r[j])
    {
      assert key(r[i]) == key(s[i]) && key(r[j]) == key(s[j]);
    }
  }

  /** Deleting a present key keeps the remaining keys unique. */
  lemma WithoutKeepsUnique<T, K>(s: seq<T>, key: T -> K, k: K)
    requires UniqueKeys(s, key) && Has(s, key, k)
    ensures UniqueKeys(Without(s, key, k), key)
  {
    var i := FirstIndex(s, key, k).value;
    WithoutUnique(s, key, i);
    RemoveUnique(s, key, i);
  }

  /** A successful conversion converts every element, in order. */
  lemma {:induction false} MapResultOk<A, B, E>(xs: seq<A>, f: A -> Result<B, E>, ys: seq<B>)
    requires MapResult(xs, f) == Ok(ys)
    ensures |ys| == |xs|
    ensures forall i :: 0 <= i < |xs| ==> f(xs[i]) == Ok(ys[i])
  {
    if xs != [] {
      var n := |xs| - 1;
      var prefix := MapResult(xs[..n], f);
      assert prefix.Ok? && f(xs[n]).Ok?;
      var ys' := prefix.value;
      assert ys == ys' + [f(xs[n]).value];
      MapResultOk(xs[..n], f, ys');
      assert forall i :: 0 <= i < n ==> xs[..n][i] == xs[i];
    }
  }

  /** If every element converts, the conversion succeeds. */
  lemma {:induction false} MapResultAllOk<A, B, E>(xs: seq<A>, f: A -> Result<B, E>)
    requires forall i :: 0 <= i < |xs| ==> f(xs[i]).Ok?
    ensures MapResult(xs, f).Ok?
  {
    if xs != [] {
      var n := |xs| - 1;
      assert forall i :: 0 <= i < n ==> xs[..n][i] == xs[i];
      MapResultAllOk(xs[..n], f);
    }
  }

  /** Converting two sequences whose elements convert alike gives the same
      result. */
  lemma {:induction false} MapResultPointwise<A, B, E>(xs: seq<A>, ys: seq<A>, f: A -> Result<B, E>)
    requires |xs| == |ys| && forall i :: 0 <= i < |xs| ==> f(xs[i]) == f(ys[i])
    ensures MapResult(xs, f) == MapResult(ys, f)
  {
    if xs != [] {
      var n := |xs| - 1;
      MapResultPointwise(xs[..n], ys[..n], f);
      assert f(xs[n]) == f(ys[n]);
    }
  }

  /** Converting element by element to known results gives exactly them. */
  lemma {:induction false} MapResultExact<A, B, E>(xs: seq<A>, f: A -> Result<B, E>, ys: seq<B>)
    requires |xs| == |ys| && forall i :: 0 <= i < |xs| ==> f(xs[i]) == Ok(ys[i])
    ensures MapResult(xs, f) == Ok(ys)
  {
    if xs != [] {
      var n := |xs| - 1;
      assert forall i :: 0 <= i < n ==> xs[..n][i] == xs[i] && ys[..n][i] == ys[i];
      MapResultExact(xs[..n], f, ys[..n]);
      assert ys == ys[..n] + [ys[n]];
    }
  }

  /** A prefix one longer is the prefix and the next element. */
  lemma TakeOneMore<T>(s: seq<T>, i: nat)
    requires i < |s|
    ensures s[..i + 1] == s[..i] + [s[i]]
  {
  }

  /** Converting one more element: the conversion of the prefix, then the
      element's. */
  lemma MapResultSnoc<A, B, E>(xs: seq<A>, x: A, f: A -> Result<B, E>)
    ensures MapResult(xs + [x], f) ==
      match MapResult(xs, f)
      case Err(e) => Err(e)
      case Ok(ys) => (match f(x) case Err(e) => Err(e) case Ok(y) => Ok(ys + [y]))
  {
    assert (xs + [x])[..|xs|] == xs;
  }

  /** A failure on a prefix is the failure of the whole conversion. */
  lemma {:induction false} MapResultPrefixErr<A, B, E>(xs: seq<A>, f: A -> Result<B, E>, n: nat)
    requires n <= |xs| && MapResult(xs[..n], f).Err?
    ensures MapResult(xs, f) == MapResult(xs[..n], f)
    decreases |xs| - n
  {
    if n < |xs| {
      assert xs[..n + 1][..n] == xs[..n];
      MapResultPrefixErr(xs, f, n + 1);
    } else {
      assert xs[..n] == xs;
    }
  }

  /** Steps over `xs` from state `s`, left to right, stopping at the first
      that fails: a loop whose body can raise. */
  function RunSteps<S, X, E>(s: S, xs: seq<X>, step: (S, X) -> (Outcome<E>, S)): (Outcome<E>, S) {
    if xs == [] then (Pass, s)
    else
      var n := |xs| - 1;
      var prev := RunSteps(s, xs[..n], step);
      if prev.0.Fail? then prev else step(prev.1, xs[n])
  }

  /** Once a step fails, the rest of the run is skipped. */
  lemma {:induction false} RunStepsStopsAtFail<S, X, E>(s: S, xs: seq<X>, step: (S, X) -> (Outcome<E>, S), k: nat)
    requires k <= |xs| && RunSteps(s, xs[..k], step).0.Fail?
    ensures RunSteps(s, xs, step) == RunSteps(s, xs[..k], step)
    decreases |xs|
  {
    if k < |xs| {
      var n := |xs| - 1;
      assert xs[..n][..k] == xs[..k];
      RunStepsStopsAtFail(s, xs[..n], step, k);
    } else {
      assert xs[..k] == xs;
    }
  }
}
