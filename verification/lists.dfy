/** A list that callers share by reference and that the helpers of the
    domain layer mutate in place (`append`, `remove`). */
module Lists {
  import opened Wrappers
  import opened Seqs

  function Id<T>(x: T): T { x }

  /** Position of the first element equal to `x` (what `list.remove` and
      `list.index` look for). */
  function IndexOf<T(==)>(s: seq<T>, x: T): (i: nat)
    requires x in s
    ensures i < |s| && s[i] == x && forall j :: 0 <= j < i ==> s[j] != x
  {
    FirstIndex(s, Id, x).value
  }

  class ListRef<T(==)> {
    var items: seq<T>

    constructor (items: seq<T>)
      ensures this.items == items
    {
      this.items := items;
    }

    /** `list.append(x)`. */
    method Append(x: T)
      modifies this
      ensures items == old(items) + [x]
    {
      items := items + [x];
    }

    /** `list.remove(x)`: drops the first element equal to `x`. Every caller
        in this system passes an element it has just found in the list. */
    method Remove(x: T)
      requires x in items
      modifies this
      ensures items == old(items)[..IndexOf(old(items), x)] + old(items)[IndexOf(old(items), x) + 1..]
    {
      var i := 0;
      while items[i] != x
        invariant 0 <= i < |items|
        invariant forall j :: 0 <= j < i ==> items[j] != x
        invariant x in items[i..]
        decreases |items| - i
      {
        i := i + 1;
      }
      items := items[..i] + items[i + 1..];
    }
  }

  /** The first element whose column equals `k` is also the first element
      equal to itself: `remove` of a found element removes it where it was
      found. */
  lemma FirstKeyIsFirstEqual<T, K>(s: seq<T>, key: T -> K, k: K, i: nat)
    requires FirstIndex(s, key, k) == Some(i)
    ensures s[i] in s && IndexOf(s, s[i]) == i
  {
    var j := IndexOf(s, s[i]);
    assert key(s[j]) == key(s[i]);
  }
}
