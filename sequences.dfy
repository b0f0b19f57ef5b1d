/**
 * The array builtins the pipeline leans on, as functions on sequences:
 * `Array.prototype.filter` (Filter), counting (Count) and the stable
 * `Array.prototype.sort` with a comparator that subtracts numeric keys
 * (SortBy, an insertion sort). StableSortUnique shows that every stable sort
 * produces the same sequence, so the choice of insertion sort is immaterial.
 */
module Sequences {

  /** `s.filter(p)`: the elements satisfying `p`, in their original order. */
  function Filter<T>(s: seq<T>, p: T -> bool): (r: seq<T>)
    ensures |r| <= |s|
    ensures multiset(r) <= multiset(s)
  {
    if |s| == 0 then []
    else
      assert s == [s[0]] + s[1..];
      if p(s[0]) then [s[0]] + Filter(s[1..], p)
      else Filter(s[1..], p)
  }

  /** The filtered sequence holds exactly the elements of `s` that satisfy `p`. */
  lemma {:induction false} FilterMembers<T>(s: seq<T>, p: T -> bool)
    ensures forall i :: 0 <= i < |Filter(s, p)| ==> Filter(s, p)[i] in s && p(Filter(s, p)[i])
    ensures forall i :: 0 <= i < |s| && p(s[i]) ==> s[i] in Filter(s, p)
  {
    if |s| > 0 {
      FilterMembers(s[1..], p);
      assert s == [s[0]] + s[1..];
    }
  }

  lemma {:induction false} FilterAppend<T>(a: seq<T>, b: seq<T>, p: T -> bool)
    ensures Filter(a + b, p) == Filter(a, p) + Filter(b, p)
  {
    if |a| > 0 {
      assert (a + b)[1..] == a[1..] + b;
      FilterAppend(a[1..], b, p);
    } else {
      assert a + b == b;
    }
  }

  /** A block with nothing to keep can be cut out before filtering. */
  lemma FilterSkip<T>(a: seq<T>, b: seq<T>, c: seq<T>, p: T -> bool)
    requires Filter(b, p) == []
    ensures Filter(a + b + c, p) == Filter(a + c, p)
  {
    FilterAppend(a + b, c, p);
    FilterAppend(a, b, p);
    FilterAppend(a, c, p);
  }

  /** Filtering keeps the relative order, so a sorted sequence stays sorted. */
  lemma {:induction false} FilterKeepsSorted<T>(s: seq<T>, p: T -> bool, key: T -> real)
    requires SortedBy(s, key)
    ensures SortedBy(Filter(s, p), key)
  {
    if |s| > 0 {
      FilterKeepsSorted(s[1..], p, key);
      FilterMembers(s[1..], p);
      var rest := Filter(s[1..], p);
      forall i | 0 <= i < |rest| ensures key(s[0]) <= key(rest[i]) {
        var j :| 0 <= j < |s[1..]| && s[1..][j] == rest[i];
        assert s[j + 1] == rest[i];
      }
    }
  }

  /** Filtering with `p` and with its negation splits the multiset of `s`. */
  lemma {:induction false} FilterPartition<T>(s: seq<T>, p: T -> bool, q: T -> bool)
    requires forall i :: 0 <= i < |s| ==> (p(s[i]) <==> !q(s[i]))
    ensures multiset(Filter(s, p)) + multiset(Filter(s, q)) == multiset(s)
  {
    if |s| > 0 {
      FilterPartition(s[1..], p, q);
      assert s == [s[0]] + s[1..];
    }
  }

  /** The number of elements of `s` satisfying `p`. */
  function Count<T>(s: seq<T>, p: T -> bool): (n: nat)
    ensures n <= |s|
  {
    if |s| == 0 then 0 else (if p(s[0]) then 1 else 0) + Count(s[1..], p)
  }

  /** Counting the elements that satisfy `p` is the length of their filter. */
  lemma {:induction false} CountIsFilterLength<T>(s: seq<T>, p: T -> bool)
    ensures Count(s, p) == |Filter(s, p)|
  {
    if |s| > 0 {
      CountIsFilterLength(s[1..], p);
    }
  }

  lemma {:induction false} CountAppend<T>(a: seq<T>, b: seq<T>, p: T -> bool)
    ensures Count(a + b, p) == Count(a, p) + Count(b, p)
  {
    if |a| > 0 {
      assert (a + b)[1..] == a[1..] + b;
      CountAppend(a[1..], b, p);
    } else {
      assert a + b == b;
    }
  }

  /** Taking out the element at `j` lowers the count by one exactly when it satisfies `p`. */
  lemma {:induction false} CountRemove<T>(t: seq<T>, j: nat, p: T -> bool)
    requires j < |t|
    ensures Count(t, p) == Count(t[..j] + t[j + 1..], p) + (if p(t[j]) then 1 else 0)
  {
    var before, after := t[..j], t[j + 1..];
    assert t == before + ([t[j]] + after);
    CountAppend(before, [t[j]] + after, p);
    assert ([t[j]] + after)[1..] == after;
    CountAppend(before, after, p);
  }

  lemma {:induction false} MultisetRemove<T>(t: seq<T>, j: nat)
    requires j < |t|
    ensures multiset(t[..j] + t[j + 1..]) == multiset(t) - multiset{t[j]}
  {
    assert t == t[..j] + [t[j]] + t[j + 1..];
  }

  /** A count depends only on the multiset of elements, not on their order. */
  lemma {:induction false} CountPermutation<T>(s: seq<T>, t: seq<T>, p: T -> bool)
    requires multiset(s) == multiset(t)
    ensures Count(s, p) == Count(t, p)
  {
    if |s| == 0 {
      assert |multiset(t)| == 0;
    } else {
      assert s[0] in multiset(t);
      var j :| 0 <= j < |t| && t[j] == s[0];
      var rest := t[..j] + t[j + 1..];
      MultisetRemove(t, j);
      assert multiset(s[1..]) == multiset(s) - multiset{s[0]} by {
        assert s == [s[0]] + s[1..];
      }
      CountPermutation(s[1..], rest, p);
      CountRemove(t, j, p);
    }
  }

  /** When `p` holds of `t[i]` wherever it holds of `s[i]`, `t` has at least as many. */
  lemma {:induction false} CountPointwise<T>(s: seq<T>, t: seq<T>, p: T -> bool)
    requires |s| == |t|
    requires forall i :: 0 <= i < |s| && p(s[i]) ==> p(t[i])
    ensures Count(s, p) <= Count(t, p)
  {
    if |s| > 0 {
      CountPointwise(s[1..], t[1..], p);
    }
  }

  ghost predicate SortedBy<T>(s: seq<T>, key: T -> real) {
    forall i, j :: 0 <= i < j < |s| ==> key(s[i]) <= key(s[j])
  }

  /** `x` placed in front of the first element whose key is not smaller. */
  function Insert<T>(x: T, s: seq<T>, key: T -> real): (r: seq<T>)
    ensures multiset(r) == multiset{x} + multiset(s)
    ensures |r| == |s| + 1
  {
    if |s| == 0 || key(x) <= key(s[0]) then [x] + s
    else
      assert s == [s[0]] + s[1..];
      [s[0]] + Insert(x, s[1..], key)
  }

  /** Inserting into a sorted sequence keeps it sorted. */
  lemma {:induction false} InsertSorted<T>(x: T, s: seq<T>, key: T -> real)
    requires SortedBy(s, key)
    ensures SortedBy(Insert(x, s, key), key)
  {
    if |s| > 0 && key(x) > key(s[0]) {
      var rest := Insert(x, s[1..], key);
      InsertSorted(x, s[1..], key);
      assert s == [s[0]] + s[1..];
      forall i | 0 <= i < |rest| ensures key(s[0]) <= key(rest[i]) {
        assert rest[i] in multiset(rest);
        if rest[i] != x {
          var j :| 0 <= j < |s[1..]| && s[1..][j] == rest[i];
          assert s[j + 1] == rest[i];
        }
      }
    }
  }

  /**
   * The sort by a numeric comparator that subtracts keys: a sorted permutation of `s`; what
   * makes it the stable sort is stated by SortByStable.
   */
  function SortBy<T>(s: seq<T>, key: T -> real): (r: seq<T>)
    ensures multiset(r) == multiset(s)
    ensures |r| == |s|
    ensures SortedBy(r, key)
  {
    if |s| == 0 then [] else
      assert s == [s[0]] + s[1..];
      InsertSorted(s[0], SortBy(s[1..], key), key);
      Insert(s[0], SortBy(s[1..], key), key)
  }

  lemma SortByMembers<T>(s: seq<T>, key: T -> real)
    ensures forall x :: x in SortBy(s, key) <==> x in s
  {
    forall x ensures x in SortBy(s, key) <==> x in s {
      assert x in SortBy(s, key) <==> x in multiset(SortBy(s, key));
      assert x in s <==> x in multiset(s);
    }
  }

  /** The elements of `s` whose key is `k`, in order: the "ties" of that key. */
  function WithKey<T>(s: seq<T>, key: T -> real, k: real): (r: seq<T>)
    ensures forall i :: 0 <= i < |r| ==> r[i] in s && key(r[i]) == k
  {
    if |s| == 0 then []
    else if key(s[0]) == k then [s[0]] + WithKey(s[1..], key, k)
    else WithKey(s[1..], key, k)
  }

  lemma {:induction false} InsertWithKey<T>(x: T, s: seq<T>, key: T -> real, k: real)
    ensures WithKey(Insert(x, s, key), key, k)
         == (if key(x) == k then [x] else []) + WithKey(s, key, k)
  {
    if |s| == 0 || key(x) <= key(s[0]) {
      assert ([x] + s)[1..] == s;
    } else {
      var rest := Insert(x, s[1..], key);
      assert ([s[0]] + rest)[1..] == rest;
      InsertWithKey(x, s[1..], key, k);
    }
  }

  /** Stability: elements with equal keys keep their input order. */
  lemma {:induction false} SortByStable<T>(s: seq<T>, key: T -> real, k: real)
    ensures WithKey(SortBy(s, key), key, k) == WithKey(s, key, k)
  {
    if |s| > 0 {
      SortByStable(s[1..], key, k);
      InsertWithKey(s[0], SortBy(s[1..], key), key, k);
    }
  }

  /** An input that is already in key order comes back unchanged. */
  lemma {:induction false} SortBySortedIsIdentity<T>(s: seq<T>, key: T -> real)
    requires SortedBy(s, key)
    ensures SortBy(s, key) == s
  {
    if |s| > 0 {
      SortBySortedIsIdentity(s[1..], key);
      assert s == [s[0]] + s[1..];
    }
  }

  lemma WithKeyHead<T>(s: seq<T>, key: T -> real)
    requires |s| > 0
    ensures WithKey(s, key, key(s[0])) == [s[0]] + WithKey(s[1..], key, key(s[0]))
    ensures forall k :: k != key(s[0]) ==> WithKey(s, key, k) == WithKey(s[1..], key, k)
  {
  }

  /** In a sorted sequence, every key that occurs is at least the first key. */
  lemma SortedFirstKeyIsLeast<T>(s: seq<T>, key: T -> real, k: real)
    requires SortedBy(s, key) && |WithKey(s, key, k)| > 0
    ensures |s| > 0 && key(s[0]) <= k
  {
    var y := WithKey(s, key, k)[0];
    var i :| 0 <= i < |s| && s[i] == y;
  }

  /** Two sorted sequences with the same ties start with the same element. */
  lemma SameTiesSameHead<T>(a: seq<T>, b: seq<T>, key: T -> real)
    requires SortedBy(a, key) && SortedBy(b, key) && |a| > 0 && |b| > 0
    requires forall k :: WithKey(a, key, k) == WithKey(b, key, k)
    ensures a[0] == b[0]
  {
    var ka, kb := key(a[0]), key(b[0]);
    WithKeyHead(a, key);
    WithKeyHead(b, key);
    assert WithKey(b, key, ka) == WithKey(a, key, ka);
    SortedFirstKeyIsLeast(b, key, ka);
    assert WithKey(a, key, kb) == WithKey(b, key, kb);
    SortedFirstKeyIsLeast(a, key, kb);
    assert ka == kb;
    assert WithKey(a, key, ka)[0] == a[0];
    assert WithKey(b, key, ka)[0] == b[0];
  }

  /** Once the common head is removed, the ties still agree. */
  lemma SameTiesTails<T>(a: seq<T>, b: seq<T>, key: T -> real)
    requires |a| > 0 && |b| > 0 && a[0] == b[0]
    requires forall k :: WithKey(a, key, k) == WithKey(b, key, k)
    ensures forall k :: WithKey(a[1..], key, k) == WithKey(b[1..], key, k)
  {
    WithKeyHead(a, key);
    WithKeyHead(b, key);
    forall k ensures WithKey(a[1..], key, k) == WithKey(b[1..], key, k) {
      assert WithKey(a, key, k) == WithKey(b, key, k);
      if k == key(a[0]) {
        assert WithKey(a, key, k)[1..] == WithKey(a[1..], key, k);
        assert WithKey(b, key, k)[1..] == WithKey(b[1..], key, k);
      }
    }
  }

  /**
   * A sorted sequence is determined by its ties: two sequences both sorted by
   * `key` that agree on the elements of every key, in order, are equal.
   */
  lemma {:induction false} StableSortUnique<T>(a: seq<T>, b: seq<T>, key: T -> real)
    requires SortedBy(a, key) && SortedBy(b, key)
    requires forall k :: WithKey(a, key, k) == WithKey(b, key, k)
    ensures a == b
  {
    if |a| == 0 && |b| == 0 {
    } else if |a| == 0 {
      WithKeyHead(b, key);
      assert false;
    } else if |b| == 0 {
      WithKeyHead(a, key);
      assert false;
    } else {
      SameTiesSameHead(a, b, key);
      SameTiesTails(a, b, key);
      StableSortUnique(a[1..], b[1..], key);
      assert a == [a[0]] + a[1..] && b == [b[0]] + b[1..];
    }
  }

  /** Any `r` that is sorted and keeps the order of ties is SortBy's result. */
  lemma SortByIsTheStableSort<T>(s: seq<T>, r: seq<T>, key: T -> real)
    requires SortedBy(r, key)
    requires forall k :: WithKey(r, key, k) == WithKey(s, key, k)
    ensures r == SortBy(s, key)
  {
    forall k ensures WithKey(r, key, k) == WithKey(SortBy(s, key), key, k) {
      SortByStable(s, key, k);
    }
    StableSortUnique(r, SortBy(s, key), key);
  }
}
