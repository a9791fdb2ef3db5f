/**
 * `Array.prototype.sort` with a numeric comparator `(a, b) => key(a) - key(b)`.
 * The sort is stable, so it is modelled as an insertion sort that places each
 * element after every element already placed whose key is not greater.
 */
module StableSort {

  ghost predicate SortedBy<T>(s: seq<T>, key: T -> real) {
    forall i, j :: 0 <= i < j < |s| ==> key(s[i]) <= key(s[j])
  }

  /** `a` comes strictly before `b` when ordered by key, then by `tie`. */
  predicate Precedes<T>(a: T, b: T, key: T -> real, tie: T -> int) {
    key(a) < key(b) || (key(a) == key(b) && tie(a) < tie(b))
  }

  /** Sorted by key and, among equal keys, strictly increasing in `tie`. */
  ghost predicate StrictlySortedBy<T>(s: seq<T>, key: T -> real, tie: T -> int) {
    forall i, j :: 0 <= i < j < |s| ==> Precedes(s[i], s[j], key, tie)
  }

  /** The length of the leading run of `s` whose keys do not exceed `v`. */
  function LeadingAtMost<T>(s: seq<T>, v: real, key: T -> real): (k: nat)
    ensures k <= |s|
    ensures forall i :: 0 <= i < k ==> key(s[i]) <= v
    ensures k < |s| ==> key(s[k]) > v
  {
    if s == [] || key(s[0]) > v then 0 else 1 + LeadingAtMost(s[1..], v, key)
  }

  /** Inserts `x` after the leading run of elements whose keys do not exceed its own. */
  function Insert<T>(s: seq<T>, x: T, key: T -> real): (r: seq<T>)
    ensures r == s[..LeadingAtMost(s, key(x), key)] + [x] + s[LeadingAtMost(s, key(x), key)..]
  {
    if s == [] then [x]
    else if key(s[0]) <= key(x) then [s[0]] + Insert(s[1..], x, key)
    else [x] + s
  }

  function Sort<T>(s: seq<T>, key: T -> real): (r: seq<T>)
    ensures |r| == |s|
    ensures multiset(r) == multiset(s)
    ensures SortedBy(r, key)
    decreases |s|
  {
    if s == [] then []
    else
      var pre := s[..|s| - 1];
      assert s == pre + [s[|s| - 1]];
      InsertSorted(Sort(pre, key), s[|s| - 1], key);
      Insert(Sort(pre, key), s[|s| - 1], key)
  }

  /** Where each element of `Insert(s, x, key)` comes from. */
  lemma InsertAt<T>(s: seq<T>, x: T, key: T -> real, i: nat)
    requires i <= |s|
    ensures var k := LeadingAtMost(s, key(x), key);
      Insert(s, x, key)[i] == if i < k then s[i] else if i == k then x else s[i - 1]
  {
  }

  lemma {:induction false} InsertSorted<T>(s: seq<T>, x: T, key: T -> real)
    requires SortedBy(s, key)
    ensures SortedBy(Insert(s, x, key), key)
    ensures multiset(Insert(s, x, key)) == multiset(s) + multiset{x}
  {
    InsertOrder(s, x, key);
    InsertMultiset(s, x, key);
  }

  lemma {:induction false} InsertOrder<T>(s: seq<T>, x: T, key: T -> real)
    requires SortedBy(s, key)
    ensures SortedBy(Insert(s, x, key), key)
  {
    var k := LeadingAtMost(s, key(x), key);
    var r := Insert(s, x, key);
    forall i, j | 0 <= i < j < |r|
      ensures key(r[i]) <= key(r[j])
    {
      InsertAt(s, x, key, i);
      InsertAt(s, x, key, j);
      if i == k && j > k {
        assert key(s[k]) <= key(s[j - 1]);
      }
    }
  }

  lemma {:induction false} InsertMultiset<T>(s: seq<T>, x: T, key: T -> real)
    ensures multiset(Insert(s, x, key)) == multiset(s) + multiset{x}
  {
    var k := LeadingAtMost(s, key(x), key);
    var a, b := s[..k], s[k..];
    assert Insert(s, x, key) == a + [x] + b;
    assert s == a + b;
    MultisetSplit(a, [x], b);
  }

  lemma MultisetSplit<T>(a: seq<T>, m: seq<T>, b: seq<T>)
    ensures multiset(a + m + b) == multiset(a + b) + multiset(m)
  {
  }

  /** Dropping the last element of a sorted sequence leaves it sorted, with every key at most the last. */
  lemma {:induction false} SortedInit<T>(s: seq<T>, key: T -> real)
    requires SortedBy(s, key)
    requires s != []
    ensures SortedBy(s[..|s| - 1], key)
    ensures forall i :: 0 <= i < |s| - 1 ==> key(s[i]) <= key(s[|s| - 1])
  {
  }

  /** On sorted input the sort changes nothing. */
  lemma {:induction false} SortOfSorted<T>(s: seq<T>, key: T -> real)
    requires SortedBy(s, key)
    ensures Sort(s, key) == s
    decreases |s|
  {
    if s != [] {
      var pre, last := s[..|s| - 1], s[|s| - 1];
      assert s == pre + [last];
      assert Sort(pre, key) == pre by {
        SortedInit(s, key);
        SortOfSorted(pre, key);
      }
      assert Insert(pre, last, key) == pre + [last] by {
        SortedInit(s, key);
        InsertLast(pre, last, key);
      }
      SortSnoc(pre, last, key);
    }
  }

  /** An element with the greatest key is inserted at the end. */
  lemma {:induction false} InsertLast<T>(s: seq<T>, x: T, key: T -> real)
    requires forall i :: 0 <= i < |s| ==> key(s[i]) <= key(x)
    ensures Insert(s, x, key) == s + [x]
  {
    AllAtMost(s, key(x), key);
    assert s[..|s|] == s && s[|s|..] == [];
  }

  /** Sorting a sequence with one more element inserts that element into the sorted rest. */
  lemma SortSnoc<T>(s: seq<T>, x: T, key: T -> real)
    ensures Sort(s + [x], key) == Insert(Sort(s, key), x, key)
  {
    assert (s + [x])[..|s|] == s;
  }

  lemma {:induction false} AllAtMost<T>(s: seq<T>, v: real, key: T -> real)
    requires forall i :: 0 <= i < |s| ==> key(s[i]) <= v
    ensures LeadingAtMost(s, v, key) == |s|
    decreases |s|
  {
    if s != [] {
      AllAtMost(s[1..], v, key);
    }
  }

  /**
   * Sorting a sorted sequence with one more element appended only inserts
   * that element, after every element whose key does not exceed its own:
   * equal keys keep their order and the newcomer goes last among them.
   */
  lemma {:induction false} SortAppend<T>(s: seq<T>, x: T, key: T -> real)
    requires SortedBy(s, key)
    ensures var k := LeadingAtMost(s, key(x), key);
      && Sort(s + [x], key) == s[..k] + [x] + s[k..]
      && (forall i :: 0 <= i < k ==> key(s[i]) <= key(x))
      && (forall i :: k <= i < |s| ==> key(x) < key(s[i]))
  {
    var k := LeadingAtMost(s, key(x), key);
    assert Sort(s + [x], key) == Insert(s, x, key) by {
      SortOfSorted(s, key);
      SortSnoc(s, x, key);
    }
    forall i | k <= i < |s|
      ensures key(x) < key(s[i])
    {
      assert key(s[k]) <= key(s[i]);
    }
  }

  /**
   * On any input, sorted or not: sorting with one element appended inserts
   * that element into the sorted rest, after every element whose key does not
   * exceed its own and before every greater one.
   */
  lemma {:induction false} SortSnocPlaces<T>(s: seq<T>, x: T, key: T -> real)
    ensures var t := Sort(s, key);
      var k := LeadingAtMost(t, key(x), key);
      && Sort(s + [x], key) == t[..k] + [x] + t[k..]
      && (forall i :: k <= i < |t| ==> key(x) < key(t[i]))
  {
    var t := Sort(s, key);
    var k := LeadingAtMost(t, key(x), key);
    SortSnoc(s, x, key);
    forall i | k <= i < |t|
      ensures key(x) < key(t[i])
    {
      assert key(t[k]) <= key(t[i]);
    }
  }

  /** In a sorted sequence no element of a prefix has a greater key than an element left out of it. */
  lemma {:induction false} PrefixHoldsLeast<T>(s: seq<T>, n: nat, key: T -> real, x: T, y: T)
    requires SortedBy(s, key)
    requires n <= |s|
    requires x in s[..n]
    requires y in multiset(s) - multiset(s[..n])
    ensures key(x) <= key(y)
  {
    var rest := s[n..];
    assert s == s[..n] + rest;
    assert multiset(s) - multiset(s[..n]) == multiset(rest);
    assert y in rest;
    var j :| 0 <= j < |rest| && rest[j] == y;
    var i :| 0 <= i < n && s[..n][i] == x;
    assert s[i] == x && s[n + j] == y;
  }

  /**
   * Stability: when `tie` strictly increases along the input, the output is
   * ordered by key and, among equal keys, by `tie`.
   */
  lemma {:induction false} SortIsStable<T>(s: seq<T>, key: T -> real, tie: T -> int)
    requires forall i, j :: 0 <= i < j < |s| ==> tie(s[i]) < tie(s[j])
    ensures StrictlySortedBy(Sort(s, key), key, tie)
    decreases |s|
  {
    if s != [] {
      var pre, last := s[..|s| - 1], s[|s| - 1];
      var sorted := Sort(pre, key);
      SortIsStable(pre, key, tie);
      forall y | y in sorted
        ensures tie(y) < tie(last)
      {
        assert y in multiset(sorted);
        assert y in multiset(pre);
        var i :| 0 <= i < |pre| && pre[i] == y;
      }
      InsertStable(sorted, last, key, tie);
    }
  }

  lemma {:induction false} InsertStable<T>(s: seq<T>, x: T, key: T -> real, tie: T -> int)
    requires StrictlySortedBy(s, key, tie)
    requires forall y :: y in s ==> tie(y) < tie(x)
    ensures StrictlySortedBy(Insert(s, x, key), key, tie)
  {
    var k := LeadingAtMost(s, key(x), key);
    var r := Insert(s, x, key);
    forall i, j | 0 <= i < j < |r|
      ensures Precedes(r[i], r[j], key, tie)
    {
      InsertAt(s, x, key, i);
      InsertAt(s, x, key, j);
      if j == k {
        assert s[i] in s;
      } else if i == k && j - 1 > k {
        assert Precedes(s[k], s[j - 1], key, tie);
      }
    }
  }

  /** The number of elements of `s` that strictly precede `x`. */
  function CountBefore<T>(s: seq<T>, x: T, key: T -> real, tie: T -> int): (n: nat)
    ensures n <= |s|
    decreases |s|
  {
    if s == [] then 0
    else CountBefore(s[..|s| - 1], x, key, tie) + (if Precedes(s[|s| - 1], x, key, tie) then 1 else 0)
  }

  lemma {:induction false} CountBeforeAppend<T>(a: seq<T>, b: seq<T>, x: T, key: T -> real, tie: T -> int)
    ensures CountBefore(a + b, x, key, tie) == CountBefore(a, x, key, tie) + CountBefore(b, x, key, tie)
    decreases |b|
  {
    if b == [] {
      assert a + b == a;
    } else {
      var b', last := b[..|b| - 1], b[|b| - 1];
      assert (a + b)[..|a + b| - 1] == a + b';
      CountBeforeAppend(a, b', x, key, tie);
    }
  }

  lemma {:induction false} CountBeforeSingle<T>(y: T, x: T, key: T -> real, tie: T -> int)
    ensures CountBefore([y], x, key, tie) == if Precedes(y, x, key, tie) then 1 else 0
  {
    assert [y][..0] == [];
  }

  lemma {:induction false} CountBeforeInsert<T>(s: seq<T>, y: T, x: T, key: T -> real, tie: T -> int)
    ensures CountBefore(Insert(s, y, key), x, key, tie)
      == CountBefore(s, x, key, tie) + (if Precedes(y, x, key, tie) then 1 else 0)
  {
    var k := LeadingAtMost(s, key(y), key);
    assert s == s[..k] + s[k..];
    CountBeforeAppend(s[..k] + [y], s[k..], x, key, tie);
    CountBeforeAppend(s[..k], [y], x, key, tie);
    CountBeforeAppend(s[..k], s[k..], x, key, tie);
    CountBeforeSingle(y, x, key, tie);
  }

  /** Sorting does not change how many elements precede a given value. */
  lemma {:induction false} CountBeforeSort<T>(s: seq<T>, x: T, key: T -> real, tie: T -> int)
    ensures CountBefore(Sort(s, key), x, key, tie) == CountBefore(s, x, key, tie)
    decreases |s|
  {
    if s != [] {
      var pre, last := s[..|s| - 1], s[|s| - 1];
      CountBeforeSort(pre, x, key, tie);
      CountBeforeInsert(Sort(pre, key), last, x, key, tie);
    }
  }

  /** In a strictly sorted sequence an element's index is the number of elements preceding it. */
  lemma {:induction false} IndexIsCountBefore<T>(s: seq<T>, i: nat, key: T -> real, tie: T -> int)
    requires StrictlySortedBy(s, key, tie)
    requires i < |s|
    ensures CountBefore(s, s[i], key, tie) == i
    decreases |s|
  {
    var pre, last := s[..|s| - 1], s[|s| - 1];
    if i == |s| - 1 {
      AllPrecede(pre, last, key, tie);
    } else {
      IndexIsCountBefore(pre, i, key, tie);
      assert pre[i] == s[i];
      assert Precedes(s[i], last, key, tie);
    }
  }

  lemma {:induction false} AllPrecede<T>(s: seq<T>, x: T, key: T -> real, tie: T -> int)
    requires forall i :: 0 <= i < |s| ==> Precedes(s[i], x, key, tie)
    ensures CountBefore(s, x, key, tie) == |s|
    decreases |s|
  {
    if s != [] {
      AllPrecede(s[..|s| - 1], x, key, tie);
    }
  }
}
