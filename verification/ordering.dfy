/** Sorting as the front end does it: `Array.prototype.sort` with a three-way comparator.
    Collation itself (`localeCompare`, with or without `{ numeric: true }`) is not
    modelled; a comparator is a parameter assumed to be a total preorder, which is what
    ECMA-402 requires of a collator. Since the 2019 edition of ECMA-262 `sort` must be
    stable, and a stable sort's output is unique, `StableSort` (insertion sort) is its
    specification. */
module Ordering {
  import opened Collections

  /** The two facts a consistent comparator satisfies, stated for given elements so
      that proofs instantiate them on purpose. */
  ghost predicate SignsAgree<T>(cmp: (T, T) -> int, a: T, b: T) {
    cmp(a, b) < 0 <==> cmp(b, a) > 0
  }

  ghost predicate ChainsCompose<T>(cmp: (T, T) -> int, a: T, b: T, c: T) {
    cmp(a, b) <= 0 && cmp(b, c) <= 0 ==> cmp(a, c) <= 0
  }

  /** `cmp` is consistent: antisymmetric in sign and transitive on "not after". */
  ghost predicate IsTotalPreorder<T(!new)>(cmp: (T, T) -> int) {
    && (forall a, b :: SignsAgree(cmp, a, b))
    && (forall a, b, c :: ChainsCompose(cmp, a, b, c))
  }

  lemma Antisymmetric<T(!new)>(cmp: (T, T) -> int, a: T, b: T)
    requires IsTotalPreorder(cmp)
    ensures cmp(a, b) < 0 <==> cmp(b, a) > 0
    ensures cmp(a, b) == 0 <==> cmp(b, a) == 0
    ensures cmp(a, a) == 0
  {
    assert SignsAgree(cmp, a, b) && SignsAgree(cmp, b, a) && SignsAgree(cmp, a, a);
  }

  lemma Transitive<T(!new)>(cmp: (T, T) -> int, a: T, b: T, c: T)
    requires IsTotalPreorder(cmp)
    ensures cmp(a, b) <= 0 && cmp(b, c) <= 0 ==> cmp(a, c) <= 0
  {
    assert ChainsCompose(cmp, a, b, c);
  }

  /** `s[i]` does not come after `s[j]`. */
  ghost predicate InOrder<T>(cmp: (T, T) -> int, s: seq<T>, i: int, j: int)
    requires 0 <= i < |s| && 0 <= j < |s|
  {
    cmp(s[i], s[j]) <= 0
  }

  /** No element comes after a later one. */
  ghost predicate SortedBy<T>(s: seq<T>, cmp: (T, T) -> int) {
    forall i, j :: 0 <= i < j < |s| ==> InOrder(cmp, s, i, j)
  }

  /** Compare by a derived key, as every `sort((a, b) => key(a).localeCompare(key(b)))`
      in the source does. */
  function ByKey<T, K>(cmp: (K, K) -> int, key: T -> K): (T, T) -> int {
    (a: T, b: T) => cmp(key(a), key(b))
  }

  lemma ByKeyPreorder<T(!new), K(!new)>(cmp: (K, K) -> int, key: T -> K)
    requires IsTotalPreorder(cmp)
    ensures IsTotalPreorder(ByKey(cmp, key))
  {
    var c := ByKey(cmp, key);
    forall a, b ensures SignsAgree(c, a, b) {
      Antisymmetric(cmp, key(a), key(b));
    }
    forall a, b, d ensures ChainsCompose(c, a, b, d) {
      Transitive(cmp, key(a), key(b), key(d));
    }
  }

  /** The elements that compare equal to `k`. */
  function EquivTo<T>(cmp: (T, T) -> int, k: T): T -> bool {
    (y: T) => cmp(y, k) == 0
  }

  /** Where `Insert` puts `x`: after the leading run of elements that do not come
      after it. */
  function InsertPos<T>(x: T, s: seq<T>, cmp: (T, T) -> int): (p: nat)
    ensures p <= |s|
    ensures forall m :: 0 <= m < p ==> cmp(s[m], x) <= 0
    ensures p < |s| ==> cmp(s[p], x) > 0
  {
    if s == [] || cmp(s[0], x) > 0 then 0 else 1 + InsertPos(x, s[1..], cmp)
  }

  /** One step of insertion sort. */
  function Insert<T>(x: T, s: seq<T>, cmp: (T, T) -> int): seq<T> {
    var p := InsertPos(x, s, cmp);
    s[..p] + [x] + s[p..]
  }

  /** Stable sort by `cmp` (insertion sort, left to right). */
  function StableSort<T>(s: seq<T>, cmp: (T, T) -> int): seq<T> {
    if s == [] then [] else Insert(s[|s| - 1], StableSort(s[..|s| - 1], cmp), cmp)
  }

  /** Inserting adds exactly one copy of `x`. */
  lemma InsertMultiset<T>(x: T, s: seq<T>, cmp: (T, T) -> int)
    ensures multiset(Insert(x, s, cmp)) == multiset(s) + multiset{x}
  {
    var p := InsertPos(x, s, cmp);
    assert s == s[..p] + s[p..];
  }

  /** Sorting is a permutation. */
  lemma {:induction false} StableSortMultiset<T>(s: seq<T>, cmp: (T, T) -> int)
    ensures multiset(StableSort(s, cmp)) == multiset(s)
  {
    if s != [] {
      var init := s[..|s| - 1];
      StableSortMultiset(init, cmp);
      InsertMultiset(s[|s| - 1], StableSort(init, cmp), cmp);
      assert s == init + [s[|s| - 1]];
    }
  }

  /** In a sorted sequence, what follows position `p` does not come before `s[p]`. */
  lemma SortedFrom<T(!new)>(s: seq<T>, cmp: (T, T) -> int, p: int, m: int)
    requires IsTotalPreorder(cmp) && SortedBy(s, cmp)
    requires 0 <= p <= m < |s|
    ensures cmp(s[p], s[m]) <= 0
  {
    if p == m {
      Antisymmetric(cmp, s[p], s[p]);
    } else {
      assert InOrder(cmp, s, p, m);
    }
  }

  lemma InsertSorted<T(!new)>(x: T, s: seq<T>, cmp: (T, T) -> int)
    requires IsTotalPreorder(cmp) && SortedBy(s, cmp)
    ensures SortedBy(Insert(x, s, cmp), cmp)
  {
    var p := InsertPos(x, s, cmp);
    var r := Insert(x, s, cmp);
    assert |r| == |s| + 1;
    assert forall i :: 0 <= i < p ==> r[i] == s[i];
    assert r[p] == x;
    assert forall i :: p < i < |r| ==> r[i] == s[i - 1];
    forall i, j | 0 <= i < j < |r| ensures InOrder(cmp, r, i, j) {
      if j < p {
        assert InOrder(cmp, s, i, j);
      } else if j == p {
      } else if i < p {
        SortedFrom(s, cmp, i, j - 1);
      } else if i == p {
        Antisymmetric(cmp, s[p], x);
        SortedFrom(s, cmp, p, j - 1);
        Transitive(cmp, x, s[p], s[j - 1]);
      } else {
        assert InOrder(cmp, s, i - 1, j - 1);
      }
    }
  }

  /** The result of `StableSort` is ordered and a permutation of its input. */
  lemma {:induction false} StableSortSorted<T(!new)>(s: seq<T>, cmp: (T, T) -> int)
    requires IsTotalPreorder(cmp)
    ensures SortedBy(StableSort(s, cmp), cmp)
    ensures multiset(StableSort(s, cmp)) == multiset(s)
  {
    StableSortMultiset(s, cmp);
    if s != [] {
      StableSortSorted(s[..|s| - 1], cmp);
      InsertSorted(s[|s| - 1], StableSort(s[..|s| - 1], cmp), cmp);
    }
  }

  /** In a sorted sequence, an element that strictly precedes another under `cmp`
      stands before every copy of it. */
  lemma StrictlyLessComesFirst<T(!new)>(s: seq<T>, cmp: (T, T) -> int, i: int, j: int)
    requires IsTotalPreorder(cmp) && SortedBy(s, cmp)
    requires 0 <= i < |s| && 0 <= j < |s| && cmp(s[i], s[j]) < 0
    ensures i < j
  {
    if j <= i {
      if j < i {
        assert InOrder(cmp, s, j, i);
      }
      Antisymmetric(cmp, s[i], s[j]);
    }
  }

  /** In a sorted sequence, if `s[j-1]` does not come after `x`, nothing before it does. */
  lemma SortedPrefixNotAfter<T(!new)>(s: seq<T>, cmp: (T, T) -> int, j: int, x: T)
    requires IsTotalPreorder(cmp) && SortedBy(s, cmp)
    requires 0 <= j <= |s| && (j > 0 ==> cmp(s[j - 1], x) <= 0)
    ensures forall m :: 0 <= m < j ==> cmp(s[m], x) <= 0
  {
    forall m | 0 <= m < j ensures cmp(s[m], x) <= 0 {
      SortedFrom(s, cmp, m, j - 1);
      Transitive(cmp, s[m], s[j - 1], x);
    }
  }

  /** `Insert` puts `x` at `j` when everything before `j` does not come after `x`
      and everything from `j` on does. */
  lemma InsertAt<T>(x: T, s: seq<T>, cmp: (T, T) -> int, j: int)
    requires 0 <= j <= |s|
    requires forall m :: 0 <= m < j ==> cmp(s[m], x) <= 0
    requires forall m :: j <= m < |s| ==> cmp(s[m], x) > 0
    ensures Insert(x, s, cmp) == s[..j] + [x] + s[j..]
  {
    var p := InsertPos(x, s, cmp);
    assert j < |s| ==> cmp(s[j], x) > 0;
    assert p == j;
  }

  /** Nothing after the insertion point of `x` compares equal to `x`'s class `k`. */
  lemma NoEquivAfterInsertPos<T(!new)>(x: T, s: seq<T>, cmp: (T, T) -> int, k: T)
    requires IsTotalPreorder(cmp) && SortedBy(s, cmp) && cmp(x, k) == 0
    ensures Keep(s[InsertPos(x, s, cmp)..], EquivTo(cmp, k)) == []
  {
    var p := InsertPos(x, s, cmp);
    var back := s[p..];
    Antisymmetric(cmp, x, k);
    forall m | 0 <= m < |back| ensures !EquivTo(cmp, k)(back[m]) {
      SortedFrom(s, cmp, p, p + m);
      Transitive(cmp, s[p], back[m], k);
      Transitive(cmp, s[p], k, x);
    }
    KeepNone(back, EquivTo(cmp, k));
  }

  /** Every element that compares equal to `k` and was already in the sorted sequence
      stays in front of `x`: inserting keeps the relative order within a class. */
  lemma InsertKeepsClassOrder<T(!new)>(x: T, s: seq<T>, cmp: (T, T) -> int, k: T)
    requires IsTotalPreorder(cmp) && SortedBy(s, cmp)
    ensures Keep(Insert(x, s, cmp), EquivTo(cmp, k))
         == Keep(s, EquivTo(cmp, k)) + (if cmp(x, k) == 0 then [x] else [])
  {
    var e := EquivTo(cmp, k);
    var p := InsertPos(x, s, cmp);
    KeepSplice(s[..p], x, s[p..], e);
    KeepAppend(s[..p], s[p..], e);
    assert s[..p] + s[p..] == s;
    if cmp(x, k) == 0 {
      NoEquivAfterInsertPos(x, s, cmp, k);
    }
  }

  /** Stability: sorting keeps the input order among elements that compare equal. */
  lemma {:induction false} StableSortIsStable<T(!new)>(s: seq<T>, cmp: (T, T) -> int, k: T)
    requires IsTotalPreorder(cmp)
    ensures Keep(StableSort(s, cmp), EquivTo(cmp, k)) == Keep(s, EquivTo(cmp, k))
  {
    if s != [] {
      var init, x := s[..|s| - 1], s[|s| - 1];
      StableSortIsStable(init, cmp, k);
      StableSortSorted(init, cmp);
      InsertKeepsClassOrder(x, StableSort(init, cmp), cmp, k);
      assert s == init + [x];
      KeepSnoc(init, x, EquivTo(cmp, k));
    }
  }

  lemma SortedPrefix<T>(s: seq<T>, cmp: (T, T) -> int, n: int)
    requires SortedBy(s, cmp) && 0 <= n <= |s|
    ensures SortedBy(s[..n], cmp)
  {
    forall i, j | 0 <= i < j < n ensures InOrder(cmp, s[..n], i, j) {
      assert InOrder(cmp, s, i, j);
    }
  }

  /** An already sorted sequence is left exactly as it is. */
  lemma {:induction false} SortedIsFixpoint<T(!new)>(s: seq<T>, cmp: (T, T) -> int)
    requires IsTotalPreorder(cmp) && SortedBy(s, cmp)
    ensures StableSort(s, cmp) == s
  {
    if s != [] {
      var init, x := s[..|s| - 1], s[|s| - 1];
      SortedPrefix(s, cmp, |init|);
      SortedIsFixpoint(init, cmp);
      forall m | 0 <= m < |init| ensures cmp(init[m], x) <= 0 {
        assert InOrder(cmp, s, m, |s| - 1);
      }
      InsertAt(x, init, cmp, |init|);
      assert s == init + [x];
    }
  }

  /** Sorting twice is sorting once. */
  lemma StableSortIdempotent<T(!new)>(s: seq<T>, cmp: (T, T) -> int)
    requires IsTotalPreorder(cmp)
    ensures StableSort(StableSort(s, cmp), cmp) == StableSort(s, cmp)
  {
    StableSortSorted(s, cmp);
    SortedIsFixpoint(StableSort(s, cmp), cmp);
  }

  /** A sequence that holds `s[..j]`, then `x`, then `s[j..]`, where `j` is the first
      position whose element comes after `x`, is `Insert(x, s, cmp)`. */
  lemma FillGap<T(!new)>(x: T, s: seq<T>, cmp: (T, T) -> int, j: int, b: seq<T>)
    requires IsTotalPreorder(cmp) && SortedBy(s, cmp)
    requires 0 <= j <= |s| && (j > 0 ==> cmp(s[j - 1], x) <= 0)
    requires forall m :: j <= m < |s| ==> cmp(s[m], x) > 0
    requires |b| == |s| + 1 && b[j] == x
    requires forall m :: 0 <= m < j ==> b[m] == s[m]
    requires forall m :: j < m < |b| ==> b[m] == s[m - 1]
    ensures b == Insert(x, s, cmp)
  {
    SortedPrefixNotAfter(s, cmp, j, x);
    InsertAt(x, s, cmp, j);
    assert b == s[..j] + [x] + s[j..];
  }

  /** One pass of insertion sort: shift the elements of the sorted prefix `a[..i]`
      that come after `a[i]` one place right and drop `a[i]` into the gap. */
  method InsertInto<T(!new)>(a: array<T>, i: int, cmp: (T, T) -> int)
    requires IsTotalPreorder(cmp)
    requires 0 <= i < a.Length && SortedBy(a[..i], cmp)
    modifies a
    ensures a[..i + 1] == Insert(old(a[i]), old(a[..i]), cmp)
    ensures a[i + 1..] == old(a[i + 1..])
  {
    ghost var done := a[..i];
    var x := a[i];
    var j := i;
    while j > 0 && cmp(a[j - 1], x) > 0
      invariant 0 <= j <= i
      invariant forall m :: 0 <= m < j ==> a[m] == done[m]
      invariant forall m :: j < m <= i ==> a[m] == done[m - 1]
      invariant a[i + 1..] == old(a[i + 1..])
      invariant forall m :: j <= m < i ==> cmp(done[m], x) > 0
    {
      a[j] := a[j - 1];
      j := j - 1;
    }
    a[j] := x;
    FillGap(x, done, cmp, j, a[..i + 1]);
  }

  /** `a.sort(cmp)`: stable in-place insertion sort. */
  method SortInPlace<T(!new)>(a: array<T>, cmp: (T, T) -> int)
    requires IsTotalPreorder(cmp)
    modifies a
    ensures a[..] == StableSort(old(a[..]), cmp)
  {
    ghost var input := a[..];
    var i := 0;
    while i < a.Length
      invariant 0 <= i <= a.Length
      invariant a[..i] == StableSort(input[..i], cmp)
      invariant a[i..] == input[i..]
    {
      StableSortSorted(input[..i], cmp);
      InsertInto(a, i, cmp);
      assert input[..i + 1][..i] == input[..i];
      i := i + 1;
    }
    assert input[..a.Length] == input;
  }

  /** `[...s].sort(cmp)`: sort a fresh copy and return it. */
  method SortCopy<T(!new)>(s: seq<T>, cmp: (T, T) -> int) returns (r: seq<T>)
    requires IsTotalPreorder(cmp)
    ensures r == StableSort(s, cmp)
    ensures SortedBy(r, cmp) && multiset(r) == multiset(s)
  {
    var a := new T[|s|](i requires 0 <= i < |s| => s[i]);
    assert a[..] == s;
    SortInPlace(a, cmp);
    r := a[..];
    StableSortSorted(s, cmp);
  }
}
