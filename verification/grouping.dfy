/** Grouping by a string key with a JavaScript `Map`: buckets are created the first time
    a key is seen (`if (!map.has(k)) map.set(k, [])`), elements are pushed in input order,
    and `Array.from(map.entries())` lists the buckets in key-insertion order. */
module Grouping {
  import opened Collections

  /** A named bucket: `{ letter, packages }` or `{ name, packages }` in the source. */
  datatype Group<T> = Group(name: string, items: seq<T>)

  function NameOf<T>(g: Group<T>): string {
    g.name
  }

  /** The elements filed under key `k`. */
  function HasKey<T>(keyOf: T -> string, k: string): T -> bool {
    (x: T) => keyOf(x) == k
  }

  ghost predicate Distinct(ks: seq<string>) {
    forall i, j :: 0 <= i < j < |ks| ==> ks[i] != ks[j]
  }

  ghost predicate DistinctNames<T>(g: seq<Group<T>>) {
    forall i, j :: 0 <= i < j < |g| ==> g[i].name != g[j].name
  }

  /** The keys of `s` in the order in which they are first seen: the key order of a
      `Map` that is filled left to right. */
  function FirstKeys<T>(s: seq<T>, keyOf: T -> string): (ks: seq<string>)
    ensures Distinct(ks)
  {
    if s == [] then []
    else
      var ks := FirstKeys(s[..|s| - 1], keyOf);
      var k := keyOf(s[|s| - 1]);
      if k in ks then ks else ks + [k]
  }

  /** Every element's key is listed. */
  lemma {:induction false} FirstKeysComplete<T>(s: seq<T>, keyOf: T -> string)
    ensures forall i :: 0 <= i < |s| ==> keyOf(s[i]) in FirstKeys(s, keyOf)
  {
    if s != [] {
      var init := s[..|s| - 1];
      FirstKeysComplete(init, keyOf);
      assert forall i :: 0 <= i < |s| - 1 ==> s[i] == init[i];
    }
  }

  /** Every listed key belongs to some element. */
  lemma {:induction false} FirstKeysSound<T>(s: seq<T>, keyOf: T -> string)
    ensures forall k :: k in FirstKeys(s, keyOf) ==> exists i :: 0 <= i < |s| && keyOf(s[i]) == k
  {
    if s != [] {
      var init := s[..|s| - 1];
      FirstKeysSound(init, keyOf);
      forall k | k in FirstKeys(init, keyOf) ensures exists i :: 0 <= i < |s| && keyOf(s[i]) == k {
        var i :| 0 <= i < |init| && keyOf(init[i]) == k;
        assert s[i] == init[i];
      }
    }
  }

  /** What the grouping loop produces: one group per key, in first-seen order, holding
      that key's elements in input order. */
  function GroupsOf<T>(s: seq<T>, keyOf: T -> string): seq<Group<T>> {
    var ks := FirstKeys(s, keyOf);
    seq(|ks|, i requires 0 <= i < |ks| => Group(ks[i], Keep(s, HasKey(keyOf, ks[i]))))
  }

  /** `g` splits `s` by key: names are distinct, no group is empty, each group holds
      every copy of exactly the elements with its name, and every element has a group. */
  ghost predicate IsPartition<T>(g: seq<Group<T>>, s: seq<T>, keyOf: T -> string) {
    && DistinctNames(g)
    && (forall grp :: grp in g ==>
          grp.items != [] && multiset(grp.items) == multiset(Keep(s, HasKey(keyOf, grp.name))))
    && (forall x :: x in s ==> exists grp :: grp in g && grp.name == keyOf(x))
  }

  /** Each key's bucket holds at least one element. */
  lemma GroupsOfNonEmpty<T>(s: seq<T>, keyOf: T -> string, i: int)
    requires 0 <= i < |FirstKeys(s, keyOf)|
    ensures Keep(s, HasKey(keyOf, FirstKeys(s, keyOf)[i])) != []
  {
    var ks := FirstKeys(s, keyOf);
    FirstKeysSound(s, keyOf);
    assert ks[i] in ks;
    var m :| 0 <= m < |s| && keyOf(s[m]) == ks[i];
    KeepMembers(s, HasKey(keyOf, ks[i]));
    assert s[m] in Keep(s, HasKey(keyOf, ks[i]));
  }

  lemma GroupsOfPartition<T>(s: seq<T>, keyOf: T -> string)
    ensures IsPartition(GroupsOf(s, keyOf), s, keyOf)
  {
    var ks := FirstKeys(s, keyOf);
    var g := GroupsOf(s, keyOf);
    forall grp | grp in g
      ensures grp.items != [] && multiset(grp.items) == multiset(Keep(s, HasKey(keyOf, grp.name)))
    {
      var i :| 0 <= i < |g| && g[i] == grp;
      GroupsOfNonEmpty(s, keyOf, i);
    }
    FirstKeysComplete(s, keyOf);
    forall x | x in s ensures exists grp :: grp in g && grp.name == keyOf(x) {
      var m :| 0 <= m < |s| && s[m] == x;
      var i :| 0 <= i < |ks| && ks[i] == keyOf(x);
      assert g[i] in g;
    }
  }

  /** Replacing each group's items by a reordering of them keeps a partition. */
  lemma PartitionReordered<T>(a: seq<Group<T>>, b: seq<Group<T>>, s: seq<T>, keyOf: T -> string)
    requires IsPartition(a, s, keyOf) && |a| == |b|
    requires forall i :: 0 <= i < |a| ==> b[i].name == a[i].name && multiset(b[i].items) == multiset(a[i].items)
    ensures IsPartition(b, s, keyOf)
  {
    forall grp | grp in b
      ensures grp.items != [] && multiset(grp.items) == multiset(Keep(s, HasKey(keyOf, grp.name)))
    {
      var i :| 0 <= i < |b| && b[i] == grp;
      assert a[i] in a;
      assert |multiset(a[i].items)| == |a[i].items|;
    }
    forall x | x in s ensures exists grp :: grp in b && grp.name == keyOf(x) {
      var grp :| grp in a && grp.name == keyOf(x);
      var i :| 0 <= i < |a| && a[i] == grp;
      assert b[i] in b;
    }
  }

  /** In a partition, an element sits in exactly the groups named with its key, and
      there is exactly one such group. */
  lemma PartitionPlacesOnce<T>(g: seq<Group<T>>, s: seq<T>, keyOf: T -> string, x: T)
    requires IsPartition(g, s, keyOf) && x in s
    ensures exists i :: 0 <= i < |g| && x in g[i].items
    ensures forall i :: 0 <= i < |g| && x in g[i].items ==> g[i].name == keyOf(x)
    ensures forall i, j :: 0 <= i < |g| && 0 <= j < |g| && x in g[i].items && x in g[j].items ==> i == j
  {
    var grp :| grp in g && grp.name == keyOf(x);
    var i :| 0 <= i < |g| && g[i] == grp;
    KeepMultiset(s, HasKey(keyOf, grp.name), x);
    assert multiset(grp.items)[x] > 0;
    forall j | 0 <= j < |g| && x in g[j].items ensures g[j].name == keyOf(x) {
      assert g[j] in g;
      KeepMultiset(s, HasKey(keyOf, g[j].name), x);
      assert multiset(g[j].items)[x] > 0;
    }
  }

  lemma {:induction false} MultisetAtMostOnce<T>(a: seq<Group<T>>)
    requires DistinctNames(a)
    ensures forall x :: multiset(a)[x] <= 1
  {
    if a != [] {
      var init, last := a[..|a| - 1], a[|a| - 1];
      assert DistinctNames(init) by {
        forall i, j | 0 <= i < j < |init| ensures init[i].name != init[j].name {
          assert a[i] == init[i] && a[j] == init[j];
        }
      }
      MultisetAtMostOnce(init);
      assert last !in init by {
        forall i | 0 <= i < |init| ensures init[i] != last {
          assert a[i] == init[i];
        }
      }
      assert a == init + [last];
    }
  }

  lemma TwoCopies<T>(b: seq<T>, i: int, j: int)
    requires 0 <= i < j < |b| && b[i] == b[j]
    ensures multiset(b)[b[i]] >= 2
  {
    assert b == b[..j] + b[j..];
    assert b[i] in b[..j];
    assert b[j] in b[j..];
  }

  /** Reordering the groups keeps their names distinct. */
  lemma DistinctNamesPermutation<T>(a: seq<Group<T>>, b: seq<Group<T>>)
    requires multiset(a) == multiset(b) && DistinctNames(a)
    ensures DistinctNames(b)
  {
    forall i, j | 0 <= i < j < |b| ensures b[i].name != b[j].name {
      if b[i].name == b[j].name {
        assert b[i] in multiset(a) && b[j] in multiset(a);
        var p :| 0 <= p < |a| && a[p] == b[i];
        var q :| 0 <= q < |a| && a[q] == b[j];
        assert p == q;
        TwoCopies(b, i, j);
        MultisetAtMostOnce(a);
        assert false;
      }
    }
  }

  /** Reordering the groups keeps a partition a partition. */
  lemma PartitionPermutation<T>(a: seq<Group<T>>, b: seq<Group<T>>, s: seq<T>, keyOf: T -> string)
    requires multiset(a) == multiset(b) && IsPartition(a, s, keyOf)
    ensures IsPartition(b, s, keyOf)
  {
    DistinctNamesPermutation(a, b);
    forall grp | grp in b ensures grp in a {
      assert grp in multiset(b);
    }
    forall x | x in s ensures exists grp :: grp in b && grp.name == keyOf(x) {
      var grp :| grp in a && grp.name == keyOf(x);
      assert grp in multiset(a);
    }
  }

  /** The bucket sizes of the keys `ks`, added up. */
  ghost function SumCounts<T>(s: seq<T>, keyOf: T -> string, ks: seq<string>): nat {
    if ks == [] then 0 else |Keep(s, HasKey(keyOf, ks[0]))| + SumCounts(s, keyOf, ks[1..])
  }

  lemma {:induction false} SumCountsAppend<T>(s: seq<T>, keyOf: T -> string, ks: seq<string>, k: string)
    ensures SumCounts(s, keyOf, ks + [k]) == SumCounts(s, keyOf, ks) + |Keep(s, HasKey(keyOf, k))|
  {
    if ks != [] {
      assert (ks + [k])[1..] == ks[1..] + [k];
      SumCountsAppend(s, keyOf, ks[1..], k);
    }
  }

  /** One more element adds one to the total exactly when its key is among `ks`. */
  lemma {:induction false} SumCountsSnoc<T>(s: seq<T>, x: T, keyOf: T -> string, ks: seq<string>)
    requires Distinct(ks)
    ensures SumCounts(s + [x], keyOf, ks) == SumCounts(s, keyOf, ks) + (if keyOf(x) in ks then 1 else 0)
  {
    if ks != [] {
      assert Distinct(ks[1..]) by {
        forall i, j | 0 <= i < j < |ks[1..]| ensures ks[1..][i] != ks[1..][j] {
          assert ks[1..][i] == ks[i + 1] && ks[1..][j] == ks[j + 1];
        }
      }
      SumCountsSnoc(s, x, keyOf, ks[1..]);
      KeepSnoc(s, x, HasKey(keyOf, ks[0]));
      assert keyOf(x) in ks <==> keyOf(x) == ks[0] || keyOf(x) in ks[1..] by {
        assert ks == [ks[0]] + ks[1..];
      }
      if keyOf(x) == ks[0] {
        assert keyOf(x) !in ks[1..] by {
          forall j | 0 <= j < |ks[1..]| ensures ks[1..][j] != ks[0] {
            assert ks[1..][j] == ks[j + 1];
          }
        }
      }
    }
  }

  /** The buckets together hold every element exactly once: their sizes add up to `|s|`. */
  lemma {:induction false} KeyedTotal<T>(s: seq<T>, keyOf: T -> string)
    ensures SumCounts(s, keyOf, FirstKeys(s, keyOf)) == |s|
  {
    if s != [] {
      var init, x := s[..|s| - 1], s[|s| - 1];
      var ks := FirstKeys(init, keyOf);
      KeyedTotal(init, keyOf);
      assert s == init + [x];
      SumCountsSnoc(init, x, keyOf, ks);
      if keyOf(x) !in ks {
        SumCountsAppend(s, keyOf, ks, keyOf(x));
        FirstKeysComplete(init, keyOf);
        KeepNone(init, HasKey(keyOf, keyOf(x)));
        KeepSnoc(init, x, HasKey(keyOf, keyOf(x)));
      }
    }
  }

  /** The `Map` from key to bucket after the elements of `s` are filed one by one:
      create the bucket when the key is new, then push. */
  ghost function BucketsOf<T>(s: seq<T>, keyOf: T -> string): map<string, seq<T>> {
    if s == [] then map[]
    else
      var before := BucketsOf(s[..|s| - 1], keyOf);
      var k := keyOf(s[|s| - 1]);
      var created := if k in before then before else before[k := []];
      created[k := created[k] + [s[|s| - 1]]]
  }

  /** The buckets are keyed by the first-seen keys, and each one holds exactly the
      elements with its key, in input order. */
  lemma {:induction false} BucketsOfContents<T>(s: seq<T>, keyOf: T -> string, k: string)
    ensures k in BucketsOf(s, keyOf) <==> k in FirstKeys(s, keyOf)
    ensures k in BucketsOf(s, keyOf) ==> BucketsOf(s, keyOf)[k] == Keep(s, HasKey(keyOf, k))
  {
    if s != [] {
      var init, x := s[..|s| - 1], s[|s| - 1];
      BucketsOfContents(init, keyOf, k);
      assert s == init + [x];
      KeepSnoc(init, x, HasKey(keyOf, k));
      if keyOf(x) == k && k !in FirstKeys(init, keyOf) {
        FirstKeysComplete(init, keyOf);
        KeepNone(init, HasKey(keyOf, k));
      }
    }
  }

  /** The `forEach` that fills the `Map`, followed by `Array.from(map.entries())`. */
  method BucketBy<T>(s: seq<T>, keyOf: T -> string) returns (groups: seq<Group<T>>)
    ensures groups == GroupsOf(s, keyOf)
  {
    var keys: seq<string> := [];
    var buckets: map<string, seq<T>> := map[];
    for i := 0 to |s|
      invariant keys == FirstKeys(s[..i], keyOf)
      invariant buckets == BucketsOf(s[..i], keyOf)
    {
      var k := keyOf(s[i]);
      assert s[..i + 1][..i] == s[..i];
      BucketsOfContents(s[..i], keyOf, k);
      if k !in buckets {
        keys := keys + [k];
        buckets := buckets[k := []];
      }
      buckets := buckets[k := buckets[k] + [s[i]]];
    }
    assert s[..|s|] == s;
    forall j | 0 <= j < |keys| ensures keys[j] in buckets && buckets[keys[j]] == Keep(s, HasKey(keyOf, keys[j])) {
      BucketsOfContents(s, keyOf, keys[j]);
    }
    groups := seq(|keys|, j requires 0 <= j < |keys| => Group(keys[j], buckets[keys[j]]));
  }
}
