/** The sidebar: per-facet package counts (architecture, category, maintainer, license)
    shown as a tree of nodes whose ids carry a facet prefix, and the node handler that
    parses such an id and toggles the value in that facet's selection list. */
module Sidebar {
  import opened Text
  import opened Collections
  import opened Packages
  import opened Grouping

  // ---------------------------------------------------------------- classifier

  const SidebarCategories: seq<string> :=
    ["core", "applications", "libraries", "development", "miscellaneous", "other"]

  /** The sidebar's own classifier: exact type tests and a raw-name test for
      `kernel`/`core`, first match wins; a name containing `lib` plays no part. */
  function SidebarCategory(p: Package): (c: string)
    ensures c in SidebarCategories
    ensures c == "core" <==> p.pkgType == Some("system") || Contains(p.name, "kernel") || Contains(p.name, "core")
    ensures c == "libraries" <==> p.pkgType == Some("library") && !Contains(p.name, "kernel") && !Contains(p.name, "core")
    ensures c == "other" <==>
      && !Contains(p.name, "kernel") && !Contains(p.name, "core")
      && p.pkgType !in {Some("system"), Some("application"), Some("desktop"), Some("library"), Some("development"), Some("misc")}
  {
    if p.pkgType == Some("system") || Contains(p.name, "kernel") || Contains(p.name, "core") then "core"
    else if p.pkgType == Some("application") || p.pkgType == Some("desktop") then "applications"
    else if p.pkgType == Some("library") then "libraries"
    else if p.pkgType == Some("development") then "development"
    else if p.pkgType == Some("misc") then "miscellaneous"
    else "other"
  }

  // ---------------------------------------------------------------- counting

  /** One entry of a counting `Map`: a facet value and how many packages have it. */
  datatype Tally = Tally(key: string, count: nat)

  /** The tallies of the keys `ks`: each key with the number of elements filed under it. */
  ghost function TalliesFor<T>(s: seq<T>, keyOf: T -> string, ks: seq<string>): seq<Tally> {
    seq(|ks|, i requires 0 <= i < |ks| => Tally(ks[i], |Keep(s, HasKey(keyOf, ks[i]))|))
  }

  /** `Array.from(map.entries())` of a counting `Map` filled left to right: the keys in
      first-seen order, each with its number of occurrences. */
  ghost function Tallies<T>(s: seq<T>, keyOf: T -> string): seq<Tally> {
    TalliesFor(s, keyOf, FirstKeys(s, keyOf))
  }

  function Total(t: seq<Tally>): nat {
    if t == [] then 0 else t[0].count + Total(t[1..])
  }

  /** `s.forEach(x => map.set(k, (map.get(k) || 0) + 1))`, then the entries in key order. */
  method CountBy<T>(s: seq<T>, keyOf: T -> string) returns (tallies: seq<Tally>)
    ensures tallies == Tallies(s, keyOf)
  {
    var keys: seq<string> := [];
    var counts: map<string, nat> := map[];
    for i := 0 to |s|
      invariant keys == FirstKeys(s[..i], keyOf)
      invariant forall k :: k in counts <==> k in keys
      invariant forall k :: k in counts ==> counts[k] == |Keep(s[..i], HasKey(keyOf, k))|
    {
      var k := keyOf(s[i]);
      CountStep(s, i, keyOf);
      if k !in counts {
        keys := keys + [k];
      }
      counts := counts[k := (if k in counts then counts[k] else 0) + 1];
    }
    assert s[..|s|] == s;
    tallies := seq(|keys|, j requires 0 <= j < |keys| => Tally(keys[j], counts[keys[j]]));
  }

  /** What one more element does to the keys and to every key's elements. */
  lemma CountStep<T>(s: seq<T>, i: int, keyOf: T -> string)
    requires 0 <= i < |s|
    ensures FirstKeys(s[..i + 1], keyOf) ==
      if keyOf(s[i]) in FirstKeys(s[..i], keyOf) then FirstKeys(s[..i], keyOf) else FirstKeys(s[..i], keyOf) + [keyOf(s[i])]
    ensures forall k :: Keep(s[..i + 1], HasKey(keyOf, k))
                     == Keep(s[..i], HasKey(keyOf, k)) + (if k == keyOf(s[i]) then [s[i]] else [])
    ensures keyOf(s[i]) !in FirstKeys(s[..i], keyOf) ==> Keep(s[..i], HasKey(keyOf, keyOf(s[i]))) == []
  {
    assert s[..i + 1] == s[..i] + [s[i]];
    assert s[..i + 1][..i] == s[..i];
    forall k ensures Keep(s[..i + 1], HasKey(keyOf, k)) == Keep(s[..i], HasKey(keyOf, k)) + (if k == keyOf(s[i]) then [s[i]] else []) {
      KeepSnoc(s[..i], s[i], HasKey(keyOf, k));
    }
    if keyOf(s[i]) !in FirstKeys(s[..i], keyOf) {
      FirstKeysComplete(s[..i], keyOf);
      KeepNone(s[..i], HasKey(keyOf, keyOf(s[i])));
    }
  }

  lemma {:induction false} TotalTallies<T>(s: seq<T>, keyOf: T -> string, ks: seq<string>)
    ensures Total(TalliesFor(s, keyOf, ks)) == SumCounts(s, keyOf, ks)
  {
    if ks != [] {
      assert TalliesFor(s, keyOf, ks)[1..] == TalliesFor(s, keyOf, ks[1..]);
      TotalTallies(s, keyOf, ks[1..]);
    }
  }

  /** Each counting `Map` lists every value once, counts every value at least once,
      and its counts add up to the number of elements. */
  lemma TalliesCount<T>(s: seq<T>, keyOf: T -> string)
    ensures forall i, j :: 0 <= i < j < |Tallies(s, keyOf)| ==> Tallies(s, keyOf)[i].key != Tallies(s, keyOf)[j].key
    ensures forall i :: 0 <= i < |Tallies(s, keyOf)| ==> Tallies(s, keyOf)[i].count >= 1
    ensures Total(Tallies(s, keyOf)) == |s|
    ensures forall x :: x in s ==> exists i :: 0 <= i < |Tallies(s, keyOf)| && Tallies(s, keyOf)[i].key == keyOf(x)
  {
    var ks := FirstKeys(s, keyOf);
    forall i | 0 <= i < |ks| ensures Tallies(s, keyOf)[i].count >= 1 {
      GroupsOfNonEmpty(s, keyOf, i);
    }
    TotalTallies(s, keyOf, ks);
    KeyedTotal(s, keyOf);
    FirstKeysComplete(s, keyOf);
    forall x | x in s ensures exists i :: 0 <= i < |ks| && Tallies(s, keyOf)[i].key == keyOf(x) {
      var m :| 0 <= m < |s| && s[m] == x;
      var i :| 0 <= i < |ks| && ks[i] == keyOf(x);
      assert Tallies(s, keyOf)[i].key == keyOf(x);
    }
  }

  /** A package without an architecture, a maintainer or a license is counted under
      `unknown` in that facet, whatever its other fields hold. */
  lemma MissingCountedAsUnknown(s: seq<Package>, p: Package)
    requires p in s
    ensures !Truthy(p.architecture) ==>
      exists i :: 0 <= i < |Tallies(s, ArchOrUnknown)| && Tallies(s, ArchOrUnknown)[i].key == "unknown"
    ensures !Truthy(p.maintainer) ==>
      exists i :: 0 <= i < |Tallies(s, MaintainerOrUnknown)| && Tallies(s, MaintainerOrUnknown)[i].key == "unknown"
    ensures !Truthy(p.license) ==>
      exists i :: 0 <= i < |Tallies(s, LicenseOrUnknown)| && Tallies(s, LicenseOrUnknown)[i].key == "unknown"
  {
    TalliesCount(s, ArchOrUnknown);
    TalliesCount(s, MaintainerOrUnknown);
    TalliesCount(s, LicenseOrUnknown);
  }

  // ---------------------------------------------------------------- node ids

  /** The four facets and the id prefix of their nodes. */
  datatype Facet = Architecture | Category | Maintainer | License

  function Prefix(f: Facet): string {
    match f
    case Architecture => "arch-"
    case Category => "cat-"
    case Maintainer => "maintainer-"
    case License => "license-"
  }

  /** The id of the node for value `v` of facet `f`. */
  function NodeId(f: Facet, v: string): string {
    Prefix(f) + v
  }

  /** A leaf of the tree: the facet value's node with its count. The source calls the
      displayed text `label`, a reserved word in Dafny, so it is `name` here. */
  datatype TreeNode = TreeNode(id: string, name: string, count: nat)

  /** A facet's section: its id, its heading and its leaves. */
  datatype Section = Section(id: string, heading: string, children: seq<TreeNode>)

  /** The leaves of facet `f`: id from the raw value, label from `labelOf`. */
  function Leaves(f: Facet, tallies: seq<Tally>, labelOf: string -> string): (r: seq<TreeNode>)
    ensures |r| == |tallies|
    ensures forall i :: 0 <= i < |r| ==>
      r[i].id == NodeId(f, tallies[i].key) && r[i].name == labelOf(tallies[i].key) && r[i].count == tallies[i].count
  {
    seq(|tallies|, i requires 0 <= i < |tallies| =>
      TreeNode(NodeId(f, tallies[i].key), labelOf(tallies[i].key), tallies[i].count))
  }

  /** The identity label: architecture, maintainer and license leaves show the raw
      value. One named function, so that `Tree` and `BuildTree` pass the same value. */
  function Verbatim(v: string): string { v }

  /** The tree the effect builds from the packages. */
  ghost function Tree(packages: seq<Package>): seq<Section> {
    [ Section("architectures", "Architectures", Leaves(Architecture, Tallies(packages, ArchOrUnknown), Verbatim)),
      Section("categories", "Categories", Leaves(Category, Tallies(packages, SidebarCategory), Capitalize)),
      Section("maintainers", "Maintainers", Leaves(Maintainer, Tallies(packages, MaintainerOrUnknown), Verbatim)),
      Section("licenses", "Licenses", Leaves(License, Tallies(packages, LicenseOrUnknown), Verbatim)) ]
  }

  function LeafTotal(nodes: seq<TreeNode>): nat {
    if nodes == [] then 0 else nodes[0].count + LeafTotal(nodes[1..])
  }

  lemma {:induction false} LeafTotalIsTotal(f: Facet, tallies: seq<Tally>, labelOf: string -> string)
    ensures LeafTotal(Leaves(f, tallies, labelOf)) == Total(tallies)
  {
    if tallies != [] {
      assert Leaves(f, tallies, labelOf)[1..] == Leaves(f, tallies[1..], labelOf);
      LeafTotalIsTotal(f, tallies[1..], labelOf);
    }
  }

  /** Every leaf counts at least one package and the counts add up to `n`. */
  ghost predicate Counted(leaves: seq<TreeNode>, n: nat) {
    LeafTotal(leaves) == n && forall i :: 0 <= i < |leaves| ==> leaves[i].count >= 1
  }

  /** The leaves of one facet account for every package exactly once. */
  lemma LeavesCounted<T>(f: Facet, s: seq<T>, keyOf: T -> string, labelOf: string -> string)
    ensures Counted(Leaves(f, Tallies(s, keyOf), labelOf), |s|)
  {
    TalliesCount(s, keyOf);
    LeafTotalIsTotal(f, Tallies(s, keyOf), labelOf);
  }

  /** The first effect: count the packages in each facet and build the four sections.
      In every section each leaf counts at least one package and the counts add up to
      the number of packages. */
  method BuildTree(packages: seq<Package>) returns (nodes: seq<Section>)
    ensures nodes == Tree(packages)
    ensures |nodes| == 4
    ensures forall k :: 0 <= k < |nodes| ==> Counted(nodes[k].children, |packages|)
  {
    var archs := CountBy(packages, ArchOrUnknown);
    var categories := CountBy(packages, SidebarCategory);
    var maintainers := CountBy(packages, MaintainerOrUnknown);
    var licenses := CountBy(packages, LicenseOrUnknown);
    nodes := [
      Section("architectures", "Architectures", Leaves(Architecture, archs, Verbatim)),
      Section("categories", "Categories", Leaves(Category, categories, Capitalize)),
      Section("maintainers", "Maintainers", Leaves(Maintainer, maintainers, Verbatim)),
      Section("licenses", "Licenses", Leaves(License, licenses, Verbatim))
    ];
    LeavesCounted(Architecture, packages, ArchOrUnknown, Verbatim);
    LeavesCounted(Category, packages, SidebarCategory, Capitalize);
    LeavesCounted(Maintainer, packages, MaintainerOrUnknown, Verbatim);
    LeavesCounted(License, packages, LicenseOrUnknown, Verbatim);
  }

  // ---------------------------------------------------------------- node selection

  /** `nodeId.startsWith(...)` in the handler's order, then `substring` by the literal
      lengths 5, 4, 11 and 8; an id with none of the prefixes selects nothing. */
  function ParseId(nodeId: string): Option<(Facet, string)> {
    if IsPrefix("arch-", nodeId) then Some((Architecture, nodeId[5..]))
    else if IsPrefix("cat-", nodeId) then Some((Category, nodeId[4..]))
    else if IsPrefix("maintainer-", nodeId) then Some((Maintainer, nodeId[11..]))
    else if IsPrefix("license-", nodeId) then Some((License, nodeId[8..]))
    else None
  }

  /** No prefix is a prefix of another facet's id, and each literal length is its
      prefix's length: parsing a node id gives back its facet and value. */
  lemma ParseNodeId(f: Facet, v: string)
    ensures ParseId(NodeId(f, v)) == Some((f, v))
  {
    var id := NodeId(f, v);
    assert id[..|Prefix(f)|] == Prefix(f);
    assert id[|Prefix(f)|..] == v;
    match f
    case Architecture =>
    case Category =>
      assert id[0] == 'c';
    case Maintainer =>
      assert id[0] == 'm';
    case License =>
      assert id[0] == 'l';
  }

  /** The selection callbacks: `includes` ? `filter(x => x !== v)` : `[...prev, v]`. */
  function Toggle(prev: seq<string>, v: string): (r: seq<string>)
    ensures v in prev ==> v !in r && IsSubsequence(r, prev) && forall x :: x != v ==> (x in r <==> x in prev)
    ensures v in prev ==> forall x :: multiset(r)[x] == if x == v then 0 else multiset(prev)[x]
    ensures v !in prev ==> r == prev + [v]
  {
    if v in prev then
      KeepCounts(prev, (x: string) => x != v);
      KeepSpec(prev, (x: string) => x != v);
      KeepIsSubsequence(prev, (x: string) => x != v);
      Keep(prev, (x: string) => x != v)
    else prev + [v]
  }

  /** Selecting an absent value and selecting it again restores the list. */
  lemma ToggleTwice(prev: seq<string>, v: string)
    requires v !in prev
    ensures Toggle(Toggle(prev, v), v) == prev
  {
    var other := (x: string) => x != v;
    KeepAppend(prev, [v], other);
    KeepAll(prev, other);
    assert Keep([v], other) == [];
  }

  /** A value selected several times is removed entirely by one more selection, so a
      second one appends it once at the end. */
  lemma ToggleTwicePresent(prev: seq<string>, v: string)
    requires v in prev
    ensures Toggle(Toggle(prev, v), v) == Keep(prev, (x: string) => x != v) + [v]
  {
  }

  /** The four selection signals. */
  datatype Selection = Selection(
    architectures: seq<string>, categories: seq<string>, maintainers: seq<string>, licenses: seq<string>)

  function Selected(sel: Selection, f: Facet): seq<string> {
    match f
    case Architecture => sel.architectures
    case Category => sel.categories
    case Maintainer => sel.maintainers
    case License => sel.licenses
  }

  /** `handleNodeSelect`: toggle the parsed value in the list its prefix names; an id
      without a known prefix changes nothing. */
  function HandleNodeSelect(sel: Selection, nodeId: string): (r: Selection)
    ensures ParseId(nodeId) == None ==> r == sel
    ensures ParseId(nodeId).Some? ==>
              forall f :: Selected(r, f)
                       == (if f == ParseId(nodeId).value.0 then Toggle(Selected(sel, f), ParseId(nodeId).value.1) else Selected(sel, f))
  {
    match ParseId(nodeId)
    case None => sel
    case Some((f, v)) =>
      match f
      case Architecture => sel.(architectures := Toggle(sel.architectures, v))
      case Category => sel.(categories := Toggle(sel.categories, v))
      case Maintainer => sel.(maintainers := Toggle(sel.maintainers, v))
      case License => sel.(licenses := Toggle(sel.licenses, v))
  }

  /** Selecting a node toggles its value in its own facet's list and leaves the other
      three lists alone. */
  lemma SelectNode(sel: Selection, f: Facet, v: string)
    ensures Selected(HandleNodeSelect(sel, NodeId(f, v)), f) == Toggle(Selected(sel, f), v)
    ensures forall g :: g != f ==> Selected(HandleNodeSelect(sel, NodeId(f, v)), g) == Selected(sel, g)
  {
    ParseNodeId(f, v);
  }

  /** Selecting the same node twice, starting with its value unselected, restores the
      selection. */
  lemma SelectNodeTwice(sel: Selection, f: Facet, v: string)
    requires v !in Selected(sel, f)
    ensures HandleNodeSelect(HandleNodeSelect(sel, NodeId(f, v)), NodeId(f, v)) == sel
  {
    var once := HandleNodeSelect(sel, NodeId(f, v));
    SelectNode(sel, f, v);
    SelectNode(once, f, v);
    ToggleTwice(Selected(sel, f), v);
  }

  /** An id that starts with none of the four prefixes changes nothing. */
  lemma UnknownIdIgnored(sel: Selection, nodeId: string)
    requires forall f :: !IsPrefix(Prefix(f), nodeId)
    ensures HandleNodeSelect(sel, nodeId) == sel
  {
    assert !IsPrefix(Prefix(Architecture), nodeId);
    assert !IsPrefix(Prefix(Category), nodeId);
    assert !IsPrefix(Prefix(Maintainer), nodeId);
    assert !IsPrefix(Prefix(License), nodeId);
  }

  /** A category leaf is labelled with the category's first letter upper-cased, while its
      id keeps the raw category, which the handler recovers. */
  lemma CategoryLeaf(packages: seq<Package>, i: int)
    requires 0 <= i < |Tree(packages)[1].children|
    ensures Tree(packages)[1].children[i].name == Capitalize(Tallies(packages, SidebarCategory)[i].key)
    ensures ParseId(Tree(packages)[1].children[i].id) == Some((Category, Tallies(packages, SidebarCategory)[i].key))
    ensures Tallies(packages, SidebarCategory)[i].key in SidebarCategories
  {
    var t := Tallies(packages, SidebarCategory);
    ParseNodeId(Category, t[i].key);
    FirstKeysSound(packages, SidebarCategory);
    assert t[i].key in FirstKeys(packages, SidebarCategory);
  }
}
