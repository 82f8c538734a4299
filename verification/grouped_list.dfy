/** The grouped list view (`src/components/GroupedPackageList.tsx`): its own filter
    pipeline with `'all'` and channel handling, a category label per package, groups
    sorted by label, each group's packages sorted in place by a key that depends on the
    active filter, and the set of expanded groups. */
module GroupedList {
  import opened Text
  import opened Collections
  import opened Ordering
  import opened Grouping
  import opened Packages
  import Search

  /** The view's `Filters`: architecture, channel and type specs, and two value lists. */
  datatype Filters = Filters(
    architecture: string,
    channel: string,
    packageType: string,
    maintainers: seq<string>,
    licenses: seq<string>)

  /** `spec && spec !== 'all'`: the spec switches its stage on. */
  predicate Engaged(spec: string) {
    spec != "" && spec != "all"
  }

  /** `spec.split(',')`: the raw, untrimmed pieces. */
  function Pieces(spec: string): seq<string> {
    Split(spec, ',')
  }

  // ---------------------------------------------------------------- the stages

  /** The lower-cased name, or a non-empty description lower-cased, contains `term`. */
  predicate TermMatches(p: Package, term: string) {
    || Contains(Lower(p.name), term)
    || (Truthy(p.description) && Contains(Lower(p.description.value), term))
  }

  /** Search: runs only for a non-empty term, which is lower-cased but not trimmed. */
  function SearchStage(searchTerm: string): Package -> bool {
    (p: Package) => searchTerm == "" || TermMatches(p, Lower(searchTerm))
  }

  /** A package with an architecture that contains one of the pieces. */
  predicate ArchMatches(p: Package, pieces: seq<string>) {
    Truthy(p.architecture) && Any(pieces, Search.ContainedIn(p.architecture.value))
  }

  /** Architecture: an `'all'` piece lets everything through; otherwise a package needs
      an architecture containing some piece. */
  function ArchStage(spec: string): Package -> bool {
    (p: Package) => !Engaged(spec) || "all" in Pieces(spec) || ArchMatches(p, Pieces(spec))
  }

  /** Channel: a package without `_source_repo` passes; otherwise its repository must
      contain the channel. */
  function ChannelStage(channel: string): Package -> bool {
    (p: Package) => !Engaged(channel) || !Truthy(p.sourceRepo) || Contains(p.sourceRepo.value, channel)
  }

  /** The six values the type stage classifies into. */
  const ListCategories: seq<string> := ["system", "application", "library", "development", "misc", "other"]

  /** The type stage's classifier: exact, case-sensitive type tests and a raw-name test
      for `kernel`/`core`, first match wins. */
  function ListCategory(p: Package): (c: string)
    ensures c in ListCategories
    ensures c == "system" <==> p.pkgType == Some("system") || Contains(p.name, "kernel") || Contains(p.name, "core")
    ensures c == "library" <==> p.pkgType == Some("library") && !Contains(p.name, "kernel") && !Contains(p.name, "core")
    ensures c == "other" <==>
      && !Contains(p.name, "kernel") && !Contains(p.name, "core")
      && p.pkgType !in {Some("system"), Some("application"), Some("desktop"), Some("library"), Some("development"), Some("misc")}
  {
    if p.pkgType == Some("system") || Contains(p.name, "kernel") || Contains(p.name, "core") then "system"
    else if p.pkgType == Some("application") || p.pkgType == Some("desktop") then "application"
    else if p.pkgType == Some("library") then "library"
    else if p.pkgType == Some("development") then "development"
    else if p.pkgType == Some("misc") then "misc"
    else "other"
  }

  /** A piece selects a category when either one contains the other (no case mapping). */
  predicate KindMatches(category: string, piece: string) {
    Contains(category, piece) || Contains(piece, category)
  }

  function KindMatcher(category: string): string -> bool {
    (t: string) => KindMatches(category, t)
  }

  /** Type: an `'all'` piece lets everything through; otherwise some piece must match
      the package's category. */
  function TypeStage(spec: string): Package -> bool {
    (p: Package) => !Engaged(spec) || "all" in Pieces(spec) || Any(Pieces(spec), KindMatcher(ListCategory(p)))
  }

  /** A package passes every stage of the view. */
  predicate Accepts(p: Package, searchTerm: string, filters: Filters) {
    && SearchStage(searchTerm)(p)
    && ArchStage(filters.architecture)(p)
    && ChannelStage(filters.channel)(p)
    && TypeStage(filters.packageType)(p)
    && Search.ListStage(filters.maintainers, MaintainerOrUnknown)(p)
    && Search.ListStage(filters.licenses, LicenseOrUnknown)(p)
  }

  function AcceptsAll(searchTerm: string, filters: Filters): Package -> bool {
    (p: Package) => Accepts(p, searchTerm, filters)
  }

  /** `if (active) result = result.filter(stage)`. */
  function StageIf(s: seq<Package>, active: bool, stage: Package -> bool): seq<Package> {
    if active then Keep(s, stage) else s
  }

  /** The stages in the effect's order, each under its own condition. */
  function Staged(packages: seq<Package>, searchTerm: string, filters: Filters): seq<Package> {
    var r1 := StageIf(packages, searchTerm != "", SearchStage(searchTerm));
    var r2 := StageIf(r1, Engaged(filters.architecture), ArchStage(filters.architecture));
    var r3 := StageIf(r2, Engaged(filters.channel), ChannelStage(filters.channel));
    var r4 := StageIf(r3, Engaged(filters.packageType), TypeStage(filters.packageType));
    var r5 := StageIf(r4, filters.maintainers != [], Search.ListStage(filters.maintainers, MaintainerOrUnknown));
    StageIf(r5, filters.licenses != [], Search.ListStage(filters.licenses, LicenseOrUnknown))
  }

  /** The conditional stages amount to one filter on the conjunction of the stages:
      a stage whose condition is off would have let everything through anyway. */
  lemma StagedIsKeep(packages: seq<Package>, searchTerm: string, filters: Filters)
    ensures Staged(packages, searchTerm, filters) == Keep(packages, AcceptsAll(searchTerm, filters))
  {
    var s1 := SearchStage(searchTerm);
    var s2 := ArchStage(filters.architecture);
    var s3 := ChannelStage(filters.channel);
    var s4 := TypeStage(filters.packageType);
    var s5 := Search.ListStage(filters.maintainers, MaintainerOrUnknown);
    var s6 := Search.ListStage(filters.licenses, LicenseOrUnknown);
    var q2 := (p: Package) => s1(p) && s2(p);
    var q3 := (p: Package) => s1(p) && s2(p) && s3(p);
    var q4 := (p: Package) => s1(p) && s2(p) && s3(p) && s4(p);
    var q5 := (p: Package) => s1(p) && s2(p) && s3(p) && s4(p) && s5(p);
    var r1 := StageIf(packages, searchTerm != "", s1);
    if searchTerm == "" {
      KeepAll(packages, s1);
    }
    var r2 := StageIf(r1, Engaged(filters.architecture), s2);
    Narrow(packages, s1, s2, q2, Engaged(filters.architecture));
    var r3 := StageIf(r2, Engaged(filters.channel), s3);
    Narrow(packages, q2, s3, q3, Engaged(filters.channel));
    var r4 := StageIf(r3, Engaged(filters.packageType), s4);
    Narrow(packages, q3, s4, q4, Engaged(filters.packageType));
    var r5 := StageIf(r4, filters.maintainers != [], s5);
    Narrow(packages, q4, s5, q5, filters.maintainers != []);
    Narrow(packages, q5, s6, AcceptsAll(searchTerm, filters), filters.licenses != []);
  }

  /** The effect's filtering half: `result` is narrowed stage by stage, each stage only
      when its condition holds. The result keeps, in input order, exactly the packages
      every stage accepts. */
  method FilterPackages(packages: seq<Package>, searchTerm: string, filters: Filters) returns (result: seq<Package>)
    ensures result == Keep(packages, AcceptsAll(searchTerm, filters))
    ensures forall p :: p in result <==> p in packages && Accepts(p, searchTerm, filters)
    ensures IsSubsequence(result, packages)
  {
    result := packages;
    if searchTerm != "" {
      result := Keep(result, SearchStage(searchTerm));
    }
    if Engaged(filters.architecture) {
      result := Keep(result, ArchStage(filters.architecture));
    }
    if Engaged(filters.channel) {
      result := Keep(result, ChannelStage(filters.channel));
    }
    if Engaged(filters.packageType) {
      result := Keep(result, TypeStage(filters.packageType));
    }
    if filters.maintainers != [] {
      result := Keep(result, Search.ListStage(filters.maintainers, MaintainerOrUnknown));
    }
    if filters.licenses != [] {
      result := Keep(result, Search.ListStage(filters.licenses, LicenseOrUnknown));
    }
    assert result == Staged(packages, searchTerm, filters);
    StagedIsKeep(packages, searchTerm, filters);
    KeepSpec(packages, AcceptsAll(searchTerm, filters));
    KeepIsSubsequence(packages, AcceptsAll(searchTerm, filters));
  }

  /** Filtering the view's result again with the same arguments changes nothing. */
  lemma FilterIdempotent(packages: seq<Package>, searchTerm: string, filters: Filters)
    ensures Keep(Keep(packages, AcceptsAll(searchTerm, filters)), AcceptsAll(searchTerm, filters))
         == Keep(packages, AcceptsAll(searchTerm, filters))
  {
    var a := AcceptsAll(searchTerm, filters);
    KeepKeep(packages, a, a, a);
  }

  // ---------------------------------------------------------------- stage facts

  /** An `'all'` piece anywhere in the architecture or type spec switches that stage
      off for every package. */
  lemma AllPieceKeepsEverything(p: Package, spec: string)
    requires "all" in Pieces(spec)
    ensures ArchStage(spec)(p) && TypeStage(spec)(p)
  {
  }

  /** An engaged architecture stage without an `'all'` piece drops every package that
      has no architecture (`search.ts` would read it as `'unknown'` instead). */
  lemma MissingArchitectureDropped(p: Package, spec: string)
    requires Engaged(spec) && "all" !in Pieces(spec) && !Truthy(p.architecture)
    ensures !ArchStage(spec)(p)
  {
  }

  /** The pieces are not trimmed or stripped of empties: an empty piece (from a
      trailing or doubled comma) is contained in every architecture, so such a spec
      keeps exactly the packages that have one. */
  lemma EmptyPieceMatchesAnyArchitecture(p: Package, spec: string)
    requires Engaged(spec) && "all" !in Pieces(spec) && "" in Pieces(spec)
    ensures ArchStage(spec)(p) <==> Truthy(p.architecture)
  {
    if Truthy(p.architecture) {
      var k :| 0 <= k < |Pieces(spec)| && Pieces(spec)[k] == "";
      ContainsEmpty(p.architecture.value);
      assert Search.ContainedIn(p.architecture.value)(Pieces(spec)[k]);
    }
  }

  /** The channel stage never drops a package that has no source repository. */
  lemma NoSourcePassesChannel(p: Package, channel: string)
    requires !Truthy(p.sourceRepo)
    ensures ChannelStage(channel)(p)
  {
  }

  /** The classifiers disagree: a package without a type whose lower-cased name
      contains `lib` (and neither `kernel` nor `core`, in any case) is `'other'` here
      but `'libraries'` in `search.ts`. */
  lemma LibNameClassifiedDifferently(p: Package)
    requires p.pkgType == None && Contains(Lower(p.name), "lib")
    requires !Contains(Lower(p.name), "kernel") && !Contains(Lower(p.name), "core")
    requires !Contains(p.name, "kernel") && !Contains(p.name, "core")
    ensures ListCategory(p) == "other"
    ensures Search.CategoryOf(p) == "libraries"
  {
    assert Lower(OrElse(p.pkgType, "")) == "";
  }

  // ---------------------------------------------------------------- grouping

  /** The fixed labels of the known types. */
  const TypeLabels: map<string, string> := map[
    "system" := "System", "application" := "Applications", "desktop" := "Applications",
    "library" := "Libraries", "development" := "Development", "shell" := "Shells",
    "misc" := "Miscellaneous"]

  /** The labels a package without a type can get. */
  const NameLabels: seq<string> := ["System", "Libraries", "Development", "Other"]

  /** The group label: the `switch` on a non-empty type (fixed labels for known types,
      otherwise the type with its first letter upper-cased), or name tests on the
      lower-cased name when there is no type. */
  function GroupLabel(p: Package): (r: string)
    ensures r != [] && !IsLowerAscii(r[0])
    ensures Truthy(p.pkgType) && p.pkgType.value in TypeLabels ==> r == TypeLabels[p.pkgType.value]
    ensures Truthy(p.pkgType) && p.pkgType.value !in TypeLabels ==> r == Capitalize(p.pkgType.value)
    ensures !Truthy(p.pkgType) ==> r in NameLabels
    ensures !Truthy(p.pkgType) ==> var n := Lower(p.name);
      (r == "System" <==> Contains(n, "kernel") || Contains(n, "core") || Contains(n, "system"))
    ensures !Truthy(p.pkgType) ==> var n := Lower(p.name);
      (r == "Other" <==> !Contains(n, "kernel") && !Contains(n, "core") && !Contains(n, "system") &&
                         !Contains(n, "lib") && !Contains(n, "dev") && !Contains(n, "devel") && !Contains(n, "sdk"))
  {
    if Truthy(p.pkgType) then
      var t := p.pkgType.value;
      if t == "system" then "System"
      else if t == "application" || t == "desktop" then "Applications"
      else if t == "library" then "Libraries"
      else if t == "development" then "Development"
      else if t == "shell" then "Shells"
      else if t == "misc" then "Miscellaneous"
      else Capitalize(t)
    else
      var n := Lower(p.name);
      if Contains(n, "kernel") || Contains(n, "core") || Contains(n, "system") then "System"
      else if Contains(n, "lib") then "Libraries"
      else if Contains(n, "dev") || Contains(n, "devel") || Contains(n, "sdk") then "Development"
      else "Other"
  }

  /** The order of the groups: every branch of the comparator compares the labels with
      the collator, whatever filter is active. */
  function GroupOrder(collate: (string, string) -> int): (Group<Package>, Group<Package>) -> int {
    ByKey(collate, NameOf<Package>)
  }

  /** The key the packages inside a group are sorted by: the first active filter among
      architecture, maintainers and licenses picks its field (with `'unknown'`
      fallback); otherwise the raw name. */
  function InGroupKey(filters: Filters): Package -> string {
    if Engaged(filters.architecture) then ArchOrUnknown
    else if filters.maintainers != [] then MaintainerOrUnknown
    else if filters.licenses != [] then LicenseOrUnknown
    else (p: Package) => p.name
  }

  function InGroupOrder(filters: Filters, collate: (string, string) -> int): (Package, Package) -> int {
    ByKey(collate, InGroupKey(filters))
  }

  /** A group with its packages sorted by `order`. */
  function SortItems(g: Group<Package>, order: (Package, Package) -> int): Group<Package> {
    Group(g.name, StableSort(g.items, order))
  }

  /** What the grouping half of the effect produces from the filtered list: the label
      buckets in label order, each one sorted by the in-group key. */
  ghost function Arranged(s: seq<Package>, filters: Filters, collate: (string, string) -> int): seq<Group<Package>> {
    var byLabel := StableSort(GroupsOf(s, GroupLabel), GroupOrder(collate));
    seq(|byLabel|, i requires 0 <= i < |byLabel| => SortItems(byLabel[i], InGroupOrder(filters, collate)))
  }

  lemma GroupOrderByName(collate: (string, string) -> int, a: Group<Package>, b: Group<Package>)
    ensures GroupOrder(collate)(a, b) == collate(a.name, b.name)
  {
    assert GroupOrder(collate) == ByKey(collate, NameOf<Package>);
    assert NameOf<Package>(a) == a.name && NameOf<Package>(b) == b.name;
  }

  /** The arranged groups partition the list by label. */
  lemma ArrangedPartition(s: seq<Package>, filters: Filters, collate: (string, string) -> int)
    ensures IsPartition(Arranged(s, filters, collate), s, GroupLabel)
  {
    var buckets := GroupsOf(s, GroupLabel);
    var byLabel := StableSort(buckets, GroupOrder(collate));
    var g := Arranged(s, filters, collate);
    StableSortMultiset(buckets, GroupOrder(collate));
    GroupsOfPartition(s, GroupLabel);
    PartitionPermutation(buckets, byLabel, s, GroupLabel);
    forall i | 0 <= i < |byLabel| ensures multiset(g[i].items) == multiset(byLabel[i].items) {
      StableSortMultiset(byLabel[i].items, InGroupOrder(filters, collate));
    }
    PartitionReordered(byLabel, g, s, GroupLabel);
  }

  /** The arranged groups come in label order under the collator. */
  lemma ArrangedSorted(s: seq<Package>, filters: Filters, collate: (string, string) -> int)
    requires IsTotalPreorder(collate)
    ensures SortedBy(Arranged(s, filters, collate), GroupOrder(collate))
  {
    var buckets := GroupsOf(s, GroupLabel);
    var byLabel := StableSort(buckets, GroupOrder(collate));
    var g := Arranged(s, filters, collate);
    ByKeyPreorder(collate, NameOf<Package>);
    StableSortSorted(buckets, GroupOrder(collate));
    forall i, j | 0 <= i < j < |g| ensures InOrder(GroupOrder(collate), g, i, j) {
      assert InOrder(GroupOrder(collate), byLabel, i, j);
      GroupOrderByName(collate, byLabel[i], byLabel[j]);
      GroupOrderByName(collate, g[i], g[j]);
    }
  }

  /** Each arranged group holds exactly its label's packages, in in-group key order and,
      among equal keys, in the order of the filtered list. */
  lemma ArrangedItems(s: seq<Package>, filters: Filters, collate: (string, string) -> int)
    requires IsTotalPreorder(collate)
    ensures forall grp :: grp in Arranged(s, filters, collate) ==>
      grp.items == StableSort(Keep(s, HasKey(GroupLabel, grp.name)), InGroupOrder(filters, collate))
    ensures forall grp :: grp in Arranged(s, filters, collate) ==>
      SortedBy(grp.items, InGroupOrder(filters, collate))
  {
    var buckets := GroupsOf(s, GroupLabel);
    var byLabel := StableSort(buckets, GroupOrder(collate));
    var g := Arranged(s, filters, collate);
    StableSortMultiset(buckets, GroupOrder(collate));
    ByKeyPreorder(collate, InGroupKey(filters));
    forall grp | grp in g
      ensures grp.items == StableSort(Keep(s, HasKey(GroupLabel, grp.name)), InGroupOrder(filters, collate))
      ensures SortedBy(grp.items, InGroupOrder(filters, collate))
    {
      var i :| 0 <= i < |g| && g[i] == grp;
      assert byLabel[i] in multiset(buckets);
      StableSortSorted(byLabel[i].items, InGroupOrder(filters, collate));
    }
  }

  /** The `.map` over the sorted entries: copy each group's packages into an array,
      sort it in place by `order`, and keep the label. */
  method SortEachGroup(byLabel: seq<Group<Package>>, order: (Package, Package) -> int)
    returns (groups: seq<Group<Package>>)
    requires IsTotalPreorder(order)
    ensures |groups| == |byLabel|
    ensures forall k :: 0 <= k < |groups| ==> groups[k] == SortItems(byLabel[k], order)
  {
    groups := [];
    for i := 0 to |byLabel|
      invariant |groups| == i
      invariant forall k :: 0 <= k < i ==> groups[k] == SortItems(byLabel[k], order)
    {
      var items := byLabel[i].items;
      var a := new Package[|items|](k requires 0 <= k < |items| => items[k]);
      assert a[..] == items;
      SortInPlace(a, order);
      groups := groups + [Group(byLabel[i].name, a[..])];
    }
  }

  /** The grouping half of the effect: fill the label `Map`, sort its entries by label,
      then sort each group's packages in place by the in-group key. */
  method GroupPackages(s: seq<Package>, filters: Filters, collate: (string, string) -> int)
    returns (groups: seq<Group<Package>>)
    requires IsTotalPreorder(collate)
    ensures groups == Arranged(s, filters, collate)
    ensures IsPartition(groups, s, GroupLabel)
    ensures SortedBy(groups, GroupOrder(collate))
    ensures forall grp :: grp in groups ==>
      grp.items == StableSort(Keep(s, HasKey(GroupLabel, grp.name)), InGroupOrder(filters, collate))
  {
    var buckets := BucketBy(s, GroupLabel);
    ByKeyPreorder(collate, NameOf<Package>);
    var byLabel := SortCopy(buckets, GroupOrder(collate));
    ByKeyPreorder(collate, InGroupKey(filters));
    groups := SortEachGroup(byLabel, InGroupOrder(filters, collate));
    ArrangedPartition(s, filters, collate);
    ArrangedSorted(s, filters, collate);
    ArrangedItems(s, filters, collate);
  }

  // ---------------------------------------------------------------- expanded groups

  /** Adding a name that is absent, or deleting one that is present. */
  function Toggled(expanded: set<string>, name: string): (r: set<string>)
    ensures name in r <==> name !in expanded
    ensures r - {name} == expanded - {name}
  {
    if name in expanded then expanded - {name} else expanded + {name}
  }

  /** Toggling the same group twice restores the set. */
  lemma ToggledTwice(expanded: set<string>, name: string)
    ensures Toggled(Toggled(expanded, name), name) == expanded
  {
  }

  /** The component's state: the groups on display and the names of the expanded ones. */
  class GroupedPackageList {
    var groupedPackages: seq<Group<Package>>
    var expandedGroups: set<string>

    constructor ()
      ensures groupedPackages == [] && expandedGroups == {}
    {
      groupedPackages := [];
      expandedGroups := {};
    }

    /** The effect: filter, group and sort, then publish the groups; which groups are
        expanded is left as it was. */
    method Refresh(packages: seq<Package>, searchTerm: string, filters: Filters, collate: (string, string) -> int)
      requires IsTotalPreorder(collate)
      modifies this
      ensures groupedPackages == Arranged(Keep(packages, AcceptsAll(searchTerm, filters)), filters, collate)
      ensures expandedGroups == old(expandedGroups)
    {
      var result := FilterPackages(packages, searchTerm, filters);
      var groups := GroupPackages(result, filters, collate);
      groupedPackages := groups;
    }

    /** `toggleGroup`: copy the set, then delete the name if present or add it. */
    method ToggleGroup(groupName: string)
      modifies this
      ensures expandedGroups == Toggled(old(expandedGroups), groupName)
      ensures groupedPackages == old(groupedPackages)
    {
      var next := expandedGroups;
      if groupName in next {
        next := next - {groupName};
      } else {
        next := next + {groupName};
      }
      expandedGroups := next;
    }
  }
}
