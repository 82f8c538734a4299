/** The list view's filter pipeline: the six filters, the category classifier they
    share, their composition in `applyFilters`, the name sort and the first-letter
    grouping (`src/utils/search.ts`). */
module Search {
  import opened Text
  import opened Collections
  import opened Ordering
  import opened Grouping
  import opened Packages

  /** The `Filters` record: comma-separated architecture and category specs and
      three lists of accepted values. */
  datatype Filters = Filters(
    architecture: string,
    packageType: string,
    maintainers: seq<string>,
    licenses: seq<string>,
    sources: seq<string>)

  // ---------------------------------------------------------------- search term

  /** `name`, `description` (when present) or `key`, lower-cased, contains `term`. */
  predicate MatchesTerm(p: Package, term: string) {
    || Contains(Lower(p.name), term)
    || (p.description.Some? && Contains(Lower(p.description.value), term))
    || Contains(Lower(p.key), term)
  }

  /** The search stage as a filter predicate: everything passes a blank term. */
  function SearchStage(searchTerm: string): Package -> bool {
    var term := Trim(Lower(searchTerm));
    (p: Package) => term == "" || MatchesTerm(p, term)
  }

  /** `filterBySearchTerm`: the term is lower-cased and trimmed; a blank term keeps the
      list as it is, otherwise exactly the matching packages are kept, in order. */
  function FilterBySearchTerm(packages: seq<Package>, searchTerm: string): (r: seq<Package>)
    ensures Trim(Lower(searchTerm)) == "" ==> r == packages
    ensures Trim(Lower(searchTerm)) != "" ==>
      forall p :: p in r <==> p in packages && MatchesTerm(p, Trim(Lower(searchTerm)))
    ensures Trim(Lower(searchTerm)) != "" ==>
      forall p :: multiset(r)[p] == if MatchesTerm(p, Trim(Lower(searchTerm)))
                                    then multiset(packages)[p] else 0
    ensures IsSubsequence(r, packages)
  {
    if Trim(Lower(searchTerm)) == "" then
      SubsequenceRefl(packages);
      packages
    else
      KeepCounts(packages, SearchStage(searchTerm));
      KeepSpec(packages, SearchStage(searchTerm));
      KeepIsSubsequence(packages, SearchStage(searchTerm));
      Keep(packages, SearchStage(searchTerm))
  }

  // ---------------------------------------------------------------- comma-separated specs

  /** `.map(a => a.trim())`. */
  function TrimAll(parts: seq<string>): (r: seq<string>)
    ensures |r| == |parts|
    ensures forall k :: 0 <= k < |parts| ==> r[k] == Trim(parts[k])
  {
    seq(|parts|, k requires 0 <= k < |parts| => Trim(parts[k]))
  }

  predicate NonEmpty(t: string) {
    t != ""
  }

  /** `spec.split(',').map(a => a.trim()).filter(Boolean)`. */
  function Tokens(spec: string): seq<string> {
    Keep(TrimAll(Split(spec, ',')), NonEmpty)
  }

  /** Each token is non-empty, has no surrounding white space and holds no comma. */
  lemma TokensWellFormed(spec: string)
    ensures forall i :: 0 <= i < |Tokens(spec)| ==>
      Tokens(spec)[i] != "" && Trim(Tokens(spec)[i]) == Tokens(spec)[i] && ',' !in Tokens(spec)[i]
  {
    var parts := Split(spec, ',');
    var trimmed := TrimAll(parts);
    TrimmedParts(parts);
    KeepMembers(trimmed, NonEmpty);
  }

  /** The tokens are exactly the non-empty trimmed pieces between commas. */
  lemma TokensMembers(spec: string)
    ensures forall t :: t in Tokens(spec) <==> t in TrimAll(Split(spec, ',')) && t != ""
  {
    KeepSpec(TrimAll(Split(spec, ',')), NonEmpty);
  }

  /** Trimming comma-free pieces leaves trimmed, comma-free pieces. */
  lemma TrimmedParts(parts: seq<string>)
    requires forall k :: 0 <= k < |parts| ==> ',' !in parts[k]
    ensures forall t :: t in TrimAll(parts) ==> Trim(t) == t && ',' !in t
  {
    var trimmed := TrimAll(parts);
    forall t | t in trimmed ensures Trim(t) == t && ',' !in t {
      var k :| 0 <= k < |trimmed| && trimmed[k] == t;
      TokenFromPart(parts, k);
    }
  }

  /** Trimming a comma-free piece twice changes nothing and adds no comma. */
  lemma TokenFromPart(parts: seq<string>, k: int)
    requires 0 <= k < |parts| && ',' !in parts[k]
    ensures Trim(Trim(parts[k])) == Trim(parts[k]) && ',' !in Trim(parts[k])
  {
    TrimIdempotent(parts[k]);
    if ',' in Trim(parts[k]) {
      InTrim(parts[k], ',');
    }
  }

  /** `t => s.includes(t)`. */
  function ContainedIn(s: string): string -> bool {
    (t: string) => Contains(s, t)
  }

  // ---------------------------------------------------------------- architecture

  /** Some token occurs in the architecture, read as `'unknown'` when missing. */
  predicate ArchMatches(p: Package, tokens: seq<string>) {
    Any(tokens, ContainedIn(ArchOrUnknown(p)))
  }

  function ArchStage(spec: string): Package -> bool {
    (p: Package) => Trim(spec) == "" || ArchMatches(p, Tokens(spec))
  }

  /** `filterByArchitecture`: a blank spec keeps the list as it is; otherwise a package
      stays iff one of the tokens is a case-sensitive substring of its architecture. */
  function FilterByArchitecture(packages: seq<Package>, spec: string): (r: seq<Package>)
    ensures Trim(spec) == "" ==> r == packages
    ensures Trim(spec) != "" ==> forall p :: p in r <==>
      p in packages && exists i :: 0 <= i < |Tokens(spec)| && Contains(ArchOrUnknown(p), Tokens(spec)[i])
    ensures Trim(spec) != "" ==>
      forall p :: multiset(r)[p] == if ArchMatches(p, Tokens(spec))
                                    then multiset(packages)[p] else 0
    ensures IsSubsequence(r, packages)
  {
    if Trim(spec) == "" then
      SubsequenceRefl(packages);
      packages
    else
      KeepCounts(packages, ArchStage(spec));
      KeepSpec(packages, ArchStage(spec));
      KeepIsSubsequence(packages, ArchStage(spec));
      Keep(packages, ArchStage(spec))
  }

  // ---------------------------------------------------------------- category

  /** The nine values `getCategoryForPackage` can return. */
  const SearchCategories: seq<string> :=
    ["core", "applications", "libraries", "development", "server", "runtime", "editor", "browser", "other"]

  /** `getCategoryForPackage`: the first rule that matches the lower-cased name and
      type decides. */
  function CategoryOf(p: Package): (c: string)
    ensures c in SearchCategories
    ensures var name, t := Lower(p.name), Lower(OrElse(p.pkgType, ""));
      c == "core" <==> t == "system" || Contains(name, "kernel") || Contains(name, "core")
    ensures var name, t := Lower(p.name), Lower(OrElse(p.pkgType, ""));
      c == "libraries" <==>
        && !(t == "system" || Contains(name, "kernel") || Contains(name, "core"))
        && t !in {"application", "desktop", "gui"}
        && (t == "library" || Contains(name, "lib"))
    ensures var name, t := Lower(p.name), Lower(OrElse(p.pkgType, ""));
      c == "other" <==>
        && !Contains(name, "kernel") && !Contains(name, "core") && !Contains(name, "lib")
        && t !in {"system", "application", "desktop", "gui", "library", "development", "devel",
                  "server", "runtime", "lang", "editor", "browser"}
  {
    var name := Lower(p.name);
    var t := Lower(OrElse(p.pkgType, ""));
    if t == "system" || Contains(name, "kernel") || Contains(name, "core") then "core"
    else if t == "application" || t == "desktop" || t == "gui" then "applications"
    else if t == "library" || Contains(name, "lib") then "libraries"
    else if t == "development" || t == "devel" then "development"
    else if t == "server" then "server"
    else if t == "runtime" || t == "lang" then "runtime"
    else if t == "editor" then "editor"
    else if t == "browser" then "browser"
    else "other"
  }

  /** A token selects a category when either one contains the other (token lower-cased). */
  predicate CategoryMatches(category: string, token: string) {
    Contains(category, Lower(token)) || Contains(Lower(token), category)
  }

  function CategoryMatcher(category: string): string -> bool {
    (t: string) => CategoryMatches(category, t)
  }

  function CategoryStage(spec: string): Package -> bool {
    (p: Package) => Trim(spec) == "" || Any(Tokens(spec), CategoryMatcher(CategoryOf(p)))
  }

  /** `filterByCategory`: a blank spec keeps the list; otherwise a package stays iff
      some token and its category match in either direction. */
  function FilterByCategory(packages: seq<Package>, spec: string): (r: seq<Package>)
    ensures Trim(spec) == "" ==> r == packages
    ensures Trim(spec) != "" ==> forall p :: p in r <==>
      p in packages && exists i :: 0 <= i < |Tokens(spec)| && CategoryMatches(CategoryOf(p), Tokens(spec)[i])
    ensures Trim(spec) != "" ==>
      forall p :: multiset(r)[p] == if Any(Tokens(spec), CategoryMatcher(CategoryOf(p)))
                                    then multiset(packages)[p] else 0
    ensures IsSubsequence(r, packages)
  {
    if Trim(spec) == "" then
      SubsequenceRefl(packages);
      packages
    else
      KeepCounts(packages, CategoryStage(spec));
      KeepSpec(packages, CategoryStage(spec));
      KeepIsSubsequence(packages, CategoryStage(spec));
      Keep(packages, CategoryStage(spec))
  }

  /** A spec made of one word without commas or surrounding white space has that word
      as its only token. */
  lemma TokensOfWord(w: string)
    requires w != [] && ',' !in w && !IsSpace(w[0]) && !IsSpace(w[|w| - 1])
    ensures Tokens(w) == [w]
  {
    assert Split(w, ',') == [w] by {
      SplitJoin([w], ',');
    }
    TrimOfTrimmed(w);
    assert TrimAll([w]) == [w];
    KeepAll([w], NonEmpty);
  }

  /** The option value the page uses for "no restriction". */
  const AllOption: string := "all"

  /** No two adjacent characters of `s` are both `'l'`. */
  predicate NoDoubleL(s: string) {
    forall i :: 0 <= i < |s| - 1 ==> !(s[i] == 'l' && s[i + 1] == 'l')
  }

  /** No category contains `"all"` (none has a double `l`), and `"all"`, being
      shorter than every category, contains none. */
  lemma NoCategoryMatchesAll(c: string)
    requires c in SearchCategories
    ensures !CategoryMatches(c, AllOption)
  {
    var all := AllOption;
    assert Lower(all) == all;
    assert NoDoubleL(c);
    forall i | 0 <= i && i + |all| <= |c| ensures !OccursAt(c, all, i) {
      assert c[i + 1] != 'l' || c[i + 2] != 'l';
      assert c[i..i + |all|][1] == c[i + 1] && c[i..i + |all|][2] == c[i + 2];
    }
    assert |c| > |all|;
  }

  /** The `'all'` that the page passes as its initial category is not special here: it
      matches no category, so the category filter drops every package. */
  lemma CategoryAllDropsEverything(packages: seq<Package>)
    ensures FilterByCategory(packages, AllOption) == []
  {
    var all := AllOption;
    TokensOfWord(all);
    TrimOfTrimmed(all);
    forall i | 0 <= i < |packages| ensures !CategoryStage(all)(packages[i]) {
      var cat := CategoryOf(packages[i]);
      NoCategoryMatchesAll(cat);
      AnySingle(all, CategoryMatcher(cat));
    }
    KeepNone(packages, CategoryStage(all));
  }

  /** Likewise `'all'` as the architecture keeps only packages whose architecture
      (or its `'unknown'` fallback) contains `"all"`. */
  lemma ArchAllIsLiteral(packages: seq<Package>)
    ensures forall p :: p in FilterByArchitecture(packages, AllOption) <==>
      p in packages && Contains(ArchOrUnknown(p), AllOption)
  {
    var all := AllOption;
    TokensOfWord(all);
    TrimOfTrimmed(all);
    assert FilterByArchitecture(packages, all) == Keep(packages, ArchStage(all));
    KeepSpec(packages, ArchStage(all));
    forall p ensures ArchStage(all)(p) == Contains(ArchOrUnknown(p), all) {
      AnySingle(all, ContainedIn(ArchOrUnknown(p)));
    }
  }

  /** A spec that is not blank but has no token (only commas and white space) does not
      switch the architecture and category filters off: `some` over no token is false,
      so both drop every package. */
  lemma NoTokensDropsEverything(packages: seq<Package>, spec: string)
    requires Trim(spec) != "" && Tokens(spec) == []
    ensures FilterByArchitecture(packages, spec) == []
    ensures FilterByCategory(packages, spec) == []
  {
    KeepNone(packages, ArchStage(spec));
    KeepNone(packages, CategoryStage(spec));
  }

  /** A spec whose comma pieces are all blank has no token. */
  lemma BlankPiecesNoTokens(spec: string)
    requires forall k :: 0 <= k < |Split(spec, ',')| ==> Trim(Split(spec, ',')[k]) == ""
    ensures Tokens(spec) == []
  {
    KeepNone(TrimAll(Split(spec, ',')), NonEmpty);
  }

  /** The spec `","` is such a spec: it is not blank, and both its pieces are empty. */
  lemma LoneCommaHasNoTokens(c: string)
    requires c == ","
    ensures Trim(c) != "" && Tokens(c) == []
  {
    TrimOfTrimmed(c);
    assert c[1..] == [];
    assert Split(c, ',') == ["", ""];
    BlankPiecesNoTokens(c);
  }

  // ---------------------------------------------------------------- value lists

  /** Membership of a field (with its `'unknown'` fallback) in a list; an empty list
      lets everything through. */
  function ListStage(list: seq<string>, field: Package -> string): Package -> bool {
    (p: Package) => list == [] || field(p) in list
  }

  /** `filterByMaintainers`. */
  function FilterByMaintainers(packages: seq<Package>, maintainers: seq<string>): (r: seq<Package>)
    ensures maintainers == [] ==> r == packages
    ensures maintainers != [] ==> forall p :: p in r <==> p in packages && MaintainerOrUnknown(p) in maintainers
    ensures maintainers != [] ==>
      forall p :: multiset(r)[p] == if MaintainerOrUnknown(p) in maintainers
                                    then multiset(packages)[p] else 0
    ensures IsSubsequence(r, packages)
  {
    if maintainers == [] then
      SubsequenceRefl(packages);
      packages
    else
      KeepCounts(packages, ListStage(maintainers, MaintainerOrUnknown));
      KeepSpec(packages, ListStage(maintainers, MaintainerOrUnknown));
      KeepIsSubsequence(packages, ListStage(maintainers, MaintainerOrUnknown));
      Keep(packages, ListStage(maintainers, MaintainerOrUnknown))
  }

  /** `filterByLicenses`. */
  function FilterByLicenses(packages: seq<Package>, licenses: seq<string>): (r: seq<Package>)
    ensures licenses == [] ==> r == packages
    ensures licenses != [] ==> forall p :: p in r <==> p in packages && LicenseOrUnknown(p) in licenses
    ensures licenses != [] ==>
      forall p :: multiset(r)[p] == if LicenseOrUnknown(p) in licenses
                                    then multiset(packages)[p] else 0
    ensures IsSubsequence(r, packages)
  {
    if licenses == [] then
      SubsequenceRefl(packages);
      packages
    else
      KeepCounts(packages, ListStage(licenses, LicenseOrUnknown));
      KeepSpec(packages, ListStage(licenses, LicenseOrUnknown));
      KeepIsSubsequence(packages, ListStage(licenses, LicenseOrUnknown));
      Keep(packages, ListStage(licenses, LicenseOrUnknown))
  }

  /** `filterBySources`. */
  function FilterBySources(packages: seq<Package>, sources: seq<string>): (r: seq<Package>)
    ensures sources == [] ==> r == packages
    ensures sources != [] ==> forall p :: p in r <==> p in packages && SourceOrUnknown(p) in sources
    ensures sources != [] ==>
      forall p :: multiset(r)[p] == if SourceOrUnknown(p) in sources
                                    then multiset(packages)[p] else 0
    ensures IsSubsequence(r, packages)
  {
    if sources == [] then
      SubsequenceRefl(packages);
      packages
    else
      KeepCounts(packages, ListStage(sources, SourceOrUnknown));
      KeepSpec(packages, ListStage(sources, SourceOrUnknown));
      KeepIsSubsequence(packages, ListStage(sources, SourceOrUnknown));
      Keep(packages, ListStage(sources, SourceOrUnknown))
  }

  // ---------------------------------------------------------------- applyFilters

  /** The six filters in `applyFilters`' order: search, architecture, category,
      sources, maintainers, licenses. */
  function Filtered(packages: seq<Package>, searchTerm: string, filters: Filters): seq<Package> {
    var afterSearch := FilterBySearchTerm(packages, searchTerm);
    var afterArch := FilterByArchitecture(afterSearch, filters.architecture);
    var afterCategory := FilterByCategory(afterArch, filters.packageType);
    var afterSources := FilterBySources(afterCategory, filters.sources);
    var afterMaintainers := FilterByMaintainers(afterSources, filters.maintainers);
    FilterByLicenses(afterMaintainers, filters.licenses)
  }

  /** A package passes every stage. */
  predicate Accepts(p: Package, searchTerm: string, filters: Filters) {
    && SearchStage(searchTerm)(p)
    && ArchStage(filters.architecture)(p)
    && CategoryStage(filters.packageType)(p)
    && ListStage(filters.sources, SourceOrUnknown)(p)
    && ListStage(filters.maintainers, MaintainerOrUnknown)(p)
    && ListStage(filters.licenses, LicenseOrUnknown)(p)
  }

  function AcceptsAll(searchTerm: string, filters: Filters): Package -> bool {
    (p: Package) => Accepts(p, searchTerm, filters)
  }

  /** A stage that is switched off is the filter that keeps everything. */
  lemma InactiveIsKeep(packages: seq<Package>, stage: Package -> bool)
    requires forall p :: stage(p)
    ensures Keep(packages, stage) == packages
  {
    KeepAll(packages, stage);
  }

  /** The pipeline is one filter on the conjunction of the stages. */
  lemma FilteredIsKeep(packages: seq<Package>, searchTerm: string, filters: Filters)
    ensures Filtered(packages, searchTerm, filters) == Keep(packages, AcceptsAll(searchTerm, filters))
  {
    var s1 := SearchStage(searchTerm);
    var s2 := ArchStage(filters.architecture);
    var s3 := CategoryStage(filters.packageType);
    var s4 := ListStage(filters.sources, SourceOrUnknown);
    var s5 := ListStage(filters.maintainers, MaintainerOrUnknown);
    var s6 := ListStage(filters.licenses, LicenseOrUnknown);
    var q2 := (p: Package) => s1(p) && s2(p);
    var q3 := (p: Package) => s1(p) && s2(p) && s3(p);
    var q4 := (p: Package) => s1(p) && s2(p) && s3(p) && s4(p);
    var q5 := (p: Package) => s1(p) && s2(p) && s3(p) && s4(p) && s5(p);
    var a1 := FilterBySearchTerm(packages, searchTerm);
    if Trim(Lower(searchTerm)) == "" { InactiveIsKeep(packages, s1); }
    assert a1 == Keep(packages, s1);
    var a2 := FilterByArchitecture(a1, filters.architecture);
    Narrow(packages, s1, s2, q2, Trim(filters.architecture) != "");
    var a3 := FilterByCategory(a2, filters.packageType);
    Narrow(packages, q2, s3, q3, Trim(filters.packageType) != "");
    var a4 := FilterBySources(a3, filters.sources);
    Narrow(packages, q3, s4, q4, filters.sources != []);
    var a5 := FilterByMaintainers(a4, filters.maintainers);
    Narrow(packages, q4, s5, q5, filters.maintainers != []);
    var a6 := FilterByLicenses(a5, filters.licenses);
    Narrow(packages, q5, s6, AcceptsAll(searchTerm, filters), filters.licenses != []);
  }

  /** `applyFilters`: copy the list, then narrow `result` one filter at a time. The
      result keeps, in input order, exactly the packages every stage accepts. */
  method ApplyFilters(packages: seq<Package>, searchTerm: string, filters: Filters) returns (result: seq<Package>)
    ensures result == Filtered(packages, searchTerm, filters)
    ensures IsSubsequence(result, packages)
    ensures forall p :: p in result <==> p in packages && Accepts(p, searchTerm, filters)
  {
    result := packages;
    result := FilterBySearchTerm(result, searchTerm);
    result := FilterByArchitecture(result, filters.architecture);
    result := FilterByCategory(result, filters.packageType);
    result := FilterBySources(result, filters.sources);
    result := FilterByMaintainers(result, filters.maintainers);
    result := FilterByLicenses(result, filters.licenses);
    FilteredIsKeep(packages, searchTerm, filters);
    KeepIsSubsequence(packages, AcceptsAll(searchTerm, filters));
    KeepSpec(packages, AcceptsAll(searchTerm, filters));
  }

  /** Filtering an already filtered list with the same arguments changes nothing. */
  lemma ApplyFiltersIdempotent(packages: seq<Package>, searchTerm: string, filters: Filters)
    ensures Filtered(Filtered(packages, searchTerm, filters), searchTerm, filters)
         == Filtered(packages, searchTerm, filters)
  {
    var a := AcceptsAll(searchTerm, filters);
    FilteredIsKeep(packages, searchTerm, filters);
    FilteredIsKeep(Filtered(packages, searchTerm, filters), searchTerm, filters);
    KeepKeep(packages, a, a, a);
  }

  // ---------------------------------------------------------------- sorting and letters

  /** `(name || '').toLowerCase()`. */
  function NameKey(p: Package): string {
    Lower(p.name)
  }

  /** The order `sortPackagesByName` sorts by: the collator on lower-cased names. */
  function NameOrder(collate: (string, string) -> int): (Package, Package) -> int {
    ByKey(collate, NameKey)
  }

  /** `sortPackagesByName`: sort a copy with `localeCompare(…, { numeric: true })`
      on the lower-cased names. */
  method SortPackagesByName(packages: seq<Package>, collate: (string, string) -> int) returns (sorted: seq<Package>)
    requires IsTotalPreorder(collate)
    ensures sorted == StableSort(packages, NameOrder(collate))
    ensures SortedBy(sorted, NameOrder(collate))
    ensures multiset(sorted) == multiset(packages)
  {
    ByKeyPreorder(collate, NameKey);
    sorted := SortCopy(packages, NameOrder(collate));
  }

  /** The flat package list: `applyFilters` followed by `sortPackagesByName`. It holds
      exactly the accepted packages, each as often as in the input, in name order. */
  method ListPackages(packages: seq<Package>, searchTerm: string, filters: Filters, collate: (string, string) -> int)
    returns (listed: seq<Package>)
    requires IsTotalPreorder(collate)
    ensures listed == StableSort(Filtered(packages, searchTerm, filters), NameOrder(collate))
    ensures multiset(listed) == multiset(Filtered(packages, searchTerm, filters))
    ensures forall p :: p in listed <==> p in packages && Accepts(p, searchTerm, filters)
    ensures SortedBy(listed, NameOrder(collate))
  {
    var result := ApplyFilters(packages, searchTerm, filters);
    listed := SortPackagesByName(result, collate);
    assert forall p :: p in listed <==> p in multiset(listed);
    assert forall p :: p in result <==> p in multiset(result);
  }

  /** `(pkg.name?.[0] || '#').toUpperCase()`. */
  function FirstLetter(p: Package): (r: string)
    ensures |r| == 1
    ensures p.name == "" ==> r == "#"
    ensures p.name != "" ==> r == [UpperChar(p.name[0])]
  {
    if p.name == "" then "#" else Upper([p.name[0]])
  }

  /** The group comparator: `'#'` after every other letter, the rest by the collator. */
  function LetterOrder(collate: (string, string) -> int): (string, string) -> int {
    (a: string, b: string) =>
      if a == "#" && b != "#" then 1
      else if a != "#" && b == "#" then -1
      else collate(a, b)
  }

  lemma LetterOrderPreorder(collate: (string, string) -> int)
    requires IsTotalPreorder(collate)
    ensures IsTotalPreorder(LetterOrder(collate))
  {
    var c := LetterOrder(collate);
    forall a, b ensures SignsAgree(c, a, b) {
      Antisymmetric(collate, a, b);
    }
    forall a, b, d ensures ChainsCompose(c, a, b, d) {
      Transitive(collate, a, b, d);
    }
  }

  function GroupOrder(collate: (string, string) -> int): (Group<Package>, Group<Package>) -> int {
    ByKey(LetterOrder(collate), NameOf<Package>)
  }

  lemma GroupOrderByName(collate: (string, string) -> int, g: Group<Package>, h: Group<Package>)
    ensures GroupOrder(collate)(g, h) == LetterOrder(collate)(g.name, h.name)
  {
    assert GroupOrder(collate) == ByKey(LetterOrder(collate), NameOf<Package>);
    assert NameOf<Package>(g) == g.name && NameOf<Package>(h) == h.name;
  }

  /** The sorted letter groups partition the packages by first letter, and each one
      holds its packages in the order of the name-sorted list. */
  lemma LetterGroupsPartition(packages: seq<Package>, sorted: seq<Package>, collate: (string, string) -> int,
                              groups: seq<Group<Package>>)
    requires multiset(sorted) == multiset(packages)
    requires groups == StableSort(GroupsOf(sorted, FirstLetter), GroupOrder(collate))
    ensures IsPartition(groups, packages, FirstLetter)
    ensures forall grp :: grp in groups ==> grp.items == Keep(sorted, HasKey(FirstLetter, grp.name))
  {
    var buckets := GroupsOf(sorted, FirstLetter);
    StableSortMultiset(buckets, GroupOrder(collate));
    GroupsOfPartition(sorted, FirstLetter);
    PartitionPermutation(buckets, groups, sorted, FirstLetter);
    PartitionOfPermutation(groups, sorted, packages, FirstLetter);
    forall grp | grp in groups ensures grp.items == Keep(sorted, HasKey(FirstLetter, grp.name)) {
      assert grp in multiset(buckets);
    }
  }

  /** In groups sorted by `LetterOrder` with distinct names, `'#'` is last and the
      other letters ascend under the collator. */
  lemma LetterGroupsOrdered(collate: (string, string) -> int, groups: seq<Group<Package>>)
    requires IsTotalPreorder(collate)
    requires SortedBy(groups, GroupOrder(collate)) && DistinctNames(groups)
    ensures forall i :: 0 <= i < |groups| && groups[i].name == "#" ==> i == |groups| - 1
    ensures forall i, j :: 0 <= i < j < |groups| && groups[j].name != "#" ==>
      collate(groups[i].name, groups[j].name) <= 0
  {
    forall i, j | 0 <= i < j < |groups| && groups[j].name != "#"
      ensures collate(groups[i].name, groups[j].name) <= 0
    {
      assert InOrder(GroupOrder(collate), groups, i, j);
      GroupOrderByName(collate, groups[i], groups[j]);
    }
    forall i | 0 <= i < |groups| && groups[i].name == "#" ensures i == |groups| - 1 {
      if i < |groups| - 1 {
        assert InOrder(GroupOrder(collate), groups, i, i + 1);
        GroupOrderByName(collate, groups[i], groups[i + 1]);
        assert false;
      }
    }
  }

  /** A partition of `s` is a partition of any reordering of `s`. */
  lemma PartitionOfPermutation<T(!new)>(g: seq<Group<T>>, s: seq<T>, t: seq<T>, keyOf: T -> string)
    requires multiset(s) == multiset(t) && IsPartition(g, s, keyOf)
    ensures IsPartition(g, t, keyOf)
  {
    forall grp | grp in g
      ensures multiset(Keep(s, HasKey(keyOf, grp.name))) == multiset(Keep(t, HasKey(keyOf, grp.name)))
    {
      KeepPermutation(s, t, HasKey(keyOf, grp.name));
    }
    forall x | x in t ensures x in s {
      assert x in multiset(t);
    }
  }

  /** `groupPackagesByFirstLetter`: sort by name, file each package under its first
      letter in a `Map`, then sort the groups with `'#'` last. */
  method GroupPackagesByFirstLetter(packages: seq<Package>, collateNumeric: (string, string) -> int,
                                    collate: (string, string) -> int) returns (groups: seq<Group<Package>>)
    requires IsTotalPreorder(collateNumeric) && IsTotalPreorder(collate)
    ensures IsPartition(groups, packages, FirstLetter)
    ensures forall grp :: grp in groups ==>
      grp.items == Keep(StableSort(packages, NameOrder(collateNumeric)), HasKey(FirstLetter, grp.name))
    ensures forall i :: 0 <= i < |groups| && groups[i].name == "#" ==> i == |groups| - 1
    ensures forall i, j :: 0 <= i < j < |groups| && groups[j].name != "#" ==>
      collate(groups[i].name, groups[j].name) <= 0
  {
    var sorted := SortPackagesByName(packages, collateNumeric);
    var buckets := BucketBy(sorted, FirstLetter);
    LetterOrderPreorder(collate);
    ByKeyPreorder(LetterOrder(collate), NameOf<Package>);
    groups := SortCopy(buckets, GroupOrder(collate));
    LetterGroupsPartition(packages, sorted, collate, groups);
    LetterGroupsOrdered(collate, groups);
  }
}
