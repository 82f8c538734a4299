# NurOS package list: filter, classify, sort and group

This is a model of the data logic of the NurOS package-list front end. A catalog of packages is
loaded from `repodata.json`. Each entry is normalised with defaults. The package list is then:

- narrowed by a search term and by architecture, category, source, maintainer and license filters;
- sorted by name;
- grouped by first letter (the flat list) or by a category label (the grouped list).

A sidebar counts the packages per facet (architecture, category, maintainer, license). It shows the
counts as a tree of nodes with prefixed ids, and it toggles a facet value when its node is selected.

The model is organised by concern:

| module | file | models |
|---|---|---|
| `Text` | text.dfy | `||` on optional strings, ASCII `toLowerCase`/`toUpperCase`, `trim`, `includes`, `split` |
| `Collections` | collections.dfy | `Array.filter` (`Keep`) and `Array.some` (`Any`), with their algebra |
| `Packages` | packages.dfy | the `Package` record and the `field || 'unknown'` reads |
| `Ordering` | ordering.dfy | comparators (`localeCompare`) as total preorders; `Array.prototype.sort` as a stable insertion sort, in place on an array |
| `Grouping` | grouping.dfy | grouping into a JavaScript `Map` of buckets, filled left to right |
| `Search` | search.dfy | `src/utils/search.ts` and the flat list of `PackageList.tsx` |
| `Sorting` | sorting.dfy | the search filter of `src/utils/sorting.ts`, compared with the one in `search.ts` |
| `GroupedList` | grouped_list.dfy | the effect and `toggleGroup` of `GroupedPackageList.tsx` |
| `Sidebar` | sidebar.dfy | facet counting and `handleNodeSelect` of `Sidebar.tsx` |
| `Catalog` | catalog.dfy | the per-entry normalisation in `usePackageData.ts` |

These are the modelling conventions:

- An optional string field is an `Option<string>`. `x || d` is `OrElse(x, d)`, which falls back on both `None` and `""`.
- A `localeCompare` call is a comparator parameter that must be a total preorder. Every sorting property is stated relative to that comparator.
- `sort` is stable, as ECMA-262 has required since its 2019 edition. A stable sort's output is determined by its input, so `StableSort` specifies every `sort` call.
- Loops that fill a `Map` or reassign a result are methods. Each one is proved against a specification function: `BucketBy` against `GroupsOf`, `CountBy` against `Tallies`, `ApplyFilters` against `Filtered`.
- In-place sorts work on an `array`: `SortInPlace` and `GroupedList.SortEachGroup`.
- The expanded-group set of the grouped list is a field of the class `GroupedList.GroupedPackageList`.

The four classifiers of the source disagree with one another, and each is modelled as written:
`Search.CategoryOf`, `GroupedList.ListCategory`, `GroupedList.GroupLabel` and `Sidebar.SidebarCategory`.
`GroupedList.LibNameClassifiedDifferently` shows one disagreement.

These quirks are kept as written:
- `search.ts` does not treat the `'all'` option specially. `Search.CategoryAllDropsEverything` and `Search.ArchAllIsLiteral` show the effect.
- The architecture and category filters switch themselves off only when the whole spec is blank after `trim()`. A spec such as `,` is not blank but yields no token, and `some` over no token is false, so it drops every package rather than acting as no constraint. The model follows the code; `Search.NoTokensDropsEverything` and `Search.LoneCommaHasNoTokens` show this.
- The normaliser's defaults (`'N/A'` for the architecture, `'Unknown'` for the maintainer, `'Not specified'` for the license, `'#'` for the source repository) mean that the filters' `'unknown'` fallback never fires for an absent field. The `Catalog.Missing…` lemmas show this.

## Model

| member | source | states |
|---|---|---|
| Text.OrElse | listpkgs.nuros.front-end/src/utils/search.ts:78 | `x || d` on an optional string: the value when it is present and non-empty, the default otherwise; a non-empty default gives a non-empty result |
| Text.Lower | listpkgs.nuros.front-end/src/utils/search.ts:46 | `toLowerCase` keeps the length and maps each character through the ASCII lower-case map |
| Text.Upper | listpkgs.nuros.front-end/src/utils/search.ts:258 | `toUpperCase` keeps the length and maps each character through the ASCII upper-case map |
| Text.Capitalize | listpkgs.nuros.front-end/src/components/Sidebar.tsx:115 | `charAt(0).toUpperCase() + slice(1)`: same length, first character upper-cased, the rest unchanged |
| Text.Trim | listpkgs.nuros.front-end/src/utils/search.ts:46 | `trim` gives a segment of its input with only white space before and after it and no white space at either end; it is empty exactly when the input is all white space |
| Text.TrimIdempotent | listpkgs.nuros.front-end/src/utils/search.ts:74 | trimming twice is trimming once |
| Text.Contains | listpkgs.nuros.front-end/src/utils/search.ts:53 | `s.includes(t)` holds exactly when `t` occurs in `s` at some position |
| Text.Split | listpkgs.nuros.front-end/src/utils/search.ts:72-73 | `split(',')` gives at least one piece; no piece holds a comma, and joining the pieces with commas restores the input |
| Text.SplitJoin | listpkgs.nuros.front-end/src/utils/search.ts:72-73 | splitting the comma-join of comma-free pieces gives the pieces back |
| Collections.Keep | listpkgs.nuros.front-end/src/utils/search.ts:52-58 | `filter` never lengthens its input |
| Collections.KeepSpec | listpkgs.nuros.front-end/src/utils/search.ts:52-58 | an element is in the filtered list exactly when it is in the input and passes |
| Collections.KeepIsSubsequence | listpkgs.nuros.front-end/src/utils/search.ts:52-58 | the filtered list is an order-preserving subsequence of the input |
| Collections.KeepMultiset | listpkgs.nuros.front-end/src/utils/search.ts:52-58 | `filter` keeps every copy of a passing element and no copy of any other |
| Collections.Any | listpkgs.nuros.front-end/src/utils/search.ts:79 | `some` holds exactly when some element passes |
| Collections.KeepKeep | listpkgs.nuros.front-end/src/utils/search.ts:207-227 | two filters in a row are one filter on the conjunction |
| Collections.Narrow | listpkgs.nuros.front-end/src/utils/search.ts:207-227 | a stage that runs, or is switched off and would pass everything, extends a conjunction filter by one conjunct |
| Grouping.FirstKeys | listpkgs.nuros.front-end/src/utils/search.ts:255-264 | the key order of a `Map` filled left to right lists each key once |
| Grouping.FirstKeysComplete | listpkgs.nuros.front-end/src/utils/search.ts:257-262 | every element's key is among the `Map`'s keys |
| Grouping.FirstKeysSound | listpkgs.nuros.front-end/src/utils/search.ts:257-262 | every key of the `Map` comes from some element |
| Grouping.GroupsOfNonEmpty | listpkgs.nuros.front-end/src/utils/search.ts:260-263 | a bucket is created only for an element that is then pushed, so none is empty |
| Grouping.GroupsOfPartition | listpkgs.nuros.front-end/src/utils/search.ts:255-264 | the buckets partition the input: distinct names, none empty, each holding exactly its key's elements, every element placed |
| Grouping.PartitionPermutation | listpkgs.nuros.front-end/src/utils/search.ts:266-275 | reordering the buckets (sorting the entries) keeps a partition |
| Grouping.PartitionReordered | listpkgs.nuros.front-end/src/components/GroupedPackageList.tsx:203-251 | reordering the items inside each bucket keeps a partition |
| Grouping.BucketsOfContents | listpkgs.nuros.front-end/src/utils/search.ts:257-264 | after the `forEach`, the `Map` has exactly the seen keys, each bucket holding its key's elements in input order |
| Grouping.BucketBy | listpkgs.nuros.front-end/src/utils/search.ts:255-266 | the `forEach` that fills the `Map`, then `Array.from(map.entries())`, yields the buckets in first-seen key order |
| Grouping.KeyedTotal | listpkgs.nuros.front-end/src/components/Sidebar.tsx:58-62 | the bucket sizes add up to the number of elements |
| Ordering.Antisymmetric | listpkgs.nuros.front-end/src/utils/search.ts:239 | a total-preorder comparator is reflexive and its sign flips when the arguments are swapped |
| Ordering.Transitive | listpkgs.nuros.front-end/src/utils/search.ts:239 | a total-preorder comparator chains |
| Ordering.ByKeyPreorder | listpkgs.nuros.front-end/src/utils/search.ts:236-240 | comparing by a key with a total preorder is a total preorder |
| Ordering.InsertPos | listpkgs.nuros.front-end/src/utils/search.ts:236-240 | the insertion point lies after every element that does not come after `x`, and before one that does |
| Ordering.InsertMultiset | listpkgs.nuros.front-end/src/utils/search.ts:236-240 | one insertion step adds exactly one copy of the element |
| Ordering.StableSortMultiset | listpkgs.nuros.front-end/src/utils/search.ts:236-240 | `sort` returns a permutation of its input |
| Ordering.InsertSorted | listpkgs.nuros.front-end/src/utils/search.ts:236-240 | inserting into a sorted list keeps it sorted |
| Ordering.StableSortSorted | listpkgs.nuros.front-end/src/utils/search.ts:236-240 | `sort` returns a list ordered by the comparator that is a permutation of its input |
| Ordering.StrictlyLessComesFirst | listpkgs.nuros.front-end/src/utils/search.ts:236-240 | in a sorted list, an element strictly before another under the comparator sits at a lower index |
| Ordering.InsertKeepsClassOrder | listpkgs.nuros.front-end/src/utils/search.ts:236-240 | inserting keeps the relative order of the elements that compare equal to any given one |
| Ordering.StableSortIsStable | listpkgs.nuros.front-end/src/utils/search.ts:236-240 | stability: the elements that compare equal keep their input order |
| Ordering.SortedIsFixpoint | listpkgs.nuros.front-end/src/utils/search.ts:236-240 | sorting an already sorted list changes nothing |
| Ordering.StableSortIdempotent | listpkgs.nuros.front-end/src/utils/search.ts:236-240 | sorting twice is sorting once |
| Ordering.InsertInto | listpkgs.nuros.front-end/src/components/GroupedPackageList.tsx:212-216 | one in-place insertion step on an array: the sorted prefix grows by one element and the rest is untouched |
| Ordering.SortInPlace | listpkgs.nuros.front-end/src/components/GroupedPackageList.tsx:212-216 | `array.sort(cmp)` in place leaves the array holding the stable sort of its old contents |
| Ordering.SortCopy | listpkgs.nuros.front-end/src/utils/search.ts:236 | `[...packages].sort(cmp)`: the result is the stable sort of the input, sorted and a permutation of it |
| Search.FilterBySearchTerm | listpkgs.nuros.front-end/src/utils/search.ts:45-59 | a term that is blank after lower-casing and trimming keeps the list; otherwise exactly the packages whose lower-cased name, description or key contains the trimmed term are kept, every copy of each, in input order |
| Search.TrimAll | listpkgs.nuros.front-end/src/utils/search.ts:74 | `.map(a => a.trim())` trims every piece and keeps their number |
| Search.TokensWellFormed | listpkgs.nuros.front-end/src/utils/search.ts:72-75 | every token of a comma spec is non-empty, has no surrounding white space and holds no comma |
| Search.TokensMembers | listpkgs.nuros.front-end/src/utils/search.ts:72-75 | the tokens are exactly the non-empty trimmed pieces between commas |
| Search.TrimmedParts | listpkgs.nuros.front-end/src/utils/search.ts:72-74 | trimming comma-free pieces leaves trimmed, comma-free pieces |
| Search.FilterByArchitecture | listpkgs.nuros.front-end/src/utils/search.ts:67-81 | a blank spec keeps the list; otherwise a package stays iff some token is a case-sensitive substring of its architecture, with a missing or empty one read as `unknown`; every copy of a kept package stays, in input order |
| Search.NoTokensDropsEverything | listpkgs.nuros.front-end/src/utils/search.ts:67-81 | a spec that is not blank but has no token drops every package from the architecture filter and from the category filter |
| Search.BlankPiecesNoTokens | listpkgs.nuros.front-end/src/utils/search.ts:72-75 | a spec whose comma pieces all trim to nothing has no token |
| Search.LoneCommaHasNoTokens | listpkgs.nuros.front-end/src/utils/search.ts:68-75 | the spec `,` passes the blank check yet has no token |
| Search.CategoryOf | listpkgs.nuros.front-end/src/utils/search.ts:88-118 | `getCategoryForPackage` returns one of the nine categories; the first matching rule decides: `core` exactly when the type is `system` or the name holds `kernel` or `core`, even for a `library`; `libraries` exactly when the library rule holds and neither earlier rule does; `other` exactly when no rule holds |
| Search.FilterByCategory | listpkgs.nuros.front-end/src/utils/search.ts:126-142 | a blank spec keeps the list; otherwise a package stays iff some token, lower-cased, contains or is contained in its category; every copy of a kept package stays, in input order |
| Search.TokensOfWord | listpkgs.nuros.front-end/src/utils/search.ts:72-75 | a spec of one comma-free word without surrounding white space is that single token |
| Search.NoCategoryMatchesAll | listpkgs.nuros.front-end/src/utils/search.ts:138-140 | the token `all` matches no category in either direction |
| Search.CategoryAllDropsEverything | listpkgs.nuros.front-end/src/utils/search.ts:126-142 | the spec `all` passed in by the page drops every package from the category filter |
| Search.ArchAllIsLiteral | listpkgs.nuros.front-end/src/utils/search.ts:67-81 | the spec `all` keeps exactly the packages whose architecture, or its `unknown` fallback, contains `all` |
| Search.FilterByMaintainers | listpkgs.nuros.front-end/src/utils/search.ts:150-159 | an empty list keeps the list; otherwise exactly the packages whose maintainer (or `unknown`) is listed stay, every copy of each, in order |
| Search.FilterByLicenses | listpkgs.nuros.front-end/src/utils/search.ts:167-176 | an empty list keeps the list; otherwise exactly the packages whose license (or `unknown`) is listed stay, every copy of each, in order |
| Search.FilterBySources | listpkgs.nuros.front-end/src/utils/search.ts:184-193 | an empty list keeps the list; otherwise exactly the packages whose `_source_repo` (or `unknown`) is listed stay, every copy of each, in order |
| Search.InactiveIsKeep | listpkgs.nuros.front-end/src/utils/search.ts:48-50 | a switched-off stage returns its input, as the filter that passes everything would |
| Search.FilteredIsKeep | listpkgs.nuros.front-end/src/utils/search.ts:202-228 | the six filters in `applyFilters` order amount to one filter on the conjunction of the stages |
| Search.ApplyFilters | listpkgs.nuros.front-end/src/utils/search.ts:202-228 | `applyFilters` computes the composition search, architecture, category, sources, maintainers, licenses; the result is a subsequence of the input holding exactly the packages every stage accepts |
| Search.ApplyFiltersIdempotent | listpkgs.nuros.front-end/src/utils/search.ts:202-228 | filtering the result again with the same arguments changes nothing |
| Search.SortPackagesByName | listpkgs.nuros.front-end/src/utils/search.ts:235-241 | the sorted copy is the stable sort by the collator on lower-cased names: sorted, and a permutation of the input |
| Search.ListPackages | listpkgs.nuros.front-end/src/components/PackageList.tsx:25-29 | the flat list is the name sort of the filtered packages: exactly the accepted packages, each as often as after filtering, in name order |
| Search.FirstLetter | listpkgs.nuros.front-end/src/utils/search.ts:258 | the bucket key is one character: `#` for an empty name, else the upper-cased first character |
| Search.LetterOrderPreorder | listpkgs.nuros.front-end/src/utils/search.ts:271-275 | the letter comparator with `#` last is a total preorder when the collator is |
| Search.GroupOrderByName | listpkgs.nuros.front-end/src/utils/search.ts:271-275 | groups are compared by their letters |
| Search.LetterGroupsPartition | listpkgs.nuros.front-end/src/utils/search.ts:253-276 | the sorted letter groups partition the packages by first letter, each holding its packages in name-sorted order |
| Search.LetterGroupsOrdered | listpkgs.nuros.front-end/src/utils/search.ts:271-275 | in the sorted groups `#` comes last and the other letters ascend under the collator |
| Search.PartitionOfPermutation | listpkgs.nuros.front-end/src/utils/search.ts:254 | a partition of the sorted copy is a partition of the input |
| Search.GroupPackagesByFirstLetter | listpkgs.nuros.front-end/src/utils/search.ts:253-276 | every package lies in exactly one non-empty group; no two groups share a letter; each group keeps the name-sorted order; `#` is last; the other letters ascend |
| Sorting.FilterPackagesBySearchTerm | listpkgs.nuros.front-end/src/utils/sorting.ts:75-86 | a blank term keeps the list; otherwise exactly the packages whose lower-cased name or description contains the lower-cased, untrimmed term are kept, every copy of each, in order, without looking at the key |
| Sorting.LowerKeepsSpaces | listpkgs.nuros.front-end/src/utils/sorting.ts:76-80 | lower-casing neither creates nor removes white space |
| Sorting.SameBlankTerms | listpkgs.nuros.front-end/src/utils/sorting.ts:76-78 | this filter and the one in `search.ts` switch off on the same terms |
| Sorting.KeptBySearchToo | listpkgs.nuros.front-end/src/utils/sorting.ts:75-86 | for a term without surrounding white space, this filter's result is the `search.ts` result filtered further, so it is a subsequence of it |
| Sorting.PaddedTermDiffers | listpkgs.nuros.front-end/src/utils/sorting.ts:80-85 | a leading space in the term is ignored by `search.ts` but not here: a package found there is dropped here |
| Sorting.KeyOnlyMatchDiffers | listpkgs.nuros.front-end/src/utils/sorting.ts:81-85 | a term found only in the key keeps the package in `search.ts` and drops it here |
| GroupedList.ListCategory | listpkgs.nuros.front-end/src/components/GroupedPackageList.tsx:77-88 | the type stage's classifier returns one of system, application, library, development, misc, other, the first matching rule deciding: `system` exactly when the type is `system` or the raw name holds `kernel` or `core`; `library` exactly for type `library` without `kernel`/`core` in the name; `other` exactly when no name test and no known type applies |
| GroupedList.StagedIsKeep | listpkgs.nuros.front-end/src/components/GroupedPackageList.tsx:34-113 | the conditional stages in order amount to one filter on the conjunction of the stages |
| GroupedList.FilterPackages | listpkgs.nuros.front-end/src/components/GroupedPackageList.tsx:34-113 | the filtering half of the effect keeps, in input order, exactly the packages every stage accepts |
| GroupedList.FilterIdempotent | listpkgs.nuros.front-end/src/components/GroupedPackageList.tsx:34-113 | filtering the view's result again with the same arguments changes nothing |
| GroupedList.AllPieceKeepsEverything | listpkgs.nuros.front-end/src/components/GroupedPackageList.tsx:48-75 | an `all` piece in the architecture or type spec lets every package through |
| GroupedList.MissingArchitectureDropped | listpkgs.nuros.front-end/src/components/GroupedPackageList.tsx:48-56 | an engaged architecture stage without an `all` piece drops a package without an architecture |
| GroupedList.EmptyPieceMatchesAnyArchitecture | listpkgs.nuros.front-end/src/components/GroupedPackageList.tsx:49-53 | an empty piece from an untrimmed split makes the stage keep exactly the packages that have an architecture |
| GroupedList.NoSourcePassesChannel | listpkgs.nuros.front-end/src/components/GroupedPackageList.tsx:58-68 | the channel stage keeps every package without a source repository |
| GroupedList.LibNameClassifiedDifferently | listpkgs.nuros.front-end/src/components/GroupedPackageList.tsx:77-88 | an untyped package whose name contains `lib` is `other` here but `libraries` in `search.ts` |
| GroupedList.GroupLabel | listpkgs.nuros.front-end/src/components/GroupedPackageList.tsx:122-161 | a group label is non-empty and does not start with a lower-case letter; a known type gets its fixed label (`system` System, `application` and `desktop` Applications, `library` Libraries, `development` Development, `shell` Shells, `misc` Miscellaneous), any other type is capitalised; an untyped package gets System exactly when its lower-cased name holds `kernel`, `core` or `system`, Other exactly when no name test holds, and otherwise Libraries or Development |
| GroupedList.GroupOrderByName | listpkgs.nuros.front-end/src/components/GroupedPackageList.tsx:175-202 | every branch of the group comparator compares the labels with the collator |
| GroupedList.ArrangedPartition | listpkgs.nuros.front-end/src/components/GroupedPackageList.tsx:118-251 | the arranged groups partition the filtered packages by label |
| GroupedList.ArrangedSorted | listpkgs.nuros.front-end/src/components/GroupedPackageList.tsx:175-202 | the groups come in label order under the collator |
| GroupedList.ArrangedItems | listpkgs.nuros.front-end/src/components/GroupedPackageList.tsx:203-251 | each group holds exactly its label's packages, sorted by the in-group key of the first active filter, ties in filtered order |
| GroupedList.SortEachGroup | listpkgs.nuros.front-end/src/components/GroupedPackageList.tsx:203-251 | each group's packages are sorted in place and its label is kept, group by group |
| GroupedList.GroupPackages | listpkgs.nuros.front-end/src/components/GroupedPackageList.tsx:118-251 | grouping, sorting the groups and sorting inside them yields a label partition in label order, each group sorted by the in-group key |
| GroupedList.Toggled | listpkgs.nuros.front-end/src/components/GroupedPackageList.tsx:257-265 | toggling flips the membership of the name and leaves every other name alone |
| GroupedList.ToggledTwice | listpkgs.nuros.front-end/src/components/GroupedPackageList.tsx:257-265 | toggling the same group twice restores the set |
| GroupedList.GroupedPackageList.constructor | listpkgs.nuros.front-end/src/components/GroupedPackageList.tsx:25-26 | the component starts with no groups and nothing expanded |
| GroupedList.GroupedPackageList.Refresh | listpkgs.nuros.front-end/src/components/GroupedPackageList.tsx:34-254 | the effect publishes the arranged groups of the filtered packages and leaves the expanded set alone |
| GroupedList.GroupedPackageList.ToggleGroup | listpkgs.nuros.front-end/src/components/GroupedPackageList.tsx:257-265 | `toggleGroup` replaces the expanded set by its toggle and leaves the groups alone |
| Sidebar.SidebarCategory | listpkgs.nuros.front-end/src/components/Sidebar.tsx:68-79 | the sidebar classifier returns one of six categories, the first matching rule deciding: `core` exactly when the type is `system` or the raw name holds `kernel` or `core`, whatever the type; `libraries` exactly for type `library` without `kernel`/`core` in the name; `other` exactly when no name test and no known type applies |
| Sidebar.CountBy | listpkgs.nuros.front-end/src/components/Sidebar.tsx:58-62 | the counting `forEach` with `map.set(k, (map.get(k) || 0) + 1)` yields each key in first-seen order with its number of occurrences |
| Sidebar.CountStep | listpkgs.nuros.front-end/src/components/Sidebar.tsx:59-61 | one more element adds its key if new and adds one to exactly that key's count |
| Sidebar.TotalTallies | listpkgs.nuros.front-end/src/components/Sidebar.tsx:58-95 | the tallies add up to the sizes of their buckets |
| Sidebar.TalliesCount | listpkgs.nuros.front-end/src/components/Sidebar.tsx:58-95 | each facet map lists every value once, every count is at least 1, the counts sum to the number of packages, and every package's value is listed |
| Sidebar.MissingCountedAsUnknown | listpkgs.nuros.front-end/src/components/Sidebar.tsx:58-95 | each field on its own: a package without an architecture, without a maintainer or without a license is counted under `unknown` in that facet, whatever its other fields hold |
| Sidebar.Leaves | listpkgs.nuros.front-end/src/components/Sidebar.tsx:103-107 | each leaf carries the prefixed id of its value, its label and its count |
| Sidebar.LeafTotalIsTotal | listpkgs.nuros.front-end/src/components/Sidebar.tsx:98-139 | the leaves' counts add up to the tallies' total |
| Sidebar.LeavesCounted | listpkgs.nuros.front-end/src/components/Sidebar.tsx:98-139 | a facet's leaves account for every package once, each leaf counting at least one |
| Sidebar.BuildTree | listpkgs.nuros.front-end/src/components/Sidebar.tsx:55-139 | the effect builds the four sections; in each, every leaf counts at least one package and the counts add up to the number of packages |
| Sidebar.ParseNodeId | listpkgs.nuros.front-end/src/components/Sidebar.tsx:149-187 | parsing a node id built from a facet and a value gives back that facet and value |
| Sidebar.Toggle | listpkgs.nuros.front-end/src/components/Sidebar.tsx:152-158 | a present value is removed everywhere, every other value keeping its number of copies and its order; an absent one is appended at the end |
| Sidebar.ToggleTwice | listpkgs.nuros.front-end/src/components/Sidebar.tsx:152-158 | selecting an absent value twice restores the list |
| Sidebar.ToggleTwicePresent | listpkgs.nuros.front-end/src/components/Sidebar.tsx:152-158 | selecting a present value twice leaves it once, at the end |
| Sidebar.HandleNodeSelect | listpkgs.nuros.front-end/src/components/Sidebar.tsx:149-187 | an id without a known prefix changes nothing; otherwise only the list its prefix names is toggled |
| Sidebar.SelectNode | listpkgs.nuros.front-end/src/components/Sidebar.tsx:149-187 | selecting a node toggles its value in its own facet and leaves the other three lists alone |
| Sidebar.SelectNodeTwice | listpkgs.nuros.front-end/src/components/Sidebar.tsx:149-187 | selecting the same node twice, from unselected, restores the selection |
| Sidebar.UnknownIdIgnored | listpkgs.nuros.front-end/src/components/Sidebar.tsx:149-187 | an id starting with none of the prefixes changes nothing |
| Sidebar.CategoryLeaf | listpkgs.nuros.front-end/src/components/Sidebar.tsx:113-117 | a category leaf's label is the capitalised category, while its id carries the raw category, which the handler recovers |
| Catalog.Or | listpkgs.nuros.front-end/src/hooks/usePackageData.ts:89-104 | `pkg.f || d` on a JSON value: the property when present and truthy, the default otherwise |
| Catalog.AllFieldsListed | listpkgs.nuros.front-end/src/hooks/usePackageData.ts:87-104 | the literal names every field |
| Catalog.FieldNameInjective | listpkgs.nuros.front-end/src/hooks/usePackageData.ts:87-104 | no two fields of the literal share a name |
| Catalog.LiteralFields | listpkgs.nuros.front-end/src/hooks/usePackageData.ts:87-104 | the object literal has exactly the listed names, each with its field's value |
| Catalog.DefaultsAt | listpkgs.nuros.front-end/src/hooks/usePackageData.ts:87-104 | before the spread, each named field holds its filled-in value |
| Catalog.NormalizeEntry | listpkgs.nuros.front-end/src/hooks/usePackageData.ts:86-106 | each of the record's own fields keeps its raw value, even a falsy one or its own `key`; each named field it lacks gets its default (the catalog key for `key` and `name`) |
| Catalog.NormalizedKeys | listpkgs.nuros.front-end/src/hooks/usePackageData.ts:87-105 | the entry has exactly the named fields and the record's own fields, unnamed ones passing through |
| Catalog.TableAt | listpkgs.nuros.front-end/src/hooks/usePackageData.ts:88-104 | the table of plain defaults gives each field its default |
| Catalog.OrIsOverridden | listpkgs.nuros.front-end/src/hooks/usePackageData.ts:87-105 | the `pkg.f ||` reads never decide anything: the entry is the table of plain defaults with the raw record spread over it |
| Catalog.Normalize | listpkgs.nuros.front-end/src/hooks/usePackageData.ts:85-107 | the load succeeds iff no record is `null`, giving one record per entry |
| Catalog.NormalizeInOrder | listpkgs.nuros.front-end/src/hooks/usePackageData.ts:85 | each record comes from the entry at the same position |
| Catalog.AbsentStringField | listpkgs.nuros.front-end/src/hooks/usePackageData.ts:88-104 | a string field the record lacks reads as its default |
| Catalog.MissingArchitectureReadsNA | listpkgs.nuros.front-end/src/hooks/usePackageData.ts:92 | a missing architecture reads `N/A`, so the filters' `unknown` fallback does not fire |
| Catalog.MissingMaintainerReadsUnknown | listpkgs.nuros.front-end/src/hooks/usePackageData.ts:94 | a missing maintainer reads the capitalised `Unknown` |
| Catalog.MissingLicenseReadsNotSpecified | listpkgs.nuros.front-end/src/hooks/usePackageData.ts:95 | a missing license reads `Not specified` |
| Catalog.MissingSourceReadsHash | listpkgs.nuros.front-end/src/hooks/usePackageData.ts:103 | a missing source repository reads `#` |
| Catalog.UnknownArchitectureWasPresent | listpkgs.nuros.front-end/src/hooks/usePackageData.ts:92-105 | a loaded package that the architecture filter reads as `unknown` had an architecture field of its own |

## Left out

- Fetching `repodata.json`, the `response.ok` check, JSON parsing and the loading and error signals of `usePackageData.ts` are network I/O and are not modelled. The parsed catalog is an input: a sequence of `(key, value)` entries taken in `Object.entries` order.
- Every `console.log` call is left out. None of them affects a result.
- SolidJS reactivity (`createSignal`, `createEffect`) and all JSX rendering are left out. Each effect is a method, and each signal it sets is a result or a class field.
- Locale collation (`localeCompare`, with or without `numeric: true`) is not modelled. It is an abstract comparator, assumed to be a total preorder.
- Unicode case mapping is not modelled: `toLowerCase` and `toUpperCase` map ASCII letters only.
- Search.FirstLetter: a string is a sequence of Unicode code points, while JavaScript indexes UTF-16 code units. For a name that starts outside the Basic Multilingual Plane, `name?.[0]` is a lone high surrogate, so names starting with two different emoji share one group in JavaScript and get two groups in the model. `Text.Capitalize` (`charAt(0)`) and string lengths differ in the same way for such characters.
- JSON numbers are `real`. Floating-point behaviour is not modelled; only truthiness (non-zero) matters here.
- Catalog.NormalizeEntry: a raw record that is a string or an array contributes no own fields. JavaScript would also spread its index keys (`"0"`, `"1"`, …) into the entry.
- Catalog.Normalize: a `null` record makes the mapping throw; the model returns `None` for the whole load. The error message is not modelled.
- Catalog.AsPackage reads a named field that is not a string as missing, when it turns a normalised record into the `Package` the filters use. Non-string values in string fields are not modelled.
- `sortPackagesByName` and `groupPackagesByFirstLetter` in `sorting.ts` are the same code as in `search.ts`. They are modelled once, as `Search.SortPackagesByName` and `Search.GroupPackagesByFirstLetter`.
- `App.tsx`, `SearchBar.tsx`, `PackageCard.tsx`, `JsonDisplay.tsx` and `TreeNavigation.tsx` are not part of this model. They are wiring and presentation.
- `PackageList.tsx` appears only through `Search.ListPackages`, which is `applyFilters` followed by `sortPackagesByName`.
- The Sidebar's second effect, which passes the selection to `onFilterChange`, is not modelled. It is a callback into the parent component.
- The `sortField` entries of the tree nodes are not modelled. Only the tree view reads them.
