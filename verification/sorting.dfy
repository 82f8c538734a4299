/** The older search filter kept in `src/utils/sorting.ts`. Its name sort and
    first-letter grouping are the same code as in `search.ts` and are modelled once,
    in module `Search`; its search filter differs and is modelled here, together with
    how it relates to `Search.FilterBySearchTerm`. */
module Sorting {
  import opened Text
  import opened Collections
  import opened Packages
  import Search

  /** `(pkg.name || '')` or the string description, lower-cased, contains `term`. */
  predicate MatchesLowered(p: Package, term: string) {
    || Contains(Lower(p.name), term)
    || Contains(Lower(if p.description.Some? then p.description.value else ""), term)
  }

  /** The filter predicate: the term is lower-cased but NOT trimmed. */
  function TermStage(searchTerm: string): Package -> bool {
    (p: Package) => MatchesLowered(p, Lower(searchTerm))
  }

  /** `filterPackagesBySearchTerm`: a term that is blank after trimming keeps the list;
      otherwise exactly the packages whose lower-cased name or description contains the
      lower-cased, untrimmed term are kept, in order. The key is not consulted. */
  function FilterPackagesBySearchTerm(packages: seq<Package>, searchTerm: string): (r: seq<Package>)
    ensures Trim(searchTerm) == "" ==> r == packages
    ensures Trim(searchTerm) != "" ==>
      forall p :: p in r <==> p in packages && MatchesLowered(p, Lower(searchTerm))
    ensures Trim(searchTerm) != "" ==>
      forall p :: multiset(r)[p] == if MatchesLowered(p, Lower(searchTerm))
                                    then multiset(packages)[p] else 0
    ensures IsSubsequence(r, packages)
  {
    if Trim(searchTerm) == "" then
      SubsequenceRefl(packages);
      packages
    else
      KeepCounts(packages, TermStage(searchTerm));
      KeepSpec(packages, TermStage(searchTerm));
      KeepIsSubsequence(packages, TermStage(searchTerm));
      Keep(packages, TermStage(searchTerm))
  }

  /** Lower-casing never turns a character into white space or back. */
  lemma LowerKeepsSpaces(s: string)
    ensures forall i :: 0 <= i < |s| ==> (IsSpace(Lower(s)[i]) <==> IsSpace(s[i]))
  {
  }

  /** Both filters switch off on the same terms: blank after trimming, before or
      after lower-casing. */
  lemma SameBlankTerms(searchTerm: string)
    ensures Trim(Lower(searchTerm)) == "" <==> Trim(searchTerm) == ""
  {
    LowerKeepsSpaces(searchTerm);
  }

  /** For a term without surrounding white space, every package this filter keeps is
      also kept by `Search.FilterBySearchTerm`, in the same relative order. */
  lemma KeptBySearchToo(packages: seq<Package>, searchTerm: string)
    requires Trim(Lower(searchTerm)) == Lower(searchTerm)
    ensures FilterPackagesBySearchTerm(packages, searchTerm)
         == Keep(Search.FilterBySearchTerm(packages, searchTerm), TermStage(searchTerm))
  {
    SameBlankTerms(searchTerm);
    if Trim(searchTerm) == "" {
      KeptWhenBlank(packages, searchTerm);
    } else {
      KeptWhenNotBlank(packages, searchTerm);
    }
  }

  /** A blank term: both filters keep everything. */
  lemma KeptWhenBlank(packages: seq<Package>, searchTerm: string)
    requires Trim(searchTerm) == "" && Trim(Lower(searchTerm)) == Lower(searchTerm) == ""
    ensures FilterPackagesBySearchTerm(packages, searchTerm)
         == Keep(Search.FilterBySearchTerm(packages, searchTerm), TermStage(searchTerm))
  {
    assert Search.FilterBySearchTerm(packages, searchTerm) == packages;
    assert forall p :: TermStage(searchTerm)(p) by {
      forall p ensures TermStage(searchTerm)(p) {
        ContainsEmpty(Lower(p.name));
      }
    }
    KeepAll(packages, TermStage(searchTerm));
  }

  /** A package this filter keeps for a trimmed term is found by `search.ts` too. */
  lemma StageImplied(p: Package, searchTerm: string)
    requires Trim(Lower(searchTerm)) == Lower(searchTerm) != ""
    requires TermStage(searchTerm)(p)
    ensures Search.SearchStage(searchTerm)(p)
  {
    var term := Lower(searchTerm);
    if !Contains(Lower(p.name), term) {
      assert p.description.Some?;
    }
  }

  /** A term that is not blank: this filter's stage implies the `search.ts` one. */
  lemma KeptWhenNotBlank(packages: seq<Package>, searchTerm: string)
    requires Trim(searchTerm) != "" && Trim(Lower(searchTerm)) == Lower(searchTerm) != ""
    ensures FilterPackagesBySearchTerm(packages, searchTerm)
         == Keep(Search.FilterBySearchTerm(packages, searchTerm), TermStage(searchTerm))
  {
    var s := Search.SearchStage(searchTerm);
    var t := TermStage(searchTerm);
    forall x | x in packages ensures t(x) <==> s(x) && t(x) {
      if t(x) {
        StageImplied(x, searchTerm);
      }
    }
    KeepKeep(packages, s, t, t);
    assert Search.FilterBySearchTerm(packages, searchTerm) == Keep(packages, s);
    assert FilterPackagesBySearchTerm(packages, searchTerm) == Keep(packages, t);
  }

  /** A filter on a one-element list keeps the element iff it passes. */
  lemma KeepSingle(p: Package, f: Package -> bool)
    ensures Keep([p], f) == if f(p) then [p] else []
  {
    assert [p][1..] == [];
  }

  /** A leading space is ignored by `search.ts` but not here: a package named `word`
      (lower-case, without surrounding white space) and without a description is found
      by `" " + word` there and not here. */
  lemma PaddedTermDiffers(p: Package, word: string)
    requires word != [] && !IsSpace(word[0]) && !IsSpace(word[|word| - 1]) && Lower(word) == word
    requires p.name == word && p.description == None
    ensures Search.FilterBySearchTerm([p], " " + word) == [p]
    ensures FilterPackagesBySearchTerm([p], " " + word) == []
  {
    var term := " " + word;
    assert Lower(term) == term;
    TrimLeadingSpace(' ', word);
    TrimOfTrimmed(word);
    ContainsSelf(word);
    assert Search.SearchStage(term)(p);
    KeepSingle(p, Search.SearchStage(term));
    assert !Contains(word, term);
    assert !Contains("", term);
    assert !TermStage(term)(p);
    KeepSingle(p, TermStage(term));
  }

  /** `search.ts` also looks in the catalog key: a term found only in the key keeps the
      package there and drops it here. */
  lemma KeyOnlyMatchDiffers(p: Package, term: string)
    requires term != [] && !IsSpace(term[0]) && !IsSpace(term[|term| - 1]) && Lower(term) == term
    requires Contains(Lower(p.key), term) && !Contains(Lower(p.name), term) && p.description == None
    ensures Search.FilterBySearchTerm([p], term) == [p]
    ensures FilterPackagesBySearchTerm([p], term) == []
  {
    TrimOfTrimmed(term);
    assert Search.SearchStage(term)(p);
    KeepSingle(p, Search.SearchStage(term));
    assert !Contains("", term);
    assert !TermStage(term)(p);
    KeepSingle(p, TermStage(term));
  }
}
