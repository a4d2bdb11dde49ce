/**
 * Facet derivation: the distinct, trimmed values a tag takes across the
 * catalogue (`extractUniqueTagValues`), the main-category to sub-category
 * index, and the `FilterOptions` object built from them.
 */
module FacetExtraction {
  import opened Wrappers
  import opened TextUtil
  import opened SeqUtil
  import opened Sorting
  import opened ActivityTypes

  // ---------------------------------------------------------------- values of one tag

  /** An item is offered as a facet value: it is not blank and is not literally "none" (any case, untrimmed). */
  predicate Admissible(item: string) {
    !IsBlank(item) && Lower(item) != "none"
  }

  /** The strings a tag value contributes before cleaning: a string, the items of a list, or nothing. */
  function RawItems(v: TagValue): seq<string> {
    match v
    case Text(s) => [s]
    case TextList(items) => items
    case Flag(_) => []
    case Cards(_) => []
    case Undefined => []
  }

  /** The candidate strings of `tags[key]`; `flashcards` contributes nothing. */
  function Candidates(key: TagKey, t: Tags): seq<string> {
    if key == Flashcards then [] else RawItems(TagOf(t, key))
  }

  /** The admissible items, trimmed, in order. */
  function Cleaned(items: seq<string>): seq<string> {
    if items == [] then []
    else
      var last := items[|items| - 1];
      Cleaned(items[..|items| - 1]) + (if Admissible(last) then [Trim(last)] else [])
  }

  /** The item `item` contributes the value `x`. */
  predicate Yields(item: string, x: string) {
    Admissible(item) && Trim(item) == x
  }

  /** Every cleaned value comes from an admissible item, and every admissible item yields its trimmed self. */
  lemma {:induction false} CleanedMembers(items: seq<string>, x: string)
    ensures x in Cleaned(items) <==> exists i :: 0 <= i < |items| && Yields(items[i], x)
  {
    if items != [] {
      var n := |items| - 1;
      var init := items[..n];
      CleanedMembers(init, x);
      assert forall i :: 0 <= i < n ==> init[i] == items[i];
    }
  }

  /** The values activity `a` offers for `key`. */
  function ValuesOf(a: Activity, key: TagKey): seq<string> {
    Cleaned(Candidates(key, a.tags))
  }

  /** All values of `key` across `acts`, in visiting order, repetitions kept. */
  function TagValues(acts: seq<Activity>, key: TagKey): seq<string> {
    FlatMap(acts, (a: Activity) => ValuesOf(a, key))
  }

  lemma TagValuesMembers(acts: seq<Activity>, key: TagKey, x: string)
    ensures x in TagValues(acts, key) <==> exists a :: a in acts && x in ValuesOf(a, key)
  {
    FlatMapMembers(acts, (a: Activity) => ValuesOf(a, key), x);
  }

  /** Boolean tags and `flashcards` never offer a value. */
  lemma {:induction false} NoValuesForFlags(acts: seq<Activity>, key: TagKey)
    requires key in {SensitivityWarning, ClassroomCommunityBonding, ThematicallyAdaptable, Flashcards}
    ensures TagValues(acts, key) == []
  {
    if acts != [] {
      NoValuesForFlags(acts[..|acts| - 1], key);
    }
  }

  // ---------------------------------------------------------------- the Set and the sort

  /** `Array.from(new Set(s))`: first occurrences, in insertion order. */
  function Distinct(s: seq<string>): seq<string> {
    if s == [] then []
    else
      var init := s[..|s| - 1];
      Distinct(init) + (if s[|s| - 1] in init then [] else [s[|s| - 1]])
  }

  predicate NoDuplicates(s: seq<string>) {
    forall i, j :: 0 <= i < j < |s| ==> s[i] != s[j]
  }

  /** The Set keeps exactly the values added to it, each once. */
  lemma {:induction false} DistinctSpec(s: seq<string>)
    ensures forall x :: x in Distinct(s) <==> x in s
    ensures NoDuplicates(Distinct(s))
  {
    if s != [] {
      var init := s[..|s| - 1];
      DistinctSpec(init);
      assert s == init + [s[|s| - 1]];
    }
  }

  /** A permutation of a duplicate-free sequence is duplicate-free. */
  lemma PermutationNoDuplicates(a: seq<string>, b: seq<string>)
    requires multiset(a) == multiset(b) && NoDuplicates(a)
    ensures NoDuplicates(b)
  {
    forall i, j | 0 <= i < j < |b| ensures b[i] != b[j] {
      if b[i] == b[j] {
        assert multiset(b[..j])[b[i]] >= 1 by { assert b[..j][i] == b[i]; }
        assert b == b[..j] + [b[j]] + b[j + 1..];
        assert multiset(b)[b[i]] >= 2;
        assert multiset(a)[b[i]] >= 2;
        MultiplicityAtMostOne(a, b[i]);
      }
    }
  }

  lemma {:induction false} MultiplicityAtMostOne(a: seq<string>, x: string)
    requires NoDuplicates(a)
    ensures multiset(a)[x] <= 1
  {
    if a != [] {
      var n := |a| - 1;
      assert a == a[..n] + [a[n]];
      MultiplicityAtMostOne(a[..n], x);
      if a[n] == x {
        assert x !in a[..n];
      }
    }
  }

  /** `CEFR_LEVELS_ORDERED.indexOf(a) - CEFR_LEVELS_ORDERED.indexOf(b) <= 0`. */
  predicate CefrLeq(a: string, b: string) {
    CefrIndex(a) <= CefrIndex(b)
  }

  lemma CefrLeqTotalPreorder()
    ensures TotalPreorder(CefrLeq)
  {
  }

  /** The comparator `extractUniqueTagValues` sorts `key` with; `localeLeq` stands for `localeCompare(a, b) <= 0`. */
  function FacetOrder(key: TagKey, localeLeq: (string, string) -> bool): (string, string) -> bool {
    if key == CefrLevel then CefrLeq else localeLeq
  }

  /** The value of `extractUniqueTagValues(acts, key)`. */
  function FacetValues(acts: seq<Activity>, key: TagKey, localeLeq: (string, string) -> bool): seq<string> {
    SortBy(Distinct(TagValues(acts, key)), FacetOrder(key, localeLeq))
  }

  /**
   * The facet lists exactly the values some activity offers, each once, and is
   * ordered when the comparator is a total preorder.
   */
  lemma FacetValuesSpec(acts: seq<Activity>, key: TagKey, localeLeq: (string, string) -> bool, x: string)
    ensures x in FacetValues(acts, key, localeLeq) <==> exists a :: a in acts && x in ValuesOf(a, key)
    ensures NoDuplicates(FacetValues(acts, key, localeLeq))
    ensures TotalPreorder(localeLeq) ==> SortedBy(FacetValues(acts, key, localeLeq), FacetOrder(key, localeLeq))
  {
    var d := Distinct(TagValues(acts, key));
    var r := FacetValues(acts, key, localeLeq);
    DistinctSpec(TagValues(acts, key));
    TagValuesMembers(acts, key, x);
    assert x in r <==> x in multiset(r);
    assert x in d <==> x in multiset(d);
    PermutationNoDuplicates(d, r);
    if TotalPreorder(localeLeq) {
      CefrLeqTotalPreorder();
      SortBySorted(d, FacetOrder(key, localeLeq));
    }
  }

  /** The CEFR facet puts values that are not canonical levels before every canonical one. */
  lemma UnknownCefrFirst(acts: seq<Activity>, localeLeq: (string, string) -> bool, i: int, j: int)
    requires 0 <= i < j < |FacetValues(acts, CefrLevel, localeLeq)|
    requires FacetValues(acts, CefrLevel, localeLeq)[j] !in CefrLevels
    ensures FacetValues(acts, CefrLevel, localeLeq)[i] !in CefrLevels
  {
    var d := Distinct(TagValues(acts, CefrLevel));
    CefrLeqTotalPreorder();
    SortBySorted(d, CefrLeq);
  }

  // ---------------------------------------------------------------- the accumulation loop

  /** Adds the admissible items of one tag value to the Set, trimmed, in order. */
  method AddItems(values: seq<string>, ghost seen: seq<string>, items: seq<string>) returns (updated: seq<string>)
    requires values == Distinct(seen)
    ensures updated == Distinct(seen + Cleaned(items))
  {
    updated := values;
    assert seen + Cleaned(items[..0]) == seen;
    for j := 0 to |items|
      invariant updated == Distinct(seen + Cleaned(items[..j]))
    {
      var item := items[j];
      ghost var sofar := seen + Cleaned(items[..j]);
      assert items[..j + 1][..j] == items[..j];
      if Admissible(item) {
        var v := Trim(item);
        assert (sofar + [v])[..|sofar|] == sofar;
        assert seen + Cleaned(items[..j + 1]) == sofar + [v];
        DistinctSpec(sofar);
        if v !in updated {
          updated := updated + [v];
        }
      } else {
        assert seen + Cleaned(items[..j + 1]) == sofar;
      }
    }
    assert items[..|items|] == items;
  }

  /** The `values` Set of `extractUniqueTagValues`, filled activity by activity. */
  method CollectValues(acts: seq<Activity>, key: TagKey) returns (values: seq<string>)
    ensures values == Distinct(TagValues(acts, key))
  {
    values := [];
    for k := 0 to |acts|
      invariant values == Distinct(TagValues(acts[..k], key))
    {
      assert acts[..k + 1][..k] == acts[..k];
      values := AddItems(values, TagValues(acts[..k], key), Candidates(key, acts[k].tags));
    }
    assert acts[..|acts|] == acts;
  }

  /** `extractUniqueTagValues(acts, key)`. */
  method ExtractUniqueTagValues(acts: seq<Activity>, key: TagKey, localeLeq: (string, string) -> bool)
    returns (sortedValues: seq<string>)
    ensures sortedValues == FacetValues(acts, key, localeLeq)
  {
    var values := CollectValues(acts, key);
    if key == CefrLevel {
      sortedValues := SortBy(values, CefrLeq);
    } else {
      sortedValues := SortBy(values, localeLeq);
    }
  }

  // ---------------------------------------------------------------- sub-categories

  /** The activities whose main category is exactly `mainCat` (untrimmed comparison). */
  function InMainCategory(acts: seq<Activity>, mainCat: string): seq<Activity> {
    Keep(acts, (a: Activity) => a.tags.mainCategory == mainCat)
  }

  /** `subCategoriesByMain[mainCat]`. */
  function SubCategoryOptions(acts: seq<Activity>, mainCat: string, localeLeq: (string, string) -> bool): seq<string> {
    SortBy(Distinct(TagValues(InMainCategory(acts, mainCat), SubCategory)), localeLeq)
  }

  /** A sub-category offered under `mainCat` is a sub-category of some activity filed under exactly `mainCat`. */
  lemma SubCategoryOptionsSpec(acts: seq<Activity>, mainCat: string, localeLeq: (string, string) -> bool, x: string)
    ensures x in SubCategoryOptions(acts, mainCat, localeLeq) <==>
      exists a :: a in acts && a.tags.mainCategory == mainCat && x in ValuesOf(a, SubCategory)
    ensures x in SubCategoryOptions(acts, mainCat, localeLeq) ==> x in FacetValues(acts, SubCategory, localeLeq)
  {
    var rel := InMainCategory(acts, mainCat);
    var d := Distinct(TagValues(rel, SubCategory));
    DistinctSpec(TagValues(rel, SubCategory));
    TagValuesMembers(rel, SubCategory, x);
    assert x in SubCategoryOptions(acts, mainCat, localeLeq) <==> x in multiset(d);
    FacetValuesSpec(acts, SubCategory, localeLeq, x);
  }

  /** The index the effect builds: one entry per main category. */
  function SubCategoryIndex(acts: seq<Activity>, mainCategories: seq<string>, localeLeq: (string, string) -> bool): map<string, seq<string>> {
    map c | c in mainCategories :: SubCategoryOptions(acts, c, localeLeq)
  }

  /** A map with the right keys and the right entry under each is the index. */
  lemma IndexByEntries(m: map<string, seq<string>>, acts: seq<Activity>, mainCategories: seq<string>, localeLeq: (string, string) -> bool)
    requires forall c :: c in m <==> c in mainCategories
    requires forall c :: c in m ==> m[c] == SubCategoryOptions(acts, c, localeLeq)
    ensures m == SubCategoryIndex(acts, mainCategories, localeLeq)
  {
  }

  /** Adding the entry of one more main category keeps the loop's invariant. */
  lemma IndexStep(m: map<string, seq<string>>, acts: seq<Activity>, done: seq<string>, c: string, entry: seq<string>, localeLeq: (string, string) -> bool)
    requires forall x :: x in m <==> x in done
    requires forall x :: x in m ==> m[x] == SubCategoryOptions(acts, x, localeLeq)
    requires entry == SubCategoryOptions(acts, c, localeLeq)
    ensures forall x :: x in m[c := entry] <==> x in done + [c]
    ensures forall x :: x in m[c := entry] ==> m[c := entry][x] == SubCategoryOptions(acts, x, localeLeq)
  {
  }

  /** The `mainCategories.forEach` loop that fills `subCategoriesByMain`. */
  method BuildSubCategoryIndex(acts: seq<Activity>, mainCategories: seq<string>, localeLeq: (string, string) -> bool)
    returns (subCategoriesByMain: map<string, seq<string>>)
    ensures subCategoriesByMain == SubCategoryIndex(acts, mainCategories, localeLeq)
  {
    subCategoriesByMain := map[];
    for k := 0 to |mainCategories|
      invariant forall c :: c in subCategoriesByMain <==> c in mainCategories[..k]
      invariant forall c :: c in subCategoriesByMain ==> subCategoriesByMain[c] == SubCategoryOptions(acts, c, localeLeq)
    {
      var mainCat := mainCategories[k];
      var relevantActivities := InMainCategory(acts, mainCat);
      var subCatSet := CollectValues(relevantActivities, SubCategory);
      var entry := SortBy(subCatSet, localeLeq);
      assert entry == SubCategoryOptions(acts, mainCat, localeLeq);
      assert mainCategories[..k + 1] == mainCategories[..k] + [mainCat];
      IndexStep(subCategoriesByMain, acts, mainCategories[..k], mainCat, entry, localeLeq);
      subCategoriesByMain := subCategoriesByMain[mainCat := entry];
    }
    assert mainCategories[..|mainCategories|] == mainCategories;
    IndexByEntries(subCategoriesByMain, acts, mainCategories, localeLeq);
  }

  // ---------------------------------------------------------------- FilterOptions

  /** The options the effect stores for a non-empty catalogue. */
  function DerivedOptions(acts: seq<Activity>, localeLeq: (string, string) -> bool): FilterOptions {
    var mainCategories := FacetValues(acts, MainCategory, localeLeq);
    var cefr := FacetValues(acts, CefrLevel, localeLeq);
    FilterOptions(
      mainCategories,
      SubCategoryIndex(acts, mainCategories, localeLeq),
      if |cefr| > 0 then cefr else CefrLevels,
      FacetValues(acts, GroupSize, localeLeq),
      FacetValues(acts, PreparationRequired, localeLeq),
      FacetValues(acts, MaterialsResources, localeLeq),
      FacetValues(acts, ActivityType, localeLeq),
      FacetValues(acts, ClassroomCommunityBonding, localeLeq))
  }

  /** The filter-options effect: nothing happens while the catalogue is empty. */
  method DeriveFilterOptions(allActivities: seq<Activity>, previous: Option<FilterOptions>, localeLeq: (string, string) -> bool)
    returns (filterOptions: Option<FilterOptions>)
    ensures allActivities == [] ==> filterOptions == previous
    ensures allActivities != [] ==> filterOptions == Some(DerivedOptions(allActivities, localeLeq))
  {
    filterOptions := previous;
    if |allActivities| > 0 {
      var mainCategories := ExtractUniqueTagValues(allActivities, MainCategory, localeLeq);
      var subCategoriesByMain := BuildSubCategoryIndex(allActivities, mainCategories, localeLeq);
      var extractedCefrLevels := ExtractUniqueTagValues(allActivities, CefrLevel, localeLeq);
      var groupSize := ExtractUniqueTagValues(allActivities, GroupSize, localeLeq);
      var preparationRequired := ExtractUniqueTagValues(allActivities, PreparationRequired, localeLeq);
      var materialsResources := ExtractUniqueTagValues(allActivities, MaterialsResources, localeLeq);
      var activityType := ExtractUniqueTagValues(allActivities, ActivityType, localeLeq);
      var bonding := ExtractUniqueTagValues(allActivities, ClassroomCommunityBonding, localeLeq);
      filterOptions := Some(FilterOptions(
        mainCategories, subCategoriesByMain,
        if |extractedCefrLevels| > 0 then extractedCefrLevels else CefrLevels,
        groupSize, preparationRequired, materialsResources, activityType, bonding));
    }
  }

  /** The derived options always offer some CEFR level, and never a community-bonding value. */
  lemma DerivedOptionsShape(acts: seq<Activity>, localeLeq: (string, string) -> bool)
    ensures DerivedOptions(acts, localeLeq).cefrLevel != []
    ensures DerivedOptions(acts, localeLeq).classroomCommunityBonding == []
    ensures DerivedOptions(acts, localeLeq).subCategoryOptions.Keys ==
      set c | c in DerivedOptions(acts, localeLeq).mainCategory
  {
    NoValuesForFlags(acts, ClassroomCommunityBonding);
  }
}
