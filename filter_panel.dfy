/**
 * The filter panel's own logic: the partial filter changes its clicks and
 * checkboxes emit, which category buttons are highlighted, and the order in
 * which the main categories are listed.
 */
module FilterPanel {
  import opened Wrappers
  import opened SeqUtil
  import opened Sorting
  import opened ActivityTypes
  import QueryCodec

  // ---------------------------------------------------------------- checkboxes

  /** What a checkbox control reports: a single flag or a selected list. */
  datatype CheckboxValue = Checked(b: bool) | Selection(xs: seq<string>)

  predicate IsFlagField(name: QueryCodec.Field) {
    name == QueryCodec.AvoidSensitiveTopicsField
    || name == QueryCodec.ClassroomCommunityBondingField
    || name == QueryCodec.ThematicallyAdaptableField
  }

  predicate IsListField(name: QueryCodec.Field) {
    name == QueryCodec.GroupSizeField || name == QueryCodec.MaterialsResourcesField || name == QueryCodec.ActivityTypeField
  }

  /** `handleCheckboxChange`: the change forwarded to the page, or `None` when it is dropped. */
  function CheckboxChange(name: QueryCodec.Field, value: CheckboxValue): Option<FilterChange> {
    match value
    case Checked(b) =>
      if name == QueryCodec.AvoidSensitiveTopicsField then Some(NoChange.(avoidSensitiveTopics := Some(b)))
      else if name == QueryCodec.ClassroomCommunityBondingField then Some(NoChange.(classroomCommunityBonding := Some(b)))
      else if name == QueryCodec.ThematicallyAdaptableField then Some(NoChange.(thematicallyAdaptable := Some(b)))
      else None
    case Selection(xs) =>
      if name == QueryCodec.GroupSizeField then Some(NoChange.(groupSize := Some(xs)))
      else if name == QueryCodec.MaterialsResourcesField then Some(NoChange.(materialsResources := Some(xs)))
      else if name == QueryCodec.ActivityTypeField then Some(NoChange.(activityType := Some(xs)))
      else None
  }

  /** The field value a checkbox value stands for. */
  function AsFieldValue(value: CheckboxValue): QueryCodec.FieldValue {
    match value
    case Checked(b) => QueryCodec.FlagValue(b)
    case Selection(xs) => QueryCodec.ListValue(xs)
  }

  /**
   * A flag is forwarded only for the three flag filters and a list only for
   * the three list filters; a forwarded change sets exactly the named filter
   * to the reported value.
   */
  lemma CheckboxChangeSpec(prev: Filters, name: QueryCodec.Field, value: CheckboxValue)
    ensures CheckboxChange(name, value).Some? <==>
      (value.Checked? && IsFlagField(name)) || (value.Selection? && IsListField(name))
    ensures CheckboxChange(name, value).Some? ==>
      var next := QueryCodec.ApplyChange(prev, CheckboxChange(name, value).value);
      && QueryCodec.ValueOf(next, name) == AsFieldValue(value)
      && forall other :: other != name ==> QueryCodec.ValueOf(next, other) == QueryCodec.ValueOf(prev, other)
  {
  }

  // ---------------------------------------------------------------- category clicks

  /** `handleMainCategoryClick`: a second click on the selected category (with no sub-category) deselects it. */
  function MainCategoryClick(filters: Filters, category: string): FilterChange {
    if filters.mainCategory == category && filters.subCategory == "" then
      NoChange.(mainCategory := Some(""), subCategory := Some(""))
    else
      NoChange.(mainCategory := Some(category), subCategory := Some(""))
  }

  /** `handleSubCategoryClick`: a second click on the selected pair keeps only the main category. */
  function SubCategoryClick(filters: Filters, mainCategory: string, subCategory: string): FilterChange {
    if filters.mainCategory == mainCategory && filters.subCategory == subCategory then
      NoChange.(mainCategory := Some(mainCategory), subCategory := Some(""))
    else
      NoChange.(mainCategory := Some(mainCategory), subCategory := Some(subCategory))
  }

  /** A main-category click clears the sub-category, toggles the category, and leaves every other filter alone. */
  lemma MainCategoryClickSpec(prev: Filters, category: string)
    ensures var next := QueryCodec.ApplyChange(prev, MainCategoryClick(prev, category));
      && next.subCategory == ""
      && next.mainCategory == (if prev.mainCategory == category && prev.subCategory == "" then "" else category)
      && next == prev.(mainCategory := next.mainCategory, subCategory := "")
  {
  }

  /** Two clicks on the same (non-empty) category: the second undoes the first's selection. */
  lemma MainCategoryClickTwice(prev: Filters, category: string)
    requires category != ""
    ensures var once := QueryCodec.ApplyChange(prev, MainCategoryClick(prev, category));
      var twice := QueryCodec.ApplyChange(once, MainCategoryClick(once, category));
      (once.mainCategory == category) != (twice.mainCategory == category) && twice.subCategory == ""
  {
  }

  /** A sub-category click selects the pair, or on the selected pair keeps only its main category. */
  lemma SubCategoryClickSpec(prev: Filters, mainCategory: string, subCategory: string)
    ensures var next := QueryCodec.ApplyChange(prev, SubCategoryClick(prev, mainCategory, subCategory));
      && next.mainCategory == mainCategory
      && next.subCategory == (if prev.mainCategory == mainCategory && prev.subCategory == subCategory then "" else subCategory)
      && next == prev.(mainCategory := mainCategory, subCategory := next.subCategory)
  {
  }

  /** The main-category button is highlighted as selected on its own. */
  predicate IsMainActiveNoSub(filters: Filters, category: string) {
    filters.mainCategory == category && filters.subCategory == ""
  }

  /** The main-category button is marked as holding the selected sub-category. */
  predicate IsSubActive(filters: Filters, options: FilterOptions, category: string) {
    && filters.mainCategory == category
    && filters.subCategory != ""
    && category in options.subCategoryOptions
    && filters.subCategory in options.subCategoryOptions[category]
  }

  /**
   * The two highlights exclude each other; clicking an offered sub-category
   * of a category marks that category (and only it) as sub-active.
   */
  lemma CategoryHighlights(prev: Filters, options: FilterOptions, category: string, subCategory: string, other: string)
    requires category in options.subCategoryOptions && subCategory in options.subCategoryOptions[category]
    requires subCategory != "" && !(prev.mainCategory == category && prev.subCategory == subCategory)
    ensures !(IsMainActiveNoSub(prev, other) && IsSubActive(prev, options, other))
    ensures var next := QueryCodec.ApplyChange(prev, SubCategoryClick(prev, category, subCategory));
      IsSubActive(next, options, other) <==> other == category
  {
  }

  // ---------------------------------------------------------------- category order

  /** `CATEGORY_ORDER`. */
  const CategoryOrder: seq<string> := ["Oral English", "Writing", "Vocabulary", "Grammar", "Practical English"]

  /** `CATEGORY_ORDER.indexOf(c)`. */
  function OrderIndex(c: string): (i: int)
    ensures -1 <= i < |CategoryOrder|
    ensures i >= 0 ==> CategoryOrder[i] == c
    ensures i == -1 <==> c !in CategoryOrder
  {
    if c == CategoryOrder[0] then 0
    else if c == CategoryOrder[1] then 1
    else if c == CategoryOrder[2] then 2
    else if c == CategoryOrder[3] then 3
    else if c == CategoryOrder[4] then 4
    else -1
  }

  /** The comparator `CATEGORY_ORDER.indexOf(a) - CATEGORY_ORDER.indexOf(b)` as an ordering. */
  predicate OrderLeq(a: string, b: string) {
    OrderIndex(a) <= OrderIndex(b)
  }

  lemma OrderLeqTotalPreorder()
    ensures TotalPreorder(OrderLeq)
  {
  }

  /** The two categories listed after the separator. */
  predicate IsSeparated(c: string) {
    c == "FuelBox" || c == "Skills"
  }

  predicate IsOrdered(c: string) {
    c in CategoryOrder && !IsSeparated(c)
  }

  predicate IsOther(c: string) {
    c !in CategoryOrder && !IsSeparated(c)
  }

  /** The categories of `CATEGORY_ORDER`, in that order. */
  function OrderedCategories(mains: seq<string>): seq<string> {
    SortBy(Keep(mains, IsOrdered), OrderLeq)
  }

  /** The remaining categories, sorted by the locale ordering `localeLeq`. */
  function OtherCategories(mains: seq<string>, localeLeq: (string, string) -> bool): seq<string> {
    SortBy(Keep(mains, IsOther), localeLeq)
  }

  /** `displayCategories`, the list shown above the separator. */
  function DisplayCategories(mains: seq<string>, localeLeq: (string, string) -> bool): seq<string> {
    OrderedCategories(mains) + OtherCategories(mains, localeLeq)
  }

  /** The buttons below the separator: "FuelBox" first, then "Skills", each if present. */
  function SeparatedCategories(mains: seq<string>): (r: seq<string>)
    ensures r == [] <==> "FuelBox" !in mains && "Skills" !in mains
  {
    (if "FuelBox" in mains then ["FuelBox"] else []) + (if "Skills" in mains then ["Skills"] else [])
  }

  /** Filtering a sequence by a predicate and by its negation splits its multiset. */
  lemma {:induction false} KeepSplit<T(!new)>(s: seq<T>, p: T -> bool, q: T -> bool)
    requires forall x :: q(x) == !p(x)
    ensures multiset(Keep(s, p)) + multiset(Keep(s, q)) == multiset(s)
  {
    if s != [] {
      var x, rest := s[0], s[1..];
      KeepSplit(rest, p, q);
      assert s == [x] + rest;
      var kp, kq := Keep(rest, p), Keep(rest, q);
      if p(x) {
        assert Keep(s, p) == [x] + kp;
        assert Keep(s, q) == kq;
        assert multiset([x] + kp) == multiset{x} + multiset(kp);
      } else {
        assert Keep(s, p) == kp;
        assert Keep(s, q) == [x] + kq;
        assert multiset([x] + kq) == multiset{x} + multiset(kq);
      }
      assert multiset([x] + rest) == multiset{x} + multiset(rest);
    }
  }

  predicate NotSeparated(c: string) {
    !IsSeparated(c)
  }

  /** The ordered part is sorted by `CATEGORY_ORDER`, the rest by the locale ordering. */
  lemma DisplayCategoriesSorted(mains: seq<string>, localeLeq: (string, string) -> bool)
    requires TotalPreorder(localeLeq)
    ensures SortedBy(OrderedCategories(mains), OrderLeq)
    ensures SortedBy(OtherCategories(mains, localeLeq), localeLeq)
  {
    OrderLeqTotalPreorder();
    SortBySorted(Keep(mains, IsOrdered), OrderLeq);
    SortBySorted(Keep(mains, IsOther), localeLeq);
  }

  /** The ordered part holds only categories of `CATEGORY_ORDER`, the rest none of them, and neither part a separated one. */
  lemma DisplayCategoriesParts(mains: seq<string>, localeLeq: (string, string) -> bool, c: string)
    ensures c in OrderedCategories(mains) ==> IsOrdered(c)
    ensures c in OtherCategories(mains, localeLeq) ==> IsOther(c)
  {
    assert c in OrderedCategories(mains) ==> c in multiset(Keep(mains, IsOrdered));
    assert c in OtherCategories(mains, localeLeq) ==> c in multiset(Keep(mains, IsOther));
  }

  /** The listed categories are a permutation of the options other than "FuelBox" and "Skills". */
  lemma DisplayCategoriesPermutation(mains: seq<string>, localeLeq: (string, string) -> bool)
    ensures multiset(DisplayCategories(mains, localeLeq)) == multiset(Keep(mains, NotSeparated))
  {
    var rest := Keep(mains, NotSeparated);
    KeepStep(mains, NotSeparated, (c: string) => c in CategoryOrder, IsOrdered);
    KeepStep(mains, NotSeparated, (c: string) => c !in CategoryOrder, IsOther);
    KeepSplit(rest, (c: string) => c in CategoryOrder, (c: string) => c !in CategoryOrder);
  }

  lemma DisplayCategoriesMembers(mains: seq<string>, localeLeq: (string, string) -> bool, c: string)
    ensures c in DisplayCategories(mains, localeLeq) <==> c in mains && NotSeparated(c)
  {
    DisplayCategoriesPermutation(mains, localeLeq);
    assert c in DisplayCategories(mains, localeLeq) <==> c in multiset(Keep(mains, NotSeparated));
  }

  lemma SeparatedCategoriesMembers(mains: seq<string>, c: string)
    ensures c in SeparatedCategories(mains) <==> c in mains && IsSeparated(c)
  {
  }

  /** Every option gets a button: above the separator or below it. */
  lemma EveryCategoryShown(mains: seq<string>, localeLeq: (string, string) -> bool, c: string)
    ensures c in mains <==> c in DisplayCategories(mains, localeLeq) + SeparatedCategories(mains)
  {
    DisplayCategoriesMembers(mains, localeLeq, c);
    SeparatedCategoriesMembers(mains, c);
  }
}
