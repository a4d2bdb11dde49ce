/**
 * The `filteredActivities` effect: the catalogue narrowed by the current
 * filter state, one criterion after another.
 */
module FilterEngine {
  import opened Wrappers
  import opened TextUtil
  import opened SeqUtil
  import opened ActivityTypes
  import QueryCodec

  // ---------------------------------------------------------------- the criteria

  /** The search term occurs, case-insensitively, in the title or the description; an empty term keeps everything. */
  predicate SearchStage(f: Filters, a: Activity) {
    var term := Lower(f.searchTerm);
    f.searchTerm == "" ||
    (a.title != "" && Contains(Lower(a.title), term)) ||
    (a.fullDescription != "" && Contains(Lower(a.fullDescription), term))
  }

  /** The range is other than A1..C2 (the hard-coded defaults), so the CEFR criterion is considered. */
  predicate CefrFilterActive(r: CefrRange) {
    !(r.min == CefrLevels[0] && r.max == CefrLevels[|CefrLevels| - 1])
  }

  /** The range is active and both its bounds are canonical levels in order: the CEFR criterion applies. */
  predicate CefrApplies(r: CefrRange) {
    && CefrFilterActive(r) && r.min != "" && r.max != ""
    && CefrIndex(r.min) != -1 && CefrIndex(r.max) != -1 && CefrIndex(r.min) <= CefrIndex(r.max)
  }

  /** Some level of the activity lies within the range (an activity with no level fails). */
  predicate SomeLevelWithin(a: Activity, lo: int, hi: int) {
    exists i :: 0 <= i < |a.tags.cefrLevel| && CefrIndex(a.tags.cefrLevel[i]) != -1
      && lo <= CefrIndex(a.tags.cefrLevel[i]) <= hi
  }

  predicate CefrStage(f: Filters, a: Activity) {
    CefrApplies(f.cefrLevel) ==> SomeLevelWithin(a, CefrIndex(f.cefrLevel.min), CefrIndex(f.cefrLevel.max))
  }

  /** The keys matched against a single selected value. */
  const ExactKeys: seq<TagKey> := [MainCategory, SubCategory, PreparationRequired]

  /** The selected value of an exact-match key. */
  function SelectedValue(f: Filters, key: TagKey): string {
    match key
    case MainCategory => f.mainCategory
    case SubCategory => f.subCategory
    case PreparationRequired => f.preparationRequired
    case _ => ""
  }

  /** An exact-match tag equals the selected value (a list tag contains it); no selection keeps everything. */
  predicate ExactStage(f: Filters, key: TagKey, a: Activity) {
    var value := SelectedValue(f, key);
    value == "" ||
    match TagOf(a.tags, key)
    case TextList(items) => value in items
    case Text(s) => s == value
    case _ => false
  }

  predicate AllExact(f: Filters, keys: seq<TagKey>, a: Activity) {
    if keys == [] then true else AllExact(f, keys[..|keys| - 1], a) && ExactStage(f, keys[|keys| - 1], a)
  }

  /** The keys whose selected options must all be present. */
  const MultiKeys: seq<TagKey> := [GroupSize, MaterialsResources, ActivityType]

  function SelectedOptions(f: Filters, key: TagKey): seq<string> {
    match key
    case GroupSize => f.groupSize
    case MaterialsResources => f.materialsResources
    case ActivityType => f.activityType
    case _ => []
  }

  /** Every selected option is among the activity's values for the key; no selection keeps everything. */
  predicate MultiStage(f: Filters, key: TagKey, a: Activity) {
    var selected := SelectedOptions(f, key);
    selected == [] ||
    match TagOf(a.tags, key)
    case TextList(items) => forall i :: 0 <= i < |selected| ==> selected[i] in items
    case _ => false
  }

  predicate AllMulti(f: Filters, keys: seq<TagKey>, a: Activity) {
    if keys == [] then true else AllMulti(f, keys[..|keys| - 1], a) && MultiStage(f, keys[|keys| - 1], a)
  }

  /** The three switches: no sensitivity warning, community bonding, thematically adaptable. */
  predicate SensitiveStage(f: Filters, a: Activity) {
    f.avoidSensitiveTopics ==> a.tags.sensitivityWarning == false
  }

  predicate BondingStage(f: Filters, a: Activity) {
    f.classroomCommunityBonding ==> a.tags.classroomCommunityBonding == true
  }

  predicate AdaptableStage(f: Filters, a: Activity) {
    f.thematicallyAdaptable ==> a.tags.thematicallyAdaptable == true
  }

  predicate ToggleStages(f: Filters, a: Activity) {
    SensitiveStage(f, a) && BondingStage(f, a) && AdaptableStage(f, a)
  }

  /** An activity passes the filter state: every criterion holds. */
  predicate Matches(f: Filters, a: Activity) {
    && SearchStage(f, a) && CefrStage(f, a)
    && AllExact(f, ExactKeys, a) && AllMulti(f, MultiKeys, a)
    && ToggleStages(f, a)
  }

  /** The catalogue the effect shows, when it has data and filter options. */
  function Filtered(all: seq<Activity>, f: Filters): seq<Activity> {
    Keep(all, a => Matches(f, a))
  }

  // ---------------------------------------------------------------- the effect

  /** The displayed list: empty while loading, the whole catalogue before options exist, otherwise the matches. */
  function Displayed(all: seq<Activity>, f: Filters, filterOptions: Option<FilterOptions>, isLoading: bool): seq<Activity> {
    if |all| == 0 || filterOptions.None? then (if isLoading then [] else all) else Filtered(all, f)
  }

  /** Filtering the survivors of `passed` by `stage` keeps the survivors of `next`. */
  lemma StageStep(all: seq<Activity>, passed: Activity -> bool, stage: Activity -> bool, next: Activity -> bool,
                  before: seq<Activity>, after: seq<Activity>)
    requires before == Keep(all, passed) && after == Keep(before, stage)
    requires forall a :: next(a) == (passed(a) && stage(a))
    ensures after == Keep(all, next)
  {
    KeepStep(all, passed, stage, next);
  }

  /** A stage that is switched off, or that filters by an equivalent test, filters by its criterion. */
  lemma StageAs(before: seq<Activity>, after: seq<Activity>, test: Activity -> bool, stage: Activity -> bool, applied: bool)
    requires applied ==> after == Keep(before, test) && forall a :: test(a) == stage(a)
    requires !applied ==> after == before && forall a :: stage(a)
    ensures after == Keep(before, stage)
  {
    if applied {
      KeepCongruent(before, test, stage);
    } else {
      KeepAll(before, stage);
    }
  }

  /** The search step. */
  method ApplySearch(currentActivities: seq<Activity>, filters: Filters) returns (result: seq<Activity>)
    ensures result == Keep(currentActivities, a => SearchStage(filters, a))
  {
    result := currentActivities;
    var searchTermLower := Lower(filters.searchTerm);
    var searchTest := (a: Activity) =>
      (a.title != "" && Contains(Lower(a.title), searchTermLower)) ||
      (a.fullDescription != "" && Contains(Lower(a.fullDescription), searchTermLower));
    if filters.searchTerm != "" {
      result := Keep(currentActivities, searchTest);
    }
    StageAs(currentActivities, result, searchTest, a => SearchStage(filters, a), filters.searchTerm != "");
  }

  /** The CEFR step. */
  method ApplyCefr(currentActivities: seq<Activity>, filters: Filters) returns (result: seq<Activity>)
    ensures result == Keep(currentActivities, a => CefrStage(filters, a))
  {
    result := currentActivities;
    var minCefrIndex := CefrIndex(filters.cefrLevel.min);
    var maxCefrIndex := CefrIndex(filters.cefrLevel.max);
    var cefrTest := (a: Activity) => SomeLevelWithin(a, minCefrIndex, maxCefrIndex);
    if CefrFilterActive(filters.cefrLevel) && filters.cefrLevel.min != "" && filters.cefrLevel.max != "" {
      if minCefrIndex != -1 && maxCefrIndex != -1 && minCefrIndex <= maxCefrIndex {
        result := Keep(currentActivities, cefrTest);
      }
    }
    StageAs(currentActivities, result, cefrTest, a => CefrStage(filters, a), CefrApplies(filters.cefrLevel));
  }

  /** One step of the exact-match loop. */
  method ApplyExact(currentActivities: seq<Activity>, filters: Filters, key: TagKey) returns (result: seq<Activity>)
    ensures result == Keep(currentActivities, a => ExactStage(filters, key, a))
  {
    result := currentActivities;
    var filterValue := SelectedValue(filters, key);
    var exactTest := (a: Activity) =>
      match TagOf(a.tags, key)
      case TextList(items) => filterValue in items
      case Text(s) => s == filterValue
      case _ => false;
    if filterValue != "" {
      result := Keep(currentActivities, exactTest);
    }
    StageAs(currentActivities, result, exactTest, a => ExactStage(filters, key, a), filterValue != "");
  }

  /** One step of the every-option loop. */
  method ApplyMulti(currentActivities: seq<Activity>, filters: Filters, key: TagKey) returns (result: seq<Activity>)
    ensures result == Keep(currentActivities, a => MultiStage(filters, key, a))
  {
    result := currentActivities;
    var selectedOptions := SelectedOptions(filters, key);
    var multiTest := (a: Activity) =>
      match TagOf(a.tags, key)
      case TextList(items) => forall j :: 0 <= j < |selectedOptions| ==> selectedOptions[j] in items
      case _ => false;
    if |selectedOptions| > 0 {
      result := Keep(currentActivities, multiTest);
    }
    StageAs(currentActivities, result, multiTest, a => MultiStage(filters, key, a), |selectedOptions| > 0);
  }

  /** The three switch steps. */
  method ApplyToggles(currentActivities: seq<Activity>, filters: Filters) returns (result: seq<Activity>)
    ensures result == Keep(currentActivities, a => ToggleStages(filters, a))
  {
    var sensitiveTest := (a: Activity) => a.tags.sensitivityWarning == false;
    var afterSensitive := currentActivities;
    if filters.avoidSensitiveTopics {
      afterSensitive := Keep(afterSensitive, sensitiveTest);
    }
    StageAs(currentActivities, afterSensitive, sensitiveTest, a => SensitiveStage(filters, a), filters.avoidSensitiveTopics);

    var bondingTest := (a: Activity) => a.tags.classroomCommunityBonding == true;
    var afterBonding := afterSensitive;
    if filters.classroomCommunityBonding {
      afterBonding := Keep(afterBonding, bondingTest);
    }
    StageAs(afterSensitive, afterBonding, bondingTest, a => BondingStage(filters, a), filters.classroomCommunityBonding);
    StageStep(currentActivities, a => SensitiveStage(filters, a), a => BondingStage(filters, a),
      a => SensitiveStage(filters, a) && BondingStage(filters, a), afterSensitive, afterBonding);

    var adaptableTest := (a: Activity) => a.tags.thematicallyAdaptable == true;
    result := afterBonding;
    if filters.thematicallyAdaptable {
      result := Keep(result, adaptableTest);
    }
    StageAs(afterBonding, result, adaptableTest, a => AdaptableStage(filters, a), filters.thematicallyAdaptable);
    StageStep(currentActivities, a => SensitiveStage(filters, a) && BondingStage(filters, a), a => AdaptableStage(filters, a),
      a => ToggleStages(filters, a), afterBonding, result);
  }

  /** The `forEach` over the exact-match keys. */
  method ApplyExactKeys(currentActivities: seq<Activity>, filters: Filters) returns (result: seq<Activity>)
    ensures result == Keep(currentActivities, a => AllExact(filters, ExactKeys, a))
  {
    result := currentActivities;
    KeepAll(currentActivities, a => AllExact(filters, ExactKeys[..0], a));
    for i := 0 to |ExactKeys|
      invariant result == Keep(currentActivities, a => AllExact(filters, ExactKeys[..i], a))
    {
      var before := result;
      result := ApplyExact(result, filters, ExactKeys[i]);
      assert ExactKeys[..i + 1][..i] == ExactKeys[..i];
      StageStep(currentActivities, a => AllExact(filters, ExactKeys[..i], a), a => ExactStage(filters, ExactKeys[i], a),
        a => AllExact(filters, ExactKeys[..i + 1], a), before, result);
    }
    assert ExactKeys[..|ExactKeys|] == ExactKeys;
  }

  /** The `forEach` over the every-option keys. */
  method ApplyMultiKeys(currentActivities: seq<Activity>, filters: Filters) returns (result: seq<Activity>)
    ensures result == Keep(currentActivities, a => AllMulti(filters, MultiKeys, a))
  {
    result := currentActivities;
    KeepAll(currentActivities, a => AllMulti(filters, MultiKeys[..0], a));
    for i := 0 to |MultiKeys|
      invariant result == Keep(currentActivities, a => AllMulti(filters, MultiKeys[..i], a))
    {
      var before := result;
      result := ApplyMulti(result, filters, MultiKeys[i]);
      assert MultiKeys[..i + 1][..i] == MultiKeys[..i];
      StageStep(currentActivities, a => AllMulti(filters, MultiKeys[..i], a), a => MultiStage(filters, MultiKeys[i], a),
        a => AllMulti(filters, MultiKeys[..i + 1], a), before, result);
    }
    assert MultiKeys[..|MultiKeys|] == MultiKeys;
  }

  /** The `filteredActivities` effect, criterion by criterion. */
  method FilterActivities(allActivities: seq<Activity>, filters: Filters, filterOptions: Option<FilterOptions>, isLoading: bool)
    returns (filteredActivities: seq<Activity>)
    ensures filteredActivities == Displayed(allActivities, filters, filterOptions, isLoading)
  {
    if |allActivities| == 0 || filterOptions.None? {
      filteredActivities := if isLoading then [] else allActivities;
      return;
    }
    var afterSearch := ApplySearch(allActivities, filters);
    var afterCefr := ApplyCefr(afterSearch, filters);
    var afterExact := ApplyExactKeys(afterCefr, filters);
    var afterMulti := ApplyMultiKeys(afterExact, filters);
    filteredActivities := ApplyToggles(afterMulti, filters);
    ghost var p1: Activity -> bool := a => SearchStage(filters, a);
    ghost var p2: Activity -> bool := a => p1(a) && CefrStage(filters, a);
    ghost var p3: Activity -> bool := a => p2(a) && AllExact(filters, ExactKeys, a);
    ghost var p4: Activity -> bool := a => p3(a) && AllMulti(filters, MultiKeys, a);
    StageStep(allActivities, p1, a => CefrStage(filters, a), p2, afterSearch, afterCefr);
    StageStep(allActivities, p2, a => AllExact(filters, ExactKeys, a), p3, afterCefr, afterExact);
    StageStep(allActivities, p3, a => AllMulti(filters, MultiKeys, a), p4, afterExact, afterMulti);
    StageStep(allActivities, p4, a => ToggleStages(filters, a), a => Matches(filters, a), afterMulti, filteredActivities);
  }

  // ---------------------------------------------------------------- properties

  /** The shown activities are exactly the matching ones, in catalogue order. */
  lemma FilteredSpec(all: seq<Activity>, f: Filters, a: Activity)
    ensures a in Filtered(all, f) <==> a in all && Matches(f, a)
    ensures IsSubsequence(Filtered(all, f), all)
  {
    KeepIsSubsequence(all, x => Matches(f, x));
  }

  lemma NoSelectionAllExact(f: Filters, keys: seq<TagKey>, a: Activity)
    requires forall i :: 0 <= i < |keys| ==> SelectedValue(f, keys[i]) == ""
    ensures AllExact(f, keys, a)
  {
    if keys != [] {
      NoSelectionAllExact(f, keys[..|keys| - 1], a);
    }
  }

  lemma NoSelectionAllMulti(f: Filters, keys: seq<TagKey>, a: Activity)
    requires forall i :: 0 <= i < |keys| ==> SelectedOptions(f, keys[i]) == []
    ensures AllMulti(f, keys, a)
  {
    if keys != [] {
      NoSelectionAllMulti(f, keys[..|keys| - 1], a);
    }
  }

  /** With no query in the URL nothing is filtered out. */
  lemma EmptyQueryKeepsAll(all: seq<Activity>)
    ensures Filtered(all, QueryCodec.Decode(map[])) == all
  {
    var f := QueryCodec.Decode(map[]);
    forall a ensures Matches(f, a) {
      NoSelectionAllExact(f, ExactKeys, a);
      NoSelectionAllMulti(f, MultiKeys, a);
    }
    KeepAll(all, a => Matches(f, a));
  }

  /** An applied CEFR range excludes every activity that has no level. */
  lemma UnlevelledExcluded(f: Filters, a: Activity)
    requires CefrApplies(f.cefrLevel) && a.tags.cefrLevel == []
    ensures !Matches(f, a)
  {
  }

  lemma AllExactUnfold(f: Filters, a: Activity)
    ensures AllExact(f, ExactKeys, a) <==>
      ExactStage(f, MainCategory, a) && ExactStage(f, SubCategory, a) && ExactStage(f, PreparationRequired, a)
  {
    var two, one: seq<TagKey> := [MainCategory, SubCategory], [MainCategory];
    assert ExactKeys[..2] == two && two[..1] == one && one[..0] == [];
    assert AllExact(f, ExactKeys, a) == (AllExact(f, two, a) && ExactStage(f, PreparationRequired, a));
    assert AllExact(f, two, a) == (AllExact(f, one, a) && ExactStage(f, SubCategory, a));
    assert AllExact(f, one, a) == ExactStage(f, MainCategory, a);
  }

  lemma AllMultiUnfold(f: Filters, a: Activity)
    ensures AllMulti(f, MultiKeys, a) <==>
      MultiStage(f, GroupSize, a) && MultiStage(f, MaterialsResources, a) && MultiStage(f, ActivityType, a)
  {
    var two, one: seq<TagKey> := [GroupSize, MaterialsResources], [GroupSize];
    assert MultiKeys[..2] == two && two[..1] == one && one[..0] == [];
    assert AllMulti(f, MultiKeys, a) == (AllMulti(f, two, a) && MultiStage(f, ActivityType, a));
    assert AllMulti(f, two, a) == (AllMulti(f, one, a) && MultiStage(f, MaterialsResources, a));
    assert AllMulti(f, one, a) == MultiStage(f, GroupSize, a);
  }

  /** Selecting one more group size can only narrow the result. */
  lemma MoreGroupSizesNarrow(f: Filters, x: string, a: Activity)
    requires Matches(f.(groupSize := f.groupSize + [x]), a)
    ensures Matches(f, a)
  {
    var g := f.(groupSize := f.groupSize + [x]);
    AllExactUnfold(f, a);
    AllExactUnfold(g, a);
    AllMultiUnfold(f, a);
    AllMultiUnfold(g, a);
    if f.groupSize != [] {
      match TagOf(a.tags, GroupSize)
      case TextList(items) =>
        assert forall j :: 0 <= j < |g.groupSize| ==> g.groupSize[j] in items;
        forall i | 0 <= i < |f.groupSize| ensures f.groupSize[i] in items {
          assert g.groupSize[i] == f.groupSize[i];
          assert g.groupSize[i] in items;
        }
      case _ =>
    }
  }

  /**
   * Clearing the filters sets the CEFR range to the catalogue's lowest and
   * highest levels; when those are not A1 and C2 the range still applies and
   * hides the activities that have no level.
   */
  lemma ClearedMayStillHide(opts: FilterOptions, a: Activity)
    requires opts.cefrLevel == ["A2", "B1"] && a.tags.cefrLevel == []
    ensures !Matches(QueryCodec.ClearedFilters(Some(opts)), a)
  {
    var f := QueryCodec.ClearedFilters(Some(opts));
    assert f.cefrLevel == CefrRange("A2", "B1");
    assert CefrApplies(f.cefrLevel);
  }
}
