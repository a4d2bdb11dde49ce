/**
 * The filter state's URL form: the query parameters read when the page loads
 * (`initialFilters`), the parameters written on every filter change
 * (`handleFilterChange`) and the reset (`clearFilters`).
 *
 * A query is modelled as the map from parameter to value that
 * `URLSearchParams.get` reads; parameter names are an enumeration whose
 * spelling `Name` gives.
 */
module QueryCodec {
  import opened Wrappers
  import opened TextUtil
  import opened ActivityTypes

  /** The query parameters the filter state uses. */
  datatype Param =
    | SearchTermParam | MainCategoryParam | SubCategoryParam | CefrMinParam | CefrMaxParam
    | GroupSizeParam | PreparationRequiredParam | MaterialsResourcesParam | AvoidSensitiveTopicsParam
    | ActivityTypeParam | ClassroomCommunityBondingParam | ThematicallyAdaptableParam

  /** The parameter's name in the URL. */
  function Name(p: Param): string {
    match p
    case SearchTermParam => "searchTerm"
    case MainCategoryParam => "main_category"
    case SubCategoryParam => "sub_category"
    case CefrMinParam => "cefr_min"
    case CefrMaxParam => "cefr_max"
    case GroupSizeParam => "group_size"
    case PreparationRequiredParam => "preparation_required"
    case MaterialsResourcesParam => "materials_resources"
    case AvoidSensitiveTopicsParam => "avoid_sensitive_topics"
    case ActivityTypeParam => "activity_type"
    case ClassroomCommunityBondingParam => "classroom_community_bonding"
    case ThematicallyAdaptableParam => "thematically_adaptable"
  }

  type Query = map<Param, string>

  // ---------------------------------------------------------------- reading

  /** `searchParams.get(p) || ''`. */
  function TextOf(q: Query, p: Param): string {
    if p in q then q[p] else ""
  }

  /** `searchParams.get(p)?.split(',').filter(Boolean) || []`. */
  function ListOf(q: Query, p: Param): seq<string> {
    if p in q then NonEmptyItems(Split(q[p], ',')) else []
  }

  /** `searchParams.get(p) === 'true'`. */
  function FlagOf(q: Query, p: Param): bool {
    p in q && q[p] == "true"
  }

  /** A CEFR bound from the URL: kept when it is a canonical level, otherwise `default`. */
  function LevelOf(q: Query, p: Param, default: string): string {
    if p in q && q[p] != "" && q[p] in CefrLevels then q[p] else default
  }

  /** `initialFilters`: the filter state a query describes; its CEFR bounds are always canonical levels. */
  function Decode(q: Query): (f: Filters)
    ensures f.cefrLevel.min in CefrLevels && f.cefrLevel.max in CefrLevels
    ensures CefrMinParam !in q ==> f.cefrLevel.min == "A1"
    ensures CefrMaxParam !in q ==> f.cefrLevel.max == "C2"
    ensures forall i :: 0 <= i < |f.groupSize| ==> f.groupSize[i] != ""
    ensures forall i :: 0 <= i < |f.materialsResources| ==> f.materialsResources[i] != ""
    ensures forall i :: 0 <= i < |f.activityType| ==> f.activityType[i] != ""
  {
    Filters(
      TextOf(q, SearchTermParam),
      TextOf(q, MainCategoryParam),
      TextOf(q, SubCategoryParam),
      CefrRange(LevelOf(q, CefrMinParam, CefrLevels[0]), LevelOf(q, CefrMaxParam, CefrLevels[|CefrLevels| - 1])),
      ListOf(q, GroupSizeParam),
      TextOf(q, PreparationRequiredParam),
      ListOf(q, MaterialsResourcesParam),
      FlagOf(q, AvoidSensitiveTopicsParam),
      ListOf(q, ActivityTypeParam),
      FlagOf(q, ClassroomCommunityBondingParam),
      FlagOf(q, ThematicallyAdaptableParam))
  }

  // ---------------------------------------------------------------- the defaults of the CEFR range

  /** `filterOptions?.cefr_level?.[0] || CEFR_LEVELS_ORDERED[0]`. */
  function DefaultMin(opts: Option<FilterOptions>): string {
    if opts.Some? && |opts.value.cefrLevel| > 0 && opts.value.cefrLevel[0] != "" then opts.value.cefrLevel[0]
    else CefrLevels[0]
  }

  /** `filterOptions?.cefr_level?.[length - 1] || CEFR_LEVELS_ORDERED[5]`. */
  function DefaultMax(opts: Option<FilterOptions>): string {
    if opts.Some? && |opts.value.cefrLevel| > 0 && opts.value.cefrLevel[|opts.value.cefrLevel| - 1] != "" then
      opts.value.cefrLevel[|opts.value.cefrLevel| - 1]
    else CefrLevels[|CefrLevels| - 1]
  }

  // ---------------------------------------------------------------- writing: the specification

  /** The entry for `p` of the query `q`, if any. */
  function Lookup(q: Query, p: Param): Option<string> {
    if p in q then Some(q[p]) else None
  }

  /** A text field is written, untrimmed, exactly when it is not blank. */
  function TextEntry(v: string): Option<string> {
    if IsBlank(v) then None else Some(v)
  }

  /** A list field is written, comma-joined, exactly when it is not empty. */
  function ListEntry(v: seq<string>): Option<string> {
    if v == [] then None else Some(Join(v, ","))
  }

  /** A flag is written, as "true", exactly when it is set. */
  function FlagEntry(b: bool): Option<string> {
    if b then Some("true") else None
  }

  /** A CEFR bound is written exactly when it differs from the facet's bound. */
  function BoundEntry(v: string, default: string): Option<string> {
    if v != default then Some(v) else None
  }

  /** The value the URL holds for `p` when the state is `f`. */
  function Expected(f: Filters, opts: Option<FilterOptions>, p: Param): Option<string> {
    match p
    case SearchTermParam => TextEntry(f.searchTerm)
    case MainCategoryParam => TextEntry(f.mainCategory)
    case SubCategoryParam => TextEntry(f.subCategory)
    case CefrMinParam => BoundEntry(f.cefrLevel.min, DefaultMin(opts))
    case CefrMaxParam => BoundEntry(f.cefrLevel.max, DefaultMax(opts))
    case GroupSizeParam => ListEntry(f.groupSize)
    case PreparationRequiredParam => TextEntry(f.preparationRequired)
    case MaterialsResourcesParam => ListEntry(f.materialsResources)
    case AvoidSensitiveTopicsParam => FlagEntry(f.avoidSensitiveTopics)
    case ActivityTypeParam => ListEntry(f.activityType)
    case ClassroomCommunityBondingParam => FlagEntry(f.classroomCommunityBonding)
    case ThematicallyAdaptableParam => FlagEntry(f.thematicallyAdaptable)
  }

  /** `q` is the URL written for the state `f`: the non-default fields, and nothing else. */
  ghost predicate EncodesAs(f: Filters, opts: Option<FilterOptions>, q: Query) {
    forall p :: Lookup(q, p) == Expected(f, opts, p)
  }

  // ---------------------------------------------------------------- writing: the forEach over the entries

  /** The keys of `Filters`, in the order the state object lists them. */
  datatype Field =
    | SearchTermField | MainCategoryField | SubCategoryField | CefrLevelField | GroupSizeField
    | PreparationRequiredField | MaterialsResourcesField | AvoidSensitiveTopicsField | ActivityTypeField
    | ClassroomCommunityBondingField | ThematicallyAdaptableField

  const Fields: seq<Field> := [
    SearchTermField, MainCategoryField, SubCategoryField, CefrLevelField, GroupSizeField,
    PreparationRequiredField, MaterialsResourcesField, AvoidSensitiveTopicsField, ActivityTypeField,
    ClassroomCommunityBondingField, ThematicallyAdaptableField]

  /** A field's value, with the run-time shape the branches of the loop test. */
  datatype FieldValue = TextValue(s: string) | ListValue(xs: seq<string>) | FlagValue(b: bool) | RangeValue(r: CefrRange)

  function ValueOf(f: Filters, field: Field): FieldValue {
    match field
    case SearchTermField => TextValue(f.searchTerm)
    case MainCategoryField => TextValue(f.mainCategory)
    case SubCategoryField => TextValue(f.subCategory)
    case CefrLevelField => RangeValue(f.cefrLevel)
    case GroupSizeField => ListValue(f.groupSize)
    case PreparationRequiredField => TextValue(f.preparationRequired)
    case MaterialsResourcesField => ListValue(f.materialsResources)
    case AvoidSensitiveTopicsField => FlagValue(f.avoidSensitiveTopics)
    case ActivityTypeField => ListValue(f.activityType)
    case ClassroomCommunityBondingField => FlagValue(f.classroomCommunityBonding)
    case ThematicallyAdaptableField => FlagValue(f.thematicallyAdaptable)
  }

  /** The parameter a non-range field is written under. */
  function ParamOf(field: Field): Param
    requires field != CefrLevelField
  {
    match field
    case SearchTermField => SearchTermParam
    case MainCategoryField => MainCategoryParam
    case SubCategoryField => SubCategoryParam
    case GroupSizeField => GroupSizeParam
    case PreparationRequiredField => PreparationRequiredParam
    case MaterialsResourcesField => MaterialsResourcesParam
    case AvoidSensitiveTopicsField => AvoidSensitiveTopicsParam
    case ActivityTypeField => ActivityTypeParam
    case ClassroomCommunityBondingField => ClassroomCommunityBondingParam
    case ThematicallyAdaptableField => ThematicallyAdaptableParam
  }

  /** The field a parameter is written for. */
  function FieldOf(p: Param): (field: Field)
    ensures field in Fields
    ensures field != CefrLevelField ==> ParamOf(field) == p
  {
    match p
    case SearchTermParam => SearchTermField
    case MainCategoryParam => MainCategoryField
    case SubCategoryParam => SubCategoryField
    case CefrMinParam => CefrLevelField
    case CefrMaxParam => CefrLevelField
    case GroupSizeParam => GroupSizeField
    case PreparationRequiredParam => PreparationRequiredField
    case MaterialsResourcesParam => MaterialsResourcesField
    case AvoidSensitiveTopicsParam => AvoidSensitiveTopicsField
    case ActivityTypeParam => ActivityTypeField
    case ClassroomCommunityBondingParam => ClassroomCommunityBondingField
    case ThematicallyAdaptableParam => ThematicallyAdaptableField
  }

  /** `params.set(p, v)` when `cond`, `params.delete(p)` otherwise. */
  function SetOrDelete(params: Query, p: Param, cond: bool, v: string): Query {
    if cond then params[p := v] else params - {p}
  }

  /** One step of the `Object.entries(updatedFilters).forEach` loop. */
  function WriteEntry(params: Query, field: Field, value: FieldValue, opts: Option<FilterOptions>): Query
    requires value.RangeValue? <==> field == CefrLevelField
  {
    match value
    case RangeValue(r) =>
      var afterMin := SetOrDelete(params, CefrMinParam, r.min != DefaultMin(opts), r.min);
      SetOrDelete(afterMin, CefrMaxParam, r.max != DefaultMax(opts), r.max)
    case ListValue(xs) => SetOrDelete(params, ParamOf(field), |xs| > 0, Join(xs, ","))
    case FlagValue(b) =>
      if field in {ClassroomCommunityBondingField, ThematicallyAdaptableField, AvoidSensitiveTopicsField} then
        SetOrDelete(params, ParamOf(field), b, "true")
      else params
    case TextValue(s) => SetOrDelete(params, ParamOf(field), Trim(s) != "", s)
  }

  /** One loop step writes the field's own parameters as the state says, and touches no other. */
  lemma WriteEntrySpec(params: Query, f: Filters, field: Field, opts: Option<FilterOptions>, p: Param)
    ensures Lookup(WriteEntry(params, field, ValueOf(f, field), opts), p) ==
      if FieldOf(p) == field then Expected(f, opts, p) else Lookup(params, p)
  {
    var next := WriteEntry(params, field, ValueOf(f, field), opts);
    match ValueOf(f, field)
    case RangeValue(r) =>
      var afterMin := SetOrDelete(params, CefrMinParam, r.min != DefaultMin(opts), r.min);
      SetOrDeleteLookup(params, CefrMinParam, r.min != DefaultMin(opts), r.min, p);
      SetOrDeleteLookup(afterMin, CefrMaxParam, r.max != DefaultMax(opts), r.max, p);
    case ListValue(xs) =>
      SetOrDeleteLookup(params, ParamOf(field), |xs| > 0, Join(xs, ","), p);
    case FlagValue(b) =>
      SetOrDeleteLookup(params, ParamOf(field), b, "true", p);
    case TextValue(s) =>
      SetOrDeleteLookup(params, ParamOf(field), Trim(s) != "", s, p);
  }

  lemma SetOrDeleteLookup(params: Query, p0: Param, cond: bool, v: string, p: Param)
    ensures Lookup(SetOrDelete(params, p0, cond, v), p) ==
      if p != p0 then Lookup(params, p) else if cond then Some(v) else None
  {
  }

  /**
   * `handleFilterChange`: the new state is the old one overridden by the
   * change, and the URL is rewritten from scratch to describe the new state.
   */
  method HandleFilterChange(prevFilters: Filters, newFilters: FilterChange, filterOptions: Option<FilterOptions>)
    returns (updatedFilters: Filters, params: Query)
    ensures updatedFilters == ApplyChange(prevFilters, newFilters)
    ensures forall p :: Lookup(params, p) == Expected(updatedFilters, filterOptions, p)
  {
    updatedFilters := ApplyChange(prevFilters, newFilters);
    params := map[];
    for k := 0 to |Fields|
      invariant forall p :: FieldOf(p) !in Fields[..k] ==> p !in params
      invariant forall p :: FieldOf(p) in Fields[..k] ==> Lookup(params, p) == Expected(updatedFilters, filterOptions, p)
    {
      var field := Fields[k];
      ghost var before := params;
      params := WriteEntry(params, field, ValueOf(updatedFilters, field), filterOptions);
      assert Fields[..k + 1] == Fields[..k] + [field];
      forall p ensures Lookup(params, p) == if FieldOf(p) == field then Expected(updatedFilters, filterOptions, p) else Lookup(before, p) {
        WriteEntrySpec(before, updatedFilters, field, filterOptions, p);
      }
    }
    assert Fields[..|Fields|] == Fields;
  }

  // ---------------------------------------------------------------- state updates

  /** `{ ...prevFilters, ...newFilters }`. */
  function ApplyChange(prev: Filters, change: FilterChange): Filters {
    Filters(
      change.searchTerm.GetOr(prev.searchTerm),
      change.mainCategory.GetOr(prev.mainCategory),
      change.subCategory.GetOr(prev.subCategory),
      change.cefrLevel.GetOr(prev.cefrLevel),
      change.groupSize.GetOr(prev.groupSize),
      change.preparationRequired.GetOr(prev.preparationRequired),
      change.materialsResources.GetOr(prev.materialsResources),
      change.avoidSensitiveTopics.GetOr(prev.avoidSensitiveTopics),
      change.activityType.GetOr(prev.activityType),
      change.classroomCommunityBonding.GetOr(prev.classroomCommunityBonding),
      change.thematicallyAdaptable.GetOr(prev.thematicallyAdaptable))
  }

  /** An empty change keeps the state, and applying a change twice is applying it once. */
  lemma ApplyChangeLaws(prev: Filters, change: FilterChange)
    ensures ApplyChange(prev, NoChange) == prev
    ensures ApplyChange(ApplyChange(prev, change), change) == ApplyChange(prev, change)
  {
  }

  /** `clearFilters`: every field at its default, the CEFR range at the facet's bounds. */
  function ClearedFilters(opts: Option<FilterOptions>): Filters {
    Filters("", "", "", CefrRange(DefaultMin(opts), DefaultMax(opts)), [], "", [], false, [], false, false)
  }

  /** The cleared state is written as the empty query, which `clearFilters` also installs. */
  lemma ClearedEncodesEmpty(opts: Option<FilterOptions>, q: Query)
    ensures EncodesAs(ClearedFilters(opts), opts, q) <==> q == map[]
  {
    assert forall p :: Expected(ClearedFilters(opts), opts, p) == None by {
      forall p ensures Expected(ClearedFilters(opts), opts, p) == None {
        BlankEmpty();
      }
    }
    if EncodesAs(ClearedFilters(opts), opts, q) {
      assert forall p :: p !in q by {
        forall p ensures p !in q {
          assert Lookup(q, p) == None;
        }
      }
    }
  }

  lemma BlankEmpty()
    ensures IsBlank("")
  {
  }

  /** Loading a page with no query gives the cleared state of an empty catalogue. */
  lemma DecodeEmpty()
    ensures Decode(map[]) == ClearedFilters(None)
  {
  }

  // ---------------------------------------------------------------- round trip

  /** A list survives the comma encoding when its items are non-empty and comma-free. */
  predicate ListRoundTrips(xs: seq<string>) {
    forall i :: 0 <= i < |xs| ==> xs[i] != "" && ',' !in xs[i]
  }

  /** The states a reload reproduces from the URL written for them. */
  predicate RoundTrips(f: Filters, opts: Option<FilterOptions>) {
    && (f.searchTerm == "" || !IsBlank(f.searchTerm))
    && (f.mainCategory == "" || !IsBlank(f.mainCategory))
    && (f.subCategory == "" || !IsBlank(f.subCategory))
    && (f.preparationRequired == "" || !IsBlank(f.preparationRequired))
    && f.cefrLevel.min in CefrLevels && f.cefrLevel.max in CefrLevels
    && (f.cefrLevel.min == DefaultMin(opts) ==> f.cefrLevel.min == CefrLevels[0])
    && (f.cefrLevel.max == DefaultMax(opts) ==> f.cefrLevel.max == CefrLevels[|CefrLevels| - 1])
    && ListRoundTrips(f.groupSize) && ListRoundTrips(f.materialsResources) && ListRoundTrips(f.activityType)
  }

  lemma ListOfEntry(q: Query, p: Param, xs: seq<string>)
    requires Lookup(q, p) == ListEntry(xs) && ListRoundTrips(xs)
    ensures ListOf(q, p) == xs
  {
    if xs != [] {
      SplitJoin(xs, ',');
      NonEmptyItemsNoop(xs);
    }
  }

  lemma TextOfEntry(q: Query, p: Param, s: string)
    requires Lookup(q, p) == TextEntry(s) && (s == "" || !IsBlank(s))
    ensures TextOf(q, p) == s
  {
  }

  lemma FlagOfEntry(q: Query, p: Param, b: bool)
    requires Lookup(q, p) == FlagEntry(b)
    ensures FlagOf(q, p) == b
  {
  }

  lemma LevelOfEntry(q: Query, p: Param, v: string, facetBound: string, urlDefault: string)
    requires Lookup(q, p) == BoundEntry(v, facetBound)
    requires v in CefrLevels && (v == facetBound ==> v == urlDefault)
    ensures LevelOf(q, p, urlDefault) == v
  {
  }

  lemma DecodeBounds(f: Filters, opts: Option<FilterOptions>, q: Query)
    requires RoundTrips(f, opts) && EncodesAs(f, opts, q)
    ensures LevelOf(q, CefrMinParam, CefrLevels[0]) == f.cefrLevel.min
    ensures LevelOf(q, CefrMaxParam, CefrLevels[|CefrLevels| - 1]) == f.cefrLevel.max
  {
    assert Lookup(q, CefrMinParam) == Expected(f, opts, CefrMinParam);
    assert Lookup(q, CefrMaxParam) == Expected(f, opts, CefrMaxParam);
    LevelOfEntry(q, CefrMinParam, f.cefrLevel.min, DefaultMin(opts), CefrLevels[0]);
    LevelOfEntry(q, CefrMaxParam, f.cefrLevel.max, DefaultMax(opts), CefrLevels[|CefrLevels| - 1]);
  }

  lemma DecodeLists(f: Filters, opts: Option<FilterOptions>, q: Query)
    requires RoundTrips(f, opts) && EncodesAs(f, opts, q)
    ensures ListOf(q, GroupSizeParam) == f.groupSize
    ensures ListOf(q, MaterialsResourcesParam) == f.materialsResources
    ensures ListOf(q, ActivityTypeParam) == f.activityType
  {
    assert Lookup(q, GroupSizeParam) == Expected(f, opts, GroupSizeParam);
    assert Lookup(q, MaterialsResourcesParam) == Expected(f, opts, MaterialsResourcesParam);
    assert Lookup(q, ActivityTypeParam) == Expected(f, opts, ActivityTypeParam);
    ListOfEntry(q, GroupSizeParam, f.groupSize);
    ListOfEntry(q, MaterialsResourcesParam, f.materialsResources);
    ListOfEntry(q, ActivityTypeParam, f.activityType);
  }

  lemma DecodeTexts(f: Filters, opts: Option<FilterOptions>, q: Query)
    requires RoundTrips(f, opts) && EncodesAs(f, opts, q)
    ensures TextOf(q, SearchTermParam) == f.searchTerm
    ensures TextOf(q, MainCategoryParam) == f.mainCategory
    ensures TextOf(q, SubCategoryParam) == f.subCategory
    ensures TextOf(q, PreparationRequiredParam) == f.preparationRequired
  {
    assert Lookup(q, SearchTermParam) == Expected(f, opts, SearchTermParam);
    assert Lookup(q, MainCategoryParam) == Expected(f, opts, MainCategoryParam);
    assert Lookup(q, SubCategoryParam) == Expected(f, opts, SubCategoryParam);
    assert Lookup(q, PreparationRequiredParam) == Expected(f, opts, PreparationRequiredParam);
    TextOfEntry(q, SearchTermParam, f.searchTerm);
    TextOfEntry(q, MainCategoryParam, f.mainCategory);
    TextOfEntry(q, SubCategoryParam, f.subCategory);
    TextOfEntry(q, PreparationRequiredParam, f.preparationRequired);
  }

  lemma DecodeFlags(f: Filters, opts: Option<FilterOptions>, q: Query)
    requires EncodesAs(f, opts, q)
    ensures FlagOf(q, AvoidSensitiveTopicsParam) == f.avoidSensitiveTopics
    ensures FlagOf(q, ClassroomCommunityBondingParam) == f.classroomCommunityBonding
    ensures FlagOf(q, ThematicallyAdaptableParam) == f.thematicallyAdaptable
  {
    assert Lookup(q, AvoidSensitiveTopicsParam) == Expected(f, opts, AvoidSensitiveTopicsParam);
    assert Lookup(q, ClassroomCommunityBondingParam) == Expected(f, opts, ClassroomCommunityBondingParam);
    assert Lookup(q, ThematicallyAdaptableParam) == Expected(f, opts, ThematicallyAdaptableParam);
    FlagOfEntry(q, AvoidSensitiveTopicsParam, f.avoidSensitiveTopics);
    FlagOfEntry(q, ClassroomCommunityBondingParam, f.classroomCommunityBonding);
    FlagOfEntry(q, ThematicallyAdaptableParam, f.thematicallyAdaptable);
  }

  /** Reloading the page at the URL written for a state gives the state back. */
  lemma DecodeEncode(f: Filters, opts: Option<FilterOptions>, q: Query)
    requires RoundTrips(f, opts) && EncodesAs(f, opts, q)
    ensures Decode(q) == f
  {
    DecodeBounds(f, opts, q);
    DecodeLists(f, opts, q);
    DecodeTexts(f, opts, q);
    DecodeFlags(f, opts, q);
  }

  /**
   * When the catalogue's lowest level is not A1, a lower bound equal to it is
   * left out of the URL, and reading the URL back restores A1 instead.
   */
  lemma LowestFacetBoundLostOnReload(f: Filters, opts: FilterOptions, q: Query)
    requires opts.cefrLevel != [] && opts.cefrLevel[0] == "A2"
    requires f.cefrLevel.min == "A2" && EncodesAs(f, Some(opts), q)
    ensures Decode(q).cefrLevel.min == "A1"
  {
    assert Lookup(q, CefrMinParam) == Expected(f, Some(opts), CefrMinParam);
  }
}
