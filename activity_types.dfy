/**
 * The catalogue's records and filter state (the interfaces of `src/types.ts`),
 * with each field at its canonical type.
 */
module ActivityTypes {
  import opened Wrappers

  /** `CEFR_LEVELS_ORDERED`: the six proficiency levels in canonical order. */
  const CefrLevels: seq<string> := ["A1", "A2", "B1", "B2", "C1", "C2"]

  /** `CEFR_LEVELS_ORDERED.indexOf(level)`: the canonical position, or -1. */
  function CefrIndex(level: string): (i: int)
    ensures -1 <= i < |CefrLevels|
    ensures i == -1 <==> level !in CefrLevels
    ensures i >= 0 ==> CefrLevels[i] == level
  {
    if level == "A1" then 0
    else if level == "A2" then 1
    else if level == "B1" then 2
    else if level == "B2" then 3
    else if level == "C1" then 4
    else if level == "C2" then 5
    else -1
  }

  /** Every canonical level is found at its own position. */
  lemma CefrIndexOfLevel(i: int)
    requires 0 <= i < |CefrLevels|
    ensures CefrIndex(CefrLevels[i]) == i
  {
  }

  datatype Flashcard = Flashcard(term: string, definition: string)

  /** `ActivityTags`: `flashcards` and `teacher_instruction` may be absent. */
  datatype Tags = Tags(
    mainCategory: string,
    subCategory: seq<string>,
    cefrLevel: seq<string>,
    groupSize: seq<string>,
    preparationRequired: string,
    materialsResources: seq<string>,
    sensitivityWarning: bool,
    activityType: seq<string>,
    classroomCommunityBonding: bool,
    thematicallyAdaptable: bool,
    flashcards: Option<seq<Flashcard>>,
    teacherInstruction: Option<string>)

  /** `defaultActivityTags`: empty strings, empty lists, false and absent. */
  const DefaultTags: Tags :=
    Tags("", [], [], [], "", [], false, [], false, false, None, None)

  /** The tag object of a raw source record: any field may be missing. */
  datatype PartialTags = PartialTags(
    mainCategory: Option<string>,
    subCategory: Option<seq<string>>,
    cefrLevel: Option<seq<string>>,
    groupSize: Option<seq<string>>,
    preparationRequired: Option<string>,
    materialsResources: Option<seq<string>>,
    sensitivityWarning: Option<bool>,
    activityType: Option<seq<string>>,
    classroomCommunityBonding: Option<bool>,
    thematicallyAdaptable: Option<bool>,
    flashcards: Option<seq<Flashcard>>,
    teacherInstruction: Option<string>)

  /** An already-parsed record of one of the three JSON sources; a missing title is "". */
  datatype RawRecord = RawRecord(title: string, fullDescription: string, tags: Option<PartialTags>)

  /** A normalised record: generated id and fully populated tags. */
  datatype Activity = Activity(id: string, title: string, fullDescription: string, tags: Tags)

  /** The keys of `ActivityTags`. */
  datatype TagKey =
    | MainCategory | SubCategory | CefrLevel | GroupSize | PreparationRequired
    | MaterialsResources | SensitivityWarning | ActivityType | ClassroomCommunityBonding
    | ThematicallyAdaptable | Flashcards | TeacherInstruction

  /** A dynamically typed tag value, as `tags[key]` yields it. */
  datatype TagValue =
    | Text(text: string)
    | TextList(items: seq<string>)
    | Flag(flag: bool)
    | Cards(cards: seq<Flashcard>)
    | Undefined

  /** `tags[key]`. */
  function TagOf(t: Tags, key: TagKey): TagValue {
    match key
    case MainCategory => Text(t.mainCategory)
    case SubCategory => TextList(t.subCategory)
    case CefrLevel => TextList(t.cefrLevel)
    case GroupSize => TextList(t.groupSize)
    case PreparationRequired => Text(t.preparationRequired)
    case MaterialsResources => TextList(t.materialsResources)
    case SensitivityWarning => Flag(t.sensitivityWarning)
    case ActivityType => TextList(t.activityType)
    case ClassroomCommunityBonding => Flag(t.classroomCommunityBonding)
    case ThematicallyAdaptable => Flag(t.thematicallyAdaptable)
    case Flashcards => if t.flashcards.Some? then Cards(t.flashcards.value) else Undefined
    case TeacherInstruction => if t.teacherInstruction.Some? then Text(t.teacherInstruction.value) else Undefined
  }

  /** `CefrRangeFilter`. */
  datatype CefrRange = CefrRange(min: string, max: string)

  /** `Filters`: the current user selection. */
  datatype Filters = Filters(
    searchTerm: string,
    mainCategory: string,
    subCategory: string,
    cefrLevel: CefrRange,
    groupSize: seq<string>,
    preparationRequired: string,
    materialsResources: seq<string>,
    avoidSensitiveTopics: bool,
    activityType: seq<string>,
    classroomCommunityBonding: bool,
    thematicallyAdaptable: bool)

  /** `Partial<Filters>`: the fields a filter change sets. */
  datatype FilterChange = FilterChange(
    searchTerm: Option<string>,
    mainCategory: Option<string>,
    subCategory: Option<string>,
    cefrLevel: Option<CefrRange>,
    groupSize: Option<seq<string>>,
    preparationRequired: Option<string>,
    materialsResources: Option<seq<string>>,
    avoidSensitiveTopics: Option<bool>,
    activityType: Option<seq<string>>,
    classroomCommunityBonding: Option<bool>,
    thematicallyAdaptable: Option<bool>)

  const NoChange: FilterChange :=
    FilterChange(None, None, None, None, None, None, None, None, None, None, None)

  /** `FilterOptions`: the facet values derived from the data. */
  datatype FilterOptions = FilterOptions(
    mainCategory: seq<string>,
    subCategoryOptions: map<string, seq<string>>,
    cefrLevel: seq<string>,
    groupSize: seq<string>,
    preparationRequired: seq<string>,
    materialsResources: seq<string>,
    activityType: seq<string>,
    classroomCommunityBonding: seq<string>)
}
