# ActivityHub catalogue engine — a Dafny model

ActivityHub is a single-page web catalogue of classroom activities. The page loads three lists of activity records: general activities, skills and FuelBox. It merges them into one catalogue and derives filter facets from their tags. The user narrows the list with a filter panel whose state is mirrored in the page's query string. A modal opens one activity, with a flashcard deck, a tag editor, an adaptation-prompt builder and links to the classroom tools; the countdown timer and the team score counter are two of those tools.

This project models that engine and its small state machines, and proves properties of the model:

| module (file) | models |
|---|---|
| `ActivityTypes` (activity_types.dfy) | the records, tags, filters and filter options of `src/types.ts`; the six CEFR levels |
| `RecordNormalizer` (record_normalizer.dfy) | `slugify`, de-duplication by title, slug ids with an occurrence counter, tags merged over defaults |
| `FacetExtraction` (facet_extraction.dfy) | `extractUniqueTagValues`, the main → sub-category index and the filter-options effect |
| `QueryCodec` (query_codec.dfy) | `initialFilters` (decode), `handleFilterChange` (encode), `clearFilters`, and the round trip between them |
| `FilterEngine` (filter_engine.dfy) | the filtering effect, criterion by criterion |
| `ActivityStore` (activity_store.dfy) | replace, delete and export by id; temporary descriptions; the page state they change |
| `CefrSlider` (cefr_slider.dfy) | the two-thumb CEFR range slider: clamping, keys, drag, label clicks |
| `FilterPanel` (filter_panel.dfy) | category clicks, checkbox forwarding, category display order |
| `CheckboxGroup` (checkbox_group.dfy) | the checkbox toggle |
| `ScoreCounter` (score_counter.dfy) | the team score board |
| `Timer` (timer.dfy) | the countdown timer |
| `ActivityModal` (activity_modal.dfy) | flashcard deck, tag editing, tool relevance, prompt assembly |
| `ActivityCard` (activity_card.dfy) | category colour hash, tag badges, the "Skills" label |
| `TextUtil`, `SeqUtil`, `Sorting`, `Wrappers` | string helpers, `filter`, insertion sort by a comparator, `Option` |

State that the components update in place is modelled as a class with `modifies` clauses: `ActivityStore.PageState`, `CefrSlider.RangeSlider`, `ScoreCounter.Scoreboard`, `Timer.Countdown` and `ActivityModal.ModalState`. Loops of the source are methods with loop invariants, each proved equal to a specification function; the properties are then lemmas about those functions.

Where the prose description of the system and the code disagree, the model follows the code:
- Generated ids are neither unique nor always non-empty. `RecordNormalizer.IdsMayCollide` and `RecordNormalizer.IdMayBeEmpty` show this.
- In the CEFR facet, values that are not canonical levels sort first (index −1), not last. See `FacetExtraction.UnknownCefrFirst`.
- The filter treats the range as inactive only when it is exactly A1..C2. The encoder, however, omits the bounds that equal the facet's first and last level. Two consequences follow:
  - A state whose minimum is a facet bound other than A1 does not survive a reload (`QueryCodec.LowestFacetBoundLostOnReload`).
  - "Clear filters" can still hide activities without a level (`FilterEngine.ClearedMayStillHide`).

Further behaviours of the code that the model keeps as written:
- `startTimer`'s guard never returns in a synchronised state, so starting is always allowed.
- A card eliminated twice is scored twice. `CompleteElimination` always adds one point, so the score can exceed the number of eliminated cards.
- Saving a blank team name writes "Team <id>", not the original name. The editor text is reset to the current name (`RevertedName`).
- The initial slider indices are not required to be in order (`CefrSlider.InitialMayBeInverted`).

## Model

| member | source | states |
|---|---|---|
| ActivityTypes.CefrIndex | App.js:15 | the position of a canonical level in A1..C2, and −1 exactly for any other string |
| ActivityTypes.CefrIndexOfLevel | App.js:15 | every canonical level is found at its own position |
| RecordNormalizer.HyphenateSpacesChars | App.js:21 | replacing whitespace runs by `-` leaves no whitespace and adds no upper-case letter |
| RecordNormalizer.HyphenateSpacesWord | App.js:21 | a leading word without whitespace is copied unchanged by the run replacement |
| RecordNormalizer.StripSpecialsNoop | App.js:22 | removing the special characters leaves a string without them unchanged |
| RecordNormalizer.CollapseHyphensShape | App.js:23 | collapsing `--+` keeps only slug characters and leaves no double hyphen |
| RecordNormalizer.CollapseHyphensNoop | App.js:23 | a string without double hyphens is left as it is |
| RecordNormalizer.Truncate | App.js:24 | the slug is a prefix of at most 75 characters, and shorter strings are kept whole |
| RecordNormalizer.TrimNoUpper | App.js:20 | trimming a lower-cased string adds no upper-case letter |
| RecordNormalizer.SlugifyShape | App.js:17-25 | a blank title gives the fallback; any other title gives a slug of lower-case slug characters, no whitespace, no double hyphen, at most 75 long |
| RecordNormalizer.StrippedSlugChars | App.js:19-22 | after lower-casing, trimming, hyphenating and stripping, only slug characters remain |
| RecordNormalizer.FinishedSlugShape | App.js:23-24 | collapsing and truncating slug characters gives a slug-shaped string |
| RecordNormalizer.SlugifyFixedPoint | App.js:17-25 | slugifying a non-empty slug returns it unchanged |
| RecordNormalizer.SlugStagesNoop | App.js:19-22 | the first four stages leave a string of slug characters unchanged |
| RecordNormalizer.HyphenateSpacesNoop | App.js:21 | a string without whitespace is not changed by the run replacement |
| RecordNormalizer.DeduplicateByTitle | App.js:251-261 | the loop with its `titlesSeen` set keeps exactly the untitled records and the first record of each title |
| RecordNormalizer.DeduplicateIsSubsequence | App.js:244-261 | de-duplication keeps the concatenation order of the sources |
| RecordNormalizer.SubsequenceSnoc | App.js:254-260 | appending the same record to both lists, and optionally to the kept one, preserves the subsequence relation |
| RecordNormalizer.DeduplicateTitlesDistinct | App.js:251-261 | after de-duplication no two records share a non-empty title |
| RecordNormalizer.DeduplicateMembers | App.js:251-261 | every surviving record is one of the input records |
| RecordNormalizer.DeduplicateKeepsEveryTitle | App.js:251-261 | every title of the input is the title of some surviving record |
| RecordNormalizer.DeduplicateKeepsUntitled | App.js:258-259 | records without a title are never dropped |
| RecordNormalizer.TitlesOfSnoc | App.js:254 | the titles of a list extended by one record end with that record's title |
| RecordNormalizer.TitlesOf | App.js:254 | the list of titles has one entry per record, in order |
| RecordNormalizer.MergeTagsFields | App.js:266-294 | merging over the defaults keeps every tag field the record sets and defaults every other one |
| RecordNormalizer.MergeTagsComplete | App.js:266-294 | a complete tag object is kept unchanged; a record without tags gets exactly the defaults |
| RecordNormalizer.BaseSlugs | App.js:282 | one base slug per record |
| RecordNormalizer.IdForFirstOccurrence | App.js:283-290 | the first record with a base slug keeps it; the k-th (k ≥ 2) gets `base-k` |
| RecordNormalizer.WithIds | App.js:281-306 | one output record per input record |
| RecordNormalizer.WithIdsAt | App.js:281-306 | the k-th output record is built from the k-th input record alone |
| RecordNormalizer.NormalizedAt | App.js:281-306 | record k keeps its title and description, takes the merged tags and its counter-based id |
| RecordNormalizer.CountsStep | App.js:283-290 | one step of the `slugCounts` dictionary yields the id `IdFor` gives, and counts one more occurrence |
| RecordNormalizer.AssignIds | App.js:263-306 | the one loop computes each record's base slug, `slugify(title, "activity-" + index)`, and its id from the counter dictionary: the result is exactly the normalised records (`Normalized`), whose ids `IdForFirstOccurrence` characterises |
| RecordNormalizer.NormalizeSources | App.js:244-306 | the load pass is the normalisation of the de-duplicated concatenation of the three sources |
| RecordNormalizer.IdsMayCollide | App.js:244-306 | "Quiz", "Quiz." and "Quiz 2" get ids `quiz`, `quiz-2`, `quiz-2`, also after the full load pass: ids are not unique |
| RecordNormalizer.QuizSurvivesLoad | App.js:251-261 | the three distinct titles all survive de-duplication |
| RecordNormalizer.BaseOfQuiz | App.js:282 | the base slug of "Quiz" is `quiz` |
| RecordNormalizer.BaseOfQuizDot | App.js:282 | the base slug of "Quiz." is `quiz` |
| RecordNormalizer.BaseOfQuizTwo | App.js:282 | the base slug of "Quiz 2" is `quiz-2` |
| RecordNormalizer.IdsOfQuiz | App.js:283-290 | base slugs `quiz`, `quiz`, `quiz-2` give ids `quiz`, `quiz-2`, `quiz-2` |
| RecordNormalizer.SlugifyStages | App.js:19-24 | `slugify` of a non-blank title is the composition of its five stages |
| RecordNormalizer.SlugOfQuiz | App.js:17-25 | "Quiz" slugifies to `quiz` |
| RecordNormalizer.SlugWordFacts | App.js:20-23 | trimming, hyphenating, stripping and collapsing leave a slug unchanged |
| RecordNormalizer.SlugOfQuizDot | App.js:17-25 | "Quiz." slugifies to `quiz` |
| RecordNormalizer.StripQuizDot | App.js:22 | stripping turns "quiz." into `quiz` and "..." into the empty string |
| RecordNormalizer.StripAppendDot | App.js:22 | a trailing full stop is removed |
| RecordNormalizer.StripDots | App.js:22 | "..." strips to the empty string |
| RecordNormalizer.SlugOfQuizTwo | App.js:17-25 | "Quiz 2" slugifies to `quiz-2` |
| RecordNormalizer.HyphenateQuizTwo | App.js:21 | "quiz 2" hyphenates to `quiz-2` |
| RecordNormalizer.IdMayBeEmpty | App.js:17-25 | "..." slugifies to the empty string, so an id can be empty |
| FacetExtraction.CleanedMembers | App.js:338-352 | a cleaned value comes from an item that is not blank and not "none" (checked untrimmed), trimmed; every such item yields one |
| FacetExtraction.TagValuesMembers | App.js:329-353 | a value is collected exactly when some activity offers it for the key |
| FacetExtraction.NoValuesForFlags | App.js:335-351 | boolean tags and `flashcards` contribute no facet value |
| FacetExtraction.DistinctSpec | App.js:328 | the Set holds exactly the added values, each once |
| FacetExtraction.PermutationNoDuplicates | App.js:358-363 | sorting a duplicate-free list keeps it duplicate-free |
| FacetExtraction.MultiplicityAtMostOne | App.js:358 | a duplicate-free list holds each value at most once |
| FacetExtraction.CefrLeqTotalPreorder | App.js:360 | the CEFR index comparator is a total preorder |
| FacetExtraction.FacetValuesSpec | App.js:327-365 | the facet values are exactly the offered values, without duplicates, sorted by the key's comparator |
| FacetExtraction.UnknownCefrFirst | App.js:360 | in the CEFR facet a non-canonical value never follows a canonical one |
| FacetExtraction.AddItems | App.js:337-352 | adding one tag value's admissible items to the Set, in order |
| FacetExtraction.CollectValues | App.js:328-354 | the `forEach` fills the Set with the distinct values of all activities |
| FacetExtraction.ExtractUniqueTagValues | App.js:327-365 | `extractUniqueTagValues` returns the specified facet values |
| FacetExtraction.SubCategoryOptionsSpec | App.js:372-392 | a sub-category is offered under a main category exactly when an activity filed under exactly that main category has it |
| FacetExtraction.IndexByEntries | App.js:370-393 | a map with the main categories as keys and the specified entries is the index |
| FacetExtraction.IndexStep | App.js:372-393 | one more main-category entry keeps the loop's invariant |
| FacetExtraction.BuildSubCategoryIndex | App.js:370-393 | the `forEach` builds the main → sub-category index |
| FacetExtraction.DeriveFilterOptions | App.js:367-408 | nothing happens for an empty catalogue; otherwise the derived options are stored |
| FacetExtraction.DerivedOptionsShape | App.js:395-406 | the CEFR options are never empty (all six levels as fallback), the bonding options are empty, and the index keys are the main categories |
| QueryCodec.Decode | App.js:182-205 | decoded CEFR bounds are canonical levels (A1 and C2 by default); decoded list items are never empty |
| QueryCodec.FieldOf | App.js:415 | every parameter is written for one field of the state |
| QueryCodec.WriteEntrySpec | App.js:415-453 | one loop step writes its field's parameters as the state says and leaves every other parameter alone |
| QueryCodec.SetOrDeleteLookup | App.js:415-453 | `set` stores the value and `delete` removes the key; other keys are untouched |
| QueryCodec.HandleFilterChange | App.js:410-457 | the new state is the merge of the change, and the query holds exactly its non-default fields |
| QueryCodec.ApplyChangeLaws | App.js:412 | an empty change keeps the state; applying a change twice is applying it once |
| QueryCodec.ClearedEncodesEmpty | App.js:459-474 | the cleared state is written as the empty query |
| QueryCodec.DecodeEmpty | App.js:182-205 | a page without a query decodes to the cleared state of an empty catalogue |
| QueryCodec.ListOfEntry | App.js:440-442 | a comma-joined list of non-empty, comma-free items decodes back to itself |
| QueryCodec.TextOfEntry | App.js:448-452 | a written text field decodes back to itself |
| QueryCodec.FlagOfEntry | App.js:443-447 | a flag decodes back to itself |
| QueryCodec.LevelOfEntry | App.js:425-439 | a CEFR bound decodes back when it is written, or when the facet's bound equals the URL default |
| QueryCodec.DecodeBounds | App.js:193-196 | both CEFR bounds survive a reload when the facet's bounds are A1 and C2 |
| QueryCodec.DecodeLists | App.js:197-201 | the three list fields survive a reload |
| QueryCodec.DecodeTexts | App.js:190-198 | the four text fields survive a reload |
| QueryCodec.DecodeFlags | App.js:200-203 | the three flags survive a reload |
| QueryCodec.DecodeEncode | App.js:410-457 | decoding the query written for a state gives the state back (non-empty comma-free items, no blank text, A1/C2 facet bounds) |
| QueryCodec.LowestFacetBoundLostOnReload | App.js:427-434 | with facet bounds starting at A2, a minimum of A2 is omitted from the query and reloads as A1 |
| FilterEngine.StageStep | App.js:481-565 | filtering the survivors by one more stage filters by the conjunction |
| FilterEngine.StageAs | App.js:487-565 | a skipped stage, or one filtering by an equivalent test, filters by its criterion |
| FilterEngine.ApplySearch | App.js:486-493 | the search step keeps the activities whose title or description contains the term, case-insensitively |
| FilterEngine.ApplyCefr | App.js:495-518 | the CEFR step keeps the activities with a level in the range, when the range applies |
| FilterEngine.ApplyExact | App.js:524-535 | one exact-match step keeps equal strings and lists containing the value |
| FilterEngine.ApplyMulti | App.js:538-547 | one every-option step keeps activities offering all selected options |
| FilterEngine.ApplyToggles | App.js:550-565 | the three switch steps keep activities with the required flag values |
| FilterEngine.ApplyExactKeys | App.js:523-536 | the loop over the three exact-match keys |
| FilterEngine.ApplyMultiKeys | App.js:537-548 | the loop over the three every-option keys |
| FilterEngine.FilterActivities | App.js:476-567 | the effect shows nothing while loading, everything before options exist, otherwise the matches |
| FilterEngine.FilteredSpec | App.js:476-567 | an activity is shown exactly when it matches every criterion; order is kept |
| FilterEngine.NoSelectionAllExact | App.js:525 | with no exact-match selection every activity passes those stages |
| FilterEngine.NoSelectionAllMulti | App.js:539 | with no option selected every activity passes those stages |
| FilterEngine.EmptyQueryKeepsAll | App.js:476-567 | with no query nothing is filtered out |
| FilterEngine.UnlevelledExcluded | App.js:505-516 | an applied CEFR range excludes every activity without a level |
| FilterEngine.AllExactUnfold | App.js:523-536 | the exact-match stages are the three criteria together |
| FilterEngine.AllMultiUnfold | App.js:537-548 | the every-option stages are the three criteria together |
| FilterEngine.MoreGroupSizesNarrow | App.js:537-548 | selecting one more group size can only narrow the result |
| FilterEngine.ClearedMayStillHide | App.js:459-474 | after clearing with facet bounds A2..B1, an activity without a level is hidden |
| ActivityStore.ReplaceById | App.js:629-632 | every activity with the id is replaced; the others and the length are kept |
| ActivityStore.DeleteByIdSpec | App.js:667-671 | deletion removes exactly the activities with the id and keeps the rest in order |
| ActivityStore.DeleteAfterReplace | App.js:629-671 | replacing then deleting the same id is deleting it |
| ActivityStore.ReplaceByIdIdempotent | App.js:629-632 | replacing again changes nothing |
| ActivityStore.Export | App.js:638-644 | one exported record per activity |
| ActivityStore.ExportReloads | App.js:638-644 | an exported record keeps title and description, and its tags merge back to the activity's tags |
| ActivityStore.TemporaryEditsSpec | App.js:755-768 | in edit mode the temporary descriptions are frozen; outside it save and reset touch only their own key |
| ActivityStore.ResetUndoesSave | App.js:755-768 | resetting a fresh save restores the map; a later save overrides an earlier one |
| ActivityStore.ReopenShowsSaved | App.js:750-754 | the modal reopens with a saved description outside edit mode, and with the original text after a reset or in edit mode |
| ActivityStore.PageState.constructor | App.js:101-130 | the page starts with the catalogue, no modal, no edits and no pending deletion |
| ActivityStore.PageState.ToggleEditMode | App.js:161-171 | edit mode flips; entering it discards the temporary descriptions |
| ActivityStore.PageState.SaveTemporaryEdit | App.js:755-759 | the temporary description is saved outside edit mode only |
| ActivityStore.PageState.ResetTemporaryEdit | App.js:760-768 | the temporary description is removed outside edit mode only |
| ActivityStore.PageState.SaveChangesInEditMode | App.js:629-636 | the catalogue gets the replacement, and so does the open modal if it shows that id |
| ActivityStore.PageState.OpenDeleteConfirmation | App.js:657-660 | the activity becomes pending and the dialog opens |
| ActivityStore.PageState.CloseDeleteConfirmation | App.js:662-665 | nothing is pending and the dialog closes |
| ActivityStore.PageState.ConfirmDelete | App.js:667-675 | the pending activity's id is deleted and the dialog closes; with none pending nothing changes |
| CefrSlider.InitialIndex | components/shared/CefrRangeSlider.tsx:21-24 | the canonical position of a known level, otherwise the default |
| CefrSlider.InitialMayBeInverted | components/shared/CefrRangeSlider.tsx:21-27 | the initial indices can be inverted (range C2..A1) |
| CefrSlider.Clamp | components/shared/CefrRangeSlider.tsx:40-41 | the result is a slider position; positions are kept, others go to the nearer end |
| CefrSlider.ValueChange | components/shared/CefrRangeSlider.tsx:39-51 | a commit happens exactly when the clamped indices are in order, and commits them |
| CefrSlider.KeyMoveOneStep | components/shared/CefrRangeSlider.tsx:122-166 | from a proper range any other key does nothing; an arrow moves one thumb by exactly one position and keeps the range proper |
| CefrSlider.MinThumbKeys | components/shared/CefrRangeSlider.tsx:127-136 | the minimum thumb's arrows move by one position and keep the range proper |
| CefrSlider.MaxThumbKeys | components/shared/CefrRangeSlider.tsx:137-147 | the maximum thumb's arrows move by one position and keep the range proper |
| CefrSlider.KeyMoveBlocked | components/shared/CefrRangeSlider.tsx:122-166 | a key does nothing exactly when it is not an arrow or would push past an end of the track |
| CefrSlider.ClickMoveSpec | components/shared/CefrRangeSlider.tsx:223-229 | a label below the range moves the minimum, above it the maximum; inside the range the strictly nearer minimum moves, and the maximum on a tie; a click always commits a proper range with one thumb on the level |
| CefrSlider.StaleDragIgnoresReturn | components/shared/CefrRangeSlider.tsx:79-101 | as written, a drag of the minimum thumb to 2 and back to 0 ends at 2 |
| CefrSlider.DragFollowsCursor | components/shared/CefrRangeSlider.tsx:79-101 | judged against the current indices, the minimum thumb ends at the last cursor position, capped by the maximum |
| CefrSlider.DragMoveOrdered | components/shared/CefrRangeSlider.tsx:79-101 | every drag move from a proper range keeps it proper |
| CefrSlider.RangeSlider.constructor | components/shared/CefrRangeSlider.tsx:26-27 | the slider mounts at the initial indices of the range |
| CefrSlider.RangeSlider.SyncToRange | components/shared/CefrRangeSlider.tsx:34-37 | a new range prop resets both indices |
| CefrSlider.RangeSlider.HandleValueChange | components/shared/CefrRangeSlider.tsx:39-51 | commits and emits the clamped range when ordered, otherwise changes and emits nothing |
| CefrSlider.RangeSlider.HandleKeyDown | components/shared/CefrRangeSlider.tsx:122-166 | the local indices are stepped and committed as the key rule says |
| CefrSlider.RangeSlider.HandleDragMove | components/shared/CefrRangeSlider.tsx:79-101 | one cursor move is judged and committed against the indices captured when the thumb was pressed, as written; given the current indices it is the corrected move |
| CefrSlider.RangeSlider.HandleLabelClick | components/shared/CefrRangeSlider.tsx:223-229 | a label click commits as the click rule says |
| FilterPanel.CheckboxChangeSpec | components/FilterPanel.tsx:38-46 | a flag is forwarded only for the three switch fields and a list only for list fields; a forwarded change sets exactly that field |
| FilterPanel.MainCategoryClickSpec | components/FilterPanel.tsx:52-59 | clicking the selected category without sub-category deselects it; otherwise it selects it; the sub-category is cleared; other filters are kept |
| FilterPanel.MainCategoryClickTwice | components/FilterPanel.tsx:52-59 | a second click on the same category undoes the first's selection |
| FilterPanel.SubCategoryClickSpec | components/FilterPanel.tsx:61-68 | a sub click selects the pair, or on the selected pair keeps only the main category |
| FilterPanel.CategoryHighlights | components/FilterPanel.tsx:75-76 | the two highlights exclude each other; after a sub click only that category is sub-active |
| FilterPanel.OrderIndex | components/FilterPanel.tsx:21 | the position in `CATEGORY_ORDER`, −1 exactly for other names |
| FilterPanel.OrderLeqTotalPreorder | components/FilterPanel.tsx:134 | the `CATEGORY_ORDER` comparator is a total preorder |
| FilterPanel.SeparatedCategories | components/FilterPanel.tsx:139-140 | the separator block is empty exactly when neither FuelBox nor Skills is an option |
| FilterPanel.DisplayCategoriesSorted | components/FilterPanel.tsx:133-137 | the ordered part follows `CATEGORY_ORDER`, the rest the locale order |
| FilterPanel.DisplayCategoriesParts | components/FilterPanel.tsx:133-136 | the ordered part holds only `CATEGORY_ORDER` names, the rest none, neither FuelBox or Skills |
| FilterPanel.DisplayCategoriesPermutation | components/FilterPanel.tsx:133-142 | the listed categories are a permutation of the options other than FuelBox and Skills |
| FilterPanel.DisplayCategoriesMembers | components/FilterPanel.tsx:133-142 | a category is listed above the separator exactly when it is an option other than FuelBox and Skills |
| FilterPanel.SeparatedCategoriesMembers | components/FilterPanel.tsx:139-140 | the separator block holds exactly the FuelBox and Skills options |
| FilterPanel.EveryCategoryShown | components/FilterPanel.tsx:133-142 | every option gets a button, above or below the separator, and nothing else does |
| CheckboxGroup.Toggle | components/shared/CheckboxGroup.tsx:19-24 | a selected option is removed entirely; an unselected one is appended at the end |
| CheckboxGroup.ToggleMembership | components/shared/CheckboxGroup.tsx:19-24 | a toggle flips the option's membership and no other option's |
| CheckboxGroup.ToggleRemovesInOrder | components/shared/CheckboxGroup.tsx:21 | removal keeps the other items in order and drops exactly the option's occurrences |
| CheckboxGroup.KeepCount | components/shared/CheckboxGroup.tsx:21 | filtering out a value removes exactly its occurrences |
| CheckboxGroup.ToggleTwice | components/shared/CheckboxGroup.tsx:19-24 | toggling an unselected option twice restores the selection |
| CheckboxGroup.ToggleSelectedTwice | components/shared/CheckboxGroup.tsx:19-24 | toggling a selected option twice moves it, once, to the end |
| ScoreCounter.Incremented | components/shared/ScoreCounter.tsx:26-32 | only the target team gains a point; ids, names and other teams are unchanged |
| ScoreCounter.Decremented | components/shared/ScoreCounter.tsx:34-40 | the target team loses a point, never going below zero; nothing else changes |
| ScoreCounter.ScoresReset | components/shared/ScoreCounter.tsx:42-44 | every score becomes zero; ids, names and order are kept |
| ScoreCounter.Renamed | components/shared/ScoreCounter.tsx:69-73 | only the target team's name changes |
| ScoreCounter.MaxId | components/shared/ScoreCounter.tsx:48 | the largest id of the board |
| ScoreCounter.NextId | components/shared/ScoreCounter.tsx:48 | the next id exceeds every id on the board |
| ScoreCounter.SavedNameSpec | components/shared/ScoreCounter.tsx:62-75 | a saved name is never blank: the trimmed edit text, or "Team <id>" for a blank edit |
| ScoreCounter.DecrementUndoesIncrement | components/shared/ScoreCounter.tsx:26-40 | taking a point back after giving one restores the board |
| ScoreCounter.AddedKeepsInvariants | components/shared/ScoreCounter.tsx:46-51 | adding a team keeps the ids distinct and the scores non-negative |
| ScoreCounter.ScoringKeepsInvariants | components/shared/ScoreCounter.tsx:26-44 | the scoring steps keep the ids distinct and the scores non-negative |
| ScoreCounter.IncrementedKeepsInvariants | components/shared/ScoreCounter.tsx:26-32 | incrementing keeps the board's invariants |
| ScoreCounter.DecrementedKeepsInvariants | components/shared/ScoreCounter.tsx:34-40 | decrementing keeps the board's invariants |
| ScoreCounter.ResetKeepsInvariants | components/shared/ScoreCounter.tsx:42-44 | resetting keeps the ids distinct and makes every score zero |
| ScoreCounter.RenamedKeepsInvariants | components/shared/ScoreCounter.tsx:69-73 | renaming keeps ids and scores |
| ScoreCounter.FirstWithId | components/shared/ScoreCounter.tsx:65 | `find` returns the first team with the id |
| ScoreCounter.Scoreboard.constructor | components/shared/ScoreCounter.tsx:11-16 | two teams with ids 1 and 2 and no points; no editor open |
| ScoreCounter.Scoreboard.Increment | components/shared/ScoreCounter.tsx:26-32 | the board is incremented for the team; the editor is unchanged |
| ScoreCounter.Scoreboard.Decrement | components/shared/ScoreCounter.tsx:34-40 | the board is decremented for the team; the editor is unchanged |
| ScoreCounter.Scoreboard.ResetScores | components/shared/ScoreCounter.tsx:42-44 | every score is reset; the editor is unchanged |
| ScoreCounter.Scoreboard.AddTeam | components/shared/ScoreCounter.tsx:46-51 | a team with the next id, the default name and no points is appended |
| ScoreCounter.Scoreboard.TeamNameClick | components/shared/ScoreCounter.tsx:53-56 | the editor opens on the team's name |
| ScoreCounter.Scoreboard.TeamNameChange | components/shared/ScoreCounter.tsx:58-60 | the editor text follows the input |
| ScoreCounter.Scoreboard.TeamNameSave | components/shared/ScoreCounter.tsx:62-75 | the team gets the saved name and the editor closes; a blank edit puts back the current name in the editor |
| ScoreCounter.Scoreboard.TeamNameKeyDown | components/shared/ScoreCounter.tsx:77-83 | Enter saves as `TeamNameSave` does, editor text included; Escape closes the editor without renaming; other keys change nothing |
| Timer.ShownPairSpec | components/shared/Timer.tsx:45-48 | minutes·60 + seconds is the duration, with seconds below 60 |
| Timer.NextSecond | components/shared/Timer.tsx:33-40 | a tick takes one second off, and the last tick leaves zero |
| Timer.TicksCountDown | components/shared/Timer.tsx:32-41 | after n ticks the duration is max(0, d − n) |
| Timer.RestartDuration | components/shared/Timer.tsx:56-58 | a restart from 00:00 loads the configured minutes, or five when none |
| Timer.MinutesInput | components/shared/Timer.tsx:73-82 | minutes 0..999 replace the minutes and keep the seconds; a blank field leaves only the seconds; other input changes nothing |
| Timer.SecondsInput | components/shared/Timer.tsx:84-93 | seconds 0..59 replace the seconds and keep the minutes; a blank field leaves only the minutes; other input changes nothing |
| Timer.InputsCompose | components/shared/Timer.tsx:73-93 | typing minutes and seconds, in either order, sets exactly that time |
| Timer.FormatTime | components/shared/Timer.tsx:95-97 | the rendering consists of digits |
| Timer.FormatTimeSpec | components/shared/Timer.tsx:95-97 | the rendering reads back as the value and has at least two digits; exactly two below 100 |
| Timer.Countdown.SyncDisplay | components/shared/Timer.tsx:45-48 | the shown pair is re-derived from the duration |
| Timer.Countdown.constructor | components/shared/Timer.tsx:9-24 | the timer starts stopped at the configured minutes |
| Timer.Countdown.Tick | components/shared/Timer.tsx:33-40 | one second passes; the last one stops the timer |
| Timer.Countdown.StartPause | components/shared/Timer.tsx:50-65 | pausing keeps the time; starting from 00:00 first reloads the restart duration |
| Timer.Countdown.Reset | components/shared/Timer.tsx:67-71 | stopped at the configured minutes |
| Timer.Countdown.MinutesInputChange | components/shared/Timer.tsx:73-82 | only a stopped timer takes the minutes input |
| Timer.Countdown.SecondsInputChange | components/shared/Timer.tsx:84-93 | only a stopped timer takes the seconds input |
| ActivityModal.ToolRelevance | components/ActivityModal.js:156-163 | dice and score are flagged exactly for "Games & Quizzes"; the timer also for the five timed types; nothing for a non-list value |
| ActivityModal.Requests | components/ActivityModal.js:186-188 | one request line per chosen option |
| ActivityModal.AppendLine | components/ActivityModal.js:186-190 | appending one more line to the text built so far |
| ActivityModal.BuildPrompt | components/ActivityModal.js:184-190 | the prompt built with `+=` is the specified prompt |
| ActivityModal.ConcatOccurs | components/ActivityModal.js:186-188 | the request lines occur in order, each where the previous ones end |
| ActivityModal.PromptNoneSpec | components/ActivityModal.js:186-189 | no prompt exactly when no option is chosen, a blank theme or vocation counting as not chosen |
| ActivityModal.PromptSpec | components/ActivityModal.js:184-190 | the prompt starts with the header, then the request lines in order, and ends with the description block |
| ActivityModal.PromptLayout | components/ActivityModal.js:184-190 | the positions of header, lines and tail in the assembled text |
| ActivityModal.AcceptsSpec | components/ActivityModal.js:232-243 | a flag or text is accepted exactly for fields of that type; a list for list fields and `flashcards`; a field's own kind of value always |
| ActivityModal.WithTagSpec | components/ActivityModal.js:240 | a stored value reads back at its field, every other field is unchanged, and a field's own kind of value always fits |
| ActivityModal.AcceptedButNotStored | components/ActivityModal.js:232-243 | an edit the shape check accepts fails to fit the typed record exactly when it is a list of strings for `flashcards` or a flashcard array for a list tag |
| ActivityModal.Flip | components/ActivityModal.js:397-399 | the index's membership flips, no other index's |
| ActivityModal.FlipTwice | components/ActivityModal.js:397-399 | two flips restore the set |
| ActivityModal.CardIndices | components/ActivityModal.js:617 | the indices of a deck of n cards are 0..n−1 |
| ActivityModal.CardIndicesSize | components/ActivityModal.js:617 | a deck of n cards has n indices |
| ActivityModal.AllStudiedSpec | components/ActivityModal.js:629 | "All cards studied" shows exactly when the deck is non-empty and every card is eliminated |
| ActivityModal.ModalState.AllCardsStudiedMeans | components/ActivityModal.js:629 | when only deck cards are eliminated, "All cards studied" shows exactly when the deck is non-empty and every card is eliminated |
| ActivityModal.ModalState.constructor | components/ActivityModal.js:126-154 | a fresh deck with nothing eliminated, a copy of the record to edit in edit mode, empty inputs |
| ActivityModal.ModalState.ToggleFlashcardFlip | components/ActivityModal.js:397-399 | the flipped set is flipped at the index; nothing else changes |
| ActivityModal.ModalState.EliminateFlashcard | components/ActivityModal.js:401-402 | the card starts its exit animation |
| ActivityModal.ModalState.CompleteElimination | components/ActivityModal.js:403-406 | the card is eliminated, unflipped and scored; the marker clears; eliminating a card of the deck keeps only deck cards eliminated |
| ActivityModal.ModalState.ResetFlashcards | components/ActivityModal.js:410-412 | both sets empty, score zero, marker cleared |
| ActivityModal.ModalState.EditModeInputChange | components/ActivityModal.js:232-243 | the edit is stored exactly when it passes the shape check |
| ActivityModal.ModalState.NewTagInputChange | components/ActivityModal.js:80-87 | the typed text is stored for that tag |
| ActivityModal.ModalState.AddNewTagValue | components/ActivityModal.js:250-262 | a blank input changes nothing; otherwise the trimmed value is appended to that tag if absent, the input is cleared, and the id, title, description and every other tag of the edited record are unchanged |
| ActivityCard.ToInt32 | components/ActivityCard.js:32 | the bitwise or with zero: the 32-bit signed integer congruent to the value modulo 2^32 |
| ActivityCard.ToInt32Congruent | components/ActivityCard.js:32 | `ToInt32` depends only on the value modulo 2^32 |
| ActivityCard.HashOf | components/ActivityCard.js:28-33 | the hash of a name is a 32-bit signed integer |
| ActivityCard.HashStep | components/ActivityCard.js:31-32 | shifting left by five, subtracting the hash, adding the code and truncating to 32 bits equals `ToInt32(31·hash + code)` |
| ActivityCard.GetCategoryColor | components/ActivityCard.js:24-36 | the loop computes the specified colour: the neutral default exactly for an empty name, otherwise a palette entry |
| ActivityCard.BadgeTextSpec | components/ActivityCard.js:39-55 | no badge for an absent value, blank text, text reading "none", or a list of blank items; flags show Yes/No; lists show their non-blank items joined by ", " |
| ActivityCard.ShownSubCategories | components/ActivityCard.js:119-123 | no shown sub-category is empty or reads "none" |
| ActivityCard.ShownSubCategoriesSpec | components/ActivityCard.js:119-123 | the shown sub-categories are the trimmed items that are non-empty and not "none", in their order; each is trimmed; a value is shown exactly when some item trims to it and passes the filter |
| ActivityCard.MainCategoryDisplaySpec | components/ActivityCard.js:113-131 | other main categories are shown as they are; "Skills" is followed by a separator and its shown sub-categories joined by ", ", or stays alone when none is shown |
| ActivityCard.MainBadgeSpec | components/ActivityCard.js:159 | no header badge without a main category; the badge starts with the main category |
| ActivityCard.DetailBadgesMembers | components/ActivityCard.js:192-205 | a detail badge is listed exactly for a key of the order that passes the filter and whose badge renders that text |
| ActivityCard.CardDetailsOmit | components/ActivityCard.js:195-197 | the details never show the main category or the flashcards, and hide the sub-category of "Skills" |
| TextUtil.LowerChar | App.js:20 | lower-casing one character |
| TextUtil.Lower | App.js:20 | lower-casing keeps the length and lower-cases each character |
| TextUtil.TrimStartShape | App.js:20 | the leading whitespace is removed, and only that |
| TextUtil.TrimEndShape | App.js:20 | the trailing whitespace is removed, and only that |
| TextUtil.TrimShape | App.js:20 | the trimmed string has no whitespace at either end and occurs in the original after the leading whitespace |
| TextUtil.BlankIffAllSpace | App.js:18 | a string is blank exactly when all its characters are whitespace |
| TextUtil.SplitJoin | App.js:197 | splitting a comma-joined list of comma-free items gives the items back |
| TextUtil.NonEmptyItems | App.js:198 | `.filter(Boolean)` keeps exactly the non-empty items |
| TextUtil.DecimalValueOfNatToString | components/shared/Timer.tsx:96 | the decimal rendering of a number reads back as the number |
| SeqUtil.Keep | App.js:489 | `filter` keeps exactly the elements satisfying the test |
| SeqUtil.KeepIsSubsequence | App.js:489 | `filter` keeps the order |
| SeqUtil.KeepKeep | App.js:481-565 | two filters in a row are one filter by the conjunction |
| Sorting.InsertSorted | App.js:358-363 | inserting into a sorted list keeps it sorted, as a permutation |
| Sorting.SortBySorted | App.js:358-363 | sorting gives a sorted permutation of the input |

## Left out

- Fetching the three JSON sources, JSON parsing and the error messages (App.js:209-242, 310-322) are I/O. The model starts from three already-parsed record lists, with a missing title modelled as "".
- The query string's percent-encoding and the `URLSearchParams` and router objects belong to the WHATWG URL Standard's `application/x-www-form-urlencoded` serialisation, done by the library. The query is a finite map from parameter to string.
- `localeCompare` collation depends on the host and locale. It is a comparator parameter `localeLeq`. Lemmas assume it is a total preorder and prove "sorted by it" and "a permutation of the distinct values".
- Unicode `toLowerCase`, `trim` and `\s` are approximated by ASCII letters and the six ASCII whitespace characters.
- `charCodeAt` is modelled as the character's code, which equals the UTF-16 code unit for characters of the Basic Multilingual Plane only.
- `RecordNormalizer.Truncate` counts Unicode scalars, where `substring(0, 75)` counts UTF-16 code units. The two agree on characters of the Basic Multilingual Plane. A character above U+FFFF survives `StripSpecials`, so on such titles the 75-character bound of `RecordNormalizer.SlugifyShape` and `RecordNormalizer.FinishedSlugShape` is in scalars, and the source may cut a surrogate pair in half where the model keeps whole characters.
- In `extractUniqueTagValues`, boolean items inside a list tag turn into "Yes"/"No". No modelled list can hold a boolean, so that branch is not represented.
- The duck-typed string-or-list branches (App.js:380-390, 528-533) and the `activity.tags` existence checks follow the canonical field types of `src/types.ts`. Only the branches those types allow are modelled.
- `slugCounts` (App.js:283-290) and `editedDescriptions` (App.js:753) are plain objects, so a key such as `constructor` hits an inherited property. The model uses maps without inherited keys. `RecordNormalizer.IdFor` therefore does not model the inherited counter of a base slug `constructor`. `ActivityStore.InitialDescription` (and with it `ActivityStore.ReopenShowsSaved`) returns the activity's own description for an unsaved id `constructor`, where the source's lookup yields the inherited `Object` function. A title such as "Constructor" or "Constructor." gives that id.
- `setTimeout` and `setInterval` scheduling (components/shared/Timer.tsx:32, components/ActivityModal.js:403, App.js:140-151) are modelled as explicit step methods: `Timer.Countdown.Tick` and `ActivityModal.ModalState.CompleteElimination`.
- The cursor-to-position mapping, `Math.round` and the percent layout of the slider (components/shared/CefrRangeSlider.tsx:61-77, 169-170) are floating point. Drags are modelled from an integer proposed index.
- The `requestAnimationFrame` text-fit loop of the modal (components/ActivityModal.js:273-359) only affects layout.
- Clipboard writes, iframes, the Blob download, `document.title` and the body-overflow side effects are DOM effects. For the download and the clipboard, only the data (`ActivityStore.Export`, `ActivityModal.BuildPrompt`) is modelled.
- The "Please select at least one adaptation option." message and its timeout are UI; a missing prompt is `None`.
- `parseInt` of the timer's number fields is the parameter `NumberInput` (blank, a number, not a number).
- `Timer.Countdown.constructor` takes `initialMinutes` as a natural number; a negative configuration is not modelled.
- `FilterPanel.CheckboxChange`: a list sent for a field that is not a list of strings is dropped, because `Partial<Filters>` cannot hold it in the model. In the source it would be forwarded.
- `ActivityModal.ModalState.CompleteElimination`: like the source, it eliminates any index it is given. `DeckValid` (only cards of the shown deck are eliminated) is kept only for indices of the deck, which are the only ones the card list passes (components/ActivityModal.js:617). `AllCardsStudiedMeans` relies on it.
- `ActivityModal.WithTag`: a value of the wrong type for its field cannot be stored, because `Tags` is typed. The shape check `Accepts` lets two such edits through, a list of strings for `flashcards` and a flashcard array for a list tag (`ActivityModal.AcceptedButNotStored`); the model drops them where the source would store them. Neither comes from the modal's editor: `flashcards` has no editor (components/ActivityModal.js:428-433), and list tags are edited through `CheckboxGroup`, which sends lists of strings (components/ActivityModal.js:473).
- `ActivityModal.Prompt` takes its fixed texts as the parameter `Wording`; `ActivityModal.SourceWording` holds the source's texts.
- The presentation-only or random files are not part of this model: ActivityEmbedView, DiceRoller, SpinnyWheel, GlobalToolsPanel, ConfirmationDialog, Dropdown, NoResultsFound, LoadingSpinner, DisclaimerPage and the tailwind configuration.
- The modal's title-change, description-change and thematic-description handlers are field assignments without logic.
- `ActivityCard.BadgeText` is never given flashcards; their case is excluded by its precondition, as in the source's types.

## Findings

| source | as written | input that shows it | evidently intended | confidence | as-written member | corrected member |
|---|---|---|---|---|---|---|
| components/shared/CefrRangeSlider.tsx:79-101 | the `onMouseMove` closure compares each move with the indices captured when the thumb was pressed | press the minimum thumb on range (0, 5), move the cursor to index 2, then back to 0: the second move equals the captured minimum and is ignored, so the thumb stays at 2 | each move is judged against the current indices, so the thumb follows the cursor back to 0 | not executed | CefrSlider.StaleDragIgnoresReturn | CefrSlider.DragFollowsCursor |
