/**
 * The activity detail dialog: the flashcard deck game, the edit-mode tag
 * editor's type check and "add value" input, which classroom tools are
 * flagged as relevant, and the adaptation prompt.
 */
module ActivityModal {
  import opened Wrappers
  import opened TextUtil
  import opened ActivityTypes

  // ---------------------------------------------------------------- tools

  /** The activity types for which the timer is flagged. */
  const TimedTypes: seq<string> :=
    ["Presentation & Speaking", "Discussion & Debate", "Writing", "Role-play & Acting", "Problem Solving"]

  /** Some listed type is one of the timed types. */
  predicate HasTimedType(items: seq<string>) {
    exists i :: 0 <= i < |items| && items[i] in TimedTypes
  }

  /**
   * The tool flags set when the dialog opens: a quiz flags dice, timer and
   * score; a speaking or writing type flags only the timer; a value that is
   * not a list flags nothing.
   */
  method ToolRelevance(activityTypes: TagValue) returns (diceRelevant: bool, timerRelevant: bool, scoreRelevant: bool)
    ensures diceRelevant == scoreRelevant
    ensures diceRelevant <==> activityTypes.TextList? && "Games & Quizzes" in activityTypes.items
    ensures timerRelevant <==> activityTypes.TextList? && ("Games & Quizzes" in activityTypes.items || HasTimedType(activityTypes.items))
  {
    diceRelevant := false;
    timerRelevant := false;
    scoreRelevant := false;
    if activityTypes.TextList? {
      var types := activityTypes.items;
      if "Games & Quizzes" in types {
        diceRelevant := true;
        scoreRelevant := true;
        timerRelevant := true;
      }
      var k := 0;
      var some := false;
      while k < |types|
        invariant 0 <= k <= |types|
        invariant some <==> exists i :: 0 <= i < k && types[i] in TimedTypes
      {
        if types[k] in TimedTypes {
          some := true;
        }
        k := k + 1;
      }
      if some {
        timerRelevant := true;
      }
    }
  }

  // ---------------------------------------------------------------- prompt

  /** The fixed texts the prompt is assembled from. */
  datatype Wording = Wording(header: string, themeIntro: string, vocationIntro: string, simplifyLine: string, descriptionIntro: string)

  /** The texts of `handleGenerateAndCopyPromptAndRedirect`. */
  const SourceWording: Wording := Wording(
    "Please modify the description of this classroom activity. I want the following changes:",
    "\n\n- Change the text so that it is relevant for the following theme: ",
    "\n\n- Change the text so that it is relevant for the following vocation: ",
    "\n\n- Make the language significantly more simple.",
    "\n\nActivity Description:\n")

  /** The chosen adaptation options; a theme or vocation counts only with non-blank text. */
  datatype Adaptation = Adaptation(
    adaptToTheme: bool, themeInput: string,
    adaptForVocation: bool, vocationInput: string,
    simplifyLanguage: bool)

  predicate ThemeChosen(a: Adaptation) { a.adaptToTheme && !IsBlank(a.themeInput) }
  predicate VocationChosen(a: Adaptation) { a.adaptForVocation && !IsBlank(a.vocationInput) }

  /** The request lines, in the fixed order theme, vocation, simplify; a typed theme or vocation enters trimmed. */
  function Requests(w: Wording, a: Adaptation): (lines: seq<string>)
    ensures |lines| == (if ThemeChosen(a) then 1 else 0) + (if VocationChosen(a) then 1 else 0) + (if a.simplifyLanguage then 1 else 0)
  {
    (if ThemeChosen(a) then [w.themeIntro + Trim(a.themeInput)] else [])
    + (if VocationChosen(a) then [w.vocationIntro + Trim(a.vocationInput)] else [])
    + (if a.simplifyLanguage then [w.simplifyLine] else [])
  }

  /** The lines written one after the other. */
  function Concat(lines: seq<string>): string {
    if lines == [] then "" else Concat(lines[..|lines| - 1]) + lines[|lines| - 1]
  }

  /** With at least one option chosen, the prompt is the header, the request lines and the description. */
  function Prompt(w: Wording, a: Adaptation, description: string): Option<string> {
    if |Requests(w, a)| > 0 then Some(w.header + Concat(Requests(w, a)) + (w.descriptionIntro + description))
    else None
  }

  /** Appending one more line to a text built from `head` and `lines`. */
  lemma AppendLine(head: string, lines: seq<string>, line: string)
    ensures head + Concat(lines + [line]) == head + Concat(lines) + line
  {
    assert (lines + [line])[..|lines|] == lines;
  }

  /** The prompt appended to step by step, as `handleGenerateAndCopyPromptAndRedirect` builds it from `SourceWording`. */
  method BuildPrompt(w: Wording, a: Adaptation, description: string) returns (prompt: Option<string>)
    ensures prompt == Prompt(w, a, description)
  {
    var text := w.header;
    var changesRequested := false;
    ghost var lines: seq<string> := [];
    assert text == w.header + Concat(lines);
    if a.adaptToTheme && Trim(a.themeInput) != "" {
      AppendLine(w.header, lines, w.themeIntro + Trim(a.themeInput));
      text := text + (w.themeIntro + Trim(a.themeInput));
      lines := lines + [w.themeIntro + Trim(a.themeInput)];
      changesRequested := true;
    }
    if a.adaptForVocation && Trim(a.vocationInput) != "" {
      AppendLine(w.header, lines, w.vocationIntro + Trim(a.vocationInput));
      text := text + (w.vocationIntro + Trim(a.vocationInput));
      lines := lines + [w.vocationIntro + Trim(a.vocationInput)];
      changesRequested := true;
    }
    if a.simplifyLanguage {
      AppendLine(w.header, lines, w.simplifyLine);
      text := text + w.simplifyLine;
      lines := lines + [w.simplifyLine];
      changesRequested := true;
    }
    assert lines == Requests(w, a);
    assert changesRequested <==> |lines| > 0;
    if !changesRequested {
      return None;
    }
    assert text == w.header + Concat(Requests(w, a));
    text := text + (w.descriptionIntro + description);
    prompt := Some(text);
  }

  /** The lines occur in order: each one where the previous ones end. */
  lemma {:induction false} ConcatOccurs(lines: seq<string>, i: int)
    requires 0 <= i < |lines|
    ensures OccursAt(Concat(lines), lines[i], |Concat(lines[..i])|)
  {
    var n := |lines| - 1;
    var init := lines[..n];
    if i < n {
      ConcatOccurs(init, i);
      assert init[..i] == lines[..i];
      assert Concat(lines) == Concat(init) + lines[n];
      var k := |Concat(lines[..i])|;
      assert Concat(lines)[k..k + |lines[i]|] == Concat(init)[k..k + |lines[i]|];
    } else {
      assert lines[..i] == init;
    }
  }

  /** No prompt exactly when no option is chosen (a blank theme or vocation counts as not chosen). */
  lemma PromptNoneSpec(w: Wording, a: Adaptation, description: string)
    ensures Prompt(w, a, description).None? <==> !ThemeChosen(a) && !VocationChosen(a) && !a.simplifyLanguage
  {
  }

  /**
   * A prompt opens with the header, carries each chosen request line right
   * after the header and the lines before it, and closes with the description.
   */
  lemma PromptSpec(w: Wording, a: Adaptation, description: string, i: int)
    requires Prompt(w, a, description).Some?
    ensures var p := Prompt(w, a, description).value;
      && OccursAt(p, w.header, 0)
      && OccursAt(p, w.descriptionIntro + description, |p| - |w.descriptionIntro + description|)
      && (0 <= i < |Requests(w, a)| ==> OccursAt(p, Requests(w, a)[i], |w.header| + |Concat(Requests(w, a)[..i])|))
  {
    var lines := Requests(w, a);
    PromptLayout(w.header, lines, w.descriptionIntro + description, i);
  }

  /** A slice of the middle part of `a + b + c`. */
  lemma SliceOfMiddle(a: string, b: string, c: string, k: int, n: int)
    requires 0 <= k && 0 <= n && k + n <= |b|
    ensures (a + b + c)[|a| + k..|a| + k + n] == b[k..k + n]
  {
    var p := a + b + c;
    var mid := p[|a|..|a| + |b|];
    assert mid == b;
    assert mid[k..k + n] == p[|a| + k..|a| + k + n];
  }

  /** The layout of `head`, the lines and `tail` written one after the other. */
  lemma PromptLayout(head: string, lines: seq<string>, tail: string, i: int)
    ensures var p := head + Concat(lines) + tail;
      && OccursAt(p, head, 0)
      && OccursAt(p, tail, |p| - |tail|)
      && (0 <= i < |lines| ==> OccursAt(p, lines[i], |head| + |Concat(lines[..i])|))
  {
    var body := Concat(lines);
    var p := head + body + tail;
    assert p[..|head|] == head;
    assert p[|p| - |tail|..] == tail;
    if 0 <= i < |lines| {
      ConcatOccurs(lines, i);
      var k := |Concat(lines[..i])|;
      SliceOfMiddle(head, body, tail, k, |lines[i]|);
    }
  }

  // ---------------------------------------------------------------- tag editor

  /** `Array.isArray(v)`. */
  predicate IsArray(v: TagValue) {
    v.TextList? || v.Cards?
  }

  /** `typeof v`. */
  function TypeOf(v: TagValue): string {
    match v
    case Text(_) => "string"
    case TextList(_) => "object"
    case Flag(_) => "boolean"
    case Cards(_) => "object"
    case Undefined => "undefined"
  }

  /** The shape check of `handleEditModeInputChange`, against the tag's value in the shown activity. */
  predicate Accepts(field: TagKey, original: TagValue, value: TagValue) {
    (field == Flashcards && IsArray(value))
    || (IsArray(original) && IsArray(value))
    || TypeOf(original) == TypeOf(value)
    || (field == TeacherInstruction && (value.Text? || value.Undefined?))
  }

  predicate IsTextKey(k: TagKey) { k == MainCategory || k == PreparationRequired || k == TeacherInstruction }
  predicate IsListKey(k: TagKey) { k == SubCategory || k == CefrLevel || k == GroupSize || k == MaterialsResources || k == ActivityType }
  predicate IsFlagKey(k: TagKey) { k == SensitivityWarning || k == ClassroomCommunityBonding || k == ThematicallyAdaptable }

  /**
   * Against a record's own tag values: a value of the field's own type is
   * always accepted, a flag only for the flag tags, text only for the text
   * tags, a list of strings only for the list tags and `flashcards`.
   */
  lemma AcceptsSpec(shown: Tags, other: Tags, field: TagKey, value: TagValue)
    ensures Accepts(field, TagOf(shown, field), TagOf(other, field)) || field == Flashcards || field == TeacherInstruction
    ensures value.Flag? ==> (Accepts(field, TagOf(shown, field), value) <==> IsFlagKey(field))
    ensures value.Text? ==> (Accepts(field, TagOf(shown, field), value) <==> IsTextKey(field))
    ensures value.TextList? ==> (Accepts(field, TagOf(shown, field), value) <==> IsListKey(field) || field == Flashcards)
  {
  }

  /** `{ ...tags, [field]: value }`, when the value fits the field's type. */
  function WithTag(t: Tags, field: TagKey, value: TagValue): Option<Tags> {
    match (field, value)
    case (MainCategory, Text(s)) => Some(t.(mainCategory := s))
    case (SubCategory, TextList(xs)) => Some(t.(subCategory := xs))
    case (CefrLevel, TextList(xs)) => Some(t.(cefrLevel := xs))
    case (GroupSize, TextList(xs)) => Some(t.(groupSize := xs))
    case (PreparationRequired, Text(s)) => Some(t.(preparationRequired := s))
    case (MaterialsResources, TextList(xs)) => Some(t.(materialsResources := xs))
    case (SensitivityWarning, Flag(b)) => Some(t.(sensitivityWarning := b))
    case (ActivityType, TextList(xs)) => Some(t.(activityType := xs))
    case (ClassroomCommunityBonding, Flag(b)) => Some(t.(classroomCommunityBonding := b))
    case (ThematicallyAdaptable, Flag(b)) => Some(t.(thematicallyAdaptable := b))
    case (Flashcards, Cards(c)) => Some(t.(flashcards := Some(c)))
    case (Flashcards, Undefined) => Some(t.(flashcards := None))
    case (TeacherInstruction, Text(s)) => Some(t.(teacherInstruction := Some(s)))
    case (TeacherInstruction, Undefined) => Some(t.(teacherInstruction := None))
    case _ => None
  }

  /** A stored value reads back at its field and nowhere else; a field's own value always fits. */
  lemma WithTagSpec(t: Tags, other: Tags, field: TagKey, value: TagValue, key: TagKey)
    ensures WithTag(t, field, TagOf(other, field)).Some?
    ensures WithTag(t, field, value).Some? ==>
      TagOf(WithTag(t, field, value).value, key) == (if key == field then value else TagOf(t, key))
  {
  }

  /**
   * The only edits the shape check accepts that a typed record cannot hold:
   * a list of strings for `flashcards`, and a flashcard array for a list tag.
   */
  lemma AcceptedButNotStored(shown: Tags, t: Tags, field: TagKey, value: TagValue)
    requires Accepts(field, TagOf(shown, field), value)
    ensures WithTag(t, field, value).None? <==>
      (field == Flashcards && value.TextList?) || (IsListKey(field) && value.Cards?)
  {
  }

  /** The string-list tags the "add value" input serves. */
  predicate IsStringArrayKey(k: TagKey) {
    IsListKey(k)
  }

  // ---------------------------------------------------------------- flashcards

  /** Flipping a card toggles its index. */
  function Flip(s: set<int>, index: int): (r: set<int>)
    ensures index in r <==> index !in s
    ensures forall j :: j != index ==> (j in r <==> j in s)
  {
    if index in s then s - {index} else s + {index}
  }

  lemma FlipTwice(s: set<int>, index: int)
    ensures Flip(Flip(s, index), index) == s
  {
  }

  /** The card indices of a deck of `n` cards. */
  function CardIndices(n: nat): (r: set<int>)
    ensures forall i :: i in r <==> 0 <= i < n
  {
    if n == 0 then {} else CardIndices(n - 1) + {n - 1}
  }

  lemma {:induction false} CardIndicesSize(n: nat)
    ensures |CardIndices(n)| == n
  {
    if n > 0 {
      CardIndicesSize(n - 1);
    }
  }

  /** A subset as large as its superset is all of it. */
  lemma FullSubset(a: set<int>, b: set<int>)
    requires a <= b && |a| == |b|
    ensures a == b
  {
    assert a * b == a;
    assert a + b == b;
    assert |b - a| == 0;
  }

  /** "All cards studied" shows exactly when the deck is non-empty and every card has been eliminated. */
  lemma AllStudiedSpec(total: nat, eliminated: set<int>)
    requires eliminated <= CardIndices(total)
    ensures (total - |eliminated| == 0 && total > 0) <==> (total > 0 && forall i :: 0 <= i < total ==> i in eliminated)
  {
    CardIndicesSize(total);
    if total - |eliminated| == 0 {
      FullSubset(eliminated, CardIndices(total));
    }
    if forall i :: 0 <= i < total ==> i in eliminated {
      assert eliminated == CardIndices(total);
    }
  }

  // ---------------------------------------------------------------- the dialog

  class ModalState {
    var activity: Activity
    var flippedCardIndices: set<int>
    var eliminatedCardIndices: set<int>
    var flashcardScore: int
    var eliminatingCardIndex: Option<int>
    var editableActivityData: Option<Activity>
    var newTagInputs: map<TagKey, string>

    /** Every tag key has an "add value" input, as the initial record sets up. */
    ghost predicate Valid()
      reads this
    {
      forall k: TagKey :: k in newTagInputs
    }

    /** `totalFlashcards`. */
    function TotalFlashcards(): nat
      reads this
    {
      if activity.tags.flashcards.Some? then |activity.tags.flashcards.value| else 0
    }

    /** Only cards of the shown deck are eliminated, the precondition of `AllStudiedSpec`. */
    ghost predicate DeckValid()
      reads this
    {
      eliminatedCardIndices <= CardIndices(TotalFlashcards())
    }

    /** On a valid deck the "All cards studied!" note shows exactly when every card is eliminated. */
    lemma AllCardsStudiedMeans()
      requires DeckValid()
      ensures AllCardsStudied() <==>
        TotalFlashcards() > 0 && forall i :: 0 <= i < TotalFlashcards() ==> i in eliminatedCardIndices
    {
      AllStudiedSpec(TotalFlashcards(), eliminatedCardIndices);
    }

    /** A card is not drawn once eliminated, except during its exit animation. */
    predicate IsHidden(index: int)
      reads this
    {
      index in eliminatedCardIndices && eliminatingCardIndex != Some(index)
    }

    /** The "All cards studied!" note. */
    predicate AllCardsStudied()
      reads this
    {
      TotalFlashcards() - |eliminatedCardIndices| == 0 && TotalFlashcards() > 0
    }

    /** Opened on `shown`: a fresh deck, a copy of the record to edit, empty inputs. */
    constructor (shown: Activity, isEditModeActive: bool)
      ensures activity == shown && flippedCardIndices == {} && eliminatedCardIndices == {}
      ensures flashcardScore == 0 && eliminatingCardIndex == None
      ensures editableActivityData == (if isEditModeActive then Some(shown) else None)
      ensures Valid() && DeckValid() && forall k :: k in newTagInputs && newTagInputs[k] == ""
    {
      activity := shown;
      flippedCardIndices := {};
      eliminatedCardIndices := {};
      flashcardScore := 0;
      eliminatingCardIndex := None;
      editableActivityData := if isEditModeActive then Some(shown) else None;
      var inputs := map[
        MainCategory := "", SubCategory := "", CefrLevel := "", GroupSize := "",
        PreparationRequired := "", MaterialsResources := "", SensitivityWarning := "",
        ActivityType := "", ClassroomCommunityBonding := "", ThematicallyAdaptable := "",
        TeacherInstruction := "", Flashcards := ""];
      forall k: TagKey ensures k in inputs && inputs[k] == "" {
        match k
        case MainCategory => case SubCategory => case CefrLevel => case GroupSize =>
        case PreparationRequired => case MaterialsResources => case SensitivityWarning =>
        case ActivityType => case ClassroomCommunityBonding => case ThematicallyAdaptable =>
        case TeacherInstruction => case Flashcards =>
      }
      newTagInputs := inputs;
    }

    /** `toggleFlashcardFlip`. */
    method ToggleFlashcardFlip(index: int)
      modifies this
      ensures flippedCardIndices == Flip(old(flippedCardIndices), index)
      ensures eliminatedCardIndices == old(eliminatedCardIndices) && flashcardScore == old(flashcardScore)
      ensures eliminatingCardIndex == old(eliminatingCardIndex) && newTagInputs == old(newTagInputs)
      ensures activity == old(activity) && editableActivityData == old(editableActivityData)
    {
      flippedCardIndices := Flip(flippedCardIndices, index);
    }

    /** "Got it!": the card starts its exit animation. */
    method EliminateFlashcard(originalIndex: int)
      modifies this
      ensures eliminatingCardIndex == Some(originalIndex)
      ensures flippedCardIndices == old(flippedCardIndices) && eliminatedCardIndices == old(eliminatedCardIndices)
      ensures flashcardScore == old(flashcardScore) && newTagInputs == old(newTagInputs)
      ensures activity == old(activity) && editableActivityData == old(editableActivityData)
    {
      eliminatingCardIndex := Some(originalIndex);
    }

    /** The end of the exit animation: the card is eliminated, unflipped and scored. */
    method CompleteElimination(originalIndex: int)
      modifies this
      ensures eliminatedCardIndices == old(eliminatedCardIndices) + {originalIndex}
      ensures flippedCardIndices == old(flippedCardIndices) - {originalIndex}
      ensures flashcardScore == old(flashcardScore) + 1 && eliminatingCardIndex == None
      ensures newTagInputs == old(newTagInputs)
      ensures activity == old(activity) && editableActivityData == old(editableActivityData)
      ensures old(DeckValid()) && 0 <= originalIndex < old(TotalFlashcards()) ==> DeckValid()
    {
      eliminatedCardIndices := eliminatedCardIndices + {originalIndex};
      flashcardScore := flashcardScore + 1;
      flippedCardIndices := flippedCardIndices - {originalIndex};
      eliminatingCardIndex := None;
    }

    /** "Reset Deck". */
    method ResetFlashcards()
      modifies this
      ensures flippedCardIndices == {} && eliminatedCardIndices == {} && flashcardScore == 0 && eliminatingCardIndex == None
      ensures DeckValid() && newTagInputs == old(newTagInputs)
      ensures activity == old(activity) && editableActivityData == old(editableActivityData)
    {
      flippedCardIndices := {};
      eliminatedCardIndices := {};
      flashcardScore := 0;
      eliminatingCardIndex := None;
    }

    /** `handleEditModeInputChange`: the edit is stored only if it passes the shape check. */
    method EditModeInputChange(field: TagKey, value: TagValue)
      modifies this
      ensures editableActivityData ==
        (if old(editableActivityData).Some? && Accepts(field, TagOf(activity.tags, field), value)
            && WithTag(old(editableActivityData).value.tags, field, value).Some?
         then Some(old(editableActivityData).value.(tags := WithTag(old(editableActivityData).value.tags, field, value).value))
         else old(editableActivityData))
      ensures activity == old(activity) && newTagInputs == old(newTagInputs)
      ensures flippedCardIndices == old(flippedCardIndices) && eliminatedCardIndices == old(eliminatedCardIndices)
      ensures flashcardScore == old(flashcardScore) && eliminatingCardIndex == old(eliminatingCardIndex)
    {
      if editableActivityData.Some? {
        var isValid := Accepts(field, TagOf(activity.tags, field), value);
        if isValid {
          var stored := WithTag(editableActivityData.value.tags, field, value);
          if stored.Some? {
            editableActivityData := Some(editableActivityData.value.(tags := stored.value));
          }
        }
      }
    }

    /** The text typed into a tag's "add value" input. */
    method NewTagInputChange(tagKey: TagKey, text: string)
      requires Valid()
      modifies this
      ensures newTagInputs == old(newTagInputs)[tagKey := text] && Valid()
      ensures activity == old(activity) && editableActivityData == old(editableActivityData)
      ensures flippedCardIndices == old(flippedCardIndices) && eliminatedCardIndices == old(eliminatedCardIndices)
      ensures flashcardScore == old(flashcardScore) && eliminatingCardIndex == old(eliminatingCardIndex)
    {
      newTagInputs := newTagInputs[tagKey := text];
    }

    /**
     * `handleAddNewTagValue`: a blank input changes nothing; otherwise the
     * trimmed value is appended unless already listed, and the input is cleared.
     */
    method AddNewTagValue(tagKey: TagKey)
      requires Valid() && IsStringArrayKey(tagKey)
      modifies this
      ensures Valid() && activity == old(activity)
      ensures old(editableActivityData).None? || IsBlank(old(newTagInputs)[tagKey]) ==>
        editableActivityData == old(editableActivityData) && newTagInputs == old(newTagInputs)
      ensures old(editableActivityData).Some? && !IsBlank(old(newTagInputs)[tagKey]) ==>
        && newTagInputs == old(newTagInputs)[tagKey := ""]
        && editableActivityData.Some?
        && (var before := TagOf(old(editableActivityData).value.tags, tagKey).items;
            var v := Trim(old(newTagInputs)[tagKey]);
            TagOf(editableActivityData.value.tags, tagKey) == TextList(if v in before then before else before + [v]))
        && editableActivityData.value.(tags := old(editableActivityData).value.tags) == old(editableActivityData).value
        && forall k :: k != tagKey ==> TagOf(editableActivityData.value.tags, k) == TagOf(old(editableActivityData).value.tags, k)
      ensures flippedCardIndices == old(flippedCardIndices) && eliminatedCardIndices == old(eliminatedCardIndices)
      ensures flashcardScore == old(flashcardScore) && eliminatingCardIndex == old(eliminatingCardIndex)
    {
      if editableActivityData.None? {
        return;
      }
      var currentInputString := newTagInputs[tagKey];
      if Trim(currentInputString) == "" {
        return;
      }
      var newValue := Trim(currentInputString);
      var currentTagArray := TagOf(editableActivityData.value.tags, tagKey).items;
      if newValue !in currentTagArray {
        var updatedTagArray := currentTagArray + [newValue];
        ghost var before := editableActivityData.value.tags;
        EditModeInputChange(tagKey, TextList(updatedTagArray));
        forall k | k != tagKey
          ensures TagOf(editableActivityData.value.tags, k) == TagOf(before, k)
        {
          WithTagSpec(before, before, tagKey, TextList(updatedTagArray), k);
        }
      }
      newTagInputs := newTagInputs[tagKey := ""];
    }
  }
}
