/**
 * The catalogue card of one activity: the colour of its main-category badge,
 * the text a tag badge shows (or that it shows none), the combined
 * "Skills | ..." label and which tag badges the details list draws.
 */
module ActivityCard {
  import opened Wrappers
  import opened TextUtil
  import opened SeqUtil
  import opened ActivityTypes

  // ---------------------------------------------------------------- colour

  /** `categoryColorPalette`. */
  const Palette: seq<string> := [
    "bg-brandPrimary-100 text-brandPrimary-800",
    "bg-brandAccent-100 text-brandAccent-800",
    "bg-brandPrimary-200 text-brandPrimary-900",
    "bg-brandAccent-200 text-brandAccent-900",
    "bg-brandNeutral-200 text-brandNeutral-800",
    "bg-brandPrimary-500 text-white",
    "bg-brandAccent-500 text-white"]

  /** The colour of a badge with no category. */
  const NoCategoryColor: string := "bg-brandNeutral-200 text-brandNeutral-700"

  const TwoTo32: int := 0x1_0000_0000
  const TwoTo31: int := 0x8000_0000

  /** ECMAScript `ToInt32`: the integer congruent to `x` modulo 2^32 in [-2^31, 2^31). */
  function ToInt32(x: int): (r: int)
    ensures -TwoTo31 <= r < TwoTo31
    ensures (x - r) % TwoTo32 == 0
  {
    var m := x % TwoTo32;
    if m >= TwoTo31 then m - TwoTo32 else m
  }

  /** `ToInt32` depends only on the residue modulo 2^32. */
  lemma ToInt32Congruent(x: int, y: int)
    requires (x - y) % TwoTo32 == 0
    ensures ToInt32(x) == ToInt32(y)
  {
    var k := (x - y) / TwoTo32;
    assert x == y + k * TwoTo32;
    ShiftMod(y, k);
  }

  lemma ShiftMod(y: int, k: int)
    ensures (y + k * TwoTo32) % TwoTo32 == y % TwoTo32
  {
  }

  /** The string hash as a fold: `h` becomes `ToInt32(31 * h + code)` for each code unit. */
  function HashOf(s: string): (h: int)
    ensures -TwoTo31 <= h < TwoTo31
  {
    if s == [] then 0 else ToInt32(31 * HashOf(s[..|s| - 1]) + s[|s| - 1] as int)
  }

  /** One step of the loop, `((hash << 5) - hash) + char` then `| 0`, is the fold's step. */
  lemma HashStep(hash: int, code: int)
    requires -TwoTo31 <= hash < TwoTo31
    ensures ToInt32(ToInt32(hash * 32) - hash + code) == ToInt32(31 * hash + code)
  {
    var shifted := ToInt32(hash * 32);
    assert (hash * 32 - shifted) % TwoTo32 == 0;
    assert (shifted - hash + code) - (31 * hash + code) == shifted - hash * 32;
    NegatedMultiple(hash * 32 - shifted);
    ToInt32Congruent(shifted - hash + code, 31 * hash + code);
  }

  lemma NegatedMultiple(d: int)
    requires d % TwoTo32 == 0
    ensures (-d) % TwoTo32 == 0
  {
    var k := d / TwoTo32;
    assert d == k * TwoTo32;
    assert -d == (-k) * TwoTo32;
  }

  /** The badge colour of a category name. */
  function CategoryColor(name: string): string {
    if name == "" then NoCategoryColor
    else
      var h := HashOf(name);
      Palette[(if h < 0 then -h else h) % |Palette|]
  }

  /** `getCategoryColor`, with its hashing loop. */
  method GetCategoryColor(categoryName: string) returns (color: string)
    ensures color == CategoryColor(categoryName)
    ensures categoryName == "" <==> color == NoCategoryColor
    ensures categoryName != "" ==> color in Palette
  {
    if categoryName == "" {
      return NoCategoryColor;
    }
    var hash := 0;
    for i := 0 to |categoryName|
      invariant hash == HashOf(categoryName[..i])
    {
      var code := categoryName[i] as int;
      assert categoryName[..i + 1][..i] == categoryName[..i];
      HashStep(hash, code);
      hash := ToInt32(ToInt32(hash * 32) - hash + code);
    }
    assert categoryName[..|categoryName|] == categoryName;
    var index := (if hash < 0 then -hash else hash) % |Palette|;
    color := Palette[index];
  }

  // ---------------------------------------------------------------- badges

  /** `TagBadge`: the text it shows, or `None` when it renders nothing (it is never given flashcards). */
  function BadgeText(value: TagValue): Option<string>
    requires !value.Cards?
  {
    match value
    case Undefined => None
    case Text(s) => if IsBlank(s) || Lower(s) == "none" then None else Some(s)
    case Flag(b) => Some(if b then "Yes" else "No")
    case TextList(items) =>
      var shown := Join(Keep(items, (item: string) => !IsBlank(item)), ", ");
      if shown == "" then None else Some(shown)
  }

  /** Joining non-empty items gives the empty string exactly when there are none. */
  lemma {:induction false} JoinEmpty(items: seq<string>, sep: string)
    requires forall i :: 0 <= i < |items| ==> items[i] != ""
    ensures Join(items, sep) == "" <==> items == []
  {
    if |items| > 1 {
      assert |Join(items, sep)| >= |items[0]|;
    }
  }

  /**
   * A badge is drawn for a flag always, for text unless it is blank or reads
   * "none", and for a list exactly when some item is not blank, showing the
   * non-blank items joined by ", ".
   */
  lemma BadgeTextSpec(value: TagValue)
    requires !value.Cards?
    ensures value.Undefined? ==> BadgeText(value) == None
    ensures value.Flag? ==> BadgeText(value) == Some(if value.flag then "Yes" else "No")
    ensures value.Text? ==> (BadgeText(value).None? <==> IsBlank(value.text) || Lower(value.text) == "none")
    ensures value.TextList? ==>
      var kept := Keep(value.items, (item: string) => !IsBlank(item));
      && (BadgeText(value).None? <==> forall i :: 0 <= i < |value.items| ==> IsBlank(value.items[i]))
      && (BadgeText(value).Some? ==> BadgeText(value).value == Join(kept, ", "))
  {
    if value.TextList? {
      var kept := Keep(value.items, (item: string) => !IsBlank(item));
      forall i | 0 <= i < |kept| ensures kept[i] != "" {
        assert kept[i] in kept;
      }
      JoinEmpty(kept, ", ");
      if kept == [] {
        forall i | 0 <= i < |value.items| ensures IsBlank(value.items[i]) {
          assert value.items[i] in value.items;
        }
      } else {
        assert kept[0] in value.items;
      }
    }
  }

  // ---------------------------------------------------------------- skills label

  /** The trimmed sub-categories that are neither empty nor "none". */
  function ShownSubCategories(subs: seq<string>): (r: seq<string>)
    ensures forall i :: 0 <= i < |r| ==> r[i] != "" && Lower(r[i]) != "none"
  {
    if subs == [] then []
    else
      var s := Trim(subs[0]);
      (if IsShownSub(s) then [s] else []) + ShownSubCategories(subs[1..])
  }

  /** The filter of the sub-category label: non-empty and not "none" in any case. */
  predicate IsShownSub(s: string) {
    s != "" && Lower(s) != "none"
  }

  /** `subs.map(s => String(s).trim())`. */
  function TrimAll(subs: seq<string>): (r: seq<string>)
    ensures |r| == |subs| && forall j :: 0 <= j < |subs| ==> r[j] == Trim(subs[j])
  {
    seq(|subs|, j requires 0 <= j < |subs| => Trim(subs[j]))
  }

  /**
   * The shown sub-categories are the trimmed items that pass the filter, in
   * their original order; each is already trimmed.
   */
  lemma {:induction false} ShownSubCategoriesSpec(subs: seq<string>)
    ensures ShownSubCategories(subs) == Keep(TrimAll(subs), IsShownSub)
    ensures forall i :: 0 <= i < |ShownSubCategories(subs)| ==>
      Trim(ShownSubCategories(subs)[i]) == ShownSubCategories(subs)[i]
    ensures forall x :: x in ShownSubCategories(subs) <==>
      exists j :: 0 <= j < |subs| && x == Trim(subs[j]) && IsShownSub(x)
  {
    var r := ShownSubCategories(subs);
    var all := TrimAll(subs);
    if subs != [] {
      ShownSubCategoriesSpec(subs[1..]);
      assert all[1..] == TrimAll(subs[1..]);
      assert all[0] == Trim(subs[0]);
    }
    assert r == Keep(all, IsShownSub);
    forall x
      ensures x in r <==> exists j :: 0 <= j < |subs| && x == Trim(subs[j]) && IsShownSub(x)
    {
      if x in r {
        var i :| 0 <= i < |all| && all[i] == x;
        assert x == Trim(subs[i]);
      }
      if exists j :: 0 <= j < |subs| && x == Trim(subs[j]) && IsShownSub(x) {
        var j :| 0 <= j < |subs| && x == Trim(subs[j]) && IsShownSub(x);
        assert all[j] == x;
      }
    }
    forall i | 0 <= i < |r|
      ensures Trim(r[i]) == r[i]
    {
      assert r[i] in r;
      var j :| 0 <= j < |subs| && r[i] == Trim(subs[j]) && IsShownSub(r[i]);
      TrimIdempotent(subs[j]);
    }
  }

  /** The main-category label: "Skills" is followed by its shown sub-categories. */
  function MainCategoryDisplay(tags: Tags): string {
    if tags.mainCategory == "Skills" && |tags.subCategory| > 0 && Join(ShownSubCategories(tags.subCategory), ", ") != "" then
      tags.mainCategory + " | " + Join(ShownSubCategories(tags.subCategory), ", ")
    else tags.mainCategory
  }

  /** Only "Skills" gets a combined label, and only when some sub-category is shown. */
  lemma MainCategoryDisplaySpec(tags: Tags)
    ensures tags.mainCategory != "Skills" ==> MainCategoryDisplay(tags) == tags.mainCategory
    ensures tags.mainCategory == "Skills" ==>
      MainCategoryDisplay(tags) ==
        (if ShownSubCategories(tags.subCategory) == [] then "Skills"
         else "Skills | " + Join(ShownSubCategories(tags.subCategory), ", "))
  {
    JoinEmpty(ShownSubCategories(tags.subCategory), ", ");
  }

  /** The main-category badge of the card header: none without a main category. */
  function MainBadge(tags: Tags): Option<string> {
    if tags.mainCategory == "" then None else BadgeText(Text(MainCategoryDisplay(tags)))
  }

  /** The header badge, when drawn, starts with the main category itself. */
  lemma MainBadgeSpec(tags: Tags)
    ensures tags.mainCategory == "" ==> MainBadge(tags) == None
    ensures MainBadge(tags).Some? ==> IsPrefix(tags.mainCategory, MainBadge(tags).value)
  {
    var d := MainCategoryDisplay(tags);
    assert IsPrefix(tags.mainCategory, d) by {
      if d != tags.mainCategory {
        assert d == tags.mainCategory + (" | " + Join(ShownSubCategories(tags.subCategory), ", "));
      }
    }
  }

  /** `tagDisplayOrder`. */
  const DetailKeys: seq<TagKey> := [
    SubCategory, CefrLevel, GroupSize, PreparationRequired, MaterialsResources, ActivityType,
    ClassroomCommunityBonding, SensitivityWarning, ThematicallyAdaptable]

  /** The badge filter of the details list. */
  predicate ShowsDetail(tags: Tags, k: TagKey) {
    k != MainCategory && k != Flashcards && !(tags.mainCategory == "Skills" && k == SubCategory)
  }

  /** The details list for `keys`: each shown key whose `TagBadge` renders, with its text, in order. */
  function DetailBadges(tags: Tags, keys: seq<TagKey>): seq<(TagKey, string)> {
    if keys == [] then []
    else
      var k := keys[0];
      var rest := DetailBadges(tags, keys[1..]);
      if !ShowsDetail(tags, k) then rest
      else
        match BadgeText(TagOf(tags, k))
        case None => rest
        case Some(text) => [(k, text)] + rest
  }

  /** A badge is listed exactly for a key of the order that passes the filter and whose `TagBadge` renders that text. */
  lemma {:induction false} DetailBadgesMembers(tags: Tags, keys: seq<TagKey>, k: TagKey, text: string)
    ensures (k, text) in DetailBadges(tags, keys) <==>
      k in keys && ShowsDetail(tags, k) && BadgeText(TagOf(tags, k)) == Some(text)
  {
    if keys != [] {
      DetailBadgesMembers(tags, keys[1..], k, text);
      assert k in keys <==> k == keys[0] || k in keys[1..];
    }
  }

  /** The card's details list never shows the main category or the flashcards, and hides the sub-category of "Skills". */
  lemma CardDetailsOmit(tags: Tags, text: string)
    ensures (MainCategory, text) !in DetailBadges(tags, DetailKeys)
    ensures (Flashcards, text) !in DetailBadges(tags, DetailKeys)
    ensures tags.mainCategory == "Skills" ==> (SubCategory, text) !in DetailBadges(tags, DetailKeys)
  {
    DetailBadgesMembers(tags, DetailKeys, MainCategory, text);
    DetailBadgesMembers(tags, DetailKeys, Flashcards, text);
    DetailBadgesMembers(tags, DetailKeys, SubCategory, text);
  }
}
