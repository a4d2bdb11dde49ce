/**
 * The load pass of the catalogue: the three parsed sources are concatenated,
 * records whose non-empty title was already seen are dropped, every survivor
 * gets a slug id (with a per-slug occurrence counter) and its tags are merged
 * over the defaults.
 */
module RecordNormalizer {
  import opened Wrappers
  import opened TextUtil
  import opened SeqUtil
  import opened ActivityTypes

  // ---------------------------------------------------------------- slugify

  /** The characters `slugify` removes: `&/\#,+()$~%.'":*?<>{}`. */
  const SlugSpecials: set<char> :=
    {'&', '/', '\\', '#', ',', '+', '(', ')', '$', '~', '%', '.', '\'', '\"', ':', '*', '?', '<', '>', '{', '}'}

  /** The longest slug `slugify` produces. */
  const MaxSlugLength: nat := 75

  /** No two consecutive hyphens. */
  predicate NoDoubleHyphen(r: string) {
    forall i :: 0 <= i < |r| - 1 ==> !(r[i] == '-' && r[i + 1] == '-')
  }

  predicate NoUpper(s: string) {
    forall i :: 0 <= i < |s| ==> !('A' <= s[i] <= 'Z')
  }

  /** A character that may appear in a slug derived from a title. */
  predicate SlugChar(c: char) {
    !IsSpace(c) && c !in SlugSpecials && !('A' <= c <= 'Z')
  }

  predicate AllSlugChars(s: string) {
    forall i :: 0 <= i < |s| ==> SlugChar(s[i])
  }

  /** The shape of every slug derived from a non-blank title. */
  predicate IsSlugShaped(r: string) {
    |r| <= MaxSlugLength && AllSlugChars(r) && NoDoubleHyphen(r)
  }

  /**
   * `replace(/\s+/g, '-')`: every maximal run of whitespace becomes one hyphen;
   * `inRun` says that the character before `s` was whitespace.
   */
  function HyphenateSpaces(s: string, inRun: bool): string {
    if s == [] then []
    else if IsSpace(s[0]) then (if inRun then [] else ['-']) + HyphenateSpaces(s[1..], true)
    else [s[0]] + HyphenateSpaces(s[1..], false)
  }

  /** Hyphenation leaves no whitespace, and adds no upper-case letter. */
  lemma {:induction false} HyphenateSpacesChars(s: string, inRun: bool)
    requires NoUpper(s)
    ensures var r := HyphenateSpaces(s, inRun);
      NoUpper(r) && forall i :: 0 <= i < |r| ==> !IsSpace(r[i])
  {
    if s != [] {
      HyphenateSpacesChars(s[1..], IsSpace(s[0]));
    }
  }

  /** Hyphenation goes word by word: a leading word without whitespace is copied. */
  lemma {:induction false} HyphenateSpacesWord(w: string, rest: string, inRun: bool)
    requires forall i :: 0 <= i < |w| ==> !IsSpace(w[i])
    ensures HyphenateSpaces(w + rest, inRun) == w + HyphenateSpaces(rest, inRun && w == [])
  {
    if w != [] {
      var s := w + rest;
      assert s[0] == w[0] && !IsSpace(s[0]);
      assert s[1..] == w[1..] + rest;
      HyphenateSpacesWord(w[1..], rest, false);
      assert HyphenateSpaces(s, inRun) == [w[0]] + (w[1..] + HyphenateSpaces(rest, false));
      assert [w[0]] + (w[1..] + HyphenateSpaces(rest, false)) == w + HyphenateSpaces(rest, false);
    } else {
      assert w + rest == rest;
    }
  }

  predicate NotSpecial(c: char) {
    c !in SlugSpecials
  }

  /** `replace(/[&/\\#,+()$~%.'":*?<>{}]/g, '')`. */
  function StripSpecials(s: string): string {
    Keep(s, NotSpecial)
  }

  lemma StripSpecialsNoop(s: string)
    requires forall i :: 0 <= i < |s| ==> NotSpecial(s[i])
    ensures StripSpecials(s) == s
  {
    KeepAll(s, NotSpecial);
    assert Keep(s, NotSpecial) == s;
  }

  /**
   * `replace(/--+/g, '-')`: every run of hyphens becomes one; `inRun` says that
   * the character before `s` was a hyphen.
   */
  function CollapseHyphens(s: string, inRun: bool): string {
    if s == [] then []
    else if s[0] == '-' then (if inRun then [] else ['-']) + CollapseHyphens(s[1..], true)
    else [s[0]] + CollapseHyphens(s[1..], false)
  }

  /** Collapsing keeps slug characters and leaves no double hyphen. */
  lemma {:induction false} CollapseHyphensShape(s: string, inRun: bool)
    requires AllSlugChars(s)
    ensures var r := CollapseHyphens(s, inRun);
      && AllSlugChars(r) && NoDoubleHyphen(r)
      && (inRun ==> r == [] || r[0] != '-')
  {
    if s != [] {
      CollapseHyphensShape(s[1..], s[0] == '-');
    }
  }

  /** A string without double hyphens that does not continue a run is left as it is. */
  lemma {:induction false} CollapseHyphensNoop(s: string, inRun: bool)
    requires NoDoubleHyphen(s) && !(inRun && s != [] && s[0] == '-')
    ensures CollapseHyphens(s, inRun) == s
  {
    if s != [] {
      CollapseHyphensNoop(s[1..], s[0] == '-');
    }
  }

  /** `substring(0, 75)`. */
  function Truncate(s: string): (r: string)
    ensures |r| <= MaxSlugLength && |r| <= |s| && r == s[..|r|]
    ensures |s| <= MaxSlugLength ==> r == s
  {
    if |s| <= MaxSlugLength then s else s[..MaxSlugLength]
  }

  /** Trimming adds no upper-case letter. */
  lemma TrimNoUpper(s: string)
    requires NoUpper(s)
    ensures NoUpper(Trim(s))
  {
    var t := Trim(s);
    TrimShape(s);
    var k := |s| - |TrimStart(s)|;
    forall i | 0 <= i < |t| ensures !('A' <= t[i] <= 'Z') {
      assert t[i] == s[k + i];
    }
  }

  /**
   * `slugify(text, fallback)`: the fallback for a blank title; otherwise the
   * title lower-cased, trimmed, with whitespace runs turned into one hyphen,
   * special characters removed, hyphen runs collapsed and cut to 75 characters.
   */
  function Slugify(text: string, fallback: string): string {
    if IsBlank(text) then fallback
    else Truncate(CollapseHyphens(StripSpecials(HyphenateSpaces(Trim(Lower(text)), false)), false))
  }

  /** A blank title takes the fallback; any other title gets a slug-shaped id. */
  lemma SlugifyShape(text: string, fallback: string)
    ensures IsBlank(text) ==> Slugify(text, fallback) == fallback
    ensures !IsBlank(text) ==> IsSlugShaped(Slugify(text, fallback))
  {
    if !IsBlank(text) {
      var trimmed := Trim(Lower(text));
      TrimNoUpper(Lower(text));
      var stripped := StripSpecials(HyphenateSpaces(trimmed, false));
      StrippedSlugChars(trimmed);
      FinishedSlugShape(stripped);
    }
  }

  lemma StrippedSlugChars(trimmed: string)
    requires NoUpper(trimmed)
    ensures AllSlugChars(StripSpecials(HyphenateSpaces(trimmed, false)))
  {
    var hyphened := HyphenateSpaces(trimmed, false);
    HyphenateSpacesChars(trimmed, false);
    var stripped := StripSpecials(hyphened);
    forall i | 0 <= i < |stripped| ensures SlugChar(stripped[i]) {
      assert stripped[i] in hyphened;
    }
  }

  lemma FinishedSlugShape(stripped: string)
    requires AllSlugChars(stripped)
    ensures IsSlugShaped(Truncate(CollapseHyphens(stripped, false)))
  {
    var collapsed := CollapseHyphens(stripped, false);
    CollapseHyphensShape(stripped, false);
    var r := Truncate(collapsed);
    assert forall i :: 0 <= i < |r| ==> r[i] == collapsed[i];
  }

  /** A non-empty slug is its own slug: slugifying a slugified title changes nothing more. */
  lemma SlugifyFixedPoint(s: string, fallback: string)
    requires s != [] && IsSlugShaped(s)
    ensures Slugify(s, fallback) == s
  {
    NonSpaceStartNotBlank(s);
    SlugStagesNoop(s);
    CollapseHyphensNoop(s, false);
  }

  lemma SlugStagesNoop(s: string)
    requires s != [] && AllSlugChars(s)
    ensures StripSpecials(HyphenateSpaces(Trim(Lower(s)), false)) == s
  {
    var l := Lower(s);
    assert l == s;
    var t := Trim(l);
    TrimNoop(s);
    assert t == s;
    var h := HyphenateSpaces(t, false);
    HyphenateSpacesNoop(s);
    assert h == s;
    StripSpecialsNoop(s);
  }

  lemma HyphenateSpacesNoop(text: string)
    requires forall i :: 0 <= i < |text| ==> !IsSpace(text[i])
    ensures HyphenateSpaces(text, false) == text
  {
    HyphenateSpacesWord(text, "", false);
    assert text + "" == text;
  }

  // ---------------------------------------------------------------- dedup

  /** Record `i` survives de-duplication: its title is empty, or no earlier record has it. */
  predicate FirstWithTitle(rs: seq<RawRecord>, i: int)
    requires 0 <= i < |rs|
  {
    rs[i].title == "" || forall j :: 0 <= j < i ==> rs[j].title != rs[i].title
  }

  /** The records that survive de-duplication, in their original order. */
  function Deduplicate(rs: seq<RawRecord>): seq<RawRecord> {
    if rs == [] then []
    else Deduplicate(rs[..|rs| - 1]) + (if FirstWithTitle(rs, |rs| - 1) then [rs[|rs| - 1]] else [])
  }

  /** The non-empty titles among `rs[..n]`: the `titlesSeen` set after `n` steps. */
  function TitlesSeen(rs: seq<RawRecord>, n: int): set<string>
    requires 0 <= n <= |rs|
  {
    set j | 0 <= j < n && rs[j].title != "" :: rs[j].title
  }

  /** The de-duplication loop, with its `titlesSeen` set. */
  method DeduplicateByTitle(combined: seq<RawRecord>) returns (deduplicated: seq<RawRecord>)
    ensures deduplicated == Deduplicate(combined)
  {
    deduplicated := [];
    var titlesSeen: set<string> := {};
    for k := 0 to |combined|
      invariant deduplicated == Deduplicate(combined[..k])
      invariant titlesSeen == TitlesSeen(combined, k)
    {
      var activity := combined[k];
      assert combined[..k + 1][..k] == combined[..k];
      assert FirstWithTitle(combined[..k + 1], k) <==> activity.title == "" || activity.title !in titlesSeen;
      if activity.title != "" && activity.title !in titlesSeen {
        deduplicated := deduplicated + [activity];
        titlesSeen := titlesSeen + {activity.title};
      } else if activity.title == "" {
        deduplicated := deduplicated + [activity];
      }
    }
    assert combined[..|combined|] == combined;
  }

  /** De-duplication keeps the order: its result is a subsequence of the input. */
  lemma {:induction false} DeduplicateIsSubsequence(rs: seq<RawRecord>)
    ensures IsSubsequence(Deduplicate(rs), rs)
  {
    if rs != [] {
      var n := |rs| - 1;
      DeduplicateIsSubsequence(rs[..n]);
      SubsequenceSnoc(Deduplicate(rs[..n]), rs[..n], rs[n], FirstWithTitle(rs, n));
      assert rs[..n] + [rs[n]] == rs;
    }
  }

  lemma {:induction false} SubsequenceSnoc<T(!new)>(a: seq<T>, b: seq<T>, x: T, take: bool)
    requires IsSubsequence(a, b)
    ensures IsSubsequence(a + (if take then [x] else []), b + [x])
    decreases |b|
  {
    if b == [] {
      if take { assert (a + [x])[1..] == []; }
    } else if a == [] {
      if take { SubsequenceSnoc(a, b[1..], x, take); assert (b + [x])[1..] == b[1..] + [x]; }
    } else {
      assert (b + [x])[1..] == b[1..] + [x];
      var r := a + (if take then [x] else []);
      if a[0] == b[0] && IsSubsequence(a[1..], b[1..]) {
        SubsequenceSnoc(a[1..], b[1..], x, take);
        assert r[1..] == a[1..] + (if take then [x] else []);
      } else {
        SubsequenceSnoc(a, b[1..], x, take);
      }
    }
  }

  /** No two records share a non-empty title. */
  predicate TitlesDistinct(d: seq<RawRecord>) {
    forall i, j :: 0 <= i < j < |d| && d[i].title != "" ==> d[i].title != d[j].title
  }

  /** After de-duplication no two records share a non-empty title. */
  lemma {:induction false} DeduplicateTitlesDistinct(rs: seq<RawRecord>)
    ensures TitlesDistinct(Deduplicate(rs))
  {
    if rs != [] {
      var n := |rs| - 1;
      var prev := Deduplicate(rs[..n]);
      DeduplicateTitlesDistinct(rs[..n]);
      DeduplicateMembers(rs[..n]);
      var d := Deduplicate(rs);
      assert d == prev + (if FirstWithTitle(rs, n) then [rs[n]] else []);
      forall i, j | 0 <= i < j < |d| && d[i].title != "" ensures d[i].title != d[j].title {
        if j < |prev| {
          assert d[i] == prev[i] && d[j] == prev[j];
          assert prev[i].title != prev[j].title;
        } else {
          assert FirstWithTitle(rs, n) && d[j] == rs[n] && d[i] == prev[i];
          assert prev[i] in prev;
          var k :| 0 <= k < n && rs[..n][k] == prev[i];
          assert rs[k] == rs[..n][k];
          assert rs[k].title == d[i].title;
          if rs[n].title != "" {
            assert rs[k].title != rs[n].title;
          }
        }
      }
    }
  }

  /** Every record of the result is one of the input's: `Deduplicate` adds nothing. */
  lemma {:induction false} DeduplicateMembers(rs: seq<RawRecord>)
    ensures forall x :: x in Deduplicate(rs) ==> exists j :: 0 <= j < |rs| && rs[j] == x
  {
    if rs != [] {
      var n := |rs| - 1;
      DeduplicateMembers(rs[..n]);
      forall x | x in Deduplicate(rs) ensures exists j :: 0 <= j < |rs| && rs[j] == x {
        if x in Deduplicate(rs[..n]) {
          var j :| 0 <= j < n && rs[..n][j] == x;
          assert rs[j] == x;
        } else {
          assert rs[n] == x;
        }
      }
    }
  }

  /** No title is lost: every title of the input is the title of some surviving record. */
  lemma {:induction false} DeduplicateKeepsEveryTitle(rs: seq<RawRecord>, i: int)
    requires 0 <= i < |rs|
    ensures exists j :: 0 <= j < |Deduplicate(rs)| && Deduplicate(rs)[j].title == rs[i].title
  {
    var n := |rs| - 1;
    var d := Deduplicate(rs);
    if i < n {
      DeduplicateKeepsEveryTitle(rs[..n], i);
      var j :| 0 <= j < |Deduplicate(rs[..n])| && Deduplicate(rs[..n])[j].title == rs[..n][i].title;
      assert d[j] == Deduplicate(rs[..n])[j];
    } else if FirstWithTitle(rs, n) {
      assert d[|d| - 1] == rs[n];
    } else {
      var j0 :| 0 <= j0 < n && rs[j0].title == rs[n].title;
      DeduplicateKeepsEveryTitle(rs[..n], j0);
      var j :| 0 <= j < |Deduplicate(rs[..n])| && Deduplicate(rs[..n])[j].title == rs[..n][j0].title;
      assert d[j] == Deduplicate(rs[..n])[j];
    }
  }

  /** Records without a title are never dropped. */
  lemma {:induction false} DeduplicateKeepsUntitled(rs: seq<RawRecord>)
    ensures Count(TitlesOf(Deduplicate(rs)), "") == Count(TitlesOf(rs), "")
  {
    if rs != [] {
      var n := |rs| - 1;
      var prev := Deduplicate(rs[..n]);
      DeduplicateKeepsUntitled(rs[..n]);
      assert rs == rs[..n] + [rs[n]];
      TitlesOfSnoc(rs[..n], rs[n]);
      CountSnoc(TitlesOf(rs[..n]), rs[n].title, "");
      if FirstWithTitle(rs, n) {
        TitlesOfSnoc(prev, rs[n]);
        CountSnoc(TitlesOf(prev), rs[n].title, "");
      } else {
        assert Deduplicate(rs) == prev;
      }
    }
  }

  lemma TitlesOfSnoc(rs: seq<RawRecord>, r: RawRecord)
    ensures TitlesOf(rs + [r]) == TitlesOf(rs) + [r.title]
  {
  }

  function TitlesOf(rs: seq<RawRecord>): (ts: seq<string>)
    ensures |ts| == |rs| && forall i :: 0 <= i < |rs| ==> ts[i] == rs[i].title
  {
    seq(|rs|, i requires 0 <= i < |rs| => rs[i].title)
  }

  // ---------------------------------------------------------------- tags

  /** `{...defaultActivityTags, ...(activity.tags || {})}`. */
  function MergeTags(p: Option<PartialTags>): Tags {
    match p
    case None => DefaultTags
    case Some(t) =>
      Tags(
        t.mainCategory.GetOr(DefaultTags.mainCategory),
        t.subCategory.GetOr(DefaultTags.subCategory),
        t.cefrLevel.GetOr(DefaultTags.cefrLevel),
        t.groupSize.GetOr(DefaultTags.groupSize),
        t.preparationRequired.GetOr(DefaultTags.preparationRequired),
        t.materialsResources.GetOr(DefaultTags.materialsResources),
        t.sensitivityWarning.GetOr(DefaultTags.sensitivityWarning),
        t.activityType.GetOr(DefaultTags.activityType),
        t.classroomCommunityBonding.GetOr(DefaultTags.classroomCommunityBonding),
        t.thematicallyAdaptable.GetOr(DefaultTags.thematicallyAdaptable),
        if t.flashcards.Some? then t.flashcards else DefaultTags.flashcards,
        if t.teacherInstruction.Some? then t.teacherInstruction else DefaultTags.teacherInstruction)
  }

  /** A complete tag object as a raw record's partial one (what the export writes back). */
  function AsPartial(t: Tags): PartialTags {
    PartialTags(
      Some(t.mainCategory), Some(t.subCategory), Some(t.cefrLevel), Some(t.groupSize),
      Some(t.preparationRequired), Some(t.materialsResources), Some(t.sensitivityWarning),
      Some(t.activityType), Some(t.classroomCommunityBonding), Some(t.thematicallyAdaptable),
      t.flashcards, t.teacherInstruction)
  }

  /** Merging over the defaults keeps every field the record sets and defaults the rest. */
  lemma MergeTagsFields(p: PartialTags)
    ensures var t := MergeTags(Some(p));
      && (p.mainCategory.Some? ==> t.mainCategory == p.mainCategory.value)
      && (p.mainCategory.None? ==> t.mainCategory == "")
      && (p.subCategory.Some? ==> t.subCategory == p.subCategory.value)
      && (p.subCategory.None? ==> t.subCategory == [])
      && (p.cefrLevel.Some? ==> t.cefrLevel == p.cefrLevel.value)
      && (p.cefrLevel.None? ==> t.cefrLevel == [])
      && (p.groupSize.Some? ==> t.groupSize == p.groupSize.value)
      && (p.groupSize.None? ==> t.groupSize == [])
      && (p.preparationRequired.Some? ==> t.preparationRequired == p.preparationRequired.value)
      && (p.preparationRequired.None? ==> t.preparationRequired == "")
      && (p.materialsResources.Some? ==> t.materialsResources == p.materialsResources.value)
      && (p.materialsResources.None? ==> t.materialsResources == [])
      && (p.sensitivityWarning.Some? ==> t.sensitivityWarning == p.sensitivityWarning.value)
      && (p.sensitivityWarning.None? ==> !t.sensitivityWarning)
      && (p.activityType.Some? ==> t.activityType == p.activityType.value)
      && (p.activityType.None? ==> t.activityType == [])
      && (p.classroomCommunityBonding.Some? ==> t.classroomCommunityBonding == p.classroomCommunityBonding.value)
      && (p.classroomCommunityBonding.None? ==> !t.classroomCommunityBonding)
      && (p.thematicallyAdaptable.Some? ==> t.thematicallyAdaptable == p.thematicallyAdaptable.value)
      && (p.thematicallyAdaptable.None? ==> !t.thematicallyAdaptable)
      && t.flashcards == p.flashcards && t.teacherInstruction == p.teacherInstruction
  {
  }

  /** A record carrying a complete tag object keeps it unchanged; one without tags gets the defaults. */
  lemma MergeTagsComplete(t: Tags)
    ensures MergeTags(Some(AsPartial(t))) == t
    ensures MergeTags(None) == DefaultTags
  {
  }

  // ---------------------------------------------------------------- ids

  /** The base slug of record `i`: its slugified title, or `activity-<i>`. */
  function BaseSlugs(rs: seq<RawRecord>): (bases: seq<string>)
    ensures |bases| == |rs|
  {
    seq(|rs|, i requires 0 <= i < |rs| => Slugify(rs[i].title, "activity-" + NatToString(i)))
  }

  /**
   * The id of record `k`: its base slug the first time that base occurs, and
   * `base-c` when it is the c-th occurrence (c >= 2).
   */
  function IdFor(bases: seq<string>, k: int): string
    requires 0 <= k < |bases|
  {
    var c := Count(bases[..k + 1], bases[k]);
    if c == 1 then bases[k] else bases[k] + "-" + NatToString(c)
  }

  /** The first record with a given base slug keeps it; the later ones get a counter suffix. */
  lemma IdForFirstOccurrence(bases: seq<string>, k: int)
    requires 0 <= k < |bases|
    ensures bases[k] !in bases[..k] ==> IdFor(bases, k) == bases[k]
    ensures bases[k] in bases[..k] ==>
      IdFor(bases, k) == bases[k] + "-" + NatToString(Count(bases[..k], bases[k]) + 1)
  {
    assert bases[..k + 1] == bases[..k] + [bases[k]];
    CountSnoc(bases[..k], bases[k], bases[k]);
    CountPositive(bases[..k], bases[k]);
  }

  /** The record at position `k` with the id it gets from the base slugs `bases`. */
  function WithId(rs: seq<RawRecord>, bases: seq<string>, k: int): Activity
    requires |bases| == |rs| && 0 <= k < |rs|
  {
    Activity(IdFor(bases, k), rs[k].title, rs[k].fullDescription, MergeTags(rs[k].tags))
  }

  /** The first `n` records with their ids. */
  function WithIds(rs: seq<RawRecord>, bases: seq<string>, n: int): (out: seq<Activity>)
    requires |bases| == |rs| && 0 <= n <= |rs|
    ensures |out| == n
  {
    if n == 0 then [] else WithIds(rs, bases, n - 1) + [WithId(rs, bases, n - 1)]
  }

  /** The normalised records: the de-duplicated list with slug ids and merged tags. */
  function Normalized(rs: seq<RawRecord>): seq<Activity> {
    WithIds(rs, BaseSlugs(rs), |rs|)
  }

  lemma {:induction false} WithIdsAt(rs: seq<RawRecord>, bases: seq<string>, n: int, k: int)
    requires |bases| == |rs| && 0 <= k < n <= |rs|
    ensures WithIds(rs, bases, n)[k] == WithId(rs, bases, k)
    decreases n
  {
    if k < n - 1 {
      WithIdsAt(rs, bases, n - 1, k);
    }
  }

  /** Record `k` keeps its title and description, takes the merged tags and the id `IdFor` gives it. */
  lemma NormalizedAt(rs: seq<RawRecord>, k: int)
    requires 0 <= k < |rs|
    ensures |Normalized(rs)| == |rs|
    ensures Normalized(rs)[k] == Activity(IdFor(BaseSlugs(rs), k), rs[k].title, rs[k].fullDescription, MergeTags(rs[k].tags))
  {
    WithIdsAt(rs, BaseSlugs(rs), |rs|, k);
  }

  /** `slugCounts` after the first `n` records: each base slug seen maps to its number of occurrences. */
  ghost predicate CountsOf(slugCounts: map<string, nat>, seen: seq<string>) {
    forall b :: (b in slugCounts ==> slugCounts[b] == Count(seen, b) && slugCounts[b] >= 1)
      && (b !in slugCounts ==> Count(seen, b) == 0)
  }

  /** One step of the counter: the id it yields is `IdFor`, and the map counts one more occurrence. */
  lemma CountsStep(slugCounts: map<string, nat>, bases: seq<string>, index: int)
    requires 0 <= index < |bases| && CountsOf(slugCounts, bases[..index])
    ensures var b := bases[index];
      && (b in slugCounts && slugCounts[b] != 0 ==>
            IdFor(bases, index) == b + "-" + NatToString(slugCounts[b] + 1)
            && CountsOf(slugCounts[b := slugCounts[b] + 1], bases[..index + 1]))
      && (!(b in slugCounts && slugCounts[b] != 0) ==>
            IdFor(bases, index) == b && CountsOf(slugCounts[b := 1], bases[..index + 1]))
  {
    var b := bases[index];
    IdForFirstOccurrence(bases, index);
    CountPositive(bases[..index], b);
    assert bases[..index + 1] == bases[..index] + [b];
    forall x {
      CountSnoc(bases[..index], b, x);
    }
  }

  /**
   * The `forEach` of the load pass: each record's base slug is its slugified title,
   * or "activity-" + index, and the `slugCounts` dictionary turns the base into an id.
   */
  method AssignIds(deduplicated: seq<RawRecord>) returns (activitiesWithIds: seq<Activity>)
    ensures activitiesWithIds == Normalized(deduplicated)
  {
    ghost var bases := BaseSlugs(deduplicated);
    activitiesWithIds := [];
    var slugCounts: map<string, nat> := map[];
    for index := 0 to |deduplicated|
      invariant activitiesWithIds == WithIds(deduplicated, bases, index)
      invariant CountsOf(slugCounts, bases[..index])
    {
      var activity := deduplicated[index];
      var baseSlug := Slugify(activity.title, "activity-" + NatToString(index));
      assert baseSlug == bases[index];
      CountsStep(slugCounts, bases, index);
      var slug := baseSlug;
      if baseSlug in slugCounts && slugCounts[baseSlug] != 0 {
        slugCounts := slugCounts[baseSlug := slugCounts[baseSlug] + 1];
        slug := baseSlug + "-" + NatToString(slugCounts[baseSlug]);
      } else {
        slugCounts := slugCounts[baseSlug := 1];
      }
      var ensuredTags := MergeTags(activity.tags);
      activitiesWithIds := activitiesWithIds + [Activity(slug, activity.title, activity.fullDescription, ensuredTags)];
    }
  }

  /** The whole load pass over the three already-parsed sources, in priority order. */
  method NormalizeSources(activitiesData: seq<RawRecord>, skillsData: seq<RawRecord>, fuelboxData: seq<RawRecord>)
    returns (activities: seq<Activity>)
    ensures activities == Normalized(Deduplicate(activitiesData + skillsData + fuelboxData))
  {
    var combined := activitiesData + skillsData + fuelboxData;
    var deduplicated := DeduplicateByTitle(combined);
    activities := AssignIds(deduplicated);
  }

  // ---------------------------------------------------------------- what ids do not promise

  /** Three titles whose ids collide. */
  function QuizRecords(): seq<RawRecord> {
    [RawRecord("Quiz", "", None), RawRecord("Quiz.", "", None), RawRecord("Quiz 2", "", None)]
  }

  /** Ids are not unique: "Quiz" and "Quiz." both give `quiz`, so the second takes `quiz-2`, the slug of "Quiz 2". */
  lemma IdsMayCollide()
    ensures |Normalized(QuizRecords())| == 3
    ensures Normalized(QuizRecords())[1].id == "quiz-2" && Normalized(QuizRecords())[2].id == "quiz-2"
    ensures Normalized(Deduplicate(QuizRecords() + [] + [])) == Normalized(QuizRecords())
  {
    var rs := QuizRecords();
    assert rs + [] + [] == rs;
    QuizSurvivesLoad();
    BaseOfQuiz();
    BaseOfQuizDot();
    BaseOfQuizTwo();
    IdsOfQuiz(BaseSlugs(rs));
    NormalizedAt(rs, 1);
    NormalizedAt(rs, 2);
  }

  /** The three titles are distinct, so the load pass keeps all three records. */
  lemma QuizSurvivesLoad()
    ensures Deduplicate(QuizRecords()) == QuizRecords()
  {
    var rs := QuizRecords();
    var one, two := rs[..1], rs[..2];
    assert one[..0] == [] && two[..1] == one && rs[..2] == two;
    assert FirstWithTitle(one, 0);
    assert Deduplicate(one) == one;
    assert two[0].title != two[1].title by { assert |two[0].title| != |two[1].title|; }
    assert FirstWithTitle(two, 1);
    assert two == one + [two[1]];
    assert Deduplicate(two) == two;
    assert rs[0].title != rs[2].title by { assert rs[0].title[4..] != rs[2].title[4..]; }
    assert rs[1].title != rs[2].title by { assert rs[1].title[4] != rs[2].title[4]; }
    assert FirstWithTitle(rs, 2);
    assert rs == two + [rs[2]];
  }

  lemma BaseOfQuiz()
    ensures BaseSlugs(QuizRecords())[0] == "quiz"
  {
    SlugOfQuiz("activity-" + NatToString(0));
  }

  lemma BaseOfQuizDot()
    ensures BaseSlugs(QuizRecords())[1] == "quiz"
  {
    SlugOfQuizDot("activity-" + NatToString(1));
  }

  lemma BaseOfQuizTwo()
    ensures BaseSlugs(QuizRecords())[2] == "quiz-2"
  {
    SlugOfQuizTwo("activity-" + NatToString(2));
  }

  lemma IdsOfQuiz(bases: seq<string>)
    requires |bases| == 3 && bases[0] == "quiz" && bases[1] == "quiz" && bases[2] == "quiz-2"
    ensures IdFor(bases, 1) == "quiz-2" && IdFor(bases, 2) == "quiz-2"
  {
    assert bases == ["quiz", "quiz", "quiz-2"];
    assert bases[..2] == ["quiz", "quiz"];
    assert bases[..3] == bases;
    assert ["quiz", "quiz"][1..] == ["quiz"];
    assert ["quiz"][1..] == [];
    assert Count(bases[..2], "quiz") == 2;
    assert bases[1..] == ["quiz", "quiz-2"] && bases[2..] == ["quiz-2"];
    assert ["quiz-2"][1..] == [];
    assert "quiz" != "quiz-2";
    assert Count(bases[2..], "quiz-2") == 1;
    assert Count(bases[1..], "quiz-2") == 1;
    assert Count(bases, "quiz-2") == 1;
    assert NatToString(2) == "2";
  }

  /** Slugifying a non-blank title, stage by stage. */
  lemma SlugifyStages(text: string, fallback: string, lowered: string, trimmed: string, hyphened: string, stripped: string, collapsed: string)
    requires !IsBlank(text) && Lower(text) == lowered && Trim(lowered) == trimmed
    requires HyphenateSpaces(trimmed, false) == hyphened && StripSpecials(hyphened) == stripped
    requires CollapseHyphens(stripped, false) == collapsed && |collapsed| <= MaxSlugLength
    ensures Slugify(text, fallback) == collapsed
  {
  }

  lemma SlugOfQuiz(fallback: string)
    ensures Slugify("Quiz", fallback) == "quiz"
  {
    QuizNotBlank();
    LowerQuiz();
    QuizShaped();
    SlugWordFacts("quiz");
    SlugifyStages("Quiz", fallback, "quiz", "quiz", "quiz", "quiz", "quiz");
  }

  /** The stages that leave a non-empty slug unchanged. */
  lemma SlugWordFacts(s: string)
    requires s != [] && IsSlugShaped(s)
    ensures Trim(s) == s && HyphenateSpaces(s, false) == s && StripSpecials(s) == s
    ensures CollapseHyphens(s, false) == s
  {
    TrimNoop(s);
    HyphenateSpacesNoop(s);
    StripSpecialsNoop(s);
    CollapseHyphensNoop(s, false);
  }

  lemma QuizShaped()
    ensures IsSlugShaped("quiz") && IsSlugShaped("quiz-2")
  {
  }

  lemma PunctuatedFacts()
    ensures Trim("quiz.") == "quiz." && Trim("quiz 2") == "quiz 2" && Trim("...") == "..."
  {
    TrimNoop("quiz.");
    TrimNoop("quiz 2");
    TrimNoop("...");
  }

  lemma HyphenatePunctuated()
    ensures HyphenateSpaces("quiz.", false) == "quiz." && HyphenateSpaces("...", false) == "..."
  {
    HyphenateSpacesNoop("quiz.");
    HyphenateSpacesNoop("...");
  }

  lemma QuizNotBlank()
    ensures !IsBlank("Quiz") && !IsBlank("Quiz.") && !IsBlank("Quiz 2") && !IsBlank("...")
  {
    NonSpaceStartNotBlank("Quiz");
    NonSpaceStartNotBlank("Quiz.");
    NonSpaceStartNotBlank("Quiz 2");
    NonSpaceStartNotBlank("...");
  }

  lemma LowerQuiz()
    ensures Lower("Quiz") == "quiz" && Lower("Quiz.") == "quiz." && Lower("Quiz 2") == "quiz 2"
    ensures Lower("...") == "..."
  {
  }

  lemma SlugOfQuizDot(fallback: string)
    ensures Slugify("Quiz.", fallback) == "quiz"
  {
    QuizNotBlank();
    LowerQuiz();
    QuizShaped();
    SlugWordFacts("quiz");
    PunctuatedFacts();
    HyphenatePunctuated();
    StripQuizDot();
    SlugifyStages("Quiz.", fallback, "quiz.", "quiz.", "quiz.", "quiz", "quiz");
  }

  lemma StripQuizDot()
    ensures StripSpecials("quiz.") == "quiz" && StripSpecials("...") == ""
  {
    QuizShaped();
    SlugWordFacts("quiz");
    StripAppendDot("quiz");
    StripDots();
  }

  /** A trailing full stop is removed. */
  lemma StripAppendDot(s: string)
    ensures StripSpecials(s + ".") == StripSpecials(s)
  {
    KeepConcat(s, ".", NotSpecial);
    assert Keep(".", NotSpecial) == [];
    assert Keep(s, NotSpecial) + [] == Keep(s, NotSpecial);
  }

  lemma StripDots()
    ensures StripSpecials("...") == ""
  {
    assert "..."[1..] == ".." && ".."[1..] == "." && "."[1..] == "";
  }

  lemma SlugOfQuizTwo(fallback: string)
    ensures Slugify("Quiz 2", fallback) == "quiz-2"
  {
    QuizNotBlank();
    LowerQuiz();
    QuizShaped();
    SlugWordFacts("quiz-2");
    PunctuatedFacts();
    HyphenateQuizTwo();
    SlugifyStages("Quiz 2", fallback, "quiz 2", "quiz 2", "quiz-2", "quiz-2", "quiz-2");
  }

  lemma HyphenateQuizTwo()
    ensures HyphenateSpaces("quiz 2", false) == "quiz-2"
  {
    HyphenateSpacesWord("quiz", " 2", false);
    assert "quiz" + " 2" == "quiz 2";
    assert " 2"[1..] == "2";
    assert HyphenateSpaces("2", true) == "2";
    assert HyphenateSpaces(" 2", false) == "-2";
    assert "quiz" + "-2" == "quiz-2";
  }

  /** Ids can be empty: a title made only of removed characters slugifies to "". */
  lemma IdMayBeEmpty(fallback: string)
    ensures Slugify("...", fallback) == ""
  {
    QuizNotBlank();
    LowerQuiz();
    PunctuatedFacts();
    HyphenatePunctuated();
    StripQuizDot();
    SlugifyStages("...", fallback, "...", "...", "...", "", "");
  }
}
