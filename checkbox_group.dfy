/** A group of checkboxes over a list of options and the list of selected ones. */
module CheckboxGroup {
  import opened SeqUtil

  /** `handleCheckboxChange`: a selected option is removed (every occurrence), another is appended. */
  function Toggle(selected: seq<string>, option: string): (r: seq<string>)
    ensures option in selected ==> option !in r
    ensures option !in selected ==> r == selected + [option]
  {
    if option in selected then Keep(selected, (item: string) => item != option)
    else selected + [option]
  }

  /** Toggling flips the option's membership and no other option's. */
  lemma ToggleMembership(selected: seq<string>, option: string, other: string)
    ensures other in Toggle(selected, option) <==> (if other == option then option !in selected else other in selected)
  {
  }

  /** Removing an option keeps the remaining items in their order. */
  lemma ToggleRemovesInOrder(selected: seq<string>, option: string)
    requires option in selected
    ensures IsSubsequence(Toggle(selected, option), selected)
    ensures |Toggle(selected, option)| + Count(selected, option) == |selected|
  {
    KeepIsSubsequence(selected, (item: string) => item != option);
    KeepCount(selected, option);
  }

  /** Filtering out `x` drops exactly its occurrences. */
  lemma {:induction false} KeepCount(s: seq<string>, x: string)
    ensures |Keep(s, (item: string) => item != x)| + Count(s, x) == |s|
  {
    if s != [] {
      KeepCount(s[1..], x);
    }
  }

  /** Toggling an unselected option twice restores the selection. */
  lemma ToggleTwice(selected: seq<string>, option: string)
    requires option !in selected
    ensures Toggle(Toggle(selected, option), option) == selected
  {
    var once := selected + [option];
    KeepConcat(selected, [option], (item: string) => item != option);
    KeepAll(selected, (item: string) => item != option);
    assert Keep([option], (item: string) => item != option) == [];
  }

  /** Toggling a selected option twice drops all its occurrences and appends it once at the end. */
  lemma ToggleSelectedTwice(selected: seq<string>, option: string)
    requires option in selected
    ensures Toggle(Toggle(selected, option), option) == Keep(selected, (item: string) => item != option) + [option]
  {
  }
}
