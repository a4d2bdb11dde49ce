/**
 * The two-thumb CEFR range slider: six positions (the canonical levels),
 * a minimum and a maximum thumb moved by value changes, arrow keys, drags
 * and clicks on the level labels.
 *
 * Cursor geometry is left out: a drag step arrives as the integer index the
 * cursor position rounds to.
 */
module CefrSlider {
  import opened Wrappers
  import opened ActivityTypes

  /** The highest index, `CEFR_LEVELS_ORDERED.length - 1`. */
  const Top: int := |CefrLevels| - 1

  datatype Thumb = MinThumb | MaxThumb
  datatype Key = ArrowLeft | ArrowRight | OtherKey
  datatype Indices = Indices(min: int, max: int)

  /** Both indices are positions of the slider. */
  predicate InRange(i: Indices) {
    0 <= i.min <= Top && 0 <= i.max <= Top
  }

  /** A proper range: the minimum thumb is not past the maximum. */
  predicate Ordered(i: Indices) {
    0 <= i.min <= i.max <= Top
  }

  /** `getInitialIndex`: the canonical position of a known level, otherwise the default. */
  function InitialIndex(level: string, defaultIndex: int): (i: int)
    requires 0 <= defaultIndex <= Top
    ensures 0 <= i <= Top
    ensures level in CefrLevels ==> CefrLevels[i] == level
    ensures level !in CefrLevels ==> i == defaultIndex
  {
    var index := CefrIndex(level);
    if index != -1 then index else defaultIndex
  }

  /** The slider starts from the filter's range, which need not be ordered. */
  lemma InitialMayBeInverted()
    ensures InitialIndex("C2", 0) > InitialIndex("A1", Top)
  {
  }

  /** `Math.max(0, Math.min(i, 5))`. */
  function Clamp(i: int): (r: int)
    ensures 0 <= r <= Top
    ensures 0 <= i <= Top ==> r == i
    ensures i < 0 ==> r == 0
    ensures i > Top ==> r == Top
  {
    if i < 0 then 0 else if i > Top then Top else i
  }

  /** `handleValueChange`: both indices clamped, committed only if they are in order. */
  function ValueChange(newMin: int, newMax: int): (r: Option<Indices>)
    ensures r.Some? <==> Clamp(newMin) <= Clamp(newMax)
    ensures r.Some? ==> Ordered(r.value) && r.value == Indices(Clamp(newMin), Clamp(newMax))
  {
    var validMin := Clamp(newMin);
    var validMax := Clamp(newMax);
    if validMin <= validMax then Some(Indices(validMin, validMax)) else None
  }

  /** The range `onChange` is called with. */
  function RangeOf(i: Indices): CefrRange
    requires InRange(i)
  {
    CefrRange(CefrLevels[i.min], CefrLevels[i.max])
  }

  // ---------------------------------------------------------------- keyboard

  /** The effect of an arrow key, as the thumbs' rules describe it. */
  function KeyMove(thumb: Thumb, key: Key, cur: Indices): Option<Indices> {
    match (thumb, key)
    case (MinThumb, ArrowLeft) => if cur.min > 0 then ValueChange(cur.min - 1, cur.max) else None
    case (MinThumb, ArrowRight) =>
      if cur.min < cur.max then ValueChange(cur.min + 1, cur.max)
      else if cur.min == cur.max && cur.max < Top then ValueChange(cur.min, cur.max + 1)
      else None
    case (MaxThumb, ArrowLeft) =>
      if cur.max > cur.min then ValueChange(cur.min, cur.max - 1)
      else if cur.max == cur.min && cur.min > 0 then ValueChange(cur.min - 1, cur.max)
      else None
    case (MaxThumb, ArrowRight) => if cur.max < Top then ValueChange(cur.min, cur.max + 1) else None
    case (_, OtherKey) => None
  }

  /** The distance between two index pairs, squared. */
  function StepSquared(a: Indices, b: Indices): int {
    (a.min - b.min) * (a.min - b.min) + (a.max - b.max) * (a.max - b.max)
  }

  /** From a proper range, a key moves exactly one thumb by exactly one position and keeps the range proper. */
  lemma KeyMoveOneStep(thumb: Thumb, key: Key, cur: Indices)
    requires Ordered(cur)
    ensures key == OtherKey ==> KeyMove(thumb, key, cur) == None
    ensures KeyMove(thumb, key, cur).Some? ==>
      Ordered(KeyMove(thumb, key, cur).value) && StepSquared(KeyMove(thumb, key, cur).value, cur) == 1
  {
    if key != OtherKey {
      if thumb == MinThumb { MinThumbKeys(key, cur); } else { MaxThumbKeys(key, cur); }
    }
  }

  lemma MinThumbKeys(key: Key, cur: Indices)
    requires Ordered(cur) && key != OtherKey
    ensures KeyMove(MinThumb, key, cur).Some? ==>
      Ordered(KeyMove(MinThumb, key, cur).value) && StepSquared(KeyMove(MinThumb, key, cur).value, cur) == 1
  {
  }

  lemma MaxThumbKeys(key: Key, cur: Indices)
    requires Ordered(cur) && key != OtherKey
    ensures KeyMove(MaxThumb, key, cur).Some? ==>
      Ordered(KeyMove(MaxThumb, key, cur).value) && StepSquared(KeyMove(MaxThumb, key, cur).value, cur) == 1
  {
  }

  /** A key does nothing only at the ends of the track, or for a key other than the arrows. */
  lemma KeyMoveBlocked(thumb: Thumb, key: Key, cur: Indices)
    requires Ordered(cur)
    ensures KeyMove(thumb, key, cur).None? <==>
      key == OtherKey ||
      (key == ArrowLeft && (if thumb == MinThumb then cur.min == 0 else cur.max == 0)) ||
      (key == ArrowRight && (if thumb == MaxThumb then cur.max == Top else cur.min == Top))
  {
  }

  // ---------------------------------------------------------------- labels

  function Abs(x: int): nat { if x < 0 then -x else x }

  /** A click on the label at `levelIndex`: the nearer thumb moves there; a level below the range moves the minimum, and a tie inside the range moves the maximum. */
  function ClickMove(levelIndex: int, cur: Indices): Option<Indices> {
    if Abs(levelIndex - cur.min) < Abs(levelIndex - cur.max)
      || (Abs(levelIndex - cur.min) == Abs(levelIndex - cur.max) && levelIndex < cur.min)
      || levelIndex < cur.min
    then (if levelIndex <= cur.max then ValueChange(levelIndex, cur.max) else None)
    else (if levelIndex >= cur.min then ValueChange(cur.min, levelIndex) else None)
  }

  /** On a proper range, a label below the range moves the minimum, above it the maximum, and either way the range stays proper. */
  lemma ClickMoveSpec(levelIndex: int, cur: Indices)
    requires Ordered(cur) && 0 <= levelIndex <= Top
    ensures levelIndex < cur.min ==> ClickMove(levelIndex, cur) == Some(Indices(levelIndex, cur.max))
    ensures levelIndex > cur.max ==> ClickMove(levelIndex, cur) == Some(Indices(cur.min, levelIndex))
    ensures cur.min <= levelIndex <= cur.max && Abs(levelIndex - cur.min) < Abs(levelIndex - cur.max) ==>
      ClickMove(levelIndex, cur) == Some(Indices(levelIndex, cur.max))
    ensures cur.min <= levelIndex <= cur.max && Abs(levelIndex - cur.min) >= Abs(levelIndex - cur.max) ==>
      ClickMove(levelIndex, cur) == Some(Indices(cur.min, levelIndex))
    ensures ClickMove(levelIndex, cur).Some?
    ensures Ordered(ClickMove(levelIndex, cur).value)
    ensures ClickMove(levelIndex, cur).value.min == levelIndex || ClickMove(levelIndex, cur).value.max == levelIndex
  {
  }

  // ---------------------------------------------------------------- drag

  /** One cursor move of a drag, judged against the indices `at`. */
  function DragMove(thumb: Thumb, proposed: int, at: Indices): Option<Indices> {
    match thumb
    case MinThumb =>
      var newMin := if proposed < at.max then (if proposed < 0 then 0 else proposed) else (if at.max < 0 then 0 else at.max);
      if newMin != at.min then ValueChange(newMin, at.max) else None
    case MaxThumb =>
      if at.min == at.max then
        if proposed < at.max then ValueChange(if proposed < 0 then 0 else proposed, at.max)
        else if proposed > at.max then ValueChange(at.min, if proposed < Top then proposed else Top)
        else None
      else
        var atLeastMin := if proposed > at.min then proposed else at.min;
        var newMax := if atLeastMin < Top then atLeastMin else Top;
        if newMax != at.max then ValueChange(at.min, newMax) else None
  }

  /** The indices after a commit, or the unchanged ones. */
  function After(r: Option<Indices>, cur: Indices): Indices {
    if r.Some? then r.value else cur
  }

  /**
   * A whole drag gesture as written: the move listener is created when the
   * thumb is pressed and keeps comparing against the indices of that moment.
   */
  function DragGestureAsWritten(thumb: Thumb, pressed: Indices, cur: Indices, moves: seq<int>): Indices
    decreases |moves|
  {
    if moves == [] then cur
    else DragGestureAsWritten(thumb, pressed, After(DragMove(thumb, moves[0], pressed), cur), moves[1..])
  }

  /** A whole drag gesture judged against the current indices at every move. */
  function DragGesture(thumb: Thumb, cur: Indices, moves: seq<int>): Indices
    decreases |moves|
  {
    if moves == [] then cur
    else DragGesture(thumb, After(DragMove(thumb, moves[0], cur), cur), moves[1..])
  }

  /**
   * Dragging the minimum thumb to position 2 and back to 0 leaves it at 2:
   * the return move equals the index captured when the thumb was pressed,
   * so it is discarded as "no change".
   */
  lemma StaleDragIgnoresReturn()
    ensures DragGestureAsWritten(MinThumb, Indices(0, 5), Indices(0, 5), [2, 0]) == Indices(2, 5)
  {
    assert DragMove(MinThumb, 2, Indices(0, 5)) == Some(Indices(2, 5));
    assert DragMove(MinThumb, 0, Indices(0, 5)) == None;
  }

  /** Judged against the current indices, the minimum thumb ends where the last move put the cursor, capped by the maximum. */
  lemma {:induction false} DragFollowsCursor(cur: Indices, moves: seq<int>)
    requires Ordered(cur) && moves != []
    ensures var last := moves[|moves| - 1];
      var target := if last < 0 then 0 else if last > cur.max then cur.max else last;
      DragGesture(MinThumb, cur, moves) == Indices(target, cur.max)
    decreases |moves|
  {
    var next := After(DragMove(MinThumb, moves[0], cur), cur);
    assert Ordered(next) && next.max == cur.max;
    if |moves| > 1 {
      DragFollowsCursor(next, moves[1..]);
      assert moves[1..][|moves[1..]| - 1] == moves[|moves| - 1];
    }
  }

  /** Every move of a drag from a proper range keeps it proper. */
  lemma DragMoveOrdered(thumb: Thumb, proposed: int, cur: Indices)
    requires Ordered(cur)
    ensures Ordered(After(DragMove(thumb, proposed, cur), cur))
  {
  }

  // ---------------------------------------------------------------- the component

  class RangeSlider {
    var minIndex: int
    var maxIndex: int

    function Current(): Indices
      reads this
    {
      Indices(minIndex, maxIndex)
    }

    /** The indices are always positions of the slider. */
    ghost predicate Valid()
      reads this
    {
      InRange(Current())
    }

    /** The state the slider is mounted with. */
    constructor (currentRange: CefrRange)
      ensures minIndex == InitialIndex(currentRange.min, 0) && maxIndex == InitialIndex(currentRange.max, Top)
      ensures Valid()
    {
      minIndex := InitialIndex(currentRange.min, 0);
      maxIndex := InitialIndex(currentRange.max, Top);
    }

    /** The effect that re-reads the range when the filter changes. */
    method SyncToRange(currentRange: CefrRange)
      modifies this
      ensures minIndex == InitialIndex(currentRange.min, 0) && maxIndex == InitialIndex(currentRange.max, Top)
      ensures Valid()
    {
      minIndex := InitialIndex(currentRange.min, 0);
      maxIndex := InitialIndex(currentRange.max, Top);
    }

    /** The outcome `r` was applied: committed and emitted, or nothing changed and nothing was emitted. */
    ghost predicate Applied(r: Option<Indices>, before: Indices, emitted: Option<CefrRange>)
      reads this
    {
      Current() == After(r, before) && Valid() &&
      emitted == (if r.Some? then Some(RangeOf(r.value)) else None)
    }

    /** `handleValueChange`. */
    method HandleValueChange(newMinIdx: int, newMaxIdx: int) returns (emitted: Option<CefrRange>)
      requires Valid()
      modifies this
      ensures Applied(ValueChange(newMinIdx, newMaxIdx), old(Current()), emitted)
    {
      var validMinIndex := Clamp(newMinIdx);
      var validMaxIndex := Clamp(newMaxIdx);
      emitted := None;
      if validMinIndex <= validMaxIndex {
        minIndex := validMinIndex;
        maxIndex := validMaxIndex;
        emitted := Some(CefrRange(CefrLevels[validMinIndex], CefrLevels[validMaxIndex]));
      }
    }

    /** `handleKeyDown`: the two local indices are stepped, then clamped and committed. */
    method HandleKeyDown(thumb: Thumb, key: Key) returns (emitted: Option<CefrRange>)
      requires Valid()
      modifies this
      ensures Applied(KeyMove(thumb, key, old(Current())), old(Current()), emitted)
    {
      var nMinIndex := minIndex;
      var nMaxIndex := maxIndex;
      if thumb == MinThumb {
        if key == ArrowLeft && minIndex > 0 {
          nMinIndex := nMinIndex - 1;
        } else if key == ArrowRight {
          if minIndex < maxIndex {
            nMinIndex := nMinIndex + 1;
          } else if minIndex == maxIndex && maxIndex < Top {
            nMaxIndex := nMaxIndex + 1;
          }
        }
      } else {
        if key == ArrowLeft {
          if maxIndex > minIndex {
            nMaxIndex := nMaxIndex - 1;
          } else if maxIndex == minIndex && minIndex > 0 {
            nMinIndex := nMinIndex - 1;
          }
        } else if key == ArrowRight && maxIndex < Top {
          nMaxIndex := nMaxIndex + 1;
        }
      }
      emitted := None;
      if nMinIndex != minIndex || nMaxIndex != maxIndex {
        var finalMinIndex := Clamp(nMinIndex);
        var finalMaxIndex := Clamp(nMaxIndex);
        if finalMinIndex <= finalMaxIndex {
          emitted := HandleValueChange(finalMinIndex, finalMaxIndex);
        } else if thumb == MinThumb && key == ArrowRight {
          assert false;
        } else if thumb == MaxThumb && key == ArrowLeft {
          assert false;
        }
      }
    }

    /**
     * One cursor move of a drag. `pressed` holds the indices the move listener
     * captured when the thumb was pressed: every comparison and every commit
     * uses them, as the source does. Passing the current indices gives the
     * corrected behaviour of `DragGesture`.
     */
    method HandleDragMove(thumb: Thumb, pressed: Indices, newProposedIndex: int) returns (emitted: Option<CefrRange>)
      requires Valid()
      modifies this
      ensures Applied(DragMove(thumb, newProposedIndex, pressed), old(Current()), emitted)
    {
      emitted := None;
      var minIndex, maxIndex := pressed.min, pressed.max;
      if thumb == MinThumb {
        var newActualMinIndex := if newProposedIndex < maxIndex then newProposedIndex else maxIndex;
        var newMin := if newActualMinIndex < 0 then 0 else newActualMinIndex;
        if newMin != minIndex {
          emitted := HandleValueChange(newMin, maxIndex);
        }
      } else {
        if minIndex == maxIndex {
          if newProposedIndex < maxIndex {
            var newMin := if newProposedIndex < 0 then 0 else newProposedIndex;
            emitted := HandleValueChange(newMin, maxIndex);
          } else if newProposedIndex > maxIndex {
            var newMax := if newProposedIndex < Top then newProposedIndex else Top;
            emitted := HandleValueChange(minIndex, newMax);
          }
        } else {
          var newActualMaxIndex := if newProposedIndex > minIndex then newProposedIndex else minIndex;
          var newMax := if newActualMaxIndex < Top then newActualMaxIndex else Top;
          if newMax != maxIndex {
            emitted := HandleValueChange(minIndex, newMax);
          }
        }
      }
    }


    /** A click (or Enter / Space) on the label of the level at `levelIndex`. */
    method HandleLabelClick(levelIndex: int) returns (emitted: Option<CefrRange>)
      requires Valid() && 0 <= levelIndex <= Top
      modifies this
      ensures Applied(ClickMove(levelIndex, old(Current())), old(Current()), emitted)
    {
      emitted := None;
      if Abs(levelIndex - minIndex) < Abs(levelIndex - maxIndex)
        || (Abs(levelIndex - minIndex) == Abs(levelIndex - maxIndex) && levelIndex < minIndex)
        || levelIndex < minIndex
      {
        if levelIndex <= maxIndex {
          emitted := HandleValueChange(levelIndex, maxIndex);
        }
      } else if levelIndex >= minIndex {
        emitted := HandleValueChange(minIndex, levelIndex);
      }
    }
  }
}
