/**
 * The countdown timer: a duration in whole seconds, shown as minutes and
 * seconds, counted down one second per tick while running.
 *
 * The one-second interval is left out: a tick is an explicit step.
 */
module Timer {
  import opened TextUtil

  /** The duration shown as whole minutes and remaining seconds. */
  function MinutesOf(duration: nat): nat { duration / 60 }
  function SecondsOf(duration: nat): nat { duration % 60 }

  /** The shown pair is the duration again, with seconds below a minute. */
  lemma ShownPairSpec(duration: nat)
    ensures MinutesOf(duration) * 60 + SecondsOf(duration) == duration
    ensures 0 <= SecondsOf(duration) < 60
  {
  }

  /** The interval's update of the duration: the last second stops at zero. */
  function NextSecond(duration: int): (r: nat)
    ensures duration >= 1 ==> r == duration - 1
  {
    if duration <= 1 then 0 else duration - 1
  }

  /** The duration after `n` ticks. */
  function Ticks(duration: nat, n: nat): nat
    decreases n
  {
    if n == 0 then duration else Ticks(NextSecond(duration), n - 1)
  }

  /** Counting down never goes below zero and takes one second per tick. */
  lemma {:induction false} TicksCountDown(duration: nat, n: nat)
    ensures Ticks(duration, n) == (if duration > n then duration - n else 0)
    decreases n
  {
    if n > 0 {
      TicksCountDown(NextSecond(duration), n - 1);
    }
  }

  /** The duration a start from 00:00 loads: the configured minutes, or five when none. */
  function RestartDuration(initialMinutes: nat): (r: nat)
    ensures r > 0
    ensures initialMinutes > 0 ==> r == initialMinutes * 60
    ensures initialMinutes == 0 ==> r == 5 * 60
  {
    (if initialMinutes > 0 then initialMinutes else 5) * 60
  }

  /** A number field's content as `parseInt` reads it: empty, a number, or not a number. */
  datatype NumberInput = Blank | Parsed(n: int) | Unparseable

  /** The duration after the minutes field changes while stopped. */
  function MinutesInput(duration: nat, input: NumberInput): (r: nat)
    ensures SecondsOf(r) == SecondsOf(duration)
    ensures input.Parsed? && 0 <= input.n <= 999 ==> MinutesOf(r) == input.n
    ensures input.Blank? ==> MinutesOf(r) == 0
    ensures !(input.Blank? || (input.Parsed? && 0 <= input.n <= 999)) ==> r == duration
  {
    match input
    case Parsed(m) => if 0 <= m <= 999 then m * 60 + SecondsOf(duration) else duration
    case Blank => 0 + SecondsOf(duration)
    case Unparseable => duration
  }

  /** The duration after the seconds field changes while stopped. */
  function SecondsInput(duration: nat, input: NumberInput): (r: nat)
    ensures MinutesOf(r) == MinutesOf(duration)
    ensures input.Parsed? && 0 <= input.n <= 59 ==> SecondsOf(r) == input.n
    ensures input.Blank? ==> SecondsOf(r) == 0
    ensures !(input.Blank? || (input.Parsed? && 0 <= input.n <= 59)) ==> r == duration
  {
    match input
    case Parsed(s) => if 0 <= s <= 59 then MinutesOf(duration) * 60 + s else duration
    case Blank => MinutesOf(duration) * 60 + 0
    case Unparseable => duration
  }

  /** Typing minutes and then seconds sets the duration to exactly that time, from any start. */
  lemma InputsCompose(duration: nat, m: int, s: int)
    requires 0 <= m <= 999 && 0 <= s <= 59
    ensures SecondsInput(MinutesInput(duration, Parsed(m)), Parsed(s)) == m * 60 + s
    ensures MinutesInput(SecondsInput(duration, Parsed(s)), Parsed(m)) == m * 60 + s
  {
  }

  /** `formatTime`: a value below ten gets one leading zero. */
  function FormatTime(time: nat): (r: string)
    ensures forall i :: 0 <= i < |r| ==> '0' <= r[i] <= '9'
  {
    if time < 10 then "0" + NatToString(time) else NatToString(time)
  }

  /** The rendering reads back as the value and is never shorter than two digits; below 100 it is exactly two. */
  lemma FormatTimeSpec(time: nat)
    ensures DecimalValue(FormatTime(time)) == time
    ensures |FormatTime(time)| >= 2
    ensures time < 100 ==> |FormatTime(time)| == 2
  {
    DecimalValueOfNatToString(time);
    if time < 10 {
      DecimalValueLeadingZero(NatToString(time));
    } else {
      assert NatToString(time) == NatToString(time / 10) + [DigitChar(time % 10)];
    }
  }

  class Countdown {
    const initialMinutes: nat
    var duration: nat
    var isActive: bool
    var minutes: nat
    var seconds: nat

    /** The shown minutes and seconds are those of the duration (the effect on `duration` has run). */
    ghost predicate Valid()
      reads this
    {
      minutes == MinutesOf(duration) && seconds == SecondsOf(duration)
    }

    /** The effect that re-derives the shown pair after each change of the duration. */
    method SyncDisplay()
      modifies this
      ensures duration == old(duration) && isActive == old(isActive) && Valid()
    {
      minutes := duration / 60;
      seconds := duration % 60;
    }

    /** Mounted (or re-configured) stopped, at the configured minutes. */
    constructor (initialMinutes: nat)
      ensures this.initialMinutes == initialMinutes
      ensures duration == initialMinutes * 60 && !isActive && Valid()
    {
      this.initialMinutes := initialMinutes;
      duration := initialMinutes * 60;
      isActive := false;
      minutes := initialMinutes;
      seconds := 0;
    }

    /** One second passes; the last one stops the timer. */
    method Tick()
      requires Valid()
      modifies this
      ensures duration == NextSecond(old(duration))
      ensures isActive == (old(isActive) && old(duration) > 1)
      ensures Valid()
    {
      if duration <= 1 {
        isActive := false;
        duration := 0;
      } else {
        duration := duration - 1;
      }
      SyncDisplay();
    }

    /** `handleStartPause`: pausing keeps the time; starting from 00:00 first reloads a full period. */
    method StartPause()
      requires Valid()
      modifies this
      ensures old(isActive) ==> !isActive && duration == old(duration)
      ensures !old(isActive) ==>
        (isActive && duration == (if old(duration) == 0 then RestartDuration(initialMinutes) else old(duration)))
      ensures Valid()
    {
      if isActive {
        isActive := false;
      } else {
        var currentTotalSeconds := minutes * 60 + seconds;
        if currentTotalSeconds == 0 {
          duration := RestartDuration(initialMinutes);
        } else {
          duration := currentTotalSeconds;
        }
        SyncDisplay();
        isActive := true;
      }
    }

    /** `handleReset`: stopped at the configured minutes. */
    method Reset()
      modifies this
      ensures !isActive && duration == initialMinutes * 60 && Valid()
    {
      isActive := false;
      duration := initialMinutes * 60;
      SyncDisplay();
    }

    /** The minutes field, which only a stopped timer honours. */
    method MinutesInputChange(input: NumberInput)
      requires Valid()
      modifies this
      ensures duration == (if old(isActive) then old(duration) else MinutesInput(old(duration), input))
      ensures isActive == old(isActive) && Valid()
    {
      if !isActive {
        match input {
          case Parsed(newMinutes) =>
            if 0 <= newMinutes <= 999 {
              duration := newMinutes * 60 + seconds;
            }
          case Blank =>
            duration := 0 + seconds;
          case Unparseable =>
        }
        SyncDisplay();
      }
    }

    /** The seconds field, which only a stopped timer honours. */
    method SecondsInputChange(input: NumberInput)
      requires Valid()
      modifies this
      ensures duration == (if old(isActive) then old(duration) else SecondsInput(old(duration), input))
      ensures isActive == old(isActive) && Valid()
    {
      if !isActive {
        match input {
          case Parsed(newSeconds) =>
            if 0 <= newSeconds <= 59 {
              duration := minutes * 60 + newSeconds;
            }
          case Blank =>
            duration := minutes * 60 + 0;
          case Unparseable =>
        }
        SyncDisplay();
      }
    }

    /** The text on the clock face. */
    function Display(): string
      reads this
    {
      FormatTime(minutes) + ":" + FormatTime(seconds)
    }
  }
}
