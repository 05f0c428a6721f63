/**
 * A timed access session. Timestamps are whole minutes on an integer time
 * line; the identifier and the start time are given at construction.
 */
module Sessions {
  import opened Wrappers

  /** Kotlin's `Long`, the type of the duration argument. */
  newtype Long = x: int | -0x8000_0000_0000_0000 <= x < 0x8000_0000_0000_0000

  /** The end time after extending by `durationMinutes`: counted from the current end, or from the start if there is none yet. */
  function ExtendedEnd(endTime: Option<int>, startTime: int, durationMinutes: int): (r: int)
    ensures endTime.Some? ==> r == endTime.value + durationMinutes
    ensures endTime.None? ==> r == startTime + durationMinutes
  {
    endTime.GetOr(startTime) + durationMinutes
  }

  /** A non-negative extension never moves the end time backward, and never before the start. */
  lemma ExtendIsMonotonic(endTime: Option<int>, startTime: int, durationMinutes: int)
    requires durationMinutes >= 0
    ensures endTime.Some? ==> ExtendedEnd(endTime, startTime, durationMinutes) >= endTime.value
    ensures endTime.None? ==> ExtendedEnd(endTime, startTime, durationMinutes) >= startTime
    ensures (endTime.Some? ==> endTime.value >= startTime) ==> ExtendedEnd(endTime, startTime, durationMinutes) >= startTime
  {
  }

  /** A negative extension is not rejected: it moves the end time backward, even before the start. */
  lemma NegativeExtendMovesBackward(endTime: Option<int>, startTime: int, durationMinutes: int)
    requires durationMinutes < 0
    ensures ExtendedEnd(endTime, startTime, durationMinutes) < endTime.GetOr(startTime)
    ensures endTime.None? ==> ExtendedEnd(endTime, startTime, durationMinutes) < startTime
  {
  }

  /** Two extensions in a row are one extension by the sum of the durations. */
  lemma ExtendTwiceIsExtendBySum(endTime: Option<int>, startTime: int, d1: int, d2: int)
    ensures ExtendedEnd(Some(ExtendedEnd(endTime, startTime, d1)), startTime, d2)
         == ExtendedEnd(endTime, startTime, d1 + d2)
  {
  }

  class Session {
    const sessionID: string
    const startTime: int
    var endTime: Option<int>

    /** The end time, once set, is not before the start time: kept by every non-negative extension. */
    ghost predicate Valid()
      reads this
    {
      endTime.Some? ==> startTime <= endTime.value
    }

    constructor (sessionID: string, startTime: int)
      ensures this.sessionID == sessionID && this.startTime == startTime
      ensures endTime == None
      ensures Valid()
    {
      this.sessionID := sessionID;
      this.startTime := startTime;
      endTime := None;
    }

    /** Sets the end time to the current end (or the start) plus `durationMinutes`. */
    method Extend(durationMinutes: Long)
      modifies this
      ensures endTime == Some(ExtendedEnd(old(endTime), startTime, durationMinutes as int))
      ensures durationMinutes >= 0 && old(Valid()) ==> Valid()
    {
      endTime := Some(endTime.GetOr(startTime) + durationMinutes as int);
    }
  }

  /**
   * A fresh session has no end time; extending it by 60 and then by 30
   * minutes gives ends 60 and 90 minutes after its start.
   */
  method SessionScenario(id: string, start: int) returns (initial: Option<int>, first: Option<int>, second: Option<int>)
    ensures initial == None
    ensures first == Some(start + 60)
    ensures second == Some(start + 90)
  {
    var session := new Session(id, start);
    initial := session.endTime;
    session.Extend(60);
    first := session.endTime;
    session.Extend(30);
    second := session.endTime;
  }
}
