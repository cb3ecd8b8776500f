/**
 * The `renaming_operations` table of plugins/file_rename.py: a dictionary
 * from Telegram file id to the time its rename started, used to drop a
 * second event for the same file that arrives within ten seconds.
 *
 * Times are whole microseconds since an arbitrary epoch, as `datetime.now()`
 * gives them. The age of an entry is read through `timedelta.seconds`, which
 * is only the seconds part of the difference: it leaves out whole days and
 * is never negative, so it runs from 0 to 86399.
 */
module Operations {

  const MicrosPerSecond: int := 1000000

  const SecondsPerDay: int := 86400

  /** An event whose entry's age reads as fewer than this many seconds is dropped. */
  const Window: int := 10

  /** `timedelta(microseconds=delta).seconds` */
  function SecondsField(delta: int): (r: int)
    ensures 0 <= r < SecondsPerDay
  {
    (delta / MicrosPerSecond) % SecondsPerDay
  }

  /** An entry stamped `stamp` makes an event at `now` count as a recent duplicate. */
  predicate IsRecent(stamp: int, now: int) {
    SecondsField(now - stamp) < Window
  }

  class RenamingOperations {
    /** File id to the time its rename was admitted. */
    var stamps: map<string, int>

    /** `renaming_operations = {}` */
    constructor()
      ensures stamps == map[]
    {
      stamps := map[];
    }

    /** Line 153-156: the file is in the table and its entry is less than ten seconds old (as `.seconds` reads it). */
    predicate Recent(id: string, now: int)
      reads this
    {
      id in stamps && IsRecent(stamps[id], now)
    }

    /**
     * Lines 152-159: drop the event when it is a recent duplicate, leaving
     * the table alone; otherwise stamp the file with `now`, whether or not
     * it had an older entry.
     */
    method Admit(id: string, now: int) returns (admitted: bool)
      modifies this
      ensures admitted <==> !old(Recent(id, now))
      ensures admitted ==> stamps == old(stamps)[id := now]
      ensures !admitted ==> stamps == old(stamps)
    {
      if id in stamps {
        var elapsed := SecondsField(now - stamps[id]);
        if elapsed < Window {
          return false;
        }
      }
      stamps := stamps[id := now];
      return true;
    }

    /** `del renaming_operations[file_id]`: Python raises `KeyError` for a missing key, so the key must be there. */
    method Release(id: string)
      requires id in stamps
      modifies this
      ensures stamps == old(stamps) - {id}
    {
      stamps := stamps - {id};
    }
  }

  // ----- How `.seconds` reads an age -----

  /** Within the first day the field is the elapsed whole seconds. */
  lemma SecondsFieldSameDay(delta: int)
    requires 0 <= delta < SecondsPerDay * MicrosPerSecond
    ensures SecondsField(delta) == delta / MicrosPerSecond
  {
  }

  /** The field forgets whole days: an age and the same age plus any number of days read alike. */
  lemma SecondsFieldDaily(delta: int, days: int)
    ensures SecondsField(delta + days * SecondsPerDay * MicrosPerSecond) == SecondsField(delta)
  {
    var q := delta / MicrosPerSecond;
    assert (delta + days * SecondsPerDay * MicrosPerSecond) / MicrosPerSecond == q + days * SecondsPerDay;
    assert (q + days * SecondsPerDay) % SecondsPerDay == q % SecondsPerDay;
  }

  /** A stamp up to a second in the future (a clock set back) reads as 86399 seconds old, so it is not recent. */
  lemma SecondsFieldJustBefore(delta: int)
    requires -MicrosPerSecond <= delta < 0
    ensures SecondsField(delta) == SecondsPerDay - 1
  {
    assert delta / MicrosPerSecond == -1;
  }

  /** A second event within ten seconds of the stamp, or a whole number of days and under ten seconds later, is dropped. */
  lemma DroppedAfterDays(stamp: int, now: int, days: int)
    requires days >= 0
    requires 0 <= now - stamp - days * SecondsPerDay * MicrosPerSecond < Window * MicrosPerSecond
    ensures IsRecent(stamp, now)
  {
    var delta := now - stamp - days * SecondsPerDay * MicrosPerSecond;
    SecondsFieldDaily(delta, days);
    SecondsFieldSameDay(delta);
  }

  /** An event between ten seconds and a day after the stamp is admitted. */
  lemma AdmittedLater(stamp: int, now: int)
    requires Window * MicrosPerSecond <= now - stamp < SecondsPerDay * MicrosPerSecond
    ensures !IsRecent(stamp, now)
  {
    SecondsFieldSameDay(now - stamp);
  }
}
