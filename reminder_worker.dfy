/**
 * `scheduleDailyReminder` and `cancelDailyReminder`: the next occurrence of a time of day, the
 * whole-minute delay until it, and the unique periodic work registered under one name.
 * "Now" is a parameter; WorkManager is reduced to its table of unique work.
 */
module Reminder {

  const NanosPerSecond: int := 1_000_000_000
  const NanosPerMinute: int := 60_000_000_000
  const NanosPerDay: int := 86_400_000_000_000
  const MinutesPerDay: int := 1440

  /** The unique-work name shared by scheduling and cancelling. */
  const WorkName: string := "daily_reminder"

  /** `java.time.LocalTime` at minute precision, which is all `scheduleDailyReminder` reads of it. */
  datatype LocalTime = LocalTime(hour: int, minute: int) {
    predicate Valid() {
      0 <= hour < 24 && 0 <= minute < 60
    }
  }

  /** `java.time.LocalDateTime`: a day number and the nanoseconds elapsed in that day. */
  datatype LocalDateTime = LocalDateTime(day: int, nanoOfDay: int) {
    predicate Valid() {
      0 <= nanoOfDay < NanosPerDay
    }
  }

  /** Nanoseconds since day 0 at midnight, the time line `Duration.between` measures on. */
  function Instant(t: LocalDateTime): int {
    t.day * NanosPerDay + t.nanoOfDay
  }

  /** `isBefore`: the date first, then the time of day. */
  predicate IsBefore(x: LocalDateTime, y: LocalDateTime) {
    x.day < y.day || (x.day == y.day && x.nanoOfDay < y.nanoOfDay)
  }

  /** On valid date-times `isBefore` is the order of the time line. */
  lemma IsBeforeInstant(x: LocalDateTime, y: LocalDateTime)
    requires x.Valid() && y.Valid()
    ensures IsBefore(x, y) <==> Instant(x) < Instant(y)
  {
    if x.day < y.day {
      assert Instant(x) < (x.day + 1) * NanosPerDay <= Instant(y);
    } else if x.day > y.day {
      assert Instant(y) < (y.day + 1) * NanosPerDay <= Instant(x);
    }
  }

  /** `withHour(h).withMinute(m).withSecond(0).withNano(0)`: the same day at `time`. */
  function At(d: LocalDateTime, time: LocalTime): (r: LocalDateTime)
    requires time.Valid()
    ensures r.Valid() && r.day == d.day
  {
    LocalDateTime(d.day, time.hour * 3600 * NanosPerSecond + time.minute * NanosPerMinute)
  }

  function PlusDays(t: LocalDateTime, days: int): LocalDateTime {
    LocalDateTime(t.day + days, t.nanoOfDay)
  }

  /**
   * `Duration.between(from, to).toMinutes()`. The duration keeps whole seconds rounded down and a
   * non-negative nanosecond part; `toMinutes` divides the seconds by 60 truncating toward zero.
   */
  function MinutesBetween(from: LocalDateTime, to: LocalDateTime): int {
    var seconds := (Instant(to) - Instant(from)) / NanosPerSecond;
    if seconds >= 0 then seconds / 60 else -((-seconds) / 60)
  }

  /** The candidate for today, moved one day on when it is already past. */
  function NextOccurrence(now: LocalDateTime, time: LocalTime): LocalDateTime
    requires time.Valid()
  {
    var candidate := At(now, time);
    if IsBefore(candidate, now) then PlusDays(candidate, 1) else candidate
  }

  /**
   * The next occurrence is the earliest instant at or after `now` whose time of day is `time`:
   * it is on today's date when today's occurrence is not yet past (an equal time counts as not
   * past), otherwise on tomorrow's, and it lies less than one day ahead.
   */
  lemma NextOccurrenceIsEarliest(now: LocalDateTime, time: LocalTime)
    requires now.Valid() && time.Valid()
    ensures var next := NextOccurrence(now, time);
      && next.Valid()
      && next.nanoOfDay == At(now, time).nanoOfDay
      && (next.day == now.day <==> !IsBefore(At(now, time), now))
      && (next.day == now.day + 1 <==> IsBefore(At(now, time), now))
      && Instant(now) <= Instant(next) < Instant(now) + NanosPerDay
      && forall d: int :: Instant(now) <= Instant(At(LocalDateTime(d, 0), time)) ==>
           Instant(next) <= Instant(At(LocalDateTime(d, 0), time))
  {
    var candidate := At(now, time);
    IsBeforeInstant(candidate, now);
    forall d: int | Instant(now) <= Instant(At(LocalDateTime(d, 0), time))
      ensures Instant(NextOccurrence(now, time)) <= Instant(At(LocalDateTime(d, 0), time))
    {
      var other := At(LocalDateTime(d, 0), time);
      assert Instant(other) - Instant(candidate) == (d - now.day) * NanosPerDay;
      if IsBefore(candidate, now) {
        assert now.day < d;
      } else {
        assert now.day <= d;
      }
    }
  }

  /** Less than a day ahead is between 0 and 1439 whole minutes. */
  lemma {:induction false} DelayBounded(now: LocalDateTime, next: LocalDateTime)
    requires Instant(now) <= Instant(next) < Instant(now) + NanosPerDay
    ensures 0 <= MinutesBetween(now, next) < MinutesPerDay
    ensures MinutesBetween(now, next) * NanosPerMinute <= Instant(next) - Instant(now)
    ensures Instant(next) - Instant(now) < (MinutesBetween(now, next) + 1) * NanosPerMinute
  {
    var diff := Instant(next) - Instant(now);
    var seconds := diff / NanosPerSecond;
    assert seconds * NanosPerSecond <= diff < (seconds + 1) * NanosPerSecond;
    assert 0 <= seconds < 86400;
    var minutes := seconds / 60;
    assert minutes * 60 <= seconds < (minutes + 1) * 60;
  }

  /**
   * The computation at the head of `scheduleDailyReminder`: `next` starts as today's occurrence
   * and is moved forward a day when it is before `now`; the delay is whole minutes until it.
   */
  method NextReminder(now: LocalDateTime, time: LocalTime) returns (next: LocalDateTime, delayMinutes: int)
    requires now.Valid() && time.Valid()
    ensures next == NextOccurrence(now, time)
    ensures Instant(now) <= Instant(next) < Instant(now) + NanosPerDay
    ensures delayMinutes == MinutesBetween(now, next)
    ensures 0 <= delayMinutes < MinutesPerDay
  {
    next := At(now, time);
    if IsBefore(next, now) {
      next := PlusDays(next, 1);
    }
    NextOccurrenceIsEarliest(now, time);
    delayMinutes := MinutesBetween(now, next);
    DelayBounded(now, next);
  }

  /** A `PeriodicWorkRequest`: the repeat interval in days and the initial delay in minutes. */
  datatype WorkRequest = PeriodicWork(repeatDays: int, initialDelayMinutes: int)

  /** The unique work WorkManager holds, by name. */
  class WorkManager {
    var work: map<string, WorkRequest>

    constructor()
      ensures work == map[]
    {
      work := map[];
    }

    /** `enqueueUniquePeriodicWork` with policy UPDATE: the request replaces any under the name. */
    method EnqueueUniquePeriodicWork(name: string, request: WorkRequest)
      modifies this
      ensures work == old(work)[name := request]
    {
      work := work[name := request];
    }

    /** `cancelUniqueWork`: nothing remains under the name. */
    method CancelUniqueWork(name: string)
      modifies this
      ensures work == old(work) - {name}
    {
      work := work - {name};
    }
  }

  /**
   * `scheduleDailyReminder`: one request repeating every day, first after the delay until the
   * next occurrence, stored under `daily_reminder` in place of any earlier one; other work is kept.
   */
  method ScheduleDailyReminder(manager: WorkManager, now: LocalDateTime, time: LocalTime)
    requires now.Valid() && time.Valid()
    modifies manager
    ensures WorkName in manager.work
    ensures manager.work[WorkName].repeatDays == 1
    ensures manager.work[WorkName].initialDelayMinutes == MinutesBetween(now, NextOccurrence(now, time))
    ensures 0 <= manager.work[WorkName].initialDelayMinutes < MinutesPerDay
    ensures forall name :: name != WorkName ==>
      (name in manager.work <==> name in old(manager.work)) &&
      (name in manager.work ==> manager.work[name] == old(manager.work)[name])
  {
    var _, delayMinutes := NextReminder(now, time);
    var request := PeriodicWork(1, delayMinutes);
    manager.EnqueueUniquePeriodicWork(WorkName, request);
  }

  /** `cancelDailyReminder`: removes exactly the work `scheduleDailyReminder` registers. */
  method CancelDailyReminder(manager: WorkManager)
    modifies manager
    ensures WorkName !in manager.work
    ensures forall name :: name != WorkName ==>
      (name in manager.work <==> name in old(manager.work)) &&
      (name in manager.work ==> manager.work[name] == old(manager.work)[name])
  {
    manager.CancelUniqueWork(WorkName);
  }
}
