/**
 * `MoodCalendar`: one emoji per calendar date, taken from the last entry written that day, laid
 * out as a Sunday-first month grid. Today's date and the conversion of an entry's timestamp to a
 * local date (which reads the system time zone) are parameters.
 */
module MoodCalendar {
  import opened Diary

  /** `java.time.LocalDate`. */
  datatype LocalDate = LocalDate(year: int, month: int, day: int)

  /** `moodToEmoji`: the four moods of the form, everything else shows nothing. */
  function MoodToEmoji(mood: string): (r: string)
    ensures r != "" <==> mood in {"Senang", "Cemas", "Sedih", "Marah"}
  {
    match mood
    case "Senang" => "😊"
    case "Cemas" => "😟"
    case "Sedih" => "😢"
    case "Marah" => "😡"
    case _ => ""
  }

  /**
   * `entries.groupBy { date }.mapValues { moodToEmoji(it.last().mood) }`: grouping keeps list
   * order inside each group, so each date maps to the emoji of its last entry. Built here one
   * entry at a time, a later entry of the same date overwriting an earlier one.
   */
  function MoodMap(entries: seq<DiaryEntry>, toDate: int -> LocalDate): map<LocalDate, string> {
    if entries == [] then map[]
    else
      var last := entries[|entries| - 1];
      MoodMap(entries[..|entries| - 1], toDate)[toDate(last.creationTimestamp) := MoodToEmoji(last.mood)]
  }

  /** The date an entry falls on. */
  function DateOf(entries: seq<DiaryEntry>, i: int, toDate: int -> LocalDate): LocalDate
    requires 0 <= i < |entries|
  {
    toDate(entries[i].creationTimestamp)
  }

  /**
   * A date is a key exactly when some entry falls on it, and its emoji is that of an entry on
   * that date which no later entry shares the date with.
   */
  lemma {:induction false} MoodMapLastEntry(entries: seq<DiaryEntry>, toDate: int -> LocalDate, d: LocalDate)
    ensures d in MoodMap(entries, toDate) <==> exists i :: 0 <= i < |entries| && DateOf(entries, i, toDate) == d
    ensures d in MoodMap(entries, toDate) ==>
      exists i :: 0 <= i < |entries| && DateOf(entries, i, toDate) == d &&
        MoodMap(entries, toDate)[d] == MoodToEmoji(entries[i].mood) &&
        forall j :: i < j < |entries| ==> DateOf(entries, j, toDate) != d
  {
    if entries != [] {
      var n := |entries| - 1;
      var init := entries[..n];
      MoodMapLastEntry(init, toDate, d);
      forall i | 0 <= i < n ensures DateOf(init, i, toDate) == DateOf(entries, i, toDate) {
      }
      if DateOf(entries, n, toDate) == d {
        assert MoodMap(entries, toDate)[d] == MoodToEmoji(entries[n].mood);
      } else if d in MoodMap(init, toDate) {
        var i :| 0 <= i < n && DateOf(init, i, toDate) == d &&
          MoodMap(init, toDate)[d] == MoodToEmoji(init[i].mood) &&
          forall j :: i < j < n ==> DateOf(init, j, toDate) != d;
        assert DateOf(entries, i, toDate) == d;
      }
    }
  }

  /** A day cell shows its date's emoji, or nothing for a date without entries. */
  function CellEmoji(moodMap: map<LocalDate, string>, date: LocalDate): string {
    if date in moodMap then moodMap[date] else ""
  }

  /** `Year.isLeap`: every fourth year, except centuries not divisible by 400. */
  predicate IsLeap(year: int) {
    year % 4 == 0 && (year % 100 != 0 || year % 400 == 0)
  }

  /** `YearMonth.lengthOfMonth`. */
  function LengthOfMonth(year: int, month: int): (r: int)
    ensures 28 <= r <= 31
    ensures r == 29 <==> month == 2 && IsLeap(year)
  {
    if month == 2 then (if IsLeap(year) then 29 else 28)
    else if month == 4 || month == 6 || month == 9 || month == 11 then 30
    else 31
  }

  /** Leap days in the years before `year`, counted from year 0, the way `toEpochDay` counts them. */
  function LeapDaysBefore(year: int): int {
    if year >= 0 then (year + 3) / 4 - (year + 99) / 100 + (year + 399) / 400
    else -((-year) / 4 - (-year) / 100 + (-year) / 400)
  }

  /** `LocalDate.toEpochDay`: days since 1970-01-01. */
  function EpochDay(d: LocalDate): int {
    var total := 365 * d.year + LeapDaysBefore(d.year) + (367 * d.month - 362) / 12 + d.day - 1;
    var adjusted := if d.month > 2 then (if IsLeap(d.year) then total - 1 else total - 2) else total;
    adjusted - 719528
  }

  /** `getDayOfWeek().value`: 1 for Monday up to 7 for Sunday; 1970-01-01 was a Thursday. */
  function DayOfWeek(d: LocalDate): (r: int)
    ensures 1 <= r <= 7
  {
    (EpochDay(d) + 3) % 7 + 1
  }

  /** The epoch itself is day 0, a Thursday. */
  lemma EpochIsThursday()
    ensures EpochDay(LocalDate(1970, 1, 1)) == 0
    ensures DayOfWeek(LocalDate(1970, 1, 1)) == 4
  {
  }

  /** Day numbers and month lengths agree: the month after a month starts that many days later. */
  lemma {:induction false} MonthLengthsAgree(year: int, month: int)
    requires 1 <= month < 12
    ensures EpochDay(LocalDate(year, month + 1, 1)) == EpochDay(LocalDate(year, month, 1)) + LengthOfMonth(year, month)
  {
    if month == 1 { } else if month == 2 { } else if month == 3 { } else if month == 4 { }
    else if month == 5 { } else if month == 6 { } else if month == 7 { } else if month == 8 { }
    else if month == 9 { } else if month == 10 { } else { }
  }

  lemma DivMod(x: int, n: int, q: int, r: int)
    requires n > 0 && q == x / n && r == x % n
    ensures x == n * q + r && 0 <= r < n
  {
  }

  /** Floor division and remainder are the unique quotient and remainder. */
  lemma DivUnique(x: int, n: int, q: int, r: int)
    requires n > 0 && x == n * q + r && 0 <= r < n
    ensures x / n == q && x % n == r
  {
    var q', r' := x / n, x % n;
    DivMod(x, n, q', r');
    var d := q - q';
    assert n * q == n * q' + n * d;
    MulAtLeast(n, d);
    MulAtLeast(n, -d);
  }

  lemma MulAtLeast(n: int, d: int)
    ensures n > 0 && d >= 1 ==> n * d >= n
  {
    if n > 0 && d >= 1 {
      assert n * d == n * (d - 1) + n;
      assert n * (d - 1) >= 0;
    }
  }

  /**
   * One term of `LeapDaysBefore` steps up by one from `year` to `year + 1` exactly when `year` is
   * a multiple of the term's divisor.
   */
  lemma LeapTermStep(year: int, n: int)
    requires n > 0
    ensures year >= 0 ==> (year + n) / n - (year + n - 1) / n == if year % n == 0 then 1 else 0
    ensures year < -1 ==> (-year) / n - (-year - 1) / n == if year % n == 0 then 1 else 0
  {
    var y := if year >= 0 then year else -year;
    var q, r := y / n, y % n;
    DivMod(y, n, q, r);
    if year >= 0 {
      DivUnique(year + n, n, q + 1, r);
      if r == 0 { DivUnique(year + n - 1, n, q, n - 1); } else { DivUnique(year + n - 1, n, q + 1, r - 1); }
    } else if r == 0 {
      DivUnique(y - 1, n, q - 1, n - 1);
      DivUnique(year, n, -q, 0);
    } else {
      DivUnique(y - 1, n, q, r - 1);
      DivUnique(year, n, -q - 1, n - r);
    }
  }

  /** A multiple of `n * k` is a multiple of `n`. */
  lemma MultipleOfMultiple(year: int, n: int, k: int)
    requires n > 0 && k > 0
    ensures year % (n * k) == 0 ==> year % n == 0
  {
    if year % (n * k) == 0 {
      var q := year / (n * k);
      DivMod(year, n * k, q, 0);
      assert year == n * (k * q);
      DivUnique(year, n, k * q, 0);
    }
  }

  /** Crossing into the next year adds a leap day exactly when the year left behind was leap. */
  lemma LeapDaysStep(year: int)
    ensures LeapDaysBefore(year + 1) == LeapDaysBefore(year) + if IsLeap(year) then 1 else 0
  {
    MultipleOfMultiple(year, 4, 25);
    MultipleOfMultiple(year, 100, 4);
    LeapTermStep(year, 4);
    LeapTermStep(year, 100);
    LeapTermStep(year, 400);
  }

  /** The same across a year boundary: January follows December's 31 days. */
  lemma YearBoundary(year: int)
    ensures EpochDay(LocalDate(year + 1, 1, 1)) == EpochDay(LocalDate(year, 12, 1)) + LengthOfMonth(year, 12)
  {
    LeapDaysStep(year);
  }

  /** `firstDay.dayOfWeek.value % 7`: how many blank cells precede day 1 in a Sunday-first week. */
  function Offset(firstDay: LocalDate): (r: int)
    ensures 0 <= r <= 6
    ensures r == 0 <==> DayOfWeek(firstDay) == 7
    ensures DayOfWeek(firstDay) == 1 ==> r == 1
  {
    DayOfWeek(firstDay) % 7
  }

  /** A grid cell: a spacer, or a day number with its emoji. */
  datatype Cell = Blank | Day(number: int, emoji: string)

  /** The cells of the current month's grid, in the order the grid places them. */
  function Grid(today: LocalDate, moodMap: map<LocalDate, string>): seq<Cell> {
    var offset := Offset(LocalDate(today.year, today.month, 1));
    var daysInMonth := LengthOfMonth(today.year, today.month);
    seq(offset, _ => Blank) +
    seq(daysInMonth, index => Day(index + 1, CellEmoji(moodMap, LocalDate(today.year, today.month, index + 1))))
  }

  lemma ModShift(x: int, k: int)
    ensures ((x % 7) + k) % 7 == (x + k) % 7
  {
    var q := x / 7;
    assert x == 7 * q + x % 7;
    assert (x % 7) + k == (x + k) - 7 * q;
  }

  /**
   * The grid holds `offset` blanks, then one cell per day of the month numbered from 1, each
   * with its date's emoji; and with seven columns every day lands in the column of its weekday,
   * Sunday first.
   */
  lemma GridLayout(today: LocalDate, moodMap: map<LocalDate, string>)
    ensures var offset := Offset(LocalDate(today.year, today.month, 1));
      var grid := Grid(today, moodMap);
      && |grid| == offset + LengthOfMonth(today.year, today.month)
      && (forall i :: 0 <= i < offset ==> grid[i] == Blank)
      && forall k :: 1 <= k <= LengthOfMonth(today.year, today.month) ==>
           && grid[offset + k - 1] == Day(k, CellEmoji(moodMap, LocalDate(today.year, today.month, k)))
           && (offset + k - 1) % 7 == DayOfWeek(LocalDate(today.year, today.month, k)) % 7
  {
    var first := LocalDate(today.year, today.month, 1);
    var offset := Offset(first);
    forall k | 1 <= k <= LengthOfMonth(today.year, today.month)
      ensures (offset + k - 1) % 7 == DayOfWeek(LocalDate(today.year, today.month, k)) % 7
    {
      var e := EpochDay(first);
      assert EpochDay(LocalDate(today.year, today.month, k)) == e + k - 1;
      ModShift(e + 3, 1);
      ModShift(e + 4, k - 1);
      ModShift((e + 3) % 7 + 1, k - 1);
      ModShift(e + k + 2, 1);
    }
  }
}
