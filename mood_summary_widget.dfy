/**
 * `MoodSummaryWidget`: the dominant mood with its count and share of all entries, and the
 * breakdown of the moods that occur. The label and emoji tables are the history screen's.
 */
module MoodSummary {
  import opened Wrappers
  import LinkedMap
  import History
  import Diary

  /** `maxByOrNull { it.value }?.key ?: "neutral"`. */
  function DominantMood(counts: LinkedMap.Entries): (r: string)
    ensures counts == [] ==> r == "neutral"
    ensures counts != [] ==> exists i :: (0 <= i < |counts| && counts[i].0 == r &&
                                         (forall j :: 0 <= j < |counts| ==> counts[j].1 <= counts[i].1) &&
                                         (forall j :: 0 <= j < i ==> counts[j].1 < counts[i].1))
  {
    LinkedMap.MaxKey(counts).GetOr("neutral")
  }

  /** `moodCounts[dominantMood] ?: 0`. */
  function DominantMoodCount(counts: LinkedMap.Entries): int {
    LinkedMap.Get(counts, DominantMood(counts)).GetOr(0)
  }

  /**
   * The dominant count is the largest count in the map, and 0 for an empty map; with distinct
   * keys the dominant mood is present whenever the map is not empty.
   */
  lemma DominantMoodCountIsMax(counts: LinkedMap.Entries)
    requires LinkedMap.DistinctKeys(counts)
    ensures counts == [] ==> DominantMoodCount(counts) == 0
    ensures counts != [] ==> LinkedMap.HasKey(counts, DominantMood(counts))
    ensures forall j :: 0 <= j < |counts| ==> counts[j].1 <= DominantMoodCount(counts)
    ensures counts != [] ==> exists j :: 0 <= j < |counts| && counts[j].1 == DominantMoodCount(counts)
  {
    if counts != [] {
      var i :| 0 <= i < |counts| && counts[i].0 == DominantMood(counts) &&
        (forall j :: 0 <= j < |counts| ==> counts[j].1 <= counts[i].1);
      LinkedMap.GetAt(counts, i);
    }
  }

  /**
   * The percentage of the dominant mood: 0 unless there are entries, otherwise the share of
   * `count` in `total`, times 100, truncated toward zero as `toInt` does.
   */
  function Percentage(count: int, total: int): (r: int)
    ensures total <= 0 ==> r == 0
    ensures total > 0 && count >= 0 ==> r * total <= count * 100 < (r + 1) * total
  {
    if total <= 0 then 0
    else if count >= 0 then count * 100 / total
    else -((-count * 100) / total)
  }

  /** `moodCounts.filter { it.value > 0 }`: the moods that occur, in map order. */
  function Breakdown(counts: LinkedMap.Entries): (r: LinkedMap.Entries)
    ensures forall e :: e in r <==> e in counts && e.1 > 0
  {
    LinkedMap.FilterPositive(counts)
  }

  /** The breakdown keeps map order: filtering a map split in two filters each half. */
  lemma BreakdownInOrder(a: LinkedMap.Entries, b: LinkedMap.Entries)
    ensures Breakdown(a + b) == Breakdown(a) + Breakdown(b)
  {
    LinkedMap.FilterPositiveConcat(a, b);
  }

  /** What the widget shows. */
  datatype SummaryView =
    | NoEntries
    | Summary(mood: string, emoji: string, moodLabel: string, percentage: int, breakdown: LinkedMap.Entries)

  /** `if (totalEntries > 0)` the dominant mood and its breakdown, otherwise the empty message. */
  function Widget(counts: LinkedMap.Entries, totalEntries: int): (r: SummaryView)
    ensures r.NoEntries? <==> totalEntries <= 0
    ensures r.Summary? ==> r.mood == DominantMood(counts) && r.emoji == History.MoodEmoji(r.mood) &&
                           r.moodLabel == History.MoodLabel(r.mood)
    ensures r.Summary? ==> r.percentage == Percentage(DominantMoodCount(counts), totalEntries) &&
                           r.breakdown == Breakdown(counts)
  {
    if totalEntries > 0 then
      var mood := DominantMood(counts);
      Summary(mood, History.MoodEmoji(mood), History.MoodLabel(mood),
              Percentage(DominantMoodCount(counts), totalEntries), Breakdown(counts))
    else NoEntries
  }

  /** A share of a part of the whole lies between 0 and 100 percent. */
  lemma PercentageOfPart(count: int, total: int)
    requires 0 <= count <= total
    ensures 0 <= Percentage(count, total) <= 100
  {
    if total > 0 {
      var p := Percentage(count, total);
      assert p * total == 100 * total + (p - 100) * total;
      MulPositive(p - 100, total);
      MulPositive(-(p + 1), total);
    }
  }

  lemma MulPositive(x: int, y: int)
    ensures x > 0 && y > 0 ==> x * y > 0
  {
  }

  /**
   * When every count is at least one and they add up to `total`, the dominant count is at least
   * one and its share lies between 0 and 100 percent.
   */
  lemma ShareOfPositiveCounts(counts: LinkedMap.Entries, total: int)
    requires LinkedMap.DistinctKeys(counts) && counts != []
    requires forall i :: 0 <= i < |counts| ==> counts[i].1 >= 1
    requires LinkedMap.SumValues(counts) == total
    ensures 1 <= DominantMoodCount(counts) <= total
    ensures 0 <= Percentage(DominantMoodCount(counts), total) <= 100
  {
    DominantMoodCountIsMax(counts);
    SumBound(counts);
    var c := DominantMoodCount(counts);
    assert counts[0].1 <= c;
    var j :| 0 <= j < |counts| && counts[j].1 == c;
    PercentageOfPart(c, total);
  }

  /**
   * Fed with the diary's tally and its entry count, a non-empty diary shows a mood that occurs
   * most often (at least once), a share between 0 and 100 percent, and every counted mood in the breakdown;
   * an unknown dominant mood shows as "Netral" 😐.
   */
  lemma WidgetOfTally(moods: seq<string>)
    requires moods != []
    ensures var r := Widget(Diary.Tally(moods), |moods|);
      && r.Summary?
      && 0 <= r.percentage <= 100
      && 1 <= DominantMoodCount(Diary.Tally(moods))
      && r.breakdown == Diary.Tally(moods)
      && (r.mood !in History.KnownMoods ==> r.moodLabel == "Netral" && r.emoji == "😐")
  {
    var counts := Diary.Tally(moods);
    Diary.TallySum(moods);
    Diary.TallyPositive(moods);
    LinkedMap.FilterPositiveAll(counts);
    assert counts != [] by {
      Diary.TallyCounts(moods, moods[0]);
    }
    ShareOfPositiveCounts(counts, |moods|);
  }

  /** Counts that are all positive each stay within their sum. */
  lemma {:induction false} SumBound(m: LinkedMap.Entries)
    requires forall i :: 0 <= i < |m| ==> m[i].1 >= 1
    ensures forall i :: 0 <= i < |m| ==> m[i].1 <= LinkedMap.SumValues(m)
    ensures LinkedMap.SumValues(m) >= 0
  {
    if m != [] {
      SumBound(m[1..]);
      assert forall i :: 1 <= i < |m| ==> m[i] == m[1..][i - 1];
    }
  }
}
