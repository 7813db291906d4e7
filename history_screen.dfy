/**
 * The history screen: entries newest first, the mood analysis (distribution, insight, dominant
 * mood and the recent trend), and the mood label and emoji tables, which the summary widget
 * repeats verbatim.
 */
module History {
  import opened Wrappers
  import LinkedMap
  import opened Diary

  /** The mood keys the tables know, in table order. */
  const KnownMoods: seq<string> := ["very_happy", "happy", "neutral", "sad", "very_sad"]

  /** `getMoodEmoji`: unknown moods fall back to the neutral face. */
  function MoodEmoji(mood: string): (r: string)
    ensures mood !in KnownMoods ==> r == "😐"
    ensures mood == "neutral" ==> r == "😐"
  {
    match mood
    case "very_happy" => "😄"
    case "happy" => "😊"
    case "neutral" => "😐"
    case "sad" => "😢"
    case "very_sad" => "😭"
    case _ => "😐"
  }

  /** `getMoodLabel`: unknown moods fall back to "Netral". */
  function MoodLabel(mood: string): (r: string)
    ensures mood !in KnownMoods ==> r == "Netral"
    ensures mood == "neutral" ==> r == "Netral"
  {
    match mood
    case "very_happy" => "Sangat Bahagia"
    case "happy" => "Bahagia"
    case "neutral" => "Netral"
    case "sad" => "Sedih"
    case "very_sad" => "Sangat Sedih"
    case _ => "Netral"
  }

  /**
   * Both tables are total, tell the five known moods apart, and show any other key exactly as
   * they show "neutral".
   */
  lemma MoodTables(mood: string)
    ensures mood !in KnownMoods ==> MoodLabel(mood) == MoodLabel("neutral") && MoodEmoji(mood) == MoodEmoji("neutral")
    ensures forall i, j :: 0 <= i < j < |KnownMoods| ==>
      MoodLabel(KnownMoods[i]) != MoodLabel(KnownMoods[j]) && MoodEmoji(KnownMoods[i]) != MoodEmoji(KnownMoods[j])
  {
    var labels := ["Sangat Bahagia", "Bahagia", "Netral", "Sedih", "Sangat Sedih"];
    var emojis := ["😄", "😊", "😐", "😢", "😭"];
    assert forall i :: 0 <= i < 5 ==> MoodLabel(KnownMoods[i]) == labels[i] && MoodEmoji(KnownMoods[i]) == emojis[i];
    assert forall i, j :: 0 <= i < j < 5 ==> labels[i] != labels[j] && emojis[i] != emojis[j];
  }

  /** The outcome of the `when` in `MoodInsightsCard`. */
  datatype Insight = PositiveDominates | NegativeDominates | Balanced

  /** `very_happy + happy`, a missing key counting 0. */
  function PositiveCount(counts: LinkedMap.Entries): int {
    LinkedMap.Get(counts, "very_happy").GetOr(0) + LinkedMap.Get(counts, "happy").GetOr(0)
  }

  /** `sad + very_sad`, a missing key counting 0. */
  function NegativeCount(counts: LinkedMap.Entries): int {
    LinkedMap.Get(counts, "sad").GetOr(0) + LinkedMap.Get(counts, "very_sad").GetOr(0)
  }

  /** Exactly one branch applies; ties, the all-zero case included, are balanced. */
  function ClassifyInsight(counts: LinkedMap.Entries): (r: Insight)
    ensures r == PositiveDominates <==> PositiveCount(counts) > NegativeCount(counts)
    ensures r == NegativeDominates <==> NegativeCount(counts) > PositiveCount(counts)
    ensures r == Balanced <==> PositiveCount(counts) == NegativeCount(counts)
  {
    if PositiveCount(counts) > NegativeCount(counts) then PositiveDominates
    else if NegativeCount(counts) > PositiveCount(counts) then NegativeDominates
    else Balanced
  }

  /** Changing the count of "neutral" or of any key outside the four never changes the insight. */
  lemma InsightIgnoresOtherMoods(counts: LinkedMap.Entries, k: string, v: int)
    requires LinkedMap.DistinctKeys(counts)
    requires k !in ["very_happy", "happy", "sad", "very_sad"]
    ensures ClassifyInsight(LinkedMap.Put(counts, k, v)) == ClassifyInsight(counts)
  {
    assert k != "very_happy" && k != "happy" && k != "sad" && k != "very_sad";
  }

  /** On the diary's tally the insight compares how many entries were positive and negative. */
  lemma InsightOfTally(moods: seq<string>)
    ensures PositiveCount(Tally(moods)) == CountOf(moods, "very_happy") + CountOf(moods, "happy")
    ensures NegativeCount(Tally(moods)) == CountOf(moods, "sad") + CountOf(moods, "very_sad")
  {
    TallyCounts(moods, "very_happy");
    TallyCounts(moods, "happy");
    TallyCounts(moods, "sad");
    TallyCounts(moods, "very_sad");
  }

  /** What `MoodDistributionCard` shows: the empty-data text, or one bar per mood with a count. */
  datatype Distribution = NoMoodData | Bars(bars: LinkedMap.Entries)

  function MoodDistribution(counts: LinkedMap.Entries): (r: Distribution)
    ensures r.NoMoodData? <==> LinkedMap.SumValues(counts) <= 0
    ensures r.Bars? ==> forall e :: e in r.bars <==> e in counts && e.1 > 0
  {
    if LinkedMap.SumValues(counts) > 0 then Bars(LinkedMap.FilterPositive(counts)) else NoMoodData
  }

  /** On the diary's tally: no data exactly when there are no entries, otherwise a bar for every counted mood. */
  lemma DistributionOfTally(moods: seq<string>)
    ensures MoodDistribution(Tally(moods)) == if moods == [] then NoMoodData else Bars(Tally(moods))
  {
    TallySum(moods);
    TallyPositive(moods);
    LinkedMap.FilterPositiveAll(Tally(moods));
  }

  /** Newest first: timestamps never increase along the list. */
  predicate NewestFirst(s: seq<DiaryEntry>) {
    forall i, j :: 0 <= i < j < |s| ==> s[i].creationTimestamp >= s[j].creationTimestamp
  }

  /** The entries with one timestamp, in list order. */
  function WithTimestamp(s: seq<DiaryEntry>, t: int): seq<DiaryEntry> {
    if s == [] then []
    else (if s[0].creationTimestamp == t then [s[0]] else []) + WithTimestamp(s[1..], t)
  }

  /** Puts `x` ahead of every entry that is not newer than it. */
  function InsertNewestFirst(x: DiaryEntry, s: seq<DiaryEntry>): seq<DiaryEntry> {
    if s == [] || x.creationTimestamp >= s[0].creationTimestamp then [x] + s
    else [s[0]] + InsertNewestFirst(x, s[1..])
  }

  /** `sortedByDescending { it.timestamp }`, a stable sort. */
  function SortedByDescending(entries: seq<DiaryEntry>): seq<DiaryEntry> {
    if entries == [] then [] else InsertNewestFirst(entries[0], SortedByDescending(entries[1..]))
  }

  lemma {:induction false} InsertPermutes(x: DiaryEntry, s: seq<DiaryEntry>)
    ensures multiset(InsertNewestFirst(x, s)) == multiset(s) + multiset{x}
  {
    if s != [] && x.creationTimestamp < s[0].creationTimestamp {
      InsertPermutes(x, s[1..]);
      assert s == [s[0]] + s[1..];
    }
  }

  /** No entry of `s` is newer than `b`. */
  predicate NotNewerThan(s: seq<DiaryEntry>, b: int) {
    forall i :: 0 <= i < |s| ==> s[i].creationTimestamp <= b
  }

  lemma ConsNewestFirst(e: DiaryEntry, s: seq<DiaryEntry>)
    requires NewestFirst(s) && NotNewerThan(s, e.creationTimestamp)
    ensures NewestFirst([e] + s)
  {
    var r := [e] + s;
    forall i, j | 0 <= i < j < |r| ensures r[i].creationTimestamp >= r[j].creationTimestamp {
      assert r[j] == s[j - 1];
      if i > 0 {
        assert r[i] == s[i - 1];
      }
    }
  }

  lemma {:induction false} InsertNotNewer(x: DiaryEntry, s: seq<DiaryEntry>, b: int)
    requires NotNewerThan(s, b) && x.creationTimestamp <= b
    ensures NotNewerThan(InsertNewestFirst(x, s), b)
  {
    if s != [] && x.creationTimestamp < s[0].creationTimestamp {
      InsertNotNewer(x, s[1..], b);
      var r := [s[0]] + InsertNewestFirst(x, s[1..]);
      assert forall i :: 1 <= i < |r| ==> r[i] == InsertNewestFirst(x, s[1..])[i - 1];
    } else {
      var r := [x] + s;
      assert forall i :: 1 <= i < |r| ==> r[i] == s[i - 1];
    }
  }

  lemma {:induction false} InsertSorted(x: DiaryEntry, s: seq<DiaryEntry>)
    requires NewestFirst(s)
    ensures NewestFirst(InsertNewestFirst(x, s))
  {
    if s == [] {
      assert NewestFirst([x]);
    } else if x.creationTimestamp < s[0].creationTimestamp {
      assert NewestFirst(s[1..]) && NotNewerThan(s[1..], s[0].creationTimestamp);
      InsertSorted(x, s[1..]);
      InsertNotNewer(x, s[1..], s[0].creationTimestamp);
      ConsNewestFirst(s[0], InsertNewestFirst(x, s[1..]));
    } else {
      ConsNewestFirst(x, s);
    }
  }

  lemma WithTimestampCons(e: DiaryEntry, s: seq<DiaryEntry>, t: int)
    ensures WithTimestamp([e] + s, t) == (if e.creationTimestamp == t then [e] else []) + WithTimestamp(s, t)
  {
    assert ([e] + s)[1..] == s;
  }

  lemma {:induction false} InsertStable(x: DiaryEntry, s: seq<DiaryEntry>, t: int)
    ensures WithTimestamp(InsertNewestFirst(x, s), t) ==
      (if x.creationTimestamp == t then [x] else []) + WithTimestamp(s, t)
  {
    if s != [] && x.creationTimestamp < s[0].creationTimestamp {
      var rest := InsertNewestFirst(x, s[1..]);
      InsertStable(x, s[1..], t);
      WithTimestampCons(s[0], rest, t);
      WithTimestampCons(s[0], s[1..], t);
      assert [s[0]] + s[1..] == s;
      var mx: seq<DiaryEntry> := if x.creationTimestamp == t then [x] else [];
      var m0: seq<DiaryEntry> := if s[0].creationTimestamp == t then [s[0]] else [];
      assert mx == [] || m0 == [];
      assert m0 + (mx + WithTimestamp(s[1..], t)) == mx + (m0 + WithTimestamp(s[1..], t));
    } else {
      WithTimestampCons(x, s, t);
    }
  }

  /**
   * The entry list is shown newest first, holds exactly the entries given, and keeps entries
   * with equal timestamps in their original order.
   */
  lemma {:induction false} SortedByDescendingCorrect(entries: seq<DiaryEntry>)
    ensures NewestFirst(SortedByDescending(entries))
    ensures multiset(SortedByDescending(entries)) == multiset(entries)
    ensures forall t :: WithTimestamp(SortedByDescending(entries), t) == WithTimestamp(entries, t)
  {
    if entries != [] {
      SortedByDescendingCorrect(entries[1..]);
      var rest := SortedByDescending(entries[1..]);
      InsertPermutes(entries[0], rest);
      InsertSorted(entries[0], rest);
      forall t ensures WithTimestamp(SortedByDescending(entries), t) == WithTimestamp(entries, t) {
        InsertStable(entries[0], rest, t);
      }
      assert entries == [entries[0]] + entries[1..];
    }
  }

  /** `if (entries.size >= 3)` the trend card shows `sortedByDescending { ... }.take(7)`. */
  function RecentTrends(entries: seq<DiaryEntry>): (r: Option<seq<DiaryEntry>>)
    ensures r.Some? <==> |entries| >= 3
  {
    if |entries| >= 3 then
      var sorted := SortedByDescending(entries);
      Some(if |sorted| <= 7 then sorted else sorted[..7])
    else None
  }

  lemma SortedLength(entries: seq<DiaryEntry>)
    ensures |SortedByDescending(entries)| == |entries|
  {
    SortedByDescendingCorrect(entries);
    assert |multiset(SortedByDescending(entries))| == |multiset(entries)|;
  }

  /**
   * The trend shows at most seven of the entries, newest first; together with the entries left
   * out it makes up the whole history, and no entry left out is newer than one shown.
   */
  lemma RecentTrendsNewest(entries: seq<DiaryEntry>)
    requires |entries| >= 3
    ensures var shown := RecentTrends(entries).value;
      var leftOut := SortedByDescending(entries)[|shown|..];
      && |shown| == (if |entries| < 7 then |entries| else 7)
      && NewestFirst(shown)
      && multiset(shown) + multiset(leftOut) == multiset(entries)
      && forall i, j :: 0 <= i < |shown| && 0 <= j < |leftOut| ==>
           shown[i].creationTimestamp >= leftOut[j].creationTimestamp
  {
    var sorted := SortedByDescending(entries);
    SortedByDescendingCorrect(entries);
    SortedLength(entries);
    var n := if |entries| < 7 then |entries| else 7;
    var shown := RecentTrends(entries).value;
    assert shown == sorted[..n];
    assert sorted == shown + sorted[n..];
    forall i, j | 0 <= i < n && 0 <= j < |sorted| - n
      ensures shown[i].creationTimestamp >= sorted[n..][j].creationTimestamp
    {
      assert shown[i] == sorted[i] && sorted[n..][j] == sorted[n + j];
    }
  }

  /** What the analysis tab shows. */
  datatype Analysis =
    | NoAnalysisData
    | MoodAnalysis(distribution: Distribution, insight: Insight, mostFrequent: Option<string>,
                   trends: Option<seq<DiaryEntry>>)

  /**
   * `MoodAnalysisContent`: the empty state for no entries, otherwise the distribution card, the
   * insight card (with the most frequent mood, if any) and, from three entries on, the trend card.
   */
  function MoodAnalysisContent(entries: seq<DiaryEntry>, counts: LinkedMap.Entries): (r: Analysis)
    ensures r.NoAnalysisData? <==> entries == []
    ensures r.MoodAnalysis? ==> (r.mostFrequent.None? <==> counts == [])
    ensures r.MoodAnalysis? ==> (r.trends.Some? <==> |entries| >= 3)
  {
    if entries == [] then NoAnalysisData
    else MoodAnalysis(MoodDistribution(counts), ClassifyInsight(counts), LinkedMap.MaxKey(counts), RecentTrends(entries))
  }

  /**
   * Fed by the view-model's own tally, a non-empty history always has bars for every counted mood
   * and a most frequent mood.
   */
  lemma AnalysisOfTally(entries: seq<DiaryEntry>)
    requires entries != []
    ensures var r := MoodAnalysisContent(entries, Tally(Moods(entries)));
      r.MoodAnalysis? && r.distribution == Bars(Tally(Moods(entries))) && r.mostFrequent.Some?
  {
    DistributionOfTally(Moods(entries));
    TallySum(Moods(entries));
  }
}
