/**
 * The diary entry record and the mood tally that `DiaryViewModel` recomputes every time the
 * repository emits the list of entries.
 */
module Diary {
  import opened Wrappers
  import LinkedMap

  /** One diary entry as the Room entity stores it; the timestamp is milliseconds since the epoch. */
  datatype DiaryEntry = DiaryEntry(
    id: int,
    content: string,
    mood: string,
    activities: seq<string>,
    creationTimestamp: int)

  /** The mood of every entry, in list order. */
  function Moods(entries: seq<DiaryEntry>): (r: seq<string>)
    ensures |r| == |entries|
    ensures forall k :: 0 <= k < |entries| ==> r[k] == entries[k].mood
  {
    if entries == [] then [] else [entries[0].mood] + Moods(entries[1..])
  }

  /** One step of the counting loop: `counts[mood] = (counts[mood] ?: 0) + 1`. */
  function Bump(counts: LinkedMap.Entries, mood: string): LinkedMap.Entries
    requires LinkedMap.DistinctKeys(counts)
  {
    LinkedMap.Put(counts, mood, LinkedMap.Get(counts, mood).GetOr(0) + 1)
  }

  /** One loop step adds one to the visited mood and leaves every other mood alone. */
  lemma BumpGet(counts: LinkedMap.Entries, mood: string, m: string)
    requires LinkedMap.DistinctKeys(counts)
    ensures LinkedMap.Get(Bump(counts, mood), m) ==
      if m == mood then Some(LinkedMap.Get(counts, m).GetOr(0) + 1) else LinkedMap.Get(counts, m)
  {
  }

  /** The map the loop has built after the given moods, in that order. */
  function Tally(moods: seq<string>): (r: LinkedMap.Entries)
    ensures LinkedMap.DistinctKeys(r)
  {
    if moods == [] then [] else Bump(Tally(moods[..|moods| - 1]), moods[|moods| - 1])
  }

  /** How many times `m` occurs in `moods`, counted in the order the loop visits them. */
  function CountOf(moods: seq<string>, m: string): nat {
    if moods == [] then 0
    else CountOf(moods[..|moods| - 1], m) + if moods[|moods| - 1] == m then 1 else 0
  }

  /** `CountOf` is the multiplicity in the multiset of moods, so it ignores order. */
  lemma {:induction false} CountOfMultiset(moods: seq<string>, m: string)
    ensures CountOf(moods, m) == multiset(moods)[m]
  {
    if moods != [] {
      var init := moods[..|moods| - 1];
      CountOfMultiset(init, m);
      assert moods == init + [moods[|moods| - 1]];
    }
  }

  /** What `counts[m]` should read after counting `moods`: the number of occurrences, or null if none. */
  function Occurrences(moods: seq<string>, m: string): Option<int> {
    if CountOf(moods, m) == 0 then None else Some(CountOf(moods, m))
  }

  /** Every mood is counted as often as it occurs; a mood that does not occur has no key. */
  lemma {:induction false} TallyCounts(moods: seq<string>, m: string)
    ensures LinkedMap.Get(Tally(moods), m) == Occurrences(moods, m)
  {
    if moods != [] {
      var init, last := moods[..|moods| - 1], moods[|moods| - 1];
      TallyCounts(init, m);
      BumpGet(Tally(init), last, m);
      assert Tally(moods) == Bump(Tally(init), last);
      assert CountOf(moods, m) == CountOf(init, m) + if last == m then 1 else 0;
    }
  }

  /** Every stored count is at least one. */
  lemma TallyPositive(moods: seq<string>)
    ensures forall i :: 0 <= i < |Tally(moods)| ==> Tally(moods)[i].1 >= 1
  {
    var t := Tally(moods);
    forall i | 0 <= i < |t| ensures t[i].1 >= 1 {
      LinkedMap.GetAt(t, i);
      TallyCounts(moods, t[i].0);
    }
  }

  /** The counts add up to the number of entries. */
  lemma {:induction false} TallySum(moods: seq<string>)
    ensures LinkedMap.SumValues(Tally(moods)) == |moods|
  {
    if moods != [] {
      var init := moods[..|moods| - 1];
      TallySum(init);
      LinkedMap.SumValuesPut(Tally(init), moods[|moods| - 1],
        LinkedMap.Get(Tally(init), moods[|moods| - 1]).GetOr(0) + 1);
    }
  }

  /** Reordering the entries yields the same map, as Kotlin compares maps (ignoring key order). */
  lemma TallyPermutation(p: seq<string>, q: seq<string>)
    requires multiset(p) == multiset(q)
    ensures LinkedMap.AsMap(Tally(p)) == LinkedMap.AsMap(Tally(q))
  {
    var a, b := LinkedMap.AsMap(Tally(p)), LinkedMap.AsMap(Tally(q));
    forall k | k in a ensures k in b && a[k] == b[k] {
      TallyCounts(p, k);
      TallyCounts(q, k);
      CountOfMultiset(p, k);
      CountOfMultiset(q, k);
    }
    forall k | k in b ensures k in a {
      TallyCounts(p, k);
      TallyCounts(q, k);
      CountOfMultiset(p, k);
      CountOfMultiset(q, k);
    }
  }

  /** The loop of the `collect` block (lines 52-55): a fresh map, one update per entry in list order. */
  method CountByMood(entries: seq<DiaryEntry>) returns (counts: LinkedMap.Entries)
    ensures counts == Tally(Moods(entries))
    ensures forall m :: LinkedMap.Get(counts, m) == Occurrences(Moods(entries), m)
  {
    counts := [];
    var i := 0;
    while i < |entries|
      invariant 0 <= i <= |entries|
      invariant counts == Tally(Moods(entries[..i]))
    {
      assert Moods(entries[..i + 1])[..i] == Moods(entries[..i]);
      counts := Bump(counts, entries[i].mood);
      i := i + 1;
    }
    assert entries[..i] == entries;
    forall m ensures LinkedMap.Get(counts, m) == Occurrences(Moods(entries), m) {
      TallyCounts(Moods(entries), m);
    }
  }

  /** The view-model's state that the tally feeds: the entry list and the mood counts. */
  class DiaryViewModel {
    var diaryEntries: seq<DiaryEntry>
    var moodCounts: LinkedMap.Entries

    /** Both state flows start empty (`emptyList()`, `emptyMap()`). */
    constructor ()
      ensures diaryEntries == [] && moodCounts == []
    {
      diaryEntries := [];
      moodCounts := [];
    }

    /** One emission of the repository: the counts are recomputed from scratch and replace the old map. */
    method OnEntriesEmitted(entries: seq<DiaryEntry>)
      modifies this
      ensures diaryEntries == entries
      ensures moodCounts == Tally(Moods(entries))
    {
      var counts := CountByMood(entries);
      diaryEntries := entries;
      moodCounts := counts;
    }
  }
}
