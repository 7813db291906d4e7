/**
 * `ContentViewModel`: the articles shown on the education screen, the dominant mood taken from
 * the mood statistics, and the mood used to query and highlight articles. The repository's
 * article query is a function parameter; recorded reactions are kept as the log of calls the
 * view model forwards to the repository.
 */
module Content {
  import opened Wrappers
  import LinkedMap

  /** `EducationalArticle`: every field may be null. */
  datatype Article = Article(
    title: Option<string>,
    description: Option<string>,
    url: Option<string>,
    urlToImage: Option<string>,
    publishedAt: Option<string>)

  /**
   * The query mood of `refreshArticles`: the explicit filter, else the stored dominant mood, else
   * the most frequent mood of the diary's counts when a diary view model is attached.
   */
  function ChooseQueryMood(filterMood: Option<string>, dominantMood: Option<string>,
                           diaryCounts: Option<LinkedMap.Entries>): (r: Option<string>)
    ensures filterMood.Some? ==> r == filterMood
    ensures filterMood.None? && dominantMood.Some? ==> r == dominantMood
    ensures filterMood.None? && dominantMood.None? ==>
      r == if diaryCounts.Some? then LinkedMap.MaxKey(diaryCounts.value) else None
    ensures r.None? <==> filterMood.None? && dominantMood.None? && (diaryCounts.None? || diaryCounts.value == [])
  {
    if filterMood.Some? then filterMood
    else if dominantMood.Some? then dominantMood
    else if diaryCounts.Some? then LinkedMap.MaxKey(diaryCounts.value)
    else None
  }

  class ContentViewModel {
    var articles: seq<Article>
    var dominantMood: Option<string>
    var highlightMood: Option<string>
    /** The `(url, reaction)` pairs handed to `repository.recordReaction`, oldest first. */
    var recordedReactions: seq<(string, string)>

    constructor()
      ensures articles == [] && dominantMood == None && highlightMood == None
      ensures recordedReactions == []
    {
      articles := [];
      dominantMood := None;
      highlightMood := None;
      recordedReactions := [];
    }

    /** `updateMoodStats`: the dominant mood becomes the first key of maximal count, null for no stats. */
    method UpdateMoodStats(stats: LinkedMap.Entries)
      modifies this
      ensures dominantMood == LinkedMap.MaxKey(stats)
      ensures articles == old(articles) && highlightMood == old(highlightMood)
      ensures recordedReactions == old(recordedReactions)
    {
      dominantMood := LinkedMap.MaxKey(stats);
    }

    /**
     * `refreshArticles`: queries the repository with the chosen mood, then shows its result and
     * highlights that mood. `diaryCounts` is the attached diary view model's current counts.
     */
    method RefreshArticles(filterMood: Option<string>, diaryCounts: Option<LinkedMap.Entries>,
                           getArticles: Option<string> -> seq<Article>)
      modifies this
      ensures highlightMood == ChooseQueryMood(filterMood, old(dominantMood), diaryCounts)
      ensures articles == getArticles(highlightMood)
      ensures dominantMood == old(dominantMood) && recordedReactions == old(recordedReactions)
    {
      var mood := ChooseQueryMood(filterMood, dominantMood, diaryCounts);
      var allArticles := getArticles(mood);
      articles := allArticles;
      highlightMood := mood;
    }

    /** `recordReaction`: forwards the url and the reaction unchanged. */
    method RecordReaction(url: string, reaction: string)
      modifies this
      ensures recordedReactions == old(recordedReactions) + [(url, reaction)]
      ensures articles == old(articles) && dominantMood == old(dominantMood)
      ensures highlightMood == old(highlightMood)
    {
      recordedReactions := recordedReactions + [(url, reaction)];
    }
  }
}
