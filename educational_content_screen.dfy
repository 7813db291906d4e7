/**
 * `ArticleList` on the education screen: which article cards are highlighted for the current
 * mood, and the `openedUrl` state that decides where the reaction row appears and what a chosen
 * reaction records. Launching the browser is left out.
 */
module ArticleScreen {
  import opened Wrappers
  import opened Text
  import opened Content

  /** The reactions offered under an opened article, in display order. */
  const ReactionOptions: seq<string> := ["👍", "😊", "😢", "😡", "😮"]

  lemma ReactionOptionsDistinct()
    ensures |ReactionOptions| == 5
    ensures forall i, j :: 0 <= i < j < |ReactionOptions| ==> ReactionOptions[i] != ReactionOptions[j]
  {
  }

  /**
   * Whether a card is drawn highlighted: `title?.contains(mood, ignoreCase = true) == true` or the
   * same for the description, so a null field never matches.
   */
  function IsHighlighted(article: Article, highlightMood: Option<string>): (r: bool)
    ensures r <==> (highlightMood.Some? &&
                    ((article.title.Some? &&
                      exists i :: OccursAt(Lower(article.title.value), Lower(highlightMood.value), i)) ||
                     (article.description.Some? &&
                      exists i :: OccursAt(Lower(article.description.value), Lower(highlightMood.value), i))))
  {
    if highlightMood.None? then false
    else
      var mood := highlightMood.value;
      ContainsIgnoreCaseOccurs(article.title.GetOr(""), mood);
      ContainsIgnoreCaseOccurs(article.description.GetOr(""), mood);
      (article.title.Some? && ContainsIgnoreCase(article.title.value, mood)) ||
      (article.description.Some? && ContainsIgnoreCase(article.description.value, mood))
  }

  /**
   * Highlighting ignores the case of the mood; with no mood nothing is highlighted; and an
   * empty mood highlights every article that has a title or a description.
   */
  lemma HighlightProps(article: Article, mood: string)
    ensures IsHighlighted(article, Some(Lower(mood))) == IsHighlighted(article, Some(mood))
    ensures !IsHighlighted(article, None)
    ensures IsHighlighted(article, Some("")) <==> article.title.Some? || article.description.Some?
  {
    if article.title.Some? {
      ContainsIgnoreCaseProps(article.title.value, mood);
    }
    if article.description.Some? {
      ContainsIgnoreCaseProps(article.description.value, mood);
    }
  }

  /** `showReactions = openedUrl == article.url` as written: two nulls compare equal. */
  function ShowReactionsAsWritten(openedUrl: Option<string>, article: Article): bool {
    openedUrl == article.url
  }

  /** The reaction row belongs to the one article whose page was opened. */
  function ShowReactions(openedUrl: Option<string>, article: Article): (r: bool)
    ensures r ==> article.url.Some? && openedUrl == article.url
    ensures openedUrl.Some? ==> (r <==> ShowReactionsAsWritten(openedUrl, article))
  {
    openedUrl.Some? && openedUrl == article.url
  }

  /**
   * With nothing opened, the comparison as written shows the reaction row under every article
   * without a url, although choosing a reaction there records nothing.
   */
  lemma ShowReactionsNullUrl()
    ensures var article := Article(Some("Title"), None, None, None, None);
      ShowReactionsAsWritten(None, article) && !ShowReactions(None, article)
  {
  }

  /** What one card shows. */
  datatype ItemView = ItemView(article: Article, isHighlighted: bool, showReactions: bool)

  /**
   * `articles.forEach { ArticleItem(...) }`: one card per article, in list order, with the
   * reaction flag compared as written.
   */
  function Render(articles: seq<Article>, highlightMood: Option<string>, openedUrl: Option<string>): (r: seq<ItemView>)
    ensures |r| == |articles|
    ensures forall i :: 0 <= i < |articles| ==>
      r[i] == ItemView(articles[i], IsHighlighted(articles[i], highlightMood), ShowReactionsAsWritten(openedUrl, articles[i]))
  {
    seq(|articles|, i requires 0 <= i < |articles| =>
      ItemView(articles[i], IsHighlighted(articles[i], highlightMood), ShowReactionsAsWritten(openedUrl, articles[i])))
  }

  /**
   * As written, a card shows the reaction row exactly when its url equals the opened one: with
   * nothing opened that is every card without a url.
   */
  lemma ReactionRowPlacement(articles: seq<Article>, highlightMood: Option<string>, openedUrl: Option<string>)
    ensures var view := Render(articles, highlightMood, openedUrl);
      forall i :: 0 <= i < |view| ==> (view[i].showReactions <==> articles[i].url == openedUrl)
    ensures var view := Render(articles, highlightMood, openedUrl);
      openedUrl.None? ==> forall i :: 0 <= i < |view| ==> (view[i].showReactions <==> articles[i].url.None?)
  {
  }

  /** The card list with the reaction flag of `ShowReactions`, the evidently intended comparison. */
  function RenderCorrected(articles: seq<Article>, highlightMood: Option<string>, openedUrl: Option<string>): (r: seq<ItemView>)
    ensures |r| == |articles|
    ensures forall i :: 0 <= i < |articles| ==>
      r[i] == ItemView(articles[i], IsHighlighted(articles[i], highlightMood), ShowReactions(openedUrl, articles[i]))
  {
    seq(|articles|, i requires 0 <= i < |articles| =>
      ItemView(articles[i], IsHighlighted(articles[i], highlightMood), ShowReactions(openedUrl, articles[i])))
  }

  /**
   * With the intended comparison no card shows the reaction row while nothing is opened, once a
   * url is opened only its cards do, and the cards agree with the source whenever a url is opened.
   */
  lemma CorrectedReactionRowPlacement(articles: seq<Article>, highlightMood: Option<string>, openedUrl: Option<string>)
    ensures var view := RenderCorrected(articles, highlightMood, openedUrl);
      forall i :: 0 <= i < |view| ==> (view[i].showReactions <==> openedUrl.Some? && articles[i].url == openedUrl)
    ensures openedUrl.Some? ==> RenderCorrected(articles, highlightMood, openedUrl) == Render(articles, highlightMood, openedUrl)
  {
  }

  /** The `remember`ed state of one `ArticleList`. */
  class ArticleListState {
    var openedUrl: Option<string>

    constructor()
      ensures openedUrl == None
    {
      openedUrl := None;
    }

    /** `onOpen`: a card with a url becomes the opened one; a card without one changes nothing. */
    method OnOpen(url: Option<string>)
      modifies this
      ensures url.Some? ==> openedUrl == url
      ensures url.None? ==> openedUrl == old(openedUrl)
    {
      if url.Some? {
        openedUrl := url;
      }
    }

    /**
     * `onReaction`: the reaction is recorded once against the opened url, if there is one, and
     * the reaction row is closed either way.
     */
    method OnReaction(viewModel: ContentViewModel, emoji: string)
      modifies this, viewModel
      ensures openedUrl == None
      ensures old(openedUrl).Some? ==>
        viewModel.recordedReactions == old(viewModel.recordedReactions) + [(old(openedUrl).value, emoji)]
      ensures old(openedUrl).None? ==> viewModel.recordedReactions == old(viewModel.recordedReactions)
      ensures viewModel.articles == old(viewModel.articles)
      ensures viewModel.dominantMood == old(viewModel.dominantMood)
      ensures viewModel.highlightMood == old(viewModel.highlightMood)
    {
      if openedUrl.Some? {
        viewModel.RecordReaction(openedUrl.value, emoji);
      }
      openedUrl := None;
    }
  }

  /**
   * Opening an article and reacting records exactly one reaction, for that article's url, and
   * leaves nothing opened.
   */
  method OpenThenReact(state: ArticleListState, viewModel: ContentViewModel, article: Article, emoji: string)
    requires state != viewModel as object
    requires article.url.Some?
    modifies state, viewModel
    ensures viewModel.recordedReactions == old(viewModel.recordedReactions) + [(article.url.value, emoji)]
    ensures state.openedUrl == None
  {
    state.OnOpen(article.url);
    assert ShowReactions(state.openedUrl, article);
    state.OnReaction(viewModel, emoji);
  }
}
