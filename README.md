# Diary Depresiku: a verified model of its logic

Diary Depresiku is a mood diary. An Android app written in Kotlin stores entries with a mood and a
list of activities. A FastAPI backend validates them and extracts JSON from AI replies. A Node
mock server stands in for that backend during development.

This project models, in Dafny, the small pieces of logic these parts contain:

- the per-mood tally the diary view-model recomputes on every emission of the entry list;
- the Room converters for timestamps and activity lists;
- the backend's entry validation and its activity-string conversion;
- the extraction of a fenced JSON block from an AI reply;
- the daily reminder's next-occurrence and delay computation, and its unique periodic work;
- the mood calendar's date-to-emoji map and its month grid;
- the content view-model's mood statistics, query-mood choice and recorded reactions;
- the article list's highlight predicate and its open/react state;
- the history screen's insight, distribution, newest-first sort and recent-trend selection, plus
  its mood label and emoji tables;
- the mood summary widget's dominant mood, percentage and breakdown;
- the mock server's in-memory store, its `/entries/`, `/stats/` and `/analyze` handlers.

Kotlin's `LinkedHashMap<String, Int>` is modelled as an insertion-ordered list of pairs
(`LinkedMap`), so that `maxByOrNull` returning the first of several maximal entries is captured.
State that the source mutates becomes a class:

- the view-models' state flows;
- WorkManager's table of unique work;
- the article list's `openedUrl`;
- the mock server's entry array and id counter.

Loops become methods with invariants, proved against recursive specification functions. The
current time, the time zone, the news API and the database are parameters.

The files are:

- `wrappers.dfy`: `Option` and `Result`.
- `text.dfy`: whitespace, strip, split and join, and ASCII case-insensitive search.
- `linked_map.dfy`: the ordered map.
- `diary_view_model.dfy`: `DiaryEntry`, the tally and `DiaryViewModel`.
- `converters.dfy`: the Room converters.
- `schemas.dfy`: the backend's validation rules.
- `ai_utils.dfy`: the JSON extractor.
- `reminder_worker.dfy`: the reminder scheduling.
- `mood_calendar.dfy`: the calendar.
- `content_view_model.dfy`: the content view-model.
- `educational_content_screen.dfy`: the article list.
- `history_screen.dfy`: the history screen.
- `mood_summary_widget.dfy`: the summary widget.
- `mock_server.dfy`: the mock server.

Where the sources disagree, each one is modelled as written. The Room converter drops blank
activity segments, but the backend keeps empty ones; `Schemas.BackendKeepsEmptySegments` and
`Schemas.ActivitiesMismatchExample` state the difference.

## Model

| member | source | states |
|---|---|---|
| Diary.Moods | app/src/main/java/com/example/diarydepresiku/DiaryViewModel.kt:53-54 | the moods read by the loop, one per entry, in list order |
| Diary.BumpGet | app/src/main/java/com/example/diarydepresiku/DiaryViewModel.kt:54 | one loop step adds one to the visited mood (a missing key counting 0) and leaves every other mood alone |
| Diary.Tally | app/src/main/java/com/example/diarydepresiku/DiaryViewModel.kt:52-55 | the counts map never holds a key twice |
| Diary.CountOfMultiset | app/src/main/java/com/example/diarydepresiku/DiaryViewModel.kt:53-55 | the count the loop accumulates for a mood is its multiplicity among the entries' moods |
| Diary.TallyCounts | app/src/main/java/com/example/diarydepresiku/DiaryViewModel.kt:52-55 | every mood reads back the number of entries with that mood, and a mood no entry has has no key |
| Diary.TallyPositive | app/src/main/java/com/example/diarydepresiku/DiaryViewModel.kt:52-55 | every stored count is at least one |
| Diary.TallySum | app/src/main/java/com/example/diarydepresiku/DiaryViewModel.kt:52-55 | the counts add up to the number of entries |
| Diary.TallyPermutation | app/src/main/java/com/example/diarydepresiku/DiaryViewModel.kt:53-55 | any reordering of the entries gives the same map, compared as Kotlin compares maps |
| Diary.CountByMood | app/src/main/java/com/example/diarydepresiku/DiaryViewModel.kt:52-55 | the loop computes the tally, so each mood maps to its number of occurrences |
| Diary.DiaryViewModel.constructor | app/src/main/java/com/example/diarydepresiku/DiaryViewModel.kt:44 | the entry list and the counts start empty |
| Diary.DiaryViewModel.OnEntriesEmitted | app/src/main/java/com/example/diarydepresiku/DiaryViewModel.kt:50-56 | each emission replaces the counts wholesale with the tally of the new list |
| Converters.FromTimestamp | app/src/main/java/com/example/diarydepresiku/Converters.kt:7-10 | null maps to null, a value to the date at that millisecond |
| Converters.DateToTimestamp | app/src/main/java/com/example/diarydepresiku/Converters.kt:12-15 | null maps to null, a date to its millisecond time |
| Converters.TimestampRoundTrip | app/src/main/java/com/example/diarydepresiku/Converters.kt:7-15 | the two converters are inverse both ways, null included |
| Converters.DropBlank | app/src/main/java/com/example/diarydepresiku/Converters.kt:19 | keeps exactly the non-blank items and never lengthens the list |
| Converters.DropBlankConcat | app/src/main/java/com/example/diarydepresiku/Converters.kt:19 | the filter works piece by piece, so it keeps the items' order |
| Converters.FromActivities | app/src/main/java/com/example/diarydepresiku/Converters.kt:17-20 | decoded items are never blank and never hold the separator |
| Converters.ActivitiesToString | app/src/main/java/com/example/diarydepresiku/Converters.kt:22-25 | null maps to null and only null does |
| Converters.DropBlankNone | app/src/main/java/com/example/diarydepresiku/Converters.kt:19 | the filter keeps a list of non-blank items whole |
| Converters.ActivitiesRoundTrip | app/src/main/java/com/example/diarydepresiku/Converters.kt:17-25 | decoding the encoding of a list of non-blank items without the separator gives the list back |
| Converters.ActivitiesNormalise | app/src/main/java/com/example/diarydepresiku/Converters.kt:17-25 | every decoded list is storable, so decoding is a fixed point of encode-then-decode |
| Converters.ActivitiesEmpty | app/src/main/java/com/example/diarydepresiku/Converters.kt:19 | null and the empty list encode and decode as empty |
| Text.StripIsSlice | app/backend_api/app/ai_utils.py:48 | `strip` removes exactly the whitespace at both ends and keeps the middle |
| Text.StripIsStripped | app/backend_api/app/ai_utils.py:48 | what `strip` returns neither starts nor ends with whitespace |
| Text.StripTwice | app/backend_api/app/ai_utils.py:51 | stripping is idempotent |
| Text.StripEmptyIffBlank | app/backend_api/app/ai_utils.py:51-52 | the stripped text is empty exactly when the text is blank |
| Text.SplitJoin | app/src/main/java/com/example/diarydepresiku/Converters.kt:19 | splitting a joined list gives the parts back when none holds the separator |
| Text.JoinSplit | app/src/main/java/com/example/diarydepresiku/Converters.kt:24 | joining the parts of a split gives the string back |
| Text.Contains | app/src/main/java/com/example/diarydepresiku/ui/EducationalContentScreen.kt:51 | substring search is true exactly when the needle occurs at some index |
| Text.ContainsIgnoreCaseOccurs | app/src/main/java/com/example/diarydepresiku/ui/EducationalContentScreen.kt:51-52 | ignoring case is searching the lower-cased needle in the lower-cased text |
| Text.ContainsIgnoreCaseProps | app/src/main/java/com/example/diarydepresiku/ui/EducationalContentScreen.kt:51-52 | the needle's case does not matter, the empty needle is always found, and a found needle is no longer than the text |
| LinkedMap.Get | app/src/main/java/com/example/diarydepresiku/ui/screens/HistoryScreen.kt:448 | `map[k]` is the value of the entry with key k, or null |
| LinkedMap.Put | app/src/main/java/com/example/diarydepresiku/DiaryViewModel.kt:54 | a present key keeps its place with the new value; a new key is appended; keys stay distinct |
| LinkedMap.SumValuesPut | app/src/main/java/com/example/diarydepresiku/ui/screens/HistoryScreen.kt:363 | overwriting one value changes `values.sum()` by the difference |
| LinkedMap.MaxKey | app/src/main/java/com/example/diarydepresiku/ContentViewModel.kt:36 | `maxByOrNull { it.value }?.key` is null only for the empty map, otherwise the key of a maximal value with no earlier maximal entry |
| LinkedMap.FilterPositive | app/src/main/java/com/example/diarydepresiku/ui/components/MoodSummaryWidget.kt:188 | keeps exactly the entries with a positive count |
| LinkedMap.FilterPositiveConcat | app/src/main/java/com/example/diarydepresiku/ui/components/MoodSummaryWidget.kt:188 | the filter works piece by piece, so it keeps map order |
| LinkedMap.FilterPositiveAll | app/src/main/java/com/example/diarydepresiku/ui/components/MoodSummaryWidget.kt:188 | filtering a map whose counts are all positive keeps it whole |
| LinkedMap.AsMap | app/src/main/java/com/example/diarydepresiku/DiaryViewModel.kt:56 | the ordered map seen as an unordered map has the same keys and values |
| Schemas.MoodPatternExact | app/backend_api/app/schemas.py:19-21 | the anchored pattern accepts exactly the five mood words |
| Schemas.MoodPatternRejects | app/backend_api/app/schemas.py:20 | other words, other letter case, trailing text and the empty string are rejected |
| Schemas.ValidateEntryBase | app/backend_api/app/schemas.py:12-28 | an entry is valid exactly when its content has 1 to 5000 characters and its mood matches; each failing field is reported; activities default to empty |
| Schemas.ValidateRequestText | app/backend_api/app/schemas.py:62-63 | the analysis text is accepted exactly when it is not empty |
| Schemas.SplitActivities | app/backend_api/app/schemas.py:49-51 | the empty string gives no items; otherwise the segments, joined back, give the string |
| Schemas.BackendKeepsEmptySegments | app/backend_api/app/schemas.py:49-51 | the app's decoding is the backend's followed by dropping blank items |
| Schemas.ActivitiesMismatchExample | app/backend_api/app/schemas.py:50 | `"a\|\|b"` decodes to three items on the backend and two in the app |
| Schemas.ConvertedActivities | app/backend_api/app/schemas.py:46-58 | a string `activities` becomes its split list, any other value is left as it is |
| Schemas.ConvertActivities | app/backend_api/app/schemas.py:46-58 | the validator rewrites a string `activities` of a dict or an object in place and returns the same object |
| AiUtils.FindFrom | app/backend_api/app/ai_utils.py:46 | the first occurrence of a pattern at or after an index, or none |
| AiUtils.SkipWhitespace | app/backend_api/app/ai_utils.py:46 | `\s*` consumes whitespace up to the first other character |
| AiUtils.FirstMatch | app/backend_api/app/ai_utils.py:46 | the match found is a fence: the leftmost opening, no closing inside the body, and a body that starts and ends on a non-space |
| AiUtils.FirstMatchPreferred | app/backend_api/app/ai_utils.py:46 | whenever any fence exists, a match is found, and it is the one the regex prefers: leftmost opening, then the earliest closing |
| AiUtils.FenceMatched | app/backend_api/app/ai_utils.py:46-47 | a text holding a fence always matches |
| AiUtils.FenceInSlice | app/backend_api/app/ai_utils.py:46 | a fence inside a part of the text is a fence of the whole text |
| AiUtils.NoFenceInSlice | app/backend_api/app/ai_utils.py:46 | a text without a match has no match in any of its parts |
| AiUtils.OpeningStartsWithClosing | app/backend_api/app/ai_utils.py:46 | the opening tag begins with the closing backticks |
| AiUtils.FencedPayload | app/backend_api/app/ai_utils.py:46-48 | a fenced reply yields the stripped body of its first block, which holds no closing backticks |
| AiUtils.ExtractJson | app/backend_api/app/ai_utils.py:46-55 | the error, with its message, is raised exactly for a blank reply without a fenced block; any payload has no whitespace at either end; without a block the reply is returned stripped |
| AiUtils.ExtractJsonIdempotent | app/backend_api/app/ai_utils.py:46-53 | extracting again from a non-empty result gives it back |
| AiUtils.EmptyBlock | app/backend_api/app/ai_utils.py:46-48 | an empty json block yields the empty string, not the error |
| Reminder.IsBeforeInstant | app/src/main/java/com/example/diarydepresiku/ReminderWorker.kt:62 | `isBefore` on date-times is the order of the time line |
| Reminder.At | app/src/main/java/com/example/diarydepresiku/ReminderWorker.kt:61 | the same date at the chosen hour and minute, zero seconds |
| Reminder.NextOccurrenceIsEarliest | app/src/main/java/com/example/diarydepresiku/ReminderWorker.kt:61-64 | the next reminder is the earliest time at or after now with the chosen time of day: today unless already past, else tomorrow, and less than a day ahead |
| Reminder.DelayBounded | app/src/main/java/com/example/diarydepresiku/ReminderWorker.kt:65 | the delay is the whole minutes until the reminder, between 0 and 1439 |
| Reminder.NextReminder | app/src/main/java/com/example/diarydepresiku/ReminderWorker.kt:60-65 | computes the next occurrence and its delay in whole minutes, under one day |
| Reminder.WorkManager.constructor | app/src/main/java/com/example/diarydepresiku/ReminderWorker.kt:69 | no unique work is registered at first |
| Reminder.WorkManager.EnqueueUniquePeriodicWork | app/src/main/java/com/example/diarydepresiku/ReminderWorker.kt:69-73 | the request replaces any work under its name (policy UPDATE) |
| Reminder.WorkManager.CancelUniqueWork | app/src/main/java/com/example/diarydepresiku/ReminderWorker.kt:77 | nothing remains under the name |
| Reminder.ScheduleDailyReminder | app/src/main/java/com/example/diarydepresiku/ReminderWorker.kt:59-74 | a request repeating daily with the computed delay is stored under `daily_reminder`; all other work is kept |
| Reminder.CancelDailyReminder | app/src/main/java/com/example/diarydepresiku/ReminderWorker.kt:76-78 | exactly the work that scheduling registers is removed |
| MoodCalendar.MoodToEmoji | app/src/main/java/com/example/diarydepresiku/ui/MoodCalendar.kt:75-81 | the four form moods get an emoji and every other mood shows nothing |
| MoodCalendar.MoodMapLastEntry | app/src/main/java/com/example/diarydepresiku/ui/MoodCalendar.kt:31-36 | a date is a key exactly when an entry falls on it, and it shows the emoji of the last such entry |
| MoodCalendar.LengthOfMonth | app/src/main/java/com/example/diarydepresiku/ui/MoodCalendar.kt:41 | months have 28 to 31 days, and 29 exactly for February of a leap year |
| MoodCalendar.DayOfWeek | app/src/main/java/com/example/diarydepresiku/ui/MoodCalendar.kt:42 | the ISO day of the week lies between 1 and 7 |
| MoodCalendar.EpochIsThursday | app/src/main/java/com/example/diarydepresiku/ui/MoodCalendar.kt:42 | the day count is 0 on 1970-01-01, a Thursday |
| MoodCalendar.MonthLengthsAgree | app/src/main/java/com/example/diarydepresiku/ui/MoodCalendar.kt:40-41 | the first of the next month comes the month's length in days after the first of the month |
| MoodCalendar.LeapDaysStep | app/src/main/java/com/example/diarydepresiku/ui/MoodCalendar.kt:41 | the leap-day count grows by one across a year exactly when that year is leap |
| MoodCalendar.YearBoundary | app/src/main/java/com/example/diarydepresiku/ui/MoodCalendar.kt:40-41 | January 1st follows December 1st by December's 31 days |
| MoodCalendar.Offset | app/src/main/java/com/example/diarydepresiku/ui/MoodCalendar.kt:42 | 0 to 6 blank cells; none when the month starts on a Sunday, one when on a Monday |
| MoodCalendar.GridLayout | app/src/main/java/com/example/diarydepresiku/ui/MoodCalendar.kt:50-55 | blanks, then one numbered cell per day with its emoji, each day in the column of its weekday, Sunday first |
| Content.ChooseQueryMood | app/src/main/java/com/example/diarydepresiku/ContentViewModel.kt:46-48 | the filter mood wins, then the dominant mood, then the diary's most frequent mood; null only when all three are missing |
| Content.ContentViewModel.constructor | app/src/main/java/com/example/diarydepresiku/ContentViewModel.kt:23-30 | no articles, no dominant mood, no highlight mood |
| Content.ContentViewModel.UpdateMoodStats | app/src/main/java/com/example/diarydepresiku/ContentViewModel.kt:35-37 | the dominant mood becomes the first key of maximal count, null for empty stats; nothing else changes |
| Content.ContentViewModel.RefreshArticles | app/src/main/java/com/example/diarydepresiku/ContentViewModel.kt:44-58 | the articles fetched for the chosen mood are stored and that mood becomes the highlight mood |
| Content.ContentViewModel.RecordReaction | app/src/main/java/com/example/diarydepresiku/ContentViewModel.kt:60-62 | the reaction is recorded for the url, after the earlier ones |
| ArticleScreen.ReactionOptionsDistinct | app/src/main/java/com/example/diarydepresiku/ui/EducationalContentScreen.kt:101 | five distinct reaction emojis are offered |
| ArticleScreen.IsHighlighted | app/src/main/java/com/example/diarydepresiku/ui/EducationalContentScreen.kt:50-53 | an article is highlighted exactly when a mood is set and occurs, ignoring case, in its title or description |
| ArticleScreen.HighlightProps | app/src/main/java/com/example/diarydepresiku/ui/EducationalContentScreen.kt:50-53 | the mood's case does not matter, no mood highlights nothing, and the empty mood highlights any article with a title or a description |
| ArticleScreen.ShowReactions | app/src/main/java/com/example/diarydepresiku/ui/EducationalContentScreen.kt:57 | reactions show only under an article with a url, the one that was opened; this agrees with the source whenever an article is open |
| ArticleScreen.ShowReactionsNullUrl | app/src/main/java/com/example/diarydepresiku/ui/EducationalContentScreen.kt:57 | as written, an article without a url shows reactions while nothing is open |
| ArticleScreen.Render | app/src/main/java/com/example/diarydepresiku/ui/EducationalContentScreen.kt:49-57 | one item per article, in order, with its highlight flag and the reaction flag compared as written |
| ArticleScreen.ReactionRowPlacement | app/src/main/java/com/example/diarydepresiku/ui/EducationalContentScreen.kt:57 | as written, an item shows reactions exactly when its url equals the opened one, so with nothing open every item without a url does |
| ArticleScreen.RenderCorrected | app/src/main/java/com/example/diarydepresiku/ui/EducationalContentScreen.kt:49-57 | the same items with the intended reaction flag |
| ArticleScreen.CorrectedReactionRowPlacement | app/src/main/java/com/example/diarydepresiku/ui/EducationalContentScreen.kt:57 | with the intended flag no item shows reactions while nothing is open, exactly the items with the opened url do otherwise, and both renders agree once a url is open |
| ArticleScreen.ArticleListState.constructor | app/src/main/java/com/example/diarydepresiku/ui/EducationalContentScreen.kt:42 | nothing is open at first |
| ArticleScreen.ArticleListState.OnOpen | app/src/main/java/com/example/diarydepresiku/ui/EducationalContentScreen.kt:58-64 | opening an article with a url makes it the open one; without a url nothing changes |
| ArticleScreen.ArticleListState.OnReaction | app/src/main/java/com/example/diarydepresiku/ui/EducationalContentScreen.kt:65-68 | a reaction is recorded for the open url, if any, and the list closes; the view-model's other state is kept |
| ArticleScreen.OpenThenReact | app/src/main/java/com/example/diarydepresiku/ui/EducationalContentScreen.kt:58-68 | opening an article and reacting records exactly one reaction for its url and closes it |
| History.MoodEmoji | app/src/main/java/com/example/diarydepresiku/ui/screens/HistoryScreen.kt:614-623 | unknown moods get the neutral emoji |
| History.MoodLabel | app/src/main/java/com/example/diarydepresiku/ui/screens/HistoryScreen.kt:625-634 | unknown moods get the label "Netral" |
| History.MoodTables | app/src/main/java/com/example/diarydepresiku/ui/screens/HistoryScreen.kt:614-634 | an unknown mood shows as neutral, and the five known moods have distinct labels and emojis |
| History.ClassifyInsight | app/src/main/java/com/example/diarydepresiku/ui/screens/HistoryScreen.kt:448-481 | the insight is positive, negative or balanced exactly as the positive count exceeds, falls short of or equals the negative count |
| History.InsightIgnoresOtherMoods | app/src/main/java/com/example/diarydepresiku/ui/screens/HistoryScreen.kt:448-449 | moods outside the four weighed ones never change the insight |
| History.InsightOfTally | app/src/main/java/com/example/diarydepresiku/ui/screens/HistoryScreen.kt:448-449 | fed with the tally, the counts weighed are the numbers of entries with those moods |
| History.MoodDistribution | app/src/main/java/com/example/diarydepresiku/ui/screens/HistoryScreen.kt:363-384 | "no mood data" exactly when the counts sum to zero or less, otherwise a bar for exactly each positive count |
| History.DistributionOfTally | app/src/main/java/com/example/diarydepresiku/ui/screens/HistoryScreen.kt:363-384 | fed with the tally, no data exactly for no entries, otherwise one bar per mood in first-seen order |
| History.InsertPermutes | app/src/main/java/com/example/diarydepresiku/ui/screens/HistoryScreen.kt:507 | one insertion step adds exactly the inserted entry |
| History.InsertSorted | app/src/main/java/com/example/diarydepresiku/ui/screens/HistoryScreen.kt:507 | insertion keeps the list newest first |
| History.InsertStable | app/src/main/java/com/example/diarydepresiku/ui/screens/HistoryScreen.kt:507 | insertion keeps equal timestamps in their original order |
| History.SortedByDescendingCorrect | app/src/main/java/com/example/diarydepresiku/ui/screens/HistoryScreen.kt:507 | `sortedByDescending` yields a newest-first permutation that keeps entries with equal timestamps in their original order |
| History.RecentTrends | app/src/main/java/com/example/diarydepresiku/ui/screens/HistoryScreen.kt:321-323 | the trends card shows exactly when there are at least three entries |
| History.SortedLength | app/src/main/java/com/example/diarydepresiku/ui/screens/HistoryScreen.kt:507 | sorting keeps the number of entries |
| History.RecentTrendsNewest | app/src/main/java/com/example/diarydepresiku/ui/screens/HistoryScreen.kt:507 | the card shows the seven newest entries (or all, if fewer), newest first, and none left out is newer than one shown |
| History.MoodAnalysisContent | app/src/main/java/com/example/diarydepresiku/ui/screens/HistoryScreen.kt:293-328 | no analysis exactly without entries; the most frequent mood is missing only for empty counts; trends only from three entries on |
| History.AnalysisOfTally | app/src/main/java/com/example/diarydepresiku/ui/screens/HistoryScreen.kt:293-328 | fed with the tally of a non-empty diary, the analysis shows one bar per counted mood and a most frequent mood |
| MoodSummary.DominantMood | app/src/main/java/com/example/diarydepresiku/ui/components/MoodSummaryWidget.kt:32 | "neutral" for empty counts, otherwise a key of maximal count with no earlier maximal key |
| MoodSummary.DominantMoodCountIsMax | app/src/main/java/com/example/diarydepresiku/ui/components/MoodSummaryWidget.kt:33 | the dominant count is the largest count, 0 for empty counts |
| MoodSummary.Percentage | app/src/main/java/com/example/diarydepresiku/ui/components/MoodSummaryWidget.kt:34 | 0 when there are no entries, otherwise the share in percent rounded down |
| MoodSummary.PercentageOfPart | app/src/main/java/com/example/diarydepresiku/ui/components/MoodSummaryWidget.kt:34 | the share of a part of the total lies between 0 and 100 |
| MoodSummary.Breakdown | app/src/main/java/com/example/diarydepresiku/ui/components/MoodSummaryWidget.kt:188 | the breakdown lists exactly the moods with a positive count |
| MoodSummary.BreakdownInOrder | app/src/main/java/com/example/diarydepresiku/ui/components/MoodSummaryWidget.kt:188 | the breakdown keeps map order |
| MoodSummary.Widget | app/src/main/java/com/example/diarydepresiku/ui/components/MoodSummaryWidget.kt:109 | the empty message shows exactly when there are no entries; otherwise the dominant mood with its emoji and label, the dominant count's share of the entries and the breakdown of positive counts |
| MoodSummary.ShareOfPositiveCounts | app/src/main/java/com/example/diarydepresiku/ui/components/MoodSummaryWidget.kt:32-34 | with positive counts summing to the total, the dominant count is between 1 and the total and its share between 0 and 100 |
| MoodSummary.WidgetOfTally | app/src/main/java/com/example/diarydepresiku/ui/components/MoodSummaryWidget.kt:318-338 | fed with a non-empty tally, the summary shows, its breakdown is the whole tally, and an unknown dominant mood shows as "Netral" |
| MockServer.OrDefault | mock-server.js:71-72 | `value \|\| default` keeps a non-empty string and replaces a missing or empty one |
| MockServer.NewEntry | mock-server.js:68-74 | the new entry takes the id given, the content sent, the sent mood when it is non-empty and otherwise "neutral", and the sent timestamp or now |
| MockServer.IdsUnique | mock-server.js:69 | ids that increase along the store are unique |
| MockServer.ParamOr | mock-server.js:55-56 | `parseInt(q) \|\| d` falls back to the default for a missing, non-numeric or zero parameter |
| MockServer.SliceIndex | mock-server.js:57 | `slice` counts a negative bound from the end and clamps both bounds to the array |
| MockServer.PageProps | mock-server.js:55-57 | a page is a run of consecutive entries: the first 100 by default, `limit` entries after `skip` for positive parameters, empty for a negative limit that ends at or after 0 |
| MockServer.FindEntry | mock-server.js:83-84 | the first entry with the id, or none exactly when no entry has it or the id is not a number |
| MockServer.CreatedIsFound | mock-server.js:69-89 | a created entry is the one found under its id, and lookups of other ids are unchanged |
| MockServer.FindAppend | mock-server.js:75-84 | appending an entry changes a lookup only when nothing earlier had the id |
| MockServer.EntryMoods | mock-server.js:116-118 | the moods the reduce visits, one per entry, in order |
| MockServer.AnalyzeText | mock-server.js:102-107 | negative exactly when a negative word matches, positive when only a positive one does, neutral otherwise |
| MockServer.AnalyzeTextProps | mock-server.js:103-107 | a negative word in any case wins over positive words, a positive word alone is not neutral, and the empty text is neutral |
| MockServer.Analyze | mock-server.js:90-113 | a body that is not JSON or is null gets a 400; otherwise 200 with the verdict on `text`, empty by default |
| MockServer.Store.constructor | mock-server.js:7-18 | one seeded entry with id 1 and mood "positive", next id 2 |
| MockServer.Store.ListEntries | mock-server.js:53-58 | a 200 with the page selected by `skip` and `limit` |
| MockServer.Store.CreateEntry | mock-server.js:59-80 | invalid JSON: 400 and nothing changes; a null body: 400 after taking an id; otherwise 201 and the new entry appended with the next id, ids still increasing |
| MockServer.Store.GetEntry | mock-server.js:81-89 | a 200 with the first entry having the id, else a 404 |
| MockServer.Store.Stats | mock-server.js:114-120 | the reduce counts each mood as often as it occurs, in first-seen order, and the counts sum to the number of entries |

## Left out

- Compose rendering, colours, animation, navigation and the browser intent opened for an article.
  These are UI only.
- I/O and external services are not modelled: the Room database, the repository flows, coroutines,
  the news API, the OpenRouter API, notifications, and HTTP parsing and routing. The values they
  deliver are parameters (`getArticles`, the emitted entry list, the parsed request `Body`).
- Clocks and the time zone: "now", today's date and the conversion of an entry's timestamp to a
  local date are parameters. The mock server reads the clock twice for an entry, once for
  `timestamp` and once for `created_at` (mock-server.js:13-14 and 72-73), so the two may differ by
  a tick; the model passes one `now` to both.
- Case folding and whitespace are modelled over ASCII only; non-ASCII letters and Unicode spaces
  are treated as ordinary characters.
- MoodSummary.Percentage: computed exactly on integers. The source divides in `Float` and
  multiplies by 100 before truncating, which can land one below the exact value for some ratios.
  The float share drawn as a progress fraction is not modelled.
- MockServer.Analyze: the request body is reduced to its string-valued properties; non-string
  values of `text`, `mood`, `timestamp` or `content` are not modelled.
- MockServer.Store.ListEntries: query strings are taken as already parsed by `parseInt`; the
  parsing of digits, signs and trailing text is not modelled.
- MockServer.Store.Stats: the counts keep first-seen order. A JavaScript object lists keys that
  look like array indices first, which is not modelled. Nor are moods that name a property of
  `Object.prototype` (`constructor`, `toString`, `valueOf`, `hasOwnProperty`, `__proto__`, ...): the
  source starts such a count from the inherited function, so it becomes a concatenated string
  rather than a number, and a count assigned to `__proto__` is dropped. The model counts every mood
  as an ordinary key.
- The `/` API-info route, CORS preflight and the 404 for unknown routes are not modelled, because
  they hold no logic.
- WorkManager's execution of the periodic work, and its other policies, are left out; only its
  table of unique work by name is modelled.
- Pydantic's own coercion of field types (for example a string timestamp) is not modelled;
  `ValidateEntryBase` receives values of the declared types.
- The history screen reads `entry.timestamp` and `viewModel.allEntries`, which `DiaryEntry` and
  `DiaryViewModel` do not declare. The model uses `creationTimestamp` and the emitted entry list.

## Findings

| source | as written | input that shows it | evidently intended | confidence | as-written member | corrected member |
|---|---|---|---|---|---|---|
| app/src/main/java/com/example/diarydepresiku/ui/EducationalContentScreen.kt:57 | `showReactions = openedUrl == article.url` is true when both are null | an article whose `url` is null, while no article is open (`openedUrl` null) | reactions show only under the article that was opened, which must have a url | not executed | ArticleScreen.ShowReactionsNullUrl | ArticleScreen.ShowReactions |
