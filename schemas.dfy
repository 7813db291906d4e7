/**
 * The backend's request and response schemas: the declarative field constraints on a diary entry
 * and on the request texts, and the `before` validator that turns a stored `a|b|c` activity string
 * into a list.
 */
module Schemas {
  import opened Wrappers
  import opened Text
  import Converters

  /** The alternatives of the mood pattern `^(Senang|Sedih|Cemas|Marah|Tersipu)$`, in pattern order. */
  const MoodAlternatives: seq<string> := ["Senang", "Sedih", "Cemas", "Marah", "Tersipu"]

  const MinContentLength := 1
  const MaxContentLength := 5000

  /** The pattern as the regex engine reads it: `^`, one alternative as a prefix, then `$` at the very end. */
  predicate MatchesMoodPattern(mood: string) {
    exists k :: 0 <= k < |MoodAlternatives| && MatchesAnchored(mood, MoodAlternatives[k])
  }

  /** Alternative `alt` matches from position 0 and leaves nothing before the end anchor. */
  predicate MatchesAnchored(s: string, alt: string) {
    |alt| <= |s| && s[..|alt|] == alt && |alt| == |s|
  }

  /** Because both ends are anchored, a mood passes exactly when it is one of the five names. */
  lemma MoodPatternExact(mood: string)
    ensures MatchesMoodPattern(mood) <==>
      mood == "Senang" || mood == "Sedih" || mood == "Cemas" || mood == "Marah" || mood == "Tersipu"
  {
    if mood == "Senang" || mood == "Sedih" || mood == "Cemas" || mood == "Marah" || mood == "Tersipu" {
      var k := if mood == "Senang" then 0 else if mood == "Sedih" then 1
        else if mood == "Cemas" then 2 else if mood == "Marah" then 3 else 4;
      assert MoodAlternatives[k] == mood;
      assert mood[..|mood|] == mood;
      assert MatchesAnchored(mood, MoodAlternatives[k]);
    }
  }

  /** Names the app uses elsewhere, a prefix and an extension of a valid name are all rejected. */
  lemma MoodPatternRejects()
    ensures !MatchesMoodPattern("neutral")
    ensures !MatchesMoodPattern("senang")
    ensures !MatchesMoodPattern("Senang!")
    ensures !MatchesMoodPattern("")
  {
    MoodPatternExact("neutral");
    MoodPatternExact("senang");
    MoodPatternExact("Senang!");
    MoodPatternExact("");
  }

  /** The pydantic error kinds these fields can raise. */
  datatype FieldError = StringTooShort(field: string) | StringTooLong(field: string) | PatternMismatch(field: string)

  /** A validated `DiaryEntryBase` (and `DiaryEntryCreate`, which adds nothing). */
  datatype DiaryEntryBase = DiaryEntryBase(content: string, mood: string, timestamp: int, activities: seq<string>)

  /** The errors of the `content` field: at least 1 and at most 5000 characters. */
  function ContentErrors(content: string): seq<FieldError> {
    if |content| < MinContentLength then [StringTooShort("content")]
    else if |content| > MaxContentLength then [StringTooLong("content")]
    else []
  }

  /** The errors of the `mood` field. */
  function MoodErrors(mood: string): seq<FieldError> {
    if MatchesMoodPattern(mood) then [] else [PatternMismatch("mood")]
  }

  /**
   * Validation of the fields: every failing field is reported, in declaration order; a missing
   * `activities` takes the default factory's empty list.
   */
  function ValidateEntryBase(content: string, mood: string, timestamp: int, activities: Option<seq<string>>)
    : (r: Result<DiaryEntryBase, seq<FieldError>>)
    ensures r.Ok? <==> 1 <= |content| <= 5000 && MatchesMoodPattern(mood)
    ensures r.Ok? ==> r.value == DiaryEntryBase(content, mood, timestamp, activities.GetOr([]))
    ensures r.Err? ==> (StringTooShort("content") in r.error <==> content == [])
    ensures r.Err? ==> (StringTooLong("content") in r.error <==> |content| > 5000)
    ensures r.Err? ==> (PatternMismatch("mood") in r.error <==> !MatchesMoodPattern(mood))
  {
    var errors := ContentErrors(content) + MoodErrors(mood);
    if errors == [] then Ok(DiaryEntryBase(content, mood, timestamp, activities.GetOr([])))
    else Err(errors)
  }

  /** The `text` field of `AnalyzeRequest`, `ArticleRequest` and `ChatRequest`: at least one character. */
  function ValidateRequestText(text: string): (r: Result<string, FieldError>)
    ensures r.Ok? <==> text != []
    ensures r.Ok? ==> r.value == text
    ensures r.Err? ==> r.error == StringTooShort("text")
  {
    if |text| < 1 then Err(StringTooShort("text")) else Ok(text)
  }

  /** `s.split("|") if s else []`: the empty string gives no items, any other string every segment. */
  function SplitActivities(s: string): (r: seq<string>)
    ensures r == [] <==> s == []
    ensures Join(r, '|') == s
    ensures forall k :: 0 <= k < |r| ==> '|' !in r[k]
  {
    if s == [] then []
    else
      JoinSplit(s, '|');
      Split(s, '|')
  }

  /** The app's converter is the backend's split with blank items dropped. */
  lemma {:induction false} BackendKeepsEmptySegments(s: string)
    ensures Converters.FromActivities(Some(s)) == Converters.DropBlank(SplitActivities(s))
  {
    if s == [] {
      assert Split("", '|') == [""];
      assert IsBlank("");
    }
  }

  /** On `a||b` the backend returns three items and the app two. */
  lemma ActivitiesMismatchExample()
    ensures SplitActivities("a||b") == ["a", "", "b"]
    ensures Converters.FromActivities(Some("a||b")) == ["a", "b"]
  {
    assert "b"[1..] == "" && "|b"[1..] == "b" && "||b"[1..] == "|b" && "a||b"[1..] == "||b";
    assert Split("", '|') == [""];
    assert ['b'] + "" == "b" && ['a'] + "" == "a";
    assert Split("b", '|') == [['b'] + ""] + [""][1..];
    assert Split("b", '|') == ["b"];
    assert Split("|b", '|') == ["", "b"];
    assert Split("||b", '|') == ["", "", "b"];
    assert Split("a||b", '|') == [['a'] + ""] + ["", "", "b"][1..];
    assert Split("a||b", '|') == ["a", "", "b"];
    assert !IsBlank("a") && !IsBlank("b") && IsBlank("");
  }

  /** An `activities` value as it reaches the validator: a string, a list, or anything else (absent included). */
  datatype RawActivities = StrValue(s: string) | ListValue(items: seq<string>) | OtherValue

  /** What the validator leaves in place of a raw value: strings are split, everything else is kept. */
  function ConvertedActivities(raw: RawActivities): (r: RawActivities)
    ensures raw.StrValue? ==> r == ListValue(SplitActivities(raw.s))
    ensures !raw.StrValue? ==> r == raw
  {
    match raw
    case StrValue(s) => ListValue(SplitActivities(s))
    case _ => raw
  }

  /**
   * The input of `DiaryEntryResponse`'s `before` validator: a dict with an `activities` key, or an
   * ORM object with an `activities` attribute; `activities` is null when the key or the attribute is missing.
   */
  class Payload {
    var isDict: bool
    var activities: Option<RawActivities>

    constructor (isDict: bool, activities: Option<RawActivities>)
      ensures this.isDict == isDict && this.activities == activities
    {
      this.isDict := isDict;
      this.activities := activities;
    }
  }

  /**
   * `_convert_activities`: rewrites a string `activities` in place, through the dict branch or the
   * attribute branch, and returns the same object.
   */
  method ConvertActivities(data: Payload) returns (r: Payload)
    modifies data
    ensures r == data
    ensures data.isDict == old(data.isDict)
    ensures data.activities ==
      if old(data.activities).Some? then Some(ConvertedActivities(old(data.activities).value)) else None
  {
    if data.isDict && data.activities.Some? && data.activities.value.StrValue? {
      var s := data.activities.value.s;
      data.activities := Some(ListValue(if s != [] then Split(s, '|') else []));
    } else if !data.isDict && data.activities.Some? && data.activities.value.StrValue? {
      var s := data.activities.value.s;
      data.activities := Some(ListValue(if s != [] then Split(s, '|') else []));
    }
    r := data;
  }
}
