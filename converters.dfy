/**
 * Room type converters: a `Date` is stored as its millisecond timestamp, an activity list as one
 * string joined on `|`.
 */
module Converters {
  import opened Wrappers
  import opened Text

  /** `java.util.Date`, which wraps milliseconds since the epoch (`Date(it)`, `date.time`). */
  datatype Date = Date(time: int)

  /** `fromTimestamp`: null stays null, a number becomes the date at that instant. */
  function FromTimestamp(value: Option<int>): (r: Option<Date>)
    ensures r.None? <==> value.None?
    ensures r.Some? ==> r.value.time == value.value
  {
    match value
    case None => None
    case Some(v) => Some(Date(v))
  }

  /** `dateToTimestamp`: null stays null, a date becomes its instant. */
  function DateToTimestamp(date: Option<Date>): (r: Option<int>)
    ensures r.None? <==> date.None?
    ensures r.Some? ==> r.value == date.value.time
  {
    match date
    case None => None
    case Some(d) => Some(d.time)
  }

  /** Storing a timestamp and reading it back is the identity, and so is the other way round. */
  lemma TimestampRoundTrip(value: Option<int>, date: Option<Date>)
    ensures DateToTimestamp(FromTimestamp(value)) == value
    ensures FromTimestamp(DateToTimestamp(date)) == date
  {
  }

  /** `filter { it.isNotBlank() }`: keeps the items that hold a non-whitespace character, in order. */
  function DropBlank(items: seq<string>): (r: seq<string>)
    ensures forall k :: 0 <= k < |r| ==> !IsBlank(r[k])
    ensures forall x :: x in r <==> x in items && !IsBlank(x)
    ensures |r| <= |items|
  {
    if items == [] then []
    else if IsBlank(items[0]) then DropBlank(items[1..])
    else [items[0]] + DropBlank(items[1..])
  }

  /** The filter works item by item: filtering a concatenation filters each part and keeps their order. */
  lemma {:induction false} DropBlankConcat(a: seq<string>, b: seq<string>)
    ensures DropBlank(a + b) == DropBlank(a) + DropBlank(b)
  {
    if a == [] {
      assert a + b == b;
    } else {
      var ab := a + b;
      assert ab[0] == a[0] && ab[1..] == a[1..] + b;
      DropBlankConcat(a[1..], b);
      if IsBlank(a[0]) {
        assert DropBlank(ab) == DropBlank(a[1..] + b);
      } else {
        assert DropBlank(ab) == [a[0]] + DropBlank(a[1..] + b);
      }
    }
  }

  /** `fromActivities`: split the stored string on `|` and drop blank items; null reads as no activities. */
  function FromActivities(value: Option<string>): (r: seq<string>)
    ensures forall k :: 0 <= k < |r| ==> !IsBlank(r[k]) && '|' !in r[k]
  {
    match value
    case None => []
    case Some(s) => DropBlank(Split(s, '|'))
  }

  /** `activitiesToString`: join on `|`; a null list stays null. */
  function ActivitiesToString(list: Option<seq<string>>): (r: Option<string>)
    ensures r.None? <==> list.None?
  {
    match list
    case None => None
    case Some(l) => Some(Join(l, '|'))
  }

  /** An activity list the converters store faithfully: no blank item and no `|` inside an item. */
  predicate Storable(l: seq<string>) {
    forall k :: 0 <= k < |l| ==> !IsBlank(l[k]) && '|' !in l[k]
  }

  /** Dropping blanks from a list that has none leaves it unchanged. */
  lemma {:induction false} DropBlankNone(items: seq<string>)
    requires forall k :: 0 <= k < |items| ==> !IsBlank(items[k])
    ensures DropBlank(items) == items
  {
    if items != [] {
      DropBlankNone(items[1..]);
    }
  }

  /** Reading back a stored list gives the same list, the empty list included. */
  lemma ActivitiesRoundTrip(l: seq<string>)
    requires Storable(l)
    ensures FromActivities(ActivitiesToString(Some(l))) == l
  {
    if l == [] {
      assert Split("", '|') == [""];
      assert IsBlank("");
    } else {
      SplitJoin(l, '|');
      DropBlankNone(l);
    }
  }

  /** Whatever string is stored, what is read from it is stored faithfully on the next write. */
  lemma ActivitiesNormalise(value: Option<string>)
    ensures Storable(FromActivities(value))
    ensures FromActivities(ActivitiesToString(Some(FromActivities(value)))) == FromActivities(value)
  {
    ActivitiesRoundTrip(FromActivities(value));
  }

  /** Null and the empty list: no activities are read, and nothing becomes the empty string. */
  lemma ActivitiesEmpty()
    ensures FromActivities(None) == []
    ensures ActivitiesToString(None) == None
    ensures ActivitiesToString(Some([])) == Some("")
    ensures FromActivities(Some("")) == []
  {
    assert Split("", '|') == [""];
    assert IsBlank("");
  }
}
