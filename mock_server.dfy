/**
 * The Node mock server's in-memory diary store: listing a page of entries, creating an entry,
 * looking one up by id, the per-mood statistics, and the keyword mood analyser. HTTP parsing,
 * routing and JSON serialisation are reduced to the values the handlers read and return; the
 * current time is a parameter.
 */
module MockServer {
  import opened Wrappers
  import Text
  import LinkedMap
  import Diary

  /** A stored entry; `content` is absent when the request had none. */
  datatype Entry = Entry(id: int, content: Option<string>, mood: string, timestamp: string, createdAt: string)

  /**
   * A parsed request body. `JSON.parse` either throws, yields `null` (on which reading a property
   * throws), or yields a value whose string-valued properties are `fields`; numbers, strings,
   * booleans and arrays have none.
   */
  datatype Body = Malformed | JsonNull | Value(fields: map<string, string>)

  /** What a handler sends back. */
  datatype Payload =
    | EntryList(entries: seq<Entry>)
    | OneEntry(entry: Entry)
    | Detail(message: string)
    | Stats(stats: LinkedMap.Entries)
    | Analysis(analysis: string)

  datatype Response = Response(status: int, payload: Payload)

  const InvalidJson: string := "Invalid JSON data"
  const NotFound: string := "Entry not found"
  const SeedContent: string := "Hari ini saya merasa cukup baik. Cuaca cerah dan saya bisa jalan pagi."

  /** JavaScript's `x || d` on a string property: a missing or empty value falls back to `d`. */
  function OrDefault(v: Option<string>, d: string): (r: string)
    ensures v.Some? && v.value != "" ==> r == v.value
    ensures v.None? || v.value == "" ==> r == d
  {
    if v.Some? && v.value != "" then v.value else d
  }

  function Field(fields: map<string, string>, name: string): Option<string> {
    if name in fields then Some(fields[name]) else None
  }

  /** The entry a POST with an object body creates under `id`. */
  function NewEntry(id: int, fields: map<string, string>, now: string): (e: Entry)
    ensures e.id == id && e.content == Field(fields, "content") && e.createdAt == now
    ensures e.mood != ""
    ensures e.mood == "neutral" <==> Field(fields, "mood") in {None, Some(""), Some("neutral")}
    ensures "mood" in fields && fields["mood"] != "" ==> e.mood == fields["mood"]
    ensures "timestamp" in fields && fields["timestamp"] != "" ==> e.timestamp == fields["timestamp"]
    ensures "timestamp" !in fields || fields["timestamp"] == "" ==> e.timestamp == now
  {
    Entry(id, Field(fields, "content"), OrDefault(Field(fields, "mood"), "neutral"),
          OrDefault(Field(fields, "timestamp"), now), now)
  }

  /** The store's invariant: ids strictly increase along the list and stay below `nextId`. */
  predicate IdsIncreasing(entries: seq<Entry>, nextId: int) {
    && (forall i, j :: 0 <= i < j < |entries| ==> entries[i].id < entries[j].id)
    && (forall i :: 0 <= i < |entries| ==> entries[i].id < nextId)
  }

  /** Strictly increasing ids are unique. */
  lemma IdsUnique(entries: seq<Entry>, nextId: int)
    requires IdsIncreasing(entries, nextId)
    ensures forall i, j :: 0 <= i < |entries| && 0 <= j < |entries| && entries[i].id == entries[j].id ==> i == j
  {
  }

  /** `parseInt(q) || d`: a missing, non-numeric (`None`) or zero parameter falls back to `d`. */
  function ParamOr(p: Option<int>, d: int): (r: int)
    ensures p.Some? && p.value != 0 ==> r == p.value
    ensures p.None? || p.value == 0 ==> r == d
  {
    if p.Some? && p.value != 0 then p.value else d
  }

  /** How `Array.prototype.slice` reads one bound: negative counts from the end, then clamped to the array. */
  function SliceIndex(i: int, len: nat): (r: nat)
    ensures r <= len
    ensures 0 <= i <= len ==> r == i
    ensures -(len as int) <= i < 0 ==> r == len + i
    ensures i > len ==> r == len
    ensures i < -(len as int) ==> r == 0
  {
    if i < 0 then (if len + i < 0 then 0 else len + i) else if i > len then len else i
  }

  /** `array.slice(start, end)`: the elements from the first bound up to the second, none if they cross. */
  function JsSlice<T>(s: seq<T>, start: int, end: int): seq<T> {
    var a, b := SliceIndex(start, |s|), SliceIndex(end, |s|);
    if a < b then s[a..b] else []
  }

  /** `diaryEntries.slice(skip, skip + limit)` with `skip` defaulting to 0 and `limit` to 100. */
  function Page(entries: seq<Entry>, skip: Option<int>, limit: Option<int>): seq<Entry> {
    var s := ParamOr(skip, 0);
    JsSlice(entries, s, s + ParamOr(limit, 100))
  }

  /**
   * A page is a run of consecutive entries: without parameters the first 100; with a skip `s`
   * and a limit `l` that are both positive, the `l` entries after the first `s`, cut at the end
   * of the store; with a negative limit whose end `s + l` is not negative, nothing.
   */
  lemma PageProps(entries: seq<Entry>, skip: Option<int>, limit: Option<int>)
    ensures exists a, b :: 0 <= a <= b <= |entries| && Page(entries, skip, limit) == entries[a..b]
    ensures |Page(entries, skip, limit)| <= |entries|
    ensures skip.None? && limit.None? ==> Page(entries, skip, limit) == entries[..if |entries| < 100 then |entries| else 100]
    ensures skip.Some? && limit.Some? && 0 <= skip.value <= |entries| && limit.value > 0 ==>
      var end := skip.value + limit.value;
      Page(entries, skip, limit) == entries[skip.value..if end < |entries| then end else |entries|]
    ensures skip.Some? && limit.Some? && 0 <= skip.value + limit.value < skip.value ==>
      Page(entries, skip, limit) == []
  {
    var s := ParamOr(skip, 0);
    var a, b := SliceIndex(s, |entries|), SliceIndex(s + ParamOr(limit, 100), |entries|);
    if a < b {
      assert Page(entries, skip, limit) == entries[a..b];
    } else {
      assert Page(entries, skip, limit) == entries[a..a];
    }
  }

  /** `diaryEntries.find(e => e.id === id)`; `None` stands for a NaN id, which matches nothing. */
  function FindEntry(entries: seq<Entry>, id: Option<int>): (r: Option<Entry>)
    ensures r.None? <==> id.None? || forall i :: 0 <= i < |entries| ==> entries[i].id != id.value
    ensures r.Some? ==> exists i :: (0 <= i < |entries| && entries[i] == r.value && r.value.id == id.value &&
                                     forall j :: 0 <= j < i ==> entries[j].id != id.value)
  {
    if id.None? || entries == [] then None
    else if entries[0].id == id.value then
      Some(entries[0])
    else
      var r := FindEntry(entries[1..], id);
      assert forall i :: 1 <= i < |entries| ==> entries[i] == entries[1..][i - 1];
      if r.Some? then
        var i :| 0 <= i < |entries| - 1 && entries[1..][i] == r.value && r.value.id == id.value &&
          forall j :: 0 <= j < i ==> entries[1..][j].id != id.value;
        assert entries[i + 1] == r.value;
        assert forall j :: 0 <= j < i + 1 ==> entries[j].id != id.value;
        r
      else r
  }

  /** An entry just appended under `nextId` is the one found under its id. */
  lemma CreatedIsFound(entries: seq<Entry>, nextId: int, e: Entry)
    requires IdsIncreasing(entries, nextId) && e.id == nextId
    ensures FindEntry(entries + [e], Some(nextId)) == Some(e)
    ensures forall id :: id != nextId ==> FindEntry(entries + [e], Some(id)) == FindEntry(entries, Some(id))
  {
    FindAppend(entries, e, Some(nextId));
    forall id | id != nextId
      ensures FindEntry(entries + [e], Some(id)) == FindEntry(entries, Some(id))
    {
      FindAppend(entries, e, Some(id));
    }
  }

  /** Searching a list with one entry appended finds what the list held, else the new entry. */
  lemma {:induction false} FindAppend(entries: seq<Entry>, e: Entry, id: Option<int>)
    ensures FindEntry(entries + [e], id) ==
      if FindEntry(entries, id).Some? then FindEntry(entries, id)
      else if id.Some? && e.id == id.value then Some(e) else None
  {
    if entries != [] && id.Some? && entries[0].id != id.value {
      FindAppend(entries[1..], e, id);
      assert (entries + [e])[1..] == entries[1..] + [e];
    } else if entries == [] {
      assert entries + [e] == [e];
    }
  }

  /** The mood of every stored entry, in store order. */
  function EntryMoods(entries: seq<Entry>): (r: seq<string>)
    ensures |r| == |entries|
    ensures forall k :: 0 <= k < |entries| ==> r[k] == entries[k].mood
  {
    if entries == [] then [] else [entries[0].mood] + EntryMoods(entries[1..])
  }

  /** The negative words, checked first. */
  const NegativeWords: seq<string> := ["sedih", "marah", "cemas", "depresi", "frustasi"]

  /** The positive words. */
  const PositiveWords: seq<string> := ["senang", "bahagia", "gembira", "ceria", "optimis"]

  /**
   * A case-insensitive regular expression of alternatives: some word occurs somewhere in `text`.
   * Without the `u` flag JavaScript folds case only between ASCII letters for ASCII patterns.
   */
  predicate MatchesAny(text: string, words: seq<string>) {
    exists k :: 0 <= k < |words| && Text.ContainsIgnoreCase(text, words[k])
  }

  /** The verdict of `/analyze` for `text`. */
  function AnalyzeText(text: string): (r: string)
    ensures r == "Mood terdeteksi negatif" <==> MatchesAny(text, NegativeWords)
    ensures r == "Mood terdeteksi positif" <==> !MatchesAny(text, NegativeWords) && MatchesAny(text, PositiveWords)
    ensures r == "Mood netral" <==> !MatchesAny(text, NegativeWords) && !MatchesAny(text, PositiveWords)
  {
    if MatchesAny(text, NegativeWords) then "Mood terdeteksi negatif"
    else if MatchesAny(text, PositiveWords) then "Mood terdeteksi positif"
    else "Mood netral"
  }

  /**
   * The verdict in terms of the text itself: a negative word anywhere, in any letter case,
   * wins over any positive word; a positive word alone is positive; the empty text is neutral.
   */
  lemma AnalyzeTextProps(text: string, w: string)
    ensures w in NegativeWords && (exists i :: Text.OccursAt(Text.Lower(text), Text.Lower(w), i)) ==>
      AnalyzeText(text) == "Mood terdeteksi negatif"
    ensures w in PositiveWords && (exists i :: Text.OccursAt(Text.Lower(text), Text.Lower(w), i)) ==>
      AnalyzeText(text) != "Mood netral"
    ensures AnalyzeText("") == "Mood netral"
  {
    Text.ContainsIgnoreCaseOccurs(text, w);
    if w in NegativeWords {
      var k :| 0 <= k < |NegativeWords| && NegativeWords[k] == w;
    }
    if w in PositiveWords {
      var k :| 0 <= k < |PositiveWords| && PositiveWords[k] == w;
    }
    NoWordInEmpty();
  }

  lemma NoWordInEmpty()
    ensures !MatchesAny("", NegativeWords) && !MatchesAny("", PositiveWords)
  {
  }

  /** `POST /analyze`: `text` defaults to the empty string; a body that is not JSON, or `null`, is a 400. */
  function Analyze(body: Body): (r: Response)
    ensures body.Value? <==> r.status == 200
    ensures !body.Value? ==> r == Response(400, Detail(InvalidJson))
    ensures body.Value? ==> r.payload == Analysis(AnalyzeText(OrDefault(Field(body.fields, "text"), "")))
  {
    match body
    case Value(fields) => Response(200, Analysis(AnalyzeText(OrDefault(Field(fields, "text"), ""))))
    case _ => Response(400, Detail(InvalidJson))
  }

  /** The server's `diaryEntries` array and `nextId` counter. */
  class Store {
    var entries: seq<Entry>
    var nextId: int

    predicate Valid()
      reads this
    {
      IdsIncreasing(entries, nextId) && nextId >= 2
    }

    /** The seeded store: entry 1, mood "positive", stamped at start-up; the next id is 2. */
    constructor(now: string)
      ensures entries == [Entry(1, Some(SeedContent), "positive", now, now)] && nextId == 2
      ensures Valid()
    {
      entries := [Entry(1, Some(SeedContent), "positive", now, now)];
      nextId := 2;
    }

    /** `GET /entries/`: the page selected by the `skip` and `limit` query parameters. */
    method ListEntries(skip: Option<int>, limit: Option<int>) returns (r: Response)
      ensures r == Response(200, EntryList(Page(entries, skip, limit)))
    {
      r := Response(200, EntryList(Page(entries, skip, limit)));
    }

    /**
     * `POST /entries/`. A body that is not JSON is a 400 before anything changes. A `null` body
     * has already taken an id when reading its `content` throws, so it is a 400 that uses up an
     * id. Any other body becomes an entry with the next id, appended at the end; earlier
     * entries are untouched and the ids keep increasing.
     */
    method CreateEntry(body: Body, now: string) returns (r: Response)
      requires Valid()
      modifies this
      ensures Valid()
      ensures body.Malformed? ==> r == Response(400, Detail(InvalidJson)) && entries == old(entries) && nextId == old(nextId)
      ensures body.JsonNull? ==> r == Response(400, Detail(InvalidJson)) && entries == old(entries) && nextId == old(nextId) + 1
      ensures body.Value? ==>
        var e := NewEntry(old(nextId), body.fields, now);
        r == Response(201, OneEntry(e)) && entries == old(entries) + [e] && nextId == old(nextId) + 1
    {
      match body {
        case Malformed =>
          r := Response(400, Detail(InvalidJson));
        case JsonNull =>
          nextId := nextId + 1;
          r := Response(400, Detail(InvalidJson));
        case Value(fields) =>
          var id := nextId;
          nextId := nextId + 1;
          var e := NewEntry(id, fields, now);
          entries := entries + [e];
          r := Response(201, OneEntry(e));
      }
    }

    /** `GET /entries/{id}`: the first entry with the id, else a 404. */
    method GetEntry(id: Option<int>) returns (r: Response)
      ensures FindEntry(entries, id).Some? ==> r == Response(200, OneEntry(FindEntry(entries, id).value))
      ensures FindEntry(entries, id).None? ==> r == Response(404, Detail(NotFound))
    {
      var found := FindEntry(entries, id);
      if found.Some? {
        r := Response(200, OneEntry(found.value));
      } else {
        r := Response(404, Detail(NotFound));
      }
    }

    /**
     * `GET /stats/`: the reduce over the store, one step per entry. Each mood is counted as
     * often as it occurs, moods in order of first appearance, and the counts add up to the
     * number of entries.
     */
    method Stats() returns (counts: LinkedMap.Entries)
      ensures counts == Diary.Tally(EntryMoods(entries))
      ensures forall m :: LinkedMap.Get(counts, m) == Diary.Occurrences(EntryMoods(entries), m)
      ensures LinkedMap.SumValues(counts) == |entries|
    {
      var moods := EntryMoods(entries);
      counts := [];
      var i := 0;
      while i < |entries|
        invariant 0 <= i <= |entries|
        invariant counts == Diary.Tally(moods[..i])
      {
        assert moods[..i + 1][..i] == moods[..i];
        counts := Diary.Bump(counts, entries[i].mood);
        i := i + 1;
      }
      assert moods[..i] == moods;
      forall m {
        Diary.TallyCounts(moods, m);
      }
      Diary.TallySum(moods);
    }
  }
}
