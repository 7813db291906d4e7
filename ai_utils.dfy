/**
 * `extract_json_from_markdown`: the JSON payload of a model reply, taken from the first
 * `json`-tagged fenced block when there is one, otherwise the whole reply stripped.
 */
module AiUtils {
  import opened Wrappers
  import opened Text

  datatype Error = InvalidResponseError(message: string)

  const Opening: string := "```json"
  const Closing: string := "```"
  const NoJsonMessage: string := "Tidak ditemukan blok JSON dalam respons OpenRouter."

  /** Every character of `t[i..j]` is whitespace. */
  predicate BlankBetween(t: string, i: int, j: int) {
    0 <= i <= j <= |t| && forall k :: i <= k < j ==> IsWhitespace(t[k])
  }

  /**
   * One way the pattern ```` ```json\s*(.*?)\s*``` ```` (with DOTALL, so `.` also matches line
   * breaks) can match `t`: the opening tag at `p`, the group `t[a..b]`, the closing fence at `e`.
   */
  predicate Fence(t: string, p: int, a: int, b: int, e: int) {
    && OccursAt(t, Opening, p)
    && p + |Opening| <= a <= b <= e
    && OccursAt(t, Closing, e)
    && BlankBetween(t, p + |Opening|, a)
    && BlankBetween(t, b, e)
  }

  /** The first occurrence of `pat` at or after `from`. */
  function FindFrom(t: string, pat: string, from: nat): (r: Option<nat>)
    requires from <= |t|
    ensures r.Some? ==> from <= r.value && OccursAt(t, pat, r.value)
    ensures r.Some? ==> forall i :: from <= i < r.value ==> !OccursAt(t, pat, i)
    ensures r.None? ==> forall i :: from <= i ==> !OccursAt(t, pat, i)
    decreases |t| - from
  {
    if OccursAt(t, pat, from) then Some(from)
    else if from == |t| then None
    else FindFrom(t, pat, from + 1)
  }

  /** The end of the run of whitespace that starts at `i` (what a greedy `\s*` consumes). */
  function SkipWhitespace(t: string, i: nat): (r: nat)
    requires i <= |t|
    ensures BlankBetween(t, i, r)
    ensures r == |t| || !IsWhitespace(t[r])
    decreases |t| - i
  {
    if i < |t| && IsWhitespace(t[i]) then SkipWhitespace(t, i + 1) else i
  }

  /** A match of the pattern: opening tag at `p`, group `t[a..b]`, closing fence at `e`. */
  datatype Match = Match(p: nat, a: nat, b: nat, e: nat)

  /**
   * The match `re.search` returns: the leftmost opening tag, a greedy `\s*`, then the shortest
   * body that whitespace and a closing fence can follow.
   */
  function FirstMatch(t: string): (r: Option<Match>)
    ensures r.Some? ==> Fence(t, r.value.p, r.value.a, r.value.b, r.value.e)
    ensures r.Some? ==> forall i :: 0 <= i < r.value.p ==> !OccursAt(t, Opening, i)
    ensures r.Some? ==> forall i :: r.value.a <= i < r.value.e ==> !OccursAt(t, Closing, i)
    ensures r.Some? ==> r.value.a < |t| && !IsWhitespace(t[r.value.a])
    ensures r.Some? && r.value.a < r.value.b ==> !IsWhitespace(t[r.value.b - 1])
  {
    match FindFrom(t, Opening, 0)
    case None => None
    case Some(p) =>
      var a := SkipWhitespace(t, p + |Opening|);
      match FindFrom(t, Closing, a)
      case None => None
      case Some(c) =>
        var x := t[a..c];
        var body := TrimEnd(x);
        var b := a + |body|;
        assert BlankBetween(t, b, c) by {
          forall k | b <= k < c ensures IsWhitespace(t[k]) {
            assert x[|body|..][k - b] == t[k];
          }
        }
        assert a < b ==> t[b - 1] == x[|body| - 1];
        assert t[c..c + 3][0] == t[c];
        Some(Match(p, a, b, c))
  }

  /** A closing fence never starts on a whitespace character. */
  lemma ClosingNotOnBlank(t: string, i: int, j: int, e: int)
    ensures BlankBetween(t, i, j) && i <= e < j ==> !OccursAt(t, Closing, e)
  {
    if 0 <= e && e + 3 <= |t| {
      assert t[e..e + 3][0] == t[e];
    }
  }

  /**
   * Every way the pattern can match is preceded by the reported one in the engine's order of
   * preference: no match starts earlier, the leading `\s*` cannot take more, and the lazy body
   * cannot be shorter. In particular the pattern matches exactly when `FirstMatch` finds a match.
   */
  lemma {:induction false} FirstMatchPreferred(t: string, p': int, a': int, b': int, e': int)
    requires Fence(t, p', a', b', e')
    ensures FirstMatch(t).Some?
    ensures var m := FirstMatch(t).value;
      m.p <= p' && (m.p == p' ==> a' <= m.a && (a' == m.a ==> m.b <= b'))
  {
    var p := FindFrom(t, Opening, 0).value;
    var a := SkipWhitespace(t, p + |Opening|);
    ClosingNotOnBlank(t, p + |Opening|, a, e');
    assert a <= e';
    var c := FindFrom(t, Closing, a).value;
    var m := FirstMatch(t).value;
    assert m.p == p && m.a == a && m.e == c;
    ClosingNotOnBlank(t, b', e', c);
  }

  /** A fence found anywhere means `re.search` succeeds. */
  lemma FenceMatched(t: string, p: int, a: int, b: int, e: int)
    ensures Fence(t, p, a, b, e) ==> FirstMatch(t).Some?
  {
    if Fence(t, p, a, b, e) {
      FirstMatchPreferred(t, p, a, b, e);
    }
  }

  /** A fence inside a slice is a fence of the whole string. */
  lemma FenceInSlice(t: string, i: int, j: int, p: int, a: int, b: int, e: int)
    requires 0 <= i <= j <= |t|
    ensures Fence(t[i..j], p, a, b, e) ==> Fence(t, p + i, a + i, b + i, e + i)
  {
    var s := t[i..j];
    OccursInSlice(t, i, j, Opening, p);
    OccursInSlice(t, i, j, Closing, e);
    if Fence(s, p, a, b, e) {
      forall k | p + |Opening| + i <= k < a + i ensures IsWhitespace(t[k]) {
        assert t[k] == s[k - i];
      }
      forall k | b + i <= k < e + i ensures IsWhitespace(t[k]) {
        assert t[k] == s[k - i];
      }
    }
  }

  /** A string with no fenced block has none in any of its slices either. */
  lemma NoFenceInSlice(t: string, i: int, j: int)
    requires 0 <= i <= j <= |t|
    requires FirstMatch(t).None?
    ensures FirstMatch(t[i..j]).None?
  {
    var m := FirstMatch(t[i..j]).GetOr(Match(0, 0, 0, 0));
    FenceInSlice(t, i, j, m.p, m.a, m.b, m.e);
    FenceMatched(t, m.p + i, m.a + i, m.b + i, m.e + i);
  }

  /** Every opening tag begins with a closing fence. */
  lemma OpeningStartsWithClosing(t: string, p: int)
    ensures OccursAt(t, Opening, p) ==> OccursAt(t, Closing, p)
  {
    if OccursAt(t, Opening, p) {
      assert t[p..p + |Closing|] == t[p..p + |Opening|][..|Closing|];
    }
  }

  /**
   * `extract_json_from_markdown`: the error is raised exactly when there is no fenced block and
   * the reply is blank; otherwise the payload has no whitespace at either end, and without a
   * block it is the whole reply stripped.
   */
  function ExtractJson(text: string): (r: Result<string, Error>)
    ensures r.Err? <==> FirstMatch(text).None? && IsBlank(text)
    ensures r.Err? ==> r.error.message == NoJsonMessage
    ensures r.Ok? ==> IsStripped(r.value)
    ensures FirstMatch(text).None? && !IsBlank(text) ==> r == Ok(Strip(text))
  {
    StripEmptyIffBlank(text);
    match FirstMatch(text)
    case Some(m) =>
      StripIsStripped(text[m.a..m.b]);
      Ok(Strip(text[m.a..m.b]))
    case None =>
      var stripped := Strip(text);
      StripIsStripped(text);
      if stripped != [] then Ok(stripped) else Err(InvalidResponseError(NoJsonMessage))
  }

  /**
   * When a fenced block is found the payload is its group exactly: the group neither starts nor
   * ends with whitespace (the `\s*` on each side took it), and holds no fence.
   */
  lemma FencedPayload(text: string)
    requires FirstMatch(text).Some?
    ensures var m := FirstMatch(text).value;
      && ExtractJson(text) == Ok(text[m.a..m.b])
      && IsStripped(text[m.a..m.b])
      && !Contains(text[m.a..m.b], Closing)
  {
    var m := FirstMatch(text).value;
    var g := text[m.a..m.b];
    if g != [] {
      assert g[0] == text[m.a] && g[|g| - 1] == text[m.b - 1];
    }
    StripStripped(g);
    forall x ensures !OccursAt(g, Closing, x) {
      OccursInSlice(text, m.a, m.b, Closing, x);
    }
  }

  /** Extracting from an extracted, non-empty payload gives the payload back. */
  lemma ExtractJsonIdempotent(text: string, r: string)
    requires ExtractJson(text) == Ok(r) && r != []
    ensures ExtractJson(r) == Ok(r)
  {
    match FirstMatch(text)
    case Some(m) =>
      FencedPayload(text);
      assert r == text[m.a..m.b];
      var p := FirstMatch(r).GetOr(Match(0, 0, 0, 0)).p;
      OpeningStartsWithClosing(r, p);
      assert FirstMatch(r).None?;
      StripStripped(r);
      StripEmptyIffBlank(r);
    case None =>
      var i, j := StripIsSlice(text);
      NoFenceInSlice(text, i, j);
      StripTwice(text);
  }

  /** An empty block yields an empty payload rather than the error. */
  lemma EmptyBlock()
    ensures ExtractJson("```json```") == Ok("")
  {
    var t := "```json```";
    assert OccursAt(t, Opening, 0);
    assert t[7..10] == Closing;
    assert OccursAt(t, Closing, 7);
    assert FindFrom(t, Opening, 0) == Some(0);
    assert FindFrom(t, Closing, 7) == Some(7);
  }
}
