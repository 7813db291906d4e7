/**
 * Kotlin's `LinkedHashMap<String, Int>` (what `mutableMapOf` builds and what `Map` values the
 * view-models hold): entries in insertion order. The order matters because `maxByOrNull` keeps
 * the first entry of maximal value and the screens list moods in map order.
 */
module LinkedMap {
  import opened Wrappers

  type Entries = seq<(string, int)>

  /** No key is stored twice. */
  predicate DistinctKeys(m: Entries) {
    forall i, j :: 0 <= i < j < |m| ==> m[i].0 != m[j].0
  }

  predicate HasKey(m: Entries, k: string) {
    exists i :: 0 <= i < |m| && m[i].0 == k
  }

  /** Position of `k` in `m`, scanning from `from`. */
  function FindFrom(m: Entries, k: string, from: nat): (r: Option<nat>)
    requires from <= |m|
    ensures r.None? ==> forall i :: from <= i < |m| ==> m[i].0 != k
    ensures r.Some? ==> from <= r.value < |m| && m[r.value].0 == k
    decreases |m| - from
  {
    if from == |m| then None
    else if m[from].0 == k then Some(from)
    else FindFrom(m, k, from + 1)
  }

  /** `m[k]`: the value stored under `k`, or null. */
  function Get(m: Entries, k: string): (r: Option<int>)
    ensures r.None? <==> !HasKey(m, k)
    ensures r.Some? ==> exists i :: 0 <= i < |m| && m[i] == (k, r.value)
  {
    match FindFrom(m, k, 0)
    case Some(i) => Some(m[i].1)
    case None => None
  }

  /** With distinct keys, `Get` finds the one entry that holds the key. */
  lemma GetAt(m: Entries, i: nat)
    requires DistinctKeys(m) && i < |m|
    ensures Get(m, m[i].0) == Some(m[i].1)
  {
    var r := Get(m, m[i].0);
    var j :| 0 <= j < |m| && m[j] == (m[i].0, r.value);
    assert i == j;
  }

  /** `m[k] = v`: overwrite in place when `k` is present (its position is kept), append otherwise. */
  function Put(m: Entries, k: string, v: int): (r: Entries)
    requires DistinctKeys(m)
    ensures DistinctKeys(r)
    ensures Get(r, k) == Some(v)
    ensures forall k' :: k' != k ==> Get(r, k') == Get(m, k')
    ensures |r| == if HasKey(m, k) then |m| else |m| + 1
    ensures forall i :: 0 <= i < |m| ==> r[i].0 == m[i].0
    ensures forall i :: 0 <= i < |m| && m[i].0 != k ==> r[i] == m[i]
  {
    match FindFrom(m, k, 0)
    case Some(i) =>
      var r := m[i := (k, v)];
      GetAt(r, i);
      forall k' | k' != k ensures Get(r, k') == Get(m, k') {
        if HasKey(m, k') {
          var j :| 0 <= j < |m| && m[j].0 == k';
          GetAt(m, j);
          GetAt(r, j);
        } else {
          assert !HasKey(r, k');
        }
      }
      r
    case None =>
      var r := m + [(k, v)];
      GetAt(r, |m|);
      forall k' | k' != k ensures Get(r, k') == Get(m, k') {
        if HasKey(m, k') {
          var j :| 0 <= j < |m| && m[j].0 == k';
          GetAt(m, j);
          GetAt(r, j);
        } else {
          assert !HasKey(r, k');
        }
      }
      r
  }

  /** Sum of all values (`values.sum()`). */
  function SumValues(m: Entries): int {
    if m == [] then 0 else m[0].1 + SumValues(m[1..])
  }

  /** Overwriting one value changes the sum by the difference. */
  lemma {:induction false} SumValuesPut(m: Entries, k: string, v: int)
    requires DistinctKeys(m)
    ensures SumValues(Put(m, k, v)) == SumValues(m) - Get(m, k).GetOr(0) + v
  {
    if m != [] && m[0].0 != k {
      SumValuesPut(m[1..], k, v);
      assert Put(m, k, v)[1..] == Put(m[1..], k, v);
    }
  }

  /**
   * Index of the entry Kotlin's `maxByOrNull { it.value }` returns: it scans in order and replaces
   * its candidate only on a strictly greater value, so ties go to the earliest entry.
   */
  function MaxIndex(m: Entries): (r: nat)
    requires |m| > 0
    ensures r < |m|
    ensures forall i :: 0 <= i < |m| ==> m[i].1 <= m[r].1
    ensures forall i :: 0 <= i < r ==> m[i].1 < m[r].1
  {
    if |m| == 1 then 0
    else
      var j := MaxIndex(m[..|m| - 1]);
      assert forall i :: 0 <= i < |m| - 1 ==> m[..|m| - 1][i] == m[i];
      if m[j].1 < m[|m| - 1].1 then |m| - 1 else j
  }

  /** `maxByOrNull { it.value }?.key`: a key of maximal value, the first one on ties, null on an empty map. */
  function MaxKey(m: Entries): (r: Option<string>)
    ensures r.None? <==> m == []
    ensures r.Some? ==> (exists i :: 0 <= i < |m| && m[i].0 == r.value &&
                                   (forall j :: 0 <= j < |m| ==> m[j].1 <= m[i].1) &&
                                   (forall j :: 0 <= j < i ==> m[j].1 < m[i].1))
  {
    if m == [] then None
    else
      var i := MaxIndex(m);
      Some(m[i].0)
  }

  /** `filter { it.value > 0 }`: the entries with a positive value, in map order. */
  function FilterPositive(m: Entries): (r: Entries)
    ensures forall e :: e in r <==> e in m && e.1 > 0
    ensures |r| <= |m|
  {
    if m == [] then []
    else if m[0].1 > 0 then
      var r := [m[0]] + FilterPositive(m[1..]);
      assert forall e :: e in m <==> e == m[0] || e in m[1..];
      r
    else
      assert forall e :: e in m <==> e == m[0] || e in m[1..];
      FilterPositive(m[1..])
  }

  /** Filtering works piece by piece, so the kept entries stay in map order. */
  lemma {:induction false} FilterPositiveConcat(a: Entries, b: Entries)
    ensures FilterPositive(a + b) == FilterPositive(a) + FilterPositive(b)
  {
    if a != [] {
      FilterPositiveConcat(a[1..], b);
      assert (a + b)[0] == a[0] && (a + b)[1..] == a[1..] + b;
    } else {
      assert a + b == b;
    }
  }

  /** Filtering a map whose values are all positive keeps it whole. */
  lemma {:induction false} FilterPositiveAll(m: Entries)
    requires forall i :: 0 <= i < |m| ==> m[i].1 > 0
    ensures FilterPositive(m) == m
  {
    if m != [] {
      FilterPositiveAll(m[1..]);
      assert [m[0]] + m[1..] == m;
    }
  }

  /** The entries as an unordered Kotlin `Map` value (map equality ignores order). */
  function AsMap(m: Entries): (r: map<string, int>)
    requires DistinctKeys(m)
    ensures forall k :: (k in r <==> HasKey(m, k)) && (k in r ==> Get(m, k) == Some(r[k]))
  {
    map k | k in (set i | 0 <= i < |m| :: m[i].0) :: Get(m, k).value
  }
}
