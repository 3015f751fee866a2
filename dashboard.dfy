/** The dashboard's summary figures for an analysis result and its list of
    recent analyses, filtered by type and ordered by time. */
module Dashboard {
  import opened Js

  // ---------------------------------------------------------------------
  // Summary figures

  /** The `stats` record. */
  datatype Stats = Stats(totalPoints: nat, keyInsights: nat, confidence: int, processingTime: string)

  const ProcessingTime: string := "0.8s"

  /** `Math.floor(random * (98 - 75 + 1)) + 75` for a draw `random` of
      `Math.random()`. */
  function Confidence(random: real): (c: int)
    requires 0.0 <= random < 1.0
    ensures 75 <= c <= 98
  {
    (random * 24.0).Floor + 75
  }

  /** Every value in 75..98 is drawn for some `random`. */
  lemma ConfidenceReachesAll(c: int)
    requires 75 <= c <= 98
    ensures Confidence((c - 75) as real / 24.0) == c
  {
    var r := (c - 75) as real / 24.0;
    assert r * 24.0 == (c - 75) as real;
  }

  /** `analysisResult.summary.split(".").length - 1`: the number of `.` in
      the summary, or the TypeError `split` throws on a value that is not a
      string. */
  function Points(summary: Value): (r: Outcome<nat>)
    requires Truthy(summary)
    ensures r.Ok? <==> summary.Str?
    ensures r.Ok? ==> r.value == Count(summary.s, '.')
  {
    match AsString(summary, "analysisResult.summary", "split")
    case Thrown(m) => Thrown(m)
    case Ok(s) =>
      SplitLength(s, '.');
      Ok(|Split(s, '.')| - 1)
  }

  /** `key_points.length` when `key_points` is a truthy array, else 0. */
  function KeyInsights(keyPoints: Value): (n: nat)
    ensures keyPoints.Arr? ==> n == |keyPoints.items|
    ensures !keyPoints.Arr? ==> n == 0
  {
    if Truthy(keyPoints) && keyPoints.Arr? then |keyPoints.items| else 0
  }

  /** `extractSummaryStats()`: no figures without a result. */
  function SummaryStats(analysisResult: Value, random: real): Outcome<Option<Stats>>
    requires 0.0 <= random < 1.0
  {
    if !Truthy(analysisResult) then Ok(None)
    else
      var insights := KeyInsights(Prop(analysisResult, "key_points"));
      var summary := Prop(analysisResult, "summary");
      if Truthy(summary) then
        match Points(summary)
        case Thrown(m) => Thrown(m)
        case Ok(points) => Ok(Some(Stats(points, insights, Confidence(random), ProcessingTime)))
      else Ok(Some(Stats(0, insights, Confidence(random), ProcessingTime)))
  }

  /** The record filled in field by field, as the source does. */
  method ExtractSummaryStats(analysisResult: Value, random: real) returns (stats: Outcome<Option<Stats>>)
    requires 0.0 <= random < 1.0
    ensures stats == SummaryStats(analysisResult, random)
  {
    if !Truthy(analysisResult) {
      return Ok(None);
    }
    var s := Stats(0, 0, 0, ProcessingTime);
    var keyPoints := Prop(analysisResult, "key_points");
    if Truthy(keyPoints) && keyPoints.Arr? {
      s := s.(keyInsights := |keyPoints.items|);
    }
    var summary := Prop(analysisResult, "summary");
    if Truthy(summary) {
      var points := Points(summary);
      if points.Thrown? {
        return Thrown(points.message);
      }
      s := s.(totalPoints := points.value);
    }
    s := s.(confidence := Confidence(random));
    stats := Ok(Some(s));
  }

  /** The figures of a result, whenever they exist: the dot count of a
      string summary (0 without one), the number of key points, a
      confidence in 75..98, and the fixed processing time. */
  lemma StatsMeaning(analysisResult: Value, random: real)
    requires 0.0 <= random < 1.0 && Truthy(analysisResult)
    requires var s := Prop(analysisResult, "summary"); !Truthy(s) || s.Str?
    ensures var r := SummaryStats(analysisResult, random);
            var summary := Prop(analysisResult, "summary");
            && r.Ok? && r.value.Some?
            && r.value.value.totalPoints == (if Truthy(summary) then Count(summary.s, '.') else 0)
            && r.value.value.keyInsights == KeyInsights(Prop(analysisResult, "key_points"))
            && 75 <= r.value.value.confidence <= 98
            && r.value.value.processingTime == "0.8s"
  {
  }

  /** Without a result there are no figures; a truthy summary that is not a
      string makes `split` throw. */
  lemma StatsEdges(analysisResult: Value, random: real)
    requires 0.0 <= random < 1.0
    ensures !Truthy(analysisResult) ==> SummaryStats(analysisResult, random) == Ok(None)
    ensures Truthy(analysisResult) && Truthy(Prop(analysisResult, "summary")) && !Prop(analysisResult, "summary").Str?
            ==> SummaryStats(analysisResult, random).Thrown?
  {
  }

  // ---------------------------------------------------------------------
  // Recent analyses

  /** An entry of `recentAnalyses`; `timestamp` is the text `new Date`
      parses. */
  datatype Entry = Entry(id: int, kind: string, title: string, timestamp: string, status: string)

  /** `analysis.type === filterType`, or every entry for `"all"`. */
  predicate Kept(e: Entry, filterType: string)
  {
    filterType == "all" || e.kind == filterType
  }

  /** `filtered.filter(...)`: the kept entries in their order. */
  function FilterKind(s: seq<Entry>, filterType: string): (r: seq<Entry>)
    ensures forall e :: e in r <==> e in s && Kept(e, filterType)
    ensures |r| <= |s|
    decreases |s|
  {
    if |s| == 0 then []
    else (if Kept(s[0], filterType) then [s[0]] else []) + FilterKind(s[1..], filterType)
  }

  /** Each kept entry is kept as often as it occurs, any other not at all. */
  lemma {:induction false} FilterKindCounts(s: seq<Entry>, filterType: string)
    ensures forall e :: multiset(FilterKind(s, filterType))[e] == if Kept(e, filterType) then multiset(s)[e] else 0
    decreases |s|
  {
    if |s| > 0 {
      FilterKindCounts(s[1..], filterType);
      assert s == [s[0]] + s[1..];
    }
  }

  /** Filtering keeps the order of the entries: picking the entries of
      one key before or after filtering gives the same sequence. */
  lemma {:induction false} FilterWithKey(s: seq<Entry>, filterType: string, v: int, newest: bool, time: string -> int)
    ensures WithKey(FilterKind(s, filterType), v, newest, time) == FilterKind(WithKey(s, v, newest, time), filterType)
    decreases |s|
  {
    if |s| > 0 {
      FilterWithKey(s[1..], filterType, v, newest, time);
      var p := if Kept(s[0], filterType) then [s[0]] else [];
      var q := if Key(s[0], newest, time) == v then [s[0]] else [];
      WithKeyAppend(p, FilterKind(s[1..], filterType), v, newest, time);
      FilterAppend(q, WithKey(s[1..], v, newest, time), filterType);
      if Kept(s[0], filterType) {
        WithKeyCons(s[0], [], v, newest, time);
      }
      if Key(s[0], newest, time) == v {
        FilterAppend([s[0]], [], filterType);
      }
    }
  }

  /** With `"all"` nothing is filtered out. */
  lemma {:induction false} FilterAll(s: seq<Entry>)
    ensures FilterKind(s, "all") == s
    decreases |s|
  {
    if |s| > 0 {
      FilterAll(s[1..]);
      assert [s[0]] + s[1..] == s;
    }
  }

  lemma {:induction false} FilterAppend(a: seq<Entry>, b: seq<Entry>, filterType: string)
    ensures FilterKind(a + b, filterType) == FilterKind(a, filterType) + FilterKind(b, filterType)
    decreases |a|
  {
    if |a| > 0 {
      assert (a + b)[1..] == a[1..] + b;
      FilterAppend(a[1..], b, filterType);
    } else {
      assert a + b == b;
    }
  }

  lemma {:induction false} WithKeyAppend(a: seq<Entry>, b: seq<Entry>, v: int, newest: bool, time: string -> int)
    ensures WithKey(a + b, v, newest, time) == WithKey(a, v, newest, time) + WithKey(b, v, newest, time)
    decreases |a|
  {
    if |a| > 0 {
      assert (a + b)[1..] == a[1..] + b;
      WithKeyAppend(a[1..], b, v, newest, time);
    } else {
      assert a + b == b;
    }
  }

  /** The sort key: the comparator `b - a` on times for `"newest"` orders
      by descending time, `a - b` by ascending time; both are ascending
      order on this key. `time` stands for `new Date(timestamp)`. */
  function Key(e: Entry, newest: bool, time: string -> int): int
  {
    if newest then -time(e.timestamp) else time(e.timestamp)
  }

  /** Places `x`, which came before every element of `t`, in front of the
      first element whose key is not smaller. */
  function Insert(x: Entry, t: seq<Entry>, newest: bool, time: string -> int): seq<Entry>
    decreases |t|
  {
    if |t| == 0 || Key(x, newest, time) <= Key(t[0], newest, time) then [x] + t
    else [t[0]] + Insert(x, t[1..], newest, time)
  }

  /** `Array.prototype.sort` with that comparator, which ECMAScript requires
      to be stable: elements with equal keys keep their relative order. */
  function StableSort(s: seq<Entry>, newest: bool, time: string -> int): seq<Entry>
    decreases |s|
  {
    if |s| == 0 then [] else Insert(s[0], StableSort(s[1..], newest, time), newest, time)
  }

  predicate SortedBy(s: seq<Entry>, newest: bool, time: string -> int)
  {
    forall i, j :: 0 <= i < j < |s| ==> Key(s[i], newest, time) <= Key(s[j], newest, time)
  }

  /** The entries with key `v`, in order. */
  function WithKey(s: seq<Entry>, v: int, newest: bool, time: string -> int): seq<Entry>
    decreases |s|
  {
    if |s| == 0 then []
    else (if Key(s[0], newest, time) == v then [s[0]] else []) + WithKey(s[1..], v, newest, time)
  }

  /** `getFilteredAnalyses()` over the entries `recent`. */
  function FilteredAnalyses(recent: seq<Entry>, filterType: string, sortOrder: string, time: string -> int): seq<Entry>
  {
    var filtered := if filterType != "all" then FilterKind(recent, filterType) else recent;
    StableSort(filtered, sortOrder == "newest", time)
  }

  lemma {:induction false} InsertPerm(x: Entry, t: seq<Entry>, newest: bool, time: string -> int)
    ensures multiset(Insert(x, t, newest, time)) == multiset([x] + t)
    decreases |t|
  {
    if |t| > 0 && Key(x, newest, time) > Key(t[0], newest, time) {
      InsertPerm(x, t[1..], newest, time);
      assert t == [t[0]] + t[1..];
    }
  }

  /** Inserting keeps a lower bound on the keys. */
  lemma {:induction false} InsertBound(x: Entry, t: seq<Entry>, low: int, newest: bool, time: string -> int)
    requires forall i :: 0 <= i < |t| ==> low <= Key(t[i], newest, time)
    requires low <= Key(x, newest, time)
    ensures var r := Insert(x, t, newest, time);
            |r| == |t| + 1 && forall i :: 0 <= i < |r| ==> low <= Key(r[i], newest, time)
    decreases |t|
  {
    if |t| > 0 && Key(x, newest, time) > Key(t[0], newest, time) {
      InsertBound(x, t[1..], low, newest, time);
    }
  }

  lemma {:induction false} InsertSorted(x: Entry, t: seq<Entry>, newest: bool, time: string -> int)
    requires SortedBy(t, newest, time)
    ensures SortedBy(Insert(x, t, newest, time), newest, time)
    decreases |t|
  {
    if |t| > 0 && Key(x, newest, time) > Key(t[0], newest, time) {
      var t' := t[1..];
      assert SortedBy(t', newest, time);
      InsertSorted(x, t', newest, time);
      var r := Insert(x, t', newest, time);
      InsertBound(x, t', Key(t[0], newest, time), newest, time);
      var out := [t[0]] + r;
      assert out == Insert(x, t, newest, time);
      forall i, j | 0 <= i < j < |out| ensures Key(out[i], newest, time) <= Key(out[j], newest, time) {
        assert out[j] == r[j - 1];
        if i > 0 {
          assert out[i] == r[i - 1];
        }
      }
    } else {
      var out := [x] + t;
      forall i, j | 0 <= i < j < |out| ensures Key(out[i], newest, time) <= Key(out[j], newest, time) {
        assert out[j] == t[j - 1];
        if i > 0 {
          assert out[i] == t[i - 1];
        }
      }
    }
  }

  /** Inserting `x` places it ahead of every element with its own key, so
      the entries of each key keep their order. */
  lemma {:induction false} InsertWithKey(x: Entry, t: seq<Entry>, v: int, newest: bool, time: string -> int)
    ensures WithKey(Insert(x, t, newest, time), v, newest, time) == WithKey([x] + t, v, newest, time)
    decreases |t|
  {
    if |t| > 0 && Key(x, newest, time) > Key(t[0], newest, time) {
      var t' := t[1..];
      InsertWithKey(x, t', v, newest, time);
      WithKeyCons(t[0], Insert(x, t', newest, time), v, newest, time);
      WithKeyCons(x, t', v, newest, time);
      WithKeyCons(x, t, v, newest, time);
      WithKeyCons(t[0], t', v, newest, time);
      assert [t[0]] + t' == t;
      var px := if Key(x, newest, time) == v then [x] else [];
      var p0 := if Key(t[0], newest, time) == v then [t[0]] else [];
      assert px == [] || p0 == [];
      Swap(p0, px, WithKey(t', v, newest, time));
    } else {
      WithKeyCons(x, t, v, newest, time);
    }
  }

  lemma WithKeyCons(y: Entry, t: seq<Entry>, v: int, newest: bool, time: string -> int)
    ensures WithKey([y] + t, v, newest, time)
         == (if Key(y, newest, time) == v then [y] else []) + WithKey(t, v, newest, time)
  {
    assert ([y] + t)[1..] == t;
  }

  /** Two parts of which one is empty can trade places. */
  lemma Swap(a: seq<Entry>, b: seq<Entry>, c: seq<Entry>)
    requires a == [] || b == []
    ensures a + (b + c) == b + (a + c)
  {
    if a == [] {
      assert a + (b + c) == b + c;
      assert a + c == c;
    } else {
      assert b + c == c;
      assert b + (a + c) == a + c;
    }
  }

  /** The sort keeps the elements: the result is a permutation. */
  lemma {:induction false} SortPerm(s: seq<Entry>, newest: bool, time: string -> int)
    ensures multiset(StableSort(s, newest, time)) == multiset(s)
    decreases |s|
  {
    if |s| > 0 {
      SortPerm(s[1..], newest, time);
      InsertPerm(s[0], StableSort(s[1..], newest, time), newest, time);
      assert s == [s[0]] + s[1..];
    }
  }

  /** The result is ordered by key. */
  lemma {:induction false} SortSorted(s: seq<Entry>, newest: bool, time: string -> int)
    ensures SortedBy(StableSort(s, newest, time), newest, time)
    decreases |s|
  {
    if |s| > 0 {
      SortSorted(s[1..], newest, time);
      InsertSorted(s[0], StableSort(s[1..], newest, time), newest, time);
    }
  }

  /** The sort is stable: the entries of each key come out in their
      original order. */
  lemma {:induction false} SortStable(s: seq<Entry>, v: int, newest: bool, time: string -> int)
    ensures WithKey(StableSort(s, newest, time), v, newest, time) == WithKey(s, v, newest, time)
    decreases |s|
  {
    if |s| > 0 {
      var t := StableSort(s[1..], newest, time);
      SortStable(s[1..], v, newest, time);
      InsertWithKey(s[0], t, v, newest, time);
      assert ([s[0]] + t)[1..] == t;
    }
  }

  /** `getFilteredAnalyses()`: exactly the entries of the chosen type (all of
      them for `"all"`), each as often as in the list, newest first for
      `"newest"` and oldest first for any other order, entries with equal
      times in list order. */
  lemma FilteredMeaning(recent: seq<Entry>, filterType: string, sortOrder: string, time: string -> int, v: int)
    ensures var r := FilteredAnalyses(recent, filterType, sortOrder, time);
            && (forall e :: multiset(r)[e] == if Kept(e, filterType) then multiset(recent)[e] else 0)
            && (forall e :: e in r <==> e in recent && Kept(e, filterType))
            && (sortOrder == "newest" ==> forall i, j :: 0 <= i < j < |r| ==> time(r[i].timestamp) >= time(r[j].timestamp))
            && (sortOrder != "newest" ==> forall i, j :: 0 <= i < j < |r| ==> time(r[i].timestamp) <= time(r[j].timestamp))
            && WithKey(r, v, sortOrder == "newest", time) == FilterKind(WithKey(recent, v, sortOrder == "newest", time), filterType)
  {
    FilteredKept(recent, filterType, sortOrder == "newest", time);
    FilteredCounts(recent, filterType, sortOrder, time);
    FilteredOrder(recent, filterType, sortOrder, time);
    FilteredStable(recent, filterType, sortOrder, time, v);
  }

  /** The list that gets sorted is `FilterKind(recent, filterType)`, also
      for `"all"`. */
  lemma FilteredKept(recent: seq<Entry>, filterType: string, newest: bool, time: string -> int)
    ensures FilteredAnalyses(recent, filterType, if newest then "newest" else "oldest", time)
         == StableSort(FilterKind(recent, filterType), newest, time)
  {
    if filterType == "all" {
      FilterAll(recent);
    }
  }

  lemma FilteredCounts(recent: seq<Entry>, filterType: string, sortOrder: string, time: string -> int)
    ensures var r := FilteredAnalyses(recent, filterType, sortOrder, time);
            && (forall e :: multiset(r)[e] == if Kept(e, filterType) then multiset(recent)[e] else 0)
            && (forall e :: e in r <==> e in recent && Kept(e, filterType))
  {
    var newest := sortOrder == "newest";
    var kept := FilterKind(recent, filterType);
    FilteredKept(recent, filterType, newest, time);
    var r := StableSort(kept, newest, time);
    assert r == FilteredAnalyses(recent, filterType, sortOrder, time);
    SortPerm(kept, newest, time);
    FilterKindCounts(recent, filterType);
    forall e ensures e in r <==> e in recent && Kept(e, filterType) {
      assert e in r <==> e in multiset(r);
      assert e in kept <==> e in multiset(kept);
    }
  }

  lemma FilteredOrder(recent: seq<Entry>, filterType: string, sortOrder: string, time: string -> int)
    ensures var r := FilteredAnalyses(recent, filterType, sortOrder, time);
            && (sortOrder == "newest" ==> forall i, j :: 0 <= i < j < |r| ==> time(r[i].timestamp) >= time(r[j].timestamp))
            && (sortOrder != "newest" ==> forall i, j :: 0 <= i < j < |r| ==> time(r[i].timestamp) <= time(r[j].timestamp))
  {
    var newest := sortOrder == "newest";
    var kept := if filterType != "all" then FilterKind(recent, filterType) else recent;
    var r := StableSort(kept, newest, time);
    SortSorted(kept, newest, time);
    if newest {
      forall i, j | 0 <= i < j < |r| ensures time(r[i].timestamp) >= time(r[j].timestamp) {
        assert Key(r[i], newest, time) <= Key(r[j], newest, time);
      }
    }
  }

  lemma FilteredStable(recent: seq<Entry>, filterType: string, sortOrder: string, time: string -> int, v: int)
    ensures WithKey(FilteredAnalyses(recent, filterType, sortOrder, time), v, sortOrder == "newest", time)
         == FilterKind(WithKey(recent, v, sortOrder == "newest", time), filterType)
  {
    var newest := sortOrder == "newest";
    var kept := FilterKind(recent, filterType);
    FilteredKept(recent, filterType, newest, time);
    assert FilteredAnalyses(recent, filterType, sortOrder, time) == StableSort(kept, newest, time);
    SortStable(kept, v, newest, time);
    FilterWithKey(recent, filterType, v, newest, time);
  }

  /** The dashboard's list state. `recentAnalyses` is never reassigned. */
  class RecentList {
    const recentAnalyses: array<Entry>
    var filterType: string
    var sortOrder: string

    constructor(entries: seq<Entry>)
      ensures fresh(recentAnalyses) && recentAnalyses[..] == entries
      ensures filterType == "all" && sortOrder == "newest"
    {
      recentAnalyses := new Entry[|entries|](i requires 0 <= i < |entries| => entries[i]);
      filterType := "all";
      sortOrder := "newest";
    }

    /** `getFilteredAnalyses()`: the list is copied first, so sorting the
        copy in place leaves `recentAnalyses` as it was. */
    method GetFilteredAnalyses(time: string -> int) returns (filtered: array<Entry>)
      ensures fresh(filtered)
      ensures filtered[..] == FilteredAnalyses(recentAnalyses[..], filterType, sortOrder, time)
      ensures recentAnalyses[..] == old(recentAnalyses[..])
    {
      var copy := recentAnalyses[..];
      if filterType != "all" {
        copy := FilterKind(copy, filterType);
      }
      filtered := new Entry[|copy|](i requires 0 <= i < |copy| => copy[i]);
      assert filtered[..] == copy;
      Sort(filtered, sortOrder == "newest", time);
    }
  }

  /** `a.sort(comparator)` in place. The sort itself is the library's: the
      order `StableSort` specifies is computed first and the loop only writes
      it back into the array. */
  method Sort(a: array<Entry>, newest: bool, time: string -> int)
    modifies a
    ensures a[..] == StableSort(old(a[..]), newest, time)
  {
    var sorted := StableSort(a[..], newest, time);
    SortPerm(a[..], newest, time);
    assert |sorted| == a.Length by {
      assert |multiset(sorted)| == |multiset(a[..])|;
    }
    for i := 0 to a.Length
      invariant forall k :: 0 <= k < i ==> a[k] == sorted[k]
      invariant sorted == StableSort(old(a[..]), newest, time)
    {
      a[i] := sorted[i];
    }
    assert a[..] == sorted;
  }
}
