/** The bounded error history of libs/errors/src/error-reporting.service.ts and its aggregates. */
module ErrorHistory {
  import opened Collections
  import S = StableSort

  /** Timestamps are milliseconds. */
  datatype Report = Report(id: string, timestamp: nat, errorCode: string, severity: string, service: string,
      message: string)

  const MAX_HISTORY := 1000

  // ----- the history -----

  datatype Event = Reported(r: Report) | Cleared

  /** The reports since the last clear. */
  function SinceClear(events: seq<Event>): seq<Report> {
    if events == [] then []
    else match events[|events| - 1]
      case Cleared => []
      case Reported(r) => SinceClear(events[..|events| - 1]) + [r]
  }

  /** They are the reports after the last clear, in order. */
  lemma {:induction false} SinceClearIs(events: seq<Event>, c: nat, k: nat)
    requires c <= |events| && (c > 0 ==> events[c - 1].Cleared?) && forall i :: c <= i < |events| ==>
      events[i].Reported?
    ensures |SinceClear(events)| == |events| - c
    ensures k < |events| - c ==> SinceClear(events)[k] == events[c + k].r
  {
    if |events| > c {
      var init := events[..|events| - 1];
      SinceClearIs(init, c, if k < |init| - c then k else 0);
    }
  }

  function LastOf<T>(s: seq<T>, n: nat): seq<T> {
    if |s| <= n then s else s[|s| - n..]
  }

  lemma LastOfOneMore(s: seq<Report>, r: Report)
    ensures var before := LastOf(s, MAX_HISTORY);
            LastOf(s + [r], MAX_HISTORY) == if |before| < 1000 then before + [r] else before[1..] + [r]
  {
  }

  class ErrorReportingService {
    var errorHistory: seq<Report>
    ghost var events: seq<Event>

    /** The history is the last thousand, or all, of the reports since the last clear. */
    ghost predicate Valid()
      reads this
    {
      errorHistory == LastOf(SinceClear(events), MAX_HISTORY)
    }

    constructor ()
      ensures Valid() && events == []
    {
      errorHistory, events := [], [];
    }

    method StoreError(r: Report)
      requires Valid()
      modifies this
      ensures Valid() && events == old(events) + [Reported(r)]
      ensures |errorHistory| <= 1000 && errorHistory[|errorHistory| - 1] == r
      ensures errorHistory == if |old(errorHistory)| < 1000 then old(errorHistory) + [r]
        else old(errorHistory)[1..] + [r]
    {
      LastOfOneMore(SinceClear(events), r);
      errorHistory := errorHistory + [r];
      if |errorHistory| > MAX_HISTORY {
        errorHistory := errorHistory[|errorHistory| - MAX_HISTORY..];
        assert errorHistory == old(errorHistory)[1..] + [r];
      }
      events := events + [Reported(r)];
      assert events[..|events| - 1] == old(events);
    }

    method ClearErrorHistory()
      requires Valid()
      modifies this
      ensures Valid() && events == old(events) + [Cleared] && errorHistory == []
    {
      errorHistory := [];
      events := events + [Cleared];
    }

    /**
     * The aggregates over the reports of the window, which reaches back `timeWindow` milliseconds, or
     * to the beginning when there is none or it is zero; the rate is per minute of it.
     */
    method GetErrorMetrics(now: nat, timeWindow: Option<int>) returns (m: Metrics)
      requires Valid()
      ensures var relevant := Recent(errorHistory, if timeWindow == None || timeWindow == Some(0) then 0
                                                   else now - timeWindow.value);
              && Aggregates(relevant, m)
              && (if timeWindow == None || timeWindow == Some(0) then m.errorRate == 0.0
                  else m.errorRate == |relevant| as real / (timeWindow.value as real / 60_000.0))
    {
      var windowStart := if timeWindow.Some? && timeWindow.value != 0 then now - timeWindow.value else 0;
      var relevant := Recent(errorHistory, windowStart);
      var errorRate := ErrorRate(|relevant|, timeWindow);
      m := Aggregate(relevant, errorRate);
    }
  }

  method ErrorRate(n: nat, timeWindow: Option<int>) returns (rate: real)
    ensures if timeWindow == None || timeWindow == Some(0) then rate == 0.0
            else rate == n as real / (timeWindow.value as real / 60_000.0)
  {
    if timeWindow.None? || timeWindow.value == 0 {
      return 0.0;
    }
    var minutes := timeWindow.value as real / 60000.0;
    rate := n as real / minutes;
  }

  /** Exact counts that each sum to the total, the last twenty reports with the latest first, and the top errors. */
  ghost predicate Aggregates(relevant: seq<Report>, m: Metrics) {
    && m.totalErrors == |relevant|
    && IsCount(relevant, ByCode(), m.errorsByCode)
    && IsCount(relevant, BySeverity(), m.errorsBySeverity)
    && IsCount(relevant, ByService(), m.errorsByService)
    && IsLatest(relevant, 20, m.recentErrors)
    && IsTop(relevant, m.topErrors)
  }

  method Aggregate(relevant: seq<Report>, errorRate: real) returns (m: Metrics)
    ensures Aggregates(relevant, m) && m.errorRate == errorRate
  {
    var byCode, top := CodeCounts(relevant);
    var bySeverity := Counts(relevant, BySeverity());
    var byService := Counts(relevant, ByService());
    ReversedIsLatest(relevant, 20);
    m := Metrics(|relevant|, byCode, bySeverity, byService, Reversed(LastOf(relevant, 20)), errorRate, top);
  }

  /** What is counted, and which errors are recent, in terms of the reports. */
  lemma AggregatesAre(relevant: seq<Report>, m: Metrics)
    requires Aggregates(relevant, m)
    ensures forall c :: c in m.errorsByCode <==> exists r :: r in relevant && r.errorCode == c
    ensures forall c :: c in m.errorsBySeverity <==> exists r :: r in relevant && r.severity == c
    ensures forall c :: c in m.errorsByService <==> exists r :: r in relevant && r.service == c
    ensures |m.recentErrors| == (if |relevant| < 20 then |relevant| else 20)
    ensures forall i :: 0 <= i < |m.recentErrors| ==> m.recentErrors[i] == relevant[|relevant| - 1 - i]
    ensures forall t :: t in m.topErrors ==> IsNamedByFirst(relevant, t)
  {
    forall k ensures WithKey(relevant, ByCode(), k) != [] <==> exists r :: r in relevant && r.errorCode == k {
      WithKeyIff(relevant, ByCode(), k);
    }
    forall k ensures WithKey(relevant, BySeverity(), k) != [] <==> exists r :: r in relevant && r.severity == k {
      WithKeyIff(relevant, BySeverity(), k);
    }
    forall k ensures WithKey(relevant, ByService(), k) != [] <==> exists r :: r in relevant && r.service == k {
      WithKeyIff(relevant, ByService(), k);
    }
    forall t | t in m.topErrors ensures IsNamedByFirst(relevant, t) {
      NamedByFirst(relevant, t.code);
    }
  }

  lemma {:induction false} WithKeyIff<K(!new)>(s: seq<Report>, key: Report -> K, k: K)
    ensures forall r :: r in WithKey(s, key, k) <==> r in s && key(r) == k
    ensures WithKey(s, key, k) != [] <==> exists r :: r in s && key(r) == k
  {
    if s != [] {
      WithKeyIff(s[..|s| - 1], key, k);
      assert s == s[..|s| - 1] + [s[|s| - 1]];
    }
    if WithKey(s, key, k) != [] {
      assert WithKey(s, key, k)[0] in WithKey(s, key, k);
    }
  }

  function Reversed<T>(s: seq<T>): (r: seq<T>)
    ensures |r| == |s| && forall i :: 0 <= i < |r| ==> r[i] == s[|s| - 1 - i]
  {
    if s == [] then [] else [s[|s| - 1]] + Reversed(s[..|s| - 1])
  }

  /** The last `n` reports, or all, the latest first. */
  predicate IsLatest(s: seq<Report>, n: nat, latest: seq<Report>) {
    && |latest| == (if |s| < n then |s| else n)
    && forall i :: 0 <= i < |latest| ==> latest[i] == s[|s| - 1 - i]
  }

  function ByCode(): Report -> string { (r: Report) => r.errorCode }

  function BySeverity(): Report -> string { (r: Report) => r.severity }

  function ByService(): Report -> string { (r: Report) => r.service }

  function Recent(s: seq<Report>, windowStart: int): (r: seq<Report>)
    ensures forall x :: x in r <==> x in s && x.timestamp > windowStart
  {
    if s == [] then []
    else
      var init, last := s[..|s| - 1], s[|s| - 1];
      assert s == init + [last];
      if last.timestamp > windowStart then Recent(init, windowStart) + [last] else Recent(init, windowStart)
  }

  lemma ReversedIsLatest(s: seq<Report>, n: nat)
    ensures IsLatest(s, n, Reversed(LastOf(s, n)))
  {
  }

  // ----- grouping and counting -----

  /** The reports with a key, in order. */
  function WithKey<K(==)>(s: seq<Report>, key: Report -> K, k: K): seq<Report> {
    if s == [] then []
    else
      var rest := WithKey(s[..|s| - 1], key, k);
      if key(s[|s| - 1]) == k then rest + [s[|s| - 1]] else rest
  }

  ghost predicate IsGrouping(s: seq<Report>, key: Report -> string, groups: map<string, seq<Report>>) {
    && (forall k :: k in groups ==> groups[k] != [] && groups[k] == WithKey(s, key, k))
    && (forall k :: WithKey(s, key, k) != [] ==> k in groups)
  }

  method GroupBy(s: seq<Report>, key: Report -> string) returns (groups: map<string, seq<Report>>)
    ensures IsGrouping(s, key, groups)
  {
    groups := map[];
    for i := 0 to |s|
      invariant IsGrouping(s[..i], key, groups)
    {
      assert s[..i + 1][..i] == s[..i];
      var k := key(s[i]);
      if k !in groups {
        groups := groups[k := [s[i]]];
      } else {
        groups := groups[k := groups[k] + [s[i]]];
      }
    }
    assert s[..|s|] == s;
  }

  /** The sizes of the groups. */
  method Counts(s: seq<Report>, key: Report -> string) returns (counts: map<string, nat>)
    ensures IsCount(s, key, counts)
  {
    var groups := GroupBy(s, key);
    CountsAddUp(s, key, groups);
    counts := CountBy(groups);
  }

  function CountBy(groups: map<string, seq<Report>>): (counts: map<string, nat>) {
    map k | k in groups :: |groups[k]|
  }

  ghost function Sum<K>(counts: map<K, nat>): nat
    decreases |counts|
  {
    if counts == map[] then 0
    else
      var k :| k in counts;
      counts[k] + Sum(counts - {k})
  }

  lemma {:induction false} SumSplits<K>(counts: map<K, nat>, k: K)
    requires k in counts
    ensures Sum(counts) == counts[k] + Sum(counts - {k})
    decreases |counts|
  {
    var m :| m in counts && Sum(counts) == counts[m] + Sum(counts - {m});
    if m != k {
      SumSplits(counts - {m}, k);
      SumSplits(counts - {k}, m);
      assert counts - {m} - {k} == counts - {k} - {m};
    }
  }

  /** How often each key occurs, for exactly the keys that occur. */
  ghost predicate Tallies<K(!new)>(s: seq<Report>, key: Report -> K, counts: map<K, nat>) {
    && (forall k :: k in counts <==> WithKey(s, key, k) != [])
    && (forall k :: k in counts ==> counts[k] == |WithKey(s, key, k)|)
  }

  /** A tally that counts every report once. */
  ghost predicate IsCount<K(!new)>(s: seq<Report>, key: Report -> K, counts: map<K, nat>) {
    && Tallies(s, key, counts)
    && Sum(counts) == |s|
  }

  lemma CountsAddUp(s: seq<Report>, key: Report -> string, groups: map<string, seq<Report>>)
    requires IsGrouping(s, key, groups)
    ensures IsCount(s, key, CountBy(groups))
  {
    KeyCountsSum(s, key, CountBy(groups));
  }

  /** Whatever the key, its counts sum to the number of reports. */
  lemma {:induction false} KeyCountsSum<K(!new)>(s: seq<Report>, key: Report -> K, counts: map<K, nat>)
    requires Tallies(s, key, counts)
    ensures Sum(counts) == |s|
  {
    if s == [] {
      assert forall k :: WithKey(s, key, k) == [];
      assert counts == map[];
    } else {
      var init, k := s[..|s| - 1], key(s[|s| - 1]);
      assert forall j :: j != k ==> WithKey(s, key, j) == WithKey(init, key, j);
      assert WithKey(s, key, k) == WithKey(init, key, k) + [s[|s| - 1]];
      var before := |WithKey(init, key, k)|;
      var smaller: map<K, nat> := if before == 0 then counts - {k} else counts[k := before];
      KeyCountsSum(init, key, smaller);
      assert k in counts;
      SumWithout(counts, smaller, k);
    }
  }

  lemma SumWithout<K>(counts: map<K, nat>, smaller: map<K, nat>, k: K)
    requires k in counts && counts[k] > 0
    requires smaller == if counts[k] == 1 then counts - {k} else counts[k := counts[k] - 1]
    ensures Sum(counts) == Sum(smaller) + 1
  {
    SumSplits(counts, k);
    if counts[k] > 1 {
      SumSplits(smaller, k);
      assert smaller - {k} == counts - {k};
    }
  }

  // ----- trends and top errors -----

  const HOUR_MS := 60 * 60 * 1000

  function ByHour(): Report -> nat { (r: Report) => r.timestamp / HOUR_MS }

  /** getErrorTrends before its final sort: reports per hour, the hour being the timestamp cut to its hour. */
  method HourlyErrors(relevant: seq<Report>) returns (hourly: map<nat, nat>)
    ensures IsCount(relevant, ByHour(), hourly)
  {
    hourly := map[];
    for i := 0 to |relevant|
      invariant Tallies(relevant[..i], ByHour(), hourly)
    {
      assert relevant[..i + 1][..i] == relevant[..i];
      var hour := ByHour()(relevant[i]);
      hourly := hourly[hour := (if hour in hourly then hourly[hour] else 0) + 1];
    }
    assert relevant[..|relevant|] == relevant;
    KeyCountsSum(relevant, ByHour(), hourly);
  }

  /** The hour of a report: the whole hours of 3.6 million milliseconds before it. */
  lemma HourOf(r: Report)
    ensures ByHour()(r) * 3_600_000 <= r.timestamp < (ByHour()(r) + 1) * 3_600_000
  {
  }

  datatype TopError = TopError(code: string, count: nat, message: string)

  datatype Metrics = Metrics(totalErrors: nat, errorsByCode: map<string, nat>, errorsBySeverity: map<string, nat>,
                             errorsByService: map<string, nat>, recentErrors: seq<Report>, errorRate: real,
                             topErrors: seq<TopError>)

  function CountKey(): TopError -> real {
    (t: TopError) => -(t.count as real)
  }

  function EntryFor(relevant: seq<Report>, code: string): TopError {
    var group := WithKey(relevant, ByCode(), code);
    var message := if group == [] then "" else group[0].message;
    TopError(code, |group|, if message == "" then "Unknown error" else message)
  }

  /**
   * The ten, or all, most frequent codes: descending, distinct, and no code left out is more
   * frequent than one kept.
   */
  ghost predicate IsTop(relevant: seq<Report>, top: seq<TopError>) {
    && |top| <= 10
    && (forall i, j :: 0 <= i < j < |top| ==> top[i].code != top[j].code && top[i].count >= top[j].count)
    && (forall t :: t in top ==> t.count > 0 && t == EntryFor(relevant, t.code))
    && (forall code :: EntryFor(relevant, code).count > 0 && EntryFor(relevant, code) !in top ==>
          |top| == 10 && forall t :: t in top ==> EntryFor(relevant, code).count <= t.count)
  }

  /** The entry counts the reports of its code, and carries the message of the first of them unless that is empty. */
  predicate IsNamedByFirst(relevant: seq<Report>, t: TopError) {
    && t.count == |WithKey(relevant, ByCode(), t.code)|
    && exists i :: 0 <= i < |relevant| && relevant[i].errorCode == t.code
                   && (forall j :: 0 <= j < i ==> relevant[j].errorCode != t.code)
                   && t.message == if relevant[i].message != "" then relevant[i].message else "Unknown error"
  }

  /** There is one such entry for a code, and its count is how many reports have the code. */
  lemma OneEntryPerCode(relevant: seq<Report>, t: TopError, u: TopError)
    requires IsNamedByFirst(relevant, t) && IsNamedByFirst(relevant, u) && t.code == u.code
    ensures t == u
  {
    var i :| 0 <= i < |relevant| && relevant[i].errorCode == t.code
             && (forall j :: 0 <= j < i ==> relevant[j].errorCode != t.code)
             && t.message == if relevant[i].message != "" then relevant[i].message else "Unknown error";
    var k :| 0 <= k < |relevant| && relevant[k].errorCode == u.code
             && (forall j :: 0 <= j < k ==> relevant[j].errorCode != u.code)
             && u.message == if relevant[k].message != "" then relevant[k].message else "Unknown error";
  }

  lemma {:induction false} FirstWithKey(s: seq<Report>, code: string) returns (i: nat)
    requires WithKey(s, ByCode(), code) != []
    ensures i < |s| && s[i] == WithKey(s, ByCode(), code)[0] && s[i].errorCode == code
    ensures forall j :: 0 <= j < i ==> s[j].errorCode != code
  {
    var init := s[..|s| - 1];
    if WithKey(init, ByCode(), code) != [] {
      i := FirstWithKey(init, code);
    } else {
      i := |s| - 1;
      NoneWithKey(init, code);
      assert forall j :: 0 <= j < i ==> s[j] == init[j];
    }
  }

  lemma {:induction false} NoneWithKey(s: seq<Report>, code: string)
    requires WithKey(s, ByCode(), code) == []
    ensures forall j :: 0 <= j < |s| ==> s[j].errorCode != code
  {
    if s != [] {
      NoneWithKey(s[..|s| - 1], code);
      assert forall j :: 0 <= j < |s| - 1 ==> s[j] == s[..|s| - 1][j];
    }
  }

  lemma NamedByFirst(relevant: seq<Report>, code: string)
    requires EntryFor(relevant, code).count > 0
    ensures IsNamedByFirst(relevant, EntryFor(relevant, code))
  {
    var i := FirstWithKey(relevant, code);
  }

  method TopErrors(relevant: seq<Report>, byCode: map<string, seq<Report>>) returns (top: seq<TopError>)
    requires IsGrouping(relevant, ByCode(), byCode)
    ensures IsTop(relevant, top)
  {
    var entries := Entries(relevant, byCode);
    var sorted := S.Sort(entries, CountKey());
    S.SortSorts(entries, CountKey());
    S.SortKeepsElements(entries, CountKey());
    S.SamePermutationNoDup(entries, sorted);
    top := if |sorted| < 10 then sorted else sorted[..10];
    SliceIsTop(relevant, byCode, sorted, top);
  }

  /** The groups by code, counted and ranked. */
  method CodeCounts(relevant: seq<Report>) returns (counts: map<string, nat>, top: seq<TopError>)
    ensures IsCount(relevant, ByCode(), counts) && IsTop(relevant, top)
  {
    var byCode := GroupBy(relevant, ByCode());
    CountsAddUp(relevant, ByCode(), byCode);
    counts := CountBy(byCode);
    top := TopErrors(relevant, byCode);
  }

  /** One entry per code, in any order. */
  method Entries(relevant: seq<Report>, byCode: map<string, seq<Report>>) returns (entries: seq<TopError>)
    requires IsGrouping(relevant, ByCode(), byCode)
    ensures NoDup(entries)
    ensures forall t :: t in entries <==> t.code in byCode && t == EntryFor(relevant, t.code)
  {
    var todo := byCode.Keys;
    entries := [];
    while todo != {}
      invariant todo <= byCode.Keys && NoDup(entries)
      invariant forall t :: t in entries <==> t.code in byCode && t.code !in todo && t == EntryFor(relevant, t.code)
      decreases todo
    {
      var k :| k in todo;
      var first := byCode[k][0].message;
      var e := TopError(k, |byCode[k]|, if first == "" then "Unknown error" else first);
      assert e == EntryFor(relevant, k) && e !in entries;
      entries := entries + [e];
      todo := todo - {k};
    }
  }

  lemma SliceIsTop(relevant: seq<Report>, byCode: map<string, seq<Report>>, sorted: seq<TopError>, top: seq<TopError>)
    requires IsGrouping(relevant, ByCode(), byCode)
    requires S.Ascending(sorted, CountKey()) && NoDup(sorted)
    requires forall t :: t in sorted <==> t.code in byCode && t == EntryFor(relevant, t.code)
    requires top == if |sorted| < 10 then sorted else sorted[..10]
    ensures IsTop(relevant, top)
  {
    forall i, j | 0 <= i < j < |sorted| ensures sorted[i].count >= sorted[j].count && sorted[i].code != sorted[j].code {
      assert CountKey()(sorted[i]) <= CountKey()(sorted[j]);
      assert sorted[i] in sorted && sorted[j] in sorted;
    }
    forall t | t in top ensures t in sorted {}
    forall code | EntryFor(relevant, code).count > 0 && EntryFor(relevant, code) !in top
      ensures |top| == 10 && forall t :: t in top ==> EntryFor(relevant, code).count <= t.count
    {
      var e := EntryFor(relevant, code);
      assert code in byCode && e in sorted;
      LeftOutIsLess(sorted, top, e);
    }
  }

  lemma LeftOutIsLess(sorted: seq<TopError>, top: seq<TopError>, e: TopError)
    requires forall i, j :: 0 <= i < j < |sorted| ==> sorted[i].count >= sorted[j].count
    requires top == if |sorted| < 10 then sorted else sorted[..10]
    requires e in sorted && e !in top
    ensures |top| == 10 && forall t :: t in top ==> e.count <= t.count
  {
    forall k | 0 <= k < |top| ensures sorted[k] in top {
      assert top[k] == sorted[k];
    }
    var j :| 0 <= j < |sorted| && sorted[j] == e;
    forall t | t in top ensures e.count <= t.count {
      var i :| 0 <= i < |top| && top[i] == t;
      assert sorted[i] == t;
    }
  }
}
