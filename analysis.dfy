/**
 * The analysis of saved timing results (analyze_results.py): results are
 * grouped by their `(n_workers, threads_per_worker)` configuration, the
 * groups are visited in ascending configuration order, the numeric
 * metrics of each group are summarised, every `total_time` is summarised
 * across all groups, and the configurations are ranked by their average
 * `total_time`. Reading the files and printing are not modelled.
 */
module Analysis {
  import opened Wrappers
  import opened Json
  import opened Ordering
  import opened Stats
  import opened Grouping

  /** A loaded result file: a JSON object, its entries in file order. */
  type Record = seq<(string, Value)>

  const NWorkersKey := "n_workers"
  const ThreadsKey := "threads_per_worker"
  const TotalTimeKey := "total_time"

  /** `k in r` */
  predicate Has(r: Record, k: string)
  {
    r != [] && (r[|r| - 1].0 == k || Has(r[..|r| - 1], k))
  }

  /** `r.get(k)`: the value under `k`, or `None` when `k` is missing. */
  function Get(r: Record, k: string): Value
  {
    if r == [] then Null
    else if r[|r| - 1].0 == k then r[|r| - 1].1
    else Get(r[..|r| - 1], k)
  }

  /** A loaded JSON object never repeats a key. */
  ghost predicate IsDict(r: Record)
  {
    forall i, j :: 0 <= i < j < |r| ==> r[i].0 != r[j].0
  }

  lemma {:induction false} HasEntry(r: Record, k: string)
    ensures Has(r, k) <==> exists i :: 0 <= i < |r| && r[i].0 == k
    ensures !Has(r, k) ==> Get(r, k) == Null
  {
    if r != [] {
      var n := |r| - 1;
      HasEntry(r[..n], k);
      if Has(r[..n], k) {
        var i :| 0 <= i < n && r[..n][i].0 == k;
        assert r[i].0 == k;
      }
      if r[n].0 != k {
        forall i | 0 <= i < |r| && r[i].0 == k ensures i < n && r[..n][i].0 == k {
        }
      }
    }
  }

  // ---------------------------------------------------------------------
  // Configuration keys and their order

  /** `(result.get('n_workers'), result.get('threads_per_worker'))` */
  datatype ConfigKey = ConfigKey(nWorkers: Value, threadsPerWorker: Value)

  function KeyOf(r: Record): ConfigKey
  {
    ConfigKey(Get(r, NWorkersKey), Get(r, ThreadsKey))
  }

  /** The position of a value's type in the order of values of different types. */
  function Rank(v: Value): nat
  {
    match v
    case Num(_) => 0
    case Str(_) => 1
    case Null => 2
    case Other => 3
  }

  /** `a < b`: numbers by value, strings lexicographically, other mixes by type. */
  predicate ValueLess(a: Value, b: Value)
  {
    if a.Num? && b.Num? then a.x < b.x
    else if a.Str? && b.Str? then StrLess(a.s, b.s)
    else Rank(a) < Rank(b)
  }

  /** Tuple comparison: by the first component, then by the second. */
  predicate KeyLess(a: ConfigKey, b: ConfigKey)
  {
    ValueLess(a.nWorkers, b.nWorkers)
    || (a.nWorkers == b.nWorkers && ValueLess(a.threadsPerWorker, b.threadsPerWorker))
  }

  predicate KeyLe(a: ConfigKey, b: ConfigKey)
  {
    a == b || KeyLess(a, b)
  }

  lemma ValueLessIrreflexive(a: Value)
    ensures !ValueLess(a, a)
  {
    if a.Str? { StrLessIrreflexive(a.s); }
  }

  lemma ValueLessTransitive(a: Value, b: Value, c: Value)
    requires ValueLess(a, b) && ValueLess(b, c)
    ensures ValueLess(a, c)
  {
    if a.Str? && b.Str? && c.Str? { StrLessTransitive(a.s, b.s, c.s); }
  }

  lemma ValueLessTotal(a: Value, b: Value)
    requires a != b
    ensures ValueLess(a, b) || ValueLess(b, a)
  {
    if a.Str? && b.Str? { StrLessTotal(a.s, b.s); }
  }

  /** The configuration order is a strict total order. */
  lemma KeyLessStrictTotal(a: ConfigKey, b: ConfigKey, c: ConfigKey)
    ensures !KeyLess(a, a)
    ensures KeyLess(a, b) && KeyLess(b, c) ==> KeyLess(a, c)
    ensures a != b ==> KeyLess(a, b) || KeyLess(b, a)
  {
    ValueLessIrreflexive(a.nWorkers);
    ValueLessIrreflexive(a.threadsPerWorker);
    if KeyLess(a, b) && KeyLess(b, c) {
      if ValueLess(a.nWorkers, b.nWorkers) && ValueLess(b.nWorkers, c.nWorkers) {
        ValueLessTransitive(a.nWorkers, b.nWorkers, c.nWorkers);
      } else if ValueLess(a.threadsPerWorker, b.threadsPerWorker) && ValueLess(b.threadsPerWorker, c.threadsPerWorker) {
        ValueLessTransitive(a.threadsPerWorker, b.threadsPerWorker, c.threadsPerWorker);
      }
    }
    if a != b {
      if a.nWorkers != b.nWorkers {
        ValueLessTotal(a.nWorkers, b.nWorkers);
      } else {
        ValueLessTotal(a.threadsPerWorker, b.threadsPerWorker);
      }
    }
  }

  lemma KeyLeIsTotalPreorder()
    ensures IsTotalPreorder(KeyLe)
  {
    forall a, b ensures KeyLe(a, b) || KeyLe(b, a) {
      KeyLessStrictTotal(a, b, a);
    }
    forall a, b, c | KeyLe(a, b) && KeyLe(b, c) ensures KeyLe(a, c) {
      KeyLessStrictTotal(a, b, c);
    }
  }

  /**
   * Sorting distinct keys puts them in strictly ascending order, and
   * keeps exactly the same keys.
   */
  lemma SortedKeysAscending(ks: seq<ConfigKey>)
    requires Distinct(ks)
    ensures var s := SortBy(ks, KeyLe);
      && multiset(s) == multiset(ks) && Distinct(s)
      && forall i, j :: 0 <= i < j < |s| ==> KeyLess(s[i], s[j])
  {
    var s := SortBy(ks, KeyLe);
    KeyLeIsTotalPreorder();
    SortBySorted(ks, KeyLe);
    PermutationDistinct(ks, s);
  }

  // ---------------------------------------------------------------------
  // Grouping (analyze_results.py:47-50, repeated at 103-106)

  function Self(r: Record): Record { r }

  /**
   * The grouping loop: appends each result to the list of its key,
   * creating the list the first time the key is seen.
   */
  method GroupByConfig(results: seq<Record>) returns (groups: map<ConfigKey, seq<Record>>, order: seq<ConfigKey>)
    ensures order == KeyOrder(results, KeyOf)
    ensures forall k :: k in groups <==> k in order
    ensures forall k :: k in groups ==> groups[k] == WithKey(results, KeyOf, k)
  {
    groups := map[];
    order := [];
    for i := 0 to |results|
      invariant IsGrouping(groups, order, results[..i], KeyOf, Self)
    {
      var result := results[i];
      assert results[..i + 1] == results[..i] + [result];
      GroupingSnoc(groups, order, results[..i], KeyOf, Self, result);
      var key := KeyOf(result);
      var list := if key in groups then groups[key] else [];
      if key !in groups {
        order := order + [key];
      }
      groups := groups[key := list + [result]];
    }
    assert results[..|results|] == results;
    forall k | k in groups ensures groups[k] == WithKey(results, KeyOf, k) {
      ValuesSelf(WithKey(results, KeyOf, k), Self);
    }
  }

  // ---------------------------------------------------------------------
  // Metric collection (analyze_results.py:59-63)

  /** `isinstance(value, (int, float)) and not key.startswith('_')` */
  predicate IsMetric(name: string, v: Value)
  {
    v.Num? && !(|name| > 0 && name[0] == '_')
  }

  /** One appended value: the metric's name and the number. */
  type Entry = (string, real)

  function EntryName(e: Entry): string { e.0 }

  function EntryValue(e: Entry): real { e.1 }

  /** The metric entries of one result, in item order. */
  function MetricItems(r: Record): seq<Entry>
  {
    if r == [] then []
    else
      var n := |r| - 1;
      MetricItems(r[..n]) + (if IsMetric(r[n].0, r[n].1) then [(r[n].0, r[n].1.x)] else [])
  }

  /** Every metric entry the loop appends, in the order it appends them. */
  function MetricEntries(rs: seq<Record>): seq<Entry>
  {
    if rs == [] then [] else MetricEntries(rs[..|rs| - 1]) + MetricItems(rs[|rs| - 1])
  }

  /** The keys of `metrics`, in the order they are created. */
  function MetricNames(rs: seq<Record>): seq<string>
  {
    KeyOrder(MetricEntries(rs), EntryName)
  }

  /** `metrics[name]` after the loop. */
  function MetricList(rs: seq<Record>, name: string): seq<real>
  {
    Values(WithKey(MetricEntries(rs), EntryName, name), EntryValue)
  }

  /**
   * Reference definition: the value of `name` in each result where it is
   * a metric, in the order of the results.
   */
  function MetricColumn(rs: seq<Record>, name: string): seq<real>
  {
    if rs == [] then []
    else
      var r := rs[|rs| - 1];
      MetricColumn(rs[..|rs| - 1], name) + MetricOf(r, name)
  }

  method CollectMetrics(rs: seq<Record>) returns (metrics: map<string, seq<real>>, names: seq<string>)
    ensures names == MetricNames(rs)
    ensures forall k :: k in metrics <==> k in names
    ensures forall k :: k in metrics ==> metrics[k] == MetricList(rs, k)
  {
    metrics := map[];
    names := [];
    ghost var es: seq<Entry> := [];
    for i := 0 to |rs|
      invariant es == MetricEntries(rs[..i])
      invariant IsGrouping(metrics, names, es, EntryName, EntryValue)
    {
      var result := rs[i];
      ghost var before := es;
      for j := 0 to |result|
        invariant es == before + MetricItems(result[..j])
        invariant IsGrouping(metrics, names, es, EntryName, EntryValue)
      {
        var (key, value) := result[j];
        MetricItemsSnoc(result, j);
        if IsMetric(key, value) {
          GroupingSnoc(metrics, names, es, EntryName, EntryValue, (key, value.x));
          var list := if key in metrics then metrics[key] else [];
          if key !in metrics {
            names := names + [key];
          }
          metrics := metrics[key := list + [value.x]];
          AppendAssociative(before, MetricItems(result[..j]), [(key, value.x)]);
          es := es + [(key, value.x)];
        }
      }
      assert result[..|result|] == result;
      MetricEntriesSnoc(rs, i);
    }
    assert rs[..|rs|] == rs;
  }

  lemma MetricItemsSnoc(r: Record, j: nat)
    requires j < |r|
    ensures MetricItems(r[..j + 1]) ==
      MetricItems(r[..j]) + (if IsMetric(r[j].0, r[j].1) then [(r[j].0, r[j].1.x)] else [])
  {
    assert r[..j + 1][..j] == r[..j];
  }

  lemma MetricEntriesSnoc(rs: seq<Record>, i: nat)
    requires i < |rs|
    ensures MetricEntries(rs[..i + 1]) == MetricEntries(rs[..i]) + MetricItems(rs[i])
  {
    assert rs[..i + 1][..i] == rs[..i];
  }

  /** Every collected name is a metric name: it does not start with `_`. */
  lemma MetricNamesPublic(rs: seq<Record>, name: string)
    requires name in MetricNames(rs)
    ensures !(|name| > 0 && name[0] == '_')
  {
    var es := MetricEntries(rs);
    KeyOrderHasGroups(es, EntryName, name);
    WithKeyMembers(es, EntryName, name);
    var e := WithKey(es, EntryName, name)[0];
    assert e in es && e.0 == name;
    MetricEntriesArePublic(rs, e);
  }

  lemma {:induction false} MetricEntriesArePublic(rs: seq<Record>, e: Entry)
    requires e in MetricEntries(rs)
    ensures !(|e.0| > 0 && e.0[0] == '_')
  {
    var n := |rs| - 1;
    if e in MetricEntries(rs[..n]) {
      MetricEntriesArePublic(rs[..n], e);
    } else {
      MetricItemsArePublic(rs[n], e);
    }
  }

  lemma {:induction false} MetricItemsArePublic(r: Record, e: Entry)
    requires e in MetricItems(r)
    ensures !(|e.0| > 0 && e.0[0] == '_')
  {
    var n := |r| - 1;
    if e in MetricItems(r[..n]) {
      MetricItemsArePublic(r[..n], e);
    }
  }

  /** For one result: the metric entries named `name` are its value, if that is a metric. */
  lemma {:induction false} RecordMetric(r: Record, name: string)
    requires IsDict(r)
    ensures Values(WithKey(MetricItems(r), EntryName, name), EntryValue) == MetricOf(r, name)
  {
    if r != [] {
      var n := |r| - 1;
      var ps, last := r[..n], r[n];
      assert r == ps + [last];
      assert IsDict(ps);
      RecordMetric(ps, name);
      LastItem(ps, last, name);
      if last.0 == name {
        HasEntry(ps, name);
        assert MetricOf(ps, name) == [];
        assert Get(r, name) == last.1;
      } else {
        assert Get(r, name) == Get(ps, name);
      }
    }
  }

  /** The metric value of `name` in one result, if it has one. */
  function MetricOf(r: Record, name: string): seq<real>
  {
    if IsMetric(name, Get(r, name)) then [Get(r, name).x] else []
  }

  lemma LastItem(ps: Record, last: (string, Value), name: string)
    ensures Values(WithKey(MetricItems(ps + [last]), EntryName, name), EntryValue) ==
      Values(WithKey(MetricItems(ps), EntryName, name), EntryValue)
      + (if last.0 == name && IsMetric(name, last.1) then [last.1.x] else [])
  {
    var e: seq<Entry> := if IsMetric(last.0, last.1) then [(last.0, last.1.x)] else [];
    assert (ps + [last])[..|ps|] == ps;
    assert MetricItems(ps + [last]) == MetricItems(ps) + e;
    WithKeyAppend(MetricItems(ps), e, EntryName, name);
    ValuesAppend(WithKey(MetricItems(ps), EntryName, name), WithKey(e, EntryName, name), EntryValue);
  }

  /**
   * Each metric's list holds, in the order of the results, the value of
   * every result in which that name is a metric.
   */
  lemma {:induction false} MetricListInResultOrder(rs: seq<Record>, name: string)
    requires forall i :: 0 <= i < |rs| ==> IsDict(rs[i])
    ensures MetricList(rs, name) == MetricColumn(rs, name)
  {
    if rs != [] {
      var n := |rs| - 1;
      var ps, r := rs[..n], rs[n];
      assert rs == ps + [r];
      MetricListInResultOrder(ps, name);
      RecordMetric(r, name);
      MetricSnoc(ps, r, name);
    }
  }

  lemma MetricSnoc(ps: seq<Record>, r: Record, name: string)
    ensures MetricList(ps + [r], name) ==
      MetricList(ps, name) + Values(WithKey(MetricItems(r), EntryName, name), EntryValue)
    ensures MetricColumn(ps + [r], name) == MetricColumn(ps, name) + MetricOf(r, name)
  {
    assert (ps + [r])[..|ps|] == ps;
    WithKeyAppend(MetricEntries(ps), MetricItems(r), EntryName, name);
    ValuesAppend(WithKey(MetricEntries(ps), EntryName, name), WithKey(MetricItems(r), EntryName, name), EntryValue);
  }

  lemma {:induction false} MetricColumnNonEmpty(rs: seq<Record>, name: string)
    ensures MetricColumn(rs, name) != [] <==> exists r :: r in rs && IsMetric(name, Get(r, name))
  {
    if rs != [] {
      var n := |rs| - 1;
      MetricColumnNonEmpty(rs[..n], name);
      assert forall r :: r in rs <==> r in rs[..n] || r == rs[n];
      assert MetricOf(rs[n], name) != [] <==> IsMetric(name, Get(rs[n], name));
      if IsMetric(name, Get(rs[n], name)) {
        assert rs[n] in rs;
      }
    }
  }

  /** A name is collected exactly when it is a metric of some result. */
  lemma MetricNamesExact(rs: seq<Record>, name: string)
    requires forall i :: 0 <= i < |rs| ==> IsDict(rs[i])
    ensures name in MetricNames(rs) <==> exists r :: r in rs && IsMetric(name, Get(r, name))
  {
    KeyOrderHasGroups(MetricEntries(rs), EntryName, name);
    MetricListInResultOrder(rs, name);
    MetricColumnNonEmpty(rs, name);
  }

  /** Every collected name has at least one value. */
  lemma MetricListsNonEmpty(rs: seq<Record>, names: seq<string>)
    requires multiset(names) == multiset(MetricNames(rs))
    ensures forall k :: k in names ==> MetricList(rs, k) != []
  {
    forall k | k in names ensures MetricList(rs, k) != [] {
      assert k in multiset(MetricNames(rs));
      KeyOrderHasGroups(MetricEntries(rs), EntryName, k);
    }
  }

  // ---------------------------------------------------------------------
  // Per-group report (analyze_results.py:53-80)

  /** What is printed for one metric: its only value, or a summary. */
  datatype MetricReport =
    | Single(value: real)
    | Spread(mean: real, sampleVariance: real, median: real, min: real, max: real)

  /**
   * More than one value: mean, sample variance (`stdev` is its square
   * root), median, minimum and maximum; otherwise the one value.
   */
  function Summarize(vs: seq<real>): MetricReport
    requires vs != []
  {
    if |vs| > 1 then Spread(Mean(vs), SampleVariance(vs), Median(vs), Min(vs), Max(vs))
    else Single(vs[0])
  }

  /**
   * One value is reported as itself; several as a summary whose mean and
   * median lie between their minimum and maximum, which bound every value.
   */
  lemma SummarizeBounds(vs: seq<real>)
    requires vs != []
    ensures var m := Summarize(vs);
      && (m.Single? <==> |vs| == 1)
      && (m.Single? ==> m.value == vs[0])
      && (m.Spread? ==> m.min in vs && m.max in vs)
      && (m.Spread? ==> forall x :: x in vs ==> m.min <= x <= m.max)
      && (m.Spread? ==> m.min <= m.mean <= m.max && m.min <= m.median <= m.max)
      && (m.Spread? ==> m.sampleVariance >= 0.0)
  {
    if |vs| > 1 {
      MeanWithinRange(vs);
      MedianWithinRange(vs);
      VariancesNonNegative(vs);
    }
  }

  datatype ConfigReport = ConfigReport(key: ConfigKey, runs: nat, metrics: seq<(string, MetricReport)>)

  /** The report lines of the metrics `names`, in that order. */
  function MetricReports(group: seq<Record>, names: seq<string>): seq<(string, MetricReport)>
    requires forall k :: k in names ==> MetricList(group, k) != []
  {
    if names == [] then []
    else
      var n := |names| - 1;
      MetricReports(group, names[..n]) + [Line(group, names[n])]
  }

  /** The report line of one metric. */
  function Line(group: seq<Record>, name: string): (string, MetricReport)
    requires MetricList(group, name) != []
  {
    (name, Summarize(MetricList(group, name)))
  }

  lemma {:induction false} MetricReportsAt(group: seq<Record>, names: seq<string>)
    requires forall k :: k in names ==> MetricList(group, k) != []
    ensures var ms := MetricReports(group, names);
      |ms| == |names| && forall i :: 0 <= i < |ms| ==> ms[i] == Line(group, names[i])
  {
    if names != [] {
      var n := |names| - 1;
      var ps := names[..n];
      MetricReportsAt(group, ps);
      var ms, prev := MetricReports(group, names), MetricReports(group, ps);
      assert ms == prev + [Line(group, names[n])];
      forall i | 0 <= i < n ensures ms[i] == Line(group, names[i]) {
        assert ms[i] == prev[i] && ps[i] == names[i];
      }
    }
  }

  /** The report of one group: its size and its metrics in name order. */
  function ReportOf(group: seq<Record>, key: ConfigKey): ConfigReport
  {
    var names := SortBy(MetricNames(group), StrLe);
    MetricListsNonEmpty(group, names);
    ConfigReport(key, |group|, MetricReports(group, names))
  }

  method ReportGroup(group: seq<Record>, key: ConfigKey) returns (c: ConfigReport)
    ensures c == ReportOf(group, key)
  {
    var metrics, names := CollectMetrics(group);
    var sorted := SortBy(names, StrLe);
    MetricListsNonEmpty(group, sorted);
    var reports: seq<(string, MetricReport)> := [];
    for j := 0 to |sorted|
      invariant reports == MetricReports(group, sorted[..j])
    {
      assert sorted[..j + 1][..j] == sorted[..j];
      assert sorted[j] in multiset(names);
      var values := metrics[sorted[j]];
      reports := reports + [(sorted[j], Summarize(values))];
    }
    assert sorted[..|sorted|] == sorted;
    c := ConfigReport(key, |group|, reports);
  }

  /** A group's metrics are reported once each, in ascending name order. */
  lemma ReportMetricsAscending(group: seq<Record>, key: ConfigKey)
    ensures var ms := ReportOf(group, key).metrics;
      && |ms| == |MetricNames(group)|
      && (forall i, j :: 0 <= i < j < |ms| ==> StrLess(ms[i].0, ms[j].0))
      && (forall k :: k in MetricNames(group) <==> exists i :: 0 <= i < |ms| && ms[i].0 == k)
  {
    var names := MetricNames(group);
    KeyOrderDistinct(MetricEntries(group), EntryName);
    SortedNamesAscending(names);
    MetricListsNonEmpty(group, SortBy(names, StrLe));
    MetricReportsAt(group, SortBy(names, StrLe));
  }

  /** Sorting distinct names gives the same names in strictly ascending order. */
  lemma SortedNamesAscending(names: seq<string>)
    requires Distinct(names)
    ensures var s := SortBy(names, StrLe);
      && |s| == |names|
      && (forall i, j :: 0 <= i < j < |s| ==> StrLess(s[i], s[j]))
      && (forall k :: k in names <==> exists i :: 0 <= i < |s| && s[i] == k)
  {
    var s := SortBy(names, StrLe);
    StrLeIsTotalPreorder();
    SortDistinct(names, StrLe);
    forall k ensures k in names <==> exists i :: 0 <= i < |s| && s[i] == k {
      assert k in names <==> k in multiset(names);
      assert k in s <==> k in multiset(s);
    }
  }

  // ---------------------------------------------------------------------
  // Overall summary (analyze_results.py:89-96)

  /** `[r['total_time'] for r in results if 'total_time' in r]` */
  function TotalTimes(rs: seq<Record>): seq<Value>
  {
    if rs == [] then []
    else
      var r := rs[|rs| - 1];
      TotalTimes(rs[..|rs| - 1]) + (if Has(r, TotalTimeKey) then [Get(r, TotalTimeKey)] else [])
  }

  /** The list as numbers, or `None` when `statistics.mean` would raise `TypeError`. */
  function Numbers(vs: seq<Value>): (xs: Option<seq<real>>)
    ensures xs.Some? <==> forall i :: 0 <= i < |vs| ==> vs[i].Num?
    ensures xs.Some? ==> |xs.value| == |vs| && forall i :: 0 <= i < |vs| ==> xs.value[i] == vs[i].x
  {
    if vs == [] then Some([])
    else
      var n := |vs| - 1;
      match Numbers(vs[..n])
      case None => None
      case Some(ys) => if vs[n].Num? then Some(ys + [vs[n].x]) else None
  }

  datatype Overall =
    | NoTotals
    | Totals(mean: real, sampleVariance: Option<real>, min: real, max: real)
    | NotNumeric

  /**
   * The overall summary of the `total_time` values: nothing without any,
   * mean, minimum, maximum and (with more than one) the sample variance.
   */
  function Summary(vs: seq<Value>): (o: Overall)
    ensures o.NoTotals? <==> vs == []
    ensures o.NotNumeric? <==> exists i :: 0 <= i < |vs| && !vs[i].Num?
    ensures o.Totals? ==> o.min <= o.mean <= o.max
    ensures o.Totals? ==> forall i :: 0 <= i < |vs| ==> o.min <= vs[i].x <= o.max
    ensures o.Totals? ==> (o.sampleVariance.Some? <==> |vs| > 1)
    ensures o.Totals? && o.sampleVariance.Some? ==> o.sampleVariance.value >= 0.0
  {
    if vs == [] then NoTotals
    else
      match Numbers(vs)
      case None => NotNumeric
      case Some(xs) =>
        MeanWithinRange(xs);
        VariancesNonNegative(xs);
        assert forall i :: 0 <= i < |vs| ==> vs[i].x in xs;
        Totals(Mean(xs), if |xs| > 1 then Some(SampleVariance(xs)) else None, Min(xs), Max(xs))
  }

  /** The overall summary takes `total_time` from every result that has it. */
  lemma {:induction false} TotalTimesFromEveryResult(rs: seq<Record>, v: Value)
    ensures v in TotalTimes(rs) <==> exists r :: r in rs && Has(r, TotalTimeKey) && Get(r, TotalTimeKey) == v
  {
    if rs != [] {
      var n := |rs| - 1;
      TotalTimesFromEveryResult(rs[..n], v);
      assert forall r :: r in rs <==> r in rs[..n] || r == rs[n];
      if Has(rs[n], TotalTimeKey) && Get(rs[n], TotalTimeKey) == v {
        assert rs[n] in rs;
      }
    }
  }

  // ---------------------------------------------------------------------
  // The whole analysis (analyze_results.py:36-98)

  datatype Analysis =
    | NoResults
    | Report(configs: seq<ConfigReport>, overall: Overall)

  /** The reports of the groups of `keys`, in that order. */
  function ConfigReports(rs: seq<Record>, keys: seq<ConfigKey>): seq<ConfigReport>
  {
    if keys == [] then []
    else
      var n := |keys| - 1;
      ConfigReports(rs, keys[..n]) + [ReportOf(WithKey(rs, KeyOf, keys[n]), keys[n])]
  }

  lemma {:induction false} ConfigReportsAt(rs: seq<Record>, keys: seq<ConfigKey>)
    ensures var cs := ConfigReports(rs, keys);
      |cs| == |keys| && forall i :: 0 <= i < |cs| ==> cs[i] == ReportOf(WithKey(rs, KeyOf, keys[i]), keys[i])
  {
    if keys != [] {
      var n := |keys| - 1;
      var ps := keys[..n];
      ConfigReportsAt(rs, ps);
      var cs, prev := ConfigReports(rs, keys), ConfigReports(rs, ps);
      assert cs == prev + [ReportOf(WithKey(rs, KeyOf, keys[n]), keys[n])];
      forall i | 0 <= i < n ensures cs[i] == ReportOf(WithKey(rs, KeyOf, keys[i]), keys[i]) {
        assert cs[i] == prev[i] && ps[i] == keys[i];
      }
    }
  }

  lemma ConfigReportsSnoc(rs: seq<Record>, keys: seq<ConfigKey>, i: nat)
    requires i < |keys|
    ensures ConfigReports(rs, keys[..i + 1]) ==
      ConfigReports(rs, keys[..i]) + [ReportOf(WithKey(rs, KeyOf, keys[i]), keys[i])]
  {
    assert keys[..i + 1][..i] == keys[..i];
  }

  function AnalysisOf(rs: seq<Record>): Analysis
  {
    if rs == [] then NoResults
    else Report(ConfigReports(rs, SortBy(KeyOrder(rs, KeyOf), KeyLe)), Summary(TotalTimes(rs)))
  }

  method AnalyzeResults(results: seq<Record>) returns (a: Analysis)
    ensures a == AnalysisOf(results)
  {
    if results == [] {
      return NoResults;
    }
    var groups, order := GroupByConfig(results);
    var keys := SortBy(order, KeyLe);
    var configs: seq<ConfigReport> := [];
    for i := 0 to |keys|
      invariant configs == ConfigReports(results, keys[..i])
    {
      ConfigReportsSnoc(results, keys, i);
      assert keys[i] in multiset(order);
      var report := ReportGroup(groups[keys[i]], keys[i]);
      configs := configs + [report];
    }
    assert keys[..|keys|] == keys;
    a := Report(configs, Summary(TotalTimes(results)));
  }

  /**
   * Every group is reported exactly once, in strictly ascending key
   * order, with its size as the number of runs.
   */
  lemma ReportsInKeyOrder(rs: seq<Record>)
    requires rs != []
    ensures var a := AnalysisOf(rs);
      && a.Report?
      && |a.configs| == |KeyOrder(rs, KeyOf)|
      && (forall i, j :: 0 <= i < j < |a.configs| ==> KeyLess(a.configs[i].key, a.configs[j].key))
      && (forall k :: k in KeyOrder(rs, KeyOf) <==> exists i :: 0 <= i < |a.configs| && a.configs[i].key == k)
      && (forall i :: 0 <= i < |a.configs| ==> a.configs[i].runs == |WithKey(rs, KeyOf, a.configs[i].key)|)
  {
    var ks := KeyOrder(rs, KeyOf);
    var s := SortBy(ks, KeyLe);
    KeyOrderDistinct(rs, KeyOf);
    SortedKeysAscending(ks);
    ConfigReportsAt(rs, s);
    var cs := AnalysisOf(rs).configs;
    ReportsListKeys(ks, s, cs);
  }

  lemma ReportsListKeys(ks: seq<ConfigKey>, s: seq<ConfigKey>, cs: seq<ConfigReport>)
    requires multiset(s) == multiset(ks) && |cs| == |s|
    requires forall i :: 0 <= i < |cs| ==> cs[i].key == s[i]
    ensures forall k :: k in ks <==> exists i :: 0 <= i < |cs| && cs[i].key == k
  {
    forall k ensures k in ks <==> exists i :: 0 <= i < |cs| && cs[i].key == k {
      if k in ks {
        assert k in multiset(s);
        var i :| 0 <= i < |s| && s[i] == k;
        assert cs[i].key == k;
      }
      if exists i :: 0 <= i < |cs| && cs[i].key == k {
        var i :| 0 <= i < |cs| && cs[i].key == k;
        assert s[i] in multiset(ks);
      }
    }
  }

  // ---------------------------------------------------------------------
  // Configuration comparison (analyze_results.py:101-135)

  /** One row of the comparison table. */
  datatype Ranked = Ranked(key: ConfigKey, avgTime: real, runs: nat)

  datatype Comparison =
    | Skipped
    | Ranking(entries: seq<Ranked>)
    | TotalsNotNumeric

  /** The sort key of `configs.sort`: the average time. */
  predicate AvgLe(a: Ranked, b: Ranked)
  {
    a.avgTime <= b.avgTime
  }

  predicate KeyBefore(a: Ranked, b: Ranked)
  {
    KeyLess(a.key, b.key)
  }

  /** The `total_time` values of the group of `k`. */
  function GroupTotals(rs: seq<Record>, k: ConfigKey): seq<Value>
  {
    TotalTimes(WithKey(rs, KeyOf, k))
  }

  /**
   * The rows before sorting, for the groups of `keys` in that order: a
   * group without `total_time` adds none; `None` when a mean would raise.
   */
  function RankedEntries(rs: seq<Record>, keys: seq<ConfigKey>): Option<seq<Ranked>>
  {
    if keys == [] then Some([])
    else AddRow(rs, RankedEntries(rs, keys[..|keys| - 1]), keys[|keys| - 1])
  }

  /** One step of the loop: the row of the group of `k`, if it has `total_time` values. */
  function AddRow(rs: seq<Record>, rows: Option<seq<Ranked>>, k: ConfigKey): Option<seq<Ranked>>
  {
    match rows
    case None => None
    case Some(prev) =>
      var tt := GroupTotals(rs, k);
      if tt == [] then rows
      else
        match Numbers(tt)
        case None => None
        case Some(xs) => Some(prev + [Ranked(k, Mean(xs), |xs|)])
  }

  lemma RankedEntriesSnoc(rs: seq<Record>, keys: seq<ConfigKey>, i: nat)
    requires i < |keys|
    ensures RankedEntries(rs, keys[..i + 1]) == AddRow(rs, RankedEntries(rs, keys[..i]), keys[i])
  {
    assert keys[..i + 1][..i] == keys[..i];
  }

  function ComparisonOf(rs: seq<Record>): Comparison
  {
    var ks := KeyOrder(rs, KeyOf);
    if |ks| < 2 then Skipped
    else
      match RankedEntries(rs, SortBy(ks, KeyLe))
      case None => TotalsNotNumeric
      case Some(es) => Ranking(SortBy(es, AvgLe))
  }

  method CompareConfigs(results: seq<Record>) returns (c: Comparison)
    ensures c == ComparisonOf(results)
  {
    var groups, order := GroupByConfig(results);
    KeyOrderDistinct(results, KeyOf);
    MapSize(groups, order);
    if |groups| < 2 {
      return Skipped;
    }
    var keys := SortBy(order, KeyLe);
    var configs: seq<Ranked> := [];
    for i := 0 to |keys|
      invariant RankedEntries(results, keys[..i]) == Some(configs)
    {
      RankedEntriesSnoc(results, keys, i);
      assert keys[i] in multiset(order);
      var totalTimes := TotalTimes(groups[keys[i]]);
      if totalTimes != [] {
        var xs := Numbers(totalTimes);
        if xs.None? {
          RankedNoneStays(results, keys, i + 1);
          return TotalsNotNumeric;
        }
        configs := configs + [Ranked(keys[i], Mean(xs.value), |xs.value|)];
      }
    }
    assert keys[..|keys|] == keys;
    c := Ranking(SortBy(configs, AvgLe));
  }

  lemma {:induction false} RankedNoneStays(rs: seq<Record>, keys: seq<ConfigKey>, i: nat)
    requires i <= |keys| && RankedEntries(rs, keys[..i]) == None
    ensures RankedEntries(rs, keys) == None
  {
    if i < |keys| {
      var n := |keys| - 1;
      assert keys[..n][..i] == keys[..i];
      RankedNoneStays(rs, keys[..n], i);
    } else {
      assert keys[..i] == keys;
    }
  }

  /** The map has one entry per key of a list without repeats. */
  lemma MapSize<K, V>(m: map<K, V>, s: seq<K>)
    requires (forall k :: k in m <==> k in s) && Distinct(s)
    ensures |m| == |s|
  {
    assert m.Keys == set k | k in s;
    DistinctCard(s);
  }

  /** No ranking is made unless there are at least two configurations. */
  lemma ComparisonSkipped(rs: seq<Record>)
    ensures ComparisonOf(rs).Skipped? <==> |set r | r in rs :: KeyOf(r)| < 2
  {
    KeyOrderDistinct(rs, KeyOf);
    KeyOrderElements(rs, KeyOf);
    DistinctCard(KeyOrder(rs, KeyOf));
    assert (set r | r in rs :: KeyOf(r)) == set k | k in KeyOrder(rs, KeyOf);
  }

  /**
   * The ranking fails with a `TypeError` exactly when a group's
   * `total_time` values are not all numbers.
   */
  lemma ComparisonFails(rs: seq<Record>)
    requires 2 <= |KeyOrder(rs, KeyOf)|
    ensures ComparisonOf(rs).TotalsNotNumeric? <==>
      exists k :: k in KeyOrder(rs, KeyOf) && Numbers(GroupTotals(rs, k)).None?
  {
    var ks := KeyOrder(rs, KeyOf);
    var s := SortBy(ks, KeyLe);
    RankedEntriesNone(rs, s);
    forall k ensures k in s <==> k in ks {
      assert k in s <==> k in multiset(s);
    }
  }

  lemma {:induction false} RankedEntriesNone(rs: seq<Record>, keys: seq<ConfigKey>)
    ensures RankedEntries(rs, keys).None? <==> exists k :: k in keys && Numbers(GroupTotals(rs, k)).None?
  {
    if keys != [] {
      var n := |keys| - 1;
      RankedEntriesNone(rs, keys[..n]);
      assert forall k :: k in keys <==> k in keys[..n] || k == keys[n];
    }
  }

  /** The rows keep the order of `keys`, and each row is its group's. */
  ghost predicate RankedAs(rs: seq<Record>, e: Ranked)
  {
    var tt := GroupTotals(rs, e.key);
    && tt != [] && Numbers(tt).Some?
    && e.avgTime == Mean(Numbers(tt).value) && e.runs == |tt|
  }

  lemma {:induction false} RankedEntriesRows(rs: seq<Record>, keys: seq<ConfigKey>, e: Ranked)
    requires RankedEntries(rs, keys).Some?
    ensures e in RankedEntries(rs, keys).value <==> e.key in keys && RankedAs(rs, e)
  {
    if keys != [] {
      var n := |keys| - 1;
      RankedEntriesRows(rs, keys[..n], e);
      assert forall k :: k in keys <==> k in keys[..n] || k == keys[n];
      if e.key == keys[n] && e.key !in keys[..n] {
        RankedEntriesKeys(rs, keys[..n]);
      }
    }
  }

  lemma {:induction false} RankedEntriesKeys(rs: seq<Record>, keys: seq<ConfigKey>)
    requires RankedEntries(rs, keys).Some?
    ensures forall e :: e in RankedEntries(rs, keys).value ==> e.key in keys
  {
    if keys != [] {
      var n := |keys| - 1;
      RankedEntriesKeys(rs, keys[..n]);
    }
  }

  /** Rows for keys in strictly ascending order are in strictly ascending key order. */
  lemma {:induction false} RankedEntriesAscending(rs: seq<Record>, keys: seq<ConfigKey>)
    requires forall i, j :: 0 <= i < j < |keys| ==> KeyLess(keys[i], keys[j])
    requires RankedEntries(rs, keys).Some?
    ensures var es := RankedEntries(rs, keys).value;
      forall i, j :: 0 <= i < j < |es| ==> KeyBefore(es[i], es[j])
  {
    if keys != [] {
      var n := |keys| - 1;
      RankedEntriesAscending(rs, keys[..n]);
      RankedEntriesKeys(rs, keys[..n]);
      var prev := RankedEntries(rs, keys[..n]).value;
      forall e | e in prev ensures KeyLess(e.key, keys[n]) {
        var i :| 0 <= i < n && keys[..n][i] == e.key;
      }
    }
  }

  /**
   * A configuration gets a row exactly when its group has `total_time`
   * values; the row holds their mean and their number.
   */
  lemma RankingRows(rs: seq<Record>, e: Ranked)
    requires ComparisonOf(rs).Ranking?
    ensures e in ComparisonOf(rs).entries <==> e.key in KeyOrder(rs, KeyOf) && RankedAs(rs, e)
  {
    var ks := KeyOrder(rs, KeyOf);
    var s := SortBy(ks, KeyLe);
    var es := RankedEntries(rs, s).value;
    RankedEntriesRows(rs, s, e);
    assert e in ComparisonOf(rs).entries <==> e in multiset(es);
    assert e.key in s <==> e.key in multiset(ks);
  }

  /**
   * The ranking is ascending by average time, and configurations with
   * the same average stay in ascending key order.
   */
  lemma RankingOrder(rs: seq<Record>)
    requires ComparisonOf(rs).Ranking?
    ensures var es := ComparisonOf(rs).entries;
      && (forall i, j :: 0 <= i < j < |es| ==> es[i].avgTime <= es[j].avgTime)
      && (forall i, j :: 0 <= i < j < |es| && es[i].avgTime == es[j].avgTime ==> KeyLess(es[i].key, es[j].key))
  {
    var ks := KeyOrder(rs, KeyOf);
    var s := SortBy(ks, KeyLe);
    KeyOrderDistinct(rs, KeyOf);
    SortedKeysAscending(ks);
    RankedEntriesAscending(rs, s);
    var es := RankedEntries(rs, s).value;
    assert ComparisonOf(rs).entries == SortBy(es, AvgLe);
    SortByAverage(es);
  }

  /** `configs.sort(key=avg_time)` on rows in ascending key order. */
  lemma SortByAverage(es: seq<Ranked>)
    requires forall i, j :: 0 <= i < j < |es| ==> KeyBefore(es[i], es[j])
    ensures var t := SortBy(es, AvgLe);
      && (forall i, j :: 0 <= i < j < |t| ==> t[i].avgTime <= t[j].avgTime)
      && (forall i, j :: 0 <= i < j < |t| && t[i].avgTime == t[j].avgTime ==> KeyLess(t[i].key, t[j].key))
  {
    assert IsTotalPreorder(AvgLe);
    SortBySorted(es, AvgLe);
    SortByStable(es, AvgLe, KeyBefore);
  }
}
