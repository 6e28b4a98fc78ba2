/**
 * The in-process timing study (dask_timing_study.py): one measurement of
 * cluster start-up, the loop that repeats it and turns each outcome into a
 * run record, the per-metric statistics over the successful runs, and the
 * exit status of the command. Every call into the cluster library, every
 * clock reading and the file write are inputs.
 */
module TimingStudy {
  import opened Wrappers
  import opened Ordering
  import opened Stats

  /** A dictionary of numbers, in insertion order (a Python dict keeps it). */
  type Fields = seq<(string, real)>

  function Names(f: Fields): (ns: seq<string>)
    ensures |ns| == |f| && forall i :: 0 <= i < |f| ==> ns[i] == f[i].0
  {
    if f == [] then [] else [f[0].0] + Names(f[1..])
  }

  /** `d[k]`, the value under the first occurrence of `k`. */
  function Lookup(f: Fields, k: string): real
    requires k in Names(f)
  {
    if f[0].0 == k then f[0].1 else Lookup(f[1..], k)
  }

  /** `d[k] = v`: overwrite in place when `k` is present, append otherwise. */
  function SetField(f: Fields, k: string, v: real): Fields
  {
    if f == [] then [(k, v)]
    else if f[0].0 == k then [(k, v)] + f[1..]
    else [f[0]] + SetField(f[1..], k, v)
  }

  /**
   * After `d[k] = v` the keys keep their order, `k` is appended when it
   * was missing, `d[k]` is `v` and every other entry is unchanged.
   */
  lemma {:induction false} SetFieldSpec(f: Fields, k: string, v: real)
    ensures var g := SetField(f, k, v);
      && (k in Names(f) ==> Names(g) == Names(f))
      && (k !in Names(f) ==> Names(g) == Names(f) + [k])
      && k in Names(g) && Lookup(g, k) == v
      && forall j :: j in Names(f) && j != k ==> Lookup(g, j) == Lookup(f, j)
  {
    if f != [] && f[0].0 != k {
      SetFieldSpec(f[1..], k, v);
    }
  }

  /** A run record: the phase timings of a run, or `{run, error}` for a run that raised. */
  datatype RunRecord = Measured(fields: Fields) | Failed(run: int, error: string)

  /** `'error' in r` */
  predicate HasError(r: RunRecord)
  {
    r.Failed? || "error" in Names(r.fields)
  }

  /** What `measure_cluster_startup` did: returned its timings or raised. */
  datatype Measurement = Timings(fields: Fields) | Raised(message: string)

  /** The record the run loop appends for run number `run` (1-based). */
  function RecordFor(run: int, m: Measurement): RunRecord
  {
    match m
    case Timings(f) => Measured(SetField(f, "run", run as real))
    case Raised(e) => Failed(run, e)
  }

  /** The `run` entry of a record. */
  function RunOf(r: RunRecord): real
    requires r.Measured? ==> "run" in Names(r.fields)
  {
    match r
    case Measured(f) => Lookup(f, "run")
    case Failed(n, _) => n as real
  }

  /**
   * Every record carries its run number, a failed run's record holds the
   * error message, and a record has an `error` key exactly when the run
   * raised or the measurement itself reported one.
   */
  lemma RecordNumbered(run: int, m: Measurement)
    ensures var r := RecordFor(run, m);
      && (r.Measured? ==> "run" in Names(r.fields))
      && RunOf(r) == run as real
      && (m.Raised? ==> r == Failed(run, m.message))
      && (HasError(r) <==> m.Raised? || "error" in Names(m.fields))
  {
    if m.Timings? {
      SetFieldSpec(m.fields, "run", run as real);
    }
  }

  // ---------------------------------------------------------------------
  // measure_cluster_startup

  /** The calls into the cluster library, in the order the measurement makes them. */
  datatype ClusterCall =
    | StartCluster | ConnectClient | ScaleWorkers | WaitForWorkers
    | RunFirstTask | QueryScheduler | CloseClient | CloseCluster

  const CallOrder: seq<ClusterCall> :=
    [StartCluster, ConnectClient, ScaleWorkers, WaitForWorkers,
     RunFirstTask, QueryScheduler, CloseClient, CloseCluster]

  /** The error of the first call in `calls[from..]` that raises, if any. */
  function FirstError(raises: ClusterCall -> Option<string>, calls: seq<ClusterCall>, from: nat): Option<string>
    requires from <= |calls|
    decreases |calls| - from
  {
    if from == |calls| then None
    else if raises(calls[from]).Some? then raises(calls[from])
    else FirstError(raises, calls, from + 1)
  }

  /**
   * No error is reported exactly when no call raises; otherwise it is the
   * error of a call that raises, and every call before it returned.
   */
  lemma {:induction false} FirstErrorIsFirst(raises: ClusterCall -> Option<string>, calls: seq<ClusterCall>, from: nat)
    requires from <= |calls|
    ensures var e := FirstError(raises, calls, from);
      && (e.None? <==> forall i :: from <= i < |calls| ==> raises(calls[i]).None?)
      && (e.Some? ==> exists i :: (from <= i < |calls| && raises(calls[i]) == e &&
            forall j :: from <= j < i ==> raises(calls[j]).None?))
    decreases |calls| - from
  {
    if from < |calls| && raises(calls[from]).None? {
      FirstErrorIsFirst(raises, calls, from + 1);
      var e := FirstError(raises, calls, from + 1);
      if e.Some? {
        var i :| from + 1 <= i < |calls| && raises(calls[i]) == e &&
          forall j :: from + 1 <= j < i ==> raises(calls[j]).None?;
        assert forall j :: from <= j < i ==> raises(calls[j]).None?;
      }
    }
  }

  /** Readings of a non-decreasing clock. */
  ghost predicate Monotone(clock: nat -> real)
  {
    forall i: nat, j: nat :: i <= j ==> clock(i) <= clock(j)
  }

  /** The dictionary a measurement that returns has filled, in its order. */
  function PhaseTimings(clock: nat -> real, workersSeen: nat): Fields
  {
    [("scheduler_startup", clock(1) - clock(0)),
     ("client_connection", clock(3) - clock(2)),
     ("workers_startup", clock(5) - clock(4)),
     ("first_task_execution", clock(7) - clock(6)),
     ("total_cluster_ready", clock(7) - clock(0)),
     ("actual_workers", workersSeen as real)]
  }

  /**
   * On a non-decreasing clock every phase lasts zero seconds or more, and
   * the four phases together last no longer than the whole start-up.
   */
  lemma PhaseTimingsBounded(clock: nat -> real, workersSeen: nat)
    ensures Names(PhaseTimings(clock, workersSeen)) ==
      ["scheduler_startup", "client_connection", "workers_startup",
       "first_task_execution", "total_cluster_ready", "actual_workers"]
    ensures Monotone(clock) ==>
      var t := PhaseTimings(clock, workersSeen);
      && t[0].1 >= 0.0 && t[1].1 >= 0.0 && t[2].1 >= 0.0 && t[3].1 >= 0.0
      && t[0].1 + t[1].1 + t[2].1 + t[3].1 <= t[4].1
  {
    if Monotone(clock) {
      assert clock(0) <= clock(1) <= clock(2) <= clock(3);
      assert clock(3) <= clock(4) <= clock(5) <= clock(6) <= clock(7);
    }
  }

  /**
   * One start-up measurement. `clock(0)` .. `clock(7)` are the eight
   * `time.time()` readings in program order (cluster start, scheduler
   * ready, client start, client connected, workers start, workers ready,
   * first task start, first task complete); `raises(c)` is the error call
   * `c` raises, if it does; `workersSeen` is the number of workers the
   * scheduler reports.
   */
  method MeasureClusterStartup(clock: nat -> real, raises: ClusterCall -> Option<string>, workersSeen: nat)
    returns (m: Measurement)
    ensures m.Raised? <==> FirstError(raises, CallOrder, 0).Some?
    ensures m.Raised? ==> Some(m.message) == FirstError(raises, CallOrder, 0)
    ensures m.Timings? ==> m.fields == PhaseTimings(clock, workersSeen)
  {
    var timings: Fields := [];
    var clusterStart := clock(0);
    if raises(StartCluster).Some? { return Raised(raises(StartCluster).value); }
    var schedulerReady := clock(1);
    timings := timings + [("scheduler_startup", schedulerReady - clusterStart)];

    var clientStart := clock(2);
    if raises(ConnectClient).Some? { return Raised(raises(ConnectClient).value); }
    var clientConnected := clock(3);
    timings := timings + [("client_connection", clientConnected - clientStart)];

    var workersStart := clock(4);
    if raises(ScaleWorkers).Some? { return Raised(raises(ScaleWorkers).value); }
    if raises(WaitForWorkers).Some? { return Raised(raises(WaitForWorkers).value); }
    var workersReady := clock(5);
    timings := timings + [("workers_startup", workersReady - workersStart)];

    var firstTaskStart := clock(6);
    if raises(RunFirstTask).Some? { return Raised(raises(RunFirstTask).value); }
    var firstTaskComplete := clock(7);
    timings := timings + [("first_task_execution", firstTaskComplete - firstTaskStart)];
    timings := timings + [("total_cluster_ready", firstTaskComplete - clusterStart)];

    if raises(QueryScheduler).Some? { return Raised(raises(QueryScheduler).value); }
    timings := timings + [("actual_workers", workersSeen as real)];

    if raises(CloseClient).Some? { return Raised(raises(CloseClient).value); }
    if raises(CloseCluster).Some? { return Raised(raises(CloseCluster).value); }
    assert timings == PhaseTimings(clock, workersSeen);
    m := Timings(timings);
  }

  // ---------------------------------------------------------------------
  // run_timing_study

  /** The number of runs among the first `n` whose measurement returned. */
  function Successes(measure: nat -> Measurement, n: nat): nat
  {
    if n == 0 then 0
    else Successes(measure, n - 1) + (if measure(n - 1).Timings? then 1 else 0)
  }

  /** Neither `run` nor `error` is among the names of the phase timings. */
  lemma PhaseTimingsNames(clock: nat -> real, workersSeen: nat)
    ensures "run" !in Names(PhaseTimings(clock, workersSeen))
    ensures "error" !in Names(PhaseTimings(clock, workersSeen))
  {
    var ns := Names(PhaseTimings(clock, workersSeen));
    PhaseTimingsBounded(clock, workersSeen);
    assert forall i :: 0 <= i < |ns| ==> |ns[i]| > |"error"| > |"run"|;
  }

  /**
   * A run whose measurement returned is never counted as failed: its
   * record holds the six timings and then `run`, and no `error` entry.
   */
  lemma MeasuredRecordValid(run: int, clock: nat -> real, workersSeen: nat)
    ensures var r := RecordFor(run, Timings(PhaseTimings(clock, workersSeen)));
      && Names(r.fields) == Names(PhaseTimings(clock, workersSeen)) + ["run"]
      && !HasError(r) && RunOf(r) == run as real
  {
    var t := PhaseTimings(clock, workersSeen);
    PhaseTimingsNames(clock, workersSeen);
    SetFieldSpec(t, "run", run as real);
    var g := SetField(t, "run", run as real);
    assert "error" !in Names(t) + ["run"];
    assert RecordFor(run, Timings(t)) == Measured(g);
  }

  /**
   * The record of a returned measurement names each of its entries once,
   * so the first and the last occurrence of a name are the same entry.
   */
  lemma MeasuredNamesDistinct(run: int, clock: nat -> real, workersSeen: nat)
    ensures Distinct(Names(RecordFor(run, Timings(PhaseTimings(clock, workersSeen))).fields))
  {
    MeasuredRecordValid(run, clock, workersSeen);
    PhaseNamesDistinct(clock, workersSeen);
  }

  /** The six timing names and `run` are pairwise different. */
  lemma PhaseNamesDistinct(clock: nat -> real, workersSeen: nat)
    ensures Distinct(Names(PhaseTimings(clock, workersSeen)) + ["run"])
  {
    var f := PhaseTimings(clock, workersSeen);
    var ns := Names(f) + ["run"];
    var lens := [17, 17, 15, 20, 19, 14, 3];
    assert |ns| == 7;
    assert ns[0] == f[0].0 && ns[1] == f[1].0 && ns[2] == f[2].0;
    assert ns[3] == f[3].0 && ns[4] == f[4].0 && ns[5] == f[5].0 && ns[6] == "run";
    assert ns[0][0] != ns[1][0];
    assert forall i :: 0 <= i < 7 ==> |ns[i]| == lens[i];
    forall i, j | 0 <= i < j < |ns|
      ensures ns[i] != ns[j]
    {
      if (i, j) != (0, 1) {
        assert lens[i] != lens[j];
      }
    }
  }

  /**
   * The outer loop. `measure(k)` is what the measurement of the k-th run
   * (0-based) does; `pauses` counts the one-second sleeps, taken after
   * every successful run but the last.
   */
  method RunTimingStudy(nRuns: int, measure: nat -> Measurement)
    returns (results: seq<RunRecord>, pauses: nat)
    ensures |results| == (if nRuns > 0 then nRuns else 0)
    ensures forall k :: 0 <= k < |results| ==> results[k] == RecordFor(k + 1, measure(k))
    ensures pauses == if nRuns > 1 then Successes(measure, nRuns - 1) else 0
  {
    results := [];
    pauses := 0;
    var run := 0;
    while run < nRuns
      invariant 0 <= run && (nRuns > 0 ==> run <= nRuns) && (nRuns <= 0 ==> run == 0)
      invariant |results| == run
      invariant forall k :: 0 <= k < run ==> results[k] == RecordFor(k + 1, measure(k))
      invariant pauses == Successes(measure, if run > 0 && run == nRuns then run - 1 else run)
    {
      ghost var before := results;
      var m := measure(run);
      match m {
        case Timings(f) =>
          var timings := SetField(f, "run", (run + 1) as real);
          results := results + [Measured(timings)];
          if run < nRuns - 1 {
            pauses := pauses + 1;
          }
        case Raised(e) =>
          results := results + [Failed(run + 1, e)];
      }
      assert results == before + [RecordFor(run + 1, m)];
      run := run + 1;
    }
  }

  // ---------------------------------------------------------------------
  // calculate_statistics

  /** The fields of the records without an `error` key, in order. */
  function ValidRecords(results: seq<RunRecord>): (v: seq<Fields>)
    ensures |v| <= |results|
  {
    if results == [] then []
    else if HasError(results[0]) then ValidRecords(results[1..])
    else [results[0].fields] + ValidRecords(results[1..])
  }

  const NotTimings: seq<string> := ["run", "actual_workers", "error"]

  /** The names of a record, leaving out `run`, `actual_workers` and `error`. */
  function TimingKeys(names: seq<string>): (ks: seq<string>)
    ensures forall k :: k in ks <==> k in names && k !in NotTimings
  {
    if names == [] then []
    else if names[0] in NotTimings then TimingKeys(names[1..])
    else [names[0]] + TimingKeys(names[1..])
  }

  /** `[r[key] for r in valid if key in r]` */
  function ValuesOf(valid: seq<Fields>, key: string): (vs: seq<real>)
    ensures |vs| <= |valid|
  {
    if valid == [] then []
    else if key in Names(valid[0]) then [Lookup(valid[0], key)] + ValuesOf(valid[1..], key)
    else ValuesOf(valid[1..], key)
  }

  /** The number of records that have `key`. */
  function CountHaving(valid: seq<Fields>, key: string): nat
  {
    if valid == [] then 0
    else (if key in Names(valid[0]) then 1 else 0) + CountHaving(valid[1..], key)
  }

  /** Per-metric statistics; `variance` is the square of `std_dev`. */
  datatype MetricStats = MetricStats(mean: real, min: real, max: real, count: nat, variance: real)

  function StatsOf(values: seq<real>): MetricStats
    requires values != []
  {
    MetricStats(Mean(values), Min(values), Max(values), |values|,
                if |values| > 1 then PopulationVariance(values) else 0.0)
  }

  /** The statistics dictionary built for `keys`, in their order. */
  function StatisticsFor(valid: seq<Fields>, keys: seq<string>): seq<(string, MetricStats)>
  {
    if keys == [] then []
    else
      var n := |keys| - 1;
      var rest := StatisticsFor(valid, keys[..n]);
      var values := ValuesOf(valid, keys[n]);
      if values == [] then rest else rest + [(keys[n], StatsOf(values))]
  }

  /** What `calculate_statistics(results)` returns. */
  function Statistics(results: seq<RunRecord>): seq<(string, MetricStats)>
  {
    var valid := ValidRecords(results);
    if valid == [] then [] else StatisticsFor(valid, TimingKeys(Names(valid[0])))
  }

  method CalculateStatistics(results: seq<RunRecord>) returns (statistics: seq<(string, MetricStats)>)
    ensures statistics == Statistics(results)
  {
    var valid := ValidRecords(results);
    if valid == [] {
      return [];
    }
    var timingKeys := TimingKeys(Names(valid[0]));
    statistics := [];
    for i := 0 to |timingKeys|
      invariant statistics == StatisticsFor(valid, timingKeys[..i])
    {
      assert timingKeys[..i + 1][..i] == timingKeys[..i];
      var values := ValuesOf(valid, timingKeys[i]);
      if values != [] {
        var stats := StatsOf(values);
        statistics := statistics + [(timingKeys[i], stats)];
      }
    }
    assert timingKeys[..|timingKeys|] == timingKeys;
  }

  // ---------------------------------------------------------------------
  // main

  /**
   * The decisions of the command: argument validation, the runs, the
   * statistics (only for more than one run), the optional save (`output`
   * is the `--output` path; `saveSucceeds` says whether writing it works)
   * and the exit code.
   */
  method StudyMain(workers: int, runs: int, measure: nat -> Measurement,
                   output: Option<string>, saveSucceeds: bool)
    returns (code: int, results: seq<RunRecord>, statistics: seq<(string, MetricStats)>, saved: bool)
    ensures workers < 1 || runs < 1 ==> code == 1 && results == [] && statistics == [] && !saved
    ensures workers >= 1 && runs >= 1 ==>
      && |results| == runs
      && (forall k :: 0 <= k < runs ==> results[k] == RecordFor(k + 1, measure(k)))
      && statistics == (if runs > 1 then Statistics(results) else [])
    ensures saved <==> workers >= 1 && runs >= 1 && PathGiven(output) && saveSucceeds
    ensures code == 0 || code == 1
    ensures code == 0 <==>
      && workers >= 1 && runs >= 1
      && (!PathGiven(output) || saveSucceeds)
      && exists k :: 0 <= k < |results| && !HasError(results[k])
  {
    results, statistics, saved := [], [], false;
    if workers < 1 {
      return 1, results, statistics, saved;
    }
    if runs < 1 {
      return 1, results, statistics, saved;
    }
    var pauses;
    results, pauses := RunTimingStudy(runs, measure);
    if runs > 1 {
      statistics := CalculateStatistics(results);
    }
    if PathGiven(output) {
      if !saveSucceeds {
        return 1, results, statistics, saved;
      }
      saved := true;
    }
    var validRuns := |ValidRecords(results)|;
    ValidRecordsEmpty(results);
    if validRuns == 0 {
      return 1, results, statistics, saved;
    }
    code := 0;
  }

  // ---------------------------------------------------------------------
  // Properties of the statistics

  /** No record is kept exactly when every record has an `error` key. */
  lemma {:induction false} ValidRecordsEmpty(results: seq<RunRecord>)
    ensures ValidRecords(results) == [] <==> forall k :: 0 <= k < |results| ==> HasError(results[k])
  {
    if results != [] {
      ValidRecordsEmpty(results[1..]);
      assert forall k :: 1 <= k < |results| ==> results[k] == results[1..][k - 1];
    }
  }

  /** Failed runs are ignored: inserting a record with `error` anywhere changes nothing. */
  lemma {:induction false} ErrorRecordsIgnored(results: seq<RunRecord>, i: nat, e: RunRecord)
    requires i <= |results| && HasError(e)
    ensures Statistics(results[..i] + [e] + results[i..]) == Statistics(results)
  {
    ValidRecordsSkip(results, i, e);
  }

  lemma {:induction false} ValidRecordsSkip(results: seq<RunRecord>, i: nat, e: RunRecord)
    requires i <= |results| && HasError(e)
    ensures ValidRecords(results[..i] + [e] + results[i..]) == ValidRecords(results)
  {
    var s := results[..i] + [e] + results[i..];
    if i == 0 {
      assert s[1..] == results;
    } else {
      assert s[0] == results[0];
      assert s[1..] == results[1..][..i - 1] + [e] + results[1..][i - 1..];
      ValidRecordsSkip(results[1..], i - 1, e);
    }
  }

  /** With no successful record the statistics are empty. */
  lemma AllFailedGivesNoStatistics(results: seq<RunRecord>)
    requires forall k :: 0 <= k < |results| ==> HasError(results[k])
    ensures Statistics(results) == []
  {
    ValidRecordsEmpty(results);
  }

  function StatNames(stats: seq<(string, MetricStats)>): seq<string>
  {
    if stats == [] then [] else [stats[0].0] + StatNames(stats[1..])
  }

  lemma {:induction false} StatNamesAppend(a: seq<(string, MetricStats)>, b: seq<(string, MetricStats)>)
    ensures StatNames(a + b) == StatNames(a) + StatNames(b)
  {
    if a != [] {
      assert (a + b)[0] == a[0] && (a + b)[1..] == a[1..] + b;
      StatNamesAppend(a[1..], b);
    } else {
      assert a + b == b;
    }
  }

  lemma {:induction false} ValuesOfNonEmpty(valid: seq<Fields>, key: string)
    requires valid != [] && key in Names(valid[0])
    ensures ValuesOf(valid, key) != []
  {
  }

  /** Every key is kept when the first valid record has it. */
  lemma {:induction false} StatisticsForKeepsKeys(valid: seq<Fields>, keys: seq<string>)
    requires valid != [] && forall k :: k in keys ==> k in Names(valid[0])
    ensures StatNames(StatisticsFor(valid, keys)) == keys
  {
    if keys != [] {
      var n := |keys| - 1;
      assert keys == keys[..n] + [keys[n]];
      StatisticsForKeepsKeys(valid, keys[..n]);
      var rest := StatisticsFor(valid, keys[..n]);
      StatNamesAppend(rest, [(keys[n], StatsOf(ValuesOf(valid, keys[n])))]);
    }
  }

  /**
   * The metric names are exactly the keys of the first record without an
   * `error` key, in its order, minus `run`, `actual_workers` and `error`.
   */
  lemma MetricNamesFromFirstValidRecord(results: seq<RunRecord>)
    requires ValidRecords(results) != []
    ensures var first := ValidRecords(results)[0];
      && StatNames(Statistics(results)) == TimingKeys(Names(first))
      && forall k :: k in StatNames(Statistics(results)) <==> k in Names(first) && k !in NotTimings
  {
    var valid := ValidRecords(results);
    StatisticsForKeepsKeys(valid, TimingKeys(Names(valid[0])));
  }

  /** Each entry of `StatisticsFor` is the statistics of its key's values. */
  lemma {:induction false} StatisticsForEntry(valid: seq<Fields>, keys: seq<string>, i: nat)
    requires i < |StatisticsFor(valid, keys)|
    ensures var (k, st) := StatisticsFor(valid, keys)[i];
      k in keys && ValuesOf(valid, k) != [] && st == StatsOf(ValuesOf(valid, k))
  {
    var n := |keys| - 1;
    var rest := StatisticsFor(valid, keys[..n]);
    if i < |rest| {
      StatisticsForEntry(valid, keys[..n], i);
    }
  }

  lemma {:induction false} ValuesOfCount(valid: seq<Fields>, key: string)
    ensures |ValuesOf(valid, key)| == CountHaving(valid, key)
  {
    if valid != [] {
      ValuesOfCount(valid[1..], key);
    }
  }

  lemma {:induction false} ValuesOfBounds(valid: seq<Fields>, key: string, lo: real, hi: real)
    requires forall x :: x in ValuesOf(valid, key) ==> lo <= x <= hi
    ensures forall i :: 0 <= i < |valid| && key in Names(valid[i]) ==> lo <= Lookup(valid[i], key) <= hi
  {
    if valid != [] {
      var vs := ValuesOf(valid, key);
      assert forall x :: x in ValuesOf(valid[1..], key) ==> x in vs;
      assert key in Names(valid[0]) ==> Lookup(valid[0], key) in vs;
      ValuesOfBounds(valid[1..], key, lo, hi);
      assert forall i :: 1 <= i < |valid| ==> valid[i] == valid[1..][i - 1];
    }
  }

  /**
   * Each statistics entry: its count is the number of valid records that
   * have the key (records without it are skipped), min <= mean <= max
   * bracket every such record's value, the variance is non-negative and
   * is 0 when there is a single value.
   */
  lemma StatisticsEntryProperties(results: seq<RunRecord>, i: nat)
    requires i < |Statistics(results)|
    ensures var valid := ValidRecords(results);
      var (k, st) := Statistics(results)[i];
      && valid != []
      && k in Names(valid[0]) && k !in NotTimings
      && st.count == CountHaving(valid, k) && 1 <= st.count <= |valid|
      && st.min <= st.mean <= st.max
      && st.variance >= 0.0
      && (st.count == 1 ==> st.variance == 0.0)
      && (forall j :: 0 <= j < |valid| && k in Names(valid[j]) ==> st.min <= Lookup(valid[j], k) <= st.max)
  {
    var valid := ValidRecords(results);
    var keys := TimingKeys(Names(valid[0]));
    StatisticsForEntry(valid, keys, i);
    var (k, st) := Statistics(results)[i];
    var values := ValuesOf(valid, k);
    ValuesOfCount(valid, k);
    MeanWithinRange(values);
    VariancesNonNegative(values);
    ValuesOfBounds(valid, k, Min(values), Max(values));
  }
}
