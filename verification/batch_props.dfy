/**
 * What the batch promises: its counts add up, the processed list holds successfully handled
 * keys in key order, nothing is written for an IDF that is skipped or fails before its
 * metrics are known, a successful IDF's metrics are read back from both workbooks, and no
 * other result changes.
 */
module BatchProps {
  import opened Wrappers
  import opened Text
  import opened Names
  import opened Sorting
  import opened Extraction
  import opened MatrixSpec
  import opened Batch
  import ReportScan

  // ----- The loop -----

  /** The step for `keys[i]` succeeds on the workbooks the keys before it left. */
  predicate SucceededAt(keys: seq<string>, store: Store, step: (Store, string) -> (Outcome, Store), i: nat)
    requires i < |keys|
  {
    step(ProcessAll(keys[..i], store, step).store, keys[i]).0.Succeeded?
  }

  /** Whether a key succeeds depends only on the keys before it. */
  lemma SucceededAtPrefix(keys: seq<string>, store: Store, step: (Store, string) -> (Outcome, Store), n: nat, i: nat)
    requires i < n <= |keys|
    ensures SucceededAt(keys[..n], store, step, i) == SucceededAt(keys, store, step, i)
  {
    assert keys[..n][..i] == keys[..i];
  }

  /**
   * Every key is counted once, as a success or a failure. The processed list holds exactly
   * the keys whose step succeeded, one entry per success, never more often than listed,
   * and in key order when the keys are.
   */
  lemma ProcessAllCounts(keys: seq<string>, store: Store, step: (Store, string) -> (Outcome, Store))
    ensures var t := ProcessAll(keys, store, step);
      && t.success + t.failed == |keys|
      && |t.processed| == t.success
      && multiset(t.processed) <= multiset(keys)
      && (forall k :: k in t.processed ==> k in keys)
      && (forall k :: k in t.processed ==>
            exists i :: 0 <= i < |keys| && keys[i] == k && SucceededAt(keys, store, step, i))
      && (forall i :: 0 <= i < |keys| && SucceededAt(keys, store, step, i) ==> keys[i] in t.processed)
      && (Sorted(keys) ==> Sorted(t.processed))
  {
    ProcessAllTally(keys, store, step);
    ProcessedSucceeded(keys, store, step);
    SucceededProcessed(keys, store, step);
  }

  /** The counts, the multiplicities and the order of the processed list. */
  lemma {:induction false} ProcessAllTally(keys: seq<string>, store: Store, step: (Store, string) -> (Outcome, Store))
    ensures var t := ProcessAll(keys, store, step);
      && t.success + t.failed == |keys|
      && |t.processed| == t.success
      && multiset(t.processed) <= multiset(keys)
      && (Sorted(keys) ==> Sorted(t.processed))
  {
    if keys != [] {
      var front := keys[..|keys| - 1];
      var last := keys[|keys| - 1];
      ProcessAllTally(front, store, step);
      var t := ProcessAll(front, store, step);
      var t' := ProcessAll(keys, store, step);
      assert keys == front + [last];
      assert multiset(keys) == multiset(front) + multiset{last};
      if t'.processed != t.processed {
        assert multiset(t'.processed) == multiset(t.processed) + multiset{last};
      }
      if Sorted(keys) {
        assert Sorted(front);
        forall k | k in t.processed ensures Below(k, last) {
          assert multiset(t.processed)[k] > 0;
          var j :| 0 <= j < |front| && front[j] == k;
          assert keys[j] == k;
        }
        AppendSorted(t.processed, last);
      }
    }
  }

  /** A key is in the processed list only when its step succeeded at some position. */
  lemma {:induction false} ProcessedSucceeded(keys: seq<string>, store: Store, step: (Store, string) -> (Outcome, Store))
    ensures forall k :: k in ProcessAll(keys, store, step).processed ==>
      exists i :: 0 <= i < |keys| && keys[i] == k && SucceededAt(keys, store, step, i)
  {
    if keys != [] {
      var front := keys[..|keys| - 1];
      var last := keys[|keys| - 1];
      ProcessedSucceeded(front, store, step);
      var t := ProcessAll(front, store, step);
      var r := step(t.store, last);
      var processed := ProcessAll(keys, store, step).processed;
      assert processed == if r.0.Succeeded? then t.processed + [last] else t.processed;
      forall k | k in processed
        ensures exists i :: 0 <= i < |keys| && keys[i] == k && SucceededAt(keys, store, step, i)
      {
        if k in t.processed {
          var i :| 0 <= i < |front| && front[i] == k && SucceededAt(front, store, step, i);
          SucceededAtPrefix(keys, store, step, |front|, i);
          assert keys[i] == k;
        } else {
          assert k == last && r.0.Succeeded?;
          assert SucceededAt(keys, store, step, |front|);
        }
      }
    }
  }

  /** A key whose step succeeded is in the processed list. */
  lemma {:induction false} SucceededProcessed(keys: seq<string>, store: Store, step: (Store, string) -> (Outcome, Store))
    ensures forall i :: 0 <= i < |keys| && SucceededAt(keys, store, step, i) ==>
      keys[i] in ProcessAll(keys, store, step).processed
  {
    if keys != [] {
      var front := keys[..|keys| - 1];
      var last := keys[|keys| - 1];
      SucceededProcessed(front, store, step);
      var t := ProcessAll(front, store, step);
      var r := step(t.store, last);
      var processed := ProcessAll(keys, store, step).processed;
      assert processed == if r.0.Succeeded? then t.processed + [last] else t.processed;
      forall i | 0 <= i < |keys| && SucceededAt(keys, store, step, i) ensures keys[i] in processed {
        if i < |front| {
          SucceededAtPrefix(keys, store, step, |front|, i);
          assert front[i] == keys[i] && front[i] in t.processed;
        } else {
          assert r.0.Succeeded?;
        }
      }
    }
  }

  /** Appending an element at or above every element keeps a sequence sorted. */
  lemma AppendSorted(s: seq<string>, x: string)
    requires Sorted(s) && forall k :: k in s ==> Below(k, x)
    ensures Sorted(s + [x])
  {
    var r := s + [x];
    forall i, j | 0 <= i < j < |r| ensures Below(r[i], r[j]) {
      if j == |s| {
        assert r[i] in s;
      } else {
        assert r[i] == s[i] && r[j] == s[j];
      }
    }
  }

  // ----- The whole batch -----

  /** The batch exits early exactly when no weather file is indexed or no IDF is listed, and then writes nothing. */
  lemma BatchAborts(cfg: Config, epwListing: seq<string>, idfListing: seq<string>, engine: Engine,
                    parseFloat: string -> Option<real>, store: Store)
    ensures var r := BatchRun(cfg, epwListing, idfListing, engine, parseFloat, store);
      && (r.0.Aborted? <==> |EpwIndex(epwListing)| == 0 || IdfKeys(idfListing) == [])
      && (r.0.Aborted? ==> r.1 == store)
  {
  }

  /** A finished batch reports the first ten successes of the loop over the sorted IDF keys. */
  lemma FinishedSummary(cfg: Config, epwListing: seq<string>, idfListing: seq<string>, engine: Engine,
                        parseFloat: string -> Option<real>, store: Store)
    requires BatchRun(cfg, epwListing, idfListing, engine, parseFloat, store).0.Finished?
    ensures var s := BatchRun(cfg, epwListing, idfListing, engine, parseFloat, store).0.summary;
      var t := ProcessAll(Sort(IdfKeys(idfListing)), store, StepOf(EpwIndex(epwListing), engine, parseFloat));
      && s.processed == t.processed[..ReportScan.Min(10, |t.processed|)]
      && s.success == t.success && s.failed == t.failed && s.total == |IdfKeys(idfListing)|
  {
  }

  /**
   * The summary: success and failure counts add up to the number of IDF keys listed, and
   * the processed list holds at most ten listed IDF keys, none more often than listed, in
   * key order.
   */
  lemma BatchSummary(cfg: Config, epwListing: seq<string>, idfListing: seq<string>, engine: Engine,
                     parseFloat: string -> Option<real>, store: Store)
    requires BatchRun(cfg, epwListing, idfListing, engine, parseFloat, store).0.Finished?
    ensures var s := BatchRun(cfg, epwListing, idfListing, engine, parseFloat, store).0.summary;
      && s.success + s.failed == s.total == |IdfKeys(idfListing)|
      && |s.processed| == ReportScan.Min(10, s.success)
      && multiset(s.processed) <= multiset(idfListing)
      && (forall k :: k in s.processed ==> k in idfListing && IsIdfKey(k))
      && Sorted(s.processed)
  {
    var idfs := IdfKeys(idfListing);
    FinishedSummary(cfg, epwListing, idfListing, engine, parseFloat, store);
    SortedRunHead(idfs, store, StepOf(EpwIndex(epwListing), engine, parseFloat));
    assert multiset(idfs) <= multiset(idfListing);
  }

  /**
   * The processed list of the summary holds keys whose step succeeded, and every other key
   * that succeeded is above all of them: they are the first ten successes in key order.
   */
  lemma BatchSummarySucceeded(cfg: Config, epwListing: seq<string>, idfListing: seq<string>, engine: Engine,
                              parseFloat: string -> Option<real>, store: Store)
    requires BatchRun(cfg, epwListing, idfListing, engine, parseFloat, store).0.Finished?
    ensures var s := BatchRun(cfg, epwListing, idfListing, engine, parseFloat, store).0.summary;
      var ordered := Sort(IdfKeys(idfListing));
      var step := StepOf(EpwIndex(epwListing), engine, parseFloat);
      && (forall k :: k in s.processed ==>
            exists i :: 0 <= i < |ordered| && ordered[i] == k && SucceededAt(ordered, store, step, i))
      && (forall i :: 0 <= i < |ordered| && SucceededAt(ordered, store, step, i) && ordered[i] !in s.processed ==>
            forall k :: k in s.processed ==> Below(k, ordered[i]))
  {
    FinishedSummary(cfg, epwListing, idfListing, engine, parseFloat, store);
    SortSpec(IdfKeys(idfListing));
    RunHeadSucceeded(Sort(IdfKeys(idfListing)), store, StepOf(EpwIndex(epwListing), engine, parseFloat));
  }

  /**
   * Over the sorted keys, successes and failures add up to the number of keys, and the
   * first ten successes are keys of the input, none more often than listed, in key order.
   */
  lemma SortedRunHead(keys: seq<string>, store: Store, step: (Store, string) -> (Outcome, Store))
    ensures var t := ProcessAll(Sort(keys), store, step);
      var p := t.processed[..ReportScan.Min(10, |t.processed|)];
      && t.success + t.failed == |keys|
      && |p| == ReportScan.Min(10, t.success)
      && multiset(p) <= multiset(keys)
      && (forall k :: k in p ==> k in keys)
      && Sorted(p)
  {
    SortSpec(keys);
    ProcessAllTally(Sort(keys), store, step);
    var t := ProcessAll(Sort(keys), store, step);
    SortedHead(t.processed, 10);
    var p := t.processed[..ReportScan.Min(10, |t.processed|)];
    forall k | k in p ensures k in keys {
      assert multiset(p)[k] > 0;
      assert multiset(keys)[k] > 0;
    }
  }

  /** The first ten successes over any keys are keys whose step succeeded, below every other success. */
  lemma RunHeadSucceeded(keys: seq<string>, store: Store, step: (Store, string) -> (Outcome, Store))
    requires Sorted(keys)
    ensures var t := ProcessAll(keys, store, step);
      var p := t.processed[..ReportScan.Min(10, |t.processed|)];
      && (forall k :: k in p ==>
            exists i :: 0 <= i < |keys| && keys[i] == k && SucceededAt(keys, store, step, i))
      && (forall i :: 0 <= i < |keys| && SucceededAt(keys, store, step, i) && keys[i] !in p ==>
            forall k :: k in p ==> Below(k, keys[i]))
  {
    ProcessAllTally(keys, store, step);
    ProcessedSucceeded(keys, store, step);
    SucceededProcessed(keys, store, step);
    var t := ProcessAll(keys, store, step);
    SortedHead(t.processed, 10);
    var p := t.processed[..ReportScan.Min(10, |t.processed|)];
    forall k | k in p
      ensures exists i :: 0 <= i < |keys| && keys[i] == k && SucceededAt(keys, store, step, i)
    {
      assert k in t.processed;
    }
  }

  /** The first `n` elements of a sorted sequence are sorted, occur in it, and lie below every other element. */
  lemma SortedHead(s: seq<string>, n: nat)
    requires Sorted(s)
    ensures var p := s[..ReportScan.Min(n, |s|)];
      && multiset(p) <= multiset(s)
      && Sorted(p)
      && (forall x :: x in s && x !in p ==> forall k :: k in p ==> Below(k, x))
  {
    var p := s[..ReportScan.Min(n, |s|)];
    assert s == p + s[|p|..];
    assert multiset(s) == multiset(p) + multiset(s[|p|..]);
    SortedPrefix(s, |p|);
    forall x | x in s && x !in p ensures forall k :: k in p ==> Below(k, x) {
      HeadBelowRest(s, |p|, x);
    }
  }

  lemma SortedPrefix(s: seq<string>, n: nat)
    requires Sorted(s) && n <= |s|
    ensures Sorted(s[..n])
  {
    var p := s[..n];
    forall i, j | 0 <= i < j < |p| ensures Below(p[i], p[j]) {
      assert p[i] == s[i] && p[j] == s[j];
    }
  }

  lemma HeadBelowRest(s: seq<string>, n: nat, x: string)
    requires Sorted(s) && n <= |s| && x in s && x !in s[..n]
    ensures forall k :: k in s[..n] ==> Below(k, x)
  {
    var j :| 0 <= j < |s| && s[j] == x;
    forall k | k in s[..n] ensures Below(k, x) {
      var m :| 0 <= m < n && s[..n][m] == k;
      assert s[m] == k;
    }
  }

  // ----- One IDF -----

  /** How the plan follows from the parse and the weather index. */
  lemma PlanOfCases(parsed: Result<IdfName>, index: map<(string, int), string>)
    ensures var p := PlanOf(parsed, index);
      && (p.Unparsed? <==> parsed.Err?)
      && (p.Ready? <==> parsed.Ok? && var k := (NormaliseScenario(parsed.value.scenario), parsed.value.year);
                                      k in index && index[k] != "")
      && (p.Ready? ==> p == Ready(NormaliseScenario(parsed.value.scenario), parsed.value.aging, parsed.value.year,
                                  index[(NormaliseScenario(parsed.value.scenario), parsed.value.year)]))
  {
  }

  /** A plan is ready only with an undotted scenario, an aging code and a year of the file-name pattern. */
  predicate WellPlanned(p: Plan) {
    p.Ready? ==>
      && (p.climate == "RCP85" || p.climate == "RCP45" || p.climate == "RCP26")
      && AgingToken(p.aging)
      && 2020 <= p.year <= 2084 && p.epwKey != ""
  }

  lemma UndottedStripped(c: string)
    requires c == "RCP85" || c == "RCP45" || c == "RCP26"
    ensures Stripped(c)
  {
    assert !IsSpace(c[0]) && !IsSpace(c[|c| - 1]);
    StripOfStripped(c);
  }

  lemma AgingStripped(a: string)
    requires AgingToken(a)
    ensures Stripped(a)
  {
    assert Lower(a[0]) == 'e' || Lower(a[0]) == 'f' || Lower(a[0]) == 't';
    assert IsDigit(a[|a| - 1]);
    StripOfStripped(a);
  }

  lemma PlanOfWellPlanned(parsed: Result<IdfName>, index: map<(string, int), string>)
    requires parsed.Ok? ==> ValidIdfName(parsed.value)
    ensures WellPlanned(PlanOf(parsed, index))
  {
    if parsed.Ok? {
      ParsedScenarioMatchesWeather(parsed.value);
    }
  }

  /** The values of a well-planned IDF are written as they are: `strip()` leaves them alone. */
  lemma WellPlannedStripped(p: Plan)
    requires p.Ready? && WellPlanned(p)
    ensures Stripped(p.climate) && Stripped(p.aging)
  {
    UndottedStripped(p.climate);
    AgingStripped(p.aging);
  }

  /** Every plan the batch makes from an object key is well planned. */
  lemma PlanForWellPlanned(key: string, index: map<(string, int), string>)
    ensures WellPlanned(PlanFor(key, index))
  {
    var parsed := ParseIdfName(LastSegment(key));
    if parsed.Ok? {
      ParseIdfSound(LastSegment(key));
    }
    PlanOfWellPlanned(parsed, index);
  }

  /** An IDF whose name does not parse fails, and one without a weather file is skipped; neither writes. */
  lemma StepWithoutWeather(store: Store, plan: Plan, run: string -> Option<Metrics>)
    ensures var r := Step(store, plan, run);
      && (r.0 == Skipped <==> plan.NoWeather?)
      && (plan.Unparsed? ==> r == (Failed, store))
      && (plan.NoWeather? ==> r.1 == store)
  {
  }

  /** A run that raises or yields neither metric counts as a failure and writes nothing. */
  lemma StepWithoutMetrics(store: Store, plan: Plan, run: string -> Option<Metrics>)
    requires plan.Ready?
    requires run(plan.epwKey).None? || (run(plan.epwKey).value.total.None? && run(plan.epwKey).value.perArea.None?)
    ensures Step(store, plan, run) == (Failed, store)
  {
  }

  /**
   * A successful IDF: both metrics were written, so reading its (scenario, aging, year)
   * from each workbook gives the metric found, or the earlier content where that metric
   * was missing.
   */
  lemma StepSucceededReads(store: Store, plan: Plan, run: string -> Option<Metrics>)
    requires StoreWf(store) && WellPlanned(plan) && Step(store, plan, run).0.Succeeded?
    ensures var r := Step(store, plan, run);
      var m := r.0.metrics;
      && plan.Ready? && run(plan.epwKey) == Some(m)
      && YearsStart <= plan.year <= YearsEnd
      && StoreWf(r.1)
      && StoredMetric(r.1, TotalKey, plan.climate, plan.aging, plan.year)
         == (if m.total.Some? then Some(Num(m.total.value)) else StoredMetric(store, TotalKey, plan.climate, plan.aging, plan.year))
      && StoredMetric(r.1, PerAreaKey, plan.climate, plan.aging, plan.year)
         == (if m.perArea.Some? then Some(Num(m.perArea.value)) else StoredMetric(store, PerAreaKey, plan.climate, plan.aging, plan.year))
  {
    WellPlannedStripped(plan);
    WriteBothReads(store, plan.climate, plan.aging, plan.year, run(plan.epwKey).value);
  }

  /** The two writes of a successful IDF, on stripped values. */
  lemma WriteBothReads(store: Store, climate: string, aging: string, year: int, m: Metrics)
    requires StoreWf(store) && Stripped(climate) && Stripped(aging) && (m.total.Some? || m.perArea.Some?)
    requires WriteBoth(store, climate, aging, year, m).0.Succeeded?
    ensures var r := WriteBoth(store, climate, aging, year, m);
      && r.0.metrics == m
      && StoreWf(r.1)
      && YearsStart <= year <= YearsEnd
      && StoredMetric(r.1, TotalKey, climate, aging, year)
         == (if m.total.Some? then Some(Num(m.total.value)) else StoredMetric(store, TotalKey, climate, aging, year))
      && StoredMetric(r.1, PerAreaKey, climate, aging, year)
         == (if m.perArea.Some? then Some(Num(m.perArea.value)) else StoredMetric(store, PerAreaKey, climate, aging, year))
  {
    var r1 := PutMetric(store, TotalKey, climate, aging, year, m.total);
    var s1 := r1.value;
    var r2 := PutMetric(s1, PerAreaKey, climate, aging, year, m.perArea);
    assert WriteBoth(store, climate, aging, year, m) == (Succeeded(m), r2.value);
    PutReads(store, TotalKey, climate, aging, year, m.total, PerAreaKey);
    PutReads(s1, PerAreaKey, climate, aging, year, m.perArea, TotalKey);
  }

  /** One write of an optional value: the value is read back, and another workbook reads as before. */
  lemma PutReads(store: Store, key: string, climate: string, aging: string, year: int, v: Option<real>, k2: string)
    requires StoreWf(store) && Stripped(climate) && Stripped(aging) && k2 != key
    requires PutMetric(store, key, climate, aging, year, v).Ok?
    ensures var s := PutMetric(store, key, climate, aging, year, v).value;
      && StoreWf(s)
      && StoredMetric(s, key, climate, aging, year)
         == (if v.Some? then Some(Num(v.value)) else StoredMetric(store, key, climate, aging, year))
      && StoredMetric(s, k2, climate, aging, year) == StoredMetric(store, k2, climate, aging, year)
  {
    PutMetricWf(store, key, climate, aging, year, v);
    if v.Some? {
      PutThenRead(store, key, climate, aging, year, v.value);
      PutKeepsOtherReads(store, key, climate, aging, year, v.value, k2, climate, aging, year);
    }
  }

  lemma StepKeepsOtherResults(store: Store, plan: Plan, run: string -> Option<Metrics>,
                              k2: string, c2: string, a2: string, y2: int)
    requires StoreWf(store) && WellPlanned(plan)
    requires plan.Ready? ==> (c2, a2, y2) != (plan.climate, plan.aging, plan.year)
    ensures StoredMetric(Step(store, plan, run).1, k2, c2, a2, y2) == StoredMetric(store, k2, c2, a2, y2)
  {
    if plan.Ready? && run(plan.epwKey).Some? {
      WellPlannedStripped(plan);
      WriteBothKeeps(store, plan.climate, plan.aging, plan.year, run(plan.epwKey).value, k2, c2, a2, y2);
    }
  }

  /** Both writes leave every other result as it was, whether or not they fail. */
  lemma WriteBothKeeps(store: Store, climate: string, aging: string, year: int, m: Metrics,
                       k2: string, c2: string, a2: string, y2: int)
    requires StoreWf(store) && Stripped(climate) && Stripped(aging) && (c2, a2, y2) != (climate, aging, year)
    ensures StoredMetric(WriteBoth(store, climate, aging, year, m).1, k2, c2, a2, y2) == StoredMetric(store, k2, c2, a2, y2)
  {
    var r1 := PutMetric(store, TotalKey, climate, aging, year, m.total);
    if r1.Ok? {
      PutMetricWf(store, TotalKey, climate, aging, year, m.total);
      if m.total.Some? {
        PutKeepsOtherReads(store, TotalKey, climate, aging, year, m.total.value, k2, c2, a2, y2);
      }
      var r2 := PutMetric(r1.value, PerAreaKey, climate, aging, year, m.perArea);
      if r2.Ok? && m.perArea.Some? {
        PutKeepsOtherReads(r1.value, PerAreaKey, climate, aging, year, m.perArea.value, k2, c2, a2, y2);
      }
    }
  }

  /**
   * Years 2020..2024 parse but have no row: an IDF for one of them never succeeds, and
   * nothing is written for it.
   */
  lemma StepEarlyYearFails(store: Store, plan: Plan, run: string -> Option<Metrics>)
    requires plan.Ready? && plan.year < YearsStart
    ensures Step(store, plan, run) == (Failed, store)
  {
  }
}
