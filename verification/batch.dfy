/**
 * `run_energy_simulation_from_env`: index the weather files, list the IDF inputs, and for
 * each IDF in key order find its weather file, run the engine, extract the two metrics and
 * write them into the two result workbooks, counting successes and failures.
 *
 * The object listings are inputs. Downloading the two inputs and running EnergyPlus are one
 * oracle, `engine`, which yields the run's output directory or None when any of those steps
 * raises. Number parsing is the parameter `parseFloat`.
 */
module Batch {
  import opened Wrappers
  import opened Text
  import opened Names
  import opened Sorting
  import opened Extraction
  import opened MatrixSpec
  import opened Workbook
  import ReportScan

  type Store = map<string, Grid>

  /** Downloads plus the EnergyPlus run for an (IDF key, EPW key) pair. */
  type Engine = (string, string) -> Option<OutputDir>

  /** Bucket and prefixes the batch is configured with. */
  datatype Config = Config(bucket: string, idfPrefix: string, epwPrefix: string)

  /** How the processing of one IDF ends. Skipped and Failed both count as failures. */
  datatype Outcome = Skipped | Failed | Succeeded(metrics: Metrics)

  /** What the batch knows about one IDF before running anything. */
  datatype Plan =
    | Unparsed
    | NoWeather(climate: string, year: int)
    | Ready(climate: string, aging: string, year: int, epwKey: string)

  datatype Summary = Summary(
    bucket: string, idfPrefix: string, epwPrefix: string,
    totalKey: string, perAreaKey: string,
    processed: seq<string>, success: nat, failed: nat, total: nat)

  /** The returned summary, or the `SystemExit` raised before the loop. */
  datatype BatchResult = Aborted(reason: string) | Finished(summary: Summary)

  // ----- Selecting the inputs -----

  /** `o["Key"].lower().endswith(".idf")`. */
  predicate IsIdfKey(key: string) {
    EndsWith(LowerStr(key), ".idf")
  }

  /** The listed keys that name IDF files, in listing order, each as often as it is listed. */
  function IdfKeys(listing: seq<string>): (r: seq<string>)
    ensures |r| <= |listing|
    ensures forall k :: k in r <==> k in listing && IsIdfKey(k)
    ensures forall k :: multiset(r)[k] == if IsIdfKey(k) then multiset(listing)[k] else 0
  {
    if listing == [] then []
    else
      var rest := IdfKeys(listing[..|listing| - 1]);
      var k := listing[|listing| - 1];
      assert listing == listing[..|listing| - 1] + [k];
      assert multiset(listing) == multiset(listing[..|listing| - 1]) + multiset{k};
      if IsIdfKey(k) then
        assert multiset(rest + [k]) == multiset(rest) + multiset{k};
        rest + [k]
      else rest
  }

  /** `str.rstrip("/")`. */
  function WithoutTrailingSlashes(prefix: string): (r: string)
    ensures r <= prefix && (r == [] || r[|r| - 1] != '/')
    ensures forall i :: |r| <= i < |prefix| ==> prefix[i] == '/'
  {
    TrimRight(prefix, c => c == '/')
  }

  // ----- One IDF -----

  /** Normalise the parsed scenario and look the weather file up. */
  function PlanOf(parsed: Result<IdfName>, index: map<(string, int), string>): Plan {
    match parsed
    case Err(_) => Unparsed
    case Ok(v) =>
      var climate := NormaliseScenario(v.scenario);
      if (climate, v.year) in index && index[(climate, v.year)] != "" then
        Ready(climate, v.aging, v.year, index[(climate, v.year)])
      else NoWeather(climate, v.year)
  }

  /** Parse the IDF's file name, then plan as above. */
  function PlanFor(key: string, index: map<(string, int), string>): Plan {
    PlanOf(ParseIdfName(LastSegment(key)), index)
  }

  /** The two writes of a run with metrics: the total workbook first, then the per-area one. */
  function WriteBoth(store: Store, climate: string, aging: string, year: int, m: Metrics): (Outcome, Store) {
    match PutMetric(store, TotalKey, climate, aging, year, m.total)
    case Err(_) => (Failed, store)
    case Ok(s1) =>
      match PutMetric(s1, PerAreaKey, climate, aging, year, m.perArea)
      case Err(_) => (Failed, s1)
      case Ok(s2) => (Succeeded(m), s2)
  }

  /** The metrics of a run that completed, or None when a download or the run raised. */
  function Measure(out: Option<OutputDir>, parseFloat: string -> Option<real>): Option<Metrics> {
    match out
    case None => None
    case Some(dir) => Some(ChooseMetrics(dir, parseFloat))
  }

  /** Running one IDF key against a weather key, as a function of the weather key. */
  function RunOf(key: string, engine: Engine, parseFloat: string -> Option<real>): string -> Option<Metrics> {
    (epwKey: string) => Measure(engine(key, epwKey), parseFloat)
  }

  /**
   * The body of the batch loop for one IDF, given its plan and how running it against a
   * weather key ends, with the workbooks before and after.
   */
  function Step(store: Store, plan: Plan, run: string -> Option<Metrics>): (Outcome, Store) {
    match plan
    case Unparsed => (Failed, store)
    case NoWeather(_, _) => (Skipped, store)
    case Ready(climate, aging, year, epwKey) =>
      match run(epwKey)
      case None => (Failed, store)
      case Some(m) =>
        if m.total.None? && m.perArea.None? then (Failed, store)
        else WriteBoth(store, climate, aging, year, m)
  }

  function StepOf(index: map<(string, int), string>, engine: Engine, parseFloat: string -> Option<real>)
    : (Store, string) -> (Outcome, Store)
  {
    (s: Store, k: string) => Step(s, PlanFor(k, index), RunOf(k, engine, parseFloat))
  }

  // ----- The loop -----

  /** The loop's counters, the keys processed successfully, and the workbooks. */
  datatype Tally = Tally(success: nat, failed: nat, processed: seq<string>, store: Store)

  function Advance(t: Tally, key: string, r: (Outcome, Store)): Tally {
    if r.0.Succeeded? then Tally(t.success + 1, t.failed, t.processed + [key], r.1)
    else Tally(t.success, t.failed + 1, t.processed, r.1)
  }

  /** The loop over `keys` in order, starting from the workbooks `store`. */
  function ProcessAll(keys: seq<string>, store: Store, step: (Store, string) -> (Outcome, Store)): Tally {
    if keys == [] then Tally(0, 0, [], store)
    else
      var t := ProcessAll(keys[..|keys| - 1], store, step);
      Advance(t, keys[|keys| - 1], step(t.store, keys[|keys| - 1]))
  }

  /** The whole batch: its result and the workbooks it leaves. */
  function BatchRun(cfg: Config, epwListing: seq<string>, idfListing: seq<string>, engine: Engine,
                    parseFloat: string -> Option<real>, store: Store): (BatchResult, Store)
  {
    var index := EpwIndex(epwListing);
    var idfs := IdfKeys(idfListing);
    if |index| == 0 then (Aborted("No EPWs under s3://" + cfg.bucket + "/" + cfg.epwPrefix), store)
    else if idfs == [] then (Aborted("No IDFs under s3://" + cfg.bucket + "/" + cfg.idfPrefix), store)
    else
      var t := ProcessAll(Sort(idfs), store, StepOf(index, engine, parseFloat));
      (Finished(Summary(cfg.bucket, WithoutTrailingSlashes(cfg.idfPrefix), WithoutTrailingSlashes(cfg.epwPrefix),
                        TotalKey, PerAreaKey, t.processed[..ReportScan.Min(10, |t.processed|)],
                        t.success, t.failed, |idfs|)),
       t.store)
  }

  // ----- The imperative batch -----

  /** One iteration of the loop: the parse, the lookup, the run, the extraction and the writes. */
  method ProcessOne(key: string, index: map<(string, int), string>, engine: Engine,
                    parseFloat: string -> Option<real>, results: ResultStore) returns (o: Outcome)
    requires results.Valid()
    modifies results
    ensures results.Valid()
    ensures (o, results.workbooks) == StepOf(index, engine, parseFloat)(old(results.workbooks), key)
  {
    ghost var before := results.workbooks;
    assert StepOf(index, engine, parseFloat)(before, key) == Step(before, PlanFor(key, index), RunOf(key, engine, parseFloat));
    var name := LastSegment(key);
    var parsed := ParseIdfName(name);
    assert PlanFor(key, index) == PlanOf(parsed, index);
    if parsed.Err? {
      return Failed;
    }
    var v := parsed.value;
    var climate := NormaliseScenario(v.scenario);
    if (climate, v.year) !in index || index[(climate, v.year)] == "" {
      return Skipped;
    }
    var epwKey := index[(climate, v.year)];
    assert PlanFor(key, index) == Ready(climate, v.aging, v.year, epwKey);
    var out := engine(key, epwKey);
    assert RunOf(key, engine, parseFloat)(epwKey) == Measure(out, parseFloat);
    if out.None? {
      return Failed;
    }
    var m := FetchMetricsAny(out.value, parseFloat);
    if m.total.None? && m.perArea.None? {
      return Failed;
    }
    assert Step(before, PlanFor(key, index), RunOf(key, engine, parseFloat))
        == WriteBoth(before, climate, v.aging, v.year, m);
    var w := results.WriteResult(TotalKey, climate, v.aging, v.year, m.total);
    if w.Err? {
      return Failed;
    }
    w := results.WriteResult(PerAreaKey, climate, v.aging, v.year, m.perArea);
    if w.Err? {
      return Failed;
    }
    return Succeeded(m);
  }

  /** One more iteration of the loop extends the tally by the next key's outcome. */
  lemma ProcessAllNext(keys: seq<string>, i: nat, store: Store, step: (Store, string) -> (Outcome, Store),
                       t: Tally, r: (Outcome, Store))
    requires i < |keys| && t == ProcessAll(keys[..i], store, step) && r == step(t.store, keys[i])
    ensures ProcessAll(keys[..i + 1], store, step) == Advance(t, keys[i], r)
  {
    assert keys[..i + 1][..i] == keys[..i];
  }

  /** One iteration of the loop over the sorted IDF keys, with the counters it updates. */
  method ProcessNext(key: string, index: map<(string, int), string>, engine: Engine,
                     parseFloat: string -> Option<real>, results: ResultStore,
                     success: nat, failed: nat, processed: seq<string>)
    returns (success': nat, failed': nat, processed': seq<string>)
    requires results.Valid()
    modifies results
    ensures results.Valid()
    ensures Tally(success', failed', processed', results.workbooks)
         == Advance(Tally(success, failed, processed, old(results.workbooks)), key,
                    StepOf(index, engine, parseFloat)(old(results.workbooks), key))
  {
    var o := ProcessOne(key, index, engine, parseFloat, results);
    if o.Succeeded? {
      success', failed', processed' := success + 1, failed, processed + [key];
    } else {
      success', failed', processed' := success, failed + 1, processed;
    }
  }

  /** The loop over the sorted IDF keys. */
  method ProcessKeys(ordered: seq<string>, index: map<(string, int), string>, engine: Engine,
                     parseFloat: string -> Option<real>, results: ResultStore)
    returns (success: nat, failed: nat, processed: seq<string>)
    requires results.Valid()
    modifies results
    ensures results.Valid()
    ensures Tally(success, failed, processed, results.workbooks)
         == ProcessAll(ordered, old(results.workbooks), StepOf(index, engine, parseFloat))
  {
    success, failed, processed := 0, 0, [];
    var i := 0;
    while i < |ordered|
      invariant 0 <= i <= |ordered| && results.Valid()
      invariant Tally(success, failed, processed, results.workbooks)
             == ProcessAll(ordered[..i], old(results.workbooks), StepOf(index, engine, parseFloat))
    {
      ghost var t := Tally(success, failed, processed, results.workbooks);
      ghost var before := results.workbooks;
      success, failed, processed := ProcessNext(ordered[i], index, engine, parseFloat, results, success, failed, processed);
      ProcessAllNext(ordered, i, old(results.workbooks), StepOf(index, engine, parseFloat), t,
                     StepOf(index, engine, parseFloat)(before, ordered[i]));
      i := i + 1;
    }
    assert ordered[..i] == ordered;
  }

  /** `run_energy_simulation_from_env` over the given listings and result store. */
  method RunBatch(cfg: Config, epwListing: seq<string>, idfListing: seq<string>, engine: Engine,
                  parseFloat: string -> Option<real>, results: ResultStore) returns (r: BatchResult)
    requires results.Valid()
    modifies results
    ensures results.Valid()
    ensures (r, results.workbooks) == BatchRun(cfg, epwListing, idfListing, engine, parseFloat, old(results.workbooks))
  {
    var index := IndexEpws(epwListing);
    if |index| == 0 {
      return Aborted("No EPWs under s3://" + cfg.bucket + "/" + cfg.epwPrefix);
    }
    var idfs := IdfKeys(idfListing);
    if idfs == [] {
      return Aborted("No IDFs under s3://" + cfg.bucket + "/" + cfg.idfPrefix);
    }
    var success, failed, processed := ProcessKeys(Sort(idfs), index, engine, parseFloat, results);
    r := Finished(Summary(cfg.bucket, WithoutTrailingSlashes(cfg.idfPrefix), WithoutTrailingSlashes(cfg.epwPrefix),
                          TotalKey, PerAreaKey, processed[..ReportScan.Min(10, |processed|)], success, failed, |idfs|));
  }
}
