/**
 * The adapter's run records: each run id maps to a record that moves through
 * PENDING -> INITIALISED -> RUNNING -> SUCCEEDED | ERROR. The background thread started by
 * `start_run` is not modelled as a thread; its end is the separate call `Finish`, given how
 * the batch function ended (a `Completion`).
 */
module RunLifecycle {
  import opened Wrappers
  import Batch

  datatype State = Pending | Initialised | Running | Succeeded | Error

  predicate Terminal(s: State) {
    s == Succeeded || s == Error
  }

  /** The `result` of a successful run: the batch summary, or a message for a non-dict value. */
  datatype Payload = SummaryPayload(summary: Batch.Summary) | Message(text: string)

  /** A run record; `config` is the configuration stored with it. */
  datatype Record = Record(state: State, config: map<string, string>, result: Option<Payload>, error: Option<string>)

  type Runs = map<string, Record>

  /**
   * How the batch function ended: it returned a value (a dict, or some other value), raised
   * an `Exception` with the given text, or raised `SystemExit`, which is a `BaseException`
   * and not an `Exception`.
   */
  datatype Completion = Returned(dict: Option<Batch.Summary>) | Raised(error: string) | Exited(reason: string)

  /** How `run_energy_simulation_from_env` ends for a given batch result. */
  function CompletionOf(r: Batch.BatchResult): (c: Completion)
    ensures c.Exited? <==> r.Aborted?
    ensures r.Finished? ==> c == Returned(Some(r.summary))
  {
    match r
    case Aborted(reason) => Exited(reason)
    case Finished(s) => Returned(Some(s))
  }

  /** The record of a run that no call has touched yet. */
  function NewRecord(): (rec: Record)
    ensures rec.state == Pending && rec.config == map[] && rec.result.None? && rec.error.None?
  {
    Record(Pending, map[], None, None)
  }

  /** `os.getenv('RUN_ID_PREFIX', 'run')`. */
  function RunIdPrefix(env: map<string, string>): (p: string)
    ensures "RUN_ID_PREFIX" in env ==> p == env["RUN_ID_PREFIX"]
    ensures "RUN_ID_PREFIX" !in env ==> p == "run"
  {
    if "RUN_ID_PREFIX" in env then env["RUN_ID_PREFIX"] else "run"
  }

  /** The message of the `KeyError` raised for an unknown run id. */
  function MissingRun(id: string): string {
    "Run " + id + " does not exist"
  }

  /**
   * A record's fields agree with its state: a succeeded run has a result, a failed run has an
   * error, an unfinished run has neither, and no configuration is stored.
   */
  predicate Consistent(rec: Record) {
    && rec.config == map[]
    && (rec.state == Succeeded ==> rec.result.Some?)
    && (rec.state == Error ==> rec.error.Some?)
    && (!Terminal(rec.state) ==> rec.result.None? && rec.error.None?)
  }

  predicate AllConsistent(runs: Runs) {
    forall id :: id in runs ==> Consistent(runs[id])
  }

  // ----- The operations on the run collection -----

  /** `create_run`: a PENDING record under `id`; every other record is untouched. */
  function Create(runs: Runs, id: string): (r: Runs)
    ensures r.Keys == runs.Keys + {id} && r[id] == NewRecord()
    ensures forall k :: k in runs && k != id ==> r[k] == runs[k]
  {
    runs[id := NewRecord()]
  }

  /**
   * `initialise_run`: an unknown id is an error; a PENDING or INITIALISED record becomes
   * INITIALISED; a record in any other state is left as it is. The configuration passed in
   * is not stored.
   */
  function Initialise(runs: Runs, id: string, config: map<string, string>): (r: (Result<Record>, Runs))
    ensures id !in runs <==> r.0.Err?
    ensures id !in runs ==> r == (Err(MissingRun(id)), runs)
    ensures id in runs ==> r.1.Keys == runs.Keys && r.0 == Ok(r.1[id])
    ensures id in runs ==> r.1[id] == runs[id].(state := if Terminal(runs[id].state) || runs[id].state == Running
                                                        then runs[id].state else Initialised)
    ensures forall k :: k in runs && k != id ==> r.1[k] == runs[k]
  {
    if id !in runs then (Err(MissingRun(id)), runs)
    else
      var rec := runs[id];
      if rec.state == Pending || rec.state == Initialised then
        var rec' := rec.(state := Initialised);
        (Ok(rec'), runs[id := rec'])
      else (Ok(rec), runs)
  }

  /**
   * `start_run`: an unknown id is an error; a RUNNING, SUCCEEDED or ERROR record is returned
   * unchanged and nothing is launched; a PENDING or INITIALISED record becomes RUNNING and
   * the batch is launched (`launched`).
   */
  function Start(runs: Runs, id: string): (r: (Result<Record>, Runs, bool))
    ensures id !in runs <==> r.0.Err?
    ensures id !in runs ==> r == (Err(MissingRun(id)), runs, false)
    ensures id in runs ==> r.1.Keys == runs.Keys && r.0 == Ok(r.1[id])
    ensures id in runs ==> (r.2 <==> runs[id].state == Pending || runs[id].state == Initialised)
    ensures id in runs && r.2 ==> r.1[id] == runs[id].(state := Running)
    ensures id in runs && !r.2 ==> r.1 == runs
    ensures forall k :: k in runs && k != id ==> r.1[k] == runs[k]
  {
    if id !in runs then (Err(MissingRun(id)), runs, false)
    else
      var rec := runs[id];
      if rec.state == Running || rec.state == Succeeded || rec.state == Error then (Ok(rec), runs, false)
      else
        assert rec.state.Pending? || rec.state.Initialised?;
        var rec' := rec.(state := Running);
        (Ok(rec'), runs[id := rec'], true)
  }

  /** The `result` stored for a run whose batch returned `value`. */
  function PayloadOf(value: Option<Batch.Summary>): (p: Payload)
    ensures value.Some? ==> p == SummaryPayload(value.value)
    ensures value.None? ==> p == Message("Energy simulation completed")
  {
    match value
    case Some(s) => SummaryPayload(s)
    case None => Message("Energy simulation completed")
  }

  /**
   * The end of `_exec_run` as written: a returned value makes the record SUCCEEDED with its
   * payload and an `Exception` makes it ERROR with the exception's text, but `SystemExit`
   * passes through `except Exception` and the record is left as it was.
   */
  function SettleAsWritten(rec: Record, c: Completion): (r: Record)
    ensures c.Exited? ==> r == rec
    ensures !c.Exited? ==> r == Settle(rec, c)
  {
    match c
    case Returned(v) => rec.(state := Succeeded, result := Some(PayloadOf(v)))
    case Raised(e) => rec.(state := Error, error := Some(e))
    case Exited(_) => rec
  }

  /** The end of `_exec_run` with `SystemExit` handled like any other failure. */
  function Settle(rec: Record, c: Completion): (r: Record)
    ensures Terminal(r.state) && r.config == rec.config
    ensures r.state == Succeeded <==> c.Returned?
    ensures c.Returned? ==> r.result == Some(PayloadOf(c.dict)) && r.error == rec.error
    ensures c.Raised? ==> r.error == Some(c.error) && r.result == rec.result
    ensures c.Exited? ==> r.error == Some(c.reason) && r.result == rec.result
  {
    match c
    case Returned(v) => rec.(state := Succeeded, result := Some(PayloadOf(v)))
    case Raised(e) => rec.(state := Error, error := Some(e))
    case Exited(reason) => rec.(state := Error, error := Some(reason))
  }

  /** The completion writes into the record only if it still exists; a removed run stays removed. */
  function Finish(runs: Runs, id: string, c: Completion): (r: Runs)
    ensures r.Keys == runs.Keys
    ensures id in runs ==> r[id] == Settle(runs[id], c)
    ensures forall k :: k in runs && k != id ==> r[k] == runs[k]
  {
    if id in runs then runs[id := Settle(runs[id], c)] else runs
  }

  /** `get_run`: the record, or an error for an unknown id. */
  function Get(runs: Runs, id: string): (r: Result<Record>)
    ensures r.Ok? <==> id in runs
    ensures r.Ok? ==> r.value == runs[id]
    ensures r.Err? ==> r.msg == MissingRun(id)
  {
    if id in runs then Ok(runs[id]) else Err(MissingRun(id))
  }

  /** `remove_run`: the id is gone, whether or not it was there; nothing else changes. */
  function Remove(runs: Runs, id: string): (r: Runs)
    ensures id !in r && r.Keys == runs.Keys - {id}
    ensures forall k :: k in r ==> r[k] == runs[k]
  {
    runs - {id}
  }

  // ----- The adapter object -----

  /** `SimulationModelAdapter`'s run collection. */
  class Adapter {
    var runs: Runs

    ghost predicate Valid()
      reads this
    {
      AllConsistent(runs)
    }

    constructor ()
      ensures Valid() && runs == map[]
    {
      runs := map[];
    }

    /** `create_run`, with the random part of the id given as `token`. */
    method CreateRun(env: map<string, string>, token: string) returns (id: string)
      requires Valid()
      modifies this
      ensures Valid()
      ensures id == RunIdPrefix(env) + "-" + token && runs == Create(old(runs), id)
    {
      id := RunIdPrefix(env) + "-" + token;
      runs := runs[id := Record(Pending, map[], None, None)];
    }

    method InitialiseRun(id: string, config: map<string, string>) returns (r: Result<Record>)
      requires Valid()
      modifies this
      ensures Valid()
      ensures (r, runs) == Initialise(old(runs), id, config)
    {
      if id !in runs {
        return Err("Run " + id + " does not exist");
      }
      var rec := runs[id];
      if rec.state == Pending || rec.state == Initialised {
        rec := rec.(state := Initialised);
        runs := runs[id := rec];
      }
      return Ok(rec);
    }

    /** `start_run`; `launched` says whether the batch was launched in the background. */
    method StartRun(id: string) returns (r: Result<Record>, launched: bool)
      requires Valid()
      modifies this
      ensures Valid()
      ensures (r, runs, launched) == Start(old(runs), id)
    {
      if id !in runs {
        return Err("Run " + id + " does not exist"), false;
      }
      var rec := runs[id];
      if rec.state == Running || rec.state == Succeeded || rec.state == Error {
        return Ok(rec), false;
      }
      rec := rec.(state := Running);
      runs := runs[id := rec];
      return Ok(rec), true;
    }

    /** The end of the launched batch, with `SystemExit` settled as a failure. */
    method FinishRun(id: string, c: Completion)
      requires Valid()
      modifies this
      ensures Valid()
      ensures runs == Finish(old(runs), id, c)
    {
      if id in runs {
        var rec := runs[id];
        match c {
          case Returned(v) =>
            var out := if v.Some? then SummaryPayload(v.value) else Message("Energy simulation completed");
            rec := rec.(state := Succeeded, result := Some(out));
          case Raised(e) =>
            rec := rec.(state := Error, error := Some(e));
          case Exited(reason) =>
            rec := rec.(state := Error, error := Some(reason));
        }
        runs := runs[id := rec];
      }
    }

    method GetRun(id: string) returns (r: Result<Record>)
      ensures r == Get(runs, id)
    {
      if id !in runs {
        return Err("Run " + id + " does not exist");
      }
      return Ok(runs[id]);
    }

    method RemoveRun(id: string)
      requires Valid()
      modifies this
      ensures Valid()
      ensures runs == Remove(old(runs), id)
    {
      runs := runs - {id};
    }
  }

  // ----- Sequences of calls -----

  /** One call on the adapter, with the end of a launched batch as a call of its own. */
  datatype Call =
    | CreateCall(id: string)
    | InitialiseCall(id: string, config: map<string, string>)
    | StartCall(id: string)
    | FinishCall(id: string, completion: Completion)
    | GetCall(id: string)
    | RemoveCall(id: string)

  function Apply(runs: Runs, call: Call): Runs {
    match call
    case CreateCall(id) => Create(runs, id)
    case InitialiseCall(id, config) => Initialise(runs, id, config).1
    case StartCall(id) => Start(runs, id).1
    case FinishCall(id, c) => Finish(runs, id, c)
    case GetCall(_) => runs
    case RemoveCall(id) => Remove(runs, id)
  }

  function Replay(runs: Runs, calls: seq<Call>): Runs
    decreases |calls|
  {
    if calls == [] then runs else Replay(Apply(runs, calls[0]), calls[1..])
  }

  /** A call that replaces, settles or removes the record `id`. */
  predicate Rewrites(call: Call, id: string) {
    (call.CreateCall? || call.FinishCall? || call.RemoveCall?) && call.id == id
  }

  /** Every call keeps every record consistent; in particular no configuration is ever stored. */
  lemma ApplyConsistent(runs: Runs, call: Call)
    requires AllConsistent(runs)
    ensures AllConsistent(Apply(runs, call))
  {
    match call
    case CreateCall(id) =>
    case InitialiseCall(id, config) =>
    case StartCall(id) =>
    case FinishCall(id, c) =>
    case GetCall(_) =>
    case RemoveCall(id) =>
  }

  lemma {:induction false} ReplayConsistent(runs: Runs, calls: seq<Call>)
    requires AllConsistent(runs)
    ensures AllConsistent(Replay(runs, calls))
    decreases |calls|
  {
    if calls != [] {
      ApplyConsistent(runs, calls[0]);
      ReplayConsistent(Apply(runs, calls[0]), calls[1..]);
    }
  }

  /** Initialising, starting, querying and touching other runs leave a finished record as it is. */
  lemma ApplyKeepsTerminal(runs: Runs, call: Call, id: string)
    requires id in runs && Terminal(runs[id].state) && !Rewrites(call, id)
    ensures id in Apply(runs, call) && Apply(runs, call)[id] == runs[id]
  {
  }

  /** SUCCEEDED and ERROR are absorbing under every sequence of calls that does not rewrite the record. */
  lemma {:induction false} TerminalAbsorbing(runs: Runs, calls: seq<Call>, id: string)
    requires id in runs && Terminal(runs[id].state)
    requires forall k :: 0 <= k < |calls| ==> !Rewrites(calls[k], id)
    ensures id in Replay(runs, calls) && Replay(runs, calls)[id] == runs[id]
    decreases |calls|
  {
    if calls != [] {
      ApplyKeepsTerminal(runs, calls[0], id);
      TerminalAbsorbing(Apply(runs, calls[0]), calls[1..], id);
    }
  }

  /** Only the end of the batch moves a RUNNING record on: starting again launches nothing. */
  lemma {:induction false} RunningStaysRunning(runs: Runs, calls: seq<Call>, id: string)
    requires id in runs && runs[id].state == Running
    requires forall k :: 0 <= k < |calls| ==> !Rewrites(calls[k], id)
    ensures id in Replay(runs, calls) && Replay(runs, calls)[id] == runs[id]
    decreases |calls|
  {
    if calls != [] {
      var next := Apply(runs, calls[0]);
      assert id in next && next[id] == runs[id];
      RunningStaysRunning(next, calls[1..], id);
    }
  }

  /** A start right after a start changes nothing and launches nothing. */
  lemma StartIdempotent(runs: Runs, id: string)
    ensures var once := Start(runs, id).1;
      Start(once, id).1 == once && !Start(once, id).2
  {
  }

  /** Every launched run ends settled, SUCCEEDED exactly when the batch returned. */
  lemma FinishSettles(runs: Runs, id: string, c: Completion)
    requires id in runs && runs[id].state == Running
    ensures Terminal(Finish(runs, id, c)[id].state)
    ensures Finish(runs, id, c)[id].state == Succeeded <==> c.Returned?
  {
  }

  /**
   * As written, a batch that raises `SystemExit` (no weather file indexed, or no IDF listed)
   * leaves its record RUNNING, and since nothing else settles a RUNNING record and starting it
   * again launches nothing, it reports RUNNING for as long as it exists.
   */
  lemma ExitLeavesRunningAsWritten(runs: Runs, id: string, r: Batch.BatchResult, calls: seq<Call>)
    requires id in runs && runs[id].state == Running && r.Aborted?
    requires forall k :: 0 <= k < |calls| ==> !Rewrites(calls[k], id)
    ensures var after := runs[id := SettleAsWritten(runs[id], CompletionOf(r))];
      id in Replay(after, calls) && Replay(after, calls)[id].state == Running
  {
    var after := runs[id := SettleAsWritten(runs[id], CompletionOf(r))];
    assert after[id] == runs[id];
    RunningStaysRunning(after, calls, id);
  }

  /** With the correction, the aborted batch leaves its record in ERROR with the exit reason. */
  lemma ExitSettlesAsError(runs: Runs, id: string, r: Batch.BatchResult)
    requires id in runs && runs[id].state == Running && r.Aborted?
    ensures Finish(runs, id, CompletionOf(r))[id].state == Error
    ensures Finish(runs, id, CompletionOf(r))[id].error == Some(r.reason)
  {
  }
}
