/**
 * The adapter's HTTP surface: the status code and body each route handler builds from what
 * the adapter returns, and the public base URL it announces.
 */
module Routes {
  import opened Wrappers
  import opened Text
  import opened RunLifecycle
  import Batch

  /** The JSON bodies the handlers send. */
  datatype Body =
    | RunConfig(runId: string, state: State, config: map<string, string>)
    | RunStatus(runId: string, state: State, error: Option<string>)
    | RunResult(runId: string, result: Option<Payload>)
    | RunFailure(runId: string, error: Option<string>)
    | RunProgress(runId: string, state: State)
    | Problem(message: string)
    | RunRemoved(runId: string)

  datatype Response = Response(code: int, body: Body)

  /** `str(KeyError(msg))`: the message in single quotes. */
  function KeyErrorText(msg: string): string {
    "'" + msg + "'"
  }

  /** The reply to an unknown run id. */
  function NotFound(msg: string): (resp: Response)
    ensures resp.code == 404 && resp.body.Problem?
  {
    Response(404, Problem(KeyErrorText(msg)))
  }

  /** `POST /model/initialize/<run_id>`. */
  function InitialiseRoute(id: string, r: Result<Record>): (resp: Response)
    ensures resp.code == 404 <==> r.Err?
    ensures r.Ok? ==> resp == Response(200, RunConfig(id, r.value.state, r.value.config))
  {
    match r
    case Err(msg) => NotFound(msg)
    case Ok(run) => Response(200, RunConfig(id, run.state, run.config))
  }

  /** `POST /model/run/<run_id>`: 400 for a run in ERROR, otherwise 200. */
  function RunRoute(id: string, r: Result<Record>): (resp: Response)
    ensures resp.code == 404 <==> r.Err?
    ensures r.Ok? ==> (resp.code == 400 <==> r.value.state == Error)
    ensures r.Ok? ==> (resp.code == 200 <==> r.value.state != Error)
    ensures r.Ok? ==> resp.body == RunStatus(id, r.value.state, r.value.error)
  {
    match r
    case Err(msg) => NotFound(msg)
    case Ok(run) =>
      var code := if run.state == Error then 400 else 200;
      Response(code, RunStatus(id, run.state, run.error))
  }

  /** `GET /model/status/<run_id>`. */
  function StatusRoute(id: string, r: Result<Record>): (resp: Response)
    ensures resp.code == 404 <==> r.Err?
    ensures r.Ok? ==> resp == Response(200, RunStatus(id, r.value.state, r.value.error))
  {
    match r
    case Err(msg) => NotFound(msg)
    case Ok(run) => Response(200, RunStatus(id, run.state, run.error))
  }

  /** `GET /model/results/<run_id>`: 200 with the result, 400 with the error, 202 while unfinished. */
  function ResultsRoute(id: string, r: Result<Record>): (resp: Response)
    ensures resp.code == 404 <==> r.Err?
    ensures r.Ok? ==> (resp.code == 200 <==> r.value.state == Succeeded)
    ensures r.Ok? ==> (resp.code == 400 <==> r.value.state == Error)
    ensures r.Ok? ==> (resp.code == 202 <==> !Terminal(r.value.state))
    ensures r.Ok? && r.value.state == Succeeded ==> resp.body == RunResult(id, r.value.result)
    ensures r.Ok? && r.value.state == Error ==> resp.body == RunFailure(id, r.value.error)
  {
    match r
    case Err(msg) => NotFound(msg)
    case Ok(run) =>
      if run.state == Succeeded then Response(200, RunResult(id, run.result))
      else if run.state == Error then Response(400, RunFailure(id, run.error))
      else Response(202, RunProgress(id, run.state))
  }

  /** `POST /model/remove/<run_id>`: always 200, whether or not the run existed. */
  function RemoveRoute(id: string): (resp: Response)
    ensures resp.code == 200 && resp.body.RunRemoved? && resp.body.runId == id
  {
    Response(200, RunRemoved(id))
  }

  // ----- The routes over the adapter -----

  /** An unknown run id gives 404 on initialise, run, status and results, and changes nothing. */
  lemma UnknownRunNotFound(runs: Runs, id: string, config: map<string, string>)
    requires id !in runs
    ensures var missing := NotFound(MissingRun(id));
      && InitialiseRoute(id, Initialise(runs, id, config).0) == missing
      && RunRoute(id, Start(runs, id).0) == missing
      && StatusRoute(id, Get(runs, id)) == missing
      && ResultsRoute(id, Get(runs, id)) == missing
      && Initialise(runs, id, config).1 == runs && Start(runs, id).1 == runs
  {
    assert Initialise(runs, id, config).0 == Err(MissingRun(id));
    assert Start(runs, id).0 == Err(MissingRun(id));
  }

  /** Removal answers 200 whether or not the run existed, and afterwards the run is unknown. */
  lemma RemoveThenNotFound(runs: Runs, id: string)
    ensures RemoveRoute(id).code == 200
    ensures StatusRoute(id, Get(Remove(runs, id), id)) == NotFound(MissingRun(id))
    ensures ResultsRoute(id, Get(Remove(runs, id), id)) == NotFound(MissingRun(id))
  {
    assert Get(Remove(runs, id), id) == Err(MissingRun(id));
  }

  /**
   * Starting a known run reports 400 only for a run already in ERROR; otherwise 200, with
   * RUNNING unless the run had already finished.
   */
  lemma StartReply(runs: Runs, id: string)
    requires id in runs
    ensures var resp := RunRoute(id, Start(runs, id).0);
      && (resp.code == 400 <==> runs[id].state == Error)
      && (resp.code == 200 <==> runs[id].state != Error)
      && resp.body.state == (if Terminal(runs[id].state) then runs[id].state else Running)
  {
    var r := Start(runs, id);
    assert r.0 == Ok(r.1[id]);
    assert r.1[id].state == (if Terminal(runs[id].state) then runs[id].state else Running);
  }

  /** The results route answers 202 exactly while the status route reports an unfinished state. */
  lemma ResultsPendingIffUnfinished(runs: Runs, id: string)
    requires id in runs
    ensures ResultsRoute(id, Get(runs, id)).code == 202 <==> !Terminal(StatusRoute(id, Get(runs, id)).body.state)
  {
    assert Get(runs, id) == Ok(runs[id]);
  }

  /**
   * Once a launched batch ends, the results route answers 200 with a result when the batch
   * returned and 400 with an error message otherwise.
   */
  lemma ResultsAfterFinish(runs: Runs, id: string, c: Completion)
    requires id in runs && runs[id].state == Running
    ensures var resp := ResultsRoute(id, Get(Finish(runs, id, c), id));
      && (resp.code == 200 <==> c.Returned?)
      && (resp.code == 400 <==> !c.Returned?)
      && (c.Returned? ==> resp.body == RunResult(id, Some(PayloadOf(c.dict))))
      && (!c.Returned? ==> resp.body.RunFailure? && resp.body.error.Some?)
  {
    var after := Finish(runs, id, c);
    assert Get(after, id) == Ok(Settle(runs[id], c));
  }

  /**
   * As written, after a batch that exits early the results route answers 202 for as long as
   * the run exists, whatever else is called.
   */
  lemma ResultsPendingForeverAsWritten(runs: Runs, id: string, r: Batch.BatchResult, calls: seq<Call>)
    requires id in runs && runs[id].state == Running && r.Aborted?
    requires forall k :: 0 <= k < |calls| ==> !Rewrites(calls[k], id)
    ensures var later := Replay(runs[id := SettleAsWritten(runs[id], CompletionOf(r))], calls);
      ResultsRoute(id, Get(later, id)).code == 202
  {
    ExitLeavesRunningAsWritten(runs, id, r, calls);
    var later := Replay(runs[id := SettleAsWritten(runs[id], CompletionOf(r))], calls);
    assert Get(later, id) == Ok(later[id]);
  }

  // ----- The announced base URL -----

  /** An environment variable that is set to a non-empty value. */
  predicate Truthy(env: map<string, string>, name: string) {
    name in env && env[name] != ""
  }

  /** The host part: ADAPTER_PUBLIC_HOST, else ADAPTER_SERVICE, else the default service name. */
  function PublicHost(env: map<string, string>, defaultService: string): (h: string)
    ensures Truthy(env, "ADAPTER_PUBLIC_HOST") ==> h == env["ADAPTER_PUBLIC_HOST"]
    ensures !Truthy(env, "ADAPTER_PUBLIC_HOST") && Truthy(env, "ADAPTER_SERVICE") ==> h == env["ADAPTER_SERVICE"]
    ensures !Truthy(env, "ADAPTER_PUBLIC_HOST") && !Truthy(env, "ADAPTER_SERVICE") ==> h == defaultService
  {
    if Truthy(env, "ADAPTER_PUBLIC_HOST") then env["ADAPTER_PUBLIC_HOST"]
    else if Truthy(env, "ADAPTER_SERVICE") then env["ADAPTER_SERVICE"]
    else defaultService
  }

  /**
   * The port part: ADAPTER_PUBLIC_PORT when non-empty, else ADAPTER_PORT as set (even when
   * set to the empty string), else "8000".
   */
  function PublicPort(env: map<string, string>): (p: string)
    ensures Truthy(env, "ADAPTER_PUBLIC_PORT") ==> p == env["ADAPTER_PUBLIC_PORT"]
    ensures !Truthy(env, "ADAPTER_PUBLIC_PORT") && "ADAPTER_PORT" in env ==> p == env["ADAPTER_PORT"]
    ensures !Truthy(env, "ADAPTER_PUBLIC_PORT") && "ADAPTER_PORT" !in env ==> p == "8000"
  {
    if Truthy(env, "ADAPTER_PUBLIC_PORT") then env["ADAPTER_PUBLIC_PORT"]
    else if "ADAPTER_PORT" in env then env["ADAPTER_PORT"]
    else "8000"
  }

  /** `public_base_url`: ADAPTER_PUBLIC_URL without its trailing slashes, else `http://host:port`. */
  function PublicBaseUrl(env: map<string, string>, defaultService: string): (u: string)
    ensures Truthy(env, "ADAPTER_PUBLIC_URL") ==>
      && u <= env["ADAPTER_PUBLIC_URL"]
      && (u == [] || u[|u| - 1] != '/')
      && forall i :: |u| <= i < |env["ADAPTER_PUBLIC_URL"]| ==> env["ADAPTER_PUBLIC_URL"][i] == '/'
  {
    if Truthy(env, "ADAPTER_PUBLIC_URL") then TrimRight(env["ADAPTER_PUBLIC_URL"], c => c == '/')
    else "http://" + PublicHost(env, defaultService) + ":" + PublicPort(env)
  }

  /**
   * Without ADAPTER_PUBLIC_URL, the URL is `http://` followed by the host, one colon and the
   * port, whatever the host holds.
   */
  lemma BaseUrlParts(env: map<string, string>, defaultService: string)
    requires !Truthy(env, "ADAPTER_PUBLIC_URL")
    ensures var u := PublicBaseUrl(env, defaultService);
      var h := PublicHost(env, defaultService);
      && |u| == 8 + |h| + |PublicPort(env)|
      && u[..7] == "http://"
      && u[7..7 + |h|] == h
      && u[7 + |h|] == ':'
      && u[8 + |h|..] == PublicPort(env)
  {
    var u := PublicBaseUrl(env, defaultService);
    var h := PublicHost(env, defaultService);
    assert u == "http://" + h + ":" + PublicPort(env);
  }

  /** When the host has no colon, the first colon after the scheme is the one before the port. */
  lemma BaseUrlFirstColon(env: map<string, string>, defaultService: string)
    requires !Truthy(env, "ADAPTER_PUBLIC_URL")
    requires forall i :: 0 <= i < |PublicHost(env, defaultService)| ==> PublicHost(env, defaultService)[i] != ':'
    ensures var u := PublicBaseUrl(env, defaultService);
      var h := PublicHost(env, defaultService);
      && u[7 + |h|] == ':'
      && forall i :: 7 <= i < 7 + |h| ==> u[i] != ':'
  {
    BaseUrlParts(env, defaultService);
    var u := PublicBaseUrl(env, defaultService);
    var h := PublicHost(env, defaultService);
    forall i | 7 <= i < 7 + |h| ensures u[i] != ':' {
      assert u[i] == u[7..7 + |h|][i - 7];
    }
  }
}
