// The deployment service: the current-deployment record and its history,
// both kept as JSON files, and the health summary of the three services.
// File contents (already decoded from JSON), command outputs and the
// clock are inputs.
module Deployment {
  import opened Common
  import opened Text

  /** A decoded JSON value. */
  datatype Json =
    | JNull
    | JBool(b: bool)
    | JNum(n: real)
    | JStr(s: string)
    | JArr(items: seq<Json>)
    | JObj(fields: map<string, Json>)

  /** JavaScript truthiness of a JSON value (NaN does not occur in JSON). */
  predicate Truthy(v: Json)
  {
    match v
    case JNull => false
    case JBool(b) => b
    case JNum(n) => n != 0.0
    case JStr(s) => s != ""
    case _ => true
  }

  /** A deployment record: the object's keys and values. */
  type Record = map<string, Json>

  /** `obj.key || fallback` for a key that may be absent. */
  function OrDefault(input: Record, key: string, fallback: Json): (r: Json)
    ensures key in input && Truthy(input[key]) ==> r == input[key]
    ensures !(key in input && Truthy(input[key])) ==> r == fallback
  {
    if key in input && Truthy(input[key]) then input[key] else fallback
  }

  /** The record `getCurrentDeployment` returns when it cannot read the file. */
  function UnknownDeployment(error: string): (r: Record)
    ensures r.Keys == {"version", "deployedAt", "commitHash", "deployedBy", "error"}
    ensures r["version"] == JStr("unknown") && r["error"] == JStr(error)
    ensures r["deployedAt"] == JNull && r["commitHash"] == JNull && r["deployedBy"] == JNull
  {
    map["version" := JStr("unknown"), "deployedAt" := JNull, "commitHash" := JNull,
        "deployedBy" := JNull, "error" := JStr(error)]
  }

  /**
   * `getCurrentDeployment()`: the decoded file as it is; a missing file
   * gives the unknown record with `Deployment file not found`, a file that
   * cannot be read or decoded the unknown record with that error's message.
   */
  function GetCurrentDeployment(file: FileState<Json>): (r: Json)
    ensures file.Missing? ==> r == JObj(UnknownDeployment("Deployment file not found"))
    ensures file.Unreadable? ==> r == JObj(UnknownDeployment(file.reason))
    ensures file.Present? ==> r == file.content
    ensures !file.Present? ==> r.JObj? && r.fields["version"] == JStr("unknown")
  {
    match file
    case Missing => JObj(UnknownDeployment("Deployment file not found"))
    case Unreadable(reason) => JObj(UnknownDeployment(reason))
    case Present(content) => content
  }

  /** The keys `updateDeployment` fills in whatever the input holds. */
  const DefaultedKeys: set<string> := {"version", "deployedAt", "commitHash", "deployedBy"}

  /**
   * The object literal of `updateDeployment`: four defaulted fields
   * followed by `...deploymentData`, so a key of the input, truthy or not,
   * overrides its default.
   */
  function MergeDeployment(input: Record, now: string): (r: Record)
    ensures r.Keys == input.Keys + DefaultedKeys
    ensures forall k :: k in input ==> r[k] == input[k]
    ensures "version" !in input ==> r["version"] == JStr("v1.0.0")
    ensures "deployedAt" !in input ==> r["deployedAt"] == JStr(now)
    ensures "commitHash" !in input ==> r["commitHash"] == JNull
    ensures "deployedBy" !in input ==> r["deployedBy"] == JStr("manual")
  {
    var defaults := map[
      "version" := OrDefault(input, "version", JStr("v1.0.0")),
      "deployedAt" := JStr(now),
      "commitHash" := OrDefault(input, "commitHash", JNull),
      "deployedBy" := OrDefault(input, "deployedBy", JStr("manual"))];
    defaults + input
  }

  /**
   * `updateDeployment(deploymentData)`: the merged record, written to the
   * deployment file and returned; a failed write is rethrown.
   */
  function UpdateDeployment(input: Record, now: string, writeError: Option<string>): (r: Result<Record>)
    ensures writeError.Some? <==> r.Err?
    ensures writeError.Some? ==> r.message == writeError.value
    ensures r.Ok? ==> r.value.Keys == input.Keys + DefaultedKeys
    ensures r.Ok? ==> forall k :: k in input ==> r.value[k] == input[k]
  {
    if writeError.Some? then Err(writeError.value) else Ok(MergeDeployment(input, now))
  }

  /**
   * `getDeploymentHistory()`: the decoded history file, or `[]` when it is
   * missing or cannot be read or decoded.
   */
  function GetDeploymentHistory(file: FileState<Json>): (r: Json)
    ensures file.Present? ==> r == file.content
    ensures !file.Present? ==> r == JArr([])
  {
    match file
    case Present(content) => content
    case _ => JArr([])
  }

  /** `addToHistory` keeps the twenty most recent deployments. */
  const HistoryCap := 20

  /**
   * The message V8 gives when the decoded history is a string, number,
   * boolean or object: none of them has an `unshift` method.
   */
  const NotAnArray := "history.unshift is not a function"

  /** The message V8 gives when the decoded history is `null`. */
  const NullHistory := "Cannot read properties of null (reading 'unshift')"

  /**
   * Prepending `d` to `old` and keeping the first twenty: `d` comes first,
   * followed by the first `min(|old|, 19)` old entries in order.
   */
  predicate Prepended(r: seq<Json>, d: Json, older: seq<Json>)
  {
    && |r| == Min(|older| + 1, HistoryCap)
    && r != [] && r[0] == d
    && r[1..] == older[..Min(|older|, HistoryCap - 1)]
  }

  /**
   * `addToHistory(deployment)`: reads the history (none when the file is
   * missing), `unshift`s the deployment, keeps the first twenty and writes
   * the list back. A read or decode failure, a decoded value that is not
   * an array (`null` with its own message), and a failed write are rethrown.
   */
  method AddToHistory(file: FileState<Json>, deployment: Json, writeError: Option<string>)
    returns (r: Result<seq<Json>>)
    ensures file.Unreadable? ==> r == Err(file.reason)
    ensures file.Present? && file.content.JNull? ==> r == Err(NullHistory)
    ensures file.Present? && !file.content.JArr? && !file.content.JNull? ==> r == Err(NotAnArray)
    ensures (file.Missing? || (file.Present? && file.content.JArr?)) && writeError.Some? ==>
      r == Err(writeError.value)
    ensures file.Missing? && writeError.None? ==> r == Ok([deployment])
    ensures file.Present? && file.content.JArr? && writeError.None? ==>
      r.Ok? && Prepended(r.value, deployment, file.content.items)
    ensures file.Present? && file.content.JArr? && |file.content.items| < HistoryCap && writeError.None? ==>
      r == Ok([deployment] + file.content.items)
  {
    var history: seq<Json> := [];
    match file {
      case Missing =>
      case Unreadable(reason) =>
        return Err(reason);
      case Present(decoded) =>
        if decoded.JNull? {
          return Err(NullHistory);
        } else if !decoded.JArr? {
          return Err(NotAnArray);
        }
        history := decoded.items;
    }
    ghost var older := history;
    history := [deployment] + history;
    history := TakeFirst(history, HistoryCap);
    assert history[1..] == older[..Min(|older|, HistoryCap - 1)];
    assert |older| < HistoryCap ==> history == [deployment] + older;
    if writeError.Some? {
      return Err(writeError.value);
    }
    r := Ok(history);
  }

  /** The outcome of one `execSync` call: it threw, or returned its output. */
  datatype Probe = Threw | Output(text: string)

  /** `services.backend`. */
  datatype BackendStatus = BackendStatus(status: string, port: Json, uptime: real)

  /** The object `checkServicesHealth` resolves to; each other service is `{ status }`. */
  datatype Health = Health(backend: BackendStatus, frontend: string, nginx: string)

  /**
   * `checkServicesHealth()`: the backend is always `running`; the frontend
   * is `running` exactly when its `index.html` exists and `error`
   * otherwise; nginx is decided by the trimmed output of `systemctl
   * is-active` (`active` gives `running`, anything else `inactive`), by the
   * trimmed output of the `pgrep` check when `systemctl` throws (`running`
   * gives `running`, anything else `stopped`), and is `unknown` when both
   * throw.
   */
  method CheckServicesHealth(uptime: real, port: Json, frontendExists: bool, systemctl: Probe, pgrep: Probe)
    returns (services: Health)
    ensures services.backend == BackendStatus("running", port, uptime)
    ensures services.frontend == if frontendExists then "running" else "error"
    ensures systemctl.Output? ==> services.nginx == if Trim(systemctl.text) == "active" then "running" else "inactive"
    ensures systemctl.Threw? && pgrep.Output? ==>
      services.nginx == if Trim(pgrep.text) == "running" then "running" else "stopped"
    ensures systemctl.Threw? && pgrep.Threw? ==> services.nginx == "unknown"
    ensures services.nginx == "running" <==>
      (systemctl.Output? && Trim(systemctl.text) == "active")
      || (systemctl.Threw? && pgrep.Output? && Trim(pgrep.text) == "running")
  {
    services := Health(BackendStatus("running", port, uptime), "unknown", "unknown");

    if frontendExists {
      services := services.(frontend := "running");
    } else {
      services := services.(frontend := "error");
    }

    match systemctl {
      case Output(result) =>
        if Trim(result) == "active" {
          services := services.(nginx := "running");
        } else {
          services := services.(nginx := "inactive");
        }
      case Threw =>
        match pgrep {
          case Output(result) =>
            if Trim(result) == "running" {
              services := services.(nginx := "running");
            } else {
              services := services.(nginx := "stopped");
            }
          case Threw =>
            services := services.(nginx := "unknown");
        }
    }
  }
}
