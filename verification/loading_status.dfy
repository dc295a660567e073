/**
 * The loading-status slot of the spec state in src/core/plugins/download-url.js:
 * the `updateLoadingStatus` action creator, the `spec_update_loading_status`
 * reducer and the `loadingStatus` selector.
 */
module LoadingStatus {
  import opened Wrappers

  /** A status argument: JavaScript `null`, `undefined`, or a string. */
  datatype Payload = Null | Undefined | Text(text: string)

  /** The values the action creator accepts without complaint, in the source's order. */
  const Recognised: seq<Payload> := [Null, Text("loading"), Text("failed"), Text("success"), Text("failedConfig")]

  /** `JSON.stringify` of the recognised values, as the diagnostic prints it. */
  const RecognisedJson: string := "[null,\"loading\",\"failed\",\"success\",\"failedConfig\"]"

  const UpdateType: string := "spec_update_loading_status"

  datatype Action = Action(kind: string, payload: Payload)

  /** What the action creator produces: the action, and the text it logs, if any. */
  datatype Dispatched = Dispatched(action: Action, diagnostic: Option<string>)

  /** The status as it appears inside a template literal. */
  function Show(p: Payload): string {
    match p
    case Null => "null"
    case Undefined => "undefined"
    case Text(s) => s
  }

  /**
   * `updateLoadingStatus(status)`: the action always carries `status` unchanged;
   * a diagnostic is logged exactly when `status` is not a recognised value.
   */
  function UpdateLoadingStatus(status: Payload): (d: Dispatched)
    ensures d.action.kind == UpdateType && d.action.payload == status
    ensures d.diagnostic.Some? <==> status !in Recognised
    ensures d.diagnostic.Some? ==>
              d.diagnostic.value == "Error: " + Show(status) + " is not one of " + RecognisedJson
  {
    var logged := if status in Recognised then None
                  else Some("Error: " + Show(status) + " is not one of " + RecognisedJson);
    Dispatched(Action(UpdateType, status), logged)
  }

  /** The spec state as far as this plugin reads or writes it. */
  datatype SpecState = SpecState(loadingStatus: Option<string>)

  /** The `spec_update_loading_status` reducer: only a string payload is stored. */
  function Reduce(state: SpecState, action: Action): (r: SpecState)
    ensures action.payload.Text? ==> r.loadingStatus == Some(action.payload.text)
    ensures !action.payload.Text? ==> r == state
  {
    match action.payload
    case Text(s) => state.(loadingStatus := Some(s))
    case _ => state
  }

  /**
   * The `loadingStatus` selector over a possibly missing spec state: None stands
   * for `null`, returned when the state or the slot is missing or the slot is empty.
   */
  function Select(state: Option<SpecState>): (r: Option<string>)
    ensures r.Some? ==> r.value != "" && state.Some? && state.value.loadingStatus == r
    ensures r.None? ==> state.None? || state.value.loadingStatus in {None, Some("")}
  {
    if state.None? then None
    else match state.value.loadingStatus
      case Some(s) => if s != "" then Some(s) else None
      case None => None
  }

  /** The state a status update leads to: the action creator's output fed to the reducer. */
  function Apply(state: SpecState, status: Payload): SpecState {
    Reduce(state, UpdateLoadingStatus(status).action)
  }

  /**
   * Every non-empty string status, recognised or not, is what the selector reads
   * back after the update; `null` and `undefined` leave the reading as it was;
   * `""` makes it read null.
   */
  lemma UpdateThenSelect(state: SpecState, status: Payload)
    ensures status.Text? && status.text != "" ==> Select(Some(Apply(state, status))) == Some(status.text)
    ensures status.Text? && status.text == "" ==> Select(Some(Apply(state, status))) == None
    ensures !status.Text? ==> Select(Some(Apply(state, status))) == Select(Some(state))
  {
  }

  /** An unrecognised string status is still stored, and is also logged. */
  lemma UnrecognisedStillApplied(state: SpecState, s: string)
    requires Text(s) !in Recognised
    ensures UpdateLoadingStatus(Text(s)).diagnostic.Some?
    ensures Apply(state, Text(s)).loadingStatus == Some(s)
  {
  }
}
