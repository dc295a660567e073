/**
 * The `download` action of src/core/plugins/download-url.js as a pure function
 * from its inputs to the sequence of intents it emits. The network call is not
 * performed: its settled outcome (resolved response or rejected error) is an
 * input, and the request handed to it is recorded as a `Fetch` event.
 */
module Download {
  import opened Wrappers
  import Js
  import Security
  import LoadingStatus

  /** How the fetch settled: a response, or a thrown error that may carry a `statusText`. */
  datatype FetchResult =
    | Response(status: int, statusText: string, text: string)
    | Failure(errorStatusText: Option<string>)

  /** The intents `download` emits, in order. */
  datatype Event =
    | SetStatus(status: string)
    | Fetch(request: Security.Request)
    | ReportError(message: string)
    | UpdateSpec(text: string)
    | UpdateUrl(url: string)

  const AcceptAll: string := "application/json,*/*"

  /** `url || specSelectors.url()`. */
  function EffectiveUrl(explicit: Option<string>, configured: string): (url: string)
    ensures Js.Truthy(explicit) ==> url == explicit.value
    ensures !Js.Truthy(explicit) ==> url == configured
  {
    Js.Or(explicit, configured)
  }

  /** The request built before security is applied. */
  function BaseRequest(url: string): Security.RequestInit {
    Security.RequestInit(url, true, "same-origin", Some(map["Accept" := AcceptAll]), None)
  }

  /** The request handed to `fetch`. */
  function SpecRequest(url: string, authorized: seq<Security.Activation>): (r: Security.Request)
    ensures r.url == url && r.loadSpec && r.credentials == "same-origin"
  {
    Security.ApplySecurities(BaseRequest(url), authorized)
  }

  /** The failure test of `next`: an error, or a response with status 400 or above. */
  predicate Failed(res: FetchResult) {
    res.Failure? || res.status >= 400
  }

  /** `res.statusText`, as a template literal renders it. */
  function StatusText(res: FetchResult): string {
    match res
    case Response(_, t, _) => t
    case Failure(t) => Js.Interpolate(t)
  }

  /**
   * The `next` continuation, run once the fetch has settled: the terminal status
   * first, then the error report on failure, or the document and URL on success.
   */
  function Complete(url: string, res: FetchResult): (events: seq<Event>)
    ensures |events| >= 2
    ensures events[0] == SetStatus(if Failed(res) then "failed" else "success")
    ensures forall i :: 1 <= i < |events| ==> !events[i].SetStatus?
    ensures Failed(res) ==> events[1..] == [ReportError(StatusText(res) + " " + url)]
    ensures !Failed(res) ==> events[1..] == [UpdateSpec(res.text), UpdateUrl(url)]
  {
    if Failed(res) then
      [SetStatus("failed"), ReportError(StatusText(res) + " " + url)]
    else
      [SetStatus("success"), UpdateSpec(res.text), UpdateUrl(url)]
  }

  /** The number of `SetStatus(s)` events in `events`. */
  function CountStatus(events: seq<Event>, s: string): nat {
    multiset(events)[SetStatus(s)]
  }

  /** Whether an event publishes a document or a URL. */
  predicate Publishes(e: Event) {
    e.UpdateSpec? || e.UpdateUrl?
  }

  /** The intents of one download: `loading`, the fetch, then the continuation's intents. */
  function Trace(request: Security.Request, url: string, res: FetchResult): seq<Event> {
    [SetStatus("loading"), Fetch(request)] + Complete(url, res)
  }

  /** The intents of a failed download. */
  lemma FailedTrace(request: Security.Request, url: string, res: FetchResult)
    requires Failed(res)
    ensures var trace := Trace(request, url, res);
            && |trace| == 4
            && trace[0] == SetStatus("loading") && trace[1] == Fetch(request)
            && trace[2] == SetStatus("failed")
            && trace[3] == ReportError(StatusText(res) + " " + url)
            && (forall i :: 3 <= i < |trace| ==> !trace[i].SetStatus?)
            && (forall i :: 0 <= i < |trace| ==> !Publishes(trace[i]))
            && CountStatus(trace, "loading") == 1
            && CountStatus(trace, "failed") == 1
            && CountStatus(trace, "success") == 0
  {
    var trace := Trace(request, url, res);
    assert trace == [SetStatus("loading"), Fetch(request), SetStatus("failed"),
                     ReportError(StatusText(res) + " " + url)];
  }

  /** The intents of a successful download. */
  lemma SucceededTrace(request: Security.Request, url: string, res: FetchResult)
    requires !Failed(res)
    ensures var trace := Trace(request, url, res);
            && |trace| == 5
            && trace[0] == SetStatus("loading") && trace[1] == Fetch(request)
            && trace[2] == SetStatus("success")
            && trace[3] == UpdateSpec(res.text) && trace[4] == UpdateUrl(url)
            && (forall i :: 3 <= i < |trace| ==> !trace[i].SetStatus?)
            && CountStatus(trace, "loading") == 1
            && CountStatus(trace, "failed") == 0
            && CountStatus(trace, "success") == 1
  {
    var trace := Trace(request, url, res);
    assert trace == [SetStatus("loading"), Fetch(request), SetStatus("success"),
                     UpdateSpec(res.text), UpdateUrl(url)];
  }

  /** The facts `Download` promises, for the intents of any request, URL and outcome. */
  lemma TraceFacts(request: Security.Request, url: string, res: FetchResult)
    ensures var trace := Trace(request, url, res);
            && |trace| == (if Failed(res) then 4 else 5)
            && trace[0] == SetStatus("loading")
            && trace[1] == Fetch(request)
            && trace[2] == SetStatus(if Failed(res) then "failed" else "success")
            && (forall i :: 3 <= i < |trace| ==> !trace[i].SetStatus?)
            && CountStatus(trace, "loading") == 1
            && CountStatus(trace, "failed") == (if Failed(res) then 1 else 0)
            && CountStatus(trace, "success") == (if Failed(res) then 0 else 1)
            && (Failed(res) ==> forall i :: 0 <= i < |trace| ==> !Publishes(trace[i]))
            && (Failed(res) ==> trace[3] == ReportError(StatusText(res) + " " + url))
            && (!Failed(res) ==> trace[3] == UpdateSpec(res.text) && trace[4] == UpdateUrl(url))
  {
    if Failed(res) {
      FailedTrace(request, url, res);
    } else {
      SucceededTrace(request, url, res);
    }
  }

  /**
   * `download(explicit)`: status `loading`, then the fetch of the decorated
   * request for the effective URL, then the continuation's events. Exactly one
   * `loading` and exactly one terminal status (`failed` or `success`) are emitted,
   * no status change follows the terminal one, and nothing is published on failure.
   */
  function Download(explicit: Option<string>, configured: string,
                    authorized: seq<Security.Activation>, res: FetchResult): (trace: seq<Event>)
    ensures |trace| == (if Failed(res) then 4 else 5)
    ensures trace[0] == SetStatus("loading")
    ensures trace[1] == Fetch(SpecRequest(EffectiveUrl(explicit, configured), authorized))
    ensures trace[2] == SetStatus(if Failed(res) then "failed" else "success")
    ensures forall i :: 3 <= i < |trace| ==> !trace[i].SetStatus?
    ensures CountStatus(trace, "loading") == 1
    ensures CountStatus(trace, "failed") + CountStatus(trace, "success") == 1
    ensures CountStatus(trace, "failed") == 1 <==> Failed(res)
    ensures Failed(res) ==> forall i :: 0 <= i < |trace| ==> !Publishes(trace[i])
    ensures Failed(res) ==> trace[3] == ReportError(StatusText(res) + " " + EffectiveUrl(explicit, configured))
    ensures !Failed(res) ==> trace[3] == UpdateSpec(res.text) && trace[4] == UpdateUrl(EffectiveUrl(explicit, configured))
  {
    var url := EffectiveUrl(explicit, configured);
    var request := SpecRequest(url, authorized);
    TraceFacts(request, url, res);
    Trace(request, url, res)
  }

  /**
   * The base request's Accept header survives unless an activation writes the
   * `Accept` header itself, and the only query entries are those apiKey
   * activations with `in: query` write.
   */
  lemma FetchedRequest(url: string, authorized: seq<Security.Activation>)
    ensures var r := SpecRequest(url, authorized);
            (forall i :: 0 <= i < |authorized| ==> !Security.Writes(authorized[i], Security.Headers, "Accept"))
            ==> "Accept" in r.headers && r.headers["Accept"] == AcceptAll
    ensures forall k :: k in SpecRequest(url, authorized).query ==>
              exists i :: 0 <= i < |authorized| && Security.Writes(authorized[i], Security.Query, k)
  {
    var base := Security.Prepare(BaseRequest(url));
    if forall i :: 0 <= i < |authorized| ==> !Security.Writes(authorized[i], Security.Headers, "Accept") {
      Security.UnwrittenKept(base, authorized, Security.Headers, "Accept");
    }
    forall k | k in SpecRequest(url, authorized).query
      ensures exists i :: 0 <= i < |authorized| && Security.Writes(authorized[i], Security.Query, k)
    {
      Security.FoldKeys(base, authorized, Security.Query, k);
    }
  }

  /** The effect of one intent on the loading-status slot: only status changes touch it. */
  function ApplyEvent(state: LoadingStatus.SpecState, e: Event): LoadingStatus.SpecState {
    if e.SetStatus? then LoadingStatus.Apply(state, LoadingStatus.Text(e.status)) else state
  }

  /** The loading-status slot after the intents of `events` are dispatched in order. */
  function Replay(state: LoadingStatus.SpecState, events: seq<Event>): LoadingStatus.SpecState
    decreases |events|
  {
    if |events| == 0 then state
    else Replay(ApplyEvent(state, events[0]), events[1..])
  }

  /**
   * Whatever the slot held before, once a download's intents have been applied
   * the selector reads `failed` after a failed fetch and `success` otherwise.
   */
  lemma DownloadSettles(state: LoadingStatus.SpecState, explicit: Option<string>,
                        configured: string, authorized: seq<Security.Activation>, res: FetchResult)
    ensures LoadingStatus.Select(Some(Replay(state, Download(explicit, configured, authorized, res))))
            == Some(if Failed(res) then "failed" else "success")
  {
    var trace := Download(explicit, configured, authorized, res);
    ReplaySettles(state, trace, if Failed(res) then "failed" else "success");
  }

  /** A trace whose third intent is the last status change leaves that status in the slot. */
  lemma ReplaySettles(state: LoadingStatus.SpecState, trace: seq<Event>, terminal: string)
    requires |trace| >= 3 && !trace[1].SetStatus? && trace[2] == SetStatus(terminal)
    requires forall i :: 3 <= i < |trace| ==> !trace[i].SetStatus?
    ensures Replay(state, trace).loadingStatus == Some(terminal)
  {
    var t1, t2, t3 := trace[1..], trace[2..], trace[3..];
    assert t1[0] == trace[1] && t1[1..] == t2;
    assert t2[0] == trace[2] && t2[1..] == t3;
    var loading := ApplyEvent(state, trace[0]);
    var settled := ApplyEvent(loading, t2[0]);
    assert Replay(state, trace) == Replay(loading, t1);
    assert Replay(loading, t1) == Replay(loading, t2);
    assert Replay(loading, t2) == Replay(settled, t3);
    assert forall i :: 0 <= i < |t3| ==> t3[i] == trace[i + 3];
    TrailingEventsKeepStatus(settled, t3);
  }

  /** Events other than status changes leave the slot alone. */
  lemma {:induction false} TrailingEventsKeepStatus(state: LoadingStatus.SpecState, events: seq<Event>)
    requires forall i :: 0 <= i < |events| ==> !events[i].SetStatus?
    ensures Replay(state, events) == state
    decreases |events|
  {
    if |events| > 0 {
      TrailingEventsKeepStatus(state, events[1..]);
    }
  }

  /** The failure message for a 404 response. */
  lemma NotFoundExample()
    ensures Complete("http://x/spec.json", Response(404, "Not Found", ""))[1]
            == ReportError("Not Found http://x/spec.json")
  {
  }
}
