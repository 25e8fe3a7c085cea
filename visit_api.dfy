/**
 * The client for the remote visit counter (api/worker.py, `call_visit_api`)
 * and the coercion of its answer to the observed counter value each poll
 * uses. The HTTP request itself is not modelled: what the provider sent, or
 * the exception the request raised, is an input.
 */
module VisitApi {
  import opened Wrappers
  import opened Json

  const SuccessfulVisitsKey: string := "SuccessfulVisits"
  const RawKey: string := "raw"

  /**
   * What one request to the provider produced: either a body, together with
   * what `json.loads` made of it (`None` when it raised), or the text of the
   * exception that aborted the request (network error, timeout, HTTP error).
   */
  datatype HttpOutcome =
    | Received(body: string, parsed: Option<Json>)
    | Raised(error: string)

  /** The dictionary `call_visit_api` returns: `{"ok": True, "api", "SuccessfulVisits"}` or `{"ok": False, "error"}`. */
  datatype FetchResult =
    | FetchOk(api: Json, succ: Json)
    | FetchFailed(error: string)

  /** The document kept for the log: the parsed body, or `{"raw": body}` when it was not JSON. */
  function ResponseDocument(body: string, parsed: Option<Json>): (js: Json)
    ensures parsed.Some? ==> js == parsed.value
    ensures parsed.None? ==> js.JObject? && js.fields.Keys == {RawKey} && js.fields[RawKey] == JString(body)
  {
    match parsed
    case Some(v) => v
    case None => JObject(map[RawKey := JString(body)])
  }

  /**
   * The `SuccessfulVisits` entry of the response: the field's value turned
   * into an integer when `int()` accepts it, the value as it was when `int()`
   * raises, and `JNull` (Python's `None`) when the response is not an object
   * or has no such field.
   */
  function SuccessfulVisits(js: Json): (succ: Json)
    ensures !(js.JObject? && SuccessfulVisitsKey in js.fields) ==> succ == JNull
    ensures js.JObject? && SuccessfulVisitsKey in js.fields ==>
      ToInt(succ) == ToInt(js.fields[SuccessfulVisitsKey])
      && (ToInt(succ).Some? ==> succ == JInt(ToInt(succ).value))
      && (ToInt(succ).None? ==> succ == js.fields[SuccessfulVisitsKey])
  {
    if js.JObject? && SuccessfulVisitsKey in js.fields then
      var v := js.fields[SuccessfulVisitsKey];
      if v == JNull then JNull
      else match ToInt(v)
        case Some(n) => JInt(n)
        case None => v
    else JNull
  }

  /** `call_visit_api` with the request's outcome given. */
  function CallVisitApi(o: HttpOutcome): (r: FetchResult)
    ensures o.Raised? <==> r.FetchFailed?
    ensures o.Raised? ==> r.error == o.error
    ensures o.Received? ==> r.api == ResponseDocument(o.body, o.parsed) && r.succ == SuccessfulVisits(r.api)
  {
    match o
    case Raised(e) => FetchFailed(e)
    case Received(body, parsed) =>
      var js := ResponseDocument(body, parsed);
      FetchOk(js, SuccessfulVisits(js))
  }

  /**
   * The observed counter value one poll works with (`succ_num`): the
   * integer in `SuccessfulVisits`, and 0 when the request failed, the field
   * was missing or null, or its value is not an integer.
   */
  function Observed(r: FetchResult): (n: int)
    ensures r.FetchFailed? ==> n == 0
    ensures r.FetchOk? ==> n == ToInt(r.succ).GetOr(0)
  {
    match r
    case FetchFailed(_) => 0
    case FetchOk(_, succ) =>
      if succ == JNull then 0
      else match ToInt(succ)
        case Some(n) => n
        case None => 0
  }

  /** The field the provider reported, coerced as a whole: the reference reading of a response. */
  function ReportedCount(o: HttpOutcome): int {
    if o.Received? && o.parsed.Some? && o.parsed.value.JObject?
       && SuccessfulVisitsKey in o.parsed.value.fields
    then ToInt(o.parsed.value.fields[SuccessfulVisitsKey]).GetOr(0)
    else 0
  }

  /**
   * End to end, the value a poll observes is the provider's field coerced
   * once by `int()`, or 0: a failed request, a body that is not JSON, a
   * document that is not an object, a missing field and an uncoercible
   * value all read as 0.
   */
  lemma ObservedIsReportedCount(o: HttpOutcome)
    ensures Observed(CallVisitApi(o)) == ReportedCount(o)
    ensures o.Raised? || (o.Received? && o.parsed.None?) ==> Observed(CallVisitApi(o)) == 0
  {
    if o.Received? && o.parsed.None? {
      assert SuccessfulVisitsKey !in ResponseDocument(o.body, o.parsed).fields;
    }
  }
}
