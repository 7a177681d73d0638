/** The decision points of `register_webhook` and `call_webhook`: whether a
    listener is registered, and whether a webhook call counts as
    delivered. */
module Delivery {

  import opened Wrappers
  import opened Config
  import opened Resolver
  import opened Headers

  /** What one POST came to: a response with a status code, or an
      exception raised by the HTTP client. */
  datatype PostOutcome = Responded(status: int) | Raised(cause: string)

  /** The three outcomes a delivery is reported as. */
  datatype DeliveryOutcome = Success | HttpError(status: int) | TransportError(cause: string)

  /** The outcome of one POST, in the three-way taxonomy. */
  function Classify(outcome: PostOutcome): (d: DeliveryOutcome)
    ensures d.Success? <==> outcome.Responded? && 200 <= outcome.status < 300
    ensures d.HttpError? <==> outcome.Responded? && (outcome.status < 200 || 300 <= outcome.status)
    ensures d.HttpError? ==> d.status == outcome.status
    ensures d.TransportError? <==> outcome.Raised?
  {
    match outcome
    case Raised(cause) => TransportError(cause)
    case Responded(status) =>
      if 200 <= status && status < 300 then Success else HttpError(status)
  }

  /** `call_webhook`'s result: true on a 2xx status, false on any other
      status or on an exception. */
  function CallWebhook(outcome: PostOutcome): (ok: bool)
    ensures ok <==> Classify(outcome) == Success
  {
    match outcome
    case Responded(status) => 200 <= status < 300
    case Raised(_) => false
  }

  /** The status check of the configuration flow's connection test: it
      rejects a status below 200 or from 300 on. */
  function ValidationAcceptsStatus(status: int): (accepted: bool)
    ensures accepted ==> 200 <= status
  {
    !(status < 200 || status >= 300)
  }

  /** The configuration flow accepts exactly the statuses a delivery counts
      as successful. */
  lemma ValidationAgreesWithDelivery(status: int)
    ensures ValidationAcceptsStatus(status) <==> CallWebhook(Responded(status))
  {
  }

  /** What `register_webhook` leaves behind: nothing, or a listener on a
      set of entities with the URL and headers each call will use. */
  datatype Registration =
    | NotTracking
    | Tracking(entities: set<string>, url: string, headers: HeaderDict)

  /** `register_webhook(hass, entry)`. An exception of the resolver
      escapes; an empty resolved set registers nothing and leaves the
      options untouched; otherwise the headers are prepared and a listener
      is registered on exactly the resolved ids. A non-empty header dict in
      the options is the one the listener uses, and it now carries the
      `Authorization` header; an empty or absent one is left as it was and
      the listener gets a new dict. */
  method RegisterWebhook(h: Host, o: Options) returns (r: Result<Registration, ResolveError>)
    modifies if o.webhookHeaders.Some? then {o.webhookHeaders.value} else {}
    ensures var resolved := ResolveTrackingEntities(h, o);
      && (resolved.Err? ==> r == Err(resolved.error))
      && (resolved.Ok? && resolved.value == {} ==> r == Ok(NotTracking))
      && (resolved.Ok? && resolved.value != {} ==> r.Ok? && r.value.Tracking? && r.value.entities == resolved.value)
    ensures r.Ok? && r.value.Tracking? ==>
      && r.value.url == WebhookUrl(o)
      && r.value.headers.entries ==
           WithAuthorization(if o.webhookHeaders.Some? then old(o.webhookHeaders.value.entries) else map[],
                             o.webhookAuthHeader)
    ensures r.Ok? && r.value.Tracking? && o.webhookHeaders.Some? && old(o.webhookHeaders.value.entries) != map[] ==>
      r.value.headers == o.webhookHeaders.value
    ensures r.Ok? && r.value.Tracking? && (o.webhookHeaders.None? || old(o.webhookHeaders.value.entries) == map[]) ==>
      && fresh(r.value.headers)
      && (o.webhookHeaders.Some? ==> unchanged(o.webhookHeaders.value))
    ensures !(r.Ok? && r.value.Tracking?) && o.webhookHeaders.Some? ==> unchanged(o.webhookHeaders.value)
  {
    var resolved := ResolveTrackingEntities(h, o);
    if resolved.Err? {
      return Err(resolved.error);
    }
    var entities := resolved.value;
    if entities == {} {
      return Ok(NotTracking);
    }
    var url := WebhookUrl(o);
    var headers := PrepareHeaders(o.webhookHeaders, o.webhookAuthHeader);
    r := Ok(Tracking(entities, url, headers));
  }
}
