/** The HTTP headers of the webhook call (`prepare_headers`). */
module Headers {

  import opened Wrappers
  import opened Config

  const AuthorizationKey := "Authorization"

  /** The header map after the auth option is applied: a set auth header
      adds or replaces `Authorization` and leaves every other header as it
      was; an absent or empty one changes nothing. */
  function WithAuthorization(base: map<string, string>, auth: Option<string>): (r: map<string, string>)
    ensures Truthy(auth) ==> AuthorizationKey in r && r[AuthorizationKey] == auth.value
    ensures !Truthy(auth) ==> r == base
    ensures forall k :: k != AuthorizationKey ==> (k in r <==> k in base)
    ensures forall k :: k != AuthorizationKey && k in base ==> r[k] == base[k]
  {
    if Truthy(auth) then base[AuthorizationKey := auth.value] else base
  }

  /** `prepare_headers(options)`: takes the configured header dict when it
      is non-empty, otherwise a new empty dict, and writes `Authorization`
      into it. A non-empty configured dict is the one returned and the one
      changed: the options themselves then carry the `Authorization`
      header. */
  method PrepareHeaders(configured: Option<HeaderDict>, auth: Option<string>) returns (headers: HeaderDict)
    modifies if configured.Some? then {configured.value} else {}
    ensures configured.Some? && old(configured.value.entries) != map[] ==> headers == configured.value
    ensures configured.None? || old(configured.value.entries) == map[] ==> fresh(headers)
    ensures configured.Some? && old(configured.value.entries) == map[] ==> unchanged(configured.value)
    ensures headers.entries ==
      WithAuthorization(if configured.Some? then old(configured.value.entries) else map[], auth)
  {
    if configured.Some? && configured.value.entries != map[] {
      headers := configured.value;
    } else {
      headers := new HeaderDict();
    }
    if Truthy(auth) {
      headers.entries := headers.entries[AuthorizationKey := auth.value];
    }
  }

  /** Applying the auth option to headers that already carry it changes
      nothing, so preparing the headers of the same options twice (once when
      the webhook is validated, once when it is registered) gives the same
      headers. */
  lemma WithAuthorizationIdempotent(base: map<string, string>, auth: Option<string>)
    ensures WithAuthorization(WithAuthorization(base, auth), auth) == WithAuthorization(base, auth)
  {
  }

  /** The auth option overrides a configured `Authorization` header rather
      than adding a second one. */
  lemma AuthorizationOverridesConfigured(base: map<string, string>, auth: Option<string>)
    requires Truthy(auth) && AuthorizationKey in base
    ensures WithAuthorization(base, auth).Keys == base.Keys
    ensures WithAuthorization(base, auth)[AuthorizationKey] == auth.value
  {
  }

  /** With neither headers nor auth configured the request carries no
      header of the integration's own. */
  lemma NoHeadersConfigured(auth: Option<string>)
    requires !Truthy(auth)
    ensures WithAuthorization(map[], auth) == map[]
  {
  }
}
