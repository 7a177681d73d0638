# state_webhook, modelled in Dafny

A model of the decision logic of the Home Assistant integration
`state_webhook`, which forwards every state change of a chosen set of
entities to an HTTP endpoint ("webhook"). The model covers:

- **entity-set resolution** (`resolve_tracking_entities`): four optional
  filters (an explicit id list, an `fnmatch` glob, a domain, a label set
  looked up in the entity registry) each yield a candidate set; OR mode (the
  default) takes their union, AND mode the intersection of the candidate
  sets that came out non-empty, and fails when there is none;
- **glob matching** with Python's `fnmatch` semantics (`*`, `?`, `[...]`,
  `[!...]`, ranges, an unclosed `[` taken literally; a reversed range such
  as `z-a` is deleted from a class, and a `!` that the deletion brings to
  the front of the class negates it, as CPython's `fnmatch.translate`
  does);
- **payload construction** (`build_payload`);
- **header preparation** (`prepare_headers`), including the fact that it
  writes `Authorization` into the header dict stored in the options;
- **delivery classification** (`call_webhook`): success exactly for a 2xx
  status, and the configuration flow's identical status check;
- **the registration guard** (`register_webhook`): an empty resolved set
  registers no listener.

Files: `wrappers.dfy` (Option, Result, Python truthiness of strings and
lists), `glob.dfy` (module `Glob`), `config.dfy` (module `Config`: the
options record, `FilterMode`, the mutable `HeaderDict`), `resolver.dfy`
(module `Resolver`), `payload.dfy` (module `Payload`), `headers.dfy`
(module `Headers`), `delivery.dfy` (module `Delivery`).

The host is a value: `Resolver.Host` holds the state machine's entity ids,
the ids the host lists per domain (`HostValid` says these are state-machine
ids), and the registry's label set per registered id (registered ids need
not have a state). Exceptions that escape the source are `Err` values:
`FilterMode(...)` on an unknown stored mode (ValueError) and
`set.intersection()` called with no argument (TypeError).

## Model

| member | source | states |
|---|---|---|
| `Config.WebhookUrl` | custom_components/state_webhook/__init__.py:46 | the stored URL, or the text "None" when the option is absent |
| `Resolver.ParseFilterMode` | custom_components/state_webhook/__init__.py:112 | an absent mode is OR; "or" and "and" select their mode; any other stored value is an error |
| `Resolver.ResolveTrackingEntities` | custom_components/state_webhook/__init__.py:110-135 | an unknown stored mode is returned as the error; the no-argument intersection error arises only in AND mode; the rest of its behaviour is stated by the `Resolver.Resolve*` lemmas below |
| `Resolver.GlobEntities` | custom_components/state_webhook/__init__.py:119 | the glob candidates are state-machine ids; none without a glob (`Resolver.CandidatesFromStateMachine` gives membership) |
| `Resolver.IdEntities` | custom_components/state_webhook/__init__.py:120 | the explicit candidates are state-machine ids that are listed; none without a list |
| `Resolver.DomainEntities` | custom_components/state_webhook/__init__.py:121 | none without a domain, and none for a domain the host does not list |
| `Resolver.LabelEntities` | custom_components/state_webhook/__init__.py:124-129 | the label candidates are registry ids; none without labels (`Resolver.LabelEntitiesMembership` gives membership) |
| `Resolver.Combine` | custom_components/state_webhook/__init__.py:131-135 | OR never fails; the call fails, with the no-argument intersection error, iff the mode is AND and every candidate set is empty |
| `Resolver.UnknownFilterModeFails` | custom_components/state_webhook/__init__.py:112 | an unknown stored mode makes the whole resolution fail with that value |
| `Resolver.NonEmptySets` | custom_components/state_webhook/__init__.py:133 | keeps exactly the non-empty sets, each drawn from the input |
| `Resolver.UnionAllMembership` | custom_components/state_webhook/__init__.py:135 | an id is in the union iff it is in one of the sets |
| `Resolver.IntersectAllMembership` | custom_components/state_webhook/__init__.py:133 | an id is in the intersection of a non-empty list iff it is in every set |
| `Resolver.ResolveOrIsUnion` | custom_components/state_webhook/__init__.py:112-135 | with no stored mode or "or", the result is the union of the glob, explicit, domain and label sets |
| `Resolver.ResolveAndMembership` | custom_components/state_webhook/__init__.py:131-133 | in AND mode with some non-empty candidate, an id is tracked iff it is in every non-empty candidate set; empty ones do not constrain |
| `Resolver.ResolveAndFailsIffAllEmpty` | custom_components/state_webhook/__init__.py:131-133 | in AND mode the call fails, with the no-argument intersection error, iff all four candidate sets are empty |
| `Resolver.ResolveAndSingleFilter` | custom_components/state_webhook/__init__.py:131-133 | in AND mode with exactly one non-empty candidate, the result is that candidate |
| `Resolver.NoFilterConfigured` | custom_components/state_webhook/__init__.py:119-135 | with no filter set, OR mode tracks nothing and AND mode fails |
| `Resolver.CandidatesFromStateMachine` | custom_components/state_webhook/__init__.py:119-121 | unset filters give the empty set; the glob set is the state-machine ids matching the glob; the explicit set is the state-machine ids that are listed; glob and domain sets lie within the state machine |
| `Resolver.LabelEntitiesMembership` | custom_components/state_webhook/__init__.py:124-129 | an id is in the label set iff labels are configured and it is registered with one of them; all such ids are registry ids |
| `Resolver.ResolvedIdsAreKnown` | custom_components/state_webhook/__init__.py:119-135 | every tracked id is a state-machine id or a registry id |
| `Resolver.AndWithinOr` | custom_components/state_webhook/__init__.py:131-135 | the AND result is always within the union of the candidate sets |
| `Glob.FnMatch` | custom_components/state_webhook/__init__.py:119 | no ensures of its own; its meaning is stated by the `Glob` lemmas below (`*` by `Glob.StarSkipsAnyRun`, classes by the bracket lemmas) |
| `Glob.LiteralMatchesOnlyItself` | custom_components/state_webhook/__init__.py:119 | a glob without `*`, `?`, `[` matches exactly the identical id |
| `Glob.LiteralStarMatchesPrefix` | custom_components/state_webhook/__init__.py:119 | `prefix*` matches exactly the ids starting with the prefix |
| `Glob.StarSkipsAnyRun` | custom_components/state_webhook/__init__.py:119 | `*` followed by further tokens matches iff those tokens match some suffix of the name, so `*` stands for any run of characters |
| `Glob.StarLiteralMatchesSuffix` | custom_components/state_webhook/__init__.py:119 | `*suffix` matches exactly the ids ending with the suffix |
| `Glob.StarPatternMatchesEverything` | custom_components/state_webhook/__init__.py:119 | `*` matches every id |
| `Glob.QuestionMatchesOneCharacter` | custom_components/state_webhook/__init__.py:119 | `?` matches exactly the one-character ids |
| `Glob.SingleTokenMatch` | custom_components/state_webhook/__init__.py:119 | a single non-star token matches exactly the one-character names it accepts |
| `Glob.BracketMatchesOneClassCharacter` | custom_components/state_webhook/__init__.py:119 | `[body]` matches exactly one character of the class, `[!body]` one character outside it; for `[body]` this requires that no `!` is left at the front once reversed ranges are deleted |
| `Glob.BangAfterReversedRangeNegates` | custom_components/state_webhook/__init__.py:119 | when deleting reversed ranges leaves a lone `!` item at the front of `[body]`, the bracket matches exactly one character outside the remaining items |
| `Glob.BangRangeAfterReversedRangeNegates` | custom_components/state_webhook/__init__.py:119 | when deleting reversed ranges leaves a range `!-y` at the front of `[body]`, the bracket matches exactly one character that is neither `-` nor `y` and lies outside the remaining items |
| `Glob.ReversedRangeBangExample` | custom_components/state_webhook/__init__.py:119 | `[z-a!]` matches every one-character id |
| `Glob.UnclosedBracketIsLiteral` | custom_components/state_webhook/__init__.py:119 | an unclosed `[` is not an error but a literal character |
| `Glob.SensorGlobExample` | custom_components/state_webhook/__init__.py:119 | `sensor.*` matches `sensor.temperature` and not `switch.temperature` |
| `Payload.BuildPayload` | custom_components/state_webhook/__init__.py:87-100 | keys entity_id, time, old_state, new_state always, new_state_attributes exactly when the attributes option is set; old_state null without a previous state; attributes passed verbatim |
| `Headers.WithAuthorization` | custom_components/state_webhook/__init__.py:104-107 | a set auth header adds or replaces Authorization and keeps every other header; no auth header changes nothing |
| `Headers.PrepareHeaders` | custom_components/state_webhook/__init__.py:102-108 | returns the configured dict itself when non-empty (and writes Authorization into it), otherwise a fresh dict; its entries are the configured headers with the auth option applied |
| `Headers.WithAuthorizationIdempotent` | custom_components/state_webhook/__init__.py:102-108 | preparing headers of options already prepared gives the same headers |
| `Headers.AuthorizationOverridesConfigured` | custom_components/state_webhook/__init__.py:105-107 | a configured Authorization header is replaced, not duplicated |
| `Headers.NoHeadersConfigured` | custom_components/state_webhook/__init__.py:104 | no headers and no auth give an empty header map |
| `Delivery.Classify` | custom_components/state_webhook/__init__.py:77-85 | success iff a 2xx status; HTTP error with the status otherwise; transport error iff an exception |
| `Delivery.CallWebhook` | custom_components/state_webhook/__init__.py:77-85 | true exactly when the classification is success |
| `Delivery.ValidationAcceptsStatus` | custom_components/state_webhook/config_flow.py:108 | the connection test's range check; with `Delivery.ValidationAgreesWithDelivery` it accepts exactly the statuses 200 to 299 |
| `Delivery.ValidationAgreesWithDelivery` | custom_components/state_webhook/config_flow.py:107-109 | the connection test accepts exactly the statuses a delivery counts as success |
| `Delivery.RegisterWebhook` | custom_components/state_webhook/__init__.py:38-47 | a resolver error escapes; an empty resolved set registers nothing and leaves the options untouched; otherwise a listener on exactly the resolved ids with the stored URL and the prepared headers, which are the options' own non-empty header dict (now carrying Authorization) or a fresh dict with the options' dict unchanged |

## Divergences between code and tests

- `__init__.py:19` imports `CONF_INCLUDE_ATTRIBUTES`, which `const.py` does
  not define (it defines `CONF_PAYLOAD_ATTRIBUTES`, line 10, the key the
  tests use at tests/test_init.py:91). As written the import fails; the
  model reads the `payload_attributes` option.
- tests/test_init.py:99-100 expect `old_state` to be left out when
  `payload_old_state` is false; `build_payload` never reads that option, and
  the model follows the code (the option is in `Config.Options` but unused).
- tests/test_init.py:77-84 expect three delivery attempts; the code makes one
  POST per state change (`__init__.py:67-68`) and has no retry. No retry is
  modelled.

## Behaviour of the code as written

- In AND mode with every candidate set empty, the code raises instead of
  tracking nothing (`Resolver.ResolveAndFailsIffAllEmpty`).
- `fnmatch` never rejects a pattern, and an unclosed `[` is a literal
  (`Glob.UnclosedBracketIsLiteral`).
- A class whose reversed ranges are deleted can end up negated: `[z-a!]`
  matches any single character (`Glob.ReversedRangeBangExample`).

## Left out

- `async_setup_entry`, `async_at_started` and the subscription made by
  `async_track_state_change_event` (`__init__.py:29-35, 70`): host lifecycle
  and event callbacks. `Delivery.RegisterWebhook` returns the listener's
  parameters instead of registering it.
- `handle_state_change` (`__init__.py:52-68`): it only chains
  `build_payload` and one `call_webhook`; both are modelled, the async
  chaining is not.
- The aiohttp session and POST, and all logging: the outcome of a POST is a
  `Delivery.PostOutcome` parameter.
- `config_flow.py` apart from the status check at line 108: UI schemas,
  flow wiring and the `cv.url` check are library behaviour.
- `datetime.isoformat()`: `time` is the opaque `State.lastUpdated` string.
- `Payload.BuildPayload` takes the new state as present; the source
  dereferences it unguarded at `__init__.py:91`, so its `None` branch at
  line 93 cannot be reached.
- Python truthiness of arbitrary option values: string and list options are
  falsy when absent or empty, boolean options are modelled as `bool`; the
  headers option is assumed to be a dict.
- `fnmatch` case folding: on a POSIX host `os.path.normcase` is the
  identity, so matching is case-sensitive; the Windows behaviour is not
  modelled.
- The host's domain index is given as a map from domain to ids rather than
  derived from the `domain.` prefix of each id.
