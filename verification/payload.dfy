/** The JSON body sent for one state change (`build_payload`). */
module Payload {

  import opened Wrappers
  import opened Config

  /** JSON values, as the HTTP client serialises them. Numbers are real so
      that float attributes such as `21.5` fit; attribute values are only
      passed through. */
  datatype Json =
    | JNull
    | JBool(b: bool)
    | JNum(n: real)
    | JStr(s: string)
    | JArray(items: seq<Json>)
    | JObject(fields: map<string, Json>)

  /** A state object of the host: its state string, its attributes, and the
      ISO-8601 text of its `last_updated` time (kept opaque). */
  datatype State = State(state: string, attributes: map<string, Json>, lastUpdated: string)

  const EntityIdKey := "entity_id"
  const TimeKey := "time"
  const OldStateKey := "old_state"
  const NewStateKey := "new_state"
  const NewStateAttributesKey := "new_state_attributes"

  /** `bool(options.get(CONF_PAYLOAD_ATTRIBUTES))`: false when absent. */
  predicate IncludeAttributes(o: Options) {
    o.payloadAttributes == Some(true)
  }

  /** The keys every payload carries. */
  function BaseKeys(): set<string> {
    {EntityIdKey, TimeKey, OldStateKey, NewStateKey}
  }

  /** `build_payload(options, entity_id, old_state, new_state)`: the four
      base keys always, `old_state` null when there was no previous state,
      and the new state's attributes, verbatim, exactly when the attributes
      option is set. The `payload_old_state` option is not consulted. */
  method BuildPayload(o: Options, entityId: string, oldState: Option<State>, newState: State)
    returns (payload: map<string, Json>)
    ensures payload.Keys == BaseKeys() + (if IncludeAttributes(o) then {NewStateAttributesKey} else {})
    ensures payload[EntityIdKey] == JStr(entityId)
    ensures payload[TimeKey] == JStr(newState.lastUpdated)
    ensures oldState.None? ==> payload[OldStateKey] == JNull
    ensures oldState.Some? ==> payload[OldStateKey] == JStr(oldState.value.state)
    ensures payload[NewStateKey] == JStr(newState.state)
    ensures NewStateAttributesKey in payload ==> payload[NewStateAttributesKey] == JObject(newState.attributes)
  {
    var old_ := if oldState.Some? then JStr(oldState.value.state) else JNull;
    payload := map[
      EntityIdKey := JStr(entityId),
      TimeKey := JStr(newState.lastUpdated),
      OldStateKey := old_,
      NewStateKey := JStr(newState.state)
    ];
    var includeAttributes := IncludeAttributes(o);
    if includeAttributes {
      payload := payload[NewStateAttributesKey := JObject(newState.attributes)];
    }
  }
}
