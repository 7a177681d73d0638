/** Resolution of the set of entity ids to track
    (`resolve_tracking_entities`): four candidate sets, one per configured
    filter, combined by union or by intersection. */
module Resolver {

  import opened Wrappers
  import opened Config
  import opened Glob

  /** What the host platform offers the resolver: the ids in the state
      machine, the ids it lists per domain, and the entity registry's labels
      per registered id. Registry ids need not have a state. */
  datatype Host = Host(
    entityIds: set<string>,
    domainIds: map<string, set<string>>,
    registry: map<string, set<string>>
  )

  /** The host lists, for a domain, only ids of the state machine. */
  ghost predicate HostValid(h: Host) {
    forall d :: d in h.domainIds ==> h.domainIds[d] <= h.entityIds
  }

  /** `hass.states.async_entity_ids(domain)`. */
  function IdsInDomain(h: Host, domain: string): set<string> {
    if domain in h.domainIds then h.domainIds[domain] else {}
  }

  /** The exceptions `resolve_tracking_entities` lets escape. */
  datatype ResolveError =
    | InvalidFilterMode(raw: string)   // `FilterMode(value)` raises ValueError
    | NothingToIntersect               // `set.intersection()` with no argument raises TypeError

  /** `FilterMode(entry.options.get(CONF_FILTER_MODE, FilterMode.OR))`. */
  function ParseFilterMode(raw: Option<string>): (r: Result<FilterMode, ResolveError>)
    ensures raw.None? ==> r == Ok(Or)
    ensures raw == Some("or") ==> r == Ok(Or)
    ensures raw == Some("and") ==> r == Ok(And)
    ensures r.Err? <==> raw.Some? && raw.value != "or" && raw.value != "and"
  {
    match raw
    case None => Ok(Or)
    case Some(v) =>
      if v == "or" then Ok(Or)
      else if v == "and" then Ok(And)
      else Err(InvalidFilterMode(v))
  }

  /** Ids of the state machine matching the glob; empty when no glob. */
  function GlobEntities(h: Host, glob: Option<string>): (r: set<string>)
    ensures r <= h.entityIds
    ensures !Truthy(glob) ==> r == {}
  {
    if Truthy(glob) then set id | id in h.entityIds && FnMatch(id, glob.value) else {}
  }

  /** Ids of the state machine that are in the configured list. */
  function IdEntities(h: Host, ids: Option<seq<string>>): (r: set<string>)
    ensures r <= h.entityIds
    ensures Truthy(ids) ==> forall id :: id in r ==> id in ids.value
    ensures !Truthy(ids) ==> r == {}
  {
    if Truthy(ids) then set id | id in h.entityIds && id in ids.value else {}
  }

  /** The host's ids for the configured domain. */
  function DomainEntities(h: Host, domain: Option<string>): (r: set<string>)
    ensures !Truthy(domain) ==> r == {}
    ensures Truthy(domain) && domain.value !in h.domainIds ==> r == {}
  {
    if Truthy(domain) then IdsInDomain(h, domain.value) else {}
  }

  /** Registered ids whose (non-empty) label set shares a label with the
      configured labels. */
  function LabelEntities(h: Host, labels: Option<seq<string>>): (r: set<string>)
    ensures r <= h.registry.Keys
    ensures !Truthy(labels) ==> r == {}
  {
    if Truthy(labels) then
      set id | id in h.registry && h.registry[id] != {} && exists l :: l in labels.value && l in h.registry[id]
    else {}
  }

  /** `all_results`, in the source's order. */
  function Candidates(h: Host, o: Options): (cs: seq<set<string>>)
    ensures |cs| == 4
  {
    [GlobEntities(h, o.entityIdGlob), IdEntities(h, o.entityIds),
     DomainEntities(h, o.entityDomain), LabelEntities(h, o.entityLabels)]
  }

  /** `set.union(*cs)`. */
  function UnionAll(cs: seq<set<string>>): set<string> {
    if cs == [] then {} else cs[0] + UnionAll(cs[1..])
  }

  /** `set.intersection(*cs)`, defined for a non-empty argument list. */
  function IntersectAll(cs: seq<set<string>>): set<string>
    requires cs != []
  {
    if |cs| == 1 then cs[0] else cs[0] * IntersectAll(cs[1..])
  }

  /** `[res for res in cs if res]`. */
  function NonEmptySets(cs: seq<set<string>>): (r: seq<set<string>>)
    ensures |r| <= |cs|
    ensures forall i :: 0 <= i < |r| ==> r[i] != {} && r[i] in cs
    ensures forall i :: 0 <= i < |cs| && cs[i] != {} ==> cs[i] in r
  {
    if cs == [] then []
    else if cs[0] != {} then [cs[0]] + NonEmptySets(cs[1..])
    else NonEmptySets(cs[1..])
  }

  /** The final union or intersection of `resolve_tracking_entities`. */
  function Combine(mode: FilterMode, cs: seq<set<string>>): (r: Result<set<string>, ResolveError>)
    ensures mode == Or ==> r.Ok?
    ensures r.Err? <==> mode == And && forall i :: 0 <= i < |cs| ==> cs[i] == {}
    ensures r.Err? ==> r.error == NothingToIntersect
  {
    match mode
    case Or => Ok(UnionAll(cs))
    case And =>
      var present := NonEmptySets(cs);
      if present == [] then Err(NothingToIntersect) else Ok(IntersectAll(present))
  }

  /** `resolve_tracking_entities(hass, entry)`. */
  function ResolveTrackingEntities(h: Host, o: Options): (r: Result<set<string>, ResolveError>)
    ensures ParseFilterMode(o.filterMode).Err? ==> r == Err(ParseFilterMode(o.filterMode).error)
    ensures r == Err(NothingToIntersect) ==> o.filterMode == Some("and")
  {
    var mode :- ParseFilterMode(o.filterMode);
    Combine(mode, Candidates(h, o))
  }

  lemma {:induction false} UnionAllMembership(cs: seq<set<string>>, x: string)
    ensures x in UnionAll(cs) <==> exists i :: 0 <= i < |cs| && x in cs[i]
  {
    if cs != [] {
      UnionAllMembership(cs[1..], x);
      if x in UnionAll(cs[1..]) {
        var i :| 0 <= i < |cs[1..]| && x in cs[1..][i];
        assert x in cs[i + 1];
      }
      if exists i :: 0 <= i < |cs| && x in cs[i] {
        var i :| 0 <= i < |cs| && x in cs[i];
        if i > 0 {
          assert x in cs[1..][i - 1];
        }
      }
    }
  }

  lemma {:induction false} IntersectAllMembership(cs: seq<set<string>>, x: string)
    requires cs != []
    ensures x in IntersectAll(cs) <==> forall i :: 0 <= i < |cs| ==> x in cs[i]
  {
    if |cs| > 1 {
      IntersectAllMembership(cs[1..], x);
      if x in IntersectAll(cs) {
        forall i | 0 <= i < |cs| ensures x in cs[i] {
          if i > 0 {
            assert cs[i] == cs[1..][i - 1];
          }
        }
      }
      if forall i :: 0 <= i < |cs| ==> x in cs[i] {
        forall i | 0 <= i < |cs[1..]| ensures x in cs[1..][i] {
          assert cs[1..][i] == cs[i + 1];
        }
      }
    }
  }

  /** The four candidate sets and their union, named for the lemmas below. */
  function UnionOfCandidates(h: Host, o: Options): set<string> {
    GlobEntities(h, o.entityIdGlob) + IdEntities(h, o.entityIds) +
    DomainEntities(h, o.entityDomain) + LabelEntities(h, o.entityLabels)
  }

  /** In OR mode, which is also the mode when none is stored, the result is
      the union of the four candidate sets. */
  lemma ResolveOrIsUnion(h: Host, o: Options)
    requires o.filterMode == None || o.filterMode == Some("or")
    ensures ResolveTrackingEntities(h, o) == Ok(UnionOfCandidates(h, o))
  {
    var cs := Candidates(h, o);
    forall x ensures x in UnionAll(cs) <==> x in UnionOfCandidates(h, o) {
      UnionAllMembership(cs, x);
      if x in UnionOfCandidates(h, o) {
        if x in cs[0] { assert x in cs[0]; }
        else if x in cs[1] { assert x in cs[1]; }
        else if x in cs[2] { assert x in cs[2]; }
        else { assert x in cs[3]; }
      }
    }
    assert UnionAll(cs) == UnionOfCandidates(h, o);
    assert ParseFilterMode(o.filterMode) == Ok(Or);
  }

  /** In AND mode with at least one non-empty candidate set, an id is
      tracked exactly when it lies in every candidate set that is non-empty:
      a filter that matched nothing does not constrain the result. */
  lemma ResolveAndMembership(h: Host, o: Options, x: string)
    requires o.filterMode == Some("and")
    requires exists i :: 0 <= i < 4 && Candidates(h, o)[i] != {}
    ensures var cs := Candidates(h, o);
      && ResolveTrackingEntities(h, o).Ok?
      && (x in ResolveTrackingEntities(h, o).value <==> forall i :: 0 <= i < 4 && cs[i] != {} ==> x in cs[i])
  {
    var cs := Candidates(h, o);
    var present := NonEmptySets(cs);
    var i :| 0 <= i < 4 && cs[i] != {};
    assert cs[i] in present;
    IntersectAllMembership(present, x);
    if forall j :: 0 <= j < 4 && cs[j] != {} ==> x in cs[j] {
      forall k | 0 <= k < |present| ensures x in present[k] {
        var j :| 0 <= j < |cs| && cs[j] == present[k];
      }
    }
    if forall k :: 0 <= k < |present| ==> x in present[k] {
      forall j | 0 <= j < 4 && cs[j] != {} ensures x in cs[j] {
        assert cs[j] in present;
        var k :| 0 <= k < |present| && present[k] == cs[j];
      }
    }
  }

  /** In AND mode the call fails exactly when every candidate set is empty:
      the intersection is then taken over no sets at all. */
  lemma ResolveAndFailsIffAllEmpty(h: Host, o: Options)
    requires o.filterMode == Some("and")
    ensures ResolveTrackingEntities(h, o).Err? <==> forall i :: 0 <= i < 4 ==> Candidates(h, o)[i] == {}
    ensures ResolveTrackingEntities(h, o).Err? ==> ResolveTrackingEntities(h, o).error == NothingToIntersect
  {
    var cs := Candidates(h, o);
    if exists i :: 0 <= i < 4 && cs[i] != {} {
      var i :| 0 <= i < 4 && cs[i] != {};
      assert cs[i] in NonEmptySets(cs);
    }
  }

  /** In AND mode with exactly one non-empty candidate set, the result is
      that set. */
  lemma ResolveAndSingleFilter(h: Host, o: Options, k: nat)
    requires o.filterMode == Some("and")
    requires k < 4 && Candidates(h, o)[k] != {}
    requires forall j :: 0 <= j < 4 && j != k ==> Candidates(h, o)[j] == {}
    ensures ResolveTrackingEntities(h, o) == Ok(Candidates(h, o)[k])
  {
    var cs := Candidates(h, o);
    ResolveAndMembership(h, o, "");
    var r := ResolveTrackingEntities(h, o);
    forall x ensures x in r.value <==> x in cs[k] {
      ResolveAndMembership(h, o, x);
    }
    assert r.value == cs[k];
  }

  /** With no filter configured, OR mode tracks nothing and AND mode fails. */
  lemma NoFilterConfigured(h: Host, o: Options)
    requires !Truthy(o.entityIdGlob) && !Truthy(o.entityIds)
    requires !Truthy(o.entityDomain) && !Truthy(o.entityLabels)
    ensures o.filterMode == None || o.filterMode == Some("or") ==> ResolveTrackingEntities(h, o) == Ok({})
    ensures o.filterMode == Some("and") ==> ResolveTrackingEntities(h, o) == Err(NothingToIntersect)
  {
    if o.filterMode == None || o.filterMode == Some("or") {
      ResolveOrIsUnion(h, o);
    }
    if o.filterMode == Some("and") {
      ResolveAndFailsIffAllEmpty(h, o);
    }
  }

  /** An unknown stored mode fails before any filter is evaluated. */
  lemma UnknownFilterModeFails(h: Host, o: Options)
    requires o.filterMode.Some? && o.filterMode.value != "or" && o.filterMode.value != "and"
    ensures ResolveTrackingEntities(h, o) == Err(InvalidFilterMode(o.filterMode.value))
  {
  }

  /** The glob, explicit and domain sets hold only ids of the state
      machine; the explicit set is the state machine's ids that are listed,
      so unknown listed ids are dropped; a filter left unset contributes the
      empty set. */
  lemma CandidatesFromStateMachine(h: Host, o: Options)
    requires HostValid(h)
    ensures !Truthy(o.entityIdGlob) ==> GlobEntities(h, o.entityIdGlob) == {}
    ensures !Truthy(o.entityIds) ==> IdEntities(h, o.entityIds) == {}
    ensures !Truthy(o.entityDomain) ==> DomainEntities(h, o.entityDomain) == {}
    ensures !Truthy(o.entityLabels) ==> LabelEntities(h, o.entityLabels) == {}
    ensures GlobEntities(h, o.entityIdGlob) <= h.entityIds
    ensures forall id :: id in GlobEntities(h, o.entityIdGlob) <==>
      Truthy(o.entityIdGlob) && id in h.entityIds && FnMatch(id, o.entityIdGlob.value)
    ensures forall id :: id in IdEntities(h, o.entityIds) <==>
      Truthy(o.entityIds) && id in h.entityIds && id in o.entityIds.value
    ensures DomainEntities(h, o.entityDomain) <= h.entityIds
  {
  }

  /** An id is in the label set exactly when it is registered with a label
      among the configured ones; the registry, not the state machine, is
      where these ids come from. */
  lemma LabelEntitiesMembership(h: Host, o: Options, id: string)
    ensures id in LabelEntities(h, o.entityLabels) <==>
      && Truthy(o.entityLabels)
      && id in h.registry
      && exists l :: l in o.entityLabels.value && l in h.registry[id]
    ensures LabelEntities(h, o.entityLabels) <= h.registry.Keys
  {
  }

  lemma {:induction false} UnionAllWithin(cs: seq<set<string>>, bound: set<string>)
    requires forall i :: 0 <= i < |cs| ==> cs[i] <= bound
    ensures UnionAll(cs) <= bound
  {
    if cs != [] {
      assert cs[0] <= bound;
      UnionAllWithin(cs[1..], bound);
    }
  }

  /** Every tracked id is known to the state machine or to the registry. */
  lemma ResolvedIdsAreKnown(h: Host, o: Options)
    requires HostValid(h)
    requires ResolveTrackingEntities(h, o).Ok?
    ensures ResolveTrackingEntities(h, o).value <= h.entityIds + h.registry.Keys
  {
    var cs := Candidates(h, o);
    var known := h.entityIds + h.registry.Keys;
    CandidatesFromStateMachine(h, o);
    assert forall i :: 0 <= i < |cs| ==> cs[i] <= known;
    UnionAllWithin(cs, known);
    if o.filterMode == Some("and") {
      forall x | x in ResolveTrackingEntities(h, o).value ensures x in known {
        UnionAllMembership(cs, x);
        ResolveAndFailsIffAllEmpty(h, o);
        ResolveAndMembership(h, o, x);
        var i :| 0 <= i < 4 && cs[i] != {};
      }
    }
  }

  /** For the same filters, AND mode never tracks an id OR mode does not. */
  lemma AndWithinOr(h: Host, o: Options)
    requires o.filterMode == Some("and")
    requires ResolveTrackingEntities(h, o).Ok?
    ensures ResolveTrackingEntities(h, o).value <= UnionOfCandidates(h, o)
  {
    var cs := Candidates(h, o);
    forall x | x in ResolveTrackingEntities(h, o).value ensures x in UnionOfCandidates(h, o) {
      ResolveAndFailsIffAllEmpty(h, o);
      ResolveAndMembership(h, o, x);
      var i :| 0 <= i < 4 && cs[i] != {};
      assert x in cs[i];
    }
  }
}
