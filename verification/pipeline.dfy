/** The incident listing of the incident servlet: filter, then search, then
    sort, with one FilterService and one SearchService shared by every
    request. Only the composition is modelled; parsing the request and
    writing the response are not. */
module Pipeline {
  import opened Common
  import opened Seqs
  import opened Incidents
  import opened Filter
  import opened Search
  import IS = IncidentService

  /** The query parameters of one listing request (`None` when absent). */
  datatype Query = Query(typeParam: Option<string>, severityParam: Option<string>, statusParam: Option<string>,
                         keyword: Option<string>, sortBy: Option<string>, order: Option<string>)

  predicate Present(param: Option<string>)
  {
    param.Some? && param.value != []
  }

  /** The criteria map built from the request: one entry per non-empty
      filter parameter. */
  function RequestFilters(q: Query): (f: Filters)
    ensures forall key :: key in f ==> IsFilterKey(key) && Present(f[key])
    ensures forall key :: IsFilterKey(key) && Present(FieldParam(q, key)) ==> key in f && f[key] == FieldParam(q, key)
  {
    var f0: Filters := map[];
    var f1 := if Present(q.typeParam) then f0["type" := q.typeParam] else f0;
    var f2 := if Present(q.severityParam) then f1["severity" := q.severityParam] else f1;
    if Present(q.statusParam) then f2["status" := q.statusParam] else f2
  }

  /** The request parameter that filters on a given name. */
  function FieldParam(q: Query, key: string): Option<string>
  {
    if key == "type" then q.typeParam
    else if key == "severity" then q.severityParam
    else if key == "status" then q.statusParam
    else None
  }

  /** The filter step: the filter service runs only when some filter
      parameter is given, and then with the active filters merged. */
  function Filtered(active: Filters, incidents: seq<Incident>, q: Query): seq<Incident>
  {
    var f := RequestFilters(q);
    if f == map[] then incidents else Keep(incidents, Matches(active + f))
  }

  /** The search step (the servlet's own null-or-empty test is implied by
      the service's blank test). */
  function Searched(incidents: seq<Incident>, keyword: Option<string>): seq<Incident>
  {
    if IsBlank(keyword) then incidents else Keep(incidents, MatchesTerm(SearchTerm(keyword.value)))
  }

  /** The sort step: only when `sortBy` is given, descending by default;
      `None` is the exception the servlet reports as a server error. */
  function Ordered(incidents: seq<Incident>, q: Query): Option<seq<Incident>>
  {
    if q.sortBy.None? then Some(incidents)
    else IS.SortIncidents(incidents, q.sortBy, if q.order.Some? then q.order else Some("desc"))
  }

  /** The listing for a request, given the filter service's active filters
      before it. */
  function Respond(active: Filters, incidents: seq<Incident>, q: Query): Option<seq<Incident>>
  {
    Ordered(Searched(Filtered(active, incidents, q), q.keyword), q)
  }

  lemma {:induction false} KeepSubMultiset<T(!new)>(xs: seq<T>, p: T -> bool)
    ensures multiset(Keep(xs, p)) <= multiset(xs)
  {
    KeepCounts(xs, p);
  }

  /** Whatever the active filters, a listing holds only incidents of the
      input, each at most as often as there. */
  lemma RespondDrawsFromInput(active: Filters, incidents: seq<Incident>, q: Query)
    requires Respond(active, incidents, q).Some?
    ensures multiset(Respond(active, incidents, q).value) <= multiset(incidents)
  {
    var f := RequestFilters(q);
    var a := Filtered(active, incidents, q);
    if f != map[] {
      KeepSubMultiset(incidents, Matches(active + f));
    }
    var b := Searched(a, q.keyword);
    if !IsBlank(q.keyword) {
      KeepSubMultiset(a, MatchesTerm(SearchTerm(q.keyword.value)));
    }
  }

  /** What a request alone asks for: each non-empty filter parameter equals
      its field exactly. */
  predicate RequestMatches(q: Query, x: Incident)
  {
    (Present(q.typeParam) ==> x.incidentType == q.typeParam)
    && (Present(q.severityParam) ==> x.severity == q.severityParam)
    && (Present(q.statusParam) ==> x.status == q.statusParam)
  }

  /** One filter of the request's criteria passes exactly when its
      parameter is absent or empty, or equals the field. */
  lemma RequestFilterPasses(q: Query, key: string, field: Option<string>)
    requires IsFilterKey(key)
    ensures Passes(RequestFilters(q), key, field) <==>
      (Present(FieldParam(q, key)) ==> field == FieldParam(q, key))
  {
  }

  /** The request's criteria select exactly what the request asks for. */
  lemma RequestFiltersMatch(q: Query, x: Incident)
    ensures Matches(RequestFilters(q))(x) <==> RequestMatches(q, x)
  {
    RequestFilterPasses(q, "type", x.incidentType);
    RequestFilterPasses(q, "severity", x.severity);
    RequestFilterPasses(q, "status", x.status);
  }

  /** With no filters carried over, the filter step keeps exactly the
      incidents the request's own parameters select. */
  lemma FreshFilterIsRequestFilter(incidents: seq<Incident>, q: Query, x: Incident)
    ensures x in Filtered(map[], incidents, q) <==> x in incidents && RequestMatches(q, x)
  {
    var f := RequestFilters(q);
    assert map[] + f == f;
    RequestFiltersMatch(q, x);
    if f == map[] {
      RequestFilterPasses(q, "type", x.incidentType);
      RequestFilterPasses(q, "severity", x.severity);
      RequestFilterPasses(q, "status", x.status);
    } else {
      KeepSpec(incidents, Matches(f));
    }
  }

  /** The listing as a fresh filter service would give it: an incident is
      listed exactly when it is in the input, satisfies the request's
      filters, and matches its keyword (if any). */
  lemma FreshRespondSpec(incidents: seq<Incident>, q: Query, x: Incident)
    requires Respond(map[], incidents, q).Some?
    ensures x in Respond(map[], incidents, q).value <==>
      x in incidents && RequestMatches(q, x)
      && (IsBlank(q.keyword) || MatchesTerm(SearchTerm(q.keyword.value))(x))
  {
    var a := Filtered(map[], incidents, q);
    var b := Searched(a, q.keyword);
    var r := Respond(map[], incidents, q).value;
    FreshFilterIsRequestFilter(incidents, q, x);
    if !IsBlank(q.keyword) {
      KeepSpec(a, MatchesTerm(SearchTerm(q.keyword.value)));
    }
    assert multiset(r) == multiset(b);
    assert x in r <==> x in multiset(r);
    assert x in b <==> x in multiset(b);
  }

  /** As written, the filters of an earlier request stay in force: after a
      request for type `t`, a request for severity `s` alone drops an
      incident of severity `s` whose type is not `t`, although that
      request asked for it. */
  lemma StickyFiltersDropRequestedIncident(t: string, s: string, x: Incident)
    requires t != [] && s != []
    requires x.incidentType != Some(t) && x.severity == Some(s)
    ensures var first := Query(Some(t), None, None, None, None, None);
      var second := Query(None, Some(s), None, None, None, None);
      var active := map[] + RequestFilters(first);
      RequestMatches(second, x)
      && Respond(map[], [x], second) == Some([x])
      && Respond(active, [x], second) == Some([])
  {
    var first := Query(Some(t), None, None, None, None, None);
    var second := Query(None, Some(s), None, None, None, None);
    var active := map[] + RequestFilters(first);
    assert active == map["type" := Some(t)];
    assert RequestFilters(second) == map["severity" := Some(s)];
    assert map[] + RequestFilters(second) == RequestFilters(second);
    KeepSingle(x, Matches(RequestFilters(second)));
    assert active + RequestFilters(second) == map["type" := Some(t), "severity" := Some(s)];
    KeepSingle(x, Matches(active + RequestFilters(second)));
  }

  /** The listing branch of `doGet` as written: the shared filter service
      keeps every earlier request's filters. */
  method ListIncidentsAsWritten(filterService: FilterService, searchService: SearchService,
                                incidents: seq<Incident>, q: Query) returns (r: Option<seq<Incident>>)
    requires searchService.Valid()
    modifies filterService`activeFilters, searchService`history
    ensures searchService.Valid()
    ensures r == Respond(old(filterService.activeFilters), incidents, q)
    ensures filterService.activeFilters ==
      if RequestFilters(q) == map[] then old(filterService.activeFilters)
      else old(filterService.activeFilters) + RequestFilters(q)
    ensures searchService.history ==
      if IsBlank(q.keyword) then old(searchService.history)
      else Remember(old(searchService.history), SearchTerm(q.keyword.value))
  {
    var listed := incidents;
    var filters := RequestFilters(q);
    if filters != map[] {
      listed := filterService.FilterIncidents(listed, Some(filters));
    }
    if q.keyword.Some? && q.keyword.value != [] {
      listed := searchService.SearchIncidents(listed, q.keyword);
    } else {
      assert IsBlank(q.keyword);
    }
    if q.sortBy.Some? {
      r := IS.SortIncidents(listed, q.sortBy, if q.order.Some? then q.order else Some("desc"));
    } else {
      r := Some(listed);
    }
  }

  /** The listing with the filters of this request only: a fresh filter
      service per request, so the answer depends on the request alone. */
  method ListIncidents(searchService: SearchService, incidents: seq<Incident>, q: Query)
    returns (r: Option<seq<Incident>>)
    requires searchService.Valid()
    modifies searchService`history
    ensures searchService.Valid()
    ensures r == Respond(map[], incidents, q)
    ensures searchService.history ==
      if IsBlank(q.keyword) then old(searchService.history)
      else Remember(old(searchService.history), SearchTerm(q.keyword.value))
    ensures r.Some? ==> forall x :: x in r.value <==>
      x in incidents && RequestMatches(q, x)
      && (IsBlank(q.keyword) || MatchesTerm(SearchTerm(q.keyword.value))(x))
  {
    var filterService := new FilterService();
    r := ListIncidentsAsWritten(filterService, searchService, incidents, q);
    if r.Some? {
      forall x ensures x in r.value <==>
        x in incidents && RequestMatches(q, x)
        && (IsBlank(q.keyword) || MatchesTerm(SearchTerm(q.keyword.value))(x))
      {
        FreshRespondSpec(incidents, q, x);
      }
    }
  }
}
