/** The web controller's own incident filter: case-insensitive type and
    severity filters, where null or empty means "any", and an untrimmed
    keyword searched in the location and description joined by a space. */
module ControllerFilter {
  import opened Common
  import opened Text
  import opened Seqs
  import opened Incidents
  import Search
  import Filter

  /** A request parameter that is present and not empty. */
  predicate Given(param: Option<string>)
  {
    param.Some? && param.value != []
  }

  /** `filter.equalsIgnoreCase(value)`, false for a null value. */
  predicate EqualsIgnoreCase(filter: string, value: Option<string>)
  {
    value.Some? && Lower(filter) == Lower(value.value)
  }

  /** `location + " " + (description != null ? description : "")`, where
      string concatenation spells a null location "null". */
  function SearchText(incident: Incident): string
  {
    (if incident.location.Some? then incident.location.value else "null")
    + " " + (if incident.description.Some? then incident.description.value else "")
  }

  /** Whether the loop body leaves `matches` true for an incident. */
  function Criteria(typeFilter: Option<string>, severityFilter: Option<string>, keyword: Option<string>): Incident -> bool
  {
    (i: Incident) =>
      (!Given(typeFilter) || EqualsIgnoreCase(typeFilter.value, i.incidentType))
      && (!Given(severityFilter) || EqualsIgnoreCase(severityFilter.value, i.severity))
      && (!Given(keyword) || Contains(Lower(SearchText(i)), Lower(keyword.value)))
  }

  /** `filterIncidents`: one pass over the incidents with a `matches` flag,
      appending each incident that passes every given condition. */
  method FilterIncidents(incidents: seq<Incident>, typeFilter: Option<string>, severityFilter: Option<string>,
                         keyword: Option<string>) returns (filtered: seq<Incident>)
    ensures filtered == Keep(incidents, Criteria(typeFilter, severityFilter, keyword))
  {
    ghost var p := Criteria(typeFilter, severityFilter, keyword);
    filtered := [];
    var n := 0;
    while n < |incidents|
      invariant 0 <= n <= |incidents|
      invariant filtered == Keep(incidents[..n], p)
    {
      var incident := incidents[n];
      var matches := true;
      if typeFilter.Some? && typeFilter.value != [] {
        if !EqualsIgnoreCase(typeFilter.value, incident.incidentType) {
          matches := false;
        }
      }
      if matches && severityFilter.Some? && severityFilter.value != [] {
        if !EqualsIgnoreCase(severityFilter.value, incident.severity) {
          matches := false;
        }
      }
      if matches && keyword.Some? && keyword.value != [] {
        var searchText := Lower(SearchText(incident));
        if !Contains(searchText, Lower(keyword.value)) {
          matches := false;
        }
      }
      assert matches == p(incident);
      if matches {
        filtered := filtered + [incident];
      }
      assert incidents[..n + 1] == incidents[..n] + [incident];
      KeepAppend(incidents[..n], incident, p);
      n := n + 1;
    }
    assert incidents[..n] == incidents;
  }

  /** The result is an order-preserving subsequence of the input; an
      incident is in it exactly when all three conditions hold. */
  lemma FilterResultSpec(incidents: seq<Incident>, typeFilter: Option<string>, severityFilter: Option<string>,
                         keyword: Option<string>)
    ensures var r := Keep(incidents, Criteria(typeFilter, severityFilter, keyword));
      IsSubsequence(r, incidents)
      && forall x :: x in r <==>
        x in incidents
        && (!Given(typeFilter) || EqualsIgnoreCase(typeFilter.value, x.incidentType))
        && (!Given(severityFilter) || EqualsIgnoreCase(severityFilter.value, x.severity))
        && (!Given(keyword) || Contains(Lower(SearchText(x)), Lower(keyword.value)))
    ensures var p := Criteria(typeFilter, severityFilter, keyword);
      forall x :: multiset(Keep(incidents, p))[x] == if p(x) then multiset(incidents)[x] else 0
  {
    KeepSpec(incidents, Criteria(typeFilter, severityFilter, keyword));
  }

  /** With no condition given, every incident passes. */
  lemma NoConditionKeepsAll(incidents: seq<Incident>, typeFilter: Option<string>, severityFilter: Option<string>,
                            keyword: Option<string>)
    requires !Given(typeFilter) && !Given(severityFilter) && !Given(keyword)
    ensures Keep(incidents, Criteria(typeFilter, severityFilter, keyword)) == incidents
  {
    KeepAll(incidents, Criteria(typeFilter, severityFilter, keyword));
  }

  /** A given type filter never keeps an incident without a type. */
  lemma NullTypeExcluded(typeFilter: string, severityFilter: Option<string>, keyword: Option<string>, i: Incident)
    requires typeFilter != [] && i.incidentType.None?
    ensures !Criteria(Some(typeFilter), severityFilter, keyword)(i)
  {
  }

  /** The type filter ignores case, unlike the server's FilterService,
      which compares exactly: an upper-case filter letter keeps an incident
      with the lower-case type here and drops it there. */
  lemma TypeFilterIgnoresCase(c: char, i: Incident)
    requires 'A' <= c <= 'Z' && i.incidentType == Some([LowerChar(c)])
    ensures Criteria(Some([c]), None, None)(i)
    ensures !Filter.Matches(map["type" := Some([c])])(i)
  {
    assert Lower([c]) == [LowerChar(c)];
    assert Lower([LowerChar(c)]) == [LowerChar(c)];
  }

  /** The keyword is not searched for in the type, unlike SearchService:
      an incident whose type alone holds the keyword is found there but not
      here. */
  lemma TypeNotSearched(c: char, i: Incident)
    requires 'a' <= c <= 'z'
    requires i.incidentType == Some([c]) && i.location == Some([]) && i.description.None?
    ensures Search.MatchesTerm([c])(i)
    ensures !Criteria(None, None, Some([c]))(i)
  {
    assert Lower([c]) == [c];
    assert OccursAt(Lower([c]), [c], 0);
    assert SearchText(i) == [' '];
    assert Lower([' ']) == [' '];
  }

  /** The keyword is not trimmed, and the joining space is always there:
      a keyword of one space keeps every incident that passes the other
      two filters, whatever its location and description. */
  lemma SpaceKeywordMatchesAll(i: Incident)
    ensures Criteria(None, None, Some(" "))(i)
  {
    var loc := if i.location.Some? then i.location.value else "null";
    var desc := if i.description.Some? then i.description.value else "";
    assert SearchText(i) == loc + " " + desc;
    assert Lower(SearchText(i))[|loc|] == ' ';
    assert Lower(" ") == " ";
    assert OccursAt(Lower(SearchText(i)), " ", |loc|);
  }

  /** A missing location is searched as the word "null". */
  lemma NullLocationSearchedAsNull(i: Incident)
    requires i.location.None?
    ensures Criteria(None, None, Some("null"))(i)
  {
    var t := Lower(SearchText(i));
    assert Lower("null") == "null";
    assert t[..4] == "null";
    assert OccursAt(t, "null", 0);
  }
}
