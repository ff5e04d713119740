/** The browser's FilterService: the same three filters as the server's, but
    a filter is applied only when its value is truthy (a non-empty string),
    and compared with `===`. The active filters always hold the three names,
    null to begin with; merged criteria may add others. A JavaScript value
    that is null or undefined is `None`; only string values are modelled. */
module ClientFilter {
  import opened Common
  import opened Seqs
  import opened Incidents
  import Filter

  type Filters = map<string, Option<string>>

  /** `{ type: null, severity: null, status: null }`. */
  const Cleared: Filters := map["type" := None, "severity" := None, "status" := None]

  /** JavaScript truthiness of a string-or-null value. */
  predicate Truthy(v: Option<string>)
  {
    v.Some? && v.value != []
  }

  /** Reading a property: a missing name reads as undefined. */
  function Get(active: Filters, key: string): (v: Option<string>)
    ensures key !in active ==> v.None?
  {
    if key in active then active[key] else None
  }

  predicate Passes(active: Filters, key: string, field: Option<string>)
  {
    Truthy(Get(active, key)) ==> field == Get(active, key)
  }

  /** The `incidents.filter` callback. */
  function Matches(active: Filters): Incident -> bool
  {
    (i: Incident) => Passes(active, "type", i.incidentType) && Passes(active, "severity", i.severity)
                     && Passes(active, "status", i.status)
  }

  /** An incident is kept exactly when every truthy filter among the three
      names strictly equals the matching field. */
  lemma MatchesSpec(active: Filters, i: Incident)
    ensures Matches(active)(i) <==>
      forall key :: Filter.IsFilterKey(key) && Truthy(Get(active, key)) ==> Filter.FieldOf(i, key) == Get(active, key)
  {
    if !Matches(active)(i) {
      if !Passes(active, "type", i.incidentType) {
        assert Filter.FieldOf(i, "type") != Get(active, "type");
      } else if !Passes(active, "severity", i.severity) {
        assert Filter.FieldOf(i, "severity") != Get(active, "severity");
      } else {
        assert Filter.FieldOf(i, "status") != Get(active, "status");
      }
    }
  }

  /** Falsy values are wildcards: an empty string filters exactly like null. */
  lemma EmptyStringIsWildcard(active: Filters, key: string, i: Incident)
    ensures Matches(active[key := Some("")])(i) == Matches(active[key := None])(i)
  {
  }

  /** The result is an order-preserving subsequence of the input holding
      exactly its matching incidents. */
  lemma FilterResultSpec(incidents: seq<Incident>, active: Filters)
    ensures IsSubsequence(Keep(incidents, Matches(active)), incidents)
    ensures forall x :: x in Keep(incidents, Matches(active)) <==> x in incidents && Matches(active)(x)
    ensures forall x :: multiset(Keep(incidents, Matches(active)))[x] ==
                       if Matches(active)(x) then multiset(incidents)[x] else 0
  {
    KeepSpec(incidents, Matches(active));
  }

  /** With no truthy filter, as after `clearFilters`, the result is the input. */
  lemma NoTruthyFilterKeepsAll(incidents: seq<Incident>, active: Filters)
    requires !Truthy(Get(active, "type")) && !Truthy(Get(active, "severity")) && !Truthy(Get(active, "status"))
    ensures Keep(incidents, Matches(active)) == incidents
  {
    KeepAll(incidents, Matches(active));
  }

  /** The server filters and the browser filters agree except on an empty
      string: the server then keeps only incidents whose field is the
      empty string, the browser keeps everything. */
  lemma AgreesWithServerFilter(active: Filters, i: Incident)
    requires NoEmptyValues(active)
    ensures Matches(active)(i) == Filter.Matches(active)(i)
  {
    assert "type" in active ==> active["type"] != Some("");
    assert "severity" in active ==> active["severity"] != Some("");
    assert "status" in active ==> active["status"] != Some("");
  }

  lemma EmptyTypeFilterDiffers(i: Incident)
    requires i.incidentType != Some("")
    ensures Matches(map["type" := Some("")])(i)
    ensures !Filter.Matches(map["type" := Some("")])(i)
  {
  }

  class FilterService {
    var activeFilters: Filters

    /** The three names are always present. */
    ghost predicate Valid()
      reads this
    {
      forall key :: Filter.IsFilterKey(key) ==> key in activeFilters
    }

    constructor ()
      ensures activeFilters == Cleared && Valid()
    {
      activeFilters := Cleared;
    }

    /** `filterIncidents`: spreads the criteria (`{}` when omitted) over the
        active filters, then keeps the matching incidents in input order. */
    method FilterIncidents(incidents: seq<Incident>, filters: Filters) returns (r: seq<Incident>)
      requires Valid()
      modifies this`activeFilters
      ensures Valid()
      ensures activeFilters == old(activeFilters) + filters
      ensures r == Keep(incidents, Matches(activeFilters))
    {
      activeFilters := activeFilters + filters;
      r := Keep(incidents, Matches(activeFilters));
    }

    method ClearFilters()
      modifies this`activeFilters
      ensures activeFilters == Cleared && Valid()
    {
      activeFilters := Cleared;
    }

    /** `getActiveFilters`: a shallow copy. */
    method GetActiveFilters() returns (f: Filters)
      ensures f == activeFilters
    {
      f := activeFilters;
    }

    /** `setFilter`: for one of the three names stores the value, a falsy
        one as null; any other name is ignored. */
    method SetFilter(filterType: string, value: Option<string>)
      requires Valid()
      modifies this`activeFilters
      ensures Valid()
      ensures Filter.IsFilterKey(filterType) ==>
        activeFilters == old(activeFilters)[filterType := if Truthy(value) then value else None]
      ensures !Filter.IsFilterKey(filterType) ==> activeFilters == old(activeFilters)
    {
      if filterType == "type" || filterType == "severity" || filterType == "status" {
        activeFilters := activeFilters[filterType := if value.Some? && value.value != [] then value else None];
      }
    }
  }

  /** No filter holds the empty string. */
  predicate NoEmptyValues(active: Filters)
  {
    forall key :: key in active ==> active[key] != Some("")
  }

  /** After `setFilter` or `clearFilters` no filter holds the empty string,
      so from filters built only by those two the browser and the server
      keep the same incidents. */
  lemma SetFilterNormalises(active: Filters, filterType: string, value: Option<string>)
    requires NoEmptyValues(active)
    ensures NoEmptyValues(Cleared)
    ensures NoEmptyValues(active[filterType := if Truthy(value) then value else None])
  {
  }
}
