/** FilterService (server side): exact, case-sensitive equality filters on
    an incident's type, severity and status. The active filters are a map
    from filter name to value (a null value is `None`); every call of
    `filterIncidents` merges its criteria into them, so they accumulate
    until cleared. */
module Filter {
  import opened Common
  import opened Seqs
  import opened Incidents

  type Filters = map<string, Option<string>>

  /** The names the predicate consults, and the only ones `setFilter` accepts. */
  predicate IsFilterKey(key: string)
  {
    key == "type" || key == "severity" || key == "status"
  }

  /** The incident field a filter name refers to. */
  function FieldOf(incident: Incident, key: string): Option<string>
  {
    if key == "type" then incident.incidentType
    else if key == "severity" then incident.severity
    else if key == "status" then incident.status
    else None
  }

  /** One filter passes when it is absent or null, or when its value equals
      the field (`equals` of a null field is false). */
  predicate Passes(active: Filters, key: string, field: Option<string>)
  {
    key in active && active[key].Some? ==> field == active[key]
  }

  /** The stream predicate: all three filters pass. */
  function Matches(active: Filters): Incident -> bool
  {
    (i: Incident) => Passes(active, "type", i.incidentType) && Passes(active, "severity", i.severity)
                     && Passes(active, "status", i.status)
  }

  /** What the predicate means: an incident is kept exactly when every
      non-null active filter among type, severity and status equals the
      matching field, so a filter never matches a null field, and entries
      under other names are ignored. */
  lemma MatchesSpec(active: Filters, i: Incident)
    ensures Matches(active)(i) <==>
      forall key :: IsFilterKey(key) && key in active && active[key].Some? ==> FieldOf(i, key) == active[key]
    ensures forall key :: IsFilterKey(key) && key in active && active[key].Some? && Matches(active)(i) ==>
      FieldOf(i, key).Some?
  {
    if !Matches(active)(i) {
      if !Passes(active, "type", i.incidentType) {
        assert FieldOf(i, "type") != active["type"];
      } else if !Passes(active, "severity", i.severity) {
        assert FieldOf(i, "severity") != active["severity"];
      } else {
        assert FieldOf(i, "status") != active["status"];
      }
    }
  }

  /** A filter result is an order-preserving subsequence of the input and
      holds exactly the input's matching incidents. */
  lemma FilterResultSpec(incidents: seq<Incident>, active: Filters)
    ensures IsSubsequence(Keep(incidents, Matches(active)), incidents)
    ensures forall x :: x in Keep(incidents, Matches(active)) <==> x in incidents && Matches(active)(x)
    ensures forall x :: multiset(Keep(incidents, Matches(active)))[x] ==
                       if Matches(active)(x) then multiset(incidents)[x] else 0
  {
    KeepSpec(incidents, Matches(active));
  }

  /** No non-null filter among the three names: nothing is dropped. */
  lemma NoActiveFilterKeepsAll(incidents: seq<Incident>, active: Filters)
    requires forall key :: IsFilterKey(key) && key in active ==> active[key].None?
    ensures Keep(incidents, Matches(active)) == incidents
  {
    assert "type" in active ==> active["type"].None?;
    assert "severity" in active ==> active["severity"].None?;
    assert "status" in active ==> active["status"].None?;
    KeepAll(incidents, Matches(active));
  }

  /** A null value filters like a missing one, and a name other than the
      three is stored but never consulted. */
  lemma NullOrForeignEntryIgnored(active: Filters, key: string, value: Option<string>, i: Incident)
    requires value.None? || !IsFilterKey(key)
    ensures Matches(active[key := value])(i) == Matches(active - {key})(i)
    ensures !IsFilterKey(key) ==> Matches(active[key := value])(i) == Matches(active)(i)
  {
  }

  /** Merged criteria override older ones name by name: a filter the new
      criteria leave out stays in force. */
  lemma MergeKeepsOlderFilters(active: Filters, filters: Filters, key: string)
    requires key in active && key !in filters
    ensures key in active + filters && (active + filters)[key] == active[key]
  {
  }

  class FilterService {
    var activeFilters: Filters

    constructor ()
      ensures activeFilters == map[]
    {
      activeFilters := map[];
    }

    /** `filterIncidents`: merges the criteria (when not null) into the
        active filters, then keeps the incidents the merged filters accept,
        in input order. */
    method FilterIncidents(incidents: seq<Incident>, filters: Option<Filters>) returns (r: seq<Incident>)
      modifies this`activeFilters
      ensures activeFilters == if filters.Some? then old(activeFilters) + filters.value else old(activeFilters)
      ensures r == Keep(incidents, Matches(activeFilters))
    {
      if filters.Some? {
        activeFilters := activeFilters + filters.value;
      }
      r := Keep(incidents, Matches(activeFilters));
    }

    /** `applyFilters`: filters with the current active filters only. */
    method ApplyFilters(incidents: seq<Incident>) returns (r: seq<Incident>)
      modifies this`activeFilters
      ensures activeFilters == old(activeFilters)
      ensures r == Keep(incidents, Matches(activeFilters))
    {
      r := FilterIncidents(incidents, None);
    }

    method ClearFilters()
      modifies this`activeFilters
      ensures activeFilters == map[]
    {
      activeFilters := map[];
    }

    /** `getActiveFilters`: a copy. */
    method GetActiveFilters() returns (f: Filters)
      ensures f == activeFilters
    {
      f := activeFilters;
    }

    /** `setFilter`: stores the value (null included) under one of the
        three names; any other name, or null, is ignored. */
    method SetFilter(filterType: Option<string>, value: Option<string>)
      modifies this`activeFilters
      ensures filterType.Some? && IsFilterKey(filterType.value) ==>
        activeFilters == old(activeFilters)[filterType.value := value]
      ensures !(filterType.Some? && IsFilterKey(filterType.value)) ==> activeFilters == old(activeFilters)
    {
      if filterType.Some? && (filterType.value == "type" || filterType.value == "severity" || filterType.value == "status") {
        activeFilters := activeFilters[filterType.value := value];
      }
    }

    /** `removeFilter`: forgets one name and nothing else. */
    method RemoveFilter(filterType: string)
      modifies this`activeFilters
      ensures activeFilters == old(activeFilters) - {filterType}
    {
      activeFilters := activeFilters - {filterType};
    }
  }
}
