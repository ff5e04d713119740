/** IncidentService: sorting incident lists, the severity rank used by the
    sort, and creating and updating incidents in the incident store. The
    store is a map from id to incident that saves by upsert and may fail;
    whether a save succeeds is the `saveOk` argument. */
module IncidentService {
  import opened Common
  import opened Text
  import opened Seqs
  import opened Sorting
  import opened Incidents

  /** `getSeverityOrder`: critical 4, high 3, medium 2, low 1, ignoring
      case; anything else, null included, 0. */
  function SeverityOrder(severity: Option<string>): (rank: int)
    ensures 0 <= rank <= 4
  {
    var s := if severity.None? then "" else Lower(severity.value);
    if s == "critical" then 4
    else if s == "high" then 3
    else if s == "medium" then 2
    else if s == "low" then 1
    else 0
  }

  /** The rank depends on the lower-case form only, and each of the four
      levels has its own rank. */
  lemma SeverityOrderSpec(s: string)
    ensures SeverityOrder(Some(s)) == SeverityOrder(Some(Lower(s)))
    ensures SeverityOrder(Some("critical")) == 4 && SeverityOrder(Some("high")) == 3
    ensures SeverityOrder(Some("medium")) == 2 && SeverityOrder(Some("low")) == 1
    ensures SeverityOrder(None) == 0
  {
    LowerIdempotent(s);
    assert Lower("critical") == "critical";
    assert Lower("high") == "high";
    assert Lower("medium") == "medium";
    assert Lower("low") == "low";
  }

  /** The keys `sortIncidents` can sort by; `Unsorted` is every `sortBy`
      it does not recognise. */
  datatype SortField = ByTime | BySeverity | ByType | Unsorted

  /** `sortBy` is compared in lower case, and null means time. */
  function SortFieldOf(sortBy: Option<string>): SortField
  {
    var s := if sortBy.None? then "time" else Lower(sortBy.value);
    if s == "time" then ByTime
    else if s == "severity" then BySeverity
    else if s == "type" then ByType
    else Unsorted
  }

  /** `"asc".equalsIgnoreCase(order)`: anything else, null included, sorts
      in descending order. */
  predicate Ascending(order: Option<string>)
  {
    order.Some? && Lower(order.value) == "asc"
  }

  function Sign(n: int): int
  {
    if n < 0 then -1 else if n > 0 then 1 else 0
  }

  /** Null types come first; `sortIncidents` never compares them, since
      Java throws before that (see `SortIncidents`). */
  function CompareTypes(a: Option<string>, b: Option<string>): int
  {
    if a.None? && b.None? then 0
    else if a.None? then -1
    else if b.None? then 1
    else CompareStrings(a.value, b.value)
  }

  /** The comparison of `sortIncidents` before the direction is applied. */
  function CompareBy(field: SortField, a: Incident, b: Incident): int
  {
    match field
    case ByTime => Sign(a.timestamp - b.timestamp)
    case BySeverity => Sign(SeverityOrder(a.severity) - SeverityOrder(b.severity))
    case ByType => CompareTypes(a.incidentType, b.incidentType)
    case Unsorted => 0
  }

  /** The comparator `sortIncidents` hands to `List.sort`. */
  function Comparator(field: SortField, ascending: bool): (Incident, Incident) -> int
  {
    (a, b) => if ascending then CompareBy(field, a, b) else -CompareBy(field, a, b)
  }

  lemma CompareTypesIsComparator(a: Option<string>, b: Option<string>, c: Option<string>)
    ensures CompareTypes(a, b) == -CompareTypes(b, a)
    ensures CompareTypes(a, b) <= 0 && CompareTypes(b, c) <= 0 ==> CompareTypes(a, c) <= 0
  {
    if a.Some? && b.Some? {
      CompareStringsSign(a.value, b.value);
    }
    if a.Some? && b.Some? && c.Some? && CompareTypes(a, b) <= 0 && CompareTypes(b, c) <= 0 {
      CompareStringsTransitive(a.value, b.value, c.value);
    }
  }

  /** Every key and direction gives a lawful comparator. */
  lemma ComparatorIsComparator(field: SortField, ascending: bool)
    ensures IsComparator(Comparator(field, ascending))
  {
    var cmp := Comparator(field, ascending);
    forall a, b ensures cmp(a, b) == -cmp(b, a) {
      CompareTypesIsComparator(a.incidentType, b.incidentType, b.incidentType);
    }
    forall a, b, c | cmp(a, b) <= 0 && cmp(b, c) <= 0 ensures cmp(a, c) <= 0 {
      if ascending {
        CompareTypesIsComparator(a.incidentType, b.incidentType, c.incidentType);
      } else {
        CompareTypesIsComparator(c.incidentType, b.incidentType, a.incidentType);
        CompareTypesIsComparator(a.incidentType, c.incidentType, c.incidentType);
        CompareTypesIsComparator(b.incidentType, c.incidentType, c.incidentType);
        CompareTypesIsComparator(a.incidentType, b.incidentType, b.incidentType);
      }
    }
  }

  /** Sorting by type compares `getType()` of the elements; with two or
      more elements every element is compared, so one null type makes
      Java throw a `NullPointerException`. */
  predicate TypeSortThrows(incidents: seq<Incident>, field: SortField)
  {
    field == ByType && |incidents| >= 2
    && exists i :: 0 <= i < |incidents| && incidents[i].incidentType.None?
  }

  /** `sortIncidents`: a sorted copy of the list (`None` where Java throws),
      holding the same incidents. */
  function SortIncidents(incidents: seq<Incident>, sortBy: Option<string>, order: Option<string>): (r: Option<seq<Incident>>)
    ensures r.None? <==> TypeSortThrows(incidents, SortFieldOf(sortBy))
    ensures r.Some? ==> multiset(r.value) == multiset(incidents)
  {
    var field := SortFieldOf(sortBy);
    if TypeSortThrows(incidents, field) then None
    else
      SortPermutes(incidents, Comparator(field, Ascending(order)));
      Some(Sort(incidents, Comparator(field, Ascending(order))))
  }

  /** The sorted list is in order of the key: ascending for "asc" in any
      case, descending otherwise. */
  lemma SortIncidentsOrdered(incidents: seq<Incident>, sortBy: Option<string>, order: Option<string>)
    requires SortIncidents(incidents, sortBy, order).Some?
    ensures var r := SortIncidents(incidents, sortBy, order).value;
      forall i, j :: 0 <= i < j < |r| ==>
        if Ascending(order) then CompareBy(SortFieldOf(sortBy), r[i], r[j]) <= 0
        else CompareBy(SortFieldOf(sortBy), r[j], r[i]) <= 0
  {
    var field := SortFieldOf(sortBy);
    ComparatorIsComparator(field, Ascending(order));
    SortSorted(incidents, Comparator(field, Ascending(order)));
    var cmp := Comparator(field, Ascending(order));
    var r := SortIncidents(incidents, sortBy, order).value;
    forall i, j | 0 <= i < j < |r|
      ensures if Ascending(order) then CompareBy(field, r[i], r[j]) <= 0 else CompareBy(field, r[j], r[i]) <= 0
    {
      assert cmp(r[i], r[j]) <= 0;
      CompareTypesIsComparator(r[i].incidentType, r[j].incidentType, r[j].incidentType);
    }
  }

  /** What each key compares. */
  lemma CompareByMeaning(a: Incident, b: Incident)
    ensures CompareBy(ByTime, a, b) <= 0 <==> a.timestamp <= b.timestamp
    ensures CompareBy(BySeverity, a, b) <= 0 <==> SeverityOrder(a.severity) <= SeverityOrder(b.severity)
    ensures a.incidentType.Some? && b.incidentType.Some? ==>
      CompareBy(ByType, a, b) == CompareStrings(a.incidentType.value, b.incidentType.value)
    ensures CompareBy(Unsorted, a, b) == 0
  {
  }

  /** The sort is stable in both directions: incidents with equal keys
      keep their input order. */
  lemma SortIncidentsStable(incidents: seq<Incident>, sortBy: Option<string>, order: Option<string>, e: Incident)
    requires SortIncidents(incidents, sortBy, order).Some?
    ensures var cmp := Comparator(SortFieldOf(sortBy), Ascending(order));
      Keep(SortIncidents(incidents, sortBy, order).value, LevelWith(cmp, e)) == Keep(incidents, LevelWith(cmp, e))
  {
    ComparatorIsComparator(SortFieldOf(sortBy), Ascending(order));
    SortStable(incidents, Comparator(SortFieldOf(sortBy), Ascending(order)), e);
  }

  /** An unrecognised `sortBy` leaves the list as it was. */
  lemma UnknownSortKeyKeepsOrder(incidents: seq<Incident>, sortBy: Option<string>, order: Option<string>)
    requires SortFieldOf(sortBy) == Unsorted
    ensures SortIncidents(incidents, sortBy, order) == Some(incidents)
  {
    SortAllLevel(incidents, Comparator(Unsorted, Ascending(order)));
  }

  /** The fields `updateIncident` copies: each non-null field of `updates`
      among type, severity, location, latitude, longitude, description and
      status replaces the stored one. */
  function Patch(stored: Incident, updates: Incident): Incident
  {
    stored.(
      incidentType := if updates.incidentType.Some? then updates.incidentType else stored.incidentType,
      severity := if updates.severity.Some? then updates.severity else stored.severity,
      location := if updates.location.Some? then updates.location else stored.location,
      latitude := if updates.latitude.Some? then updates.latitude else stored.latitude,
      longitude := if updates.longitude.Some? then updates.longitude else stored.longitude,
      description := if updates.description.Some? then updates.description else stored.description,
      status := if updates.status.Some? then updates.status else stored.status)
  }

  /** Patching twice with the same updates is patching once, and later
      updates win over earlier ones. */
  lemma PatchIdempotent(stored: Incident, updates: Incident)
    ensures Patch(Patch(stored, updates), updates) == Patch(stored, updates)
  {
  }

  /** Identity, time, reporter and submission never change; a patch
      without fields changes nothing. */
  lemma PatchKeepsIdentity(stored: Incident, updates: Incident)
    ensures var r := Patch(stored, updates);
      r.id == stored.id && r.timestamp == stored.timestamp
      && r.reporterId == stored.reporterId && r.submissionId == stored.submissionId
    ensures (updates.incidentType.None? && updates.severity.None? && updates.location.None?
             && updates.latitude.None? && updates.longitude.None? && updates.description.None?
             && updates.status.None?) ==> Patch(stored, updates) == stored
  {
  }

  /** A patch made with `new Incident()` always carries status "pending",
      so it resets the stored status even when the caller set nothing
      else. */
  lemma FreshPatchResetsStatus(stored: Incident, now: int)
    ensures Patch(stored, NewIncident(now)).status == Some(DefaultStatus)
    ensures Patch(stored, NewIncident(now)) == stored.(status := Some(DefaultStatus))
  {
  }

  class IncidentService {
    /** The incident store: id to incident, saved by upsert. */
    var store: map<string, Incident>

    ghost predicate Valid()
      reads this
    {
      forall id :: id in store ==> store[id].id == Some(id)
    }

    constructor (store: map<string, Incident>)
      requires forall id :: id in store ==> store[id].id == Some(id)
      ensures this.store == store && Valid()
    {
      this.store := store;
    }

    /** `createIncident`: keeps an existing id and takes `freshId` only
        when the id is null; the incident is returned exactly when the save
        succeeds, and then it is stored under its id. */
    method CreateIncident(incidentData: Incident, freshId: string, saveOk: bool) returns (r: Option<Incident>)
      requires Valid()
      modifies this`store
      ensures Valid()
      ensures r.Some? <==> saveOk
      ensures var id := if incidentData.id.Some? then incidentData.id.value else freshId;
        if saveOk then r == Some(incidentData.(id := Some(id))) && store == old(store)[id := r.value]
        else store == old(store)
    {
      var incident := incidentData;
      if incident.id.None? {
        incident := incident.(id := Some(freshId));
      }
      if saveOk {
        store := store[incident.id.value := incident];
        r := Some(incident);
      } else {
        r := None;
      }
    }

    /** `updateIncident`: an unknown id gives null and saves nothing;
        otherwise the stored incident is patched field by field and saved,
        and the patched incident is returned when the save succeeds. */
    method UpdateIncident(id: string, updates: Incident, saveOk: bool) returns (r: Option<Incident>)
      requires Valid()
      modifies this`store
      ensures Valid()
      ensures r.Some? <==> id in old(store) && saveOk
      ensures r.Some? ==> r.value == Patch(old(store)[id], updates) && store == old(store)[id := r.value]
      ensures r.None? ==> store == old(store)
    {
      if id !in store {
        return None;
      }
      var incident := store[id];
      ghost var stored := incident;
      if updates.incidentType.Some? { incident := incident.(incidentType := updates.incidentType); }
      if updates.severity.Some? { incident := incident.(severity := updates.severity); }
      if updates.location.Some? { incident := incident.(location := updates.location); }
      if updates.latitude.Some? { incident := incident.(latitude := updates.latitude); }
      if updates.longitude.Some? { incident := incident.(longitude := updates.longitude); }
      if updates.description.Some? { incident := incident.(description := updates.description); }
      if updates.status.Some? { incident := incident.(status := updates.status); }
      assert incident == Patch(stored, updates);
      if saveOk {
        store := store[id := incident];
        r := Some(incident);
      } else {
        r := None;
      }
    }
  }
}
