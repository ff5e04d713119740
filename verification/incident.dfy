/** The incident record shared by the incident service, the web controller
    and the browser scripts. Every reference-typed field may be null; the
    timestamp is a number of time units (the source only compares it). */
module Incidents {
  import opened Common

  datatype Incident = Incident(
    id: Option<string>,
    incidentType: Option<string>,
    severity: Option<string>,
    location: Option<string>,
    latitude: Option<real>,
    longitude: Option<real>,
    description: Option<string>,
    timestamp: int,
    reporterId: Option<string>,
    status: Option<string>,
    submissionId: Option<string>)

  const DefaultStatus := "pending"

  /** `new Incident()`: no field set except the timestamp (the current time,
      passed in as `now`) and the status, which defaults to "pending". */
  function NewIncident(now: int): (r: Incident)
    ensures r.timestamp == now && r.status == Some(DefaultStatus)
    ensures r.id.None? && r.incidentType.None? && r.severity.None? && r.location.None?
    ensures r.latitude.None? && r.longitude.None? && r.description.None?
    ensures r.reporterId.None? && r.submissionId.None?
  {
    Incident(None, None, None, None, None, None, None, now, None, None, None)
      .(status := Some(DefaultStatus))
  }
}
