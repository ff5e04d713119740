/** RateLimiterService: a fixed-window counter per user. Each user's record
    holds the time its current window opened and how many calls that window
    has admitted. The clock is an explicit `now` argument. */
module RateLimiter {
  import opened Common

  const DefaultLimit := 5
  const DefaultWindowMs := 3600000

  datatype RequestRecord = RequestRecord(firstRequestTime: int, count: int)

  /** What one `canSubmit` call decides for its user: whether the call is
      admitted, and the user's record afterwards. */
  datatype Decision = Decision(admitted: bool, record: RequestRecord)

  /** The decision of `canSubmit` for a user whose record is `record`
      (`None` for a user without one). */
  function Decide(limit: int, windowMs: int, record: Option<RequestRecord>, now: int): Decision
  {
    if record.None? then Decision(true, RequestRecord(now, 1))
    else if now - record.value.firstRequestTime > windowMs then Decision(true, RequestRecord(now, 1))
    else if record.value.count < limit then
      Decision(true, record.value.(count := record.value.count + 1))
    else Decision(false, record.value)
  }

  /** A first call opens a window at `now` with one admitted call. */
  lemma FirstCallAdmitted(limit: int, windowMs: int, now: int)
    ensures Decide(limit, windowMs, None, now) == Decision(true, RequestRecord(now, 1))
  {
  }

  /** A window expires only when strictly more than `windowMs` has passed;
      a call exactly `windowMs` after the window opened still counts
      against it. */
  lemma WindowExpiryIsStrict(limit: int, windowMs: int, rec: RequestRecord, now: int)
    ensures now - rec.firstRequestTime > windowMs ==>
      Decide(limit, windowMs, Some(rec), now) == Decision(true, RequestRecord(now, 1))
    ensures now - rec.firstRequestTime == windowMs ==>
      Decide(limit, windowMs, Some(rec), now).record.firstRequestTime == rec.firstRequestTime
  {
  }

  /** Inside an open window a call is admitted exactly when the count is
      below the limit; admission adds one to the count and a refusal leaves
      the record as it was. */
  lemma ActiveWindow(limit: int, windowMs: int, rec: RequestRecord, now: int)
    requires now - rec.firstRequestTime <= windowMs
    ensures Decide(limit, windowMs, Some(rec), now).admitted <==> rec.count < limit
    ensures Decide(limit, windowMs, Some(rec), now).record ==
      if rec.count < limit then RequestRecord(rec.firstRequestTime, rec.count + 1) else rec
  {
  }

  /** The most calls a window can admit: the limit, or one when the limit
      is below one (the call that opens a window is always admitted). */
  function Cap(limit: int): (c: int)
    ensures c >= 1 && c >= limit
  {
    if limit < 1 then 1 else limit
  }

  predicate CountInRange(rec: RequestRecord, limit: int)
  {
    1 <= rec.count <= Cap(limit)
  }

  /** Every record a decision stores holds a count in `1..Cap(limit)`. */
  lemma DecideKeepsCountInRange(limit: int, windowMs: int, record: Option<RequestRecord>, now: int)
    requires record.Some? ==> CountInRange(record.value, limit)
    ensures CountInRange(Decide(limit, windowMs, record, now).record, limit)
  {
  }

  /** How many of the calls made at the times `nows`, one after another,
      are admitted, starting from `record`. */
  function Admissions(limit: int, windowMs: int, record: Option<RequestRecord>, nows: seq<int>): nat
    decreases |nows|
  {
    if nows == [] then 0
    else
      var d := Decide(limit, windowMs, record, nows[0]);
      (if d.admitted then 1 else 0) + Admissions(limit, windowMs, Some(d.record), nows[1..])
  }

  /** Calls that stay inside the window opened by `rec` admit at most as
      many calls as `rec` still has room for. */
  lemma {:induction false} AdmissionsWithinWindow(limit: int, windowMs: int, rec: RequestRecord, nows: seq<int>)
    requires CountInRange(rec, limit)
    requires forall i :: 0 <= i < |nows| ==> nows[i] - rec.firstRequestTime <= windowMs
    ensures Admissions(limit, windowMs, Some(rec), nows) <= Cap(limit) - rec.count
    decreases |nows|
  {
    if nows != [] {
      var d := Decide(limit, windowMs, Some(rec), nows[0]);
      assert d.record.firstRequestTime == rec.firstRequestTime;
      AdmissionsWithinWindow(limit, windowMs, d.record, nows[1..]);
    }
  }

  /** At most `Cap(limit)` calls are admitted in a window: a user's first
      call at `start`, followed by any calls no later than `windowMs` after
      it. */
  lemma AtMostCapPerWindow(limit: int, windowMs: int, start: int, nows: seq<int>)
    requires forall i :: 0 <= i < |nows| ==> nows[i] - start <= windowMs
    ensures Admissions(limit, windowMs, None, [start] + nows) <= Cap(limit)
  {
    assert ([start] + nows)[1..] == nows;
    AdmissionsWithinWindow(limit, windowMs, RequestRecord(start, 1), nows);
  }

  /** The user's record in `requests`, if any. */
  function Lookup(requests: map<string, RequestRecord>, userId: string): (r: Option<RequestRecord>)
    ensures r.Some? <==> userId in requests
    ensures r.Some? ==> r.value == requests[userId]
  {
    if userId in requests then Some(requests[userId]) else None
  }

  /** After `resetUser(u)`, the next call of `u` is treated as a first call. */
  lemma ResetMakesFirstCall(requests: map<string, RequestRecord>, limit: int, windowMs: int, userId: string, now: int)
    ensures Decide(limit, windowMs, Lookup(requests - {userId}, userId), now) == Decision(true, RequestRecord(now, 1))
  {
  }

  class RateLimiterService {
    const limit: int
    const windowMs: int
    var requests: map<string, RequestRecord>

    /** Every stored count lies in `1..Cap(limit)`. */
    ghost predicate Valid()
      reads this
    {
      forall u :: u in requests ==> CountInRange(requests[u], limit)
    }

    constructor (limit: int, windowMs: int)
      ensures this.limit == limit && this.windowMs == windowMs
      ensures requests == map[] && Valid()
    {
      this.limit := limit;
      this.windowMs := windowMs;
      requests := map[];
    }

    /** Five calls per hour. */
    constructor Default()
      ensures limit == DefaultLimit && windowMs == DefaultWindowMs
      ensures requests == map[] && Valid()
    {
      limit := DefaultLimit;
      windowMs := DefaultWindowMs;
      requests := map[];
    }

    /** `canSubmit`: decides the call from the user's record alone and
        stores the record the decision leaves; no other user's record
        changes. */
    method CanSubmit(userId: string, now: int) returns (allowed: bool)
      requires Valid()
      modifies this`requests
      ensures Valid()
      ensures allowed == Decide(limit, windowMs, Lookup(old(requests), userId), now).admitted
      ensures requests == old(requests)[userId := Decide(limit, windowMs, Lookup(old(requests), userId), now).record]
    {
      if userId !in requests {
        requests := requests[userId := RequestRecord(now, 1)];
        return true;
      }
      var record := requests[userId];
      if now - record.firstRequestTime > windowMs {
        requests := requests[userId := RequestRecord(now, 1)];
        return true;
      }
      if record.count < limit {
        requests := requests[userId := record.(count := record.count + 1)];
        return true;
      }
      return false;
    }

    /** `resetUser`: forgets the user's record and nothing else. */
    method ResetUser(userId: string)
      requires Valid()
      modifies this`requests
      ensures Valid()
      ensures requests == old(requests) - {userId}
    {
      requests := requests - {userId};
    }
  }
}
