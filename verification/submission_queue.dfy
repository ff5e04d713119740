/** OfflineSubmissionQueue: submissions saved while offline, each moving
    from "pending" to "sent" or "failed". The submission store is a table of
    rows in insertion order with distinct ids; saving is an upsert by id and
    may fail (the `saveOk` argument). Fresh ids and the clock are arguments
    too. */
module SubmissionQueue {
  import opened Common
  import opened Seqs
  import opened Sorting

  /** The three statuses the queue writes. */
  datatype Status = Pending | Sent | Failed

  datatype Submission = Submission(id: string, incidentData: Option<string>, timestamp: int, status: Status)

  /** No two rows share an id. */
  ghost predicate DistinctIds(rows: seq<Submission>)
  {
    forall i, j :: 0 <= i < j < |rows| ==> rows[i].id != rows[j].id
  }

  /** The row with id `id`, if any. */
  function Find(rows: seq<Submission>, id: string): (r: Option<Submission>)
    ensures r.Some? ==> r.value in rows && r.value.id == id
    ensures r.None? ==> forall i :: 0 <= i < |rows| ==> rows[i].id != id
  {
    if rows == [] then None
    else if rows[0].id == id then Some(rows[0])
    else Find(rows[1..], id)
  }

  /** Insert-or-update: replaces the row with the same id, or appends. */
  function Upsert(rows: seq<Submission>, s: Submission): (r: seq<Submission>)
    ensures |r| == |rows| || |r| == |rows| + 1
  {
    if rows == [] then [s]
    else if rows[0].id == s.id then [s] + rows[1..]
    else [rows[0]] + Upsert(rows[1..], s)
  }

  /** After an upsert, `s` is the row for its id and every other id finds
      what it found before. */
  lemma {:induction false} FindUpsert(rows: seq<Submission>, s: Submission, id: string)
    ensures Find(Upsert(rows, s), id) == if id == s.id then Some(s) else Find(rows, id)
  {
    if rows != [] && rows[0].id != s.id {
      FindUpsert(rows[1..], s, id);
    }
  }

  /** The rows after an upsert: `s`, and every old row with another id. */
  lemma {:induction false} UpsertMembers(rows: seq<Submission>, s: Submission, x: Submission)
    requires DistinctIds(rows)
    ensures x in Upsert(rows, s) <==> x == s || (x in rows && x.id != s.id)
  {
    if rows != [] {
      UpsertMembers(rows[1..], s, x);
      if rows[0].id == s.id {
        assert forall i :: 1 <= i < |rows| ==> rows[i].id != s.id;
        assert x in rows <==> x == rows[0] || x in rows[1..];
      }
    }
  }

  lemma {:induction false} UpsertKeepsIdsDistinct(rows: seq<Submission>, s: Submission)
    requires DistinctIds(rows)
    ensures DistinctIds(Upsert(rows, s))
  {
    if rows != [] && rows[0].id != s.id {
      UpsertKeepsIdsDistinct(rows[1..], s);
      var r := Upsert(rows, s);
      forall j | 1 <= j < |r| ensures r[0].id != r[j].id {
        UpsertMembers(rows[1..], s, r[j]);
        if r[j] != s {
          var k :| 0 <= k < |rows[1..]| && rows[1..][k] == r[j];
          assert rows[k + 1] == r[j];
        }
      }
    }
  }

  predicate IsPending(s: Submission)
  {
    s.status == Pending
  }

  function ByTimestamp(): (Submission, Submission) -> int
  {
    (a: Submission, b: Submission) => if a.timestamp < b.timestamp then -1 else if a.timestamp > b.timestamp then 1 else 0
  }

  /** `getPendingSubmissions`: the pending rows, oldest first. Rows with
      equal timestamps stay in table order. */
  function PendingOf(rows: seq<Submission>): seq<Submission>
  {
    Sort(Keep(rows, IsPending), ByTimestamp())
  }

  /** The pending list holds exactly the pending rows, each as often as in
      the table, ordered by timestamp ascending. */
  lemma PendingOfSpec(rows: seq<Submission>)
    ensures forall x :: x in PendingOf(rows) <==> x in rows && x.status == Pending
    ensures multiset(PendingOf(rows)) == multiset(Keep(rows, IsPending))
    ensures forall i, j :: 0 <= i < j < |PendingOf(rows)| ==>
      PendingOf(rows)[i].timestamp <= PendingOf(rows)[j].timestamp
  {
    var cmp := ByTimestamp();
    SortPermutes(Keep(rows, IsPending), cmp);
    KeepSpec(rows, IsPending);
    assert IsComparator(cmp);
    SortSorted(Keep(rows, IsPending), cmp);
    var r := PendingOf(rows);
    forall x ensures x in r <==> x in rows && x.status == Pending {
      assert x in r <==> x in multiset(r);
      assert x in Keep(rows, IsPending) <==> x in multiset(Keep(rows, IsPending));
    }
    forall i, j | 0 <= i < j < |r| ensures r[i].timestamp <= r[j].timestamp {
      assert cmp(r[i], r[j]) <= 0;
    }
  }

  /** What `processSubmission` and `markAsFailed` do: find the row, set
      its status, save it. Unknown ids fail without a save. */
  datatype Outcome = Outcome(ok: bool, rows: seq<Submission>)

  function SetStatus(rows: seq<Submission>, id: string, status: Status, saveOk: bool): Outcome
  {
    var found := Find(rows, id);
    if found.None? then Outcome(false, rows)
    else if saveOk then Outcome(true, Upsert(rows, found.value.(status := status)))
    else Outcome(false, rows)
  }

  /** A status change touches only its own row: that row gets the new
      status and keeps id, payload and timestamp; every other id finds the
      same row as before. */
  lemma SetStatusEffect(rows: seq<Submission>, id: string, status: Status, saveOk: bool, other: string)
    ensures var o := SetStatus(rows, id, status, saveOk);
      (o.ok <==> Find(rows, id).Some? && saveOk)
      && (o.ok ==> Find(o.rows, id) == Some(Find(rows, id).value.(status := status)))
      && (!o.ok ==> o.rows == rows)
      && (other != id ==> Find(o.rows, other) == Find(rows, other))
  {
    var found := Find(rows, id);
    if found.Some? {
      FindUpsert(rows, found.value.(status := status), id);
      FindUpsert(rows, found.value.(status := status), other);
    }
  }

  /** A row marked sent or failed leaves the pending list, and the other
      pending rows stay on it. */
  lemma SetStatusPending(rows: seq<Submission>, id: string, status: Status, saveOk: bool, x: Submission)
    requires DistinctIds(rows) && status != Pending
    requires SetStatus(rows, id, status, saveOk).ok
    ensures x in PendingOf(SetStatus(rows, id, status, saveOk).rows) <==> x in PendingOf(rows) && x.id != id
  {
    var s := Find(rows, id).value.(status := status);
    PendingOfSpec(rows);
    PendingOfSpec(Upsert(rows, s));
    UpsertMembers(rows, s, x);
  }

  /** Neither transition looks at the current status: repeating one
      changes nothing more, and the later of two wins. */
  lemma SetStatusOverwrites(rows: seq<Submission>, id: string, first: Status, second: Status)
    requires Find(rows, id).Some?
    ensures SetStatus(SetStatus(rows, id, first, true).rows, id, second, true).rows ==
            SetStatus(rows, id, second, true).rows
  {
    var found := Find(rows, id).value;
    UpsertOverwrite(rows, found.(status := first), found.(status := second));
    FindUpsert(rows, found.(status := first), id);
  }

  lemma {:induction false} UpsertOverwrite(rows: seq<Submission>, s: Submission, t: Submission)
    requires s.id == t.id
    ensures Upsert(Upsert(rows, s), t) == Upsert(rows, t)
  {
    if rows != [] && rows[0].id != s.id {
      UpsertOverwrite(rows[1..], s, t);
    }
  }

  class OfflineSubmissionQueue {
    var rows: seq<Submission>
    var online: bool

    ghost predicate Valid()
      reads this
    {
      DistinctIds(rows)
    }

    /** A new queue starts online. */
    constructor (rows: seq<Submission>)
      requires DistinctIds(rows)
      ensures this.rows == rows && online && Valid()
    {
      this.rows := rows;
      online := true;
    }

    /** `addSubmission`: a pending submission with a fresh id, the payload
        and the current time, whether online or not; it is returned exactly
        when the save succeeds. */
    method AddSubmission(incidentData: Option<string>, freshId: string, now: int, saveOk: bool)
      returns (r: Option<Submission>)
      requires Valid()
      modifies this`rows
      ensures Valid()
      ensures r.Some? <==> saveOk
      ensures r.Some? ==> (r.value == Submission(freshId, incidentData, now, Pending)
                           && rows == Upsert(old(rows), r.value))
      ensures r.None? ==> rows == old(rows)
    {
      var status := if online then Pending else Pending;
      var submission := Submission(freshId, incidentData, now, status);
      if saveOk {
        UpsertKeepsIdsDistinct(rows, submission);
        rows := Upsert(rows, submission);
        r := Some(submission);
      } else {
        r := None;
      }
    }

    /** `getPendingSubmissions`: the pending rows in timestamp order. A
        database error is caught and the rows read before it are returned:
        `failAfter` is the number of rows read before the error, `None`
        when there is none. */
    method GetPendingSubmissions(failAfter: Option<nat>) returns (pending: seq<Submission>)
      ensures failAfter.None? ==> pending == PendingOf(rows)
      ensures failAfter.None? ==> forall x :: x in pending <==> x in rows && x.status == Pending
      ensures failAfter.Some? ==>
        pending == PendingOf(rows)[..if failAfter.value < |PendingOf(rows)| then failAfter.value else |PendingOf(rows)|]
      ensures forall x :: x in pending ==> x in rows && x.status == Pending
    {
      PendingOfSpec(rows);
      pending := PendingOf(rows);
      if failAfter.Some? && failAfter.value < |pending| {
        pending := pending[..failAfter.value];
      }
    }

    /** `processSubmission`: marks the submission sent. */
    method ProcessSubmission(submissionId: string, saveOk: bool) returns (ok: bool)
      requires Valid()
      modifies this`rows
      ensures Valid()
      ensures Outcome(ok, rows) == SetStatus(old(rows), submissionId, Sent, saveOk)
    {
      var submission := Find(rows, submissionId);
      if submission.Some? {
        var updated := submission.value.(status := Sent);
        if saveOk {
          UpsertKeepsIdsDistinct(rows, updated);
          rows := Upsert(rows, updated);
        }
        return saveOk;
      }
      return false;
    }

    /** `markAsFailed`: marks the submission failed. */
    method MarkAsFailed(submissionId: string, saveOk: bool) returns (ok: bool)
      requires Valid()
      modifies this`rows
      ensures Valid()
      ensures Outcome(ok, rows) == SetStatus(old(rows), submissionId, Failed, saveOk)
    {
      var submission := Find(rows, submissionId);
      if submission.Some? {
        var updated := submission.value.(status := Failed);
        if saveOk {
          UpsertKeepsIdsDistinct(rows, updated);
          rows := Upsert(rows, updated);
        }
        return saveOk;
      }
      return false;
    }

    method SetOnline(isOnline: bool)
      modifies this`online
      ensures online == isOnline
    {
      online := isOnline;
    }

    method IsOnline() returns (r: bool)
      ensures r == online
    {
      r := online;
    }
  }

  /** A successful `addSubmission` puts the new submission on the pending
      list. */
  lemma AddedIsPending(rows: seq<Submission>, s: Submission)
    requires DistinctIds(rows) && s.status == Pending
    ensures s in PendingOf(Upsert(rows, s))
  {
    UpsertMembers(rows, s, s);
    PendingOfSpec(Upsert(rows, s));
  }
}
