/** The rotation service over its two tables, one method per transaction. */
module RotationService {
  import opened Common
  import opened Rotation

  predicate Due(cred: Credential, now: int) {
    var at := DueAt(cred);
    at.None? || at.value <= now
  }

  /** The due date, derived from the last rotation while none is planned. */
  function DueAt(cred: Credential): Option<int> {
    if Derived(cred) then Some(cred.lastRotatedAt.value + DAY * cred.intervalDays) else cred.nextRotationAt
  }

  predicate Derived(cred: Credential) {
    cred.nextRotationAt.None? && cred.lastRotatedAt.Some? && cred.intervalDays != 0
  }

  /** One turn of the scheduler's loop, on the row as it was read before the loop. */
  function ScheduleOne(st: Store, c: nat, read: Credential, now: int): Store
    requires c < |st.credentials|
  {
    var planned := if Derived(read) then Plan(st, c, DueAt(read).value) else st;
    if Due(read, now) then Queue(planned, c, now) else planned
  }

  function ScheduleAll(st: Store, rows: seq<Credential>, selected: seq<nat>, now: int): (r: Store)
    requires |rows| == |st.credentials| && forall i :: 0 <= i < |selected| ==> selected[i] < |rows|
    ensures |r.credentials| == |st.credentials|
  {
    if selected == [] then st
    else
      var n := |selected| - 1;
      ScheduleOne(ScheduleAll(st, rows, selected[..n], now), selected[n], rows[selected[n]], now)
  }

  /** The turn of the system that plans the date and the one that queues, each where the row calls for it. */
  function PlannedSystem(s: System, c: nat, read: Credential): System
    requires WellFormed(s.store)
  {
    if Derived(read) then Next(s, PlanDate(c, DueAt(read).value)) else s
  }

  function ScheduledSystem(s: System, c: nat, read: Credential, now: int): System
    requires WellFormed(s.store)
  {
    NextWellFormedIfPlanned(s, c, read);
    if Due(read, now) then Next(PlannedSystem(s, c, read), QueueJob(c, now)) else PlannedSystem(s, c, read)
  }

  lemma NextWellFormedIfPlanned(s: System, c: nat, read: Credential)
    requires WellFormed(s.store)
    ensures WellFormed(PlannedSystem(s, c, read).store)
  {
    if Derived(read) {
      NextWellFormed(s, PlanDate(c, DueAt(read).value));
    }
  }

  /** A turn of the scheduler is at most two steps of the system, whatever happened since its row was read. */
  lemma SchedulerTurnIsSteps(s: System, c: nat, read: Credential, now: int)
    requires WellFormed(s.store) && c < |s.store.credentials|
    ensures ScheduledSystem(s, c, read, now) == s.(store := ScheduleOne(s.store, c, read, now))
  {
  }

  ghost predicate HasOpenJob(jobs: seq<Job>, c: nat) {
    exists j :: 0 <= j < |jobs| && ActiveFor(jobs[j], c)
  }

  /** A job the scheduler may add: due credential, none open before. */
  ghost predicate Warranted(st: Store, rows: seq<Credential>, job: Job, selected: seq<nat>, now: int) {
    && job.credential in selected && job.credential < |rows|
    && job.status == Pending && job.scheduledFor == now
    && Due(rows[job.credential], now) && !HasOpenJob(st.jobs, job.credential)
  }

  /** Missing due dates are filled in for the selected rows, nothing else changes. */
  lemma {:induction false} SchedulePlansDates(st: Store, rows: seq<Credential>, selected: seq<nat>, now: int, c: nat)
    requires |rows| == |st.credentials| && forall i :: 0 <= i < |selected| ==> selected[i] < |rows|
    requires c < |rows|
    ensures ScheduleAll(st, rows, selected, now).credentials[c] ==
            if c in selected && Derived(rows[c]) then st.credentials[c].(nextRotationAt := DueAt(rows[c])) else st.credentials[c]
  {
    if selected != [] {
      var n := |selected| - 1;
      assert selected == selected[..n] + [selected[n]];
      SchedulePlansDates(st, rows, selected[..n], now, c);
    }
  }

  /** New jobs are appended, one for each credential that is due and had none open. */
  lemma {:induction false} ScheduleAddsWarrantedJobs(st: Store, rows: seq<Credential>, selected: seq<nat>, now: int)
    requires |rows| == |st.credentials| && forall i :: 0 <= i < |selected| ==> selected[i] < |rows|
    ensures var r := ScheduleAll(st, rows, selected, now);
            && st.jobs <= r.jobs
            && (forall j :: |st.jobs| <= j < |r.jobs| ==> Warranted(st, rows, r.jobs[j], selected, now))
            && (forall i, j :: |st.jobs| <= i < j < |r.jobs| ==> r.jobs[i].credential != r.jobs[j].credential)
  {
    if selected != [] {
      var n := |selected| - 1;
      var before, r := ScheduleAll(st, rows, selected[..n], now), ScheduleAll(st, rows, selected, now);
      ScheduleAddsWarrantedJobs(st, rows, selected[..n], now);
      assert forall c :: c in selected[..n] ==> c in selected;
      if |r.jobs| > |before.jobs| {
        assert selected[n] in selected;
        assert forall j :: 0 <= j < |st.jobs| ==> st.jobs[j] == before.jobs[j];
      }
    }
  }

  /** Every due credential of the selection ends up with an open job. */
  lemma {:induction false} ScheduleReachesEveryDue(st: Store, rows: seq<Credential>, selected: seq<nat>, now: int, i: nat)
    requires |rows| == |st.credentials| && forall i :: 0 <= i < |selected| ==> selected[i] < |rows|
    requires i < |selected| && Due(rows[selected[i]], now)
    ensures HasOpenJob(ScheduleAll(st, rows, selected, now).jobs, selected[i])
  {
    var n := |selected| - 1;
    var before, r := ScheduleAll(st, rows, selected[..n], now), ScheduleAll(st, rows, selected, now);
    if i < n {
      ScheduleReachesEveryDue(st, rows, selected[..n], now, i);
      var j :| 0 <= j < |before.jobs| && ActiveFor(before.jobs[j], selected[i]);
      assert ActiveFor(r.jobs[j], selected[i]);
    } else {
      var open := ActiveJob(before.jobs, selected[n]);
      assert ActiveFor(r.jobs[if open.Some? then open.value else |before.jobs|], selected[n]);
    }
  }

  // ----- what the query selects -----

  /** By due date and then by age; where rows without a date come is the database's choice. */
  predicate ComesBefore(rows: seq<Credential>, nullsFirst: bool, a: nat, b: nat)
    requires a < |rows| && b < |rows|
  {
    match (rows[a].nextRotationAt, rows[b].nextRotationAt)
    case (None, None) => a < b
    case (None, Some(_)) => nullsFirst
    case (Some(_), None) => !nullsFirst
    case (Some(x), Some(y)) => x < y || (x == y && a < b)
  }

  /** The automatic credentials among the first `n` rows that come before `c`. */
  function Rank(rows: seq<Credential>, nullsFirst: bool, c: nat, n: nat): nat
    requires c < |rows| && n <= |rows|
  {
    if n == 0 then 0
    else Rank(rows, nullsFirst, c, n - 1) + if rows[n - 1].automatic && ComesBefore(rows, nullsFirst, n - 1, c) then 1 else 0
  }

  predicate WithinLimit(rows: seq<Credential>, nullsFirst: bool, limit: nat, c: nat) {
    c < |rows| && rows[c].automatic && Rank(rows, nullsFirst, c, |rows|) < limit
  }

  /** The first `limit` automatic credentials in that order. */
  ghost predicate Selects(rows: seq<Credential>, nullsFirst: bool, limit: nat, selected: seq<nat>) {
    && (forall c :: c in selected <==> WithinLimit(rows, nullsFirst, limit, c))
    && (forall i, j :: 0 <= i < j < |selected| ==> selected[i] < |rows| && selected[j] < |rows| && ComesBefore(rows, nullsFirst, selected[i], selected[j]))
  }

  /** After a call a credential has an open job exactly if it had one, or it is due and automatic with fewer than `limit` such rows before it. */
  lemma ScheduledIff(st: Store, nullsFirst: bool, limit: nat, selected: seq<nat>, now: int, c: nat)
    requires Selects(st.credentials, nullsFirst, limit, selected)
    requires forall i :: 0 <= i < |selected| ==> selected[i] < |st.credentials|
    ensures HasOpenJob(ScheduleAll(st, st.credentials, selected, now).jobs, c) <==>
            HasOpenJob(st.jobs, c) || (WithinLimit(st.credentials, nullsFirst, limit, c) && Due(st.credentials[c], now))
  {
    var rows := st.credentials;
    var r := ScheduleAll(st, rows, selected, now);
    ScheduleAddsWarrantedJobs(st, rows, selected, now);
    if j :| 0 <= j < |st.jobs| && ActiveFor(st.jobs[j], c) {
      assert ActiveFor(r.jobs[j], c);
    }
    if WithinLimit(rows, nullsFirst, limit, c) && Due(rows[c], now) {
      var i :| 0 <= i < |selected| && selected[i] == c;
      ScheduleReachesEveryDue(st, rows, selected, now, i);
    }
    if j :| 0 <= j < |r.jobs| && ActiveFor(r.jobs[j], c) {
      assert j < |st.jobs| ==> r.jobs[j] == st.jobs[j];
      assert j >= |st.jobs| ==> Warranted(st, rows, r.jobs[j], selected, now);
    }
  }

  class RotationTables {
    var credentials: seq<Credential>
    var jobs: seq<Job>

    ghost function Tables(): Store
      reads this
    {
      Store(credentials, jobs)
    }

    ghost predicate Valid()
      reads this
    {
      WellFormed(Tables())
    }

    constructor (initial: seq<Credential>)
      ensures Valid() && credentials == initial && jobs == []
    {
      credentials, jobs := initial, [];
    }

    method QueueRotation(c: nat, scheduledFor: Option<int>, now: int) returns (job: nat, created: bool)
      requires Valid() && c < |credentials|
      modifies this
      ensures Valid() && Tables() == Queue(old(Tables()), c, if scheduledFor.Some? then scheduledFor.value else now)
      ensures job < |jobs| && ActiveFor(jobs[job], c)
      ensures created <==> forall j :: 0 <= j < |old(jobs)| ==> !ActiveFor(old(jobs)[j], c)
      ensures created ==> job == |old(jobs)|
    {
      var existing := ActiveJob(jobs, c);
      if existing.Some? {
        return existing.value, false;
      }
      var at := if scheduledFor.Some? then scheduledFor.value else now;
      job, created := |jobs|, true;
      jobs := jobs + [NewJob(credentials[c], c, at)];
    }

    method FinishWithoutRotation(j: nat, now: int, status: JobStatus, code: string)
      requires Valid() && j < |jobs|
      modifies this
      ensures Valid() && Tables() == Finish(old(Tables()), j, now, status, code)
    {
      var job := jobs[j];
      if !Active(job) {
        return;
      }
      jobs := jobs[j := job.(status := status, completedAt := Some(now), errorCode := Clip(code))];
      var cred := credentials[job.credential];
      var retryHours := 24;
      if status == Failed {
        cred := cred.(lastStatus := LastFailed, failureCount := cred.failureCount + 1);
        retryHours := RetryHours(cred.failureCount);
      } else {
        cred := cred.(lastStatus := Blocked);
      }
      cred := cred.(nextRotationAt := Some(now + HOUR * retryHours));
      credentials := credentials[job.credential := cred];
    }

    /** Up to the remote call; `ready` says that the call is to be made. */
    method BeginExecution(j: nat, now: int, a: Attempt) returns (ready: bool, current: Secret, candidate: Secret)
      requires Valid() && j < |jobs|
      modifies this
      ensures Valid()
      ensures Tables() == Begin(old(Tables()), j, now, Prepare(old(credentials[jobs[j].credential]), a))
      ensures ready <==> old(jobs[j].status == Pending && jobs[j].scheduledFor <= now)
                         && Prepare(old(credentials[jobs[j].credential]), a).Ready?
      ensures ready ==> jobs[j].candidate == Some(candidate) && candidate != current
                        && current == old(credentials[jobs[j].credential].secret)
    {
      var job := jobs[j];
      ready, current, candidate := false, "", "";
      if job.status != Pending || job.scheduledFor > now {
        return;
      }
      var preparation := Prepare(credentials[job.credential], a);
      if preparation.Unready? {
        FinishWithoutRotation(j, now, if preparation.blocked then ActionRequired else Failed, preparation.code);
        return;
      }
      PreparedCandidates(credentials[job.credential], a, preparation.candidate);
      ready, current, candidate := true, credentials[job.credential].secret, preparation.candidate;
      job := job.(status := Running, startedAt := Some(now));
      job := job.(candidate := Some(candidate));
      jobs := jobs[j := job];
    }

    /** After the remote call returned; `ok` is false where the source raises. */
    method CommitRotation(j: nat, now: int) returns (ok: bool)
      requires Valid() && j < |jobs|
      modifies this
      ensures Valid()
      ensures ok <==> Commit(old(Tables()), j, now).Some?
      ensures Tables() == if ok then Commit(old(Tables()), j, now).value else old(Tables())
    {
      var job := jobs[j];
      if job.status != Running {
        return false;
      }
      var cred := credentials[job.credential];
      cred := cred.(secret := if job.candidate.Some? then job.candidate.value else "",
                    keyVersion := cred.keyVersion + 1,
                    lastRotatedAt := Some(now), lastStatus := LastSucceeded, failureCount := 0);
      cred := cred.(nextRotationAt := if cred.automatic && cred.intervalDays != 0
                                      then Some(now + DAY * cred.intervalDays) else None);
      credentials := credentials[job.credential := cred];
      job := job.(status := Succeeded, completedAt := Some(now), newVersion := Some(cred.keyVersion));
      jobs := jobs[j := job.(candidate := None, errorCode := "")];
      ok := true;
    }

    /** One turn of the scheduler's loop, on the row as it was read before the loop. */
    method ScheduleIfDue(c: nat, read: Credential, now: int) returns (queued: Option<nat>)
      requires Valid() && c < |credentials|
      modifies this
      ensures Valid() && Tables() == ScheduleOne(old(Tables()), c, read, now)
      ensures queued.None? ==> |jobs| == |old(jobs)|
      ensures queued.Some? ==> queued.value == |old(jobs)| && |jobs| == |old(jobs)| + 1
    {
      queued := None;
      var dueAt := read.nextRotationAt;
      if Derived(read) {
        dueAt := Some(read.lastRotatedAt.value + DAY * read.intervalDays);
        credentials := credentials[c := credentials[c].(nextRotationAt := dueAt)];
      }
      if dueAt.None? || dueAt.value <= now {
        var job, created := QueueRotation(c, Some(now), now);
        if created {
          queued := Some(job);
        }
      }
    }

    /** Queues the due credentials among `selected`, the rows the scheduler's query returned, in order. */
    method ScheduleDueRotations(now: int, selected: seq<nat>) returns (queued: seq<nat>)
      requires Valid() && forall i :: 0 <= i < |selected| ==> selected[i] < |credentials|
      modifies this
      ensures Valid() && Tables() == ScheduleAll(old(Tables()), old(credentials), selected, now)
      ensures |queued| == |jobs| - |old(jobs)| && forall k :: 0 <= k < |queued| ==> queued[k] == |old(jobs)| + k
    {
      var rows := credentials;
      queued := [];
      for n := 0 to |selected|
        invariant Valid() && |credentials| == |rows|
        invariant Tables() == ScheduleAll(old(Tables()), rows, selected[..n], now)
        invariant |queued| == |jobs| - |old(jobs)| && forall k :: 0 <= k < |queued| ==> queued[k] == |old(jobs)| + k
      {
        assert selected[..n + 1][..n] == selected[..n];
        var job := ScheduleIfDue(selected[n], rows[selected[n]], now);
        if job.Some? {
          queued := queued + [job.value];
        }
      }
      assert selected[..|selected|] == selected;
    }
  }
}
