/**
  Credential rotation: the vault's job table, the remote target and the workers between them.

  Each database transaction is one function on `Store`. `System` adds what the database does
  not hold: the secret the target really accepts, the workers in flight and the remote calls
  they made. A run is any interleaving of `Step`s, including worker crashes at every point and
  remote calls that raise and still take effect, at once or later.
 */
module Rotation {
  import opened Common

  type Secret = string

  datatype JobStatus = Pending | Running | Succeeded | Failed | ActionRequired
  datatype LastStatus = Never | LastSucceeded | LastFailed | Blocked

  datatype Credential = Credential(
    secret: Secret,
    isPassword: bool,
    keyVersion: nat,
    failureCount: nat,
    lastStatus: LastStatus,
    lastRotatedAt: Option<int>,
    nextRotationAt: Option<int>,
    automatic: bool,
    intervalDays: nat)

  datatype Job = Job(
    credential: nat,
    status: JobStatus,
    scheduledFor: int,
    startedAt: Option<int>,
    completedAt: Option<int>,
    previousVersion: nat,
    newVersion: Option<nat>,
    candidate: Option<Secret>,
    errorCode: string)

  /** Rows in creation order; a credential or a job is named by its position. */
  datatype Store = Store(credentials: seq<Credential>, jobs: seq<Job>)

  const HOUR := 3600
  const DAY := 24 * HOUR
  const MAX_CANDIDATE_BYTES := 65536

  ghost predicate WellFormed(st: Store) {
    forall j :: 0 <= j < |st.jobs| ==> st.jobs[j].credential < |st.credentials|
  }

  predicate Active(job: Job) {
    job.status == Pending || job.status == Running
  }

  predicate ActiveFor(job: Job, c: nat) {
    job.credential == c && Active(job)
  }

  /** The newest active job of a credential. */
  function ActiveJob(jobs: seq<Job>, c: nat): (r: Option<nat>)
    ensures r.Some? ==> r.value < |jobs| && ActiveFor(jobs[r.value], c)
    ensures r.None? <==> forall j :: 0 <= j < |jobs| ==> !ActiveFor(jobs[j], c)
  {
    if jobs == [] then None
    else if ActiveFor(jobs[|jobs| - 1], c) then Some(|jobs| - 1)
    else ActiveJob(jobs[..|jobs| - 1], c)
  }

  function NewJob(cred: Credential, c: nat, scheduledFor: int): Job {
    Job(c, Pending, scheduledFor, None, None, cred.keyVersion, None, None, "")
  }

  /** `queue_rotation`: an active job is returned as it is, otherwise a pending one is created. */
  function Queue(st: Store, c: nat, scheduledFor: int): Store
    requires c < |st.credentials|
  {
    if ActiveJob(st.jobs, c).Some? then st
    else st.(jobs := st.jobs + [NewJob(st.credentials[c], c, scheduledFor)])
  }

  /** The scheduler's update of a due date, in a statement of its own. */
  function Plan(st: Store, c: nat, at: int): Store
    requires c < |st.credentials|
  {
    st.(credentials := st.credentials[c := st.credentials[c].(nextRotationAt := Some(at))])
  }

  // ----- preparing a candidate -----

  datatype Lookup = Found | NotConfigured | Invalid
  datatype Generation = Produced(secret: Secret) | Refused(code: string) | Crashed

  /** What the collaborators of one execution answer: backend registry, vault, generator. */
  datatype Attempt = Attempt(lookup: Lookup, decrypts: bool, hasGenerator: bool, generation: Generation)

  datatype Preparation = Ready(candidate: Secret) | Unready(blocked: bool, code: string)

  predicate Ascii(s: string) {
    forall i :: 0 <= i < |s| ==> s[i] as int < 128
  }

  function EncodedLength(s: string): nat {
    if s == [] then 0
    else
      var c := s[0] as int;
      (if c < 0x80 then 1 else if c < 0x800 then 2 else if c < 0x10000 then 3 else 4)
      + EncodedLength(s[1..])
  }

  function BackendRefusal(code: string): Preparation {
    Unready(code in {"backend_not_configured", "backend_invalid", "secret_generation_unsupported"}, code)
  }

  /** The checks of the first transaction, in their order. Comparing text outside ASCII raises. */
  function Prepare(cred: Credential, a: Attempt): Preparation {
    var broken := Unready(false, "vault_preparation_failed");
    if a.lookup == NotConfigured then BackendRefusal("backend_not_configured")
    else if a.lookup == Invalid then BackendRefusal("backend_invalid")
    else if !a.decrypts then broken
    else if !a.hasGenerator && !cred.isPassword then BackendRefusal("secret_generation_unsupported")
    else match a.generation
      case Refused(code) => BackendRefusal(code)
      case Crashed => broken
      case Produced(secret) =>
        if secret == "" || EncodedLength(secret) > MAX_CANDIDATE_BYTES then
          BackendRefusal("candidate_secret_invalid")
        else if !Ascii(secret) || !Ascii(cred.secret) then broken
        else if secret == cred.secret then BackendRefusal("secret_unchanged")
        else Ready(secret)
  }

  // ----- the transactions of an execution -----

  function Pow2(n: nat): nat {
    if n == 0 then 1 else 2 * Pow2(n - 1)
  }

  function RetryHours(failures: nat): nat {
    Min(24, Pow2(Min(failures, 5)))
  }

  function AfterFailure(cred: Credential, now: int): Credential {
    cred.(lastStatus := LastFailed,
          failureCount := cred.failureCount + 1,
          nextRotationAt := Some(now + HOUR * RetryHours(cred.failureCount + 1)))
  }

  function AfterBlock(cred: Credential, now: int): Credential {
    cred.(lastStatus := Blocked, nextRotationAt := Some(now + HOUR * 24))
  }

  /** An error code as its column holds it. */
  function Clip(code: string): string {
    if |code| <= 80 then code else code[..80]
  }

  /** `_finish_without_rotation`: the candidate column is left as it is. */
  function Finish(st: Store, j: nat, now: int, status: JobStatus, code: string): Store
    requires j < |st.jobs| && WellFormed(st)
  {
    var job := st.jobs[j];
    if !Active(job) then st
    else
      var cred := st.credentials[job.credential];
      Store(
        st.credentials[job.credential := if status == Failed then AfterFailure(cred, now) else AfterBlock(cred, now)],
        st.jobs[j := job.(status := status, completedAt := Some(now), errorCode := Clip(code))])
  }

  /** First transaction of `execute_rotation`: the candidate is stored before any remote call. */
  function Begin(st: Store, j: nat, now: int, p: Preparation): Store
    requires j < |st.jobs| && WellFormed(st)
  {
    var job := st.jobs[j];
    if job.status != Pending || job.scheduledFor > now then st
    else match p
      case Unready(blocked, code) => Finish(st, j, now, if blocked then ActionRequired else Failed, code)
      case Ready(candidate) =>
        st.(jobs := st.jobs[j := job.(status := Running, startedAt := Some(now), candidate := Some(candidate))])
  }

  function AfterSuccess(cred: Credential, now: int, secret: Secret): Credential {
    cred.(secret := secret,
          keyVersion := cred.keyVersion + 1,
          lastRotatedAt := Some(now),
          lastStatus := LastSucceeded,
          failureCount := 0,
          nextRotationAt := if cred.automatic && cred.intervalDays != 0
                            then Some(now + DAY * cred.intervalDays) else None)
  }

  /** Second transaction of `execute_rotation`; `None` is "Rotation job is no longer running". */
  function Commit(st: Store, j: nat, now: int): Option<Store>
    requires j < |st.jobs| && WellFormed(st)
  {
    var job := st.jobs[j];
    if job.status != Running then None
    else
      var secret := if job.candidate.Some? then job.candidate.value else "";
      var cred := AfterSuccess(st.credentials[job.credential], now, secret);
      Some(Store(
        st.credentials[job.credential := cred],
        st.jobs[j := job.(status := Succeeded, completedAt := Some(now), newVersion := Some(cred.keyVersion),
                          candidate := None, errorCode := "")]))
  }

  // ----- the whole system -----

  datatype Phase = Prepared | Invoked | Returned | Raised

  /** The local variables of a worker between its two transactions. */
  datatype Worker = Worker(phase: Phase, current: Secret, candidate: Secret)

  /** One call of `backend.rotate`. */
  datatype Call = Call(job: nat, current: Secret, candidate: Secret)

  datatype System = System(store: Store, live: seq<Secret>, workers: map<nat, Worker>, calls: seq<Call>)

  datatype Step =
    | PlanDate(credential: nat, at: int)
    | QueueJob(credential: nat, scheduledFor: int)
    | BeginJob(job: nat, now: int, preparation: Preparation)
    | InvokeRemote(job: nat)
    | RemoteEffect(call: nat)
    | RemoteReturns(job: nat)
    | RemoteRaises(job: nat)
    | FailJob(job: nat, now: int, code: string)
    | CommitJob(job: nat, now: int)
    | CrashWorker(job: nat)

  predicate InPhase(s: System, j: nat, phase: Phase) {
    j in s.workers && s.workers[j].phase == phase && j < |s.store.jobs|
  }

  /** A call that did not return normally may still change the target, at any later time. */
  predicate MayTakeEffect(s: System, k: nat) {
    && k < |s.calls|
    && s.calls[k].job < |s.store.jobs|
    && s.store.jobs[s.calls[k].job].status != Succeeded
  }

  function SetLive(s: System, j: nat, secret: Secret): System
    requires j < |s.store.jobs|
  {
    var c := s.store.jobs[j].credential;
    if c < |s.live| then s.(live := s.live[c := secret]) else s
  }

  /** A step that is not enabled leaves the system unchanged. */
  function Next(s: System, step: Step): System
    requires WellFormed(s.store)
  {
    match step
    case PlanDate(c, at) => if c < |s.store.credentials| then s.(store := Plan(s.store, c, at)) else s
    case QueueJob(c, scheduledFor) =>
      if c < |s.store.credentials| then s.(store := Queue(s.store, c, scheduledFor)) else s
    case BeginJob(j, now, p) =>
      if j >= |s.store.jobs| then s
      else
        var st := Begin(s.store, j, now, p);
        if s.store.jobs[j].status == Pending && st.jobs[j].status == Running then
          var current := s.store.credentials[s.store.jobs[j].credential].secret;
          s.(store := st, workers := s.workers[j := Worker(Prepared, current, p.candidate)])
        else s.(store := st)
    case InvokeRemote(j) =>
      if !InPhase(s, j, Prepared) then s
      else
        var w := s.workers[j];
        s.(workers := s.workers[j := w.(phase := Invoked)], calls := s.calls + [Call(j, w.current, w.candidate)])
    case RemoteEffect(k) =>
      if MayTakeEffect(s, k) then SetLive(s, s.calls[k].job, s.calls[k].candidate) else s
    case RemoteReturns(j) =>
      if !InPhase(s, j, Invoked) then s
      else SetLive(s, j, s.workers[j].candidate).(workers := s.workers[j := s.workers[j].(phase := Returned)])
    case RemoteRaises(j) =>
      if !InPhase(s, j, Invoked) then s
      else s.(workers := s.workers[j := s.workers[j].(phase := Raised)])
    case FailJob(j, now, code) =>
      if !InPhase(s, j, Raised) then s
      else s.(store := Finish(s.store, j, now, Failed, code), workers := s.workers - {j})
    case CommitJob(j, now) =>
      if !InPhase(s, j, Returned) then s
      else
        var committed := Commit(s.store, j, now);
        s.(store := if committed.Some? then committed.value else s.store, workers := s.workers - {j})
    case CrashWorker(j) => s.(workers := s.workers - {j})
  }

  ghost predicate Init(s: System) {
    && s.store.jobs == [] && s.workers == map[] && s.calls == []
    && |s.live| == |s.store.credentials|
    && (forall c :: 0 <= c < |s.live| ==> s.live[c] == s.store.credentials[c].secret)
    && (forall c :: 0 <= c < |s.live| ==> s.store.credentials[c].failureCount == 0)
  }

  /** The state after `steps`. */
  function Run(s: System, steps: seq<Step>): (r: System)
    requires WellFormed(s.store)
    ensures WellFormed(r.store)
  {
    if steps == [] then s
    else
      var before := Run(s, steps[..|steps| - 1]);
      NextWellFormed(before, steps[|steps| - 1]);
      Next(before, steps[|steps| - 1])
  }

  lemma NextWellFormed(s: System, step: Step)
    requires WellFormed(s.store)
    ensures WellFormed(Next(s, step).store)
    ensures |Next(s, step).store.credentials| == |s.store.credentials|
  {
  }

  // ----- what a step does to the tables -----

  /** A job goes from `was` to `job`, and its credential from `cred` to `after`. */
  ghost predicate Moves(was: Job, job: Job, cred: Credential, after: Credential) {
    && Active(was) && job.credential == was.credential && job.previousVersion == was.previousVersion
    && match job.status
       case Pending => false
       case Running =>
         was.status == Pending && job.candidate.Some? && job.newVersion == was.newVersion && after == cred
       case Succeeded =>
         && was.status == Running && job.candidate.None? && job.newVersion == Some(cred.keyVersion + 1)
         && job.completedAt.Some?
         && after == AfterSuccess(cred, job.completedAt.value, if was.candidate.Some? then was.candidate.value else "")
       case _ =>
         && job.candidate == was.candidate && job.newVersion == was.newVersion && job.completedAt.Some?
         && after == if job.status == Failed then AfterFailure(cred, job.completedAt.value)
                     else AfterBlock(cred, job.completedAt.value)
  }

  ghost predicate MovesJob(st: Store, n: Store, j: nat) {
    && j < |st.jobs| == |n.jobs| && st.jobs[j].credential < |st.credentials| == |n.credentials|
    && n.jobs == st.jobs[j := n.jobs[j]]
    && n.credentials == st.credentials[st.jobs[j].credential := n.credentials[st.jobs[j].credential]]
    && Moves(st.jobs[j], n.jobs[j], st.credentials[st.jobs[j].credential], n.credentials[st.jobs[j].credential])
  }

  ghost predicate AddsJob(st: Store, n: Store, job: Job) {
    && n == st.(jobs := st.jobs + [job])
    && job.credential < |st.credentials| && job == NewJob(st.credentials[job.credential], job.credential, job.scheduledFor)
    && forall j :: 0 <= j < |st.jobs| ==> !ActiveFor(st.jobs[j], job.credential)
  }

  ghost predicate PlansDate(st: Store, n: Store, c: nat) {
    && c < |st.credentials| == |n.credentials|
    && n == st.(credentials := st.credentials[c := st.credentials[c].(nextRotationAt := n.credentials[c].nextRotationAt)])
  }

  /** Every transaction changes nothing, plans one date, adds one pending job or moves one active job on. */
  ghost predicate Changes(st: Store, n: Store) {
    || n == st || (exists c: nat :: PlansDate(st, n, c))
    || (exists job :: AddsJob(st, n, job)) || (exists j: nat :: MovesJob(st, n, j))
  }

  lemma QueueChanges(st: Store, c: nat, at: int)
    requires WellFormed(st) && c < |st.credentials|
    ensures Changes(st, Queue(st, c, at))
  {
    if ActiveJob(st.jobs, c).None? {
      assert AddsJob(st, Queue(st, c, at), NewJob(st.credentials[c], c, at));
    }
  }

  lemma FinishMoves(st: Store, j: nat, now: int, status: JobStatus, code: string)
    requires WellFormed(st) && j < |st.jobs| && (status == Failed || status == ActionRequired)
    ensures Active(st.jobs[j]) ==> MovesJob(st, Finish(st, j, now, status, code), j)
    ensures !Active(st.jobs[j]) ==> Finish(st, j, now, status, code) == st
  {
  }

  lemma BeginMoves(st: Store, j: nat, now: int, p: Preparation)
    requires WellFormed(st) && j < |st.jobs|
    ensures Begin(st, j, now, p) == st || MovesJob(st, Begin(st, j, now, p), j)
  {
    if p.Unready? {
      FinishMoves(st, j, now, if p.blocked then ActionRequired else Failed, p.code);
    }
  }

  lemma CommitMoves(st: Store, j: nat, now: int)
    requires WellFormed(st) && j < |st.jobs| && Commit(st, j, now).Some?
    ensures MovesJob(st, Commit(st, j, now).value, j)
  {
  }

  lemma StepChanges(s: System, step: Step)
    requires WellFormed(s.store)
    ensures Changes(s.store, Next(s, step).store)
  {
    match step {
      case PlanDate(c, at) =>
        if c < |s.store.credentials| {
          assert PlansDate(s.store, Next(s, step).store, c);
        }
      case QueueJob(c, at) =>
        if c < |s.store.credentials| {
          QueueChanges(s.store, c, at);
        }
      case BeginJob(j, now, p) =>
        if j < |s.store.jobs| {
          BeginMoves(s.store, j, now, p);
        }
      case FailJob(j, now, code) =>
        if InPhase(s, j, Raised) {
          FinishMoves(s.store, j, now, Failed, code);
        }
      case CommitJob(j, now) =>
        if InPhase(s, j, Returned) && Commit(s.store, j, now).Some? {
          CommitMoves(s.store, j, now);
        }
      case _ =>
    }
  }

  /** A finished job is never touched again. */
  lemma {:induction false} FinishedJobsFrozen(st: Store, n: Store, j: nat)
    requires Changes(st, n) && j < |st.jobs| && !Active(st.jobs[j])
    ensures j < |n.jobs| && n.jobs[j] == st.jobs[j]
  {
  }

  lemma JobsKeepCredential(st: Store, n: Store, j: nat)
    requires Changes(st, n) && j < |st.jobs|
    ensures j < |n.jobs| && n.jobs[j].credential == st.jobs[j].credential
  {
  }

  // ----- invariants -----

  /** Jobs, workers and calls fit together. */
  ghost predicate Structure(s: System) {
    && WellFormed(s.store)
    && |s.live| == |s.store.credentials|
    && JobsOrdered(s.store.jobs)
    && WorkersOwnRunningJobs(s)
    && CallsRecorded(s)
  }

  /** Only the newest job of a credential can be active. */
  ghost predicate JobsOrdered(jobs: seq<Job>) {
    && (forall i, j :: 0 <= i < j < |jobs| && jobs[i].credential == jobs[j].credential ==> !Active(jobs[i]))
    && (forall j :: 0 <= j < |jobs| && jobs[j].status == Running ==> jobs[j].candidate.Some?)
  }

  /** A worker's job is running and its candidate is already durable. */
  ghost predicate WorkersOwnRunningJobs(s: System) {
    forall j :: j in s.workers ==>
      && j < |s.store.jobs|
      && s.store.jobs[j].status == Running
      && s.store.jobs[j].candidate == Some(s.workers[j].candidate)
  }

  /** Calls are one per job, never before the job runs, and their candidate stays stored until success. */
  ghost predicate CallsRecorded(s: System) {
    && (forall k, l :: 0 <= k < l < |s.calls| ==> s.calls[k].job != s.calls[l].job)
    && (forall k :: 0 <= k < |s.calls| ==> CallRecorded(s, s.calls[k]))
  }

  ghost predicate CallRecorded(s: System, call: Call) {
    && call.job < |s.store.jobs|
    && s.store.jobs[call.job].status in {Running, Failed, Succeeded}
    && (s.store.jobs[call.job].status != Succeeded ==> s.store.jobs[call.job].candidate == Some(call.candidate))
    && (call.job in s.workers ==> s.workers[call.job].phase != Prepared)
  }

  lemma JobsOrderedKept(st: Store, n: Store)
    requires WellFormed(st) && JobsOrdered(st.jobs) && Changes(st, n)
    ensures JobsOrdered(n.jobs)
  {
    if job :| AddsJob(st, n, job) {
      forall i | 0 <= i < |st.jobs| && st.jobs[i].credential == job.credential
        ensures !Active(st.jobs[i])
      {
        assert !ActiveFor(st.jobs[i], job.credential);
      }
    }
  }

  lemma TargetsCounted(s: System, step: Step)
    requires Structure(s)
    ensures |Next(s, step).live| == |s.live|
  {
  }

  lemma WorkersKept(s: System, step: Step)
    requires Structure(s)
    ensures WorkersOwnRunningJobs(Next(s, step))
  {
    var n := Next(s, step);
    forall j | j in n.workers
      ensures && j < |n.store.jobs|
              && n.store.jobs[j].status == Running
              && n.store.jobs[j].candidate == Some(n.workers[j].candidate)
    {
      assert j in s.workers || step.BeginJob?;
    }
  }

  lemma CallsKept(s: System, step: Step)
    requires Structure(s)
    ensures CallsRecorded(Next(s, step))
  {
    var n := Next(s, step);
    forall call | call in n.calls
      ensures CallRecorded(n, call)
    {
      if call in s.calls {
        assert CallRecorded(s, call);
      }
    }
  }

  lemma {:induction false} StructureKept(s: System, step: Step)
    requires Structure(s)
    ensures Structure(Next(s, step))
  {
    NextWellFormed(s, step);
    StepChanges(s, step);
    JobsOrderedKept(s.store, Next(s, step).store);
    TargetsCounted(s, step);
    WorkersKept(s, step);
    CallsKept(s, step);
  }

  // ----- the live secret -----

  predicate Keeps(job: Job, c: nat, secret: Secret) {
    job.credential == c && (job.status == Running || job.status == Failed) && job.candidate == Some(secret)
  }

  /** The target's secret is in the vault, or stored as the candidate of a running or failed job. */
  ghost predicate Recoverable(s: System, c: nat)
    requires c < |s.live| == |s.store.credentials|
  {
    || s.live[c] == s.store.credentials[c].secret
    || exists j :: 0 <= j < |s.store.jobs| && Keeps(s.store.jobs[j], c, s.live[c])
  }

  /** Once a call returned, the old vault secret alone no longer explains the target. */
  ghost predicate ReturnExplained(s: System, j: nat)
    requires Structure(s) && InPhase(s, j, Returned)
  {
    var c := s.store.jobs[j].credential;
    || s.live[c] == s.workers[j].candidate
    || exists i :: 0 <= i < |s.store.jobs| && s.store.jobs[i].status == Failed && Keeps(s.store.jobs[i], c, s.live[c])
  }

  ghost predicate LiveSecretsKnown(s: System)
    requires Structure(s)
  {
    && (forall c :: 0 <= c < |s.live| ==> Recoverable(s, c))
    && (forall j :: InPhase(s, j, Returned) ==> ReturnExplained(s, j))
  }

  /** Every other step leaves target and vault secrets alone and forgets no candidate. */
  lemma QuietStep(s: System, step: Step, c: nat, secret: Secret)
    requires Structure(s) && c < |s.live|
    requires !step.RemoteEffect? && !step.RemoteReturns? && !step.CommitJob?
    ensures var n := Next(s, step);
            && n.live == s.live
            && |n.store.credentials| == |s.store.credentials|
            && n.store.credentials[c].secret == s.store.credentials[c].secret
            && |s.store.jobs| <= |n.store.jobs|
            && (forall j :: 0 <= j < |s.store.jobs| && Keeps(s.store.jobs[j], c, secret) ==>
                  Keeps(n.store.jobs[j], c, secret)
                  && (s.store.jobs[j].status == Failed ==> n.store.jobs[j].status == Failed))
  {
  }

  lemma RemoteStep(s: System, step: Step, c: nat)
    requires Structure(s) && LiveSecretsKnown(s) && c < |s.live|
    requires step.RemoteEffect? || step.RemoteReturns?
    ensures var n := Next(s, step); n.store == s.store && |n.live| == |s.live| && Recoverable(n, c)
  {
    var n := Next(s, step);
    assert Recoverable(s, c);
    if n.live[c] != s.live[c] {
      var j := if step.RemoteEffect? then s.calls[step.call].job else step.job;
      if step.RemoteEffect? {
        assert CallRecorded(s, s.calls[step.call]);
      }
      assert Keeps(n.store.jobs[j], c, n.live[c]);
    }
  }

  lemma CommitStep(s: System, j: nat, now: int, c: nat)
    requires Structure(s) && LiveSecretsKnown(s) && c < |s.live|
    ensures var n := Next(s, CommitJob(j, now));
            |n.live| == |s.live| == |n.store.credentials| && Recoverable(n, c)
  {
    var n := Next(s, CommitJob(j, now));
    assert Recoverable(s, c);
    if InPhase(s, j, Returned) {
      if s.store.jobs[j].credential == c {
        assert ReturnExplained(s, j);
        if s.live[c] != s.workers[j].candidate {
          var i :| 0 <= i < |s.store.jobs| && s.store.jobs[i].status == Failed && Keeps(s.store.jobs[i], c, s.live[c]);
          assert Keeps(n.store.jobs[i], c, n.live[c]);
        }
      } else if s.live[c] != s.store.credentials[c].secret {
        var i :| 0 <= i < |s.store.jobs| && Keeps(s.store.jobs[i], c, s.live[c]);
        assert Keeps(n.store.jobs[i], c, n.live[c]);
      }
    }
  }

  lemma RecoverableKept(s: System, step: Step, c: nat)
    requires Structure(s) && LiveSecretsKnown(s) && c < |s.live|
    ensures |Next(s, step).live| == |Next(s, step).store.credentials| == |s.live| && Recoverable(Next(s, step), c)
  {
    if step.CommitJob? {
      CommitStep(s, step.job, step.now, c);
    } else if step.RemoteEffect? || step.RemoteReturns? {
      RemoteStep(s, step, c);
    } else {
      QuietStep(s, step, c, s.live[c]);
      assert Recoverable(s, c);
    }
  }

  lemma ReturnStaysExplained(s: System, n: System, j: nat)
    requires Structure(s) && Structure(n) && InPhase(s, j, Returned) && InPhase(n, j, Returned) && ReturnExplained(s, j)
    requires Changes(s.store, n.store) && n.live == s.live && n.workers[j] == s.workers[j]
    ensures ReturnExplained(n, j)
  {
    var c := s.store.jobs[j].credential;
    JobsKeepCredential(s.store, n.store, j);
    if s.live[c] != s.workers[j].candidate {
      var i :| 0 <= i < |s.store.jobs| && s.store.jobs[i].status == Failed && Keeps(s.store.jobs[i], c, s.live[c]);
      FinishedJobsFrozen(s.store, n.store, i);
      assert n.store.jobs[i].status == Failed && Keeps(n.store.jobs[i], c, n.live[c]);
    }
  }

  lemma LateEffectExplained(s: System, k: nat, j: nat)
    requires Structure(s) && Structure(Next(s, RemoteEffect(k))) && InPhase(s, j, Returned)
    requires InPhase(Next(s, RemoteEffect(k)), j, Returned) && ReturnExplained(s, j)
    ensures ReturnExplained(Next(s, RemoteEffect(k)), j)
  {
    var n := Next(s, RemoteEffect(k));
    var c := s.store.jobs[j].credential;
    if n.live[c] != s.live[c] {
      var i := s.calls[k].job;
      assert CallRecorded(s, s.calls[k]);
      assert i == j || (n.store.jobs[i].status == Failed && Keeps(n.store.jobs[i], c, n.live[c]));
    }
  }

  /** Another call for the same credential cannot return as long as this worker's job is running. */
  lemma OtherReturnElsewhere(s: System, i: nat, j: nat)
    requires Structure(s) && InPhase(s, j, Returned) && InPhase(s, i, Invoked)
    ensures s.store.jobs[i].credential != s.store.jobs[j].credential
  {
    assert Active(s.store.jobs[i]) && Active(s.store.jobs[j]);
  }

  lemma RemoteStepExplained(s: System, step: Step, j: nat)
    requires Structure(s) && Structure(Next(s, step)) && InPhase(s, j, Returned) && InPhase(Next(s, step), j, Returned)
    requires ReturnExplained(s, j) && (step.RemoteEffect? || step.RemoteReturns?)
    ensures ReturnExplained(Next(s, step), j)
  {
    if step.RemoteEffect? {
      LateEffectExplained(s, step.call, j);
    } else if InPhase(s, step.job, Invoked) {
      OtherReturnElsewhere(s, step.job, j);
    }
  }

  lemma ReturnExplainedKept(s: System, step: Step, j: nat)
    requires Structure(s) && LiveSecretsKnown(s) && Structure(Next(s, step))
    requires InPhase(Next(s, step), j, Returned) && InPhase(s, j, Returned)
    ensures ReturnExplained(Next(s, step), j)
  {
    assert ReturnExplained(s, j);
    if step.RemoteEffect? || step.RemoteReturns? {
      RemoteStepExplained(s, step, j);
    } else {
      StepChanges(s, step);
      OnlyRemoteStepsMoveTarget(s, step);
      ReturnStaysExplained(s, Next(s, step), j);
    }
  }

  lemma OnlyRemoteStepsMoveTarget(s: System, step: Step)
    requires Structure(s)
    ensures Next(s, step).live != s.live ==> step.RemoteEffect? || step.RemoteReturns?
  {
  }

  lemma ReturnsStayExplained(s: System, step: Step)
    requires Structure(s) && LiveSecretsKnown(s) && Structure(Next(s, step))
    ensures forall j :: InPhase(Next(s, step), j, Returned) ==> ReturnExplained(Next(s, step), j)
  {
    forall j | InPhase(Next(s, step), j, Returned)
      ensures ReturnExplained(Next(s, step), j)
    {
      if InPhase(s, j, Returned) {
        ReturnExplainedKept(s, step, j);
      }
    }
  }

  lemma LiveSecretsKept(s: System, step: Step)
    requires Structure(s) && LiveSecretsKnown(s)
    ensures Structure(Next(s, step)) && LiveSecretsKnown(Next(s, step))
  {
    StructureKept(s, step);
    ReturnsStayExplained(s, step);
    forall c | 0 <= c < |Next(s, step).live|
      ensures Recoverable(Next(s, step), c)
    {
      TargetsCounted(s, step);
      RecoverableKept(s, step, c);
    }
  }

  // ----- versions and failure counts -----

  function SucceededFor(c: nat): Job -> bool {
    (job: Job) => job.credential == c && job.status == Succeeded
  }

  /** Reference count: failed jobs of `c` since its last success, read off the job table. */
  function FailureStreak(jobs: seq<Job>, c: nat): nat {
    if jobs == [] then 0
    else
      var last := jobs[|jobs| - 1];
      if last.credential == c && last.status == Succeeded then 0
      else FailureStreak(jobs[..|jobs| - 1], c) + if last.credential == c && last.status == Failed then 1 else 0
  }

  ghost predicate VersionsCount(st: Store, start: seq<nat>)
    requires WellFormed(st)
  {
    && |start| == |st.credentials|
    && (forall c :: 0 <= c < |start| ==> st.credentials[c].keyVersion == start[c] + Count(st.jobs, SucceededFor(c)))
    && (forall j :: 0 <= j < |st.jobs| ==> VersionStamped(st, st.jobs[j]))
  }

  ghost predicate VersionStamped(st: Store, job: Job)
    requires job.credential < |st.credentials|
  {
    && (Active(job) ==> job.previousVersion == st.credentials[job.credential].keyVersion)
    && (job.status == Succeeded <==> job.newVersion.Some?)
    && (job.status == Succeeded ==> job.newVersion == Some(job.previousVersion + 1))
  }

  ghost predicate FailuresCount(st: Store) {
    forall c :: 0 <= c < |st.credentials| ==> st.credentials[c].failureCount == FailureStreak(st.jobs, c)
  }

  lemma {:induction false} StreakUpdate(jobs: seq<Job>, j: nat, x: Job, c: nat)
    requires j < |jobs| && x.credential == jobs[j].credential && Active(jobs[j])
    requires forall k :: j < k < |jobs| ==> jobs[k].credential != jobs[j].credential
    ensures c != x.credential ==> FailureStreak(jobs[j := x], c) == FailureStreak(jobs, c)
    ensures c == x.credential ==>
              FailureStreak(jobs[j := x], c) ==
              if x.status == Succeeded then 0
              else FailureStreak(jobs, c) + if x.status == Failed then 1 else 0
  {
    var n := |jobs| - 1;
    if j == n {
      assert jobs[j := x][..n] == jobs[..n];
    } else {
      assert jobs[j := x][..n] == jobs[..n][j := x];
      StreakUpdate(jobs[..n], j, x, c);
    }
  }

  lemma CountsAppend(jobs: seq<Job>, job: Job, c: nat)
    requires job.status == Pending
    ensures Count(jobs + [job], SucceededFor(c)) == Count(jobs, SucceededFor(c))
    ensures FailureStreak(jobs + [job], c) == FailureStreak(jobs, c)
  {
    CountAppend(jobs, job, SucceededFor(c));
    assert (jobs + [job])[..|jobs|] == jobs;
  }

  lemma FailuresKept(st: Store, n: Store)
    requires WellFormed(st) && JobsOrdered(st.jobs) && FailuresCount(st) && Changes(st, n)
    ensures FailuresCount(n)
  {
    forall c | 0 <= c < |n.credentials|
      ensures n.credentials[c].failureCount == FailureStreak(n.jobs, c)
    {
      if job :| AddsJob(st, n, job) {
        CountsAppend(st.jobs, job, c);
      } else if j: nat :| MovesJob(st, n, j) {
        StreakUpdate(st.jobs, j, n.jobs[j], c);
      }
    }
  }

  lemma VersionCountKept(st: Store, n: Store, c: nat)
    requires WellFormed(st) && c < |st.credentials| && Changes(st, n)
    ensures |n.credentials| == |st.credentials|
    ensures n.credentials[c].keyVersion - st.credentials[c].keyVersion
              == Count(n.jobs, SucceededFor(c)) - Count(st.jobs, SucceededFor(c))
  {
    if n != st {
      if j: nat :| MovesJob(st, n, j) {
        CountUpdate(st.jobs, j, n.jobs[j], SucceededFor(c));
      } else if job :| AddsJob(st, n, job) {
        CountsAppend(st.jobs, job, c);
      }
    }
  }

  lemma VersionsKept(st: Store, n: Store, start: seq<nat>)
    requires WellFormed(st) && WellFormed(n) && JobsOrdered(st.jobs) && VersionsCount(st, start) && Changes(st, n)
    ensures VersionsCount(n, start)
  {
    forall c | 0 <= c < |start|
      ensures n.credentials[c].keyVersion == start[c] + Count(n.jobs, SucceededFor(c))
    {
      VersionCountKept(st, n, c);
    }
    forall i | 0 <= i < |n.jobs|
      ensures VersionStamped(n, n.jobs[i])
    {
      StampKept(st, n, i);
    }
    assert |n.credentials| == |start|;
  }

  lemma StampKept(st: Store, n: Store, i: nat)
    requires WellFormed(st) && WellFormed(n) && JobsOrdered(st.jobs) && Changes(st, n)
    requires forall j :: 0 <= j < |st.jobs| ==> VersionStamped(st, st.jobs[j])
    requires i < |n.jobs|
    ensures VersionStamped(n, n.jobs[i])
  {
    if i < |st.jobs| {
      assert VersionStamped(st, st.jobs[i]);
      if j: nat :| MovesJob(st, n, j) && i != j {
        assert st.jobs[i].credential == st.jobs[j].credential ==> !Active(st.jobs[i]);
      }
    }
  }

  // ----- what every run keeps -----

  function StartVersions(st: Store): seq<nat> {
    seq(|st.credentials|, c requires 0 <= c < |st.credentials| => st.credentials[c].keyVersion)
  }

  ghost predicate Sound(s: System, start: seq<nat>) {
    Structure(s) && LiveSecretsKnown(s) && VersionsCount(s.store, start) && FailuresCount(s.store)
  }

  lemma {:induction false} EveryRunIsSound(s: System, steps: seq<Step>)
    requires Init(s)
    ensures Sound(Run(s, steps), StartVersions(s.store))
  {
    if steps != [] {
      var before, step := Run(s, steps[..|steps| - 1]), steps[|steps| - 1];
      EveryRunIsSound(s, steps[..|steps| - 1]);
      LiveSecretsKept(before, step);
      StepChanges(before, step);
      VersionsKept(before.store, Next(before, step).store, StartVersions(s.store));
      FailuresKept(before.store, Next(before, step).store);
    }
  }

  /** The target never holds a secret the vault cannot produce; without open or failed jobs they agree. */
  lemma {:induction false} LiveSecretIsNeverLost(s: System, steps: seq<Step>, c: nat)
    requires Init(s) && c < |s.store.credentials|
    ensures var r := Run(s, steps);
            && c < |r.live| == |r.store.credentials|
            && Recoverable(r, c)
            && ((forall j :: 0 <= j < |r.store.jobs| && r.store.jobs[j].credential == c ==>
                   r.store.jobs[j].status != Running && r.store.jobs[j].status != Failed) ==>
                r.live[c] == r.store.credentials[c].secret)
  {
    EveryRunIsSound(s, steps);
    CredentialsFixed(s, steps);
  }

  lemma {:induction false} CredentialsFixed(s: System, steps: seq<Step>)
    requires Init(s)
    ensures |Run(s, steps).store.credentials| == |s.store.credentials|
  {
    if steps != [] {
      CredentialsFixed(s, steps[..|steps| - 1]);
      NextWellFormed(Run(s, steps[..|steps| - 1]), steps[|steps| - 1]);
    }
  }

  /** One open job per credential, one remote call per job, and no call without a stored candidate. */
  lemma {:induction false} JobsAndCallsAreSingle(s: System, steps: seq<Step>)
    requires Init(s)
    ensures var r := Run(s, steps);
            && (forall i, j, c :: 0 <= i < |r.store.jobs| && 0 <= j < |r.store.jobs| ==>
                  ActiveFor(r.store.jobs[i], c) && ActiveFor(r.store.jobs[j], c) ==> i == j)
            && (forall k, l :: 0 <= k < |r.calls| && 0 <= l < |r.calls| && r.calls[k].job == r.calls[l].job ==> k == l)
            && (forall k :: 0 <= k < |r.calls| ==> CallRecorded(r, r.calls[k]))
  {
    EveryRunIsSound(s, steps);
  }

  /** The second transaction always finds its job running, so it never raises; nor does a failure go unrecorded. */
  lemma {:induction false} WorkersFindTheirJobRunning(s: System, steps: seq<Step>, j: nat, now: int)
    requires Init(s) && j in Run(s, steps).workers
    ensures var r := Run(s, steps);
            j < |r.store.jobs| && r.store.jobs[j].status == Running && Commit(r.store, j, now).Some?
  {
    EveryRunIsSound(s, steps);
  }

  /** Versions count successes, each success moves from its own start version to the next one. */
  lemma {:induction false} VersionsCountSuccesses(s: System, steps: seq<Step>, c: nat)
    requires Init(s) && c < |s.store.credentials|
    ensures var r := Run(s, steps);
            && c < |r.store.credentials|
            && r.store.credentials[c].keyVersion
                 == s.store.credentials[c].keyVersion + Count(r.store.jobs, SucceededFor(c))
            && r.store.credentials[c].failureCount == FailureStreak(r.store.jobs, c)
            && (forall j :: 0 <= j < |r.store.jobs| && r.store.jobs[j].status == Succeeded ==>
                  r.store.jobs[j].newVersion == Some(r.store.jobs[j].previousVersion + 1))
  {
    EveryRunIsSound(s, steps);
    CredentialsFixed(s, steps);
    var r := Run(s, steps);
    forall j | 0 <= j < |r.store.jobs| && r.store.jobs[j].status == Succeeded
      ensures r.store.jobs[j].newVersion == Some(r.store.jobs[j].previousVersion + 1)
    {
      assert VersionStamped(r.store, r.store.jobs[j]);
    }
  }

  // ----- retry delays -----

  lemma RetryHoursTable(n: nat)
    ensures RetryHours(n) == if n == 0 then 1 else if n == 1 then 2 else if n == 2 then 4
                             else if n == 3 then 8 else if n == 4 then 16 else 24
  {
    assert Pow2(1) == 2 && Pow2(2) == 4;
    assert Pow2(3) == 8 && Pow2(4) == 16 && Pow2(5) == 32;
  }

  /** The failure of job `j` between `st` and `n` is counted, and the retry follows the count. */
  ghost predicate RetryPlanned(st: Store, n: Store, j: nat)
    requires j < |st.jobs| && j < |n.jobs|
  {
    var c := st.jobs[j].credential;
    var streak := FailureStreak(n.jobs, c);
    && streak == FailureStreak(st.jobs, c) + 1
    && c < |n.credentials|
    && n.jobs[j].completedAt.Some?
    && n.credentials[c].nextRotationAt == Some(n.jobs[j].completedAt.value + HOUR * RetryHours(streak))
    && 2 <= RetryHours(streak) <= 24
  }

  lemma RetryAfterMove(st: Store, n: Store, j: nat)
    requires WellFormed(st) && JobsOrdered(st.jobs) && FailuresCount(st) && Changes(st, n)
    requires j < |st.jobs| && Active(st.jobs[j]) && j < |n.jobs| && n.jobs[j].status == Failed
    ensures RetryPlanned(st, n, j)
  {
    assert MovesJob(st, n, j);
    StreakUpdate(st.jobs, j, n.jobs[j], st.jobs[j].credential);
    RetryHoursTable(FailureStreak(n.jobs, st.jobs[j].credential));
  }

  ghost predicate Reachable(r: System) {
    exists s, steps :: Init(s) && r == Run(s, steps)
  }

  /** The step that fails a job sets the retry by the number of failures since the last success. */
  lemma {:induction false} FailureSetsRetry(r: System, step: Step, n: System, j: nat)
    requires Reachable(r) && WellFormed(r.store) && n == Next(r, step)
    requires j < |r.store.jobs| && Active(r.store.jobs[j])
    requires j < |n.store.jobs| && n.store.jobs[j].status == Failed
    ensures RetryPlanned(r.store, n.store, j)
  {
    var s, steps :| Init(s) && r == Run(s, steps);
    EveryRunIsSound(s, steps);
    StepChanges(r, step);
    RetryAfterMove(r.store, n.store, j);
  }

  /** Without a new version the failure count does not fall. */
  lemma ChangeMonotone(st: Store, n: Store, c: nat)
    requires WellFormed(st) && Changes(st, n) && c < |st.credentials|
    ensures c < |n.credentials|
    ensures st.credentials[c].keyVersion <= n.credentials[c].keyVersion
    ensures st.credentials[c].keyVersion == n.credentials[c].keyVersion ==>
              st.credentials[c].failureCount <= n.credentials[c].failureCount
  {
  }

  /** The tables after each step of a run, from before the first one. */
  ghost predicate StoresOf(stores: seq<Store>, s: System, steps: seq<Step>)
    requires WellFormed(s.store)
  {
    |stores| == |steps| + 1 && forall k :: 0 <= k < |stores| ==> stores[k] == Run(s, steps[..k]).store
  }

  ghost predicate Counted(st: Store) {
    WellFormed(st) && JobsOrdered(st.jobs) && FailuresCount(st)
  }

  /** The tables at `k` count their failures, and the next ones follow by a change and count theirs. */
  ghost predicate Linked(stores: seq<Store>, k: int) {
    0 <= k < |stores| - 1 ==> Counted(stores[k]) && Changes(stores[k], stores[k + 1]) && Counted(stores[k + 1])
  }

  ghost predicate Chronicle(stores: seq<Store>) {
    forall k :: Linked(stores, k)
  }

  lemma {:induction false} TablesAreChronicle(stores: seq<Store>, s: System, steps: seq<Step>)
    requires Init(s) && StoresOf(stores, s, steps)
    ensures Chronicle(stores)
  {
    forall k ensures Linked(stores, k) {
      if 0 <= k < |stores| - 1 {
        EveryRunIsSound(s, steps[..k]);
        EveryRunIsSound(s, steps[..k + 1]);
        assert steps[..k + 1][..k] == steps[..k];
        StepChanges(Run(s, steps[..k]), steps[k]);
      }
    }
  }

  lemma {:induction false} ChronicleMonotone(stores: seq<Store>, m: nat, n: nat, c: nat)
    requires Chronicle(stores) && m <= n < |stores| && c < |stores[m].credentials|
    ensures c < |stores[n].credentials|
    ensures stores[m].credentials[c].keyVersion <= stores[n].credentials[c].keyVersion
    ensures stores[m].credentials[c].keyVersion == stores[n].credentials[c].keyVersion ==>
              stores[m].credentials[c].failureCount <= stores[n].credentials[c].failureCount
    decreases n - m
  {
    if m < n {
      ChronicleMonotone(stores, m, n - 1, c);
      assert Linked(stores, n - 1);
      ChangeMonotone(stores[n - 1], stores[n], c);
    }
  }

  /** Job `j` of credential `c` fails between two tables. */
  ghost predicate Fails(st: Store, n: Store, j: nat, c: nat) {
    && j < |st.jobs| && j < |n.jobs| && st.jobs[j].credential == c && Active(st.jobs[j]) && n.jobs[j].status == Failed
  }

  /** From the failure of job `j` to the rotation planned for credential `c`. */
  ghost predicate Delays(st: Store, j: nat, c: nat, delay: int) {
    && j < |st.jobs| && c < |st.credentials| && st.jobs[j].completedAt.Some?
    && st.credentials[c].nextRotationAt == Some(st.jobs[j].completedAt.value + delay)
  }

  lemma FailureDelay(st: Store, n: Store, j: nat, c: nat, delay: int)
    requires Counted(st) && Counted(n) && Changes(st, n) && Fails(st, n, j, c) && Delays(n, j, c, delay)
    ensures n.credentials[c].failureCount >= 1 && delay == HOUR * RetryHours(n.credentials[c].failureCount)
  {
    RetryAfterMove(st, n, j);
  }

  lemma RetryHoursGrow(m: nat, n: nat)
    requires 1 <= m <= n
    ensures 2 <= RetryHours(m) <= RetryHours(n) <= 24
  {
    RetryHoursTable(m);
    RetryHoursTable(n);
  }

  lemma LinkedFailureDelay(stores: seq<Store>, k: nat, j: nat, c: nat, delay: int)
    requires Chronicle(stores) && k + 1 < |stores|
    requires Fails(stores[k], stores[k + 1], j, c) && Delays(stores[k + 1], j, c, delay)
    ensures var count := stores[k + 1].credentials[c].failureCount; count >= 1 && delay == HOUR * RetryHours(count)
  {
    assert Linked(stores, k);
    FailureDelay(stores[k], stores[k + 1], j, c, delay);
  }

  lemma DelaysInChronicle(stores: seq<Store>, a: nat, i: nat, b: nat, j: nat, c: nat, first: int, second: int)
    requires Chronicle(stores) && a < b && b + 1 < |stores|
    requires Fails(stores[a], stores[a + 1], i, c) && Fails(stores[b], stores[b + 1], j, c)
    requires Delays(stores[a + 1], i, c, first) && Delays(stores[b + 1], j, c, second)
    requires stores[a + 1].credentials[c].keyVersion == stores[b + 1].credentials[c].keyVersion
    ensures 2 * HOUR <= first <= second <= 24 * HOUR
  {
    LinkedFailureDelay(stores, a, i, c, first);
    LinkedFailureDelay(stores, b, j, c, second);
    ChronicleMonotone(stores, a + 1, b + 1, c);
    RetryHoursGrow(stores[a + 1].credentials[c].failureCount, stores[b + 1].credentials[c].failureCount);
  }

  /** In any run, between two failures of a credential without a success of it in between, the planned delay does not shrink. */
  lemma {:induction false} RetryDelaysGrow(s: System, steps: seq<Step>, stores: seq<Store>, a: nat, i: nat, b: nat, j: nat, c: nat,
                                           first: int, second: int)
    requires Init(s) && StoresOf(stores, s, steps) && a < b < |steps|
    requires Fails(stores[a], stores[a + 1], i, c) && Fails(stores[b], stores[b + 1], j, c)
    requires Delays(stores[a + 1], i, c, first) && Delays(stores[b + 1], j, c, second)
    requires Count(stores[a + 1].jobs, SucceededFor(c)) == Count(stores[b + 1].jobs, SucceededFor(c))
    ensures 2 * HOUR <= first <= second <= 24 * HOUR
  {
    TablesAreChronicle(stores, s, steps);
    CredentialsFixed(s, steps[..a + 1]);
    VersionsCountSuccesses(s, steps[..a + 1], c);
    VersionsCountSuccesses(s, steps[..b + 1], c);
    DelaysInChronicle(stores, a, i, b, j, c, first, second);
  }

  // ----- a crashed worker -----

  /** The job is running and its worker is gone. */
  ghost predicate Orphaned(s: System, j: nat) {
    j < |s.store.jobs| && s.store.jobs[j].status == Running && j !in s.workers
  }

  /** From `s` to `n` nothing was done for the credential of job `j`: no job, no secret, no version, no failure. */
  ghost predicate Untouched(s: System, n: System, j: nat)
    requires j < |s.store.jobs|
  {
    var c := s.store.jobs[j].credential;
    && j < |n.store.jobs| && n.store.jobs[j] == s.store.jobs[j] && |s.store.jobs| <= |n.store.jobs|
    && (forall i :: |s.store.jobs| <= i < |n.store.jobs| ==> n.store.jobs[i].credential != c)
    && c < |s.store.credentials| == |n.store.credentials|
    && n.store.credentials[c] == s.store.credentials[c].(nextRotationAt := n.store.credentials[c].nextRotationAt)
    && |s.calls| <= |n.calls| && s.calls == n.calls[..|s.calls|]
    && (forall k :: |s.calls| <= k < |n.calls| ==> n.calls[k].job < |n.store.jobs| && n.store.jobs[n.calls[k].job].credential != c)
  }

  /** A change of the tables that leaves the running job alone leaves its credential alone. */
  lemma ChangeElsewhere(st: Store, n: Store, j: nat)
    requires WellFormed(st) && JobsOrdered(st.jobs) && Changes(st, n) && j < |st.jobs| && st.jobs[j].status == Running
    requires j < |n.jobs| && n.jobs[j] == st.jobs[j]
    ensures var c := st.jobs[j].credential;
            && |st.jobs| <= |n.jobs| && |st.credentials| == |n.credentials|
            && (forall i :: |st.jobs| <= i < |n.jobs| ==> n.jobs[i].credential != c)
            && n.credentials[c] == st.credentials[c].(nextRotationAt := n.credentials[c].nextRotationAt)
  {
    if i: nat :| MovesJob(st, n, i) {
      assert i != j && Active(st.jobs[i]) && Active(st.jobs[j]);
      assert st.jobs[i].credential != st.jobs[j].credential;
    } else if job :| AddsJob(st, n, job) {
      assert ActiveFor(st.jobs[j], st.jobs[j].credential);
    }
  }

  /** No step touches a running job without a worker. */
  lemma StepLeavesOrphan(s: System, step: Step, j: nat)
    requires Structure(s) && Orphaned(s, j)
    ensures Orphaned(Next(s, step), j) && Next(s, step).store.jobs[j] == s.store.jobs[j]
  {
  }

  lemma CallsElsewhere(s: System, step: Step, j: nat)
    requires Structure(s) && Orphaned(s, j)
    ensures var n := Next(s, step);
            && |s.calls| <= |n.calls| && s.calls == n.calls[..|s.calls|]
            && (forall k :: |s.calls| <= k < |n.calls| ==>
                  n.calls[k].job < |s.store.jobs| && s.store.jobs[n.calls[k].job].credential != s.store.jobs[j].credential)
  {
    if step.InvokeRemote? && InPhase(s, step.job, Prepared) {
      assert Active(s.store.jobs[step.job]) && Active(s.store.jobs[j]);
    }
  }

  lemma OrphanStepUntouched(s: System, step: Step, j: nat)
    requires Structure(s) && Orphaned(s, j)
    ensures Structure(Next(s, step)) && Orphaned(Next(s, step), j) && Untouched(s, Next(s, step), j)
  {
    StructureKept(s, step);
    StepLeavesOrphan(s, step, j);
    StepChanges(s, step);
    ChangeElsewhere(s.store, Next(s, step).store, j);
    CallsElsewhere(s, step, j);
    JobsStayWithCredential(s.store, Next(s, step).store);
  }

  lemma JobsStayWithCredential(st: Store, n: Store)
    requires Changes(st, n)
    ensures |st.jobs| <= |n.jobs| && forall i :: 0 <= i < |st.jobs| ==> n.jobs[i].credential == st.jobs[i].credential
  {
    if i: nat :| MovesJob(st, n, i) {
      assert |n.jobs| == |st.jobs|;
    }
  }

  lemma UntouchedCompose(s: System, m: System, n: System, j: nat)
    requires j < |s.store.jobs| && Untouched(s, m, j) && Untouched(m, n, j)
    requires |m.store.jobs| <= |n.store.jobs|
    requires forall i :: 0 <= i < |m.store.jobs| ==> n.store.jobs[i].credential == m.store.jobs[i].credential
    ensures Untouched(s, n, j)
  {
    assert s.calls == n.calls[..|s.calls|];
  }

  /** From then on, whatever runs, its credential is never rotated again: no job, no call, no new secret or version. */
  lemma {:induction false} OrphanBlocksCredential(s: System, steps: seq<Step>, j: nat)
    requires Structure(s) && Orphaned(s, j)
    ensures Structure(Run(s, steps)) && Orphaned(Run(s, steps), j) && Untouched(s, Run(s, steps), j)
  {
    if steps != [] {
      var before, step := Run(s, steps[..|steps| - 1]), steps[|steps| - 1];
      OrphanBlocksCredential(s, steps[..|steps| - 1], j);
      OrphanStepUntouched(before, step, j);
      StepChanges(before, step);
      JobsStayWithCredential(before.store, Next(before, step).store);
      UntouchedCompose(s, before, Next(before, step), j);
    }
  }

  lemma RunThenStep(s: System, steps: seq<Step>, step: Step)
    requires WellFormed(s.store)
    ensures Run(s, steps + [step]) == Next(Run(s, steps), step)
  {
    assert (steps + [step])[..|steps|] == steps;
  }

  ghost predicate Finished(s: System, j: nat) {
    j < |s.store.jobs| && !Active(s.store.jobs[j])
  }

  /** What a worker does next: its last step ends the job, any other brings it closer. */
  lemma WorkerGoesOn(s: System, j: nat, now: int)
    requires Structure(s) && j in s.workers
    ensures InPhase(s, j, Prepared) ==> InPhase(Next(s, InvokeRemote(j)), j, Invoked)
    ensures InPhase(s, j, Invoked) ==> InPhase(Next(s, RemoteRaises(j)), j, Raised)
    ensures InPhase(s, j, Raised) ==> Finished(Next(s, FailJob(j, now, "")), j)
    ensures InPhase(s, j, Returned) ==> Finished(Next(s, CommitJob(j, now)), j)
  {
  }

  lemma EndsInOne(s: System, steps: seq<Step>, j: nat, now: int) returns (more: seq<Step>)
    requires Structure(s) && Structure(Run(s, steps))
    requires InPhase(Run(s, steps), j, Raised) || InPhase(Run(s, steps), j, Returned)
    ensures Finished(Run(s, more), j)
  {
    var last := if Run(s, steps).workers[j].phase == Raised then FailJob(j, now, "") else CommitJob(j, now);
    WorkerGoesOn(Run(s, steps), j, now);
    RunThenStep(s, steps, last);
    more := steps + [last];
  }

  lemma EndsInTwo(s: System, steps: seq<Step>, j: nat, now: int) returns (more: seq<Step>)
    requires Structure(s) && Structure(Run(s, steps)) && InPhase(Run(s, steps), j, Invoked)
    ensures Finished(Run(s, more), j)
  {
    WorkerGoesOn(Run(s, steps), j, now);
    StructureKept(Run(s, steps), RemoteRaises(j));
    RunThenStep(s, steps, RemoteRaises(j));
    more := EndsInOne(s, steps + [RemoteRaises(j)], j, now);
  }

  lemma EndsInThree(s: System, steps: seq<Step>, j: nat, now: int) returns (more: seq<Step>)
    requires Structure(s) && Structure(Run(s, steps)) && InPhase(Run(s, steps), j, Prepared)
    ensures Finished(Run(s, more), j)
  {
    WorkerGoesOn(Run(s, steps), j, now);
    StructureKept(Run(s, steps), InvokeRemote(j));
    RunThenStep(s, steps, InvokeRemote(j));
    more := EndsInTwo(s, steps + [InvokeRemote(j)], j, now);
  }

  lemma WorkerCanFinish(s: System, j: nat) returns (more: seq<Step>)
    requires Structure(s) && j in s.workers
    ensures Finished(Run(s, more), j)
  {
    assert Run(s, []) == s;
    match s.workers[j].phase
    case Prepared => more := EndsInThree(s, [], j, 0);
    case Invoked => more := EndsInTwo(s, [], j, 0);
    case _ => more := EndsInOne(s, [], j, 0);
  }

  ghost predicate FinishedBy(s: System, more: seq<Step>, j: nat)
    requires WellFormed(s.store)
  {
    Finished(Run(s, more), j)
  }

  ghost predicate CanFinish(s: System, j: nat)
    requires WellFormed(s.store)
  {
    exists more :: FinishedBy(s, more, j)
  }

  lemma OrphanNotFinishedBy(s: System, more: seq<Step>, j: nat)
    requires Structure(s) && Orphaned(s, j)
    ensures !FinishedBy(s, more, j)
  {
    OrphanBlocksCredential(s, more, j);
  }

  lemma FinishesIffWorker(s: System, j: nat)
    requires Structure(s) && j < |s.store.jobs| && s.store.jobs[j].status == Running
    ensures CanFinish(s, j) <==> j in s.workers
  {
    if j in s.workers {
      var more := WorkerCanFinish(s, j);
      assert FinishedBy(s, more, j);
    } else {
      forall more ensures !FinishedBy(s, more, j) {
        OrphanNotFinishedBy(s, more, j);
      }
    }
  }

  /** In every run, a running job can still be finished exactly if its worker has not crashed. */
  lemma {:induction false} RunningJobFinishesIffWorker(s: System, steps: seq<Step>, j: nat)
    requires Init(s) && j < |Run(s, steps).store.jobs| && Run(s, steps).store.jobs[j].status == Running
    ensures CanFinish(Run(s, steps), j) <==> j in Run(s, steps).workers
  {
    EveryRunIsSound(s, steps);
    FinishesIffWorker(Run(s, steps), j);
  }

  /** Exactly the candidates that reach the target: usable, and different from the secret in the vault. */
  lemma PreparedCandidates(cred: Credential, a: Attempt, candidate: Secret)
    ensures Prepare(cred, a) == Ready(candidate) <==>
              && a.lookup == Found && a.decrypts && (a.hasGenerator || cred.isPassword)
              && a.generation == Produced(candidate)
              && candidate != "" && EncodedLength(candidate) <= MAX_CANDIDATE_BYTES
              && Ascii(candidate) && Ascii(cred.secret)
              && candidate != cred.secret
  {
  }
}
