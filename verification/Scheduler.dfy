/**
 Jobs, attempts, leases and retries. Every block that the source runs in one transaction is one step.

 Two things are assumed here and not established by the source: a job is claimed in the step that finds it due, and an
 execution whose lease was recovered never reports afterwards (fail-stop). `LateRuns` drops both assumptions and says
 which checks take their place.
 */
module Scheduler {
  import opened Prelude

  type JobId = string
  type AttemptId = string
  type TriggerId = string

  datatype JobStatus = Scheduled | Leased | Running | RetryWait | Succeeded | Failed | Missed

  datatype AttemptStatus = AttemptLeased | AttemptRunning | AttemptSucceeded | AttemptFailed | AttemptExpired

  datatype Cause = ActionFailed | RevisionGone | LeaseExpired | PausedBeforeExecution | SkippedAsRunning | MayHaveFired

  /** The key a caller gives, or the digest of what the key is derived from. */
  datatype Key =
    | Given(text: string)
    | OfTrigger(trigger: TriggerId, input: string, scheduledAt: int)
    | OfMissed(trigger: TriggerId, missedAt: int)

  datatype Job = Job(
    trigger: TriggerId,
    status: JobStatus,
    attempt: int,
    maxAttempts: int,
    key: Key,
    nextRetryAt: Option<int>,
    leaseOwner: Option<string>,
    leaseExpiresAt: Option<int>,
    currentAttempt: Option<AttemptId>,
    error: Option<Cause>)

  datatype Attempt = Attempt(
    job: JobId,
    number: int,
    status: AttemptStatus,
    leaseOwner: string,
    leaseExpiresAt: int,
    error: Option<Cause>)

  datatype Records = Records(jobs: map<JobId, Job>, attempts: map<AttemptId, Attempt>)

  datatype Trigger = Trigger(
    maxAttempts: int,
    skipIfRunning: bool,
    baseSeconds: int,
    maxSeconds: int,
    onSchedule: bool,
    skipsMisfires: bool)

  datatype Config = Config(triggers: map<TriggerId, Trigger>, leaseSeconds: int)

  // ---------------------------------------------------------------------------
  // Backoff

  function Pow2(n: nat): (p: nat)
    ensures p >= 1
  {
    if n == 0 then 1 else 2 * Pow2(n - 1)
  }

  function RetryDelaySeconds(base: int, maximum: int, attempt: int): int {
    var delay := base * Pow2(if attempt >= 1 then attempt - 1 else 0);
    if maximum <= delay then maximum else delay
  }

  function TotalDelay(base: int, maximum: int, retries: nat): int {
    if retries == 0 then 0
    else TotalDelay(base, maximum, retries - 1) + RetryDelaySeconds(base, maximum, retries)
  }

  // ---------------------------------------------------------------------------
  // Steps on the records

  function RecordJob(rec: Records, id: JobId, job: Job): Records {
    rec.(jobs := rec.jobs[id := job])
  }

  function NewJob(cfg: Config, trigger: TriggerId, key: Key, status: JobStatus, error: Option<Cause>): Job
    requires trigger in cfg.triggers
  {
    Job(trigger, status, 1, cfg.triggers[trigger].maxAttempts, key, None, None, None, None, error)
  }

  predicate HasKey(rec: Records, key: Key) {
    exists id :: id in rec.jobs && rec.jobs[id].key == key
  }

  predicate HasRunningJob(rec: Records, trigger: TriggerId) {
    exists id :: id in rec.jobs && rec.jobs[id].trigger == trigger
              && (rec.jobs[id].status == Leased || rec.jobs[id].status == Running)
  }

  /** Trigger a revision: an existing key gives its job, an overlap may be skipped, else a job is scheduled. */
  function TriggerJob(cfg: Config, rec: Records, trigger: TriggerId, key: Key, id: JobId): Records
    requires trigger in cfg.triggers
  {
    if HasKey(rec, key) then rec
    else if cfg.triggers[trigger].skipIfRunning && HasRunningJob(rec, trigger) then
      RecordJob(rec, id, NewJob(cfg, trigger, key, Missed, Some(SkippedAsRunning)))
    else
      RecordJob(rec, id, NewJob(cfg, trigger, key, Scheduled, None))
  }

  /** What the execution that claims a job holds on to. */
  datatype Work = Work(jobId: JobId, job: Job, attemptId: AttemptId, attempt: Attempt)

  function Claimed(cfg: Config, id: JobId, current: Job, attemptId: AttemptId, owner: string, now: int, retry: bool): Work {
    var number := if retry then current.attempt + 1 else current.attempt;
    var expires := now + cfg.leaseSeconds;
    Work(
      id,
      current.(status := Running, attempt := number, leaseOwner := Some(owner), leaseExpiresAt := Some(expires),
               currentAttempt := Some(attemptId), error := None, nextRetryAt := None),
      attemptId,
      Attempt(id, number, AttemptRunning, owner, expires, None))
  }

  function SaveWork(rec: Records, w: Work): Records {
    Records(rec.jobs[w.jobId := w.job], rec.attempts[w.attemptId := w.attempt])
  }

  /** The job after a failed attempt: it waits for a retry, or has failed. */
  function AfterFailure(cfg: Config, job: Job, now: int, error: Cause): Job
    requires job.trigger in cfg.triggers
  {
    var t := cfg.triggers[job.trigger];
    if job.attempt < job.maxAttempts then
      job.(status := RetryWait, error := Some(error), leaseOwner := None, leaseExpiresAt := None,
           nextRetryAt := Some(now + RetryDelaySeconds(t.baseSeconds, t.maxSeconds, job.attempt)))
    else
      job.(status := Failed, error := Some(error), leaseOwner := None, leaseExpiresAt := None, nextRetryAt := None)
  }

  function FailOrRetry(cfg: Config, rec: Records, w: Work, now: int, error: Cause, status: AttemptStatus): Records
    requires w.job.trigger in cfg.triggers
  {
    SaveWork(rec, w.(job := AfterFailure(cfg, w.job, now, error),
                     attempt := w.attempt.(status := status, error := Some(error))))
  }

  /** Put a paused job back: it is due again at once, whatever its number of attempts. */
  function DeferPausedJob(rec: Records, w: Work, now: int): Records {
    SaveWork(rec, w.(
      job := w.job.(status := RetryWait, leaseOwner := None, leaseExpiresAt := None, nextRetryAt := Some(now),
                    error := Some(PausedBeforeExecution)),
      attempt := w.attempt.(status := AttemptExpired, error := Some(PausedBeforeExecution))))
  }

  function Succeed(rec: Records, w: Work): Records {
    SaveWork(rec, w.(
      job := w.job.(status := Succeeded, leaseOwner := None, leaseExpiresAt := None, error := None),
      attempt := w.attempt.(status := AttemptSucceeded)))
  }

  function Heartbeat(cfg: Config, rec: Records, id: JobId, attemptId: AttemptId, owner: string, now: int): Records {
    if && id in rec.jobs && attemptId in rec.attempts
       && rec.jobs[id].status == Running && rec.attempts[attemptId].status == AttemptRunning
       && rec.jobs[id].leaseOwner == Some(owner) && rec.attempts[attemptId].leaseOwner == owner
    then
      Records(rec.jobs[id := rec.jobs[id].(leaseExpiresAt := Some(now + cfg.leaseSeconds))],
              rec.attempts[attemptId := rec.attempts[attemptId].(leaseExpiresAt := now + cfg.leaseSeconds)])
    else
      rec
  }

  predicate LeaseOver(job: Job, now: int) {
    && (job.status == Leased || job.status == Running)
    && job.leaseExpiresAt.Some? && job.leaseExpiresAt.value <= now
  }

  /** `a` is the attempt that a job with an expired lease is on. */
  predicate OnExpired(rec: Records, a: AttemptId, now: int)
    requires a in rec.attempts
  {
    var id := rec.attempts[a].job;
    id in rec.jobs && LeaseOver(rec.jobs[id], now) && rec.jobs[id].currentAttempt == Some(a)
  }

  predicate KnownTriggers(cfg: Config, rec: Records) {
    forall id :: id in rec.jobs ==> rec.jobs[id].trigger in cfg.triggers
  }

  /** Fail or retry every job whose lease has run out. */
  function Recover(cfg: Config, rec: Records, now: int): Records
    requires KnownTriggers(cfg, rec)
  {
    Records(
      map id | id in rec.jobs ::
        if LeaseOver(rec.jobs[id], now) then AfterFailure(cfg, rec.jobs[id], now, LeaseExpired) else rec.jobs[id],
      map a | a in rec.attempts ::
        if OnExpired(rec, a, now) then rec.attempts[a].(status := AttemptExpired, error := Some(LeaseExpired))
        else rec.attempts[a])
  }

  // ---------------------------------------------------------------------------
  // The machine

  datatype State = State(
    rec: Records,
    work: map<AttemptId, Work>,
    paused: set<TriggerId>,
    owner: string,
    now: int)

  datatype Op =
    | Fire(trigger: TriggerId, key: Key, id: JobId)
    | MarkMissed(trigger: TriggerId, id: JobId)
    | Claim(id: JobId, attemptId: AttemptId, revisionGone: bool)
    | ClaimRetry(id: JobId, attemptId: AttemptId, revisionGone: bool)
    | CheckPaused(attemptId: AttemptId)
    | Finish(attemptId: AttemptId, success: bool)
    | Beat(attemptId: AttemptId)
    | RecoverLeases
    | Tick(seconds: nat)
    | Pause(trigger: TriggerId)
    | Resume(trigger: TriggerId)
    | Restart(newOwner: string)

  /** What the runtime can do next. Ids of new records are new. */
  predicate Enabled(cfg: Config, s: State, op: Op) {
    match op
    case Fire(t, key, id) => t in cfg.triggers && !key.OfMissed? && id !in s.rec.jobs
    case MarkMissed(t, id) => t in cfg.triggers && id !in s.rec.jobs
    case Claim(id, a, _) => id in s.rec.jobs && s.rec.jobs[id].status == Scheduled && a !in s.rec.attempts
    case ClaimRetry(id, a, _) =>
      && id in s.rec.jobs && s.rec.jobs[id].status == RetryWait && a !in s.rec.attempts
      && s.rec.jobs[id].nextRetryAt.Some? && s.rec.jobs[id].nextRetryAt.value <= s.now
    case CheckPaused(a) => a in s.work
    case Finish(a, _) => a in s.work
    case Beat(a) => a in s.work
    case _ => true
  }

  function ClaimStep(cfg: Config, s: State, id: JobId, a: AttemptId, retry: bool, revisionGone: bool): State
    requires id in s.rec.jobs && s.rec.jobs[id].trigger in cfg.triggers
  {
    if s.rec.jobs[id].trigger in s.paused then s
    else
      var w := Claimed(cfg, id, s.rec.jobs[id], a, s.owner, s.now, retry);
      if revisionGone then
        s.(rec := FailOrRetry(cfg, SaveWork(s.rec, w), w, s.now, RevisionGone, AttemptFailed))
      else
        s.(rec := SaveWork(s.rec, w), work := s.work[a := w])
  }

  function Step(cfg: Config, s: State, op: Op): State
    requires Enabled(cfg, s, op) && KnownTriggers(cfg, s.rec)
    requires forall a :: a in s.work ==> s.work[a].job.trigger in cfg.triggers
  {
    match op
    case Fire(t, key, id) => if t in s.paused then s else s.(rec := TriggerJob(cfg, s.rec, t, key, id))
    case MarkMissed(t, id) =>
      if t in s.paused then s
      else s.(rec := RecordJob(s.rec, id, NewJob(cfg, t, OfMissed(t, s.now), Missed, Some(MayHaveFired))))
    case Claim(id, a, gone) => ClaimStep(cfg, s, id, a, false, gone)
    case ClaimRetry(id, a, gone) => ClaimStep(cfg, s, id, a, true, gone)
    case CheckPaused(a) =>
      if s.work[a].job.trigger in s.paused then
        s.(rec := DeferPausedJob(s.rec, s.work[a], s.now), work := s.work - {a})
      else s
    case Finish(a, success) =>
      s.(rec := if success then Succeed(s.rec, s.work[a])
                else FailOrRetry(cfg, s.rec, s.work[a], s.now, ActionFailed, AttemptFailed),
         work := s.work - {a})
    case Beat(a) => s.(rec := Heartbeat(cfg, s.rec, s.work[a].jobId, a, s.owner, s.now))
    case RecoverLeases =>
      s.(rec := Recover(cfg, s.rec, s.now),
         work := map a | a in s.work && !(a in s.rec.attempts && OnExpired(s.rec, a, s.now)) :: s.work[a])
    case Tick(n) => s.(now := s.now + n)
    case Pause(t) => s.(paused := s.paused + {t})
    case Resume(t) => s.(paused := s.paused - {t})
    case Restart(o) => s.(work := map[], owner := o)
  }

  // ---------------------------------------------------------------------------
  // What every run keeps

  predicate IsClaimed(job: Job) {
    job.status != Scheduled && job.status != Missed
  }

  predicate IsTerminal(job: Job) {
    job.status == Succeeded || job.status == Failed || job.status == Missed
  }

  predicate IsLive(a: Attempt) {
    a.status == AttemptLeased || a.status == AttemptRunning
  }

  /**
   A job is running exactly when it holds a lease; it waits for a retry exactly when a retry time is set; it has failed
   only when its attempts are used up.
   */
  predicate JobSound(job: Job) {
    && job.attempt >= 1
    && job.status != Leased
    && (job.status == Running <==> job.leaseOwner.Some?)
    && (job.status == Running <==> job.leaseExpiresAt.Some?)
    && (job.status == RetryWait <==> job.nextRetryAt.Some?)
    && (!IsClaimed(job) ==> job.attempt == 1)
    && (job.status == Failed ==> job.attempt >= job.maxAttempts)
  }

  predicate JobsSound(cfg: Config, rec: Records) {
    forall id :: id in rec.jobs ==> rec.jobs[id].trigger in cfg.triggers && JobSound(rec.jobs[id])
  }

  /** A running job is on one live attempt, its current one; no other attempt is live. */
  predicate AttemptsSound(rec: Records) {
    && (forall id :: id in rec.jobs && rec.jobs[id].status == Running ==>
          && rec.jobs[id].currentAttempt.Some?
          && rec.jobs[id].currentAttempt.value in rec.attempts
          && var a := rec.attempts[rec.jobs[id].currentAttempt.value];
             a.job == id && IsLive(a) && a.number == rec.jobs[id].attempt)
    && (forall a :: a in rec.attempts && IsLive(rec.attempts[a]) ==>
          && rec.attempts[a].error.None?
          && rec.attempts[a].job in rec.jobs
          && rec.jobs[rec.attempts[a].job].status == Running
          && rec.jobs[rec.attempts[a].job].currentAttempt == Some(a))
  }

  predicate HasAttempt(rec: Records, id: JobId, number: int) {
    exists a :: a in rec.attempts && rec.attempts[a].job == id && rec.attempts[a].number == number
  }

  predicate AttemptsInRange(rec: Records) {
    forall a :: a in rec.attempts ==>
      && rec.attempts[a].job in rec.jobs
      && IsClaimed(rec.jobs[rec.attempts[a].job])
      && 1 <= rec.attempts[a].number <= rec.jobs[rec.attempts[a].job].attempt
  }

  predicate NumbersUnique(rec: Records) {
    forall a, b ::
      (a in rec.attempts && b in rec.attempts && rec.attempts[a].job == rec.attempts[b].job
       && rec.attempts[a].number == rec.attempts[b].number) ==> a == b
  }

  predicate NumbersComplete(rec: Records) {
    forall id, n :: id in rec.jobs && IsClaimed(rec.jobs[id]) && 1 <= n <= rec.jobs[id].attempt ==>
      HasAttempt(rec, id, n)
  }

  /** The attempts of a claimed job are numbered 1 to its attempt count, each number once; an unclaimed job has none. */
  predicate Numbered(rec: Records) {
    AttemptsInRange(rec) && NumbersUnique(rec) && NumbersComplete(rec)
  }

  /** How often a job was put back because its application was paused. */
  function Deferrals(rec: Records, id: JobId): nat {
    |set a | a in rec.attempts && rec.attempts[a].job == id && rec.attempts[a].error == Some(PausedBeforeExecution)|
  }

  function MaxOne(n: int): int {
    if n >= 1 then n else 1
  }

  /** Attempts are at most the allowed number plus the deferrals; a waiting job has one to spare. */
  predicate Bounded(rec: Records) {
    forall id :: id in rec.jobs ==>
      rec.jobs[id].attempt + (if rec.jobs[id].status == RetryWait then 1 else 0)
        <= MaxOne(rec.jobs[id].maxAttempts) + Deferrals(rec, id)
  }

  /** At most one job for a key. Jobs that only note a missed firing are not looked up by key. */
  predicate KeysUnique(rec: Records) {
    forall i, j :: i in rec.jobs && j in rec.jobs && rec.jobs[i].key == rec.jobs[j].key && !rec.jobs[i].key.OfMissed?
      ==> i == j
  }

  /** An execution in flight holds its job as stored, but for the lease time. */
  predicate WorkCurrent(s: State) {
    forall a :: a in s.work ==>
      var w := s.work[a];
      && w.attemptId == a && w.attempt.job == w.jobId && w.job.status == Running && w.job.leaseExpiresAt.Some?
      && a in s.rec.attempts && w.jobId in s.rec.jobs
      && IsLive(s.rec.attempts[a])
      && s.rec.attempts[a] == w.attempt.(leaseExpiresAt := s.rec.attempts[a].leaseExpiresAt)
      && s.rec.jobs[w.jobId] == w.job.(leaseExpiresAt := s.rec.jobs[w.jobId].leaseExpiresAt)
  }

  ghost predicate Invariant(cfg: Config, s: State) {
    && JobsSound(cfg, s.rec)
    && AttemptsSound(s.rec)
    && Numbered(s.rec)
    && Bounded(s.rec)
    && KeysUnique(s.rec)
    && WorkCurrent(s)
  }
}
