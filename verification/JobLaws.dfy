/** What the steps of the scheduler mean for a job: when it is made, due, leased, retried and given up. */
module JobLaws {
  import opened Prelude
  import opened Scheduler
  import opened SchedulerProofs
  import LateReports

  predicate OthersKept(rec: Records, next: Records, id: JobId, a: AttemptId) {
    && (forall j :: j in rec.jobs && j != id ==> j in next.jobs && next.jobs[j] == rec.jobs[j])
    && (forall j :: j in next.jobs && j != id ==> j in rec.jobs)
    && (forall b :: b in rec.attempts && b != a ==> b in next.attempts && next.attempts[b] == rec.attempts[b])
    && (forall b :: b in next.attempts && b != a ==> b in rec.attempts)
  }

  // ---------------------------------------------------------------------------
  // Firing

  /** Some stored job of the trigger is leased or running. */
  predicate Overlaps(rec: Records, trigger: TriggerId) {
    exists j :: j in rec.jobs && rec.jobs[j].trigger == trigger && rec.jobs[j].status in {Leased, Running}
  }

  /** One job was added for a firing: missed when the trigger skips overlaps and overlaps, scheduled otherwise. */
  predicate OneJobAdded(cfg: Config, rec: Records, next: Records, trigger: TriggerId, key: Key, id: JobId)
    requires trigger in cfg.triggers
  {
    && next.attempts == rec.attempts && next.jobs.Keys == rec.jobs.Keys + {id}
    && (forall j :: j in rec.jobs ==> next.jobs[j] == rec.jobs[j])
    && var job := next.jobs[id];
       && job.trigger == trigger && job.key == key && job.attempt == 1
       && job.maxAttempts == cfg.triggers[trigger].maxAttempts
       && job.status == (if cfg.triggers[trigger].skipIfRunning && Overlaps(rec, trigger) then Missed else Scheduled)
       && job.error == (if job.status == Missed then Some(SkippedAsRunning) else None)
       && job.leaseOwner.None? && job.leaseExpiresAt.None? && job.nextRetryAt.None? && job.currentAttempt.None?
  }

  predicate KeyTaken(rec: Records, key: Key) {
    exists j :: j in rec.jobs && rec.jobs[j].key == key
  }

  /** Firing a trigger with a new key adds one job, and nothing else; a key that some job has changes nothing. */
  lemma FiringAdds(cfg: Config, rec: Records, trigger: TriggerId, key: Key, id: JobId)
    requires trigger in cfg.triggers && id !in rec.jobs
    ensures KeyTaken(rec, key) ==> TriggerJob(cfg, rec, trigger, key, id) == rec
    ensures !KeyTaken(rec, key) ==> OneJobAdded(cfg, rec, TriggerJob(cfg, rec, trigger, key, id), trigger, key, id)
  {
    assert HasRunningJob(rec, trigger) <==> Overlaps(rec, trigger);
  }

  /** The machine's firing, of a trigger whose application is not paused; while it is paused, nothing happens. */
  lemma FireStep(cfg: Config, s: State, trigger: TriggerId, key: Key, id: JobId)
    requires Enabled(cfg, s, Fire(trigger, key, id)) && KnownTriggers(cfg, s.rec)
    requires forall a :: a in s.work ==> s.work[a].job.trigger in cfg.triggers
    ensures
      var next := Step(cfg, s, Fire(trigger, key, id));
      && next == s.(rec := next.rec)
      && (trigger in s.paused || KeyTaken(s.rec, key) ==> next == s)
      && (trigger !in s.paused && !KeyTaken(s.rec, key) ==> OneJobAdded(cfg, s.rec, next.rec, trigger, key, id))
  {
    FiringAdds(cfg, s.rec, trigger, key, id);
  }

  /** Noting a missed firing adds one missed job, unless its application is paused. */
  lemma MarkMissedStep(cfg: Config, s: State, trigger: TriggerId, id: JobId)
    requires Enabled(cfg, s, MarkMissed(trigger, id)) && KnownTriggers(cfg, s.rec)
    requires forall a :: a in s.work ==> s.work[a].job.trigger in cfg.triggers
    ensures
      var next := Step(cfg, s, MarkMissed(trigger, id));
      && next == s.(rec := next.rec)
      && (trigger in s.paused ==> next == s)
      && (trigger !in s.paused ==>
            && next.rec.attempts == s.rec.attempts && next.rec.jobs.Keys == s.rec.jobs.Keys + {id}
            && (forall j :: j in s.rec.jobs ==> next.rec.jobs[j] == s.rec.jobs[j])
            && next.rec.jobs[id].status == Missed && next.rec.jobs[id].error == Some(MayHaveFired)
            && next.rec.jobs[id].trigger == trigger && next.rec.jobs[id].key == OfMissed(trigger, s.now))
  {
  }

  // ---------------------------------------------------------------------------
  // Claims and leases

  /** The job and the attempt of an execution that was just claimed. */
  predicate JustClaimed(cfg: Config, s: State, next: State, id: JobId, a: AttemptId, retry: bool)
    requires id in s.rec.jobs
  {
    && OthersKept(s.rec, next.rec, id, a) && id in next.rec.jobs && a in next.rec.attempts && a in next.work
    && next.work == s.work[a := next.work[a]]
    && var job, attempt, before := next.rec.jobs[id], next.rec.attempts[a], s.rec.jobs[id];
       && job.status == Running && attempt.status == AttemptRunning && job.currentAttempt == Some(a)
       && job.attempt == attempt.number == before.attempt + (if retry then 1 else 0) && attempt.job == id
       && job.leaseOwner == Some(s.owner) && attempt.leaseOwner == s.owner
       && job.error.None? && attempt.error.None? && job.nextRetryAt.None?
       && job.trigger == before.trigger && job.key == before.key && job.maxAttempts == before.maxAttempts
       && next.work[a] == Work(id, job, a, attempt)
  }

  /**
   A claim: nothing while the application is paused; else the job runs on a new attempt under the runtime's lease. If its
   revision is gone it is given up or retried at once, and no execution starts.
   */
  lemma ClaimStarts(cfg: Config, s: State, id: JobId, a: AttemptId, retry: bool, gone: bool)
    requires id in s.rec.jobs && a !in s.rec.attempts && s.rec.jobs[id].trigger in cfg.triggers
    ensures
      var next := ClaimStep(cfg, s, id, a, retry, gone);
      && next == s.(rec := next.rec, work := next.work)
      && (s.rec.jobs[id].trigger in s.paused ==> next == s)
      && (s.rec.jobs[id].trigger !in s.paused && !gone ==> JustClaimed(cfg, s, next, id, a, retry))
      && (s.rec.jobs[id].trigger !in s.paused && gone ==>
            && next.work == s.work && OthersKept(s.rec, next.rec, id, a)
            && id in next.rec.jobs && a in next.rec.attempts
            && next.rec.jobs[id].status in {RetryWait, Failed} && next.rec.jobs[id].error == Some(RevisionGone)
            && next.rec.attempts[a].status == AttemptFailed && next.rec.attempts[a].error == Some(RevisionGone))
  {
    hide RetryDelaySeconds;
  }

  predicate LeaseEnds(rec: Records, id: JobId, a: AttemptId, at: int) {
    && id in rec.jobs && a in rec.attempts
    && rec.jobs[id].leaseExpiresAt == Some(at) && rec.attempts[a].leaseExpiresAt == at
  }

  /** A lease ends so many seconds after the claim. */
  lemma ClaimLeases(cfg: Config, s: State, id: JobId, a: AttemptId, retry: bool)
    requires id in s.rec.jobs && a !in s.rec.attempts && s.rec.jobs[id].trigger in cfg.triggers
    requires s.rec.jobs[id].trigger !in s.paused
    ensures LeaseEnds(ClaimStep(cfg, s, id, a, retry, false).rec, id, a, s.now + cfg.leaseSeconds)
  {
  }

  /** A heartbeat counts exactly when job and attempt run under the lease of the runtime that sends it. */
  predicate BeatCounts(rec: Records, id: JobId, a: AttemptId, owner: string) {
    && id in rec.jobs && rec.jobs[id].status == Running && rec.jobs[id].leaseOwner == Some(owner)
    && a in rec.attempts && rec.attempts[a].status == AttemptRunning && rec.attempts[a].leaseOwner == owner
  }

  /** A heartbeat that counts moves the end of both leases, and nothing else; any other one changes nothing. */
  lemma BeatExtendsIff(cfg: Config, rec: Records, id: JobId, a: AttemptId, owner: string, now: int)
    ensures
      var next := Heartbeat(cfg, rec, id, a, owner, now);
      && (!BeatCounts(rec, id, a, owner) ==> next == rec)
      && (BeatCounts(rec, id, a, owner) ==>
            && LeaseEnds(next, id, a, now + cfg.leaseSeconds) && OthersKept(rec, next, id, a)
            && next.jobs[id] == rec.jobs[id].(leaseExpiresAt := next.jobs[id].leaseExpiresAt)
            && next.attempts[a] == rec.attempts[a].(leaseExpiresAt := next.attempts[a].leaseExpiresAt))
  {
  }

  /** A heartbeat of an execution that has lost its lease counts by the same rule, and changes the records alone. */
  lemma LateBeatExtendsIff(cfg: Config, s: State, w: Work)
    ensures
      var next, owner := LateReports.LateBeat(cfg, s, w), w.attempt.leaseOwner;
      && next == s.(rec := next.rec)
      && (!BeatCounts(s.rec, w.jobId, w.attemptId, owner) ==> next == s)
      && (BeatCounts(s.rec, w.jobId, w.attemptId, owner) ==>
            && LeaseEnds(next.rec, w.jobId, w.attemptId, s.now + cfg.leaseSeconds)
            && OthersKept(s.rec, next.rec, w.jobId, w.attemptId))
  {
    BeatExtendsIff(cfg, s.rec, w.jobId, w.attemptId, w.attempt.leaseOwner, s.now);
  }

  /**
   Recovery takes the jobs whose lease has ended by then, those and no others: each waits for a retry or has failed, and
   its attempt has expired.
   */
  lemma RecoveryTakesIff(cfg: Config, s: State, id: JobId)
    requires Invariant(cfg, s) && KnownTriggers(cfg, s.rec) && id in s.rec.jobs
    ensures
      var next, job := Recover(cfg, s.rec, s.now), s.rec.jobs[id];
      && id in next.jobs
      && (next.jobs[id] != job <==> job.leaseExpiresAt.Some? && job.leaseExpiresAt.value <= s.now)
      && (next.jobs[id] != job ==>
            && next.jobs[id].status in {RetryWait, Failed} && next.jobs[id].error == Some(LeaseExpired)
            && job.currentAttempt.Some? && job.currentAttempt.value in next.attempts
            && next.attempts[job.currentAttempt.value].status == AttemptExpired
            && next.attempts[job.currentAttempt.value].error == Some(LeaseExpired))
  {
    hide Numbered, Bounded, KeysUnique, WorkCurrent, RetryDelaySeconds;
  }

  /** An attempt that no job with an ended lease is on stays as it is. */
  lemma RecoveryLeavesAttempts(cfg: Config, rec: Records, now: int, a: AttemptId)
    requires KnownTriggers(cfg, rec) && a in rec.attempts
    requires forall id :: id in rec.jobs && rec.jobs[id].currentAttempt == Some(a) ==> !LeaseOver(rec.jobs[id], now)
    ensures a in Recover(cfg, rec, now).attempts && Recover(cfg, rec, now).attempts[a] == rec.attempts[a]
  {
    hide AfterFailure;
  }

  // ---------------------------------------------------------------------------
  // Ends and retries

  lemma Power(n: nat)
    ensures Pow2(0) == 1 && Pow2(n + 1) == 2 * Pow2(n)
  {
  }

  /** The delay before retry number n: the base, doubled n - 1 times, and at most the cap. */
  function Delay(base: int, maximum: int, n: nat): int
    requires n >= 1
  {
    var doubled := Doubled(base, n - 1);
    if doubled < maximum then doubled else maximum
  }

  function Doubled(base: int, times: nat): int {
    if times == 0 then base else Doubled(base, times - 1) + Doubled(base, times - 1)
  }

  lemma {:induction false} DoubledIs(base: int, times: nat)
    ensures Doubled(base, times) == base * Pow2(times)
  {
    if times > 0 {
      DoubledIs(base, times - 1);
      NegativeOrNot(base, Pow2(times - 1));
    }
  }

  lemma NegativeOrNot(base: int, p: nat)
    ensures base * p + base * p == base * (2 * p)
  {
  }

  lemma DelayIs(base: int, maximum: int, n: nat)
    requires n >= 1
    ensures RetryDelaySeconds(base, maximum, n) == Delay(base, maximum, n)
  {
    DoubledIs(base, n - 1);
  }

  /** What an end leaves of an execution's job and attempt, and of all else. */
  predicate EndsAs(rec: Records, next: Records, w: Work, status: JobStatus, attemptStatus: AttemptStatus,
                   error: Option<Cause>) {
    && OthersKept(rec, next, w.jobId, w.attemptId) && w.jobId in next.jobs && w.attemptId in next.attempts
    && var job, attempt := next.jobs[w.jobId], next.attempts[w.attemptId];
       && job.status == status && job.error == error && job.leaseOwner.None? && job.leaseExpiresAt.None?
       && job == w.job.(status := job.status, error := job.error, leaseOwner := None, leaseExpiresAt := None,
                        nextRetryAt := job.nextRetryAt)
       && attempt == w.attempt.(status := attemptStatus, error := attempt.error)
  }

  /**
   A failed execution is due again exactly when an attempt is left, and the delay of its attempt number after the
   failure; without one, its job has failed. The delay is capped and doubles with each attempt.
   */
  lemma FailureIsRetriedIff(cfg: Config, rec: Records, w: Work, now: int, error: Cause, status: AttemptStatus)
    requires w.job.trigger in cfg.triggers && w.job.attempt >= 1
    ensures
      var next, t := FailOrRetry(cfg, rec, w, now, error, status), cfg.triggers[w.job.trigger];
      var left := w.job.attempt < w.job.maxAttempts;
      && EndsAs(rec, next, w, if left then RetryWait else Failed, status, Some(error))
      && next.attempts[w.attemptId].error == Some(error)
      && next.jobs[w.jobId].nextRetryAt ==
           if left then Some(now + Delay(t.baseSeconds, t.maxSeconds, w.job.attempt)) else None
  {
    hide RetryDelaySeconds, Delay;
    DelayIs(cfg.triggers[w.job.trigger].baseSeconds, cfg.triggers[w.job.trigger].maxSeconds, w.job.attempt);
  }

  /** A recovered job is due again by the same rule. */
  lemma RecoveryIsRetriedIff(cfg: Config, s: State, id: JobId)
    requires Invariant(cfg, s) && KnownTriggers(cfg, s.rec) && id in s.rec.jobs && LeaseOver(s.rec.jobs[id], s.now)
    ensures
      var job, next := s.rec.jobs[id], Recover(cfg, s.rec, s.now).jobs[id];
      var t := cfg.triggers[job.trigger];
      && (next.status == RetryWait <==> job.attempt < job.maxAttempts)
      && next.nextRetryAt == (if job.attempt < job.maxAttempts
                              then Some(s.now + Delay(t.baseSeconds, t.maxSeconds, job.attempt)) else None)
      && next.attempt == job.attempt && next.trigger == job.trigger && next.key == job.key
      && next.maxAttempts == job.maxAttempts && next.leaseOwner.None? && next.leaseExpiresAt.None?
  {
    hide AttemptsSound, Numbered, Bounded, KeysUnique, WorkCurrent, RetryDelaySeconds, Delay;
    var job := s.rec.jobs[id];
    DelayIs(cfg.triggers[job.trigger].baseSeconds, cfg.triggers[job.trigger].maxSeconds, job.attempt);
  }

  lemma SuccessEnds(rec: Records, w: Work)
    ensures EndsAs(rec, Succeed(rec, w), w, Succeeded, AttemptSucceeded, None)
    ensures Succeed(rec, w).attempts[w.attemptId].error == w.attempt.error
    ensures Succeed(rec, w).jobs[w.jobId].nextRetryAt == w.job.nextRetryAt
  {
  }

  /** A deferred job is due again at once, however many attempts it has had. */
  lemma DeferralIsDue(rec: Records, w: Work, now: int)
    ensures EndsAs(rec, DeferPausedJob(rec, w, now), w, RetryWait, AttemptExpired, Some(PausedBeforeExecution))
    ensures DeferPausedJob(rec, w, now).jobs[w.jobId].nextRetryAt == Some(now)
    ensures DeferPausedJob(rec, w, now).attempts[w.attemptId].error == Some(PausedBeforeExecution)
  {
  }

  /** A waiting job can be claimed exactly from its retry time on. */
  lemma RetryDueIff(cfg: Config, s: State, id: JobId, a: AttemptId)
    requires Invariant(cfg, s) && id in s.rec.jobs && a !in s.rec.attempts
    ensures Enabled(cfg, s, ClaimRetry(id, a, false)) <==>
      s.rec.jobs[id].nextRetryAt.Some? && s.rec.jobs[id].nextRetryAt.value <= s.now
    ensures Enabled(cfg, s, Claim(id, a, false)) <==> s.rec.jobs[id].status == Scheduled
  {
    hide AttemptsSound, Numbered, Bounded, KeysUnique, WorkCurrent;
  }

  /** An execution ends by its outcome; before it starts it is put back exactly when its application is paused. */
  lemma EndSteps(cfg: Config, s: State, a: AttemptId, success: bool)
    requires a in s.work && KnownTriggers(cfg, s.rec)
    requires forall b :: b in s.work ==> s.work[b].job.trigger in cfg.triggers
    ensures
      var w, finished, checked := s.work[a], Step(cfg, s, Finish(a, success)), Step(cfg, s, CheckPaused(a));
      && finished == s.(rec := finished.rec, work := s.work - {a})
      && finished.rec == (if success then Succeed(s.rec, w) else FailOrRetry(cfg, s.rec, w, s.now, ActionFailed, AttemptFailed))
      && (w.job.trigger !in s.paused ==> checked == s)
      && (w.job.trigger in s.paused ==>
            checked == s.(rec := DeferPausedJob(s.rec, w, s.now), work := s.work - {a}))
  {
    hide Succeed, FailOrRetry, DeferPausedJob;
  }

  /** Time passes, applications are paused and resumed, and a restart forgets the executions: no record changes. */
  lemma QuietSteps(cfg: Config, s: State, n: nat, t: TriggerId, owner: string)
    requires KnownTriggers(cfg, s.rec) && forall a :: a in s.work ==> s.work[a].job.trigger in cfg.triggers
    ensures Step(cfg, s, Tick(n)) == s.(now := s.now + n)
    ensures forall u :: u in Step(cfg, s, Pause(t)).paused <==> u in s.paused || u == t
    ensures forall u :: u in Step(cfg, s, Resume(t)).paused <==> u in s.paused && u != t
    ensures Step(cfg, s, Restart(owner)) == s.(work := map[], owner := owner)
    ensures Step(cfg, s, Pause(t)) == s.(paused := Step(cfg, s, Pause(t)).paused)
    ensures Step(cfg, s, Resume(t)) == s.(paused := Step(cfg, s, Resume(t)).paused)
  {
  }

  /** A heartbeat of an execution in flight counts until its lease is recovered, when its runtime is the one in charge. */
  lemma BeatStep(cfg: Config, s: State, a: AttemptId)
    requires WorkCurrent(s) && a in s.work && KnownTriggers(cfg, s.rec)
    requires forall b :: b in s.work ==> s.work[b].job.trigger in cfg.triggers
    requires s.work[a].attempt.leaseOwner == s.owner && s.work[a].job.leaseOwner == Some(s.owner)
    requires s.work[a].attempt.status == AttemptRunning
    ensures LeaseEnds(Step(cfg, s, Beat(a)).rec, s.work[a].jobId, a, s.now + cfg.leaseSeconds)
  {
  }
}
