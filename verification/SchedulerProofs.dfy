/** What every fail-stop run of the scheduler keeps. */
module SchedulerProofs {
  import opened Prelude
  import opened Scheduler

  // ---------------------------------------------------------------------------
  // Backoff

  lemma {:induction false} Pow2Monotone(m: nat, n: nat)
    requires m <= n
    ensures Pow2(m) <= Pow2(n)
    decreases n
  {
    if m < n {
      Pow2Monotone(m, n - 1);
    }
  }

  lemma {:induction false} Pow2Exceeds(n: nat)
    ensures Pow2(n) > n
  {
    if n > 0 {
      Pow2Exceeds(n - 1);
    }
  }

  /** A delay never passes the cap, and reaches base * 2^(attempt-1) below it. */
  lemma DelayCapped(base: int, maximum: int, attempt: nat)
    requires attempt >= 1
    ensures RetryDelaySeconds(base, maximum, attempt) <= maximum
    ensures RetryDelaySeconds(base, maximum, attempt) <= base * Pow2(attempt - 1)
    ensures base * Pow2(attempt - 1) <= maximum ==> RetryDelaySeconds(base, maximum, attempt) == base * Pow2(attempt - 1)
  {
  }

  /** Delays never shrink exactly when the base is not negative. */
  lemma DelayMonotoneIff(base: int, maximum: int)
    ensures base >= 0 <==> forall m: nat, n: nat | m <= n ::
      RetryDelaySeconds(base, maximum, m) <= RetryDelaySeconds(base, maximum, n)
  {
    if base >= 0 {
      forall m: nat, n: nat | m <= n
        ensures RetryDelaySeconds(base, maximum, m) <= RetryDelaySeconds(base, maximum, n)
      {
        var i, j := if m >= 1 then m - 1 else 0, if n >= 1 then n - 1 else 0;
        Pow2Monotone(i, j);
        Scale(base, Pow2(i), Pow2(j));
      }
    } else {
      var low := (if maximum >= 0 then 0 else -maximum) + 1;
      Pow2Exceeds(low);
      NegativeShrinks(base, maximum, low);
    }
  }

  lemma Scale(base: int, a: int, b: int)
    requires base >= 0 && a <= b
    ensures base * a <= base * b
  {
  }

  lemma NegativeTimes(base: int, p: nat)
    requires base < 0
    ensures base * p <= -(p as int)
    ensures base * (2 * p) == base * p + base * p
  {
    var rest := -base - 1;
    assert base * p + p == -(rest * p);
    assert rest * p >= 0;
  }

  lemma Doubles(n: nat)
    ensures Pow2(n + 1) == 2 * Pow2(n)
  {
  }

  lemma NegativeShrinks(base: int, maximum: int, low: nat)
    requires base < 0 && Pow2(low) > low && 1 <= maximum + low
    ensures RetryDelaySeconds(base, maximum, low + 2) < RetryDelaySeconds(base, maximum, low + 1)
  {
    hide Pow2;
    var p := Pow2(low);
    Doubles(low);
    NegativeTimes(base, p);
    var first, second := base * p, base * (2 * p);
    assert second < first <= -p < maximum;
    assert RetryDelaySeconds(base, maximum, low + 1) == first;
    assert RetryDelaySeconds(base, maximum, low + 2) == second;
  }

  /** Over n retries the delays sum to at most n times the cap, and to at most base * (2^n - 1). */
  lemma {:induction false} TotalDelayBounded(base: int, maximum: int, retries: nat)
    ensures TotalDelay(base, maximum, retries) <= retries * maximum
    ensures TotalDelay(base, maximum, retries) <= base * (Pow2(retries) - 1)
  {
    if retries > 0 {
      var n := retries - 1;
      TotalDelayBounded(base, maximum, n);
      DelayCapped(base, maximum, retries);
      Distribute(base, Pow2(n));
      OneMore(n, maximum);
    }
  }

  lemma Distribute(base: int, p: int)
    ensures base * (p - 1) + base * p == base * (2 * p - 1)
  {
  }

  lemma OneMore(n: int, maximum: int)
    ensures n * maximum + maximum == (n + 1) * maximum
  {
  }

  // ---------------------------------------------------------------------------
  // Recording jobs

  function DeferredAttempts(rec: Records, id: JobId): set<AttemptId> {
    set a | a in rec.attempts && rec.attempts[a].job == id && rec.attempts[a].error == Some(PausedBeforeExecution)
  }

  lemma RecordKeeps(cfg: Config, s: State, id: JobId, job: Job)
    requires Invariant(cfg, s) && id !in s.rec.jobs
    requires job.trigger in cfg.triggers && JobSound(job) && !IsClaimed(job)
    requires job.key.OfMissed? || !HasKey(s.rec, job.key)
    ensures Invariant(cfg, s.(rec := RecordJob(s.rec, id, job)))
  {
    hide RecordJob, HasKey, JobsSound, AttemptsSound, Numbered, Bounded, KeysUnique, WorkCurrent;
    RecordAttempts(s.rec, id, job);
    RecordNumbered(s.rec, id, job);
    RecordBounded(s.rec, id, job);
    RecordRest(cfg, s, id, job);
  }

  lemma RecordAttempts(rec: Records, id: JobId, job: Job)
    requires AttemptsSound(rec) && id !in rec.jobs && !IsClaimed(job)
    ensures AttemptsSound(RecordJob(rec, id, job))
  {
  }

  lemma RecordRest(cfg: Config, s: State, id: JobId, job: Job)
    requires JobsSound(cfg, s.rec) && KeysUnique(s.rec) && WorkCurrent(s) && id !in s.rec.jobs
    requires job.trigger in cfg.triggers && JobSound(job)
    requires job.key.OfMissed? || !HasKey(s.rec, job.key)
    ensures var c := s.(rec := RecordJob(s.rec, id, job)); JobsSound(cfg, c.rec) && KeysUnique(c.rec) && WorkCurrent(c)
  {
    hide JobSound;
  }

  lemma RecordNumbered(rec: Records, id: JobId, job: Job)
    requires Numbered(rec) && id !in rec.jobs && !IsClaimed(job)
    ensures Numbered(RecordJob(rec, id, job))
  {
    var next := RecordJob(rec, id, job);
    RecordComplete(rec, id, job);
    hide NumbersComplete;
  }

  lemma RecordComplete(rec: Records, id: JobId, job: Job)
    requires NumbersComplete(rec) && id !in rec.jobs && !IsClaimed(job)
    ensures NumbersComplete(RecordJob(rec, id, job))
  {
    var next := RecordJob(rec, id, job);
    forall i, n | i in next.jobs && IsClaimed(next.jobs[i]) && 1 <= n <= next.jobs[i].attempt
      ensures HasAttempt(next, i, n)
    {
      assert HasAttempt(rec, i, n);
    }
  }

  lemma RecordBounded(rec: Records, id: JobId, job: Job)
    requires Bounded(rec) && id !in rec.jobs && job.attempt == 1 && job.status != RetryWait
    ensures Bounded(RecordJob(rec, id, job))
  {
    var next := RecordJob(rec, id, job);
    forall i
      ensures Deferrals(next, i) == Deferrals(rec, i)
    {
      assert DeferredAttempts(next, i) == DeferredAttempts(rec, i);
    }
  }

  // ---------------------------------------------------------------------------
  // Claiming

  predicate Claimable(job: Job) {
    job.status == Scheduled || job.status == RetryWait
  }

  function ClaimedState(cfg: Config, s: State, id: JobId, a: AttemptId): State
    requires id in s.rec.jobs
  {
    var w := Claimed(cfg, id, s.rec.jobs[id], a, s.owner, s.now, s.rec.jobs[id].status == RetryWait);
    s.(rec := SaveWork(s.rec, w), work := s.work[a := w])
  }

  lemma ClaimAttempts(cfg: Config, s: State, id: JobId, a: AttemptId)
    requires AttemptsSound(s.rec) && id in s.rec.jobs && Claimable(s.rec.jobs[id]) && a !in s.rec.attempts
    ensures AttemptsSound(ClaimedState(cfg, s, id, a).rec)
  {
  }

  lemma ClaimNumbered(cfg: Config, s: State, id: JobId, a: AttemptId)
    requires Numbered(s.rec) && JobsSound(cfg, s.rec)
    requires id in s.rec.jobs && Claimable(s.rec.jobs[id]) && a !in s.rec.attempts
    ensures Numbered(ClaimedState(cfg, s, id, a).rec)
  {
    var rec, next := s.rec, ClaimedState(cfg, s, id, a).rec;
    forall i, n | i in next.jobs && IsClaimed(next.jobs[i]) && 1 <= n <= next.jobs[i].attempt
      ensures HasAttempt(next, i, n)
    {
      if i == id && n == next.jobs[id].attempt {
        assert next.attempts[a].job == i && next.attempts[a].number == n;
      } else {
        assert HasAttempt(rec, i, n);
        var b :| b in rec.attempts && rec.attempts[b].job == i && rec.attempts[b].number == n;
        assert next.attempts[b] == rec.attempts[b];
      }
    }
  }

  lemma ClaimBounded(cfg: Config, s: State, id: JobId, a: AttemptId)
    requires Bounded(s.rec) && id in s.rec.jobs && Claimable(s.rec.jobs[id]) && a !in s.rec.attempts
    ensures Bounded(ClaimedState(cfg, s, id, a).rec)
  {
    var rec, next := s.rec, ClaimedState(cfg, s, id, a).rec;
    forall i
      ensures Deferrals(next, i) == Deferrals(rec, i)
    {
      assert DeferredAttempts(next, i) == DeferredAttempts(rec, i);
    }
  }

  lemma ClaimRest(cfg: Config, s: State, id: JobId, a: AttemptId)
    requires JobsSound(cfg, s.rec) && KeysUnique(s.rec) && WorkCurrent(s)
    requires id in s.rec.jobs && Claimable(s.rec.jobs[id]) && a !in s.rec.attempts
    ensures var c := ClaimedState(cfg, s, id, a); JobsSound(cfg, c.rec) && KeysUnique(c.rec) && WorkCurrent(c)
  {
  }

  lemma ClaimKeeps(cfg: Config, s: State, id: JobId, a: AttemptId)
    requires Invariant(cfg, s) && id in s.rec.jobs && Claimable(s.rec.jobs[id]) && a !in s.rec.attempts
    ensures Invariant(cfg, ClaimedState(cfg, s, id, a))
  {
    hide ClaimedState, JobsSound, AttemptsSound, Numbered, Bounded, KeysUnique, WorkCurrent;
    ClaimAttempts(cfg, s, id, a);
    ClaimNumbered(cfg, s, id, a);
    ClaimBounded(cfg, s, id, a);
    ClaimRest(cfg, s, id, a);
  }

  // ---------------------------------------------------------------------------
  // Closing an execution: success, failure, deferral

  /** How an execution may end: the job and the attempt as they are written. */
  predicate Closing(cfg: Config, w: Work, job: Job, attempt: Attempt) {
    && JobSound(job) && IsClaimed(job) && job.status != Running
    && job == w.job.(status := job.status, leaseOwner := None, leaseExpiresAt := None, nextRetryAt := job.nextRetryAt,
                     error := job.error)
    && attempt == w.attempt.(status := attempt.status, error := attempt.error) && !IsLive(attempt)
    && (job.status == RetryWait ==>
          w.job.attempt < w.job.maxAttempts || attempt.error == Some(PausedBeforeExecution))
  }

  function Closed(s: State, a: AttemptId, job: Job, attempt: Attempt): State
    requires a in s.work
  {
    s.(rec := SaveWork(s.rec, s.work[a].(job := job, attempt := attempt)), work := s.work - {a})
  }

  lemma CloseAttempts(cfg: Config, s: State, a: AttemptId, job: Job, attempt: Attempt)
    requires Invariant(cfg, s) && a in s.work && Closing(cfg, s.work[a], job, attempt)
    ensures AttemptsSound(Closed(s, a, job, attempt).rec)
  {
    hide Numbered, Bounded, KeysUnique, JobSound;
  }

  lemma CloseNumbered(cfg: Config, s: State, a: AttemptId, job: Job, attempt: Attempt)
    requires Invariant(cfg, s) && a in s.work && Closing(cfg, s.work[a], job, attempt)
    ensures Numbered(Closed(s, a, job, attempt).rec)
  {
    hide AttemptsSound, Bounded, KeysUnique, JobSound;
    var rec, next := s.rec, Closed(s, a, job, attempt).rec;
    forall i, n | i in next.jobs && IsClaimed(next.jobs[i]) && 1 <= n <= next.jobs[i].attempt
      ensures HasAttempt(next, i, n)
    {
      assert HasAttempt(rec, i, n);
      var b :| b in rec.attempts && rec.attempts[b].job == i && rec.attempts[b].number == n;
      assert next.attempts[b].job == i && next.attempts[b].number == n;
    }
  }

  lemma CloseDeferrals(cfg: Config, s: State, a: AttemptId, job: Job, attempt: Attempt, i: JobId)
    requires AttemptsSound(s.rec) && WorkCurrent(s) && a in s.work && Closing(cfg, s.work[a], job, attempt)
    ensures Deferrals(Closed(s, a, job, attempt).rec, i) ==
      Deferrals(s.rec, i) + if i == s.work[a].jobId && attempt.error == Some(PausedBeforeExecution) then 1 else 0
  {
    hide JobSound;
    var w, rec, next := s.work[a], s.rec, Closed(s, a, job, attempt).rec;
    assert a !in DeferredAttempts(rec, w.jobId);
    if i == w.jobId && attempt.error == Some(PausedBeforeExecution) {
      assert DeferredAttempts(next, i) == DeferredAttempts(rec, i) + {a};
    } else {
      assert DeferredAttempts(next, i) == DeferredAttempts(rec, i);
    }
  }

  lemma CloseBounded(cfg: Config, s: State, a: AttemptId, job: Job, attempt: Attempt)
    requires Invariant(cfg, s) && a in s.work && Closing(cfg, s.work[a], job, attempt)
    ensures Bounded(Closed(s, a, job, attempt).rec)
  {
    hide Numbered, KeysUnique, JobSound, Deferrals, AttemptsSound;
    var w, rec, next := s.work[a], s.rec, Closed(s, a, job, attempt).rec;
    forall i | i in next.jobs
      ensures next.jobs[i].attempt + (if next.jobs[i].status == RetryWait then 1 else 0)
        <= MaxOne(next.jobs[i].maxAttempts) + Deferrals(next, i)
    {
      CloseDeferrals(cfg, s, a, job, attempt, i);
    }
  }

  lemma CloseJobs(cfg: Config, s: State, a: AttemptId, job: Job, attempt: Attempt)
    requires JobsSound(cfg, s.rec) && KeysUnique(s.rec) && WorkCurrent(s)
    requires a in s.work && Closing(cfg, s.work[a], job, attempt)
    ensures var c := Closed(s, a, job, attempt); JobsSound(cfg, c.rec) && KeysUnique(c.rec)
  {
  }

  lemma CloseWork(cfg: Config, s: State, a: AttemptId, job: Job, attempt: Attempt)
    requires AttemptsSound(s.rec) && WorkCurrent(s) && a in s.work && Closing(cfg, s.work[a], job, attempt)
    ensures WorkCurrent(Closed(s, a, job, attempt))
  {
    hide Closing;
  }

  lemma CloseRest(cfg: Config, s: State, a: AttemptId, job: Job, attempt: Attempt)
    requires Invariant(cfg, s) && a in s.work && Closing(cfg, s.work[a], job, attempt)
    ensures var c := Closed(s, a, job, attempt); JobsSound(cfg, c.rec) && KeysUnique(c.rec) && WorkCurrent(c)
  {
    hide Closed, Closing, JobsSound, AttemptsSound, Numbered, Bounded, KeysUnique, WorkCurrent;
    CloseJobs(cfg, s, a, job, attempt);
    CloseWork(cfg, s, a, job, attempt);
  }

  lemma CloseKeeps(cfg: Config, s: State, a: AttemptId, job: Job, attempt: Attempt)
    requires Invariant(cfg, s) && a in s.work && Closing(cfg, s.work[a], job, attempt)
    ensures Invariant(cfg, Closed(s, a, job, attempt))
  {
    hide Closed, Closing, JobsSound, AttemptsSound, Numbered, Bounded, KeysUnique, WorkCurrent;
    CloseAttempts(cfg, s, a, job, attempt);
    CloseNumbered(cfg, s, a, job, attempt);
    CloseBounded(cfg, s, a, job, attempt);
    CloseRest(cfg, s, a, job, attempt);
  }

  // ---------------------------------------------------------------------------
  // Heartbeat and recovery

  lemma HeartbeatKeeps(cfg: Config, s: State, id: JobId, a: AttemptId, owner: string)
    requires Invariant(cfg, s)
    ensures Invariant(cfg, s.(rec := Heartbeat(cfg, s.rec, id, a, owner, s.now)))
  {
    hide Heartbeat, SameButLeases, JobsSound, AttemptsSound, Numbered, Bounded, KeysUnique, WorkCurrent;
    var next := Heartbeat(cfg, s.rec, id, a, owner, s.now);
    HeartbeatShape(cfg, s.rec, id, a, owner, s.now);
    LeasesNumbered(s.rec, next);
    LeasesBounded(s.rec, next);
    LeasesRest(cfg, s, next);
  }

  /** The records differ only in lease times. */
  predicate SameButLeases(rec: Records, next: Records) {
    && next.jobs.Keys == rec.jobs.Keys && next.attempts.Keys == rec.attempts.Keys
    && (forall i :: i in rec.jobs ==>
          next.jobs[i] == rec.jobs[i].(leaseExpiresAt := next.jobs[i].leaseExpiresAt)
          && (next.jobs[i].leaseExpiresAt.Some? <==> rec.jobs[i].leaseExpiresAt.Some?))
    && (forall b :: b in rec.attempts ==>
          next.attempts[b] == rec.attempts[b].(leaseExpiresAt := next.attempts[b].leaseExpiresAt))
  }

  lemma HeartbeatShape(cfg: Config, rec: Records, id: JobId, a: AttemptId, owner: string, now: int)
    requires JobsSound(cfg, rec)
    ensures SameButLeases(rec, Heartbeat(cfg, rec, id, a, owner, now))
  {
  }

  lemma LeasesNumbered(rec: Records, next: Records)
    requires Numbered(rec) && SameButLeases(rec, next)
    ensures Numbered(next)
  {
    hide Numbered;
    SameNumbers(rec, next);
  }

  lemma LeasesBounded(rec: Records, next: Records)
    requires Bounded(rec) && SameButLeases(rec, next)
    ensures Bounded(next)
  {
    hide Deferrals;
    SameDeferrals(rec, next);
  }

  lemma LeasesRest(cfg: Config, s: State, next: Records)
    requires JobsSound(cfg, s.rec) && AttemptsSound(s.rec) && KeysUnique(s.rec) && WorkCurrent(s)
    requires SameButLeases(s.rec, next)
    ensures JobsSound(cfg, next) && AttemptsSound(next) && KeysUnique(next) && WorkCurrent(s.(rec := next))
  {
  }

  /** Ids, numbers and claims are the same. */
  predicate SameNumbering(rec: Records, next: Records) {
    && next.jobs.Keys == rec.jobs.Keys && next.attempts.Keys == rec.attempts.Keys
    && (forall i :: i in rec.jobs ==>
          next.jobs[i].attempt == rec.jobs[i].attempt && (IsClaimed(next.jobs[i]) <==> IsClaimed(rec.jobs[i])))
    && (forall b :: b in rec.attempts ==>
          next.attempts[b].job == rec.attempts[b].job && next.attempts[b].number == rec.attempts[b].number)
  }

  lemma SameComplete(rec: Records, next: Records)
    requires NumbersComplete(rec) && SameNumbering(rec, next)
    ensures NumbersComplete(next)
  {
    forall i, n | i in next.jobs && IsClaimed(next.jobs[i]) && 1 <= n <= next.jobs[i].attempt
      ensures HasAttempt(next, i, n)
    {
      assert HasAttempt(rec, i, n);
      var b :| b in rec.attempts && rec.attempts[b].job == i && rec.attempts[b].number == n;
      assert next.attempts[b].job == i;
    }
  }

  lemma SameUnique(rec: Records, next: Records)
    requires NumbersUnique(rec) && AttemptsInRange(rec) && SameNumbering(rec, next)
    ensures NumbersUnique(next) && AttemptsInRange(next)
  {
  }

  lemma SameNumbers(rec: Records, next: Records)
    requires Numbered(rec) && SameNumbering(rec, next)
    ensures Numbered(next)
  {
    hide SameNumbering, AttemptsInRange, NumbersUnique, NumbersComplete;
    SameComplete(rec, next);
    SameUnique(rec, next);
  }

  lemma SameDeferrals(rec: Records, next: Records)
    requires next.attempts.Keys == rec.attempts.Keys
    requires forall b :: b in rec.attempts ==>
      && next.attempts[b].job == rec.attempts[b].job
      && (next.attempts[b].error == Some(PausedBeforeExecution) <==> rec.attempts[b].error == Some(PausedBeforeExecution))
    ensures forall i :: Deferrals(next, i) == Deferrals(rec, i)
  {
    forall i
      ensures Deferrals(next, i) == Deferrals(rec, i)
    {
      assert DeferredAttempts(next, i) == DeferredAttempts(rec, i);
    }
  }

  function RecoveredState(cfg: Config, s: State): State
    requires KnownTriggers(cfg, s.rec)
  {
    s.(rec := Recover(cfg, s.rec, s.now),
       work := map a | a in s.work && !(a in s.rec.attempts && OnExpired(s.rec, a, s.now)) :: s.work[a])
  }

  lemma RecoverJobs(cfg: Config, s: State)
    requires JobsSound(cfg, s.rec)
    ensures JobsSound(cfg, Recover(cfg, s.rec, s.now))
    ensures forall i :: i in s.rec.jobs ==>
      i in Recover(cfg, s.rec, s.now).jobs && !LeaseOver(Recover(cfg, s.rec, s.now).jobs[i], s.now)
    ensures forall i :: i in s.rec.jobs && !LeaseOver(s.rec.jobs[i], s.now) ==>
      Recover(cfg, s.rec, s.now).jobs[i] == s.rec.jobs[i]
  {
  }

  lemma RecoverAttempts(cfg: Config, s: State)
    requires Invariant(cfg, s)
    ensures AttemptsSound(Recover(cfg, s.rec, s.now))
  {
    hide Numbered, Bounded, KeysUnique, WorkCurrent, RetryDelaySeconds;
  }

  lemma RecoverSameNumbering(cfg: Config, rec: Records, now: int)
    requires KnownTriggers(cfg, rec)
    ensures SameNumbering(rec, Recover(cfg, rec, now))
  {
    hide RetryDelaySeconds;
  }

  lemma RecoverNumbered(cfg: Config, s: State)
    requires Invariant(cfg, s)
    ensures Numbered(Recover(cfg, s.rec, s.now))
  {
    hide Numbered, AttemptsSound, Bounded, KeysUnique, WorkCurrent, Recover, SameNumbering;
    RecoverSameNumbering(cfg, s.rec, s.now);
    SameNumbers(s.rec, Recover(cfg, s.rec, s.now));
  }

  lemma RecoverBounded(cfg: Config, s: State)
    requires Invariant(cfg, s)
    ensures Bounded(Recover(cfg, s.rec, s.now))
  {
    hide Numbered, KeysUnique, WorkCurrent, RetryDelaySeconds, Deferrals;
    forall a | a in s.rec.attempts && OnExpired(s.rec, a, s.now)
      ensures s.rec.attempts[a].error.None?
    {
      assert s.rec.jobs[s.rec.attempts[a].job].status == Running;
    }
    SameDeferrals(s.rec, Recover(cfg, s.rec, s.now));
  }

  lemma RecoverKeys(cfg: Config, rec: Records, now: int)
    requires KnownTriggers(cfg, rec) && KeysUnique(rec)
    ensures KeysUnique(Recover(cfg, rec, now))
  {
    hide RetryDelaySeconds;
  }

  /** An execution that goes on is not on an expired lease: recovery leaves its records. */
  lemma NotExpired(cfg: Config, s: State, a: AttemptId)
    requires KnownTriggers(cfg, s.rec) && AttemptsSound(s.rec) && WorkCurrent(s)
    requires a in s.work && !(a in s.rec.attempts && OnExpired(s.rec, a, s.now))
    ensures
      var next := Recover(cfg, s.rec, s.now);
      && a in next.attempts && next.attempts[a] == s.rec.attempts[a]
      && s.work[a].jobId in next.jobs && next.jobs[s.work[a].jobId] == s.rec.jobs[s.work[a].jobId]
  {
    hide AfterFailure;
    assert s.rec.attempts[a].job == s.work[a].jobId;
    assert IsLive(s.rec.attempts[a]);
  }

  lemma RecoverRest(cfg: Config, s: State)
    requires Invariant(cfg, s)
    ensures KeysUnique(Recover(cfg, s.rec, s.now)) && WorkCurrent(RecoveredState(cfg, s))
  {
    hide AttemptsSound, Numbered, Bounded, KeysUnique, Recover, OnExpired;
    RecoverKeys(cfg, s.rec, s.now);
    forall a | a in s.work && !(a in s.rec.attempts && OnExpired(s.rec, a, s.now))
      ensures
        var next := Recover(cfg, s.rec, s.now);
        && a in next.attempts && next.attempts[a] == s.rec.attempts[a]
        && s.work[a].jobId in next.jobs && next.jobs[s.work[a].jobId] == s.rec.jobs[s.work[a].jobId]
    {
      NotExpired(cfg, s, a);
    }
  }

  lemma RecoverKeeps(cfg: Config, s: State)
    requires Invariant(cfg, s)
    ensures Invariant(cfg, RecoveredState(cfg, s))
  {
    assert KnownTriggers(cfg, s.rec);
    hide Recover, JobsSound, AttemptsSound, Numbered, Bounded, KeysUnique, WorkCurrent;
    RecoverJobs(cfg, s);
    RecoverAttempts(cfg, s);
    RecoverNumbered(cfg, s);
    RecoverBounded(cfg, s);
    RecoverRest(cfg, s);
  }

  // ---------------------------------------------------------------------------
  // Steps and runs

  lemma Ready(cfg: Config, s: State)
    requires Invariant(cfg, s)
    ensures KnownTriggers(cfg, s.rec)
    ensures forall a :: a in s.work ==> s.work[a].job.trigger in cfg.triggers
  {
    hide AttemptsSound, Numbered, Bounded, KeysUnique;
  }

  lemma WorkIsSound(cfg: Config, s: State, a: AttemptId)
    requires Invariant(cfg, s) && a in s.work
    ensures s.work[a].job.trigger in cfg.triggers && s.work[a].job.attempt >= 1 && s.work[a].job.status == Running
    ensures s.work[a].attempt.error.None?
  {
    hide Numbered, Bounded, KeysUnique;
  }

  lemma FailureCloses(cfg: Config, w: Work, now: int, error: Cause, status: AttemptStatus)
    requires w.job.trigger in cfg.triggers && w.job.attempt >= 1
    requires status == AttemptFailed || status == AttemptExpired
    ensures Closing(cfg, w, AfterFailure(cfg, w.job, now, error), w.attempt.(status := status, error := Some(error)))
  {
  }

  lemma ClaimStepKeeps(cfg: Config, s: State, id: JobId, a: AttemptId, retry: bool, gone: bool)
    requires Invariant(cfg, s) && id in s.rec.jobs && a !in s.rec.attempts
    requires s.rec.jobs[id].status == (if retry then RetryWait else Scheduled)
    requires s.rec.jobs[id].trigger in cfg.triggers
    ensures Invariant(cfg, ClaimStep(cfg, s, id, a, retry, gone))
  {
    hide Invariant, AfterFailure, Closing;
    if s.rec.jobs[id].trigger !in s.paused {
      ClaimKeeps(cfg, s, id, a);
      var c := ClaimedState(cfg, s, id, a);
      if gone {
        WorkIsSound(cfg, c, a);
        FailureCloses(cfg, c.work[a], s.now, RevisionGone, AttemptFailed);
        CloseKeeps(cfg, c, a, AfterFailure(cfg, c.work[a].job, s.now, RevisionGone),
                   c.work[a].attempt.(status := AttemptFailed, error := Some(RevisionGone)));
        NoWorkYet(cfg, s, a);
        assert c.work - {a} == s.work;
      }
    }
  }

  lemma NoWorkYet(cfg: Config, s: State, a: AttemptId)
    requires Invariant(cfg, s) && a !in s.rec.attempts
    ensures a !in s.work
  {
    hide JobsSound, AttemptsSound, Numbered, Bounded, KeysUnique;
  }

  lemma EndKeeps(cfg: Config, s: State, op: Op)
    requires Invariant(cfg, s) && (op.CheckPaused? || op.Finish?) && op.attemptId in s.work
    requires KnownTriggers(cfg, s.rec) && forall a :: a in s.work ==> s.work[a].job.trigger in cfg.triggers
    ensures Invariant(cfg, Step(cfg, s, op))
  {
    hide Invariant, AfterFailure;
    var a := op.attemptId;
    var w := s.work[a];
    WorkIsSound(cfg, s, a);
    if op.CheckPaused? {
      if w.job.trigger in s.paused {
        CloseKeeps(cfg, s, a,
          w.job.(status := RetryWait, leaseOwner := None, leaseExpiresAt := None, nextRetryAt := Some(s.now),
                 error := Some(PausedBeforeExecution)),
          w.attempt.(status := AttemptExpired, error := Some(PausedBeforeExecution)));
      }
    } else if op.success {
      RunningHasNoRetry(cfg, s, a);
      CloseKeeps(cfg, s, a,
        w.job.(status := Succeeded, leaseOwner := None, leaseExpiresAt := None, error := None),
        w.attempt.(status := AttemptSucceeded));
    } else {
      FailureCloses(cfg, w, s.now, ActionFailed, AttemptFailed);
      CloseKeeps(cfg, s, a, AfterFailure(cfg, w.job, s.now, ActionFailed),
                 w.attempt.(status := AttemptFailed, error := Some(ActionFailed)));
    }
  }

  lemma RunningHasNoRetry(cfg: Config, s: State, a: AttemptId)
    requires Invariant(cfg, s) && a in s.work
    ensures s.work[a].job.nextRetryAt.None?
  {
    hide Numbered, Bounded, KeysUnique, AttemptsSound;
  }

  lemma {:induction false} StepKeeps(cfg: Config, s: State, op: Op)
    requires Invariant(cfg, s) && Enabled(cfg, s, op)
    ensures KnownTriggers(cfg, s.rec) && forall a :: a in s.work ==> s.work[a].job.trigger in cfg.triggers
    ensures Invariant(cfg, Step(cfg, s, op))
  {
    hide Invariant, Recover, Heartbeat, ClaimStep, HasKey, HasRunningJob;
    Ready(cfg, s);
    match op
    case Fire(t, key, id) =>
      if t !in s.paused && !HasKey(s.rec, key) {
        RecordKeeps(cfg, s, id, NewJob(cfg, t, key, Missed, Some(SkippedAsRunning)));
        RecordKeeps(cfg, s, id, NewJob(cfg, t, key, Scheduled, None));
      }
    case MarkMissed(t, id) =>
      RecordKeeps(cfg, s, id, NewJob(cfg, t, OfMissed(t, s.now), Missed, Some(MayHaveFired)));
    case Claim(id, a, gone) => ClaimStepKeeps(cfg, s, id, a, false, gone);
    case ClaimRetry(id, a, gone) => ClaimStepKeeps(cfg, s, id, a, true, gone);
    case CheckPaused(a) => EndKeeps(cfg, s, op);
    case Finish(a, _) => EndKeeps(cfg, s, op);
    case Beat(a) => HeartbeatKeeps(cfg, s, s.work[a].jobId, a, s.owner);
    case RecoverLeases => RecoverKeeps(cfg, s);
    case _ => ClockAndPauseKeep(cfg, s, op);
  }

  lemma ClockAndPauseKeep(cfg: Config, s: State, op: Op)
    requires Invariant(cfg, s) && (op.Tick? || op.Pause? || op.Resume? || op.Restart?)
    requires KnownTriggers(cfg, s.rec) && forall a :: a in s.work ==> s.work[a].job.trigger in cfg.triggers
    ensures Invariant(cfg, Step(cfg, s, op))
  {
    hide JobsSound, AttemptsSound, Numbered, Bounded, KeysUnique;
  }

  /** A job that has succeeded, failed or been missed is never written again. */
  lemma TerminalStays(cfg: Config, s: State, op: Op, id: JobId)
    requires Invariant(cfg, s) && Enabled(cfg, s, op)
    requires id in s.rec.jobs && IsTerminal(s.rec.jobs[id])
    ensures KnownTriggers(cfg, s.rec) && forall a :: a in s.work ==> s.work[a].job.trigger in cfg.triggers
    ensures id in Step(cfg, s, op).rec.jobs && Step(cfg, s, op).rec.jobs[id] == s.rec.jobs[id]
  {
    hide Numbered, Bounded, KeysUnique, AttemptsSound, JobSound, RetryDelaySeconds, HasKey, HasRunningJob;
    Ready(cfg, s);
    WorkIsNotOn(cfg, s, id);
  }

  lemma WorkIsNotOn(cfg: Config, s: State, id: JobId)
    requires Invariant(cfg, s) && id in s.rec.jobs && s.rec.jobs[id].status != Running
    ensures forall a :: a in s.work ==> s.work[a].jobId != id
  {
    hide Numbered, Bounded, KeysUnique, AttemptsSound, JobsSound;
  }

  ghost predicate EnabledRun(cfg: Config, s: State, ops: seq<Op>)
    decreases |ops|
  {
    ops != [] ==>
      && Enabled(cfg, s, ops[0]) && KnownTriggers(cfg, s.rec)
      && (forall a :: a in s.work ==> s.work[a].job.trigger in cfg.triggers)
      && EnabledRun(cfg, Step(cfg, s, ops[0]), ops[1..])
  }

  ghost function Run(cfg: Config, s: State, ops: seq<Op>): State
    requires EnabledRun(cfg, s, ops)
    decreases |ops|
  {
    if ops == [] then s else Run(cfg, Step(cfg, s, ops[0]), ops[1..])
  }

  /** Over every run: the invariant holds, and terminal jobs stay as they are. */
  lemma {:induction false} RunKeeps(cfg: Config, s: State, ops: seq<Op>)
    requires Invariant(cfg, s) && EnabledRun(cfg, s, ops)
    ensures Invariant(cfg, Run(cfg, s, ops))
    ensures forall id | id in s.rec.jobs && IsTerminal(s.rec.jobs[id]) ::
      id in Run(cfg, s, ops).rec.jobs && Run(cfg, s, ops).rec.jobs[id] == s.rec.jobs[id]
    decreases |ops|
  {
    hide Invariant, Step, Enabled, KnownTriggers;
    if ops != [] {
      StepKeeps(cfg, s, ops[0]);
      forall id | id in s.rec.jobs && IsTerminal(s.rec.jobs[id])
        ensures id in Step(cfg, s, ops[0]).rec.jobs && Step(cfg, s, ops[0]).rec.jobs[id] == s.rec.jobs[id]
      {
        TerminalStays(cfg, s, ops[0], id);
      }
      RunKeeps(cfg, Step(cfg, s, ops[0]), ops[1..]);
    }
  }

  lemma StartsSound(cfg: Config, owner: string, now: int)
    ensures Invariant(cfg, State(Records(map[], map[]), map[], {}, owner, now))
  {
  }

  /** After recovery no lease at or before that time remains. */
  lemma RecoveryEndsLeases(cfg: Config, s: State)
    requires Invariant(cfg, s) && KnownTriggers(cfg, s.rec)
    ensures forall id | id in s.rec.jobs ::
      var job := Recover(cfg, s.rec, s.now).jobs[id];
      job.leaseExpiresAt.Some? ==> job.leaseExpiresAt.value > s.now && job == s.rec.jobs[id]
  {
    hide Numbered, Bounded, KeysUnique, AttemptsSound, WorkCurrent, RetryDelaySeconds;
  }
}
