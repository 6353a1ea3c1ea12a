/**
 A claim of a job that was found due in an earlier transaction. The scheduler's machine claims in the step that finds
 the job due; the code does not look again, and this says exactly which claims do no harm.
 */
module StaleClaims {
  import opened Prelude
  import opened Scheduler
  import opened SchedulerProofs
  import opened LateReports

  /** What a claim writes: the next attempt for a retry, the first one otherwise, whatever the job has become. */
  function NumberClaimed(job: Job, retry: bool): int {
    if retry then job.attempt + 1 else job.attempt
  }

  lemma ClaimWrites(cfg: Config, s: State, id: JobId, a: AttemptId, retry: bool, gone: bool)
    requires id in s.rec.jobs && s.rec.jobs[id].trigger in cfg.triggers && s.rec.jobs[id].trigger !in s.paused
    ensures
      var job, next := s.rec.jobs[id], ClaimStep(cfg, s, id, a, retry, gone).rec;
      && next.jobs.Keys == s.rec.jobs.Keys && a in next.attempts
      && next.jobs[id].attempt == NumberClaimed(job, retry) && next.jobs[id].currentAttempt == Some(a)
      && IsClaimed(next.jobs[id])
      && next.attempts == s.rec.attempts[a := next.attempts[a]]
      && next.attempts[a].job == id && next.attempts[a].number == NumberClaimed(job, retry)
  {
    hide RetryDelaySeconds;
  }

  /** A claim that is no retry, of a job that has had an attempt: two attempts get one number. */
  lemma RepeatsNumber(cfg: Config, s: State, id: JobId, a: AttemptId, gone: bool)
    requires JobsSound(cfg, s.rec) && Numbered(s.rec) && id in s.rec.jobs && a !in s.rec.attempts
    requires IsClaimed(s.rec.jobs[id]) && s.rec.jobs[id].trigger !in s.paused
    ensures !Numbered(ClaimStep(cfg, s, id, a, false, gone).rec)
  {
    hide ClaimStep;
    ClaimWrites(cfg, s, id, a, false, gone);
    var next := ClaimStep(cfg, s, id, a, false, gone).rec;
    assert HasAttempt(s.rec, id, s.rec.jobs[id].attempt);
    var b :| b in s.rec.attempts && s.rec.attempts[b].job == id && s.rec.attempts[b].number == s.rec.jobs[id].attempt;
    assert next.attempts[b] == s.rec.attempts[b];
  }

  /** A retry of a job that has had no attempt: the first number is left out. */
  lemma SkipsNumber(cfg: Config, s: State, id: JobId, a: AttemptId, gone: bool)
    requires JobsSound(cfg, s.rec) && Numbered(s.rec) && id in s.rec.jobs && a !in s.rec.attempts
    requires s.rec.jobs[id].status == Scheduled && s.rec.jobs[id].trigger !in s.paused
    ensures !Numbered(ClaimStep(cfg, s, id, a, true, gone).rec)
  {
    hide ClaimStep, NumbersUnique;
    ClaimWrites(cfg, s, id, a, true, gone);
    var next := ClaimStep(cfg, s, id, a, true, gone).rec;
    assert !HasAttempt(next, id, 1);
  }

  /** A retry of a running job: its attempt stays live, and is no longer the current one. */
  lemma LeavesLive(cfg: Config, s: State, id: JobId, a: AttemptId, gone: bool)
    requires JobsSound(cfg, s.rec) && AttemptsSound(s.rec) && id in s.rec.jobs && a !in s.rec.attempts
    requires s.rec.jobs[id].status == Running && s.rec.jobs[id].trigger !in s.paused
    ensures !AttemptsSound(ClaimStep(cfg, s, id, a, true, gone).rec)
  {
    hide ClaimStep, JobSound;
    ClaimWrites(cfg, s, id, a, true, gone);
    var b, next := s.rec.jobs[id].currentAttempt.value, ClaimStep(cfg, s, id, a, true, gone).rec;
    assert next.attempts[b] == s.rec.attempts[b];
  }

  /** Any claim of a job that is over changes it, or repeats a number. */
  lemma ReopensTerminal(cfg: Config, s: State, id: JobId, a: AttemptId, retry: bool, gone: bool)
    requires JobsSound(cfg, s.rec) && Numbered(s.rec) && id in s.rec.jobs && a !in s.rec.attempts
    requires IsTerminal(s.rec.jobs[id]) && s.rec.jobs[id].trigger !in s.paused
    ensures
      var next := ClaimStep(cfg, s, id, a, retry, gone).rec;
      !TerminalKept(s.rec, next) || !Numbered(next)
  {
    hide ClaimStep, Numbered;
    ClaimWrites(cfg, s, id, a, retry, gone);
    if !retry && IsClaimed(s.rec.jobs[id]) {
      RepeatsNumber(cfg, s, id, a, gone);
    } else {
      assert ClaimStep(cfg, s, id, a, retry, gone).rec.jobs[id] != s.rec.jobs[id];
    }
  }

  /** The check that a claim does not make: the job is still scheduled, or for a retry still waiting. */
  predicate StillClaimable(job: Job, retry: bool) {
    job.status == (if retry then RetryWait else Scheduled)
  }

  lemma ClaimKeepsTerminal(cfg: Config, s: State, id: JobId, a: AttemptId, retry: bool, gone: bool)
    requires id in s.rec.jobs && s.rec.jobs[id].trigger in cfg.triggers && !IsTerminal(s.rec.jobs[id])
    ensures TerminalKept(s.rec, ClaimStep(cfg, s, id, a, retry, gone).rec)
  {
    hide AfterFailure;
  }

  /**
   A claim of a job that was found before keeps the invariant and leaves every terminal job alone exactly when the job is
   still scheduled, or for a retry still waiting - even if its time has not come.
   */
  lemma StaleClaimKeepsIff(cfg: Config, s: State, id: JobId, a: AttemptId, retry: bool, gone: bool)
    requires Invariant(cfg, s) && id in s.rec.jobs && a !in s.rec.attempts
    requires s.rec.jobs[id].trigger in cfg.triggers && s.rec.jobs[id].trigger !in s.paused
    ensures
      var next := ClaimStep(cfg, s, id, a, retry, gone);
      Invariant(cfg, next) && TerminalKept(s.rec, next.rec) <==> StillClaimable(s.rec.jobs[id], retry)
  {
    hide ClaimStep, JobsSound, AttemptsSound, Numbered, Bounded, KeysUnique, WorkCurrent, TerminalKept;
    var job := s.rec.jobs[id];
    if StillClaimable(job, retry) {
      ClaimStepKeeps(cfg, s, id, a, retry, gone);
      ClaimKeepsTerminal(cfg, s, id, a, retry, gone);
    } else if IsTerminal(job) {
      ReopensTerminal(cfg, s, id, a, retry, gone);
    } else if !retry {
      RepeatsNumber(cfg, s, id, a, gone);
    } else if job.status == Scheduled {
      SkipsNumber(cfg, s, id, a, gone);
    } else {
      NeverLeased(cfg, s, id);
      LeavesLive(cfg, s, id, a, gone);
    }
  }

  lemma NeverLeased(cfg: Config, s: State, id: JobId)
    requires JobsSound(cfg, s.rec) && id in s.rec.jobs
    ensures s.rec.jobs[id].status != Leased
  {
  }

  /** Two passes find one job due; both claim it, and both executions are in flight on it. */
  lemma StaleClaimRunsTwice()
    ensures
      var cfg, retry := Setup(2), ClaimRetry("j", "b", false);
      && EnabledRun(cfg, Nothing(), LEASE_LOST) && Run(cfg, Nothing(), LEASE_LOST) == Lost(2)
      && Ready1(cfg, Lost(2), retry) && Enabled(cfg, Lost(2), ClaimRetry("j", "c", false))
      && var first := Step(cfg, Lost(2), retry);
      && "j" in first.rec.jobs && first.rec.jobs["j"].trigger in cfg.triggers
      && var both := ClaimStep(cfg, first, "j", "c", true, false);
      && both.work.Keys == {"b", "c"} && both.work["b"].jobId == both.work["c"].jobId == "j"
      && IsLive(both.rec.attempts["b"]) && IsLive(both.rec.attempts["c"])
  {
    hide EnabledRun, Run, Invariant, Unreported;
    LostRun(2);
    assert Lost(2).rec.jobs["j"].status == RetryWait && Lost(2).rec.jobs["j"].nextRetryAt == Some(60);
  }
}
