/**
 An execution that writes late, from the copies it has kept, when its lease was recovered meanwhile. The scheduler's
 machine leaves that out; this says exactly which late writes do no harm.
 */
module LateReports {
  import opened Prelude
  import opened Scheduler
  import opened SchedulerProofs

  /** How an execution ends: by its outcome, or because it finds its application paused before it has begun. */
  datatype End = Success | Failure | Deferral

  /** The last transaction of an execution, on whatever the records have become. */
  function LateFinish(cfg: Config, s: State, w: Work, end: End): State
    requires w.job.trigger in cfg.triggers
  {
    var rec :=
      match end
      case Success => Succeed(s.rec, w)
      case Failure => FailOrRetry(cfg, s.rec, w, s.now, ActionFailed, AttemptFailed)
      case Deferral => DeferPausedJob(s.rec, w, s.now);
    s.(rec := rec, work := s.work - {w.attemptId})
  }

  /** A heartbeat of an execution, on whatever the records have become. */
  function LateBeat(cfg: Config, s: State, w: Work): State {
    s.(rec := Heartbeat(cfg, s.rec, w.jobId, w.attemptId, w.attempt.leaseOwner, s.now))
  }

  /** What every execution holds: a running job on this very attempt. */
  predicate CopySound(w: Work) {
    && w.job.status == Running && w.job.attempt >= 1
    && w.job.leaseOwner.Some? && w.job.leaseExpiresAt.Some? && w.job.nextRetryAt.None?
    && w.job.currentAttempt == Some(w.attemptId)
    && w.attempt.job == w.jobId && w.attempt.number == w.job.attempt && IsLive(w.attempt) && w.attempt.error.None?
  }

  /** The stored job is the one of the copy, or one that recovery, and perhaps another claim, made of it. */
  predicate JobFrom(w: Work, job: Job) {
    && job.trigger == w.job.trigger && job.maxAttempts == w.job.maxAttempts && job.key == w.job.key
    && IsClaimed(job)
    && (job.currentAttempt == Some(w.attemptId) ==>
          && job.attempt == w.job.attempt
          && (job.status == Running || ((job.status == RetryWait || job.status == Failed) && job.error == Some(LeaseExpired))))
    && (job.currentAttempt != Some(w.attemptId) ==> job.attempt > w.job.attempt)
  }

  /** The stored attempt is the one of the copy, or the same after recovery. */
  predicate AttemptFrom(w: Work, attempt: Attempt) {
    || attempt == w.attempt.(leaseExpiresAt := attempt.leaseExpiresAt)
    || attempt == w.attempt.(leaseExpiresAt := attempt.leaseExpiresAt, status := AttemptExpired, error := Some(LeaseExpired))
  }

  /** The copy of an execution that has not reported yet. */
  predicate Unreported(cfg: Config, s: State, w: Work) {
    && CopySound(w) && w.job.trigger in cfg.triggers
    && w.jobId in s.rec.jobs && JobFrom(w, s.rec.jobs[w.jobId])
    && w.attemptId in s.rec.attempts && AttemptFrom(w, s.rec.attempts[w.attemptId])
  }

  /** The check that the last transaction does not make: the job is still on this attempt, and not over. */
  predicate StillCurrent(s: State, w: Work) {
    && w.jobId in s.rec.jobs
    && s.rec.jobs[w.jobId].currentAttempt == Some(w.attemptId) && !IsTerminal(s.rec.jobs[w.jobId])
  }

  predicate TerminalKept(rec: Records, next: Records) {
    forall id :: id in rec.jobs && IsTerminal(rec.jobs[id]) ==> id in next.jobs && next.jobs[id] == rec.jobs[id]
  }

  // ---------------------------------------------------------------------------
  // Copies over a run

  lemma HeldIsUnreported(cfg: Config, s: State, a: AttemptId)
    requires Invariant(cfg, s) && a in s.work
    ensures Unreported(cfg, s, s.work[a])
  {
    hide Numbered, Bounded, KeysUnique;
  }

  predicate Reports(op: Op, a: AttemptId) {
    (op.Finish? || op.CheckPaused?) && op.attemptId == a
  }

  /** An execution that is held and the copy: on one attempt, or on different jobs or attempts. */
  lemma OtherWork(cfg: Config, s: State, a: AttemptId, w: Work)
    requires Invariant(cfg, s) && a in s.work && Unreported(cfg, s, w) && a != w.attemptId
    requires s.work[a].jobId == w.jobId
    ensures s.rec.jobs[w.jobId].currentAttempt == Some(a) && s.rec.jobs[w.jobId].attempt > w.job.attempt
    ensures s.work[a].job == s.rec.jobs[w.jobId].(leaseExpiresAt := s.work[a].job.leaseExpiresAt)
  {
    hide Numbered, Bounded, KeysUnique, JobsSound;
  }

  lemma EndOfOther(cfg: Config, s: State, op: Op, w: Work)
    requires Invariant(cfg, s) && Unreported(cfg, s, w) && (op.Finish? || op.CheckPaused?) && op.attemptId in s.work
    requires op.attemptId != w.attemptId && KnownTriggers(cfg, s.rec)
    requires forall a :: a in s.work ==> s.work[a].job.trigger in cfg.triggers
    ensures Unreported(cfg, Step(cfg, s, op), w)
  {
    hide Invariant, RetryDelaySeconds;
    WorkIds(cfg, s, op.attemptId);
    if s.work[op.attemptId].jobId == w.jobId {
      OtherWork(cfg, s, op.attemptId, w);
    }
  }

  lemma WorkIds(cfg: Config, s: State, a: AttemptId)
    requires Invariant(cfg, s) && a in s.work
    ensures s.work[a].attemptId == a
  {
    hide JobsSound, AttemptsSound, Numbered, Bounded, KeysUnique;
  }

  lemma ClaimOfOther(cfg: Config, s: State, id: JobId, a: AttemptId, retry: bool, gone: bool, w: Work)
    requires Unreported(cfg, s, w) && id in s.rec.jobs && a !in s.rec.attempts
    requires s.rec.jobs[id].trigger in cfg.triggers && s.rec.jobs[id].status == (if retry then RetryWait else Scheduled)
    ensures Unreported(cfg, ClaimStep(cfg, s, id, a, retry, gone), w)
  {
    hide RetryDelaySeconds;
  }

  lemma RecoveryOfCopy(cfg: Config, s: State, w: Work)
    requires Invariant(cfg, s) && Unreported(cfg, s, w) && KnownTriggers(cfg, s.rec)
    ensures Unreported(cfg, s.(rec := Recover(cfg, s.rec, s.now)), w)
  {
    hide Numbered, Bounded, KeysUnique, WorkCurrent, RetryDelaySeconds;
  }

  lemma BeatOfCopy(cfg: Config, s: State, id: JobId, a: AttemptId, owner: string, w: Work)
    requires Unreported(cfg, s, w)
    ensures Unreported(cfg, s.(rec := Heartbeat(cfg, s.rec, id, a, owner, s.now)), w)
  {
  }

  lemma NewJobs(cfg: Config, s: State, id: JobId, job: Job, w: Work)
    requires Unreported(cfg, s, w) && id !in s.rec.jobs
    ensures Unreported(cfg, s.(rec := RecordJob(s.rec, id, job)), w)
  {
  }

  lemma SameRecords(cfg: Config, s: State, c: State, w: Work)
    requires Unreported(cfg, s, w) && c.rec == s.rec
    ensures Unreported(cfg, c, w)
  {
  }

  lemma StepKeepsCopy(cfg: Config, s: State, op: Op, w: Work)
    requires Invariant(cfg, s) && Enabled(cfg, s, op) && Unreported(cfg, s, w) && !Reports(op, w.attemptId)
    requires KnownTriggers(cfg, s.rec) && forall a :: a in s.work ==> s.work[a].job.trigger in cfg.triggers
    ensures Unreported(cfg, Step(cfg, s, op), w)
  {
    hide Invariant, Unreported, Recover, Heartbeat, ClaimStep, HasKey, HasRunningJob;
    var c := Step(cfg, s, op);
    match op
    case Fire(t, key, id) =>
      if t !in s.paused && !HasKey(s.rec, key) {
        NewJobs(cfg, s, id, NewJob(cfg, t, key, Missed, Some(SkippedAsRunning)), w);
        NewJobs(cfg, s, id, NewJob(cfg, t, key, Scheduled, None), w);
      }
    case MarkMissed(t, id) =>
      NewJobs(cfg, s, id, NewJob(cfg, t, OfMissed(t, s.now), Missed, Some(MayHaveFired)), w);
    case Claim(id, a, gone) => ClaimOfOther(cfg, s, id, a, false, gone, w);
    case ClaimRetry(id, a, gone) => ClaimOfOther(cfg, s, id, a, true, gone, w);
    case CheckPaused(a) => EndOfOther(cfg, s, op, w);
    case Finish(a, _) => EndOfOther(cfg, s, op, w);
    case Beat(a) => BeatOfCopy(cfg, s, s.work[a].jobId, a, s.owner, w);
    case RecoverLeases =>
      RecoveryOfCopy(cfg, s, w);
      SameRecords(cfg, s.(rec := Recover(cfg, s.rec, s.now)), c, w);
    case _ => SameRecords(cfg, s, c, w);
  }

  /** However a run goes on, a copy stays that of an unreported execution until its execution reports. */
  lemma {:induction false} CopyStays(cfg: Config, s: State, ops: seq<Op>, w: Work)
    requires Invariant(cfg, s) && EnabledRun(cfg, s, ops) && Unreported(cfg, s, w)
    requires forall k :: 0 <= k < |ops| ==> !Reports(ops[k], w.attemptId)
    ensures Invariant(cfg, Run(cfg, s, ops)) && Unreported(cfg, Run(cfg, s, ops), w)
    decreases |ops|
  {
    hide Invariant, Step, Enabled, KnownTriggers, Unreported, Reports;
    if ops != [] {
      StepKeeps(cfg, s, ops[0]);
      StepKeepsCopy(cfg, s, ops[0], w);
      CopyStays(cfg, Step(cfg, s, ops[0]), ops[1..], w);
    }
  }

  // ---------------------------------------------------------------------------
  // Writing a copy back

  /** The state in which the execution would still hold its copy. */
  function Reinstated(s: State, w: Work): State {
    s.(rec := SaveWork(s.rec, w), work := s.work[w.attemptId := w])
  }

  lemma ReinstatedNumbers(cfg: Config, s: State, w: Work)
    requires Invariant(cfg, s) && Unreported(cfg, s, w) && StillCurrent(s, w)
    ensures Numbered(Reinstated(s, w).rec) && Bounded(Reinstated(s, w).rec)
  {
    hide Numbered, JobsSound, AttemptsSound, KeysUnique, WorkCurrent, Deferrals;
    SameNumbers(s.rec, Reinstated(s, w).rec);
    SameDeferrals(s.rec, Reinstated(s, w).rec);
  }

  lemma ReinstatedAttempts(cfg: Config, s: State, w: Work)
    requires JobsSound(cfg, s.rec) && AttemptsSound(s.rec) && Unreported(cfg, s, w) && StillCurrent(s, w)
    ensures AttemptsSound(Reinstated(s, w).rec)
  {
  }

  lemma ReinstatedJobs(cfg: Config, s: State, w: Work)
    requires JobsSound(cfg, s.rec) && KeysUnique(s.rec) && Unreported(cfg, s, w)
    ensures JobsSound(cfg, Reinstated(s, w).rec) && KeysUnique(Reinstated(s, w).rec)
  {
  }

  lemma ReinstatedWork(cfg: Config, s: State, w: Work)
    requires AttemptsSound(s.rec) && WorkCurrent(s) && Unreported(cfg, s, w) && StillCurrent(s, w)
    ensures WorkCurrent(Reinstated(s, w))
  {
  }

  lemma ReinstateKeeps(cfg: Config, s: State, w: Work)
    requires Invariant(cfg, s) && Unreported(cfg, s, w) && StillCurrent(s, w)
    ensures Invariant(cfg, Reinstated(s, w))
  {
    hide JobsSound, AttemptsSound, Numbered, Bounded, KeysUnique, WorkCurrent, Unreported, StillCurrent, Reinstated;
    ReinstatedNumbers(cfg, s, w);
    ReinstatedAttempts(cfg, s, w);
    ReinstatedJobs(cfg, s, w);
    ReinstatedWork(cfg, s, w);
  }

  /** The job and the attempt that an end writes. */
  function EndOf(cfg: Config, w: Work, now: int, end: End): (Job, Attempt)
    requires w.job.trigger in cfg.triggers
  {
    match end
    case Success =>
      (w.job.(status := Succeeded, leaseOwner := None, leaseExpiresAt := None, error := None),
       w.attempt.(status := AttemptSucceeded))
    case Failure =>
      (AfterFailure(cfg, w.job, now, ActionFailed), w.attempt.(status := AttemptFailed, error := Some(ActionFailed)))
    case Deferral =>
      (w.job.(status := RetryWait, leaseOwner := None, leaseExpiresAt := None, nextRetryAt := Some(now),
              error := Some(PausedBeforeExecution)),
       w.attempt.(status := AttemptExpired, error := Some(PausedBeforeExecution)))
  }

  lemma EndCloses(cfg: Config, s: State, w: Work, end: End)
    requires CopySound(w) && w.job.trigger in cfg.triggers
    ensures
      var (job, attempt) := EndOf(cfg, w, s.now, end);
      && Closing(cfg, w, job, attempt)
      && LateFinish(cfg, s, w, end) ==
           s.(rec := SaveWork(s.rec, w.(job := job, attempt := attempt)), work := s.work - {w.attemptId})
  {
  }

  lemma CopyParts(cfg: Config, s: State, w: Work)
    requires Unreported(cfg, s, w)
    ensures CopySound(w) && w.job.trigger in cfg.triggers
  {
  }

  /** A late end on a job that is still on the attempt, and not over, is an ordinary one. */
  lemma CurrentReportKeeps(cfg: Config, s: State, w: Work, end: End)
    requires Invariant(cfg, s) && Unreported(cfg, s, w) && StillCurrent(s, w)
    ensures Invariant(cfg, LateFinish(cfg, s, w, end)) && TerminalKept(s.rec, LateFinish(cfg, s, w, end).rec)
  {
    hide Invariant, Unreported, CopySound, EndOf, Closing, LateFinish, Reinstated;
    CopyParts(cfg, s, w);
    EndCloses(cfg, s, w, end);
    var (job, attempt) := EndOf(cfg, w, s.now, end);
    ReinstateKeeps(cfg, s, w);
    Rewritten(s, w, job, attempt);
    CloseKeeps(cfg, Reinstated(s, w), w.attemptId, job, attempt);
  }

  lemma Rewritten(s: State, w: Work, job: Job, attempt: Attempt)
    ensures w.attemptId in Reinstated(s, w).work && Reinstated(s, w).work[w.attemptId] == w
    ensures Closed(Reinstated(s, w), w.attemptId, job, attempt)
      == s.(rec := SaveWork(s.rec, w.(job := job, attempt := attempt)), work := s.work - {w.attemptId})
  {
    var c := Reinstated(s, w);
    assert c.work - {w.attemptId} == s.work - {w.attemptId};
    assert c.rec.jobs[w.jobId := job] == s.rec.jobs[w.jobId := job];
    assert c.rec.attempts[w.attemptId := attempt] == s.rec.attempts[w.attemptId := attempt];
  }

  /** On a job that is over, or on another attempt, a late report does harm. */
  lemma OtherReportBreaks(cfg: Config, s: State, w: Work, end: End)
    requires Invariant(cfg, s) && Unreported(cfg, s, w) && !StillCurrent(s, w)
    ensures !AttemptsInRange(LateFinish(cfg, s, w, end).rec) || !TerminalKept(s.rec, LateFinish(cfg, s, w, end).rec)
  {
    hide JobsSound, AttemptsSound, Bounded, KeysUnique, WorkCurrent, AttemptsInRange, NumbersUnique;
    var job, next := s.rec.jobs[w.jobId], LateFinish(cfg, s, w, end);
    if IsTerminal(job) {
      assert next.rec.jobs[w.jobId] != job;
    } else {
      assert HasAttempt(s.rec, w.jobId, job.attempt);
      var b :| b in s.rec.attempts && s.rec.attempts[b].job == w.jobId && s.rec.attempts[b].number == job.attempt;
      TooHigh(next.rec, b, w.jobId);
    }
  }

  lemma TooHigh(rec: Records, b: AttemptId, id: JobId)
    requires b in rec.attempts && rec.attempts[b].job == id && id in rec.jobs && rec.attempts[b].number > rec.jobs[id].attempt
    ensures !AttemptsInRange(rec)
  {
  }

  /**
   A late end - a success, a failure or a deferral - keeps the invariant and leaves every terminal job alone exactly
   when the job is still on the attempt that reports and is not over. The code does not check this.
   */
  lemma LateReportKeepsIff(cfg: Config, s: State, w: Work, end: End)
    requires Invariant(cfg, s) && Unreported(cfg, s, w)
    ensures
      (Invariant(cfg, LateFinish(cfg, s, w, end)) && TerminalKept(s.rec, LateFinish(cfg, s, w, end).rec))
        <==> StillCurrent(s, w)
    ensures StillCurrent(s, w) <==>
      (var next := LateFinish(cfg, s, w, end).rec;
       JobsSound(cfg, next) && AttemptsSound(next) && Numbered(next) && TerminalKept(s.rec, next))
  {
    hide JobsSound, AttemptsSound, Bounded, KeysUnique, WorkCurrent, Unreported, StillCurrent, LateFinish, TerminalKept,
      AttemptsInRange, NumbersUnique, NumbersComplete;
    CopyParts(cfg, s, w);
    if StillCurrent(s, w) {
      CurrentReportKeeps(cfg, s, w, end);
    } else {
      OtherReportBreaks(cfg, s, w, end);
    }
  }

  // ---------------------------------------------------------------------------
  // Other copies, and heartbeats

  /** A late end that passes this check leaves the copies of the other executions what they are. */
  lemma OtherCopyStays(cfg: Config, s: State, w: Work, v: Work, end: End)
    requires Unreported(cfg, s, w) && Unreported(cfg, s, v) && StillCurrent(s, v) && v.attemptId != w.attemptId
    ensures Unreported(cfg, LateFinish(cfg, s, v, end), w)
  {
  }

  /** A late heartbeat needs no check of its own: it reads the records, and does nothing to an attempt that is over. */
  lemma LateBeatKeeps(cfg: Config, s: State, w: Work)
    requires Invariant(cfg, s) && Unreported(cfg, s, w)
    ensures Invariant(cfg, LateBeat(cfg, s, w)) && TerminalKept(s.rec, LateBeat(cfg, s, w).rec)
    ensures !StillCurrent(s, w) ==> LateBeat(cfg, s, w) == s
  {
    hide Invariant;
    HeartbeatKeeps(cfg, s, w.jobId, w.attemptId, w.attempt.leaseOwner);
    if !StillCurrent(s, w) {
      OverIsNotLive(cfg, s, w);
    }
  }

  lemma OverIsNotLive(cfg: Config, s: State, w: Work)
    requires Invariant(cfg, s) && Unreported(cfg, s, w) && !StillCurrent(s, w)
    ensures !IsLive(s.rec.attempts[w.attemptId])
  {
    hide JobsSound, Numbered, Bounded, KeysUnique, WorkCurrent;
  }

  // ---------------------------------------------------------------------------
  // A run in which a late report does harm

  function Setup(maxAttempts: int): Config {
    Config(map["t" := Trigger(maxAttempts, false, 0, 0, false, false)], 60)
  }

  function Nothing(): State {
    State(Records(map[], map[]), map[], {}, "owner", 0)
  }

  function Fired(maxAttempts: int): Job {
    Job("t", Scheduled, 1, maxAttempts, Given("k"), None, None, None, None, None)
  }

  function Held(maxAttempts: int): Work {
    Claimed(Setup(maxAttempts), "j", Fired(maxAttempts), "a", "owner", 0, false)
  }

  /** A job is fired and claimed, its lease runs out, and recovery takes the job from the execution. */
  const LEASE_LOST := [Fire("t", Given("k"), "j"), Claim("j", "a", false), Tick(60), RecoverLeases]

  function Lost(maxAttempts: int): State {
    State(Records(map["j" := AfterFailure(Setup(maxAttempts), Held(maxAttempts).job, 60, LeaseExpired)],
                  map["a" := Held(maxAttempts).attempt.(status := AttemptExpired, error := Some(LeaseExpired))]),
          map[], {}, "owner", 60)
  }

  function AfterFire(maxAttempts: int): State {
    Nothing().(rec := Records(map["j" := Fired(maxAttempts)], map[]))
  }

  function AfterClaim(maxAttempts: int, now: int): State {
    var w := Held(maxAttempts);
    State(Records(map["j" := w.job], map["a" := w.attempt]), map["a" := w], {}, "owner", now)
  }

  lemma FireThenClaim(maxAttempts: int)
    ensures
      var cfg, s1 := Setup(maxAttempts), AfterFire(maxAttempts);
      && Ready1(cfg, Nothing(), LEASE_LOST[0]) && Step(cfg, Nothing(), LEASE_LOST[0]) == s1
      && Ready1(cfg, s1, LEASE_LOST[1]) && Step(cfg, s1, LEASE_LOST[1]) == AfterClaim(maxAttempts, 0)
  {
    hide RetryDelaySeconds;
    var s1, s2, w := AfterFire(maxAttempts), AfterClaim(maxAttempts, 0), Held(maxAttempts);
    assert Nothing().rec.jobs["j" := Fired(maxAttempts)] == s1.rec.jobs;
    assert SaveWork(s1.rec, w) == s2.rec;
    assert s1.work["a" := w] == s2.work;
  }

  lemma TickThenRecover(maxAttempts: int)
    ensures
      var cfg, s2, s3 := Setup(maxAttempts), AfterClaim(maxAttempts, 0), AfterClaim(maxAttempts, 60);
      && Ready1(cfg, s2, LEASE_LOST[2]) && Step(cfg, s2, LEASE_LOST[2]) == s3
      && Ready1(cfg, s3, LEASE_LOST[3]) && Step(cfg, s3, LEASE_LOST[3]) == Lost(maxAttempts)
  {
    hide AfterFailure;
    var cfg, s3, s4 := Setup(maxAttempts), AfterClaim(maxAttempts, 60), Lost(maxAttempts);
    assert OnExpired(s3.rec, "a", 60) && LeaseOver(s3.rec.jobs["j"], 60);
    assert Recover(cfg, s3.rec, 60).jobs == s4.rec.jobs && Recover(cfg, s3.rec, 60).attempts == s4.rec.attempts;
    assert Step(cfg, s3, LEASE_LOST[3]).work == map[];
  }

  lemma LostRun(maxAttempts: int)
    ensures EnabledRun(Setup(maxAttempts), Nothing(), LEASE_LOST)
    ensures Run(Setup(maxAttempts), Nothing(), LEASE_LOST) == Lost(maxAttempts)
    ensures Unreported(Setup(maxAttempts), Lost(maxAttempts), Held(maxAttempts))
    ensures Invariant(Setup(maxAttempts), Lost(maxAttempts))
  {
    hide EnabledRun, Run, Invariant, Unreported, Step, Enabled, KnownTriggers, Lost, Held, Setup;
    var cfg, w := Setup(maxAttempts), Held(maxAttempts);
    var s0, s1, s2 := Nothing(), AfterFire(maxAttempts), AfterClaim(maxAttempts, 0);
    var s3, s4 := AfterClaim(maxAttempts, 60), Lost(maxAttempts);
    FireThenClaim(maxAttempts);
    TickThenRecover(maxAttempts);
    FourSteps(cfg, s0, s1, s2, s3, s4, LEASE_LOST);
    HeldIds(maxAttempts);
    StartsSound(cfg, "owner", 0);
    StepKeeps(cfg, s0, LEASE_LOST[0]);
    StepKeeps(cfg, s1, LEASE_LOST[1]);
    HeldIsUnreported(cfg, s2, "a");
    StepKeeps(cfg, s2, LEASE_LOST[2]);
    StepKeepsCopy(cfg, s2, LEASE_LOST[2], w);
    StepKeeps(cfg, s3, LEASE_LOST[3]);
    StepKeepsCopy(cfg, s3, LEASE_LOST[3], w);
  }

  lemma HeldIds(maxAttempts: int)
    ensures Held(maxAttempts).attemptId == "a" && AfterClaim(maxAttempts, 0).work["a"] == Held(maxAttempts)
  {
  }

  lemma FourSteps(cfg: Config, s0: State, s1: State, s2: State, s3: State, s4: State, ops: seq<Op>)
    requires |ops| == 4
    requires Ready1(cfg, s0, ops[0]) && Step(cfg, s0, ops[0]) == s1 && Ready1(cfg, s1, ops[1]) && Step(cfg, s1, ops[1]) == s2
    requires Ready1(cfg, s2, ops[2]) && Step(cfg, s2, ops[2]) == s3 && Ready1(cfg, s3, ops[3]) && Step(cfg, s3, ops[3]) == s4
    ensures EnabledRun(cfg, s0, ops) && Run(cfg, s0, ops) == s4
  {
    hide Step, Enabled, KnownTriggers;
    var o1, o2, o3 := ops[1..], ops[2..], ops[3..];
    assert o1[1..] == o2 && o2[1..] == o3 && o3[1..] == [];
    assert EnabledRun(cfg, s4, []) && Run(cfg, s4, []) == s4;
    assert EnabledRun(cfg, s3, o3) && Run(cfg, s3, o3) == s4;
    assert EnabledRun(cfg, s2, o2) && Run(cfg, s2, o2) == s4;
    assert EnabledRun(cfg, s1, o1) && Run(cfg, s1, o1) == s4;
  }

  predicate Ready1(cfg: Config, s: State, op: Op) {
    Enabled(cfg, s, op) && KnownTriggers(cfg, s.rec) && forall a :: a in s.work ==> s.work[a].job.trigger in cfg.triggers
  }

  /** With one attempt allowed recovery fails the job, and the late report of success reopens it. */
  lemma LateReportReopens()
    ensures
      var cfg, end := Setup(1), Lost(1);
      && EnabledRun(cfg, Nothing(), LEASE_LOST) && Run(cfg, Nothing(), LEASE_LOST) == end
      && Unreported(cfg, end, Held(1)) && end.rec.jobs["j"].status == Failed
      && LateFinish(cfg, end, Held(1), Success).rec.jobs["j"].status == Succeeded
  {
    hide EnabledRun, Run, Invariant, Unreported;
    LostRun(1);
  }

  /** So does a late deferral, whose application was paused meanwhile: the failed job waits for a retry again. */
  lemma LateDeferralReopens()
    ensures
      var cfg, end := Setup(1), Lost(1);
      && EnabledRun(cfg, Nothing(), LEASE_LOST) && Run(cfg, Nothing(), LEASE_LOST) == end
      && Unreported(cfg, end, Held(1)) && end.rec.jobs["j"].status == Failed
      && LateFinish(cfg, end, Held(1), Deferral).rec.jobs["j"].status == RetryWait
      && !TerminalKept(end.rec, LateFinish(cfg, end, Held(1), Deferral).rec)
  {
    hide EnabledRun, Run, Invariant, Unreported;
    LostRun(1);
    assert IsTerminal(Lost(1).rec.jobs["j"]);
  }

  /** With two attempts the job is claimed again, and the late report takes it from the execution that is on it. */
  lemma LateReportTakesOver()
    ensures
      var cfg, retry := Setup(2), ClaimRetry("j", "b", false);
      && EnabledRun(cfg, Nothing(), LEASE_LOST) && Run(cfg, Nothing(), LEASE_LOST) == Lost(2)
      && Ready1(cfg, Lost(2), retry)
      && var end := Step(cfg, Lost(2), retry);
      && Unreported(cfg, end, Held(2)) && "b" in end.work && end.rec.jobs["j"].currentAttempt == Some("b")
      && var late := LateFinish(cfg, end, Held(2), Success);
      && late.rec.jobs["j"].status == Succeeded && late.rec.jobs["j"].attempt == 1
      && IsLive(late.rec.attempts["b"]) && late.rec.attempts["b"].number == 2
      && !AttemptsSound(late.rec) && !Numbered(late.rec)
  {
    hide EnabledRun, Run, Invariant, Unreported, Numbered, AttemptsSound;
    var cfg, retry, w := Setup(2), ClaimRetry("j", "b", false), Held(2);
    LostRun(2);
    assert Lost(2).rec.jobs["j"].status == RetryWait && Lost(2).rec.jobs["j"].nextRetryAt == Some(60);
    StepKeepsCopy(cfg, Lost(2), retry, w);
    var late := LateFinish(cfg, Step(cfg, Lost(2), retry), w, Success);
    NotOnJob(late.rec, "b", "j");
    TooHigh(late.rec, "b", "j");
    assert !Numbered(late.rec) by {
      NumberedInRange(late.rec);
    }
  }

  lemma NumberedInRange(rec: Records)
    ensures Numbered(rec) ==> AttemptsInRange(rec)
  {
  }

  lemma NotOnJob(rec: Records, b: AttemptId, id: JobId)
    requires b in rec.attempts && IsLive(rec.attempts[b]) && rec.attempts[b].job == id && id in rec.jobs
    requires rec.jobs[id].status != Running
    ensures !AttemptsSound(rec)
  {
  }
}
