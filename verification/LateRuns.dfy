/** Runs of the scheduler with late ends, late heartbeats and stale claims. */
module LateRuns {
  import opened Prelude
  import opened Scheduler
  import opened SchedulerProofs
  import opened LateReports
  import opened StaleClaims

  /** The machine, and the copies that executions have kept though the machine has dropped them. */
  datatype Wide = Wide(s: State, kept: map<AttemptId, Work>)

  datatype Event =
    | Plain(op: Op)
    | EndLate(attemptId: AttemptId, end: End)
    | BeatLate(attemptId: AttemptId)
    | ClaimLate(id: JobId, claimId: AttemptId, retry: bool, revisionGone: bool)

  ghost predicate Sound(cfg: Config, k: Wide) {
    && Invariant(cfg, k.s)
    && forall a :: a in k.kept ==> a !in k.s.work && k.kept[a].attemptId == a && Unreported(cfg, k.s, k.kept[a])
  }

  predicate Typed(cfg: Config, k: Wide) {
    && KnownTriggers(cfg, k.s.rec)
    && (forall a :: a in k.s.work ==> k.s.work[a].job.trigger in cfg.triggers)
    && (forall a :: a in k.kept ==> k.kept[a].job.trigger in cfg.triggers)
  }

  predicate Possible(cfg: Config, k: Wide, e: Event) {
    && Typed(cfg, k)
    && match e
       case Plain(op) => Enabled(cfg, k.s, op)
       case EndLate(a, _) => a in k.kept
       case BeatLate(a) => a in k.kept
       case ClaimLate(id, a, _, _) => id in k.s.rec.jobs && a !in k.s.rec.attempts
  }

  /** The executions that a step drops before they have reported. */
  function Dropped(s: State, next: State, op: Op): map<AttemptId, Work> {
    map a | a in s.work && a !in next.work && !Reports(op, a) :: s.work[a]
  }

  /** What happens; an event that is not possible does not. */
  function Next(cfg: Config, k: Wide, e: Event): Wide {
    if !Possible(cfg, k, e) then k
    else
      match e
      case Plain(op) =>
        var next := Step(cfg, k.s, op);
        Wide(next, k.kept + Dropped(k.s, next, op))
      case EndLate(a, end) => Wide(LateFinish(cfg, k.s, k.kept[a], end), k.kept - {a})
      case BeatLate(a) => Wide(LateBeat(cfg, k.s, k.kept[a]), k.kept)
      case ClaimLate(id, a, retry, gone) => Wide(ClaimStep(cfg, k.s, id, a, retry, gone), k.kept)
  }

  /** The two checks that the code does not make. */
  predicate Passes(cfg: Config, k: Wide, e: Event)
    requires Possible(cfg, k, e)
  {
    match e
    case EndLate(a, _) => StillCurrent(k.s, k.kept[a])
    case ClaimLate(id, _, retry, _) =>
      k.s.rec.jobs[id].trigger in k.s.paused || StillClaimable(k.s.rec.jobs[id], retry)
    case _ => true
  }

  predicate Checked(cfg: Config, k: Wide, e: Event) {
    Possible(cfg, k, e) ==> Passes(cfg, k, e)
  }

  // ---------------------------------------------------------------------------
  // One event

  lemma NewWork(cfg: Config, s: State, op: Op, b: AttemptId)
    requires Enabled(cfg, s, op) && KnownTriggers(cfg, s.rec)
    requires forall a :: a in s.work ==> s.work[a].job.trigger in cfg.triggers
    requires b in Step(cfg, s, op).work && b !in s.work
    ensures b !in s.rec.attempts
  {
    hide Recover, Heartbeat, TriggerJob, RecordJob;
  }

  lemma KeptIsStored(cfg: Config, k: Wide, b: AttemptId)
    requires Sound(cfg, k) && b in k.kept
    ensures b in k.s.rec.attempts && b !in k.s.work && k.kept[b].attemptId == b && Unreported(cfg, k.s, k.kept[b])
  {
    hide Invariant;
  }

  lemma ReportsOwn(cfg: Config, s: State, op: Op, b: AttemptId)
    requires Enabled(cfg, s, op) && b !in s.work
    ensures !Reports(op, b)
  {
  }

  lemma PlainKeeps(cfg: Config, k: Wide, op: Op)
    requires Sound(cfg, k) && Possible(cfg, k, Plain(op))
    ensures Sound(cfg, Next(cfg, k, Plain(op))) && TerminalKept(k.s.rec, Next(cfg, k, Plain(op)).s.rec)
  {
    hide Step, Invariant, Unreported, Enabled, KnownTriggers, Reports;
    StepKeeps(cfg, k.s, op);
    var s, next := k.s, Next(cfg, k, Plain(op));
    forall b | b in next.kept
      ensures b !in next.s.work && next.kept[b].attemptId == b && Unreported(cfg, next.s, next.kept[b])
    {
      if b in s.work {
        HeldIsUnreported(cfg, s, b);
        WorkIds(cfg, s, b);
        assert b !in k.kept;
      } else {
        KeptIsStored(cfg, k, b);
        ReportsOwn(cfg, s, op, b);
        if b in next.s.work {
          NewWork(cfg, s, op, b);
        }
      }
      StepKeepsCopy(cfg, s, op, next.kept[b]);
    }
    forall id | id in s.rec.jobs && IsTerminal(s.rec.jobs[id])
      ensures id in next.s.rec.jobs && next.s.rec.jobs[id] == s.rec.jobs[id]
    {
      TerminalStays(cfg, s, op, id);
    }
  }

  lemma EndLateKeeps(cfg: Config, k: Wide, a: AttemptId, end: End)
    requires Sound(cfg, k) && Possible(cfg, k, EndLate(a, end)) && StillCurrent(k.s, k.kept[a])
    ensures Sound(cfg, Next(cfg, k, EndLate(a, end))) && TerminalKept(k.s.rec, Next(cfg, k, EndLate(a, end)).s.rec)
  {
    hide LateFinish, Invariant, Unreported, StillCurrent, KnownTriggers;
    KeptIsStored(cfg, k, a);
    CurrentReportKeeps(cfg, k.s, k.kept[a], end);
    NoNewWork(cfg, k.s, k.kept[a], end);
    forall b | b in k.kept && b != a
      ensures Unreported(cfg, LateFinish(cfg, k.s, k.kept[a], end), k.kept[b])
    {
      OtherCopyStays(cfg, k.s, k.kept[b], k.kept[a], end);
    }
  }

  lemma NoNewWork(cfg: Config, s: State, w: Work, end: End)
    requires w.job.trigger in cfg.triggers
    ensures LateFinish(cfg, s, w, end).work == s.work - {w.attemptId}
  {
  }

  lemma BeatLateKeeps(cfg: Config, k: Wide, a: AttemptId)
    requires Sound(cfg, k) && Possible(cfg, k, BeatLate(a))
    ensures Sound(cfg, Next(cfg, k, BeatLate(a))) && TerminalKept(k.s.rec, Next(cfg, k, BeatLate(a)).s.rec)
  {
    hide Heartbeat, Invariant, Unreported, KnownTriggers;
    LateBeatKeeps(cfg, k.s, k.kept[a]);
    forall b | b in k.kept
      ensures Unreported(cfg, LateBeat(cfg, k.s, k.kept[a]), k.kept[b])
    {
      BeatOfCopy(cfg, k.s, k.kept[a].jobId, k.kept[a].attemptId, k.kept[a].attempt.leaseOwner, k.kept[b]);
    }
  }

  lemma ClaimLateKeeps(cfg: Config, k: Wide, id: JobId, a: AttemptId, retry: bool, gone: bool)
    requires Sound(cfg, k) && Possible(cfg, k, ClaimLate(id, a, retry, gone))
    requires k.s.rec.jobs[id].trigger !in k.s.paused && StillClaimable(k.s.rec.jobs[id], retry)
    ensures Sound(cfg, Next(cfg, k, ClaimLate(id, a, retry, gone)))
    ensures TerminalKept(k.s.rec, Next(cfg, k, ClaimLate(id, a, retry, gone)).s.rec)
  {
    hide ClaimStep, Invariant, Unreported;
    StaleClaimKeepsIff(cfg, k.s, id, a, retry, gone);
    ClaimedWork(cfg, k.s, id, a, retry, gone);
    forall b | b in k.kept
      ensures Unreported(cfg, ClaimStep(cfg, k.s, id, a, retry, gone), k.kept[b]) && b != a
    {
      KeptIsStored(cfg, k, b);
      ClaimOfOther(cfg, k.s, id, a, retry, gone, k.kept[b]);
    }
  }

  lemma ClaimedWork(cfg: Config, s: State, id: JobId, a: AttemptId, retry: bool, gone: bool)
    requires id in s.rec.jobs && s.rec.jobs[id].trigger in cfg.triggers
    ensures ClaimStep(cfg, s, id, a, retry, gone).work.Keys <= s.work.Keys + {a}
  {
    hide AfterFailure;
  }

  lemma PausedClaim(cfg: Config, k: Wide, e: Event)
    requires e.ClaimLate? && Possible(cfg, k, e) && k.s.rec.jobs[e.id].trigger in k.s.paused
    ensures Next(cfg, k, e) == k
  {
  }

  lemma SameIsKept(rec: Records)
    ensures TerminalKept(rec, rec)
  {
  }

  lemma CheckedKeeps(cfg: Config, k: Wide, e: Event)
    requires Sound(cfg, k) && Checked(cfg, k, e)
    ensures Sound(cfg, Next(cfg, k, e)) && TerminalKept(k.s.rec, Next(cfg, k, e).s.rec)
  {
    hide Sound, Possible, Next, TerminalKept, StillCurrent, StillClaimable;
    SameIsKept(k.s.rec);
    if !Possible(cfg, k, e) {
      Impossible(cfg, k, e);
    } else {
      match e
      case Plain(op) => PlainKeeps(cfg, k, op);
      case EndLate(a, end) => EndLateKeeps(cfg, k, a, end);
      case BeatLate(a) => BeatLateKeeps(cfg, k, a);
      case ClaimLate(id, a, retry, gone) =>
        PossibleClaim(cfg, k, e);
        if k.s.rec.jobs[id].trigger in k.s.paused {
          PausedClaim(cfg, k, e);
        } else {
          ClaimLateKeeps(cfg, k, id, a, retry, gone);
        }
    }
  }

  lemma Impossible(cfg: Config, k: Wide, e: Event)
    requires !Possible(cfg, k, e)
    ensures Next(cfg, k, e) == k
  {
  }

  lemma PossibleClaim(cfg: Config, k: Wide, e: Event)
    requires e.ClaimLate? && Possible(cfg, k, e)
    ensures e.id in k.s.rec.jobs && e.claimId !in k.s.rec.attempts && k.s.rec.jobs[e.id].trigger in cfg.triggers
  {
  }

  lemma PossibleEnd(cfg: Config, k: Wide, e: Event)
    requires e.EndLate? && Possible(cfg, k, e) && Sound(cfg, k)
    ensures e.attemptId in k.kept && Unreported(cfg, k.s, k.kept[e.attemptId]) && Invariant(cfg, k.s)
    ensures k.kept[e.attemptId].job.trigger in cfg.triggers
    ensures Next(cfg, k, e).s == LateFinish(cfg, k.s, k.kept[e.attemptId], e.end)
  {
    hide Invariant, Unreported;
  }

  /** An event keeps everything, and every terminal job, exactly when it passes the check that there is for it. */
  lemma EventKeepsIff(cfg: Config, k: Wide, e: Event)
    requires Sound(cfg, k) && Possible(cfg, k, e)
    ensures Sound(cfg, Next(cfg, k, e)) && TerminalKept(k.s.rec, Next(cfg, k, e).s.rec) <==> Passes(cfg, k, e)
  {
    hide Possible, TerminalKept, StillCurrent, StillClaimable, Invariant, Unreported, Next, LateFinish, ClaimStep;
    if Passes(cfg, k, e) {
      CheckedKeeps(cfg, k, e);
    } else if e.EndLate? {
      PossibleEnd(cfg, k, e);
      LateReportKeepsIff(cfg, k.s, k.kept[e.attemptId], e.end);
    } else {
      PossibleClaim(cfg, k, e);
      StaleClaimKeepsIff(cfg, k.s, e.id, e.claimId, e.retry, e.revisionGone);
      NextClaim(cfg, k, e);
    }
  }

  lemma NextClaim(cfg: Config, k: Wide, e: Event)
    requires e.ClaimLate? && Possible(cfg, k, e) && k.s.rec.jobs[e.id].trigger in cfg.triggers
    ensures Next(cfg, k, e).s == ClaimStep(cfg, k.s, e.id, e.claimId, e.retry, e.revisionGone)
  {
  }

  // ---------------------------------------------------------------------------
  // Runs

  function RunEvents(cfg: Config, k: Wide, events: seq<Event>): Wide
    decreases |events|
  {
    if events == [] then k else RunEvents(cfg, Next(cfg, k, events[0]), events[1..])
  }

  /** Each late end and each stale claim passes its check where it happens. Nothing else is asked of a run. */
  predicate CheckedRun(cfg: Config, k: Wide, events: seq<Event>)
    decreases |events|
  {
    events != [] ==> Checked(cfg, k, events[0]) && CheckedRun(cfg, Next(cfg, k, events[0]), events[1..])
  }

  lemma StartsSoundWide(cfg: Config, owner: string, now: int)
    ensures Sound(cfg, Wide(State(Records(map[], map[]), map[], {}, owner, now), map[]))
  {
    hide Invariant;
    StartsSound(cfg, owner, now);
  }

  /**
   With the two checks the invariant needs no assumption on when claims are made and on what becomes of executions that
   have lost their lease: it holds over every run, and what is terminal stays.
   */
  lemma {:induction false} CheckedRunKeeps(cfg: Config, k: Wide, events: seq<Event>)
    requires Sound(cfg, k) && CheckedRun(cfg, k, events)
    ensures Sound(cfg, RunEvents(cfg, k, events)) && TerminalKept(k.s.rec, RunEvents(cfg, k, events).s.rec)
    decreases |events|
  {
    hide Sound, Checked, Next, TerminalKept;
    SameIsKept(k.s.rec);
    if events != [] {
      var next := Next(cfg, k, events[0]);
      CheckedKeeps(cfg, k, events[0]);
      CheckedRunKeeps(cfg, next, events[1..]);
      TerminalThrough(k.s.rec, next.s.rec, RunEvents(cfg, next, events[1..]).s.rec);
    }
  }

  lemma TerminalThrough(a: Records, b: Records, c: Records)
    requires TerminalKept(a, b) && TerminalKept(b, c)
    ensures TerminalKept(a, c)
  {
  }
}
