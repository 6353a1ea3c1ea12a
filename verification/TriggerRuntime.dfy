/** The runtime's own steps on its job and attempt records, proved equal to the steps of `Scheduler`. */
module TriggerRuntime {
  import opened Prelude
  import opened Scheduler
  import opened JobLaws

  datatype TriggerError = TriggersPaused

  /** The records when the leases of the jobs in `done` have been recovered. */
  ghost function RecoverSome(cfg: Config, rec: Records, done: set<JobId>, now: int): Records
    requires KnownTriggers(cfg, rec)
  {
    Records(
      map id | id in rec.jobs ::
        if id in done && LeaseOver(rec.jobs[id], now) then AfterFailure(cfg, rec.jobs[id], now, LeaseExpired)
        else rec.jobs[id],
      map a | a in rec.attempts ::
        if rec.attempts[a].job in done && OnExpired(rec, a, now) then
          rec.attempts[a].(status := AttemptExpired, error := Some(LeaseExpired))
        else rec.attempts[a])
  }

  lemma RecoverSomeMore(cfg: Config, rec: Records, done: set<JobId>, id: JobId, now: int)
    requires KnownTriggers(cfg, rec) && AttemptsSound(rec)
    requires id in rec.jobs && rec.jobs[id].status == Running && LeaseOver(rec.jobs[id], now) && id !in done
    ensures rec.jobs[id].currentAttempt.Some? && rec.jobs[id].currentAttempt.value in rec.attempts
    ensures
      var a := rec.jobs[id].currentAttempt.value;
      RecoverSome(cfg, rec, done + {id}, now)
        == Records(RecoverSome(cfg, rec, done, now).jobs[id := AfterFailure(cfg, rec.jobs[id], now, LeaseExpired)],
                   RecoverSome(cfg, rec, done, now).attempts[
                     a := rec.attempts[a].(status := AttemptExpired, error := Some(LeaseExpired))])
  {
    hide AfterFailure;
    var a := rec.jobs[id].currentAttempt.value;
    var some, more := RecoverSome(cfg, rec, done, now), RecoverSome(cfg, rec, done + {id}, now);
    assert OnExpired(rec, a, now);
    assert more.jobs == some.jobs[id := AfterFailure(cfg, rec.jobs[id], now, LeaseExpired)];
    forall b | b in rec.attempts && b != a
      ensures more.attempts[b] == some.attempts[b]
    {
      assert rec.attempts[b].job == id ==> !OnExpired(rec, b, now);
    }
    assert more.attempts == some.attempts[a := rec.attempts[a].(status := AttemptExpired, error := Some(LeaseExpired))];
  }

  lemma RecoverSomeAll(cfg: Config, rec: Records, done: set<JobId>, now: int)
    requires KnownTriggers(cfg, rec)
    requires forall id :: id in rec.jobs && LeaseOver(rec.jobs[id], now) ==> id in done
    ensures RecoverSome(cfg, rec, done, now) == Recover(cfg, rec, now)
  {
    hide AfterFailure;
    assert RecoverSome(cfg, rec, done, now).jobs == Recover(cfg, rec, now).jobs;
    assert RecoverSome(cfg, rec, done, now).attempts == Recover(cfg, rec, now).attempts;
  }

  lemma RecoverNone(cfg: Config, rec: Records, now: int)
    requires KnownTriggers(cfg, rec)
    ensures RecoverSome(cfg, rec, {}, now) == rec
  {
    assert RecoverSome(cfg, rec, {}, now).jobs == rec.jobs;
    assert RecoverSome(cfg, rec, {}, now).attempts == rec.attempts;
  }

  /** Whether a firing of the trigger is noted as missed after the runtime was stopped. */
  predicate NotesMissed(cfg: Config, paused: set<TriggerId>, t: TriggerId)
    requires t in cfg.triggers
  {
    t !in paused && cfg.triggers[t].onSchedule && !cfg.triggers[t].skipsMisfires
  }

  /** The records after a firing was noted as missed for each trigger that notes them. */
  ghost function NoteMissed(cfg: Config, rec: Records, paused: set<TriggerId>, active: seq<TriggerId>, ids: seq<JobId>,
                            now: int): Records
    requires |ids| == |active| && forall t :: t in active ==> t in cfg.triggers
  {
    if active == [] then rec
    else
      var before := NoteMissed(cfg, rec, paused, active[..|active| - 1], ids[..|active| - 1], now);
      var t := active[|active| - 1];
      if NotesMissed(cfg, paused, t) then
        RecordJob(before, ids[|active| - 1], NewJob(cfg, t, OfMissed(t, now), Missed, Some(MayHaveFired)))
      else before
  }

  predicate NewIds(jobs: map<JobId, Job>, ids: seq<JobId>) {
    forall k :: 0 <= k < |ids| ==> ids[k] !in jobs && forall n :: 0 <= n < k ==> ids[n] != ids[k]
  }

  /** A missed firing of the trigger is noted under the id exactly when the trigger notes misfires. */
  predicate NotedAt(cfg: Config, paused: set<TriggerId>, jobs: map<JobId, Job>, t: TriggerId, id: JobId, now: int)
    requires t in cfg.triggers
  {
    && (id in jobs <==> t !in paused && cfg.triggers[t].onSchedule && !cfg.triggers[t].skipsMisfires)
    && (id in jobs ==>
          jobs[id].trigger == t && jobs[id].status == Missed && jobs[id].key == OfMissed(t, now)
          && jobs[id].error == Some(MayHaveFired))
  }

  /** Exactly the triggers that note misfires got one missed job each, and every job there was is as before. */
  predicate Noted(cfg: Config, paused: set<TriggerId>, before: map<JobId, Job>, jobs: map<JobId, Job>,
                  active: seq<TriggerId>, ids: seq<JobId>, now: int)
    requires |ids| == |active| && forall t :: t in active ==> t in cfg.triggers
  {
    && (forall id :: id in before ==> id in jobs && jobs[id] == before[id])
    && (forall id :: id in jobs ==> id in before || id in ids)
    && (forall k :: 0 <= k < |ids| ==> NotedAt(cfg, paused, jobs, active[k], ids[k], now))
  }

  lemma NoteOne(cfg: Config, rec: Records, paused: set<TriggerId>, t: TriggerId, id: JobId, now: int)
    requires t in cfg.triggers && id !in rec.jobs
    ensures
      var next := if NotesMissed(cfg, paused, t)
                  then RecordJob(rec, id, NewJob(cfg, t, OfMissed(t, now), Missed, Some(MayHaveFired))) else rec;
      && NotedAt(cfg, paused, next.jobs, t, id, now)
      && (forall i :: i in next.jobs <==> i in rec.jobs || (i == id && NotesMissed(cfg, paused, t)))
      && (forall i :: i in rec.jobs ==> next.jobs[i] == rec.jobs[i])
  {
  }

  lemma NotedStill(cfg: Config, paused: set<TriggerId>, before: map<JobId, Job>, jobs: map<JobId, Job>, t: TriggerId,
                   id: JobId, now: int)
    requires t in cfg.triggers && NotedAt(cfg, paused, before, t, id, now)
    requires (id in before <==> id in jobs) && (id in jobs ==> jobs[id] == before[id])
    ensures NotedAt(cfg, paused, jobs, t, id, now)
  {
  }

  lemma {:induction false} NotedAre(cfg: Config, rec: Records, paused: set<TriggerId>, active: seq<TriggerId>,
                                    ids: seq<JobId>, now: int)
    requires |ids| == |active| && forall t :: t in active ==> t in cfg.triggers
    requires NewIds(rec.jobs, ids)
    ensures Noted(cfg, paused, rec.jobs, NoteMissed(cfg, rec, paused, active, ids, now).jobs, active, ids, now)
    decreases |active|
  {
    hide NewJob, RecordJob, NotesMissed, NotedAt;
    if active != [] {
      var last := |active| - 1;
      var before := NoteMissed(cfg, rec, paused, active[..last], ids[..last], now);
      var next := NoteMissed(cfg, rec, paused, active, ids, now);
      NotedAre(cfg, rec, paused, active[..last], ids[..last], now);
      assert ids[last] !in ids[..last] && ids[last] !in before.jobs;
      NoteOne(cfg, before, paused, active[last], ids[last], now);
      assert ids == ids[..last] + [ids[last]];
      forall k | 0 <= k < last
        ensures NotedAt(cfg, paused, next.jobs, active[k], ids[k], now)
      {
        assert ids[..last][k] == ids[k] && active[..last][k] == active[k];
        NotedStill(cfg, paused, before.jobs, next.jobs, active[k], ids[k], now);
      }
    }
  }

  class TriggerRuntime {
    const cfg: Config
    var jobs: map<JobId, Job>
    var attempts: map<AttemptId, Attempt>
    /** The triggers whose application is paused or unavailable. */
    var paused: set<TriggerId>
    var leaseOwner: string

    constructor (cfg: Config, owner: string)
      ensures Contents() == Records(map[], map[]) && this.cfg == cfg && paused == {} && leaseOwner == owner
    {
      this.cfg := cfg;
      jobs, attempts, paused, leaseOwner := map[], map[], {}, owner;
    }

    function Contents(): Records
      reads this
    {
      Records(jobs, attempts)
    }

    method JobByIdempotencyKey(key: Key) returns (found: Option<JobId>)
      ensures found.Some? <==> HasKey(Contents(), key)
      ensures found.Some? ==> found.value in jobs && jobs[found.value].key == key
    {
      var rest := jobs.Keys;
      while rest != {}
        invariant rest <= jobs.Keys
        invariant forall id :: id in jobs.Keys - rest ==> jobs[id].key != key
        decreases |rest|
      {
        var id :| id in rest;
        if jobs[id].key == key {
          return Some(id);
        }
        rest := rest - {id};
      }
      return None;
    }

    method AnyRunningJob(trigger: TriggerId) returns (running: bool)
      ensures running == HasRunningJob(Contents(), trigger)
    {
      var rest := jobs.Keys;
      while rest != {}
        invariant rest <= jobs.Keys
        invariant forall id :: id in jobs.Keys - rest ==>
          !(jobs[id].trigger == trigger && (jobs[id].status == Leased || jobs[id].status == Running))
        decreases |rest|
      {
        var id :| id in rest;
        if jobs[id].trigger == trigger && (jobs[id].status == Leased || jobs[id].status == Running) {
          return true;
        }
        rest := rest - {id};
      }
      return false;
    }

    /** The transaction that records a triggered job. The new job is then claimed; an existing one is only returned. */
    method RunTriggerRevision(trigger: TriggerId, given: Option<string>, input: string, id: JobId, now: int)
      returns (r: Result<(JobId, bool), TriggerError>)
      requires trigger in cfg.triggers && id !in jobs
      modifies this`jobs
      ensures r.Err? <==> trigger in paused
      ensures
        var key := if given.Some? && given.value != "" then Given(given.value) else OfTrigger(trigger, input, now);
        && Contents() == (if trigger in paused then old(Contents()) else TriggerJob(cfg, old(Contents()), trigger, key, id))
        && (r.Ok? ==> r.value.0 in jobs && jobs[r.value.0].key == key)
        && (r.Ok? && r.value.1 <==> id in jobs && jobs[id].status == Scheduled)
        && (r.Ok? && KeyTaken(old(Contents()), key) ==>
              Contents() == old(Contents()) && r.value.0 in old(jobs) && old(jobs)[r.value.0].key == key)
        && (r.Ok? && !KeyTaken(old(Contents()), key) ==>
              r.value.0 == id && OneJobAdded(cfg, old(Contents()), Contents(), trigger, key, id))
    {
      if trigger in paused {
        return Err(TriggersPaused);
      }
      var key := if given.Some? && given.value != "" then Given(given.value) else OfTrigger(trigger, input, now);
      FiringAdds(cfg, Contents(), trigger, key, id);
      var existing := JobByIdempotencyKey(key);
      if existing.Some? {
        return Ok((existing.value, false));
      }
      var running := AnyRunningJob(trigger);
      if cfg.triggers[trigger].skipIfRunning && running {
        jobs := jobs[id := NewJob(cfg, trigger, key, Missed, Some(SkippedAsRunning))];
        return Ok((id, false));
      }
      jobs := jobs[id := NewJob(cfg, trigger, key, Scheduled, None)];
      return Ok((id, true));
    }

    /** Save the failed attempt and the job that waits for a retry or has failed. */
    method FailOrRetryJob(id: JobId, job: Job, now: int, error: Cause, status: AttemptStatus,
                          given: Option<(AttemptId, Attempt)>)
      requires job.trigger in cfg.triggers
      modifies this`jobs, this`attempts
      ensures jobs == old(jobs)[id := AfterFailure(cfg, job, now, error)]
      ensures given.Some? ==>
        attempts == old(attempts)[given.value.0 := given.value.1.(status := status, error := Some(error))]
      ensures given.None? ==>
        attempts ==
          if job.currentAttempt.Some? && job.currentAttempt.value in old(attempts) then
            old(attempts)[job.currentAttempt.value :=
              old(attempts)[job.currentAttempt.value].(status := status, error := Some(error))]
          else old(attempts)
    {
      var current := given;
      if current.None? && job.currentAttempt.Some? && job.currentAttempt.value in attempts {
        current := Some((job.currentAttempt.value, attempts[job.currentAttempt.value]));
      }
      if current.Some? {
        attempts := attempts[current.value.0 := current.value.1.(status := status, error := Some(error))];
      }
      var t := cfg.triggers[job.trigger];
      var completed := job.(error := Some(error), leaseOwner := None, leaseExpiresAt := None);
      if job.attempt < job.maxAttempts {
        completed := completed.(
          status := RetryWait, nextRetryAt := Some(now + RetryDelaySeconds(t.baseSeconds, t.maxSeconds, job.attempt)));
      } else {
        completed := completed.(status := Failed, nextRetryAt := None);
      }
      jobs := jobs[id := completed];
    }

    /** The first transaction of an execution: lease the job, mark it running, fail it if its revision is gone. */
    method ClaimJob(id: JobId, attemptId: AttemptId, now: int, retry: bool, revisionGone: bool)
      returns (w: Option<Work>)
      requires id in jobs && jobs[id].trigger in cfg.triggers && attemptId !in attempts
      modifies this`jobs, this`attempts
      ensures
        var before := State(old(Contents()), map[], paused, leaseOwner, now);
        var after := ClaimStep(cfg, before, id, attemptId, retry, revisionGone);
        && Contents() == after.rec
        && (w.Some? <==> attemptId in after.work)
        && (w.Some? ==> w.value == after.work[attemptId])
    {
      var current := jobs[id];
      if current.trigger in paused {
        return None;
      }
      var number := if retry then current.attempt + 1 else current.attempt;
      var expires := now + cfg.leaseSeconds;
      var attempt := Attempt(id, number, AttemptLeased, leaseOwner, expires, None);
      var leased := current.(
        status := Leased, attempt := number, leaseOwner := Some(leaseOwner), leaseExpiresAt := Some(expires),
        currentAttempt := Some(attemptId), error := None, nextRetryAt := None);
      attempts := attempts[attemptId := attempt];
      jobs := jobs[id := leased];
      var runningAttempt := attempt.(status := AttemptRunning);
      var running := leased.(status := Running, leaseExpiresAt := Some(now + cfg.leaseSeconds));
      attempts := attempts[attemptId := runningAttempt];
      jobs := jobs[id := running];
      assert attempts == old(attempts)[attemptId := runningAttempt];
      assert jobs == old(jobs)[id := running];
      if revisionGone {
        FailOrRetryJob(id, running, now, RevisionGone, AttemptFailed, Some((attemptId, runningAttempt)));
        return None;
      }
      return Some(Work(id, running, attemptId, runningAttempt));
    }

    /** The second transaction of an execution: put the job back when its application was paused meanwhile. */
    method DeferIfPaused(w: Work, now: int) returns (deferred: bool)
      modifies this`jobs, this`attempts
      ensures deferred == (w.job.trigger in paused)
      ensures Contents() == if deferred then DeferPausedJob(old(Contents()), w, now) else old(Contents())
    {
      if w.job.trigger !in paused {
        return false;
      }
      attempts := attempts[w.attemptId := w.attempt.(status := AttemptExpired, error := Some(PausedBeforeExecution))];
      jobs := jobs[w.jobId := w.job.(status := RetryWait, leaseOwner := None, leaseExpiresAt := None,
                                     nextRetryAt := Some(now), error := Some(PausedBeforeExecution))];
      return true;
    }

    /** The last transaction of an execution: it writes from the copies that the execution holds. */
    method CompleteJob(w: Work, now: int, success: bool)
      requires w.job.trigger in cfg.triggers
      modifies this`jobs, this`attempts
      ensures Contents() == if success then Succeed(old(Contents()), w)
                            else FailOrRetry(cfg, old(Contents()), w, now, ActionFailed, AttemptFailed)
    {
      if success {
        attempts := attempts[w.attemptId := w.attempt.(status := AttemptSucceeded)];
        jobs := jobs[w.jobId := w.job.(status := Succeeded, leaseOwner := None, leaseExpiresAt := None, error := None)];
      } else {
        FailOrRetryJob(w.jobId, w.job, now, ActionFailed, AttemptFailed, Some((w.attemptId, w.attempt)));
      }
    }

    method HeartbeatJob(id: JobId, attemptId: AttemptId, now: int)
      modifies this`jobs, this`attempts
      ensures Contents() == Heartbeat(cfg, old(Contents()), id, attemptId, leaseOwner, now)
    {
      if id !in jobs || attemptId !in attempts {
        return;
      }
      var job, attempt := jobs[id], attempts[attemptId];
      if job.status != Running || attempt.status != AttemptRunning || job.leaseOwner != Some(leaseOwner)
         || attempt.leaseOwner != leaseOwner
      {
        return;
      }
      var expires := now + cfg.leaseSeconds;
      jobs := jobs[id := job.(leaseExpiresAt := Some(expires))];
      attempts := attempts[attemptId := attempt.(leaseExpiresAt := expires)];
    }

    /** Fail or retry the jobs whose lease ran out, one after the other. */
    method RecoverExpiredLeases(now: int)
      requires JobsSound(cfg, Contents()) && AttemptsSound(Contents())
      modifies this`jobs, this`attempts
      ensures KnownTriggers(cfg, old(Contents())) && Contents() == Recover(cfg, old(Contents()), now)
    {
      hide AfterFailure, RecoverSome, Recover, AttemptsSound, JobsSound, LeaseOver, KnownTriggers;
      ghost var before := Contents();
      AllKnown(cfg, before);
      var expired := set id | id in jobs && LeaseOver(jobs[id], now);
      var rest := expired;
      RecoverNone(cfg, before, now);
      assert expired - rest == {};
      while rest != {}
        invariant rest <= expired
        invariant Contents() == RecoverSome(cfg, before, expired - rest, now)
        decreases |rest|
      {
        var id :| id in rest;
        RecoverRound(cfg, before, expired - rest, id, now);
        assert (expired - rest) + {id} == expired - (rest - {id});
        FailOrRetryJob(id, jobs[id], now, LeaseExpired, AttemptExpired, None);
        rest := rest - {id};
      }
      RecoverSomeAll(cfg, before, expired - rest, now);
    }

    /** Note a missed firing for every active trigger on a schedule that is not paused and does not skip misfires. */
    method MarkMissedJobs(active: seq<TriggerId>, ids: seq<JobId>, now: int)
      requires |ids| == |active| && forall t :: t in active ==> t in cfg.triggers
      modifies this`jobs
      ensures Contents() == NoteMissed(cfg, old(Contents()), paused, active, ids, now)
      ensures NewIds(old(jobs), ids) ==> Noted(cfg, paused, old(jobs), jobs, active, ids, now)
    {
      var i := 0;
      while i < |active|
        invariant 0 <= i <= |active|
        invariant Contents() == NoteMissed(cfg, old(Contents()), paused, active[..i], ids[..i], now)
      {
        assert active[..i + 1][..i] == active[..i] && ids[..i + 1][..i] == ids[..i];
        var t := active[i];
        if t !in paused && cfg.triggers[t].onSchedule && !cfg.triggers[t].skipsMisfires {
          jobs := jobs[ids[i] := NewJob(cfg, t, OfMissed(t, now), Missed, Some(MayHaveFired))];
        }
        i := i + 1;
      }
      assert active[..i] == active && ids[..i] == ids;
      if NewIds(old(jobs), ids) {
        NotedAre(cfg, old(Contents()), paused, active, ids, now);
      }
    }
  }

  /** Recovering some jobs leaves another job, and its current attempt, as they were. */
  lemma SameJob(cfg: Config, rec: Records, done: set<JobId>, id: JobId, now: int)
    requires KnownTriggers(cfg, rec) && AttemptsSound(rec)
    requires id in rec.jobs && rec.jobs[id].status == Running && id !in done
    ensures rec.jobs[id].currentAttempt.Some? && rec.jobs[id].currentAttempt.value in rec.attempts
    ensures
      var some := RecoverSome(cfg, rec, done, now);
      var a := rec.jobs[id].currentAttempt.value;
      && id in some.jobs && some.jobs[id] == rec.jobs[id]
      && a in some.attempts && some.attempts[a] == rec.attempts[a]
  {
  }

  lemma AllKnown(cfg: Config, rec: Records)
    requires JobsSound(cfg, rec)
    ensures KnownTriggers(cfg, rec)
  {
  }

  lemma ExpiredRuns(cfg: Config, rec: Records, id: JobId, now: int)
    requires JobsSound(cfg, rec) && id in rec.jobs && LeaseOver(rec.jobs[id], now)
    ensures rec.jobs[id].status == Running && rec.jobs[id].trigger in cfg.triggers
  {
  }

  /** One round of the recovery: what it reads is as it was, what it writes is the next part. */
  lemma RecoverRound(cfg: Config, rec: Records, done: set<JobId>, id: JobId, now: int)
    requires JobsSound(cfg, rec) && AttemptsSound(rec) && KnownTriggers(cfg, rec)
    requires id in rec.jobs && LeaseOver(rec.jobs[id], now) && id !in done
    ensures rec.jobs[id].currentAttempt.Some? && rec.jobs[id].currentAttempt.value in rec.attempts
    ensures
      var some := RecoverSome(cfg, rec, done, now);
      var a := rec.jobs[id].currentAttempt.value;
      && id in some.jobs && some.jobs[id] == rec.jobs[id] && rec.jobs[id].trigger in cfg.triggers
      && a in some.attempts && some.attempts[a] == rec.attempts[a]
      && RecoverSome(cfg, rec, done + {id}, now)
           == Records(some.jobs[id := AfterFailure(cfg, rec.jobs[id], now, LeaseExpired)],
                      some.attempts[a := rec.attempts[a].(status := AttemptExpired, error := Some(LeaseExpired))])
  {
    hide AfterFailure, RecoverSome, AttemptsSound, JobsSound, LeaseOver;
    ExpiredRuns(cfg, rec, id, now);
    SameJob(cfg, rec, done, id, now);
    RecoverSomeMore(cfg, rec, done, id, now);
  }
}
