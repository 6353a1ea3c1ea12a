/** The life of one submission, from its arrival to its end: each way it can go, and what it leaves. */
module SubmissionLives {
  import opened Prelude
  import opened ActionSupervisor

  /** A submission that can be let in: nobody uses its token or its id, and the registry does not refuse its action. */
  predicate CanEnter(s: State, t: nat, id: InvocationId, action: ActionId, reject: bool) {
    && !s.closed && !s.executorDown && s.permits > 0
    && t !in s.subs && id !in s.actionIds && id !in s.futures
    && (reject ==> forall i :: i in s.actionIds ==> s.actionIds[i] != action)
  }

  /** The submission in some phase, on top of what there was: it holds a permit, and its entries as far as they are made. */
  function With(s: State, t: nat, sub: Submission, registered: bool, watched: bool): State {
    s.(permits := s.permits - 1, subs := s.subs[t := sub],
       actionIds := if registered then s.actionIds[sub.id := sub.action] else s.actionIds,
       futures := if watched then s.futures[sub.id := t] else s.futures)
  }

  predicate Goes(s: State, step: Step, next: State) {
    Enabled(s, step) && Next(s, step) == next
  }

  /** One submission arrives at a time; a closed supervisor takes none, and one without a free permit sends it away. */
  lemma Arrival(s: State, t: nat, id: InvocationId, action: ActionId, reject: bool)
    requires t !in s.subs
    ensures
      var arrived := s.(subs := s.subs[t := Submission(id, action, reject, Checked, NoFuture)]);
      && Goes(s, Arrive(t, id, action, reject), if s.closed then s else arrived)
      && (!s.closed && s.permits <= 0 ==> Goes(arrived, Acquire(t), s))
      && (!s.closed && s.permits > 0 ==>
            Goes(arrived, Acquire(t), With(s, t, Submission(id, action, reject, Admitted, NoFuture), false, false)))
  {
    var arrived := s.(subs := s.subs[t := Submission(id, action, reject, Checked, NoFuture)]);
    assert arrived.subs - {t} == s.subs;
    var admitted := Submission(id, action, reject, Admitted, NoFuture);
    assert arrived.subs[t := admitted] == s.subs[t := admitted];
  }

  /** From the permit to the attached callback, when nothing fails. */
  lemma Admission(s: State, t: nat, id: InvocationId, action: ActionId, reject: bool)
    requires CanEnter(s, t, id, action, reject)
    ensures
      var sub := Submission(id, action, reject, Admitted, NoFuture);
      var s1, s2 := With(s, t, sub, false, false), With(s, t, sub.(phase := Registered), true, false);
      var s3 := With(s, t, sub.(phase := Submitted, future := Pending), true, false);
      var s4 := With(s, t, sub.(phase := Watched, future := Pending), true, true);
      && Goes(s1, Register(t), s2) && Goes(s2, ToExecutor(t), s3) && Goes(s3, Watch(t), s4)
      && Goes(s4, Attach(t), With(s, t, sub.(phase := Attached, future := Pending), true, true))
  {
    var sub := Submission(id, action, reject, Admitted, NoFuture);
    Overwrites(s.subs, t, sub, sub.(phase := Registered));
    Overwrites(s.subs, t, sub.(phase := Registered), sub.(phase := Registered, future := Pending));
    Overwrites(s.subs, t, sub.(phase := Registered, future := Pending), sub.(phase := Submitted, future := Pending));
    Overwrites(s.subs, t, sub.(phase := Submitted, future := Pending), sub.(phase := Watched, future := Pending));
    Overwrites(s.subs, t, sub.(phase := Watched, future := Pending), sub.(phase := Attached, future := Pending));
  }

  lemma Overwrites(subs: map<nat, Submission>, t: nat, a: Submission, b: Submission)
    ensures subs[t := a][t := b] == subs[t := b]
  {
  }

  /** The future runs and finishes, or is cancelled before it runs. */
  lemma Execution(s: State, t: nat, sub: Submission)
    requires sub.phase == Attached && sub.future == Pending
    ensures
      var queued, running := With(s, t, sub, true, true), With(s, t, sub.(future := Running), true, true);
      var over := With(s, t, sub.(future := Done), true, true);
      Goes(queued, Start(t), running) && Goes(running, Finish(t), over) && Goes(queued, CancelQueued(t), over)
  {
    Overwrites(s.subs, t, sub, sub.(future := Running));
    Overwrites(s.subs, t, sub.(future := Running), sub.(future := Done));
    Overwrites(s.subs, t, sub, sub.(future := Done));
  }

  /** The completion callback: first the permit goes back, then everything kept under the id; then all is as before. */
  lemma Completion(s: State, t: nat, sub: Submission)
    requires sub.phase == Attached && sub.future == Done && t !in s.subs && sub.id !in s.actionIds && sub.id !in s.futures
    ensures
      var over, released := With(s, t, sub, true, true), With(s, t, sub.(phase := Released), true, true);
      Goes(over, ReleasePermit(t), released.(permits := s.permits)) && Goes(released.(permits := s.permits), Forget(t), s)
  {
    Overwrites(s.subs, t, sub, sub.(phase := Released));
    assert s.subs[t := sub.(phase := Released)] - {t} == s.subs;
    assert s.actionIds[sub.id := sub.action] - {sub.id} == s.actionIds && s.futures[sub.id := t] - {sub.id} == s.futures;
  }

  /** A submission that fails before it has its invocation only gives its permit back. */
  lemma EarlyFailure(s: State, t: nat, sub: Submission)
    requires sub.phase == Admitted && t !in s.subs
    ensures
      var failed := With(s, t, sub.(phase := Unregistered), false, false);
      Goes(With(s, t, sub, false, false), ContextFails(t), failed) && Goes(failed, GiveBack(t), s)
  {
    Overwrites(s.subs, t, sub, sub.(phase := Unregistered));
    assert s.subs[t := sub.(phase := Unregistered)] - {t} == s.subs;
  }

  /** One that fails later - it cannot be saved, or the executor is down - also takes its entry back: all is as before. */
  lemma LateFailure(s: State, t: nat, sub: Submission)
    requires sub.phase == Registered && sub.future == NoFuture && t !in s.subs && sub.id !in s.actionIds
    ensures
      var registered, failed := With(s, t, sub, true, false), With(s, t, sub.(phase := Failed), true, false);
      var unregistered := With(s, t, sub.(phase := Unregistered), false, false);
      && Goes(registered, PersistFails(t), failed)
      && (s.executorDown ==> Goes(registered, ToExecutor(t), failed))
      && Goes(failed, Unregister(t), unregistered) && Goes(unregistered, GiveBack(t), s)
  {
    Overwrites(s.subs, t, sub, sub.(phase := Failed));
    Overwrites(s.subs, t, sub.(phase := Failed), sub.(phase := Unregistered));
    assert s.actionIds[sub.id := sub.action] - {sub.id} == s.actionIds;
    assert s.subs[t := sub.(phase := Unregistered)] - {t} == s.subs;
  }

  /** The registry refuses after a close, and a rejecting action exactly while an entry of it is there. */
  lemma RegistryRefusesIff(s: State, t: nat)
    requires InPhase(s, t, Admitted)
    ensures Enabled(s, Register(t))
    ensures
      var sub, next := s.subs[t], Next(s, Register(t));
      var refused := s.closed || (sub.reject && exists i :: i in s.actionIds && s.actionIds[i] == sub.action);
      next == s.(subs := s.subs[t := sub.(phase := if refused then Failed else Registered)],
                 actionIds := if refused then s.actionIds else s.actionIds[sub.id := sub.action])
  {
    var sub := s.subs[t];
    assert sub.action in s.actionIds.Values <==> exists i :: i in s.actionIds && s.actionIds[i] == sub.action;
  }

  /** Closing stops admission; stopping the executor, which needs that, ends the futures that have not started. */
  lemma Closing(s: State)
    ensures Goes(s, Close, s.(closed := true))
    ensures Enabled(s, StopExecutor) <==> s.closed
    ensures s.closed ==>
      var next := Next(s, StopExecutor);
      && next == s.(executorDown := true, subs := next.subs) && next.subs.Keys == s.subs.Keys
      && forall t :: t in s.subs ==>
           next.subs[t] == if s.subs[t].future == Pending then s.subs[t].(future := Done) else s.subs[t]
  {
  }

  /** A permit comes back once the future is over, not before. */
  lemma ReleasedIff(s: State, t: nat)
    ensures Enabled(s, ReleasePermit(t)) <==> t in s.subs && s.subs[t].phase == Attached && s.subs[t].future == Done
    ensures Enabled(s, Start(t)) <==> t in s.subs && s.subs[t].future == Pending
    ensures Enabled(s, Finish(t)) <==> t in s.subs && s.subs[t].future == Running
  {
  }
}
