/** The supervisor's fields and its sections, each proved to be a step of `ActionSupervisor`. */
module ActionSupervisorObjects {
  import opened Prelude
  import opened S = ActionSupervisor

  datatype SubmitError = ShutDown | QueueFull | ContextFailed | Overlapping | PersistFailed | ExecutorRefused

  datatype CancelOutcome = NotInFlight | CancelledWhileQueued | AskedToStop

  class ActionSupervisor {
    const cfg: Config
    var permits: int
    var closed: bool
    var executorDown: bool
    var actionIds: map<InvocationId, ActionId>
    var futures: map<InvocationId, nat>
    var cancellations: map<InvocationId, bool>
    /** Where each submission stands, and what the executor has made of its future. */
    ghost var subs: map<nat, Submission>

    constructor (cfg: Config)
      requires cfg.workers >= 1
      ensures this.cfg == cfg && Contents() == Start0(cfg) && cancellations == map[]
    {
      this.cfg, permits, closed, executorDown := cfg, cfg.workers + cfg.queueCapacity, false, false;
      actionIds, futures, cancellations, subs := map[], map[], map[], map[];
    }

    ghost function Contents(): State
      reads this
    {
      State(permits, closed, executorDown, actionIds, futures, subs)
    }

    method CheckOpen(ghost t: nat, id: InvocationId, action: ActionId, reject: bool) returns (admits: bool)
      requires t !in subs
      modifies this`subs
      ensures admits == !closed && Contents() == Next(old(Contents()), Arrive(t, id, action, reject))
    {
      if closed {
        return false;
      }
      subs := subs[t := Submission(id, action, reject, Checked, NoFuture)];
      return true;
    }

    method AcquirePermit(ghost t: nat) returns (acquired: bool)
      requires InPhase(Contents(), t, Checked)
      modifies this`permits, this`subs
      ensures acquired == (old(permits) > 0) && Contents() == Next(old(Contents()), Acquire(t))
    {
      if permits <= 0 {
        subs := subs - {t};
        return false;
      }
      permits := permits - 1;
      subs := subs[t := subs[t].(phase := Admitted)];
      return true;
    }

    method RegisterLocked(ghost t: nat, id: InvocationId, action: ActionId, reject: bool)
      returns (refused: Option<SubmitError>)
      requires InPhase(Contents(), t, Admitted)
      requires subs[t].id == id && subs[t].action == action && subs[t].reject == reject
      modifies this`actionIds, this`subs
      ensures Contents() == Next(old(Contents()), Register(t))
      ensures refused == if closed then Some(ShutDown)
                         else if reject && action in old(actionIds).Values then Some(Overlapping) else None
    {
      if closed {
        subs := subs[t := subs[t].(phase := Failed)];
        return Some(ShutDown);
      }
      if reject && action in actionIds.Values {
        subs := subs[t := subs[t].(phase := Failed)];
        return Some(Overlapping);
      }
      actionIds := actionIds[id := action];
      subs := subs[t := subs[t].(phase := Registered)];
      return None;
    }

    /** What a submission does when it raises: forget the invocation, if it had one, and give the permit back. */
    method GiveUp(ghost t: nat, id: Option<InvocationId>)
      requires InPhase(Contents(), t, if id.Some? then Failed else Unregistered)
      requires id.Some? ==> subs[t].id == id.value
      modifies this`permits, this`actionIds, this`subs
      ensures permits == old(permits) + 1 && subs == old(subs) - {t}
      ensures actionIds == if id.Some? then old(actionIds) - {id.value} else old(actionIds)
    {
      if id.Some? {
        actionIds := actionIds - {id.value};
        subs := subs[t := subs[t].(phase := Unregistered)];
      }
      permits := permits + 1;
      subs := subs - {t};
    }

    /** The part of a submission that holds a permit. */
    method SubmitAdmitted(t: nat, id: InvocationId, action: ActionId, reject: bool, contextFails: bool,
                          persistFails: bool)
      returns (error: Option<SubmitError>)
      requires t in subs && subs[t] == Submission(id, action, reject, Admitted, NoFuture)
      modifies this
      ensures closed == old(closed) && executorDown == old(executorDown)
      ensures error.None? <==>
        !closed && !contextFails && !persistFails && !executorDown && !(reject && action in old(actionIds).Values)
      ensures error.None? ==>
        && permits == old(permits) && actionIds == old(actionIds)[id := action]
        && futures == old(futures)[id := t] && cancellations == old(cancellations)[id := false]
        && subs == old(subs)[t := Submission(id, action, reject, Attached, Pending)]
      ensures error.Some? ==>
        && permits == old(permits) + 1 && subs == old(subs) - {t} && futures == old(futures)
        && cancellations == old(cancellations) && (error.value.ShutDown? ==> closed) && !error.value.QueueFull?
        && actionIds == if error.value.ContextFailed? then old(actionIds) else old(actionIds) - {id}
    {
      if contextFails {
        subs := subs[t := subs[t].(phase := Unregistered)];
        GiveUp(t, None);
        return Some(ContextFailed);
      }
      error := RegisterLocked(t, id, action, reject);
      if error.None? && (persistFails || executorDown) {
        subs := subs[t := subs[t].(phase := Failed)];
        error := Some(if persistFails then PersistFailed else ExecutorRefused);
      }
      if error.Some? {
        GiveUp(t, Some(id));
        return;
      }
      subs := subs[t := subs[t].(phase := Submitted, future := Pending)];
      futures := futures[id := t];
      cancellations := cancellations[id := false];
      subs := subs[t := subs[t].(phase := Attached)];
    }

    /**
     A submission with nothing in between. It either has its invocation in flight, one permit down; or it was refused
     and gives everything back, but for a registry entry that another submission had under the same id.
     */
    method Submit(t: nat, id: InvocationId, action: ActionId, reject: bool, contextFails: bool, persistFails: bool)
      returns (r: Result<InvocationId, SubmitError>)
      requires t !in subs
      modifies this
      ensures closed == old(closed) && executorDown == old(executorDown)
      ensures r.Ok? <==>
        && !closed && old(permits) > 0 && !contextFails && !persistFails && !executorDown
        && !(reject && action in old(actionIds).Values)
      ensures r.Ok? ==>
        && r.value == id && permits == old(permits) - 1 && actionIds == old(actionIds)[id := action]
        && futures == old(futures)[id := t] && cancellations == old(cancellations)[id := false]
        && subs == old(subs)[t := Submission(id, action, reject, Attached, Pending)]
      ensures r.Err? ==>
        && permits == old(permits) && subs == old(subs) && futures == old(futures)
        && cancellations == old(cancellations)
        && actionIds == if r.error in {ShutDown, QueueFull, ContextFailed} then old(actionIds) else old(actionIds) - {id}
    {
      var admits := CheckOpen(t, id, action, reject);
      if !admits {
        return Err(ShutDown);
      }
      ghost var checked := subs;
      assert checked - {t} == old(subs);
      var acquired := AcquirePermit(t);
      if !acquired {
        return Err(QueueFull);
      }
      ghost var admitted := subs;
      assert admitted == checked[t := Submission(id, action, reject, Admitted, NoFuture)];
      assert admitted - {t} == old(subs);
      var error := SubmitAdmitted(t, id, action, reject, contextFails, persistFails);
      if error.Some? {
        return Err(error.value);
      }
      return Ok(id);
    }

    /** The first part of the completion callback. Between the parts other threads may run. */
    method ReleaseCapacity(ghost t: nat)
      requires Enabled(Contents(), ReleasePermit(t))
      modifies this`permits, this`subs
      ensures Contents() == Next(old(Contents()), ReleasePermit(t))
    {
      permits := permits + 1;
      subs := subs[t := subs[t].(phase := Released)];
    }

    /** The second part, under the lock: whatever is kept under the id goes. */
    method ForgetLocked(ghost t: nat, id: InvocationId)
      requires Enabled(Contents(), Forget(t)) && subs[t].id == id
      modifies this`futures, this`cancellations, this`actionIds, this`subs
      ensures Contents() == Next(old(Contents()), Forget(t))
      ensures cancellations == old(cancellations) - {id}
    {
      futures := futures - {id};
      cancellations := cancellations - {id};
      actionIds := actionIds - {id};
      subs := subs - {t};
    }

    /** Cancel by id; `queued` is what the future answers: it can only be cancelled before it runs. */
    method Cancel(id: InvocationId, queued: bool) returns (outcome: CancelOutcome)
      requires id in futures ==> futures[id] in subs && id in cancellations
      requires id in futures ==> (queued <==> HasFuture(Contents(), futures[id], Pending))
      modifies this`cancellations, this`subs
      ensures outcome == if id !in futures then NotInFlight else if queued then CancelledWhileQueued else AskedToStop
      ensures Contents() ==
        if outcome.CancelledWhileQueued? then Next(old(Contents()), CancelQueued(futures[id])) else old(Contents())
      ensures cancellations == if outcome.AskedToStop? then old(cancellations)[id := true] else old(cancellations)
    {
      if id !in futures {
        return NotInFlight;
      }
      if !queued {
        cancellations := cancellations[id := true];
        return AskedToStop;
      }
      subs := subs[futures[id] := subs[futures[id]].(future := Done)];
      return CancelledWhileQueued;
    }

    method Shutdown()
      modifies this`closed, this`executorDown, this`subs
      ensures Contents() == Next(Next(old(Contents()), Close), StopExecutor)
    {
      closed := true;
      executorDown := true;
      subs := map t | t in subs :: if subs[t].future == Pending then subs[t].(future := Done) else subs[t];
    }
  }
}
