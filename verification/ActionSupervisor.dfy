/**
 Admission of action work: permits, the registry of actions in flight, and the phases of a submission. A step is a
 section under the lock, an operation on the semaphore, or something the executor does.
 */
module ActionSupervisor {
  import opened Prelude

  type InvocationId = string
  type ActionId = string

  datatype Future = NoFuture | Pending | Running | Done

  datatype Phase =
    | Checked      // the supervisor was seen open
    | Admitted     // holds a permit
    | Registered   // its action is in the registry
    | Submitted    // the executor has its future
    | Watched      // the future can be looked up
    | Attached     // the completion callback is set
    | Failed       // the submission raised after it had an invocation
    | Unregistered // about to give its permit back after a failure
    | Released     // the callback has given the permit back

  datatype Submission = Submission(id: InvocationId, action: ActionId, reject: bool, phase: Phase, future: Future)

  datatype State = State(
    permits: int,
    closed: bool,
    executorDown: bool,
    actionIds: map<InvocationId, ActionId>,
    futures: map<InvocationId, nat>,
    subs: map<nat, Submission>)

  datatype Config = Config(workers: nat, queueCapacity: nat)

  function Total(cfg: Config): int {
    cfg.workers + cfg.queueCapacity
  }

  datatype Step =
    | Arrive(t: nat, id: InvocationId, action: ActionId, reject: bool)
    | Acquire(t: nat)
    | ContextFails(t: nat)
    | Register(t: nat)
    | PersistFails(t: nat)
    | ToExecutor(t: nat)
    | Watch(t: nat)
    | Attach(t: nat)
    | Start(t: nat)
    | Finish(t: nat)
    | CancelQueued(t: nat)
    | Unregister(t: nat)
    | GiveBack(t: nat)
    | ReleasePermit(t: nat)
    | Forget(t: nat)
    | Close
    | StopExecutor

  predicate InPhase(s: State, t: nat, p: Phase) {
    t in s.subs && s.subs[t].phase == p
  }

  predicate HasFuture(s: State, t: nat, f: Future) {
    t in s.subs && s.subs[t].future == f
  }

  predicate Enabled(s: State, step: Step) {
    match step
    case Arrive(t, _, _, _) => t !in s.subs
    case Acquire(t) => InPhase(s, t, Checked)
    case ContextFails(t) => InPhase(s, t, Admitted)
    case Register(t) => InPhase(s, t, Admitted)
    case PersistFails(t) => InPhase(s, t, Registered)
    case ToExecutor(t) => InPhase(s, t, Registered)
    case Watch(t) => InPhase(s, t, Submitted)
    case Attach(t) => InPhase(s, t, Watched)
    case Start(t) => HasFuture(s, t, Pending)
    case Finish(t) => HasFuture(s, t, Running)
    case CancelQueued(t) => HasFuture(s, t, Pending)
    case Unregister(t) => InPhase(s, t, Failed)
    case GiveBack(t) => InPhase(s, t, Unregistered)
    case ReleasePermit(t) => InPhase(s, t, Attached) && HasFuture(s, t, Done)
    case Forget(t) => InPhase(s, t, Released)
    case Close => true
    case StopExecutor => s.closed
  }

  function To(s: State, t: nat, p: Phase): State
    requires t in s.subs
  {
    s.(subs := s.subs[t := s.subs[t].(phase := p)])
  }

  function WithFuture(s: State, t: nat, f: Future): State
    requires t in s.subs
  {
    s.(subs := s.subs[t := s.subs[t].(future := f)])
  }

  predicate Refused(s: State, action: ActionId, reject: bool) {
    s.closed || (reject && action in s.actionIds.Values)
  }

  function Next(s: State, step: Step): State
    requires Enabled(s, step)
  {
    match step
    case Arrive(t, id, action, reject) =>
      if s.closed then s else s.(subs := s.subs[t := Submission(id, action, reject, Checked, NoFuture)])
    case Acquire(t) =>
      if s.permits > 0 then To(s, t, Admitted).(permits := s.permits - 1) else s.(subs := s.subs - {t})
    case ContextFails(t) => To(s, t, Unregistered)
    case Register(t) =>
      if Refused(s, s.subs[t].action, s.subs[t].reject) then To(s, t, Failed)
      else To(s, t, Registered).(actionIds := s.actionIds[s.subs[t].id := s.subs[t].action])
    case PersistFails(t) => To(s, t, Failed)
    case ToExecutor(t) =>
      if s.executorDown then To(s, t, Failed) else To(WithFuture(s, t, Pending), t, Submitted)
    case Watch(t) => To(s, t, Watched).(futures := s.futures[s.subs[t].id := t])
    case Attach(t) => To(s, t, Attached)
    case Start(t) => WithFuture(s, t, Running)
    case Finish(t) => WithFuture(s, t, Done)
    case CancelQueued(t) => WithFuture(s, t, Done)
    case Unregister(t) => To(s, t, Unregistered).(actionIds := s.actionIds - {s.subs[t].id})
    case GiveBack(t) => s.(permits := s.permits + 1, subs := s.subs - {t})
    case ReleasePermit(t) => To(s, t, Released).(permits := s.permits + 1)
    case Forget(t) =>
      s.(futures := s.futures - {s.subs[t].id}, actionIds := s.actionIds - {s.subs[t].id}, subs := s.subs - {t})
    case Close => s.(closed := true)
    case StopExecutor =>
      s.(executorDown := true,
         subs := map t | t in s.subs ::
           if s.subs[t].future == Pending then s.subs[t].(future := Done) else s.subs[t])
  }

  // ---------------------------------------------------------------------------
  // Permits

  predicate HoldsPermit(p: Phase) {
    p != Checked && p != Released
  }

  function Holders(s: State): set<nat> {
    set t | t in s.subs && HoldsPermit(s.subs[t].phase)
  }

  /** Free permits and submissions in flight add up to the workers and the queue. */
  predicate PermitsCounted(cfg: Config, s: State) {
    s.permits >= 0 && s.permits + |Holders(s)| == Total(cfg)
  }

  lemma HolderIff(s: State, step: Step, u: nat)
    requires Enabled(s, step)
    requires !step.GiveBack? && !step.ReleasePermit? && !(step.Acquire? && s.permits > 0)
    ensures u in Holders(Next(s, step)) <==> u in Holders(s)
  {
  }

  lemma PermitsKept(cfg: Config, s: State, step: Step)
    requires PermitsCounted(cfg, s) && Enabled(s, step)
    ensures PermitsCounted(cfg, Next(s, step))
  {
    if step.Acquire? && s.permits > 0 {
      assert Holders(Next(s, step)) == Holders(s) + {step.t};
    } else if step.GiveBack? || step.ReleasePermit? {
      assert Holders(Next(s, step)) == Holders(s) - {step.t};
    } else {
      OtherPermits(s, step);
    }
  }

  lemma OtherPermits(s: State, step: Step)
    requires Enabled(s, step)
    requires !step.GiveBack? && !step.ReleasePermit? && !(step.Acquire? && s.permits > 0)
    ensures Next(s, step).permits == s.permits && Holders(Next(s, step)) == Holders(s)
  {
    hide Holders, To, WithFuture;
    forall u
      ensures u in Holders(Next(s, step)) <==> u in Holders(s)
    {
      HolderIff(s, step, u);
    }
    SamePermits(s, step);
  }

  lemma SamePermits(s: State, step: Step)
    requires Enabled(s, step)
    requires !step.GiveBack? && !step.ReleasePermit? && !(step.Acquire? && s.permits > 0)
    ensures Next(s, step).permits == s.permits
  {
  }

  // ---------------------------------------------------------------------------
  // The registry

  predicate Registers(p: Phase) {
    p == Registered || p == Submitted || p == Watched || p == Attached || p == Released
  }

  predicate IsWatched(p: Phase) {
    p == Watched || p == Attached || p == Released
  }

  /** The invocation of a submission is queued or running, or its completion is not yet noted. */
  predicate InFlight(s: State, t: nat) {
    t in s.subs && Registers(s.subs[t].phase)
  }

  predicate IdsDistinct(s: State) {
    forall t, u :: t in s.subs && u in s.subs && s.subs[t].id == s.subs[u].id ==> t == u
  }

  predicate PhaseSound(s: State, t: nat)
    requires t in s.subs
  {
    var sub := s.subs[t];
    && (Registers(sub.phase) ==> sub.id in s.actionIds && s.actionIds[sub.id] == sub.action)
    && (sub.phase == Checked || sub.phase == Admitted || sub.phase == Unregistered ==> sub.id !in s.actionIds)
    && (IsWatched(sub.phase) <==> sub.id in s.futures && s.futures[sub.id] == t)
    && (sub.future != NoFuture <==> sub.phase == Submitted || IsWatched(sub.phase))
    && (sub.phase == Released ==> sub.future == Done)
    && (sub.phase == Failed && sub.id in s.actionIds ==> s.actionIds[sub.id] == sub.action)
  }

  ghost predicate NoOverlap(s: State) {
    forall t, u :: InFlight(s, t) && InFlight(s, u) && t != u && s.subs[t].action == s.subs[u].action ==>
      !(s.subs[t].reject && s.subs[u].reject)
  }

  predicate FuturesSound(s: State) {
    forall id :: id in s.futures ==> s.futures[id] in s.subs && s.subs[s.futures[id]].id == id
  }

  predicate Owns(s: State, t: nat, id: InvocationId) {
    t in s.subs && s.subs[t].id == id && (Registers(s.subs[t].phase) || s.subs[t].phase == Failed)
  }

  ghost predicate RegistrySound(s: State) {
    forall id :: id in s.actionIds ==> exists t :: Owns(s, t, id)
  }

  ghost predicate Invariant(cfg: Config, s: State) {
    && PermitsCounted(cfg, s)
    && IdsDistinct(s)
    && (forall t :: t in s.subs ==> PhaseSound(s, t))
    && FuturesSound(s)
    && RegistrySound(s)
    && NoOverlap(s)
  }

  /** No submission names an invocation that is in flight. */
  predicate FreshId(s: State, step: Step) {
    step.Arrive? ==> forall t :: t in s.subs ==> s.subs[t].id != step.id
  }

  lemma RegistryKept(s: State, step: Step)
    requires IdsDistinct(s) && RegistrySound(s) && Enabled(s, step)
    ensures RegistrySound(Next(s, step))
  {
    hide IdsDistinct;
    var next := Next(s, step);
    forall id | id in next.actionIds
      ensures exists t :: Owns(next, t, id)
    {
      if id in s.actionIds {
        var t :| Owns(s, t, id);
        OwnerStays(s, step, t, id);
      } else {
        assert Owns(next, step.t, id);
      }
    }
  }

  lemma OwnerStays(s: State, step: Step, t: nat, id: InvocationId)
    requires Owns(s, t, id) && Enabled(s, step) && id in Next(s, step).actionIds
    ensures Owns(Next(s, step), t, id)
  {
  }

  lemma FreshIsNowhere(s: State, step: Step)
    requires RegistrySound(s) && FuturesSound(s) && step.Arrive? && FreshId(s, step)
    ensures step.id !in s.actionIds && step.id !in s.futures
  {
    forall id | id in s.actionIds
      ensures id != step.id
    {
      var t :| Owns(s, t, id);
    }
  }

  function TokenOf(step: Step): Option<nat> {
    if step.Close? || step.StopExecutor? then None else Some(step.t)
  }

  /** A step on one submission leaves the others, and what is kept under their ids. */
  lemma OtherSubmission(s: State, step: Step, u: nat)
    requires Enabled(s, step) && u in s.subs && TokenOf(step) != Some(u)
    ensures u in Next(s, step).subs
    ensures Next(s, step).subs[u] ==
      if step.StopExecutor? && s.subs[u].future == Pending then s.subs[u].(future := Done) else s.subs[u]
  {
  }

  predicate OtherId(s: State, step: Step, u: nat)
    requires u in s.subs
  {
    TokenOf(step).Some? && step.t in s.subs ==> s.subs[step.t].id != s.subs[u].id
  }

  lemma IdsDiffer(s: State, step: Step, u: nat)
    requires IdsDistinct(s) && u in s.subs && TokenOf(step) != Some(u)
    ensures OtherId(s, step, u)
  {
  }

  lemma OtherEntry(s: State, step: Step, u: nat)
    requires Enabled(s, step) && u in s.subs && OtherId(s, step, u)
    ensures
      var next, id := Next(s, step), s.subs[u].id;
      && (id in next.actionIds <==> id in s.actionIds)
      && (id in s.actionIds ==> next.actionIds[id] == s.actionIds[id])
  {
  }

  lemma OtherFuture(s: State, step: Step, u: nat)
    requires Enabled(s, step) && u in s.subs && OtherId(s, step, u)
    ensures
      var next, id := Next(s, step), s.subs[u].id;
      && (id in next.futures <==> id in s.futures)
      && (id in s.futures ==> next.futures[id] == s.futures[id])
  {
  }

  /** The steps by which a submission gets to the executor; the others end it. */
  predicate Admits(step: Step) {
    step.Arrive? || step.Acquire? || step.ContextFails? || step.Register? || step.PersistFails? || step.ToExecutor?
    || step.Watch? || step.Attach?
  }

  lemma OwnPhaseAdmitted(s: State, step: Step)
    requires step.Arrive? ==> step.id !in s.actionIds && step.id !in s.futures
    requires Enabled(s, step) && Admits(step) && (step.t in s.subs ==> PhaseSound(s, step.t))
    requires step.t in Next(s, step).subs
    ensures PhaseSound(Next(s, step), step.t)
  {
  }

  lemma OwnPhaseEnding(s: State, step: Step)
    requires Enabled(s, step) && !Admits(step) && TokenOf(step).Some? && (step.t in s.subs ==> PhaseSound(s, step.t))
    requires step.t in Next(s, step).subs
    ensures PhaseSound(Next(s, step), step.t)
  {
  }

  lemma OwnPhase(s: State, step: Step)
    requires step.Arrive? ==> step.id !in s.actionIds && step.id !in s.futures
    requires Enabled(s, step) && TokenOf(step).Some? && (step.t in s.subs ==> PhaseSound(s, step.t))
    requires step.t in Next(s, step).subs
    ensures PhaseSound(Next(s, step), step.t)
  {
    hide Next, Enabled, PhaseSound;
    if Admits(step) {
      OwnPhaseAdmitted(s, step);
    } else {
      OwnPhaseEnding(s, step);
    }
  }

  lemma PhasesKept(s: State, step: Step, u: nat)
    requires step.Arrive? ==> step.id !in s.actionIds && step.id !in s.futures
    requires IdsDistinct(s) && (forall t :: t in s.subs ==> PhaseSound(s, t))
    requires Enabled(s, step) && FreshId(s, step) && u in Next(s, step).subs
    ensures PhaseSound(Next(s, step), u)
  {
    hide Next, IdsDistinct, FreshId, Enabled;
    if TokenOf(step) == Some(u) {
      OwnPhase(s, step);
    } else {
      SubsShape(s, step);
      OtherSubmission(s, step, u);
      IdsDiffer(s, step, u);
      OtherEntry(s, step, u);
      OtherFuture(s, step, u);
    }
  }

  predicate SameSubmission(a: Submission, b: Submission) {
    a.id == b.id && a.action == b.action && a.reject == b.reject
  }

  lemma SubsShape(s: State, step: Step)
    requires Enabled(s, step)
    ensures forall u :: u in Next(s, step).subs ==>
      || (u in s.subs && SameSubmission(s.subs[u], Next(s, step).subs[u]))
      || (step.Arrive? && u == step.t && Next(s, step).subs[u].id == step.id)
  {
  }

  lemma IdsKept(s: State, step: Step)
    requires IdsDistinct(s) && Enabled(s, step) && FreshId(s, step)
    ensures IdsDistinct(Next(s, step))
  {
    hide Next, Enabled;
    SubsShape(s, step);
  }

  lemma FutureStays(s: State, step: Step, id: InvocationId)
    requires Enabled(s, step) && id in Next(s, step).futures
    requires TokenOf(step).Some? && step.t in s.subs ==> PhaseSound(s, step.t)
    requires id in s.futures ==> s.futures[id] in s.subs && s.subs[s.futures[id]].id == id
    ensures Next(s, step).futures[id] in Next(s, step).subs
    ensures Next(s, step).subs[Next(s, step).futures[id]].id == id
  {
  }

  lemma TokenIn(s: State, step: Step)
    requires Enabled(s, step)
    ensures TokenOf(step).Some? && !step.Arrive? ==> step.t in s.subs
    ensures step.Arrive? ==> step.t !in s.subs
  {
  }

  lemma FuturesKept(s: State, step: Step)
    requires FuturesSound(s) && Enabled(s, step)
    requires forall t :: t in s.subs ==> PhaseSound(s, t)
    ensures FuturesSound(Next(s, step))
  {
    hide Next, PhaseSound, Enabled;
    TokenIn(s, step);
    forall id | id in Next(s, step).futures
      ensures Next(s, step).futures[id] in Next(s, step).subs
      ensures Next(s, step).subs[Next(s, step).futures[id]].id == id
    {
      FutureStays(s, step, id);
    }
  }

  lemma InFlightAdmitted(s: State, step: Step, u: nat)
    requires Enabled(s, step) && Admits(step) && InFlight(Next(s, step), u)
    ensures InFlight(s, u) || (step == Register(u) && !Refused(s, s.subs[u].action, s.subs[u].reject))
  {
  }

  lemma InFlightEnding(s: State, step: Step, u: nat)
    requires Enabled(s, step) && !Admits(step) && InFlight(Next(s, step), u)
    ensures InFlight(s, u)
  {
  }

  lemma NewlyInFlight(s: State, step: Step, u: nat)
    requires Enabled(s, step) && InFlight(Next(s, step), u)
    ensures u in s.subs && SameSubmission(s.subs[u], Next(s, step).subs[u])
    ensures InFlight(s, u) || (step == Register(u) && !Refused(s, s.subs[u].action, s.subs[u].reject))
  {
    hide Next, Refused;
    SubsShape(s, step);
    if Admits(step) {
      InFlightAdmitted(s, step, u);
    } else {
      InFlightEnding(s, step, u);
    }
  }

  lemma NotRefused(s: State, action: ActionId, u: nat)
    requires !Refused(s, action, true) && InFlight(s, u) && PhaseSound(s, u)
    ensures s.subs[u].action != action
  {
    assert s.actionIds[s.subs[u].id] == s.subs[u].action;
  }

  lemma OverlapKept(s: State, step: Step)
    requires NoOverlap(s) && Enabled(s, step) && forall t :: t in s.subs ==> PhaseSound(s, t)
    ensures NoOverlap(Next(s, step))
  {
    hide Next, PhaseSound, Enabled, Refused;
    var next := Next(s, step);
    forall t, u | InFlight(next, t) && InFlight(next, u) && t != u && next.subs[t].action == next.subs[u].action
      ensures !(next.subs[t].reject && next.subs[u].reject)
    {
      NewlyInFlight(s, step, t);
      NewlyInFlight(s, step, u);
      if s.subs[t].reject && s.subs[u].reject {
        if !InFlight(s, t) {
          NotRefused(s, s.subs[t].action, u);
        } else if !InFlight(s, u) {
          NotRefused(s, s.subs[u].action, t);
        }
      }
    }
  }

  lemma StepKeeps(cfg: Config, s: State, step: Step)
    requires Invariant(cfg, s) && Enabled(s, step) && FreshId(s, step)
    ensures Invariant(cfg, Next(s, step))
  {
    hide Next, PhaseSound, PermitsCounted, IdsDistinct, FuturesSound, RegistrySound, NoOverlap, Enabled, FreshId;
    PermitsKept(cfg, s, step);
    RegistryKept(s, step);
    if step.Arrive? {
      FreshIsNowhere(s, step);
    }
    IdsKept(s, step);
    FuturesKept(s, step);
    OverlapKept(s, step);
    forall t | t in Next(s, step).subs
      ensures PhaseSound(Next(s, step), t)
    {
      PhasesKept(s, step, t);
    }
  }

  predicate AllEnabled(s: State, steps: seq<Step>)
    decreases |steps|
  {
    steps == [] || (Enabled(s, steps[0]) && AllEnabled(Next(s, steps[0]), steps[1..]))
  }

  predicate AllFresh(s: State, steps: seq<Step>)
    requires AllEnabled(s, steps)
    decreases |steps|
  {
    steps == [] || (FreshId(s, steps[0]) && AllFresh(Next(s, steps[0]), steps[1..]))
  }

  function Run(s: State, steps: seq<Step>): State
    requires AllEnabled(s, steps)
    decreases |steps|
  {
    if steps == [] then s else Run(Next(s, steps[0]), steps[1..])
  }

  /** Whatever the ids, every order of steps keeps the permits counted: each is given back exactly once. */
  lemma {:induction false} PermitsKeptInRun(cfg: Config, s: State, steps: seq<Step>)
    requires PermitsCounted(cfg, s) && AllEnabled(s, steps)
    ensures PermitsCounted(cfg, Run(s, steps))
    decreases |steps|
  {
    hide Next, PermitsCounted, Enabled;
    if steps != [] {
      PermitsKept(cfg, s, steps[0]);
      PermitsKeptInRun(cfg, Next(s, steps[0]), steps[1..]);
    }
  }

  /** Over every run with fresh ids, two invocations of an action under `reject_if_running` are never in flight. */
  lemma {:induction false} RunKeeps(cfg: Config, s: State, steps: seq<Step>)
    requires Invariant(cfg, s) && AllEnabled(s, steps) && AllFresh(s, steps)
    ensures Invariant(cfg, Run(s, steps))
    decreases |steps|
  {
    hide Next, Invariant, Enabled, FreshId;
    if steps != [] {
      StepKeeps(cfg, s, steps[0]);
      RunKeeps(cfg, Next(s, steps[0]), steps[1..]);
    }
  }

  function Start0(cfg: Config): State {
    State(Total(cfg), false, false, map[], map[], map[])
  }

  lemma StartsSound(cfg: Config)
    ensures Invariant(cfg, Start0(cfg))
  {
    assert Holders(Start0(cfg)) == {};
  }

  /** When nothing is in flight any more, all permits are free and nothing is registered or looked up. */
  lemma QuietSupervisor(cfg: Config, s: State)
    requires Invariant(cfg, s) && s.subs == map[]
    ensures s.permits == Total(cfg) && s.actionIds == map[] && s.futures == map[]
  {
    assert Holders(s) == {};
    assert forall t, id :: !Owns(s, t, id);
    assert forall id :: id !in s.actionIds && id !in s.futures;
    assert s.actionIds == map[] && s.futures == map[];
  }

  // ---------------------------------------------------------------------------
  // A caller-supplied id that is in flight

  /** A submission that the registry refuses. */
  function RefusedSubmission(t: nat, id: InvocationId, action: ActionId): seq<Step> {
    [Arrive(t, id, action, true), Acquire(t), Register(t), Unregister(t), GiveBack(t)]
  }

  /** A submission up to the registry, which may let it in. */
  function UpToRegistry(t: nat, id: InvocationId, action: ActionId, reject: bool): seq<Step> {
    [Arrive(t, id, action, reject), Acquire(t), Register(t)]
  }

  /** The state after some steps, if each of them is enabled. */
  function After(s: State, steps: seq<Step>): Option<State>
    decreases |steps|
  {
    if steps == [] then Some(s)
    else if Enabled(s, steps[0]) then After(Next(s, steps[0]), steps[1..])
    else None
  }

  lemma FirstStep(s: State, step: Step, rest: seq<Step>)
    requires Enabled(s, step)
    ensures After(s, [step] + rest) == After(Next(s, step), rest)
  {
    assert ([step] + rest)[1..] == rest;
  }

  lemma NoSteps(s: State)
    ensures After(s, []) == Some(s)
  {
  }

  lemma AtRegister(s: State, t: nat, id: InvocationId, action: ActionId, reject: bool)
    requires !s.closed && s.permits > 0 && t !in s.subs
    ensures
      var s1 := Next(s, Arrive(t, id, action, reject));
      && Enabled(s1, Acquire(t))
      && var s2 := Next(s1, Acquire(t));
      && Enabled(s2, Register(t))
      && Next(s2, Register(t)) ==
           if reject && action in s.actionIds.Values then
             s.(permits := s.permits - 1, subs := s.subs[t := Submission(id, action, reject, Failed, NoFuture)])
           else
             s.(permits := s.permits - 1, actionIds := s.actionIds[id := action],
                subs := s.subs[t := Submission(id, action, reject, Registered, NoFuture)])
  {
    var s1 := s.(subs := s.subs[t := Submission(id, action, reject, Checked, NoFuture)]);
    var s2 := To(s1, t, Admitted).(permits := s.permits - 1);
    assert Next(s1, Acquire(t)) == s2;
    assert s2.subs[t := s2.subs[t].(phase := Failed)] == s.subs[t := Submission(id, action, reject, Failed, NoFuture)];
    assert s2.subs[t := s2.subs[t].(phase := Registered)]
      == s.subs[t := Submission(id, action, reject, Registered, NoFuture)];
  }

  lemma AtRegistry(s: State, t: nat, id: InvocationId, action: ActionId, reject: bool)
    requires !s.closed && s.permits > 0 && t !in s.subs
    ensures After(s, UpToRegistry(t, id, action, reject))
      == Some(Next(Next(Next(s, Arrive(t, id, action, reject)), Acquire(t)), Register(t)))
  {
    hide After, Next;
    var steps := UpToRegistry(t, id, action, reject);
    AtRegister(s, t, id, action, reject);
    var s1 := Next(s, steps[0]);
    var s2 := Next(s1, steps[1]);
    FirstStep(s, steps[0], [steps[1]] + ([steps[2]] + []));
    FirstStep(s1, steps[1], [steps[2]] + []);
    FirstStep(s2, steps[2], []);
    NoSteps(Next(s2, steps[2]));
    assert [steps[0]] + ([steps[1]] + ([steps[2]] + [])) == steps;
  }

  lemma GivesBack(s: State, failed: State, t: nat)
    requires t !in s.subs && t in failed.subs && failed.subs[t].phase == Failed && failed.subs - {t} == s.subs
    requires failed == s.(permits := s.permits - 1, subs := failed.subs)
    ensures After(failed, [Unregister(t)] + [GiveBack(t)])
      == Some(s.(actionIds := s.actionIds - {failed.subs[t].id}))
  {
    hide After;
    var id := failed.subs[t].id;
    var s4 := To(failed, t, Unregistered).(actionIds := s.actionIds - {id});
    assert Next(failed, Unregister(t)) == s4;
    assert s4.subs - {t} == s.subs;
    FirstStep(failed, Unregister(t), [GiveBack(t)]);
    FirstStep(s4, GiveBack(t), []);
    NoSteps(s.(actionIds := s.actionIds - {id}));
    assert [GiveBack(t)] + [] == [GiveBack(t)];
  }

  /** A refused submission takes the entry of its id with it, whoever made that entry. */
  lemma RefusedTakesEntry(s: State, t: nat, id: InvocationId, action: ActionId)
    requires !s.closed && s.permits > 0 && t !in s.subs && action in s.actionIds.Values
    ensures After(s, RefusedSubmission(t, id, action)) == Some(s.(actionIds := s.actionIds - {id}))
  {
    hide After, Next;
    var steps := RefusedSubmission(t, id, action);
    var failed := s.(permits := s.permits - 1, subs := s.subs[t := Submission(id, action, true, Failed, NoFuture)]);
    AtRegister(s, t, id, action, true);
    GivesBack(s, failed, t);
    assert [steps[3]] + [steps[4]] == [steps[3], steps[4]];
    assert [steps[0]] + ([steps[1]] + ([steps[2]] + [steps[3], steps[4]])) == steps;
    FirstStep(s, steps[0], [steps[1]] + ([steps[2]] + [steps[3], steps[4]]));
    FirstStep(Next(s, steps[0]), steps[1], [steps[2]] + [steps[3], steps[4]]);
    FirstStep(Next(Next(s, steps[0]), steps[1]), steps[2], [steps[3], steps[4]]);
  }

  /** The registry has one entry for the action of an invocation in flight, and it is that invocation's. */
  predicate OnlyEntry(s: State, running: nat) {
    && InFlight(s, running) && PhaseSound(s, running)
    && forall id :: id in s.actionIds && s.actionIds[id] == s.subs[running].action ==> id == s.subs[running].id
  }

  /** A submission of the action of one in flight, under `reject_if_running`: does the registry let it overlap? */
  ghost predicate NextOverlaps(s: State, running: nat, u: nat, other: InvocationId)
    requires running in s.subs
  {
    var end := After(s, UpToRegistry(u, other, s.subs[running].action, true));
    end.Some? && InFlight(end.value, u)
  }

  lemma OverlapsIfUnregistered(s: State, running: nat, u: nat, other: InvocationId)
    requires InFlight(s, running) && !s.closed && s.permits > 0 && u !in s.subs
    ensures NextOverlaps(s, running, u, other) <==> s.subs[running].action !in s.actionIds.Values
    ensures NextOverlaps(s, running, u, other) && s.subs[running].reject ==>
      !NoOverlap(After(s, UpToRegistry(u, other, s.subs[running].action, true)).value)
  {
    hide After, Next;
    var action := s.subs[running].action;
    AtRegister(s, u, other, action, true);
    AtRegistry(s, u, other, action, true);
    var end := After(s, UpToRegistry(u, other, action, true)).value;
    if InFlight(end, u) {
      assert InFlight(end, running) && u != running;
    }
  }

  /**
   Freshness is needed. While an action has one invocation in flight, a refused submission - of that action or of any
   other - lets the next submission of the action overlap exactly when it names that invocation's id.
   */
  lemma RefusedDuplicateIff(s: State, running: nat, t: nat, id: InvocationId, action: ActionId, u: nat, other: InvocationId)
    requires OnlyEntry(s, running) && !s.closed && s.permits > 0 && t !in s.subs && u !in s.subs
    requires action in s.actionIds.Values
    ensures
      var refused := After(s, RefusedSubmission(t, id, action));
      && refused.Some? && refused.value.subs == s.subs
      && (NextOverlaps(refused.value, running, u, other) <==> id == s.subs[running].id)
  {
    hide After, Next;
    RefusedTakesEntry(s, t, id, action);
    var mid := s.(actionIds := s.actionIds - {id});
    OverlapsIfUnregistered(mid, running, u, other);
    assert s.actionIds[s.subs[running].id] == s.subs[running].action;
    if id != s.subs[running].id {
      assert s.subs[running].id in mid.actionIds;
    }
  }

  /**
   A submission that the registry lets in overwrites the entry of its id: the next one of the action in flight overlaps
   exactly when the id is that invocation's and the submission is of another action.
   */
  lemma AcceptedDuplicateIff(s: State, running: nat, t: nat, id: InvocationId, action: ActionId, reject: bool,
                             u: nat, other: InvocationId)
    requires OnlyEntry(s, running) && !s.closed && s.permits > 1 && t !in s.subs && u !in s.subs && t != u
    requires reject ==> action !in s.actionIds.Values
    ensures
      var accepted := After(s, UpToRegistry(t, id, action, reject));
      && accepted.Some? && InFlight(accepted.value, t) && InFlight(accepted.value, running)
      && (NextOverlaps(accepted.value, running, u, other) <==>
            id == s.subs[running].id && action != s.subs[running].action)
  {
    hide After, Next;
    AtRegister(s, t, id, action, reject);
    AtRegistry(s, t, id, action, reject);
    var mid := After(s, UpToRegistry(t, id, action, reject)).value;
    OverlapsIfUnregistered(mid, running, u, other);
    var theirs, ids := s.subs[running].action, mid.actionIds;
    assert s.actionIds[s.subs[running].id] == theirs;
    if action == theirs {
      assert ids[id] == theirs;
    } else if id != s.subs[running].id {
      assert ids[s.subs[running].id] == theirs;
    }
  }
}
