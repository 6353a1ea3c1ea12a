/**
 Application revisions: create, declare, discard, freeze, switch, reject and roll back. An id is the application and
 a number; a revision binds each definition at most once.
 */
module Applications {
  import opened Prelude

  type AppId = string
  type DefRevId = string

  datatype RevId = RevId(app: AppId, number: int)

  datatype RevStatus = Draft | Validating | Active | Rejected | Superseded

  datatype AppStatus = AppActive | Disabled | TriggersPaused | Importing

  datatype Kind = ActionKind | TriggerKind | ObjectTypeKind | RelationTypeKind

  datatype Def = Def(kind: Kind, id: string)

  datatype Revision = Revision(app: AppId, parent: Option<RevId>, status: RevStatus)

  datatype App = App(active: Option<RevId>, status: AppStatus)

  datatype Definition = Definition(owner: AppId, active: Option<DefRevId>)

  /** An object or a relation of an application, in one of its data spaces. */
  datatype Item = Item(app: AppId, space: string, id: string)

  datatype Relation = Relation(from: string, to: string, value: string)

  datatype Graph = Graph(
    apps: map<AppId, App>,
    appEdges: set<(AppId, RevId)>,
    revs: map<RevId, Revision>,
    bound: map<RevId, map<Def, DefRevId>>,
    defs: map<Def, Definition>,
    defEdges: set<(Def, DefRevId)>,
    objects: map<Item, string>,
    relations: map<Item, Relation>)

  datatype Failure =
    | UnknownApplication | UnknownRevision | OtherDraft | UnknownParent | NotDraft | NotActivatable | OtherApplication
    | NeverActive | DanglingActive | StaleActiveEdge | UnknownDefinition

  // ---------------------------------------------------------------------------
  // Lookups

  function Revisions(g: Graph, app: AppId): set<RevId> {
    set id | id in g.revs && g.revs[id].app == app
  }

  function Count(g: Graph, app: AppId): nat {
    |Revisions(g, app)|
  }

  function Drafts(g: Graph, app: AppId): set<RevId> {
    set id | id in g.revs && g.revs[id].app == app && g.revs[id].status == Draft
  }

  function BoundBy(g: Graph, rev: RevId): map<Def, DefRevId> {
    if rev in g.bound then g.bound[rev] else map[]
  }

  function WithStatus(g: Graph, rev: RevId, status: RevStatus): Graph
    requires rev in g.revs
  {
    g.(revs := g.revs[rev := g.revs[rev].(status := status)])
  }

  // ---------------------------------------------------------------------------
  // Operations

  function ResolveParent(g: Graph, app: AppId, given: Option<RevId>): Result<Option<RevId>, Failure>
    requires app in g.apps
  {
    if given.Some? then
      if given.value in g.revs && g.revs[given.value].app == app then Ok(given) else Err(UnknownParent)
    else if g.apps[app].active.Some? && g.apps[app].active.value in g.revs then Ok(g.apps[app].active)
    else Ok(None)
  }

  /** Whether a request for a revision is met by the draft there is. */
  predicate DraftServes(g: Graph, draft: RevId, given: Option<RevId>)
    requires draft in g.revs
  {
    given.None? || given.value == draft || g.revs[draft].parent == given
  }

  /** `draft` is the draft of the application, if it has one. */
  function CreateRevision(g: Graph, app: AppId, given: Option<RevId>, draft: Option<RevId>): (Graph, Result<RevId, Failure>)
    requires draft.Some? ==> draft.value in g.revs
  {
    if app !in g.apps then (g, Err(UnknownApplication))
    else if draft.Some? then
      (g, if DraftServes(g, draft.value, given) then Ok(draft.value) else Err(OtherDraft))
    else
      var parent := ResolveParent(g, app, given);
      if parent.Err? then (g, Err(parent.error))
      else
        var id := RevId(app, Count(g, app) + 1);
        (g.(revs := g.revs[id := Revision(app, parent.value, Draft)],
            bound := g.bound[id := BoundBy(g, id) + if parent.value.Some? then BoundBy(g, parent.value.value) else map[]]),
         Ok(id))
  }

  /** Declare a definition on a draft: its record is kept whoever owns it, and made if there is none. */
  function Declare(g: Graph, rev: RevId, def: Def, target: DefRevId): (Graph, Option<Failure>) {
    if rev !in g.revs then (g, Some(UnknownRevision))
    else if g.revs[rev].status != Draft then (g, Some(NotDraft))
    else
      (g.(defs := if def in g.defs then g.defs else g.defs[def := Definition(g.revs[rev].app, None)],
          bound := g.bound[rev := BoundBy(g, rev)[def := target]]),
       None)
  }

  function DiscardRevision(g: Graph, rev: RevId): (Graph, Option<Failure>) {
    if rev !in g.revs then (g, Some(UnknownRevision))
    else if g.revs[rev].status != Draft then (g, Some(NotDraft))
    else (g.(revs := g.revs - {rev}, bound := g.bound - {rev}), None)
  }

  function Freeze(g: Graph, rev: RevId): (Graph, Option<Failure>) {
    if rev !in g.revs then (g, Some(UnknownRevision))
    else if g.revs[rev].status != Draft && g.revs[rev].status != Validating then (g, Some(NotActivatable))
    else (WithStatus(g, rev, Validating), None)
  }

  function Reject(g: Graph, rev: RevId): Graph {
    if rev in g.revs && g.revs[rev].status == Validating then WithStatus(g, rev, Rejected) else g
  }

  /** A package import that failed is tried again. */
  function Reopen(g: Graph, rev: RevId): Graph {
    if rev in g.revs && g.revs[rev].status == Rejected then WithStatus(g, rev, Validating) else g
  }

  function TargetsOfApp(g: Graph, app: AppId): set<RevId> {
    set e | e in g.appEdges && e.0 == app :: e.1
  }

  function ActiveSet(active: Option<RevId>): set<RevId> {
    if active.Some? then {active.value} else {}
  }

  /** Make every definition that the revision binds active at that binding. */
  function ActivateDefinitions(g: Graph, rev: RevId): Graph {
    var bound := BoundBy(g, rev);
    g.(defs := map d | d in g.defs :: if d in bound then g.defs[d].(active := Some(bound[d])) else g.defs[d],
       defEdges := (set e | e in g.defEdges && e.0 !in bound) + (set d | d in bound :: (d, bound[d])))
  }

  function StatusAfter(status: AppStatus): AppStatus {
    if status == Disabled then TriggersPaused else status
  }

  /** What an active pointer is moved to, without the definitions. */
  function Point(g: Graph, rev: RevId): Graph
    requires rev in g.revs && g.revs[rev].app in g.apps
  {
    var app := g.revs[rev].app;
    var current := g.apps[app].active;
    var revs := if current.Some? && current.value in g.revs && current.value != rev
                then g.revs[current.value := g.revs[current.value].(status := Superseded)] else g.revs;
    g.(revs := revs[rev := g.revs[rev].(status := Active)],
       apps := g.apps[app := App(Some(rev), StatusAfter(g.apps[app].status))],
       appEdges := (set e | e in g.appEdges && e.0 != app) + {(app, rev)})
  }

  function ActivateEdges(g: Graph, rev: RevId): (Graph, Option<Failure>) {
    if rev !in g.revs then (g, Some(UnknownRevision))
    else if g.revs[rev].app !in g.apps then (g, Some(UnknownApplication))
    else
      var app := g.revs[rev].app;
      var current := g.apps[app].active;
      if current.Some? && current.value !in g.revs then (g, Some(DanglingActive))
      else if TargetsOfApp(g, app) != ActiveSet(current) then (g, Some(StaleActiveEdge))
      else if !(BoundBy(g, rev).Keys <= g.defs.Keys) then (g, Some(UnknownDefinition))
      else (ActivateDefinitions(Point(g, rev), rev), None)
  }

  function Rollback(g: Graph, app: AppId, rev: RevId): (Graph, Option<Failure>) {
    if rev !in g.revs then (g, Some(UnknownRevision))
    else if g.revs[rev].app != app then (g, Some(OtherApplication))
    else if g.revs[rev].status != Active && g.revs[rev].status != Superseded then (g, Some(NeverActive))
    else ActivateEdges(g, rev)
  }

  // ---------------------------------------------------------------------------
  // What every run keeps

  /** The revisions of an application are numbered 1 to n, and a draft is the last of them. */
  predicate Numbered(g: Graph) {
    && (forall id :: id in g.revs ==> g.revs[id].app == id.app && id.app in g.apps && 1 <= id.number <= Count(g, id.app))
    && (forall id :: id in g.revs && g.revs[id].status == Draft ==> id.number == Count(g, id.app))
  }

  /** The active pointer, its edge and the active status name the same single revision. */
  predicate OneActive(g: Graph, app: AppId)
    requires app in g.apps
  {
    && (forall id :: id in g.revs && g.revs[id].app == app ==>
          (g.revs[id].status == Active <==> g.apps[app].active == Some(id)))
    && (g.apps[app].active.Some? ==> g.apps[app].active.value in g.revs && g.revs[g.apps[app].active.value].app == app)
    && TargetsOfApp(g, app) == ActiveSet(g.apps[app].active)
  }

  predicate AllOneActive(g: Graph) {
    && (forall e :: e in g.appEdges ==> e.0 in g.apps)
    && forall app :: app in g.apps ==> OneActive(g, app)
  }

  /** Only revisions bind, and only definitions of their own application. */
  predicate BoundSound(g: Graph) {
    && g.bound.Keys <= g.revs.Keys
    && forall rev, d :: rev in g.bound && d in g.bound[rev] ==>
         d in g.defs && g.defs[d].owner == rev.app
  }

  /** Every definition that an active revision binds is active at that binding. */
  predicate DefinitionsActive(g: Graph) {
    forall app, d :: app in g.apps && g.apps[app].active.Some? && d in BoundBy(g, g.apps[app].active.value) ==>
      d in g.defs && g.defs[d].active == Some(BoundBy(g, g.apps[app].active.value)[d])
  }

  predicate DefEdgesSound(g: Graph) {
    && (forall e :: e in g.defEdges ==> e.0 in g.defs && g.defs[e.0].active == Some(e.1))
    && (forall d :: d in g.defs && g.defs[d].active.Some? ==> (d, g.defs[d].active.value) in g.defEdges)
  }

  predicate Invariant(g: Graph) {
    Numbered(g) && AllOneActive(g) && BoundSound(g) && DefinitionsActive(g) && DefEdgesSound(g)
  }

  datatype Op =
    | AddApplication(app: AppId)
    | Create(app: AppId, parent: Option<RevId>)
    | DeclareOn(rev: RevId, def: Def, target: DefRevId)
    | Discard(rev: RevId)
    | FreezeIt(rev: RevId)
    | Switch(rev: RevId)
    | RejectIt(rev: RevId)
    | ReopenIt(rev: RevId)
    | RollbackTo(app: AppId, rev: RevId)
    | SetStatus(app: AppId, status: AppStatus)

  function TheDraft(g: Graph, app: AppId): (draft: Option<RevId>)
    ensures draft.Some? ==> draft.value in g.revs
  {
    var last := RevId(app, Count(g, app));
    if last in g.revs && g.revs[last].status == Draft then Some(last) else None
  }

  function Next(g: Graph, op: Op): Graph {
    match op
    case AddApplication(app) => if app in g.apps then g else g.(apps := g.apps[app := App(None, AppActive)])
    case Create(app, parent) => CreateRevision(g, app, parent, TheDraft(g, app)).0
    case DeclareOn(rev, d, target) => Declare(g, rev, d, target).0
    case Discard(rev) => DiscardRevision(g, rev).0
    case FreezeIt(rev) => Freeze(g, rev).0
    case Switch(rev) => ActivateEdges(g, rev).0
    case RejectIt(rev) => Reject(g, rev)
    case ReopenIt(rev) => Reopen(g, rev)
    case RollbackTo(app, rev) => Rollback(g, app, rev).0
    case SetStatus(app, status) => if app in g.apps then g.(apps := g.apps[app := g.apps[app].(status := status)]) else g
  }

  /**
   A switch follows a freeze, so its revision is no draft. No application declares a definition that another one owns:
   the source does not check this.
   */
  predicate Regular(g: Graph, op: Op) {
    match op
    case Switch(rev) => rev in g.revs ==> g.revs[rev].status != Draft
    case DeclareOn(rev, d, _) => rev in g.revs && d in g.defs ==> g.defs[d].owner == g.revs[rev].app
    case _ => true
  }
}
