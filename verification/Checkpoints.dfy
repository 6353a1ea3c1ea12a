/** Checkpoints of an application, their restoration, and activation with its failure path. */
module Checkpoints {
  import opened Prelude
  import opened Applications
  import opened ApplicationsProofs

  const PRODUCTION := "production"

  datatype Level = RevisionLevel | DataLevel

  datatype Snapshot = Snapshot(
    app: AppId,
    level: Level,
    active: Option<RevId>,
    statuses: map<RevId, RevStatus>,
    definitions: map<Def, Option<DefRevId>>,
    objects: map<Item, string>,
    relations: map<Item, Relation>)

  // ---------------------------------------------------------------------------
  // Data

  predicate IsProduction(app: AppId, item: Item) {
    item.app == app && item.space == PRODUCTION
  }

  function ProductionObjects(g: Graph, app: AppId): map<Item, string> {
    map i | i in g.objects && IsProduction(app, i) :: g.objects[i]
  }

  function ProductionRelations(g: Graph, app: AppId): map<Item, Relation> {
    map i | i in g.relations && IsProduction(app, i) :: g.relations[i]
  }

  predicate EndsIn(objects: map<Item, string>, i: Item, r: Relation) {
    Item(i.app, i.space, r.from) in objects && Item(i.app, i.space, r.to) in objects
  }

  /** Every relation is between objects of its own application and data space. */
  predicate EndsSound(g: Graph) {
    forall i :: i in g.relations ==> EndsIn(g.objects, i, g.relations[i])
  }

  /** Replace the production data of an application; a relation is only made between objects there are. */
  function WithData(g: Graph, app: AppId, objects: map<Item, string>, relations: map<Item, Relation>): Graph {
    var kept := map i | i in g.objects && !IsProduction(app, i) :: g.objects[i];
    var all := kept + objects;
    g.(objects := all,
       relations := (map i | i in g.relations && !IsProduction(app, i) :: g.relations[i])
                    + (map i | i in relations && EndsIn(all, i, relations[i]) :: relations[i]))
  }

  // ---------------------------------------------------------------------------
  // Capture and restore

  function Capture(g: Graph, app: AppId, level: Level): Snapshot
    requires app in g.apps
  {
    Snapshot(
      app, level, g.apps[app].active,
      map id | id in g.revs && g.revs[id].app == app :: g.revs[id].status,
      map d | d in g.defs && g.defs[d].owner == app :: g.defs[d].active,
      if level == DataLevel then ProductionObjects(g, app) else map[],
      if level == DataLevel then ProductionRelations(g, app) else map[])
  }

  /** Part of a map: the entries whose keys are chosen, with their values. */
  ghost predicate IsPart<K(!new), V>(part: map<K, V>, whole: map<K, V>, chosen: K -> bool) {
    forall k: K :: (k in part <==> k in whole && chosen(k)) && (k in part ==> part[k] == whole[k])
  }

  /** What a snapshot holds: the pointer, the statuses and the definitions of the application, and at one level its data. */
  ghost predicate Holds(snap: Snapshot, g: Graph, app: AppId, level: Level) {
    && app in g.apps && snap.app == app && snap.level == level && snap.active == g.apps[app].active
    && (forall id: RevId :: id in snap.statuses <==> id in g.revs && g.revs[id].app == app)
    && (forall id :: id in snap.statuses ==> snap.statuses[id] == g.revs[id].status)
    && (forall d: Def :: d in snap.definitions <==> d in g.defs && g.defs[d].owner == app)
    && (forall d :: d in snap.definitions ==> snap.definitions[d] == g.defs[d].active)
    && IsPart(snap.objects, g.objects, (i: Item) => level.DataLevel? && i.app == app && i.space == "production")
    && IsPart(snap.relations, g.relations, (i: Item) => level.DataLevel? && i.app == app && i.space == "production")
  }

  lemma CaptureHolds(g: Graph, app: AppId, level: Level)
    requires app in g.apps
    ensures Holds(Capture(g, app, level), g, app, level)
  {
  }

  function RestoreState(g: Graph, snap: Snapshot): Graph
    requires snap.app in g.apps
  {
    var app := snap.app;
    g.(apps := g.apps[app := g.apps[app].(active := snap.active)],
       appEdges := (set e | e in g.appEdges && e.0 != app)
                   + (if snap.active.Some? && snap.active.value in g.revs then {(app, snap.active.value)} else {}),
       revs := map id | id in g.revs ::
         if id in snap.statuses then g.revs[id].(status := snap.statuses[id]) else g.revs[id],
       defs := map d | d in g.defs ::
         if d in snap.definitions then g.defs[d].(active := snap.definitions[d]) else g.defs[d],
       defEdges := (set e | e in g.defEdges && e.0 !in snap.definitions)
                   + (set d | d in snap.definitions && snap.definitions[d].Some? :: (d, snap.definitions[d].value)))
  }

  function Restore(g: Graph, snap: Snapshot): Result<Graph, Failure> {
    if snap.app !in g.apps then Err(UnknownApplication)
    else if !(snap.definitions.Keys <= g.defs.Keys) then Err(UnknownDefinition)
    else
      var restored := RestoreState(g, snap);
      Ok(if snap.level == DataLevel then WithData(restored, snap.app, snap.objects, snap.relations) else restored)
  }

  // ---------------------------------------------------------------------------
  // Activation

  /** What the parts outside the graph do: which of them fail, and what the migrations leave as production data. */
  datatype Plan = Plan(
    packageInstall: bool,
    artifactsFail: bool,
    declaresMutation: bool,
    objects: map<Item, string>,
    relations: map<Item, Relation>,
    migrationFails: bool,
    restoreFails: bool,
    evictFails: bool,
    remountFails: bool)

  datatype Outcome =
    | Activated | ActivatedNotMounted | Refused(failure: Failure) | ArtifactsFailed | MigrationFailed | EvictionFailed

  function Migrated(g: Graph, rev: RevId, plan: Plan): Graph
    requires rev in g.revs
  {
    var app := g.revs[rev].app;
    WithData(g, app, map i | i in plan.objects && IsProduction(app, i) :: plan.objects[i],
             map i | i in plan.relations && IsProduction(app, i) :: plan.relations[i])
  }

  /** Undo the data when a checkpoint was taken and can be restored, and reject the revision. */
  function GiveUp(g: Graph, rev: RevId, taken: Option<Snapshot>, plan: Plan): Graph {
    var back := if taken.Some? && !plan.restoreFails then Restore(g, taken.value) else Ok(g);
    Reject(if back.Ok? then back.value else g, rev)
  }

  function CheckpointIfMutating(g: Graph, rev: RevId, plan: Plan): Option<Snapshot>
    requires rev in g.revs && g.revs[rev].app in g.apps
  {
    if plan.declaresMutation then Some(Capture(g, g.revs[rev].app, DataLevel)) else None
  }

  /** A switch leaves another revision behind, whose processes are evicted. */
  predicate Supersedes(g: Graph, rev: RevId)
    requires rev in g.revs && g.revs[rev].app in g.apps
  {
    var current := g.apps[g.revs[rev].app].active;
    current.Some? && current.value != rev
  }

  function Activate(g: Graph, rev: RevId, plan: Plan): (Graph, Outcome)
    requires rev in g.revs ==> g.revs[rev].app in g.apps
  {
    var (frozen, refused) := Freeze(g, rev);
    if refused.Some? then (GiveUp(g, rev, None, plan), Refused(refused.value))
    else if plan.artifactsFail then (GiveUp(frozen, rev, None, plan), ArtifactsFailed)
    else
      var taken := if plan.packageInstall then None else CheckpointIfMutating(frozen, rev, plan);
      var migrated := if plan.packageInstall then frozen else Migrated(frozen, rev, plan);
      if !plan.packageInstall && plan.migrationFails then (GiveUp(migrated, rev, taken, plan), MigrationFailed)
      else
        var (switched, failure) := ActivateEdges(migrated, rev);
        if failure.Some? then (GiveUp(migrated, rev, taken, plan), Refused(failure.value))
        else if plan.evictFails && Supersedes(migrated, rev) then (GiveUp(switched, rev, taken, plan), EvictionFailed)
        else (switched, if !plan.packageInstall && plan.remountFails then ActivatedNotMounted else Activated)
  }

  // ---------------------------------------------------------------------------
  // Restoring

  lemma ObjectsRestored(g: Graph, h: Graph, app: AppId, relations: map<Item, Relation>)
    ensures
      var back := WithData(h, app, ProductionObjects(g, app), relations);
      && ProductionObjects(back, app) == ProductionObjects(g, app)
      && forall i :: !IsProduction(app, i) ==>
           (i in back.objects <==> i in h.objects) && (i in h.objects ==> back.objects[i] == h.objects[i])
  {
  }

  lemma EndsAreProduction(g: Graph, h: Graph, app: AppId, relations: map<Item, Relation>, i: Item)
    requires EndsSound(g) && i in g.relations && IsProduction(app, i)
    ensures EndsIn(WithData(h, app, ProductionObjects(g, app), relations).objects, i, g.relations[i])
  {
    var r := g.relations[i];
    assert IsProduction(app, Item(i.app, i.space, r.from)) && IsProduction(app, Item(i.app, i.space, r.to));
    assert Item(i.app, i.space, r.from) in ProductionObjects(g, app);
    assert Item(i.app, i.space, r.to) in ProductionObjects(g, app);
  }

  lemma RelationsRestored(g: Graph, h: Graph, app: AppId)
    requires EndsSound(g)
    ensures
      var back := WithData(h, app, ProductionObjects(g, app), ProductionRelations(g, app));
      && ProductionRelations(back, app) == ProductionRelations(g, app)
      && forall i :: !IsProduction(app, i) ==>
           (i in back.relations <==> i in h.relations) && (i in h.relations ==> back.relations[i] == h.relations[i])
  {
    hide EndsIn, EndsSound;
    var relations := ProductionRelations(g, app);
    forall i | i in relations
      ensures EndsIn(WithData(h, app, ProductionObjects(g, app), relations).objects, i, relations[i])
    {
      EndsAreProduction(g, h, app, relations, i);
    }
  }

  predicate SameOutside(app: AppId, g: Graph, h: Graph) {
    && (forall i :: i in g.objects && !IsProduction(app, i) ==> i in h.objects && h.objects[i] == g.objects[i])
    && (forall i :: i in h.objects && !IsProduction(app, i) ==> i in g.objects)
    && (forall i :: i in g.relations && !IsProduction(app, i) ==> i in h.relations && h.relations[i] == g.relations[i])
    && (forall i :: i in h.relations && !IsProduction(app, i) ==> i in g.relations)
  }

  /**
   Restoring a checkpoint with data undoes any change since: the pointer and its edge, the statuses of the revisions it
   names, the definitions with their edges and the production data are as captured. Other applications, other data
   spaces and later revisions are left alone.
   */
  lemma RestoreUndoes(g: Graph, now: Graph, app: AppId)
    requires app in g.apps && EndsSound(g) && app in now.apps
    requires forall d :: d in g.defs && g.defs[d].owner == app ==> d in now.defs
    ensures
      var r := Restore(now, Capture(g, app, DataLevel));
      && r.Ok?
      && var back := r.value;
      && back.apps == now.apps[app := now.apps[app].(active := g.apps[app].active)]
      && back.bound == now.bound && back.revs.Keys == now.revs.Keys && back.defs.Keys == now.defs.Keys
      && (forall id :: id in now.revs ==>
            back.revs[id] == if id in g.revs && g.revs[id].app == app then now.revs[id].(status := g.revs[id].status)
                             else now.revs[id])
      && (forall d :: d in now.defs ==>
            back.defs[d] == if d in g.defs && g.defs[d].owner == app then now.defs[d].(active := g.defs[d].active)
                            else now.defs[d])
      && (forall e: (AppId, RevId) :: e.0 != app ==> (e in back.appEdges <==> e in now.appEdges))
      && TargetsOfApp(back, app) == ActiveSet(g.apps[app].active) * now.revs.Keys
      && (forall e: (Def, DefRevId) :: e in back.defEdges <==>
            if e.0 in g.defs && g.defs[e.0].owner == app then g.defs[e.0].active == Some(e.1) else e in now.defEdges)
      && ProductionObjects(back, app) == ProductionObjects(g, app)
      && ProductionRelations(back, app) == ProductionRelations(g, app)
      && SameOutside(app, now, back)
  {
    hide WithData, ProductionObjects, ProductionRelations, EndsSound;
    var snap := Capture(g, app, DataLevel);
    assert snap.definitions.Keys <= now.defs.Keys;
    var state := RestoreState(now, snap);
    WithDataOnly(state, app, snap.objects, snap.relations);
    ObjectsRestored(g, state, app, snap.relations);
    RelationsRestored(g, state, app);
    EdgesRestored(g, now, app, DataLevel);
  }

  /**
   Restoring a checkpoint of the revision level undoes the same changes, but for the data: objects and relations stay
   exactly as they are now.
   */
  lemma RevisionLevelLeavesData(g: Graph, now: Graph, app: AppId)
    requires app in g.apps && app in now.apps
    requires forall d :: d in g.defs && g.defs[d].owner == app ==> d in now.defs
    ensures
      var r := Restore(now, Capture(g, app, RevisionLevel));
      && r.Ok?
      && var back := r.value;
      && back.objects == now.objects && back.relations == now.relations && back.bound == now.bound
      && back.apps == now.apps[app := now.apps[app].(active := g.apps[app].active)]
      && back.revs.Keys == now.revs.Keys && back.defs.Keys == now.defs.Keys
      && (forall id :: id in now.revs ==>
            back.revs[id] == if id in g.revs && g.revs[id].app == app then now.revs[id].(status := g.revs[id].status)
                             else now.revs[id])
      && (forall d :: d in now.defs ==>
            back.defs[d] == if d in g.defs && g.defs[d].owner == app then now.defs[d].(active := g.defs[d].active)
                            else now.defs[d])
      && (forall e: (AppId, RevId) :: e.0 != app ==> (e in back.appEdges <==> e in now.appEdges))
      && TargetsOfApp(back, app) == ActiveSet(g.apps[app].active) * now.revs.Keys
      && (forall e: (Def, DefRevId) :: e in back.defEdges <==>
            if e.0 in g.defs && g.defs[e.0].owner == app then g.defs[e.0].active == Some(e.1) else e in now.defEdges)
  {
    hide WithData, ProductionObjects, ProductionRelations;
    EdgesRestored(g, now, app, RevisionLevel);
  }

  /** The production data of an application is the captured one again after a restore, when it was replaced meanwhile. */
  predicate DataComesBack(g: Graph, app: AppId, level: Level, objects: map<Item, string>, relations: map<Item, Relation>)
    requires app in g.apps
  {
    var r := Restore(WithData(g, app, objects, relations), Capture(g, app, level));
    && r.Ok?
    && ProductionObjects(r.value, app) == ProductionObjects(g, app)
    && ProductionRelations(r.value, app) == ProductionRelations(g, app)
  }

  /** Whatever production data is put in its place, the captured data comes back exactly at the level with data. */
  lemma DataComesBackIff(g: Graph, app: AppId, level: Level)
    requires app in g.apps && EndsSound(g)
    ensures level == DataLevel <==>
      forall objects: map<Item, string>, relations: map<Item, Relation> ::
        AllProduction(app, objects) && AllProduction(app, relations) ==> DataComesBack(g, app, level, objects, relations)
  {
    hide Restore, Capture, WithData, ProductionObjects, ProductionRelations, AllProduction;
    forall objects: map<Item, string>, relations: map<Item, Relation>
      ensures level == DataLevel ==> DataComesBack(g, app, level, objects, relations)
    {
      WithDataOnly(g, app, objects, relations);
      if level == DataLevel {
        RestoreUndoes(g, WithData(g, app, objects, relations), app);
      }
    }
    if level == RevisionLevel {
      var there := Item(app, PRODUCTION, "");
      var other := OtherThan(g, there);
      WithDataOnly(g, app, other, map[]);
      RevisionLevelLeavesData(g, WithData(g, app, other, map[]), app);
      OtherDataDiffers(g, app, there);
      assert !DataComesBack(g, app, level, other, map[]);
    }
  }

  /** Production data that is not that of the graph: an object is added, or there is none at all. */
  function OtherThan(g: Graph, i: Item): map<Item, string> {
    if i in g.objects then map[] else map[i := ""]
  }

  lemma OtherDataDiffers(g: Graph, app: AppId, i: Item)
    requires i == Item(app, PRODUCTION, "")
    ensures AllProduction(app, OtherThan(g, i)) && AllProduction<Relation>(app, map[])
    ensures forall h: Graph :: h.objects == WithData(g, app, OtherThan(g, i), map[]).objects ==>
      ProductionObjects(h, app) != ProductionObjects(g, app)
  {
    forall h: Graph | h.objects == WithData(g, app, OtherThan(g, i), map[]).objects
      ensures ProductionObjects(h, app) != ProductionObjects(g, app)
    {
      assert IsProduction(app, i);
      assert i in ProductionObjects(h, app) <==> i !in ProductionObjects(g, app);
    }
  }

  lemma EdgesRestored(g: Graph, now: Graph, app: AppId, level: Level)
    requires app in g.apps && app in now.apps
    ensures
      var state := RestoreState(now, Capture(g, app, level));
      && (forall e: (AppId, RevId) :: e.0 != app ==> (e in state.appEdges <==> e in now.appEdges))
      && TargetsOfApp(state, app) == ActiveSet(g.apps[app].active) * now.revs.Keys
      && (forall e: (Def, DefRevId) :: e in state.defEdges <==>
            if e.0 in g.defs && g.defs[e.0].owner == app then g.defs[e.0].active == Some(e.1) else e in now.defEdges)
  {
    var state := RestoreState(now, Capture(g, app, level));
    forall id: RevId
      ensures id in TargetsOfApp(state, app) <==> id in ActiveSet(g.apps[app].active) * now.revs.Keys
    {
      assert id in TargetsOfApp(state, app) <==> (app, id) in state.appEdges;
    }
  }

  lemma WithDataOnly(g: Graph, app: AppId, objects: map<Item, string>, relations: map<Item, Relation>)
    ensures
      var h := WithData(g, app, objects, relations);
      h == g.(objects := h.objects, relations := h.relations)
  {
  }

  // ---------------------------------------------------------------------------
  // Restoring after nothing but a migration

  predicate AllProduction<T>(app: AppId, items: map<Item, T>) {
    forall i :: i in items ==> IsProduction(app, i)
  }

  lemma DataUndone(g: Graph, app: AppId, objects: map<Item, string>, relations: map<Item, Relation>)
    requires EndsSound(g) && AllProduction(app, objects) && AllProduction(app, relations)
    ensures
      var h := WithData(g, app, objects, relations);
      var back := WithData(h, app, ProductionObjects(g, app), ProductionRelations(g, app));
      back.objects == g.objects && back.relations == g.relations
  {
    hide WithData, ProductionObjects, ProductionRelations, EndsSound;
    var h := WithData(g, app, objects, relations);
    var back := WithData(h, app, ProductionObjects(g, app), ProductionRelations(g, app));
    ObjectsRestored(g, h, app, ProductionRelations(g, app));
    RelationsRestored(g, h, app);
    OutsideKept(g, app, objects, relations);
    SplitObjects(g, back, app);
    SplitRelations(g, back, app);
  }

  lemma OutsideKept(g: Graph, app: AppId, objects: map<Item, string>, relations: map<Item, Relation>)
    requires AllProduction(app, objects) && AllProduction(app, relations)
    ensures SameOutside(app, g, WithData(g, app, objects, relations))
  {
  }

  lemma SplitObjects(g: Graph, h: Graph, app: AppId)
    requires ProductionObjects(g, app) == ProductionObjects(h, app)
    requires forall i :: !IsProduction(app, i) ==>
      (i in h.objects <==> i in g.objects) && (i in g.objects ==> h.objects[i] == g.objects[i])
    ensures g.objects == h.objects
  {
    forall i
      ensures i in g.objects <==> i in h.objects
      ensures i in g.objects ==> g.objects[i] == h.objects[i]
    {
      assert i in ProductionObjects(g, app) <==> i in ProductionObjects(h, app);
    }
  }

  lemma SplitRelations(g: Graph, h: Graph, app: AppId)
    requires ProductionRelations(g, app) == ProductionRelations(h, app)
    requires forall i :: !IsProduction(app, i) ==>
      (i in h.relations <==> i in g.relations) && (i in g.relations ==> h.relations[i] == g.relations[i])
    ensures g.relations == h.relations
  {
    forall i
      ensures i in g.relations <==> i in h.relations
      ensures i in g.relations ==> g.relations[i] == h.relations[i]
    {
      assert i in ProductionRelations(g, app) <==> i in ProductionRelations(h, app);
    }
  }

  lemma StateUndone(g: Graph, app: AppId, level: Level)
    requires app in g.apps && OneActive(g, app) && DefEdgesSound(g)
    ensures RestoreState(g, Capture(g, app, level)) == g
  {
    var back := RestoreState(g, Capture(g, app, level));
    assert back.revs == g.revs && back.defs == g.defs && back.apps == g.apps;
    EdgesRestored(g, g, app, level);
    forall e: (AppId, RevId) | e.0 == app
      ensures e in back.appEdges <==> e in g.appEdges
    {
      assert e in g.appEdges <==> e.1 in TargetsOfApp(g, app);
      assert e in back.appEdges <==> e.1 in TargetsOfApp(back, app);
    }
    assert back.appEdges == g.appEdges && back.defEdges == g.defEdges;
  }

  /** A checkpoint restored at once changes nothing, whatever its level. */
  lemma RestoreAtOnce(g: Graph, app: AppId, level: Level)
    requires app in g.apps && OneActive(g, app) && DefEdgesSound(g) && EndsSound(g)
    ensures Restore(g, Capture(g, app, level)) == Ok(g)
  {
    hide WithData, EndsSound, DefEdgesSound, OneActive, ProductionObjects, ProductionRelations, RestoreState;
    StateUndone(g, app, level);
    if level == DataLevel {
      DataKept(g, app);
      WithDataOnly(g, app, ProductionObjects(g, app), ProductionRelations(g, app));
    }
  }

  lemma DataKept(g: Graph, app: AppId)
    requires EndsSound(g)
    ensures
      var h := WithData(g, app, ProductionObjects(g, app), ProductionRelations(g, app));
      h.objects == g.objects && h.relations == g.relations
  {
    hide WithData, ProductionObjects, ProductionRelations, EndsSound;
    var h := WithData(g, app, ProductionObjects(g, app), ProductionRelations(g, app));
    ObjectsRestored(g, g, app, ProductionRelations(g, app));
    RelationsRestored(g, g, app);
    SplitObjects(g, h, app);
    SplitRelations(g, h, app);
  }

  /** Whatever the migrations did to the production data, restoring gives the graph that was captured. */
  lemma RestoreUndoesMigration(g: Graph, app: AppId, objects: map<Item, string>, relations: map<Item, Relation>)
    requires app in g.apps && OneActive(g, app) && DefEdgesSound(g) && EndsSound(g)
    requires AllProduction(app, objects) && AllProduction(app, relations)
    ensures Restore(WithData(g, app, objects, relations), Capture(g, app, DataLevel)) == Ok(g)
  {
    hide WithData, EndsSound, DefEdgesSound, OneActive, ProductionObjects, ProductionRelations;
    var h := WithData(g, app, objects, relations);
    var snap := Capture(g, app, DataLevel);
    WithDataOnly(g, app, objects, relations);
    StateUndone(g, app, DataLevel);
    DataUndone(g, app, objects, relations);
    StateThenData(g, h, snap);
    var state := RestoreState(h, snap);
    WithDataOnly(state, app, snap.objects, snap.relations);
    assert state == g.(objects := h.objects, relations := h.relations);
    assert state == h;
  }

  lemma StateThenData(g: Graph, h: Graph, snap: Snapshot)
    requires snap.app in g.apps && h == g.(objects := h.objects, relations := h.relations)
    ensures RestoreState(h, snap) == RestoreState(g, snap).(objects := h.objects, relations := h.relations)
  {
  }

  // ---------------------------------------------------------------------------
  // Failed activations

  /** The activation fails before it switches. */
  predicate FailsBeforeSwitch(g: Graph, rev: RevId, plan: Plan)
    requires rev in g.revs ==> g.revs[rev].app in g.apps
  {
    var out := Activate(g, rev, plan).1;
    !out.Activated? && !out.ActivatedNotMounted? && !out.EvictionFailed?
  }

  lemma FrozenSound(g: Graph, rev: RevId)
    requires Invariant(g) && EndsSound(g) && rev in g.revs && Freeze(g, rev).1.None?
    ensures
      var f := Freeze(g, rev).0;
      && Invariant(f) && EndsSound(f) && rev in f.revs && f.revs[rev].app in f.apps && f.revs[rev].app == g.revs[rev].app
      && OneActive(f, f.revs[rev].app) && DefEdgesSound(f)
      && f.revs[rev].status == Validating
      && Reject(f, rev) == g.(revs := g.revs[rev := g.revs[rev].(status := Rejected)])
  {
    hide Numbered, BoundSound, DefinitionsActive, DefEdgesSound, OneActive;
    OwnApp(g, rev);
    StatusKeeps(g, rev, Validating);
    var f := Freeze(g, rev).0;
    assert OneActive(f, f.revs[rev].app);
  }

  lemma MigratedIsWithData(f: Graph, rev: RevId, plan: Plan)
    requires rev in f.revs
    ensures
      var objects := map i | i in plan.objects && IsProduction(f.revs[rev].app, i) :: plan.objects[i];
      var relations := map i | i in plan.relations && IsProduction(f.revs[rev].app, i) :: plan.relations[i];
      && Migrated(f, rev, plan) == WithData(f, f.revs[rev].app, objects, relations)
      && AllProduction(f.revs[rev].app, objects) && AllProduction(f.revs[rev].app, relations)
      && Migrated(f, rev, plan) ==
           f.(objects := Migrated(f, rev, plan).objects, relations := Migrated(f, rev, plan).relations)
  {
  }

  function RejectedOnly(g: Graph, rev: RevId): Graph
    requires rev in g.revs
  {
    WithStatus(g, rev, Rejected)
  }

  /**
   An activation whose migrations say that they change data, and that fails before the switch, changes nothing but the
   status of its revision when the checkpoint can be restored - whatever the migrations did to the production data.
   A revision that is no draft is refused and keeps its status.
   */
  lemma FailedActivationRestores(g: Graph, rev: RevId, plan: Plan)
    requires Invariant(g) && EndsSound(g) && rev in g.revs && g.revs[rev].app in g.apps
    requires plan.declaresMutation && !plan.restoreFails && FailsBeforeSwitch(g, rev, plan)
    ensures Activate(g, rev, plan).0 == if Freeze(g, rev).1.None? then RejectedOnly(g, rev) else g
  {
    hide Invariant, EndsSound, OneActive, DefEdgesSound, WithData, Migrated, ActivateEdges, Capture, Restore, Reject;
    if Freeze(g, rev).1.None? {
      FrozenSound(g, rev);
      var f := Freeze(g, rev).0;
      var app := f.revs[rev].app;
      MigratedIsWithData(f, rev, plan);
      RestoreUndoesMigration(
        f, app, map i | i in plan.objects && IsProduction(app, i) :: plan.objects[i],
        map i | i in plan.relations && IsProduction(app, i) :: plan.relations[i]);
    } else {
      RefusedKeeps(g, rev);
    }
  }

  lemma RefusedKeeps(g: Graph, rev: RevId)
    requires Freeze(g, rev).1.Some?
    ensures Reject(Freeze(g, rev).0, rev) == g && Freeze(g, rev).0 == g
  {
  }

  /** The migrations run, and they leave other production data than they found. */
  predicate MigrationsChangeData(g: Graph, rev: RevId, plan: Plan)
    requires rev in g.revs
  {
    !plan.packageInstall && !plan.artifactsFail && Migrated(g, rev, plan) != g
  }

  /**
   An activation that fails before the switch changes nothing but the status of its revision exactly when its
   migrations changed no data, or said that they would and the checkpoint can be restored. Otherwise the data that they
   left stays.
   */
  lemma FailedActivationIff(g: Graph, rev: RevId, plan: Plan)
    requires Invariant(g) && EndsSound(g) && rev in g.revs && g.revs[rev].app in g.apps
    requires Freeze(g, rev).1.None? && FailsBeforeSwitch(g, rev, plan)
    ensures
      var after := Activate(g, rev, plan).0;
      && (after == RejectedOnly(g, rev) <==>
            (MigrationsChangeData(g, rev, plan) ==> plan.declaresMutation && !plan.restoreFails))
      && (after == RejectedOnly(g, rev) || after == RejectedOnly(Migrated(g, rev, plan), rev))
  {
    hide Invariant, EndsSound, WithData, ActivateEdges, Capture, Restore, Migrated, Reject, FailsBeforeSwitch;
    FrozenSound(g, rev);
    var f := Freeze(g, rev).0;
    FrozenMigrates(g, rev, plan);
    if plan.declaresMutation && !plan.restoreFails {
      FailedActivationRestores(g, rev, plan);
    } else if plan.packageInstall || plan.artifactsFail {
      UnmigratedFailure(g, rev, plan);
    } else {
      UnrestoredFailure(g, rev, plan);
    }
  }

  lemma UnmigratedFailure(g: Graph, rev: RevId, plan: Plan)
    requires rev in g.revs && g.revs[rev].app in g.apps && Freeze(g, rev).1.None? && FailsBeforeSwitch(g, rev, plan)
    requires plan.packageInstall || plan.artifactsFail
    ensures Activate(g, rev, plan).0 == Reject(Freeze(g, rev).0, rev)
  {
    hide ActivateEdges, Capture, Restore, Migrated, Reject;
  }

  lemma UnrestoredFailure(g: Graph, rev: RevId, plan: Plan)
    requires rev in g.revs && g.revs[rev].app in g.apps && Freeze(g, rev).1.None? && FailsBeforeSwitch(g, rev, plan)
    requires !plan.packageInstall && !plan.artifactsFail && (plan.declaresMutation ==> plan.restoreFails)
    ensures Activate(g, rev, plan).0 == Reject(Migrated(Freeze(g, rev).0, rev, plan), rev)
  {
    hide ActivateEdges, Capture, Restore, Migrated, Reject;
  }

  lemma FrozenMigrates(g: Graph, rev: RevId, plan: Plan)
    requires rev in g.revs && Freeze(g, rev).1.None?
    ensures
      var m := Migrated(g, rev, plan);
      && Reject(Migrated(Freeze(g, rev).0, rev, plan), rev) == RejectedOnly(m, rev)
      && Reject(Freeze(g, rev).0, rev) == RejectedOnly(g, rev)
      && (m == g <==> RejectedOnly(m, rev) == RejectedOnly(g, rev))
  {
    var m := Migrated(g, rev, plan);
    var f := Freeze(g, rev).0;
    assert Migrated(f, rev, plan) == f.(objects := m.objects, relations := m.relations);
    assert m == g.(objects := m.objects, relations := m.relations);
    assert RejectedOnly(g, rev).revs == Reject(f, rev).revs;
    if RejectedOnly(m, rev) == RejectedOnly(g, rev) {
      assert m.objects == RejectedOnly(m, rev).objects && m.relations == RejectedOnly(m, rev).relations;
    }
  }

  // ---------------------------------------------------------------------------
  // Failed evictions

  /** A switch only moves the pointer, statuses and definitions that a checkpoint of the application names. */
  lemma SwitchUndone(g: Graph, rev: RevId)
    requires Invariant(g) && rev in g.revs && g.revs[rev].app in g.apps && ActivateEdges(g, rev).1.None?
    ensures
      var app := g.revs[rev].app;
      RestoreState(ActivateEdges(g, rev).0, Capture(g, app, DataLevel)) == WithAppStatus(g, app)
  {
    hide Numbered, BoundSound, DefinitionsActive, DefEdgesSound, OneActive;
    OwnApp(g, rev);
    var app := g.revs[rev].app;
    var switched := ActivateEdges(g, rev).0;
    var back := RestoreState(switched, Capture(g, app, DataLevel));
    BoundIsOwned(g, rev);
    assert OneActive(g, app);
    StatusesUndone(g, rev);
    EdgesRestored(g, switched, app, DataLevel);
    AppEdgesUndone(g, rev);
    DefEdgesUndone(g, rev);
    assert back.apps == WithAppStatus(g, app).apps;
    assert back.defs == g.defs;
  }

  /** An application that was disabled is left with paused triggers by a switch. */
  function WithAppStatus(g: Graph, app: AppId): Graph
    requires app in g.apps
  {
    g.(apps := g.apps[app := g.apps[app].(status := StatusAfter(g.apps[app].status))])
  }

  lemma BoundIsOwned(g: Graph, rev: RevId)
    requires BoundSound(g) && rev in g.revs && g.revs[rev].app == rev.app
    ensures forall d :: d in BoundBy(g, rev) ==> d in g.defs && g.defs[d].owner == g.revs[rev].app
  {
  }

  lemma StatusesUndone(g: Graph, rev: RevId)
    requires rev in g.revs && g.revs[rev].app in g.apps && OneActive(g, g.revs[rev].app)
    requires ActivateEdges(g, rev).1.None?
    ensures RestoreState(ActivateEdges(g, rev).0, Capture(g, g.revs[rev].app, DataLevel)).revs == g.revs
  {
    hide TargetsOfApp, BoundBy;
  }

  lemma AppEdgesUndone(g: Graph, rev: RevId)
    requires rev in g.revs && g.revs[rev].app in g.apps && OneActive(g, g.revs[rev].app)
    requires ActivateEdges(g, rev).1.None?
    ensures RestoreState(ActivateEdges(g, rev).0, Capture(g, g.revs[rev].app, DataLevel)).appEdges == g.appEdges
  {
    var app := g.revs[rev].app;
    var switched := ActivateEdges(g, rev).0;
    var back := RestoreState(switched, Capture(g, app, DataLevel));
    EdgesRestored(g, switched, app, DataLevel);
    forall e: (AppId, RevId)
      ensures e in back.appEdges <==> e in g.appEdges
    {
      if e.0 == app {
        assert e in g.appEdges <==> e.1 in TargetsOfApp(g, app);
        assert e in back.appEdges <==> e.1 in TargetsOfApp(back, app);
      }
    }
  }

  lemma DefEdgesUndone(g: Graph, rev: RevId)
    requires rev in g.revs && g.revs[rev].app in g.apps && DefEdgesSound(g) && ActivateEdges(g, rev).1.None?
    requires forall d :: d in BoundBy(g, rev) ==> d in g.defs && g.defs[d].owner == g.revs[rev].app
    ensures RestoreState(ActivateEdges(g, rev).0, Capture(g, g.revs[rev].app, DataLevel)).defEdges == g.defEdges
  {
    hide RestoreState, TargetsOfApp;
    var app := g.revs[rev].app;
    var switched := ActivateEdges(g, rev).0;
    EdgesRestored(g, switched, app, DataLevel);
    var back := RestoreState(switched, Capture(g, app, DataLevel));
    forall e: (Def, DefRevId)
      ensures e in back.defEdges <==> e in g.defEdges
    {
      assert e.0 !in BoundBy(g, rev) ==> (e in switched.defEdges <==> e in g.defEdges);
    }
  }

  /** A switch neither reads nor writes the data. */
  lemma SwitchIgnoresData(g: Graph, h: Graph, rev: RevId)
    requires h == g.(objects := h.objects, relations := h.relations)
    ensures ActivateEdges(h, rev).1 == ActivateEdges(g, rev).1
    ensures ActivateEdges(h, rev).0 == ActivateEdges(g, rev).0.(objects := h.objects, relations := h.relations)
  {
    hide ActivateDefinitions, Point, TargetsOfApp;
    if rev in g.revs && g.revs[rev].app in g.apps {
      SameTargets(g, h, g.revs[rev].app);
      PointIgnoresData(g, h, rev);
    }
  }

  lemma SameTargets(g: Graph, h: Graph, app: AppId)
    requires h == g.(objects := h.objects, relations := h.relations)
    ensures TargetsOfApp(h, app) == TargetsOfApp(g, app)
  {
  }

  lemma PointIgnoresData(g: Graph, h: Graph, rev: RevId)
    requires h == g.(objects := h.objects, relations := h.relations) && rev in g.revs && g.revs[rev].app in g.apps
    ensures ActivateDefinitions(Point(h, rev), rev)
      == ActivateDefinitions(Point(g, rev), rev).(objects := h.objects, relations := h.relations)
  {
    var p, q := Point(g, rev), Point(h, rev);
    assert q == p.(objects := h.objects, relations := h.relations);
    assert ActivateDefinitions(q, rev).defs == ActivateDefinitions(p, rev).defs;
  }

  /** After a switch that followed a migration, restoring gives the captured graph but for the application's status. */
  lemma RestoreUndoesSwitch(g: Graph, rev: RevId, objects: map<Item, string>, relations: map<Item, Relation>)
    requires Invariant(g) && EndsSound(g) && rev in g.revs && g.revs[rev].app in g.apps
    requires AllProduction(g.revs[rev].app, objects) && AllProduction(g.revs[rev].app, relations)
    requires ActivateEdges(WithData(g, g.revs[rev].app, objects, relations), rev).1.None?
    ensures
      var app := g.revs[rev].app;
      Restore(ActivateEdges(WithData(g, app, objects, relations), rev).0, Capture(g, app, DataLevel))
        == Ok(WithAppStatus(g, app))
  {
    hide Invariant, EndsSound, WithData, ActivateEdges, ProductionObjects, ProductionRelations, RestoreState;
    var app := g.revs[rev].app;
    var h, snap := WithData(g, app, objects, relations), Capture(g, app, DataLevel);
    WithDataOnly(g, app, objects, relations);
    SwitchIgnoresData(g, h, rev);
    SwitchUndone(g, rev);
    SwitchKeepsDefs(g, rev);
    var switched := ActivateEdges(h, rev).0;
    StateThenData(ActivateEdges(g, rev).0, switched, snap);
    var state := RestoreState(switched, snap);
    assert state == WithAppStatus(g, app).(objects := h.objects, relations := h.relations);
    assert Restore(switched, snap) == Ok(WithData(state, app, snap.objects, snap.relations));
    WithDataOnly(state, app, snap.objects, snap.relations);
    SameData(h, state, app, snap.objects, snap.relations);
    DataUndone(g, app, objects, relations);
  }

  lemma SwitchKeepsDefs(g: Graph, rev: RevId)
    requires rev in g.revs && g.revs[rev].app in g.apps && ActivateEdges(g, rev).1.None?
    ensures
      var switched := ActivateEdges(g, rev).0;
      && switched.defs.Keys == g.defs.Keys && g.revs[rev].app in switched.apps
      && Capture(g, g.revs[rev].app, DataLevel).definitions.Keys <= switched.defs.Keys
  {
  }

  lemma SameData(g: Graph, h: Graph, app: AppId, objects: map<Item, string>, relations: map<Item, Relation>)
    requires g.objects == h.objects && g.relations == h.relations
    ensures
      var a, b := WithData(g, app, objects, relations), WithData(h, app, objects, relations);
      a.objects == b.objects && a.relations == b.relations
  {
  }

  /**
   An activation whose eviction fails after the switch: with a checkpoint that can be restored, only the status of its
   revision and a disabled application change. Without one the switch stands, though the call reports a failure.
   */
  lemma FailedEviction(g: Graph, rev: RevId, plan: Plan)
    requires Invariant(g) && EndsSound(g) && rev in g.revs && g.revs[rev].app in g.apps
    requires Activate(g, rev, plan).1 == EvictionFailed
    ensures
      Activate(g, rev, plan).0 ==
        if plan.declaresMutation && !plan.packageInstall && !plan.restoreFails
        then WithAppStatus(RejectedOnly(g, rev), g.revs[rev].app)
        else Activate(g, rev, plan.(evictFails := false)).0
  {
    hide Invariant, EndsSound, WithData, ActivateEdges, Capture, Restore, Migrated, Reject;
    FrozenSound(g, rev);
    var f := Freeze(g, rev).0;
    var app := f.revs[rev].app;
    MigratedIsWithData(f, rev, plan);
    if plan.declaresMutation && !plan.packageInstall && !plan.restoreFails {
      RestoreUndoesSwitch(
        f, rev, map i | i in plan.objects && IsProduction(app, i) :: plan.objects[i],
        map i | i in plan.relations && IsProduction(app, i) :: plan.relations[i]);
      RejectedStatus(g, rev);
    } else if plan.packageInstall {
      SwitchedIsActive(f, rev);
    } else {
      MigratesAlike(f, rev, plan);
      SwitchedIsActive(Migrated(f, rev, plan), rev);
    }
  }

  lemma RejectedStatus(g: Graph, rev: RevId)
    requires rev in g.revs && g.revs[rev].app in g.apps && Freeze(g, rev).1.None?
    ensures Reject(WithAppStatus(Freeze(g, rev).0, g.revs[rev].app), rev)
      == WithAppStatus(RejectedOnly(g, rev), g.revs[rev].app)
  {
  }

  lemma MigratesAlike(g: Graph, rev: RevId, plan: Plan)
    requires rev in g.revs
    ensures Migrated(g, rev, plan.(evictFails := false)) == Migrated(g, rev, plan)
  {
  }

  lemma SwitchedIsActive(g: Graph, rev: RevId)
    requires ActivateEdges(g, rev).1.None?
    ensures Reject(ActivateEdges(g, rev).0, rev) == ActivateEdges(g, rev).0
  {
  }

  // ---------------------------------------------------------------------------
  // Restoring and the one active revision

  /**
   After a restore the pointer, its edge and the active status agree exactly when no revision that the checkpoint does
   not name is active: restoring only resets the revisions it names.
   */
  lemma OneActiveAfterRestoreIff(g: Graph, now: Graph, app: AppId)
    requires app in g.apps && OneActive(g, app) && app in now.apps
    requires forall d :: d in g.defs && g.defs[d].owner == app ==> d in now.defs
    requires g.apps[app].active.Some? ==>
      g.apps[app].active.value in now.revs && now.revs[g.apps[app].active.value].app == app
    requires forall id :: id in g.revs && id in now.revs ==> g.revs[id].app == now.revs[id].app
    ensures
      var back := Restore(now, Capture(g, app, DataLevel)).value;
      OneActive(back, app) <==>
        forall id :: id in now.revs && now.revs[id].app == app && id !in g.revs ==> now.revs[id].status != Active
  {
    hide WithData, ProductionObjects, ProductionRelations, OneActive;
    var snap := Capture(g, app, DataLevel);
    var state := RestoreState(now, snap);
    WithDataOnly(state, app, snap.objects, snap.relations);
    var back := WithData(state, app, snap.objects, snap.relations);
    SameOneActive(state, back, app);
    RestoredTargets(g, now, app);
    if forall id :: id in now.revs && now.revs[id].app == app && id !in g.revs ==> now.revs[id].status != Active {
      RestoredOneActive(g, now, app);
    } else {
      var id :| id in now.revs && now.revs[id].app == app && id !in g.revs && now.revs[id].status == Active;
      LaterActiveBreaks(g, now, app, id);
    }
  }

  lemma SameOneActive(g: Graph, h: Graph, app: AppId)
    requires app in g.apps && h == g.(objects := h.objects, relations := h.relations)
    ensures OneActive(h, app) <==> OneActive(g, app)
  {
    assert TargetsOfApp(h, app) == TargetsOfApp(g, app);
  }

  lemma RestoredTargets(g: Graph, now: Graph, app: AppId)
    requires app in g.apps && app in now.apps && (g.apps[app].active.Some? ==> g.apps[app].active.value in now.revs)
    ensures TargetsOfApp(RestoreState(now, Capture(g, app, DataLevel)), app) == ActiveSet(g.apps[app].active)
  {
    var state := RestoreState(now, Capture(g, app, DataLevel));
    assert g.apps[app].active.Some? ==> (app, g.apps[app].active.value) in state.appEdges;
  }

  lemma RestoredOneActive(g: Graph, now: Graph, app: AppId)
    requires app in g.apps && OneActive(g, app) && app in now.apps
    requires g.apps[app].active.Some? ==>
      g.apps[app].active.value in now.revs && now.revs[g.apps[app].active.value].app == app
    requires forall id :: id in g.revs && id in now.revs ==> g.revs[id].app == now.revs[id].app
    requires forall id :: id in now.revs && now.revs[id].app == app && id !in g.revs ==> now.revs[id].status != Active
    ensures OneActive(RestoreState(now, Capture(g, app, DataLevel)), app)
  {
    RestoredTargets(g, now, app);
  }

  lemma LaterActiveBreaks(g: Graph, now: Graph, app: AppId, id: RevId)
    requires app in g.apps && OneActive(g, app) && app in now.apps
    requires id in now.revs && now.revs[id].app == app && id !in g.revs && now.revs[id].status == Active
    ensures !OneActive(RestoreState(now, Capture(g, app, DataLevel)), app)
  {
    assert g.apps[app].active != Some(id);
  }
}
