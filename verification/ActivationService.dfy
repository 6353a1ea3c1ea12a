/** Checkpoints and activation as the services run them, record by record, over the application store. */
module ActivationService {
  import opened Prelude
  import opened A = Applications
  import opened ApplicationStore
  import opened C = Checkpoints

  // ---------------------------------------------------------------------------
  // Parts of a restore

  ghost function StatusesSome(revs: map<RevId, Revision>, statuses: map<RevId, RevStatus>, done: set<RevId>)
    : map<RevId, Revision>
  {
    map id | id in revs :: if id in statuses && id in done then revs[id].(status := statuses[id]) else revs[id]
  }

  lemma StatusesMore(revs: map<RevId, Revision>, statuses: map<RevId, RevStatus>, done: set<RevId>, id: RevId)
    requires id in statuses && id !in done
    ensures StatusesSome(revs, statuses, {}) == revs
    ensures
      var some := StatusesSome(revs, statuses, done);
      && some.Keys == revs.Keys
      && StatusesSome(revs, statuses, done + {id}) ==
           if id in some then some[id := some[id].(status := statuses[id])] else some
  {
  }

  ghost function DefsSome(defs: map<Def, Definition>, active: map<Def, Option<DefRevId>>, done: set<Def>)
    : map<Def, Definition>
  {
    map d | d in defs :: if d in active && d in done then defs[d].(active := active[d]) else defs[d]
  }

  ghost function DefEdgesSome(edges: set<(Def, DefRevId)>, active: map<Def, Option<DefRevId>>, done: set<Def>)
    : set<(Def, DefRevId)>
  {
    (set e | e in edges && !(e.0 in active && e.0 in done))
    + (set d | d in active && d in done && active[d].Some? :: (d, active[d].value))
  }

  function EdgeTo(d: Def, target: Option<DefRevId>): set<(Def, DefRevId)> {
    if target.Some? then {(d, target.value)} else {}
  }

  lemma DefsMore(defs: map<Def, Definition>, active: map<Def, Option<DefRevId>>, done: set<Def>, d: Def)
    requires d in active && d !in done && d in defs
    ensures
      var some := DefsSome(defs, active, done);
      d in some && DefsSome(defs, active, done + {d}) == some[d := some[d].(active := active[d])]
  {
  }

  lemma DefEdgesMore(edges: set<(Def, DefRevId)>, active: map<Def, Option<DefRevId>>, done: set<Def>, d: Def)
    requires d in active && d !in done
    ensures DefEdgesSome(edges, active, done + {d})
      == (set e | e in DefEdgesSome(edges, active, done) && e.0 != d) + EdgeTo(d, active[d])
  {
    var some := DefEdgesSome(edges, active, done);
    var more, next := DefEdgesSome(edges, active, done + {d}), (set e | e in some && e.0 != d) + EdgeTo(d, active[d]);
    forall e: (Def, DefRevId)
      ensures e in more <==> e in next
    {
    }
  }

  lemma NoneRestored(g: Graph, active: map<Def, Option<DefRevId>>)
    ensures DefsSome(g.defs, active, {}) == g.defs && DefEdgesSome(g.defEdges, active, {}) == g.defEdges
  {
  }

  lemma AllRestored(g: Graph, snap: Snapshot)
    requires snap.app in g.apps
    ensures RestoreState(g, snap).revs == StatusesSome(g.revs, snap.statuses, snap.statuses.Keys)
    ensures RestoreState(g, snap).defs == DefsSome(g.defs, snap.definitions, snap.definitions.Keys)
    ensures RestoreState(g, snap).defEdges == DefEdgesSome(g.defEdges, snap.definitions, snap.definitions.Keys)
  {
  }

  /** A relation that deleting an object detaches. */
  predicate AttachedTo(i: Item, r: Relation, object_: Item) {
    Item(i.app, i.space, r.from) == object_ || Item(i.app, i.space, r.to) == object_
  }

  /** The relations of a list that can be made, as their ends exist. */
  function Makeable(objects: map<Item, string>, relations: map<Item, Relation>, done: set<Item>): map<Item, Relation> {
    map i | i in relations && i in done && EndsIn(objects, i, relations[i]) :: relations[i]
  }

  lemma MadeNone(own: map<Item, Relation>, objects: map<Item, string>, relations: map<Item, Relation>)
    ensures own + Makeable(objects, relations, relations.Keys - relations.Keys) == own
  {
  }

  lemma MadeMore(own: map<Item, Relation>, objects: map<Item, string>, relations: map<Item, Relation>, rest: set<Item>,
                 i: Item)
    requires i in relations && i in rest
    ensures
      var some := own + Makeable(objects, relations, relations.Keys - rest);
      own + Makeable(objects, relations, relations.Keys - (rest - {i}))
        == if EndsIn(objects, i, relations[i]) then some[i := relations[i]] else some
  {
  }

  function SavedSome(own: map<Item, string>, items: map<Item, string>, rest: set<Item>): map<Item, string> {
    own + map i | i in items && i !in rest :: items[i]
  }

  lemma SavedNoneAndAll(own: map<Item, string>, items: map<Item, string>)
    ensures SavedSome(own, items, items.Keys) == own && SavedSome(own, items, {}) == own + items
  {
    assert (map i | i in items && i !in {} :: items[i]) == items;
  }

  lemma SavedMore(own: map<Item, string>, items: map<Item, string>, rest: set<Item>, i: Item)
    requires i in items && i in rest
    ensures SavedSome(own, items, rest - {i}) == SavedSome(own, items, rest)[i := items[i]]
  {
  }

  class CheckpointService {
    const store: ApplicationStore

    constructor (store: ApplicationStore)
      ensures this.store == store
    {
      this.store := store;
    }

    method Create(app: AppId, level: Level) returns (r: Result<Snapshot, Failure>)
      ensures r == if app in store.apps then Ok(Capture(store.Contents(), app, level)) else Err(UnknownApplication)
      ensures r.Ok? ==> Holds(r.value, store.Contents(), app, level)
      ensures r.Ok? && OneActive(store.Contents(), app) && DefEdgesSound(store.Contents()) && EndsSound(store.Contents())
        ==> C.Restore(store.Contents(), r.value) == Ok(store.Contents())
    {
      hide C.Restore, Capture, OneActive, DefEdgesSound, EndsSound, Holds;
      if app !in store.apps {
        return Err(UnknownApplication);
      }
      var g := store.Contents();
      CaptureHolds(g, app, level);
      if OneActive(g, app) && DefEdgesSound(g) && EndsSound(g) {
        RestoreAtOnce(g, app, level);
      }
      return Ok(Capture(store.Contents(), app, level));
    }

    method RestoreStatuses(statuses: map<RevId, RevStatus>)
      modifies store`revs
      ensures store.revs == StatusesSome(old(store.revs), statuses, statuses.Keys)
    {
      hide StatusesSome;
      NoStatuses(store.revs, statuses);
      ghost var done: set<RevId> := {};
      var rest := statuses.Keys;
      while rest != {}
        invariant done + rest == statuses.Keys && done !! rest
        invariant store.revs == StatusesSome(old(store.revs), statuses, done)
        decreases |rest|
      {
        var id :| id in rest;
        StatusesMore(old(store.revs), statuses, done, id);
        if id in store.revs {
          store.revs := store.revs[id := store.revs[id].(status := statuses[id])];
        }
        rest, done := rest - {id}, done + {id};
      }
      assert done == statuses.Keys;
    }

    /** Point the definitions back, one by one. It stops at a definition that has no record any more. */
    method RestoreDefinitions(active: map<Def, Option<DefRevId>>) returns (known: bool)
      modifies store`defs, store`defEdges
      ensures known == (active.Keys <= old(store.defs).Keys)
      ensures known ==>
        && store.defs == DefsSome(old(store.defs), active, active.Keys)
        && store.defEdges == DefEdgesSome(old(store.defEdges), active, active.Keys)
    {
      hide DefsSome, DefEdgesSome, EdgeTo;
      NoneRestored(store.Contents(), active);
      ghost var done: set<Def> := {};
      var rest := active.Keys;
      while rest != {}
        invariant done + rest == active.Keys && done !! rest && done <= old(store.defs).Keys
        invariant store.defs.Keys == old(store.defs).Keys
        invariant store.defs == DefsSome(old(store.defs), active, done)
        invariant store.defEdges == DefEdgesSome(old(store.defEdges), active, done)
        decreases |rest|
      {
        var d :| d in rest;
        if d !in store.defs {
          return false;
        }
        DefsMore(old(store.defs), active, done, d);
        DefEdgesMore(old(store.defEdges), active, done, d);
        store.defs := store.defs[d := store.defs[d].(active := active[d])];
        store.defEdges := (set e | e in store.defEdges && e.0 != d) + EdgeTo(d, active[d]);
        rest, done := rest - {d}, done + {d};
      }
      assert done == active.Keys;
      return true;
    }

    /** Delete the production data of an application: its relations, then its objects. */
    method DeleteData(app: AppId)
      modifies store`objects, store`relations
      ensures store.objects == map i | i in old(store.objects) && !IsProduction(app, i) :: old(store.objects)[i]
      ensures store.relations == map i | i in old(store.relations) && !IsProduction(app, i) :: old(store.relations)[i]
    {
      DeleteRelations(app);
      DeleteObjects(app);
    }

    method DeleteRelations(app: AppId)
      modifies store`relations
      ensures store.relations == map i | i in old(store.relations) && !IsProduction(app, i) :: old(store.relations)[i]
    {
      var rest := set i | i in store.relations && IsProduction(app, i);
      while rest != {}
        invariant forall i :: i in rest ==> i in old(store.relations) && IsProduction(app, i)
        invariant store.relations
          == map i | i in old(store.relations) && (!IsProduction(app, i) || i in rest) :: old(store.relations)[i]
        decreases |rest|
      {
        var i :| i in rest;
        store.relations := store.relations - {i};
        rest := rest - {i};
      }
    }

    /** Deleting an object detaches its relations; none is left when the relations were deleted before. */
    method DeleteObjects(app: AppId)
      requires forall i :: i in store.relations ==> !IsProduction(app, i)
      modifies store`objects, store`relations
      ensures store.objects == map i | i in old(store.objects) && !IsProduction(app, i) :: old(store.objects)[i]
      ensures store.relations == old(store.relations)
    {
      var rest := set i | i in store.objects && IsProduction(app, i);
      while rest != {}
        invariant store.relations == old(store.relations)
        invariant forall i :: i in rest ==> i in old(store.objects) && IsProduction(app, i)
        invariant store.objects
          == map i | i in old(store.objects) && (!IsProduction(app, i) || i in rest) :: old(store.objects)[i]
        decreases |rest|
      {
        var gone :| gone in rest;
        store.objects := store.objects - {gone};
        store.relations := map i | i in store.relations && !AttachedTo(i, store.relations[i], gone) :: store.relations[i];
        rest := rest - {gone};
      }
    }

    method SaveData(objects: map<Item, string>, relations: map<Item, Relation>)
      modifies store`objects, store`relations
      ensures store.objects == old(store.objects) + objects
      ensures store.relations == old(store.relations) + Makeable(store.objects, relations, relations.Keys)
    {
      SaveObjects(objects);
      SaveRelations(relations);
    }

    method SaveObjects(objects: map<Item, string>)
      modifies store`objects
      ensures store.objects == old(store.objects) + objects
    {
      hide SavedSome;
      SavedNoneAndAll(store.objects, objects);
      var rest := objects.Keys;
      while rest != {}
        invariant rest <= objects.Keys && store.objects == SavedSome(old(store.objects), objects, rest)
        decreases |rest|
      {
        var i :| i in rest;
        SavedMore(old(store.objects), objects, rest, i);
        store.objects := store.objects[i := objects[i]];
        rest := rest - {i};
      }
    }

    method SaveRelations(relations: map<Item, Relation>)
      modifies store`relations
      ensures store.relations == old(store.relations) + Makeable(store.objects, relations, relations.Keys)
    {
      hide Makeable, EndsIn;
      var rest := relations.Keys;
      MadeNone(store.relations, store.objects, relations);
      while rest != {}
        invariant rest <= relations.Keys
        invariant store.relations == old(store.relations) + Makeable(store.objects, relations, relations.Keys - rest)
        decreases |rest|
      {
        var i :| i in rest;
        MadeMore(old(store.relations), store.objects, relations, rest, i);
        if EndsIn(store.objects, i, relations[i]) {
          store.relations := store.relations[i := relations[i]];
        }
        rest := rest - {i};
      }
      assert relations.Keys - rest == relations.Keys;
    }

    /** The pointer, its edge, the statuses and the definitions. A failure may leave part of it. */
    method RestoreRevisionState(snap: Snapshot) returns (known: bool)
      requires snap.app in store.apps
      modifies store
      ensures known == (snap.definitions.Keys <= old(store.defs).Keys)
      ensures known ==> store.Contents() == RestoreState(old(store.Contents()), snap)
    {
      hide StatusesSome, DefsSome, DefEdgesSome;
      var app := snap.app;
      AllRestored(store.Contents(), snap);
      store.apps := store.apps[app := store.apps[app].(active := snap.active)];
      store.appEdges := set e | e in store.appEdges && e.0 != app;
      if snap.active.Some? && snap.active.value in store.revs {
        store.appEdges := store.appEdges + {(app, snap.active.value)};
      }
      RestoreStatuses(snap.statuses);
      known := RestoreDefinitions(snap.definitions);
    }

    method Restore(snap: Snapshot) returns (failure: Option<Failure>)
      modifies store
      ensures
        var r := C.Restore(old(store.Contents()), snap);
        && failure == (if r.Err? then Some(r.error) else None)
        && store.Contents() == if r.Ok? then r.value else old(store.Contents())
    {
      hide RestoreState, Makeable, WithData, IsProduction;
      var before := store.Contents();
      if snap.app !in store.apps {
        return Some(UnknownApplication);
      }
      var known := RestoreRevisionState(snap);
      if !known {
        store.RollBack(before);
        return Some(UnknownDefinition);
      }
      if snap.level == DataLevel {
        ghost var state := store.Contents();
        DeleteData(snap.app);
        SaveData(snap.objects, snap.relations);
        DataWritten(state, snap.app, snap.objects, snap.relations);
      }
      return None;
    }
  }

  lemma NoStatuses(revs: map<RevId, Revision>, statuses: map<RevId, RevStatus>)
    ensures StatusesSome(revs, statuses, {}) == revs
  {
  }

  lemma DataWritten(g: Graph, app: AppId, objects: map<Item, string>, relations: map<Item, Relation>)
    ensures
      var all := (map i | i in g.objects && !IsProduction(app, i) :: g.objects[i]) + objects;
      WithData(g, app, objects, relations) ==
        g.(objects := all,
           relations := (map i | i in g.relations && !IsProduction(app, i) :: g.relations[i])
                        + Makeable(all, relations, relations.Keys))
  {
    var all := (map i | i in g.objects && !IsProduction(app, i) :: g.objects[i]) + objects;
    assert Makeable(all, relations, relations.Keys)
      == map i | i in relations && EndsIn(all, i, relations[i]) :: relations[i];
  }

  // ---------------------------------------------------------------------------
  // Activation

  class ActivationService {
    const store: ApplicationStore
    const checkpoints: CheckpointService

    constructor (store: ApplicationStore, checkpoints: CheckpointService)
      ensures this.store == store && this.checkpoints == checkpoints
    {
      this.store, this.checkpoints := store, checkpoints;
    }

    predicate Valid() {
      checkpoints.store == store
    }

    /** The failure path: restore the checkpoint if there is one and that works, then reject the revision. */
    method GiveUp(rev: RevId, taken: Option<Snapshot>, plan: Plan)
      requires Valid()
      modifies store
      ensures store.Contents() == C.GiveUp(old(store.Contents()), rev, taken, plan)
    {
      if taken.Some? && !plan.restoreFails {
        var _ := checkpoints.Restore(taken.value);
      }
      store.Reject(rev);
    }

    /** The migrations run outside any transaction; they may leave any production data of the application. */
    method RunMigrations(rev: RevId, plan: Plan)
      requires rev in store.revs
      modifies store`objects, store`relations
      ensures store.Contents() == Migrated(old(store.Contents()), rev, plan)
    {
      var after := Migrated(store.Contents(), rev, plan);
      store.objects, store.relations := after.objects, after.relations;
    }

    method Activate(rev: RevId, plan: Plan) returns (outcome: Outcome)
      requires Valid() && (rev in store.revs ==> store.revs[rev].app in store.apps)
      modifies store
      ensures (store.Contents(), outcome) == C.Activate(old(store.Contents()), rev, plan)
    {
      hide C.GiveUp, Migrated, A.ActivateEdges, Capture;
      var taken: Option<Snapshot> := None;
      var refused := store.Freeze(rev);
      if refused.Some? {
        GiveUp(rev, None, plan);
        return Refused(refused.value);
      }
      if plan.artifactsFail {
        GiveUp(rev, None, plan);
        return ArtifactsFailed;
      }
      if !plan.packageInstall {
        if plan.declaresMutation {
          var created := checkpoints.Create(store.revs[rev].app, DataLevel);
          taken := Some(created.value);
        }
        RunMigrations(rev, plan);
        if plan.migrationFails {
          GiveUp(rev, taken, plan);
          return MigrationFailed;
        }
      }
      ghost var migrated := store.Contents();
      var current := store.apps[store.revs[rev].app].active;
      var failure := store.ActivateEdges(rev);
      if failure.Some? {
        UnchangedOnFailure(migrated, rev);
        GiveUp(rev, taken, plan);
        return Refused(failure.value);
      }
      if plan.evictFails && current.Some? && current.value != rev {
        GiveUp(rev, taken, plan);
        return EvictionFailed;
      }
      return if !plan.packageInstall && plan.remountFails then ActivatedNotMounted else Activated;
    }
  }

  lemma UnchangedOnFailure(g: Graph, rev: RevId)
    ensures A.ActivateEdges(g, rev).1.Some? ==> A.ActivateEdges(g, rev).0 == g
  {
  }
}
