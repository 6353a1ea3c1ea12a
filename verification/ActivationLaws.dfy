/** When an activation succeeds and what it then does, and what a restore does to each item of data. */
module ActivationLaws {
  import opened Prelude
  import opened Applications
  import opened ApplicationLaws
  import opened Checkpoints

  // ---------------------------------------------------------------------------
  // Activation

  predicate Freezable(g: Graph, rev: RevId) {
    HasStatus(g, rev, Draft) || HasStatus(g, rev, Validating)
  }

  /** An eviction is called for, and fails, when another revision is left behind. */
  ghost predicate EvictionGoesWrong(g: Graph, rev: RevId, plan: Plan)
    requires rev in g.revs && g.revs[rev].app in g.apps
  {
    plan.evictFails && exists other :: other != rev && g.apps[g.revs[rev].app].active == Some(other)
  }

  /** Freezing a revision and migrating its data decide nothing about the switch, and the switch keeps the data. */
  lemma SwitchAfterMigration(g: Graph, rev: RevId, plan: Plan)
    requires Freezable(g, rev) && g.revs[rev].app in g.apps
    ensures
      var frozen := Freeze(g, rev).0;
      var migrated := Migrated(frozen, rev, plan);
      && Freeze(g, rev).1.None? && rev in frozen.revs && frozen.revs[rev].app == g.revs[rev].app
      && frozen.apps == migrated.apps == g.apps
      && frozen.objects == g.objects && frozen.relations == g.relations
      && migrated == frozen.(objects := migrated.objects, relations := migrated.relations)
      && ActivateEdges(frozen, rev).1 == ActivateEdges(migrated, rev).1 == ActivateEdges(g, rev).1
      && (ActivateEdges(g, rev).1.None? ==>
            && ActivateEdges(frozen, rev).0 == ActivateEdges(g, rev).0
            && ActivateEdges(migrated, rev).0
                 == ActivateEdges(g, rev).0.(objects := migrated.objects, relations := migrated.relations))
  {
    hide WithData;
    var frozen := Freeze(g, rev).0;
    var migrated := Migrated(frozen, rev, plan);
    MigratedIsWithData(frozen, rev, plan);
    SwitchIgnoresData(frozen, migrated, rev);
    SwitchAfterFreeze(g, rev);
  }

  lemma SwitchAfterFreeze(g: Graph, rev: RevId)
    requires Freezable(g, rev) && g.revs[rev].app in g.apps
    ensures
      var frozen := Freeze(g, rev).0;
      && ActivateEdges(frozen, rev).1 == ActivateEdges(g, rev).1
      && (ActivateEdges(g, rev).1.None? ==> ActivateEdges(frozen, rev).0 == ActivateEdges(g, rev).0)
  {
    var frozen := Freeze(g, rev).0;
    assert TargetsOfApp(frozen, g.revs[rev].app) == TargetsOfApp(g, g.revs[rev].app);
    assert Point(frozen, rev).revs == Point(g, rev).revs;
    assert Point(frozen, rev) == Point(g, rev);
  }

  /**
   An activation succeeds exactly when its revision is a draft or under validation, the artifacts can be built, the
   migrations run or are left out, the switch is possible, and the eviction of another revision, if there is one, works.
   Afterwards the triggers are mounted unless that fails or is left out.
   */
  lemma ActivationSucceedsIff(g: Graph, rev: RevId, plan: Plan)
    requires rev in g.revs ==> g.revs[rev].app in g.apps
    ensures
      var out := Activate(g, rev, plan).1;
      && (out.Activated? || out.ActivatedNotMounted? <==>
            && Freezable(g, rev) && !plan.artifactsFail && (plan.packageInstall || !plan.migrationFails)
            && ActivateEdges(g, rev).1.None? && !EvictionGoesWrong(g, rev, plan))
      && (out.ActivatedNotMounted? ==> !plan.packageInstall && plan.remountFails)
      && (out.Activated? ==> plan.packageInstall || !plan.remountFails)
  {
    hide ActivateEdges, Migrated, GiveUp, Capture;
    if Freezable(g, rev) {
      SwitchAfterMigration(g, rev, plan);
    }
  }

  /** Which failure it is: the first, in the order of the phases. */
  lemma ActivationFailures(g: Graph, rev: RevId, plan: Plan)
    requires rev in g.revs ==> g.revs[rev].app in g.apps
    ensures
      var out := Activate(g, rev, plan).1;
      && (rev !in g.revs ==> out == Refused(UnknownRevision))
      && (rev in g.revs && !Freezable(g, rev) ==> out == Refused(NotActivatable))
      && (out.ArtifactsFailed? <==> Freezable(g, rev) && plan.artifactsFail)
      && (out.MigrationFailed? <==>
            Freezable(g, rev) && !plan.artifactsFail && !plan.packageInstall && plan.migrationFails)
      && (Freezable(g, rev) && out.Refused? ==> ActivateEdges(g, rev).1 == Some(out.failure))
      && (out.EvictionFailed? ==> ActivateEdges(g, rev).1.None? && EvictionGoesWrong(g, rev, plan))
  {
    hide ActivateEdges, Migrated, GiveUp, Capture;
    if Freezable(g, rev) {
      SwitchAfterMigration(g, rev, plan);
    }
  }

  /** At each item of production data of the application what `says` says, and at any other one as before. */
  ghost predicate AtItems<T>(g: map<Item, T>, h: map<Item, T>, app: AppId, says: map<Item, T>) {
    forall i: Item ::
      var now := if i.app == app && i.space == "production" then says else g;
      (i in h <==> i in now) && (i in h ==> h[i] == now[i])
  }

  /**
   What a successful activation does: it is the switch, with the data that its migrations left. A relation that they ask
   for is there when both its ends are.
   */
  lemma ActivationDoes(g: Graph, rev: RevId, plan: Plan)
    requires rev in g.revs ==> g.revs[rev].app in g.apps
    requires Activate(g, rev, plan).1.Activated? || Activate(g, rev, plan).1.ActivatedNotMounted?
    ensures rev in g.revs && ActivateEdges(g, rev).1.None?
    ensures
      var h, app := Activate(g, rev, plan).0, g.revs[rev].app;
      && h == ActivateEdges(g, rev).0.(objects := h.objects, relations := h.relations)
      && (plan.packageInstall ==> h.objects == g.objects && h.relations == g.relations)
      && (!plan.packageInstall ==>
            && AtItems(g.objects, h.objects, app, plan.objects)
            && AtItems(g.relations, h.relations, app,
                                map i | i in plan.relations && BothEnds(h.objects, i, plan.relations[i]) :: plan.relations[i]))
  {
    hide ActivateEdges, Migrated, GiveUp, Capture;
    if Freezable(g, rev) {
      SwitchAfterMigration(g, rev, plan);
      SwitchDoes(g, rev);
      MigrationsLeave(Freeze(g, rev).0, rev, plan);
    }
  }

  predicate BothEnds(objects: map<Item, string>, i: Item, r: Relation) {
    Item(i.app, i.space, r.from) in objects && Item(i.app, i.space, r.to) in objects
  }

  lemma MigrationsLeave(g: Graph, rev: RevId, plan: Plan)
    requires rev in g.revs
    ensures
      var h, app := Migrated(g, rev, plan), g.revs[rev].app;
      && AtItems(g.objects, h.objects, app, plan.objects)
      && AtItems(g.relations, h.relations, app,
                          map i | i in plan.relations && BothEnds(h.objects, i, plan.relations[i]) :: plan.relations[i])
  {
  }

  // ---------------------------------------------------------------------------
  // Restoring

  /** A restore is refused exactly when the application, or a definition that the checkpoint names, is gone. */
  lemma RestoreRefusedIff(now: Graph, snap: Snapshot)
    ensures Restore(now, snap) == Err(UnknownApplication) <==> snap.app !in now.apps
    ensures Restore(now, snap) == Err(UnknownDefinition) <==>
      snap.app in now.apps && exists d :: d in snap.definitions && d !in now.defs
    ensures Restore(now, snap).Ok? <==> snap.app in now.apps && forall d :: d in snap.definitions ==> d in now.defs
  {
    hide RestoreState, WithData;
  }

  /** At each item: the captured data for the application's production data, and all else as it is now. */
  lemma RestoreAtItem(g: Graph, now: Graph, app: AppId)
    requires app in g.apps && EndsSound(g) && app in now.apps
    requires forall d :: d in g.defs && g.defs[d].owner == app ==> d in now.defs
    ensures
      var r := Restore(now, Capture(g, app, DataLevel));
      && r.Ok?
      && AtItems(now.objects, r.value.objects, app, g.objects)
      && AtItems(now.relations, r.value.relations, app, g.relations)
  {
    hide Restore, Capture, EndsSound;
    RestoreUndoes(g, now, app);
    var back := Restore(now, Capture(g, app, DataLevel)).value;
    ItemsRestored(now.objects, back.objects, app, g.objects);
    ItemsRestored(now.relations, back.relations, app, g.relations);
  }

  lemma ItemsRestored<T>(now: map<Item, T>, back: map<Item, T>, app: AppId, captured: map<Item, T>)
    requires (map i | i in back && IsProduction(app, i) :: back[i])
      == (map i | i in captured && IsProduction(app, i) :: captured[i])
    requires forall i :: i in now && !IsProduction(app, i) ==> i in back && back[i] == now[i]
    requires forall i :: i in back && !IsProduction(app, i) ==> i in now
    ensures AtItems(now, back, app, captured)
  {
    var a := map i | i in back && IsProduction(app, i) :: back[i];
    var b := map i | i in captured && IsProduction(app, i) :: captured[i];
    forall i: Item | i.app == app && i.space == "production"
      ensures (i in back <==> i in captured) && (i in back ==> back[i] == captured[i])
    {
      assert i in a <==> i in b;
      assert i in a ==> a[i] == b[i];
    }
  }
}
