/** What each operation on application revisions does, said of the records before and after. */
module ApplicationLaws {
  import opened Prelude
  import opened Applications

  /** Nothing about revisions changes but these. */
  predicate OthersKept(g: Graph, h: Graph, touched: set<RevId>) {
    && (forall id :: id in g.revs && id !in touched ==> id in h.revs && h.revs[id] == g.revs[id])
    && (forall id :: id in h.revs && id !in touched ==> id in g.revs)
    && (forall id :: id in g.bound && id !in touched ==> id in h.bound && h.bound[id] == g.bound[id])
    && (forall id :: id in h.bound && id !in touched ==> id in g.bound)
  }

  /** The parent that a new revision gets: the one asked for, or else the active revision of its application. */
  function ParentOf(g: Graph, app: AppId, given: Option<RevId>): Option<RevId>
    requires app in g.apps
  {
    if given.Some? then given
    else if g.apps[app].active.Some? && g.apps[app].active.value in g.revs then g.apps[app].active
    else None
  }

  predicate Binds(g: Graph, rev: RevId, d: Def, target: DefRevId) {
    rev in g.bound && d in g.bound[rev] && g.bound[rev][d] == target
  }

  /**
   A new revision, when there is no draft: it is refused exactly when another parent is asked for than a revision of the
   application. Otherwise a draft with the next number is added, that binds what its parent binds; nothing else changes.
   */
  lemma CreationAdds(g: Graph, app: AppId, given: Option<RevId>)
    requires app in g.apps && RevId(app, Count(g, app) + 1) !in g.revs && RevId(app, Count(g, app) + 1) !in g.bound
    ensures
      var (h, r) := CreateRevision(g, app, given, None);
      var id, parent := RevId(app, Count(g, app) + 1), ParentOf(g, app, given);
      && (r.Err? <==> given.Some? && !(given.value in g.revs && g.revs[given.value].app == app))
      && (r.Err? ==> r.error == UnknownParent && h == g)
      && (r.Ok? ==>
            && r.value == id && id in h.revs && h.revs[id] == Revision(app, parent, Draft)
            && OthersKept(g, h, {id}) && h == g.(revs := h.revs, bound := h.bound)
            && forall d, t :: Binds(h, id, d, t) <==> parent.Some? && Binds(g, parent.value, d, t))
  {
  }

  /** With a draft there, asking for a revision gives that draft or a refusal, and changes nothing. */
  lemma CreationFindsDraft(g: Graph, app: AppId, given: Option<RevId>, draft: RevId)
    requires draft in g.revs && app in g.apps
    ensures
      var (h, r) := CreateRevision(g, app, given, Some(draft));
      && h == g
      && (r == Ok(draft) <==> given.None? || given.value == draft || g.revs[draft].parent == given)
      && (r != Ok(draft) ==> r == Err(OtherDraft))
  {
  }

  lemma CreationNeedsApplication(g: Graph, app: AppId, given: Option<RevId>, draft: Option<RevId>)
    requires app !in g.apps && (draft.Some? ==> draft.value in g.revs)
    ensures CreateRevision(g, app, given, draft) == (g, Err(UnknownApplication))
  {
  }

  predicate HasStatus(g: Graph, rev: RevId, status: RevStatus) {
    rev in g.revs && g.revs[rev].status == status
  }

  /** Declaring works on a draft alone. It binds one name, and makes the definition's record if nobody has made it. */
  lemma DeclarationBinds(g: Graph, rev: RevId, d: Def, target: DefRevId)
    ensures
      var (h, failure) := Declare(g, rev, d, target);
      && (failure.None? <==> HasStatus(g, rev, Draft))
      && (failure.Some? ==> h == g && failure == Some(if rev in g.revs then NotDraft else UnknownRevision))
      && (failure.None? ==>
            && h == g.(defs := h.defs, bound := h.bound) && OthersKept(g, h, {rev})
            && (forall e, t :: Binds(h, rev, e, t) <==> if e == d then t == target else Binds(g, rev, e, t))
            && h.defs.Keys == g.defs.Keys + {d} && (forall e :: e in g.defs ==> h.defs[e] == g.defs[e])
            && (d !in g.defs ==> h.defs[d] == Definition(g.revs[rev].app, None)))
  {
  }

  /** Only a draft is discarded, with what it binds. */
  lemma DiscardRemoves(g: Graph, rev: RevId)
    ensures
      var (h, failure) := DiscardRevision(g, rev);
      && (failure.None? <==> HasStatus(g, rev, Draft))
      && (failure.Some? ==> h == g && failure == Some(if rev in g.revs then NotDraft else UnknownRevision))
      && (failure.None? ==>
            h == g.(revs := h.revs, bound := h.bound) && OthersKept(g, h, {rev}) && rev !in h.revs && rev !in h.bound)
  {
  }

  /** The graph with one revision in another status. */
  predicate OnlyStatus(g: Graph, h: Graph, rev: RevId, status: RevStatus) {
    && h == g.(revs := h.revs) && OthersKept(g, h, {rev}) && rev in g.revs && rev in h.revs
    && h.revs[rev] == g.revs[rev].(status := status)
  }

  /** A draft, or a revision under validation, is frozen; validation is what can be rejected, and rejection reopened. */
  lemma StatusMoves(g: Graph, rev: RevId)
    ensures
      var (h, failure) := Freeze(g, rev);
      && (failure.None? <==> HasStatus(g, rev, Draft) || HasStatus(g, rev, Validating))
      && (failure.None? ==> OnlyStatus(g, h, rev, Validating))
      && (failure.Some? ==> h == g && failure == Some(if rev in g.revs then NotActivatable else UnknownRevision))
    ensures if HasStatus(g, rev, Validating) then OnlyStatus(g, Reject(g, rev), rev, Rejected) else Reject(g, rev) == g
    ensures if HasStatus(g, rev, Rejected) then OnlyStatus(g, Reopen(g, rev), rev, Validating) else Reopen(g, rev) == g
  {
  }

  // ---------------------------------------------------------------------------
  // The switch

  /** The active revision of an application that a switch to another one leaves behind. */
  function LeftBehind(g: Graph, rev: RevId): set<RevId>
    requires rev in g.revs && g.revs[rev].app in g.apps
  {
    var current := g.apps[g.revs[rev].app].active;
    if current.Some? && current.value != rev then {current.value} else {}
  }

  /** The stored edge of the application leads to its active revision, and to no other. */
  predicate EdgeFits(g: Graph, app: AppId)
    requires app in g.apps
  {
    && (forall e :: e in g.appEdges && e.0 == app ==> g.apps[app].active == Some(e.1))
    && (g.apps[app].active.Some? ==> (app, g.apps[app].active.value) in g.appEdges)
  }

  /**
   When a switch succeeds: revision and application are known, so is the active revision if there is one, the stored edge
   agrees with it, and every definition that the revision binds is known.
   */
  lemma SwitchSucceedsIff(g: Graph, rev: RevId)
    ensures ActivateEdges(g, rev).1.None? <==>
      && rev in g.revs && g.revs[rev].app in g.apps
      && (var app := g.revs[rev].app;
          && (g.apps[app].active.Some? ==> g.apps[app].active.value in g.revs)
          && EdgeFits(g, app)
          && (forall d, t :: Binds(g, rev, d, t) ==> d in g.defs))
    ensures ActivateEdges(g, rev).1.Some? ==> ActivateEdges(g, rev).0 == g
  {
    if rev in g.revs && g.revs[rev].app in g.apps {
      var app := g.revs[rev].app;
      TargetsAre(g, app);
      assert forall d :: d in BoundBy(g, rev) ==> Binds(g, rev, d, BoundBy(g, rev)[d]);
    }
  }

  lemma TargetsAre(g: Graph, app: AppId)
    requires app in g.apps
    ensures TargetsOfApp(g, app) == ActiveSet(g.apps[app].active) <==> EdgeFits(g, app)
  {
    var targets := TargetsOfApp(g, app);
    assert forall e :: e in g.appEdges && e.0 == app ==> e.1 in targets;
    assert forall r :: r in targets <==> (app, r) in g.appEdges;
  }

  /** Which failure it is, in the order in which they are looked for. */
  lemma SwitchFailures(g: Graph, rev: RevId)
    ensures rev !in g.revs ==> ActivateEdges(g, rev).1 == Some(UnknownRevision)
    ensures rev in g.revs && g.revs[rev].app !in g.apps ==> ActivateEdges(g, rev).1 == Some(UnknownApplication)
    ensures rev in g.revs && g.revs[rev].app in g.apps ==>
      var app := g.revs[rev].app;
      var known := g.apps[app].active.Some? ==> g.apps[app].active.value in g.revs;
      && (!known ==> ActivateEdges(g, rev).1 == Some(DanglingActive))
      && (known && !EdgeFits(g, app) ==> ActivateEdges(g, rev).1 == Some(StaleActiveEdge))
      && (known && EdgeFits(g, app) && ActivateEdges(g, rev).1.Some? ==>
            ActivateEdges(g, rev).1 == Some(UnknownDefinition))
  {
    if rev in g.revs && g.revs[rev].app in g.apps {
      TargetsAre(g, g.revs[rev].app);
    }
  }

  /**
   What a switch does: the revision is active, the one left behind superseded, no other revision changes; pointer and edge
   name the revision; an application that was disabled has paused triggers; each definition that the revision binds is
   active at that binding, by record and by edge, and no other definition changes. The data stays.
   */
  lemma SwitchDoes(g: Graph, rev: RevId)
    requires ActivateEdges(g, rev).1.None?
    ensures rev in g.revs && g.revs[rev].app in g.apps
    ensures
      var h, app := ActivateEdges(g, rev).0, g.revs[rev].app;
      && h.bound == g.bound && h.objects == g.objects && h.relations == g.relations
      && h.revs.Keys == g.revs.Keys
      && (forall id :: id in g.revs ==>
            h.revs[id] == if id == rev then g.revs[id].(status := Active)
                          else if id in LeftBehind(g, rev) then g.revs[id].(status := Superseded)
                          else g.revs[id])
      && h.apps.Keys == g.apps.Keys && (forall a :: a in g.apps && a != app ==> h.apps[a] == g.apps[a])
      && h.apps[app].active == Some(rev)
      && h.apps[app].status == (if g.apps[app].status == Disabled then TriggersPaused else g.apps[app].status)
      && (forall a, r :: (a, r) in h.appEdges <==> if a == app then r == rev else (a, r) in g.appEdges)
  {
  }

  lemma SwitchActivates(g: Graph, rev: RevId)
    requires ActivateEdges(g, rev).1.None?
    ensures
      var h := ActivateEdges(g, rev).0;
      && h.defs.Keys == g.defs.Keys
      && (forall d :: d in g.defs ==>
            h.defs[d] == if rev in g.bound && d in g.bound[rev] then g.defs[d].(active := Some(g.bound[rev][d]))
                         else g.defs[d])
      && (forall d, t :: (d, t) in h.defEdges <==>
            if rev in g.bound && d in g.bound[rev] then t == g.bound[rev][d] else (d, t) in g.defEdges)
  {
    hide TargetsOfApp;
  }

  /** Adding an application that is there changes nothing; a new one is active, and has no active revision yet. */
  lemma ApplicationSteps(g: Graph, app: AppId, status: AppStatus)
    ensures
      var added, moved := Next(g, AddApplication(app)), Next(g, SetStatus(app, status));
      && added == g.(apps := added.apps) && added.apps.Keys == g.apps.Keys + {app}
      && (forall a :: a in g.apps ==> added.apps[a] == g.apps[a])
      && (app !in g.apps ==> added.apps[app].active.None? && added.apps[app].status == AppActive)
      && moved == g.(apps := moved.apps) && moved.apps.Keys == g.apps.Keys
      && (forall a :: a in g.apps && a != app ==> moved.apps[a] == g.apps[a])
      && (app in g.apps ==> moved.apps[app].active == g.apps[app].active && moved.apps[app].status == status)
  {
  }

  /** A roll-back is a switch to a revision of the application that has been active. */
  lemma RollbackIs(g: Graph, app: AppId, rev: RevId)
    ensures
      Rollback(g, app, rev) ==
        if rev !in g.revs then (g, Some(UnknownRevision))
        else if g.revs[rev].app != app then (g, Some(OtherApplication))
        else if HasStatus(g, rev, Active) || HasStatus(g, rev, Superseded) then ActivateEdges(g, rev)
        else (g, Some(NeverActive))
  {
  }
}
