/** The records and edges of applications, and the services that change them step by step. */
module ApplicationStore {
  import opened Prelude
  import opened A = Applications
  import opened ApplicationsProofs

  /** The definitions that are made active when those of the binding in `done` have been handled. */
  ghost function ActivateSome(g: Graph, bound: map<Def, DefRevId>, done: set<Def>): Graph {
    g.(defs := map d | d in g.defs :: if d in bound && d in done then g.defs[d].(active := Some(bound[d])) else g.defs[d],
       defEdges := (set e | e in g.defEdges && !(e.0 in bound && e.0 in done))
                   + (set d | d in bound && d in done :: (d, bound[d])))
  }

  lemma SomeMore(g: Graph, bound: map<Def, DefRevId>, done: set<Def>, d: Def)
    requires d in bound && d in g.defs
    ensures
      var some, more := ActivateSome(g, bound, done), ActivateSome(g, bound, done + {d});
      && d in some.defs
      && more == some.(defs := some.defs[d := some.defs[d].(active := Some(bound[d]))],
                       defEdges := (set e | e in some.defEdges && e.0 != d) + {(d, bound[d])})
  {
    var some, more := ActivateSome(g, bound, done), ActivateSome(g, bound, done + {d});
    assert more.defs == some.defs[d := some.defs[d].(active := Some(bound[d]))];
    var edges := (set e | e in some.defEdges && e.0 != d) + {(d, bound[d])};
    forall e: (Def, DefRevId)
      ensures e in more.defEdges <==> e in edges
    {
    }
    assert more.defEdges == edges;
  }

  lemma SomeAll(g: Graph, rev: RevId, done: set<Def>)
    requires BoundBy(g, rev).Keys <= done
    ensures ActivateSome(g, BoundBy(g, rev), done) == ActivateDefinitions(g, rev)
  {
    var bound := BoundBy(g, rev);
    assert ActivateSome(g, bound, done).defs == ActivateDefinitions(g, rev).defs;
    assert ActivateSome(g, bound, done).defEdges == ActivateDefinitions(g, rev).defEdges;
  }

  lemma SomeNone(g: Graph, bound: map<Def, DefRevId>)
    ensures ActivateSome(g, bound, {}) == g
  {
    assert ActivateSome(g, bound, {}).defs == g.defs;
    assert ActivateSome(g, bound, {}).defEdges == g.defEdges;
  }

  function CopySome(own: map<Def, DefRevId>, source: map<Def, DefRevId>, done: set<Def>): map<Def, DefRevId> {
    own + map d | d in source && d in done :: source[d]
  }

  lemma CopyMore(own: map<Def, DefRevId>, source: map<Def, DefRevId>, rest: set<Def>, d: Def)
    requires d in source && d in rest
    ensures CopySome(own, source, source.Keys - (rest - {d})) == CopySome(own, source, source.Keys - rest)[d := source[d]]
  {
  }

  lemma CopyNoneAndAll(own: map<Def, DefRevId>, source: map<Def, DefRevId>)
    ensures CopySome(own, source, source.Keys - source.Keys) == own
    ensures CopySome(own, source, source.Keys - {}) == own + source
  {
    assert (map d | d in source && d in source.Keys - {} :: source[d]) == source;
  }

  class ApplicationStore {
    var apps: map<AppId, App>
    var appEdges: set<(AppId, RevId)>
    var revs: map<RevId, Revision>
    var bound: map<RevId, map<Def, DefRevId>>
    var defs: map<Def, Definition>
    var defEdges: set<(Def, DefRevId)>
    var objects: map<Item, string>
    var relations: map<Item, Relation>

    constructor ()
      ensures Contents() == Empty()
    {
      apps, appEdges, revs, bound := map[], {}, map[], map[];
      defs, defEdges, objects, relations := map[], {}, map[], map[];
    }

    function Contents(): Graph
      reads this
    {
      Graph(apps, appEdges, revs, bound, defs, defEdges, objects, relations)
    }

    /** End a transaction that raised. */
    method RollBack(g: Graph)
      modifies this
      ensures Contents() == g
    {
      apps, appEdges, revs, bound := g.apps, g.appEdges, g.revs, g.bound;
      defs, defEdges, objects, relations := g.defs, g.defEdges, g.objects, g.relations;
    }

    // -------------------------------------------------------------------------
    // Revisions

    method FindDraft(app: AppId) returns (draft: Option<RevId>)
      requires Numbered(Contents())
      ensures draft == TheDraft(Contents(), app)
    {
      hide Count, Numbered;
      AtMostOneDraft(Contents(), app);
      draft := None;
      var rest := revs.Keys;
      while rest != {}
        invariant rest <= revs.Keys
        invariant draft.Some? ==> draft.value in Drafts(Contents(), app)
        invariant draft.None? ==> Drafts(Contents(), app) <= rest
        decreases |rest|
      {
        var id :| id in rest;
        if revs[id].app == app && revs[id].status == Draft {
          draft := Some(id);
        }
        rest := rest - {id};
      }
    }

    /** Copy the bindings of one revision to another, binding by binding. */
    method CopyEdges(parent: RevId, child: RevId)
      requires parent != child
      modifies this`bound
      ensures bound == old(bound)[child := BoundBy(old(Contents()), child) + BoundBy(old(Contents()), parent)]
    {
      hide CopySome, BoundBy;
      var source, own := BoundBy(Contents(), parent), BoundBy(Contents(), child);
      var copied := own;
      var rest := source.Keys;
      CopyNoneAndAll(own, source);
      while rest != {}
        invariant rest <= source.Keys && bound == old(bound)
        invariant copied == CopySome(own, source, source.Keys - rest)
        decreases |rest|
      {
        var d :| d in rest;
        CopyMore(own, source, rest, d);
        copied := copied[d := source[d]];
        rest := rest - {d};
      }
      bound := bound[child := copied];
    }

    method CreateRevision(app: AppId, given: Option<RevId>) returns (r: Result<RevId, Failure>)
      requires Numbered(Contents())
      modifies this`revs, this`bound
      ensures (Contents(), r) == A.CreateRevision(old(Contents()), app, given, TheDraft(old(Contents()), app))
    {
      hide Numbered, TheDraft, BoundBy, Revisions;
      ghost var before := Contents();
      if app !in apps {
        return Err(UnknownApplication);
      }
      var draft := FindDraft(app);
      if draft.Some? {
        if given.None? || given.value == draft.value || revs[draft.value].parent == given {
          return Ok(draft.value);
        }
        return Err(OtherDraft);
      }
      var parent := ResolveParent(Contents(), app, given);
      if parent.Err? {
        return Err(parent.error);
      }
      var id := RevId(app, |Revisions(Contents(), app)| + 1);
      NumbersAreExact(before, app);
      ParentKnown(before, app, given);
      revs := revs[id := Revision(app, parent.value, Draft)];
      if parent.value.Some? {
        SameBindings(before, Contents());
        CopyEdges(parent.value.value, id);
      } else {
        SameBindings(before, Contents());
        bound := bound[id := BoundBy(Contents(), id)];
        assert BoundBy(before, id) + map[] == BoundBy(before, id);
      }
      return Ok(id);
    }

    method DiscardRevision(rev: RevId) returns (failure: Option<Failure>)
      modifies this`revs, this`bound
      ensures (Contents(), failure) == A.DiscardRevision(old(Contents()), rev)
    {
      if rev !in revs {
        return Some(UnknownRevision);
      }
      if revs[rev].status != Draft {
        return Some(NotDraft);
      }
      bound := bound - {rev};
      revs := revs - {rev};
      return None;
    }

    method Freeze(rev: RevId) returns (failure: Option<Failure>)
      modifies this`revs
      ensures (Contents(), failure) == A.Freeze(old(Contents()), rev)
    {
      if rev !in revs {
        return Some(UnknownRevision);
      }
      if revs[rev].status != Draft && revs[rev].status != Validating {
        return Some(NotActivatable);
      }
      if revs[rev].status == Draft {
        revs := revs[rev := revs[rev].(status := Validating)];
      } else {
        assert revs == revs[rev := revs[rev].(status := Validating)];
      }
      return None;
    }

    method Reject(rev: RevId)
      modifies this`revs
      ensures Contents() == A.Reject(old(Contents()), rev)
    {
      if rev in revs && revs[rev].status == Validating {
        revs := revs[rev := revs[rev].(status := Rejected)];
      }
    }

    // -------------------------------------------------------------------------
    // Switching

    /** Make the bound definitions of one kind active. It stops at a definition that has no record. */
    method ActivateRevisionSet(rev: RevId, kind: Kind, ghost g: Graph, ghost done: set<Def>)
      returns (known: bool, ghost after: set<Def>)
      requires Contents() == ActivateSome(g, BoundBy(g, rev), done)
      modifies this`defs, this`defEdges
      ensures known ==> Contents() == ActivateSome(g, BoundBy(g, rev), after)
      ensures known ==> done <= after && forall d :: d in BoundBy(g, rev) && d.kind == kind ==> d in after && d in g.defs
      ensures !known ==> !(BoundBy(g, rev).Keys <= g.defs.Keys)
    {
      hide ActivateSome;
      after := done;
      SomeKeys(g, rev, done);
      var bindings := BoundBy(Contents(), rev);
      var rest := set d | d in bindings && d.kind == kind;
      while rest != {}
        invariant done <= after && rest <= bindings.Keys && bindings == BoundBy(g, rev)
        invariant Contents() == ActivateSome(g, bindings, after)
        invariant forall d :: d in bindings && d.kind == kind && d !in rest ==> d in after && d in g.defs
        decreases |rest|
      {
        var d :| d in rest;
        SomeKeys(g, rev, after);
        if d !in defs {
          return false, after;
        }
        SomeMore(g, bindings, after, d);
        defs := defs[d := defs[d].(active := Some(bindings[d]))];
        defEdges := (set e | e in defEdges && e.0 != d) + {(d, bindings[d])};
        after := after + {d};
        rest := rest - {d};
      }
      known := true;
    }

    /** Move the active pointer of the application, its edge and the statuses. A failure may leave part of it. */
    method MovePointer(rev: RevId) returns (failure: Option<Failure>)
      modifies this`revs, this`apps, this`appEdges
      ensures failure.None? ==> rev in old(revs) && old(revs)[rev].app in old(apps)
      ensures failure.None? ==>
        var app := old(revs)[rev].app;
        && TargetsOfApp(old(Contents()), app) == ActiveSet(old(apps)[app].active)
        && (old(apps)[app].active.Some? ==> old(apps)[app].active.value in old(revs))
        && Contents() == Point(old(Contents()), rev)
      ensures failure.Some? ==> !failure.value.UnknownDefinition? && A.ActivateEdges(old(Contents()), rev).1 == failure
    {
      hide ActivateDefinitions, BoundBy, TargetsOfApp;
      ghost var before := Contents();
      if rev !in revs {
        return Some(UnknownRevision);
      }
      var app := revs[rev].app;
      if app !in apps {
        return Some(UnknownApplication);
      }
      var current := apps[app].active;
      if current.Some? && current.value !in revs {
        return Some(DanglingActive);
      }
      var target, expected := revs[rev], TargetsOfApp(Contents(), app);
      assert expected == TargetsOfApp(before, app);
      if current.Some? && current.value != rev {
        revs := revs[current.value := revs[current.value].(status := Superseded)];
      }
      revs := revs[rev := target.(status := Active)];
      apps := apps[app := App(Some(rev), StatusAfter(apps[app].status))];
      if expected != ActiveSet(current) {
        return Some(StaleActiveEdge);
      }
      appEdges := (set e | e in appEdges && e.0 != app) + {(app, rev)};
      return None;
    }

    method ActivateAllSets(rev: RevId) returns (known: bool)
      modifies this`defs, this`defEdges
      ensures known == (BoundBy(old(Contents()), rev).Keys <= old(defs).Keys)
      ensures known ==> Contents() == ActivateDefinitions(old(Contents()), rev)
    {
      hide ActivateSome, ActivateDefinitions, BoundBy;
      ghost var g := Contents();
      SomeNone(g, BoundBy(g, rev));
      ghost var done;
      known, done := ActivateRevisionSet(rev, ActionKind, g, {});
      if known {
        known, done := ActivateRevisionSet(rev, TriggerKind, g, done);
      }
      if known {
        known, done := ActivateRevisionSet(rev, ObjectTypeKind, g, done);
      }
      if known {
        known, done := ActivateRevisionSet(rev, RelationTypeKind, g, done);
      }
      if known {
        SomeAll(g, rev, done);
      }
    }

    method ActivateEdges(rev: RevId) returns (failure: Option<Failure>)
      modifies this
      ensures (Contents(), failure) == A.ActivateEdges(old(Contents()), rev)
    {
      hide ActivateDefinitions, BoundBy, Point, TargetsOfApp;
      var before := Contents();
      failure := MovePointer(rev);
      if failure.Some? {
        RollBack(before);
        FailureKeeps(before, rev);
        return;
      }
      PointLeavesDefinitions(before, rev);
      var known := ActivateAllSets(rev);
      if !known {
        RollBack(before);
        return Some(UnknownDefinition);
      }
    }

    method Rollback(app: AppId, rev: RevId) returns (failure: Option<Failure>)
      modifies this
      ensures (Contents(), failure) == A.Rollback(old(Contents()), app, rev)
    {
      if rev !in revs {
        return Some(UnknownRevision);
      }
      if revs[rev].app != app {
        return Some(OtherApplication);
      }
      if revs[rev].status != Active && revs[rev].status != Superseded {
        return Some(NeverActive);
      }
      failure := ActivateEdges(rev);
    }
  }

  lemma SomeKeys(g: Graph, rev: RevId, done: set<Def>)
    ensures
      var some := ActivateSome(g, BoundBy(g, rev), done);
      && some == g.(defs := some.defs, defEdges := some.defEdges) && some.defs.Keys == g.defs.Keys
      && BoundBy(some, rev) == BoundBy(g, rev)
  {
  }

  lemma SameBindings(g: Graph, h: Graph)
    requires g.bound == h.bound
    ensures forall id :: BoundBy(g, id) == BoundBy(h, id)
  {
  }

  lemma FailureKeeps(g: Graph, rev: RevId)
    ensures ActivateEdges(g, rev).1.Some? ==> ActivateEdges(g, rev).0 == g
  {
  }

  lemma ParentKnown(g: Graph, app: AppId, given: Option<RevId>)
    requires app in g.apps
    ensures var p := ResolveParent(g, app, given); p.Ok? && p.value.Some? ==> p.value.value in g.revs
  {
  }
}
