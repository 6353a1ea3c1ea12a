/** What every run of operations on application revisions keeps. */
module ApplicationsProofs {
  import opened Prelude
  import opened Applications

  // ---------------------------------------------------------------------------
  // Numbers

  function Numbers(app: AppId, n: int): set<RevId> {
    set k | 1 <= k <= n :: RevId(app, k)
  }

  lemma {:induction false} NumbersCount(app: AppId, n: nat)
    ensures |Numbers(app, n)| == n
  {
    if n == 0 {
      assert Numbers(app, n) == {};
    } else {
      NumbersCount(app, n - 1);
      assert Numbers(app, n) == Numbers(app, n - 1) + {RevId(app, n)};
    }
  }

  lemma SubsetOfSameSize<T>(a: set<T>, b: set<T>)
    requires a <= b && |a| == |b|
    ensures a == b
  {
    assert |b - a| == |b| - |a|;
    assert b == a + (b - a);
  }

  /** The numbers in use are exactly 1 to n: the next id is new. */
  lemma NumbersAreExact(g: Graph, app: AppId)
    requires Numbered(g)
    ensures Revisions(g, app) == Numbers(app, Count(g, app))
    ensures RevId(app, Count(g, app) + 1) !in g.revs
  {
    NumbersCount(app, Count(g, app));
    forall id | id in Revisions(g, app)
      ensures id in Numbers(app, Count(g, app))
    {
      assert id == RevId(app, id.number);
    }
    SubsetOfSameSize(Revisions(g, app), Numbers(app, Count(g, app)));
    assert RevId(app, Count(g, app) + 1) in g.revs ==> RevId(app, Count(g, app) + 1) in Revisions(g, app);
  }

  /** An application has at most one draft, and it is the last revision. */
  lemma AtMostOneDraft(g: Graph, app: AppId)
    requires Numbered(g)
    ensures Drafts(g, app) == if TheDraft(g, app).Some? then {TheDraft(g, app).value} else {}
  {
    forall id | id in Drafts(g, app)
      ensures id == RevId(app, Count(g, app))
    {
    }
  }

  /** The same revisions, with other statuses: none becomes a draft. */
  predicate SameRevisions(g: Graph, h: Graph) {
    && h.revs.Keys == g.revs.Keys
    && forall id :: id in g.revs ==>
         && h.revs[id].app == g.revs[id].app && h.revs[id].parent == g.revs[id].parent
         && (h.revs[id].status == Draft ==> g.revs[id].status == Draft)
  }

  lemma NumberedKept(g: Graph, h: Graph)
    requires Numbered(g) && SameRevisions(g, h) && g.apps.Keys <= h.apps.Keys
    ensures Numbered(h)
  {
    forall app
      ensures Count(h, app) == Count(g, app)
    {
      assert Revisions(h, app) == Revisions(g, app);
    }
  }

  // ---------------------------------------------------------------------------
  // Create, declare, discard

  lemma CreateCounts(g: Graph, h: Graph, id: RevId, r: Revision)
    requires Numbered(g) && id == RevId(r.app, Count(g, r.app) + 1) && h.revs == g.revs[id := r]
    ensures Count(h, r.app) == Count(g, r.app) + 1
    ensures forall app :: app != r.app ==> Count(h, app) == Count(g, app)
  {
    NumbersAreExact(g, r.app);
    assert Revisions(h, r.app) == Revisions(g, r.app) + {id};
    forall app | app != r.app
      ensures Count(h, app) == Count(g, app)
    {
      assert Revisions(h, app) == Revisions(g, app);
    }
  }

  lemma NoDraft(g: Graph, app: AppId)
    requires Numbered(g) && TheDraft(g, app).None?
    ensures forall k :: k in g.revs && g.revs[k].app == app ==> g.revs[k].status != Draft
  {
    AtMostOneDraft(g, app);
    forall k | k in g.revs && g.revs[k].app == app
      ensures g.revs[k].status != Draft
    {
      assert k !in Drafts(g, app);
    }
  }

  lemma CreateNumbers(g: Graph, h: Graph, id: RevId, r: Revision)
    requires Numbered(g) && id == RevId(r.app, Count(g, r.app) + 1) && r.app in g.apps
    requires h.revs == g.revs[id := r] && h.apps == g.apps && TheDraft(g, r.app).None?
    ensures Numbered(h)
  {
    hide Count, TheDraft;
    CreateCounts(g, h, id, r);
    NoDraft(g, r.app);
    NumbersAreExact(g, r.app);
  }

  lemma DiscardNumbers(g: Graph, h: Graph, rev: RevId)
    requires Numbered(g) && rev in g.revs && g.revs[rev].status == Draft
    requires h.revs == g.revs - {rev} && h.apps == g.apps
    ensures Numbered(h)
  {
    var own := g.revs[rev].app;
    AtMostOneDraft(g, own);
    NumbersAreExact(g, own);
    assert rev in Drafts(g, own);
    assert Revisions(h, own) == Revisions(g, own) - {rev};
    forall app | app != own
      ensures Count(h, app) == Count(g, app)
    {
      assert Revisions(h, app) == Revisions(g, app);
    }
    forall id | id in h.revs && id.app == own
      ensures id.number < Count(g, own) && h.revs[id].status != Draft
    {
      assert id in Revisions(g, own) && id !in Drafts(g, own);
      assert id != RevId(own, Count(g, own));
    }
  }

  /** Adding or removing a revision that is not active leaves the active pointers. */
  lemma OneActiveKept(g: Graph, h: Graph, changed: RevId)
    requires AllOneActive(g) && h.apps == g.apps && h.appEdges == g.appEdges
    requires forall id :: id != changed ==> (id in h.revs <==> id in g.revs) && (id in g.revs ==> h.revs[id] == g.revs[id])
    requires changed in g.revs ==> g.revs[changed].status != Active
    requires changed in h.revs ==> h.revs[changed].status != Active
    requires changed in g.revs && changed in h.revs ==> g.revs[changed].app == h.revs[changed].app
    requires forall app :: app in g.apps ==> g.apps[app].active != Some(changed)
    ensures AllOneActive(h)
  {
    forall app | app in h.apps
      ensures OneActive(h, app)
    {
      assert OneActive(g, app);
      assert TargetsOfApp(h, app) == TargetsOfApp(g, app);
    }
  }

  lemma NotActive(g: Graph, rev: RevId)
    requires AllOneActive(g) && (rev in g.revs ==> g.revs[rev].status != Active)
    ensures forall app :: app in g.apps ==> g.apps[app].active != Some(rev)
  {
    forall app | app in g.apps
      ensures g.apps[app].active != Some(rev)
    {
      assert OneActive(g, app);
    }
  }

  lemma CreateKeeps(g: Graph, app: AppId, given: Option<RevId>)
    requires Invariant(g)
    ensures Invariant(CreateRevision(g, app, given, TheDraft(g, app)).0)
  {
    hide Numbered, AllOneActive, Count, TheDraft, ResolveParent, DraftServes, BoundSound, DefinitionsActive, DefEdgesSound;
    var draft := TheDraft(g, app);
    if app in g.apps && draft.None? && ResolveParent(g, app, given).Ok? {
      var id, parent := RevId(app, Count(g, app) + 1), ResolveParent(g, app, given).value;
      var h := CreateRevision(g, app, given, draft).0;
      NumbersAreExact(g, app);
      CreateNumbers(g, h, id, Revision(app, parent, Draft));
      NotActive(g, id);
      OneActiveKept(g, h, id);
      ParentIsOwn(g, app, given);
      CreateBound(g, id, parent);
    }
  }

  lemma ParentIsOwn(g: Graph, app: AppId, given: Option<RevId>)
    requires Invariant(g) && app in g.apps
    ensures var p := ResolveParent(g, app, given);
      p.Ok? && p.value.Some? ==> p.value.value in g.revs && p.value.value.app == app
  {
    assert OneActive(g, app);
  }

  lemma CreateBound(g: Graph, id: RevId, parent: Option<RevId>)
    requires BoundSound(g) && DefinitionsActive(g) && id !in g.revs
    requires parent.Some? ==> parent.value in g.revs && parent.value.app == id.app
    requires forall app :: app in g.apps ==> g.apps[app].active != Some(id)
    ensures
      var h := g.(revs := g.revs[id := Revision(id.app, parent, Draft)],
                  bound := g.bound[id := BoundBy(g, id) + if parent.Some? then BoundBy(g, parent.value) else map[]]);
      BoundSound(h) && DefinitionsActive(h) && (DefEdgesSound(g) ==> DefEdgesSound(h))
  {
  }

  lemma DeclareKeeps(g: Graph, rev: RevId, d: Def, target: DefRevId)
    requires Invariant(g) && Regular(g, DeclareOn(rev, d, target))
    ensures Invariant(Declare(g, rev, d, target).0)
  {
    hide Numbered, AllOneActive, BoundSound, DefinitionsActive, DefEdgesSound, BoundBy;
    if rev in g.revs && g.revs[rev].status == Draft {
      var h := Declare(g, rev, d, target).0;
      OwnApp(g, rev);
      NumberedKept(g, h);
      NotActive(g, rev);
      OneActiveKept(g, h, rev);
      DeclareBound(g, rev, d, target);
    }
  }

  lemma DeclareBound(g: Graph, rev: RevId, d: Def, target: DefRevId)
    requires BoundSound(g) && DefinitionsActive(g) && DefEdgesSound(g) && rev in g.revs
    requires d in g.defs ==> g.defs[d].owner == rev.app
    requires forall app :: app in g.apps ==> g.apps[app].active != Some(rev)
    ensures
      var h := g.(defs := if d in g.defs then g.defs else g.defs[d := Definition(rev.app, None)],
                  bound := g.bound[rev := BoundBy(g, rev)[d := target]]);
      BoundSound(h) && DefinitionsActive(h) && DefEdgesSound(h)
  {
  }

  lemma OwnApp(g: Graph, rev: RevId)
    requires Numbered(g) && rev in g.revs
    ensures g.revs[rev].app == rev.app && rev.app in g.apps
  {
  }

  lemma DiscardKeeps(g: Graph, rev: RevId)
    requires Invariant(g)
    ensures Invariant(DiscardRevision(g, rev).0)
  {
    hide Numbered, AllOneActive;
    if rev in g.revs && g.revs[rev].status == Draft {
      var h := DiscardRevision(g, rev).0;
      DiscardNumbers(g, h, rev);
      NotActive(g, rev);
      OneActiveKept(g, h, rev);
    }
  }

  // ---------------------------------------------------------------------------
  // Statuses

  lemma StatusKeeps(g: Graph, rev: RevId, status: RevStatus)
    requires Invariant(g) && rev in g.revs && g.revs[rev].status != Active && status != Active && status != Draft
    ensures Invariant(WithStatus(g, rev, status))
  {
    hide Numbered, AllOneActive, BoundSound, DefinitionsActive, DefEdgesSound;
    var h := WithStatus(g, rev, status);
    NumberedKept(g, h);
    NotActive(g, rev);
    OneActiveKept(g, h, rev);
    StatusDefinitions(g, rev, status);
  }

  lemma StatusDefinitions(g: Graph, rev: RevId, status: RevStatus)
    requires BoundSound(g) && DefinitionsActive(g) && DefEdgesSound(g) && rev in g.revs
    ensures var h := WithStatus(g, rev, status); BoundSound(h) && DefinitionsActive(h) && DefEdgesSound(h)
  {
  }

  // ---------------------------------------------------------------------------
  // Switching

  lemma PointRevs(g: Graph, rev: RevId)
    requires rev in g.revs && g.revs[rev].app in g.apps
    ensures
      var h, own := Point(g, rev), g.revs[rev].app;
      var current := g.apps[own].active;
      && h.revs.Keys == g.revs.Keys && h.revs[rev] == g.revs[rev].(status := Active)
      && (forall id :: id in g.revs && id != rev ==>
            h.revs[id] == if current == Some(id) then g.revs[id].(status := Superseded) else g.revs[id])
      && h.apps.Keys == g.apps.Keys && h.apps[own].active == Some(rev)
      && (forall app :: app in g.apps && app != own ==> h.apps[app] == g.apps[app])
      && (forall e :: e in h.appEdges <==> if e.0 == own then e == (own, rev) else e in g.appEdges)
  {
  }

  lemma PointKeeps(g: Graph, rev: RevId)
    requires Numbered(g) && AllOneActive(g) && rev in g.revs && g.revs[rev].app in g.apps && g.revs[rev].status != Draft
    ensures Numbered(Point(g, rev)) && AllOneActive(Point(g, rev))
  {
    hide Numbered, Point, OneActive, TargetsOfApp, ActiveSet;
    var h := Point(g, rev);
    PointRevs(g, rev);
    NumberedKept(g, h);
    forall app | app in h.apps
      ensures OneActive(h, app)
    {
      if app == g.revs[rev].app {
        PointOwn(g, rev);
      } else {
        PointOther(g, rev, app);
      }
    }
  }

  lemma PointOwn(g: Graph, rev: RevId)
    requires rev in g.revs && g.revs[rev].app in g.apps && OneActive(g, g.revs[rev].app)
    ensures g.revs[rev].app in Point(g, rev).apps && OneActive(Point(g, rev), g.revs[rev].app)
  {
    hide Point;
    PointRevs(g, rev);
    assert TargetsOfApp(Point(g, rev), g.revs[rev].app) == {rev} by {
      assert (g.revs[rev].app, rev) in Point(g, rev).appEdges;
    }
  }

  lemma PointOther(g: Graph, rev: RevId, app: AppId)
    requires rev in g.revs && g.revs[rev].app in g.apps && app in g.apps && app != g.revs[rev].app
    requires OneActive(g, app) && OneActive(g, g.revs[rev].app)
    ensures app in Point(g, rev).apps && OneActive(Point(g, rev), app)
  {
    hide Point;
    PointRevs(g, rev);
    assert TargetsOfApp(Point(g, rev), app) == TargetsOfApp(g, app);
  }

  lemma SwitchKeeps(g: Graph, rev: RevId)
    requires Invariant(g) && (rev in g.revs ==> g.revs[rev].status != Draft)
    ensures Invariant(ActivateEdges(g, rev).0)
  {
    hide Numbered, AllOneActive, Point, ActivateDefinitions, BoundSound, DefinitionsActive, DefEdgesSound, TargetsOfApp;
    if ActivateEdges(g, rev).1.None? {
      PointKeeps(g, rev);
      PointShape(g, rev);
      DefinitionsSwitch(g, rev);
    }
  }

  lemma PointShape(g: Graph, rev: RevId)
    requires rev in g.revs && g.revs[rev].app in g.apps
    ensures
      var p, h := Point(g, rev), ActivateDefinitions(Point(g, rev), rev);
      && h.revs == p.revs && h.apps == p.apps && h.appEdges == p.appEdges
      && (Numbered(p) ==> Numbered(h)) && (AllOneActive(p) ==> AllOneActive(h))
  {
    var p, h := Point(g, rev), ActivateDefinitions(Point(g, rev), rev);
    assert Numbered(p) ==> Numbered(h) by {
      if Numbered(p) {
        NumberedKept(p, h);
      }
    }
    forall app | app in p.apps && OneActive(p, app)
      ensures OneActive(h, app)
    {
      assert TargetsOfApp(h, app) == TargetsOfApp(p, app);
    }
  }

  lemma DefinitionsSwitch(g: Graph, rev: RevId)
    requires Invariant(g) && rev in g.revs && g.revs[rev].app in g.apps
    ensures
      var h := ActivateDefinitions(Point(g, rev), rev);
      BoundSound(h) && DefinitionsActive(h) && DefEdgesSound(h)
  {
    hide Numbered, AllOneActive, Point, ActivateDefinitions, BoundSound, DefinitionsActive, DefEdgesSound, BoundBy;
    var p, h := Point(g, rev), ActivateDefinitions(Point(g, rev), rev);
    OwnApp(g, rev);
    PointLeavesDefinitions(g, rev);
    PointRevs(g, rev);
    SwitchedEdges(p, rev);
    SwitchedBound(p, rev);
    forall app, d | app in h.apps && h.apps[app].active.Some? && d in BoundBy(h, h.apps[app].active.value)
      ensures d in h.defs && h.defs[d].active == Some(BoundBy(h, h.apps[app].active.value)[d])
    {
      var active := h.apps[app].active.value;
      SwitchedDefinition(p, rev, d);
      BoundOwned(p, active, d);
      if app != rev.app {
        ActiveIsOwn(g, app);
        BoundOwned(p, rev, d);
        OthersActive(g, app, d);
      }
    }
    ActiveByCases(h);
  }

  lemma ActiveByCases(h: Graph)
    requires forall app, d :: app in h.apps && h.apps[app].active.Some? && d in BoundBy(h, h.apps[app].active.value) ==>
      d in h.defs && h.defs[d].active == Some(BoundBy(h, h.apps[app].active.value)[d])
    ensures DefinitionsActive(h)
  {
  }

  lemma PointLeavesDefinitions(g: Graph, rev: RevId)
    requires rev in g.revs && g.revs[rev].app in g.apps
    ensures
      var p := Point(g, rev);
      && p.bound == g.bound && p.defs == g.defs && p.defEdges == g.defEdges
      && (BoundSound(g) ==> BoundSound(p)) && (DefEdgesSound(g) ==> DefEdgesSound(p))
      && forall id :: BoundBy(p, id) == BoundBy(g, id)
  {
  }

  lemma SwitchedEdges(p: Graph, rev: RevId)
    requires DefEdgesSound(p) && BoundSound(p)
    ensures DefEdgesSound(ActivateDefinitions(p, rev))
  {
  }

  lemma SwitchedBound(p: Graph, rev: RevId)
    requires BoundSound(p)
    ensures BoundSound(ActivateDefinitions(p, rev))
    ensures forall id :: BoundBy(ActivateDefinitions(p, rev), id) == BoundBy(p, id)
    ensures ActivateDefinitions(p, rev).apps == p.apps
  {
  }

  lemma SwitchedDefinition(p: Graph, rev: RevId, d: Def)
    ensures
      var h := ActivateDefinitions(p, rev);
      && (d in h.defs <==> d in p.defs)
      && (d in p.defs ==> h.defs[d].active == if d in BoundBy(p, rev) then Some(BoundBy(p, rev)[d]) else p.defs[d].active)
  {
  }

  lemma BoundOwned(g: Graph, rev: RevId, d: Def)
    requires BoundSound(g)
    ensures d in BoundBy(g, rev) ==> d in g.defs && g.defs[d].owner == rev.app
  {
  }

  lemma ActiveIsOwn(g: Graph, app: AppId)
    requires Numbered(g) && AllOneActive(g) && app in g.apps && g.apps[app].active.Some?
    ensures g.apps[app].active.value.app == app
  {
    assert OneActive(g, app);
  }

  lemma OthersActive(g: Graph, app: AppId, d: Def)
    requires DefinitionsActive(g) && app in g.apps && g.apps[app].active.Some?
    ensures d in BoundBy(g, g.apps[app].active.value) ==>
      d in g.defs && g.defs[d].active == Some(BoundBy(g, g.apps[app].active.value)[d])
  {
  }

  // ---------------------------------------------------------------------------
  // Runs

  lemma StepKeeps(g: Graph, op: Op)
    requires Invariant(g) && Regular(g, op)
    ensures Invariant(Next(g, op))
  {
    hide Invariant, CreateRevision, Declare, DiscardRevision, ActivateEdges;
    match op
    case AddApplication(app) => AddKeeps(g, app);
    case Create(app, parent) => CreateKeeps(g, app, parent);
    case DeclareOn(rev, d, target) => DeclareKeeps(g, rev, d, target);
    case Discard(rev) => DiscardKeeps(g, rev);
    case FreezeIt(rev) =>
      if Freeze(g, rev).1.None? {
        StatusKeeps(g, rev, Validating);
      }
    case Switch(rev) => SwitchKeeps(g, rev);
    case RejectIt(rev) =>
      if rev in g.revs && g.revs[rev].status == Validating {
        StatusKeeps(g, rev, Rejected);
      }
    case ReopenIt(rev) =>
      if rev in g.revs && g.revs[rev].status == Rejected {
        StatusKeeps(g, rev, Validating);
      }
    case RollbackTo(app, rev) =>
      if rev in g.revs && g.revs[rev].status != Draft {
        SwitchKeeps(g, rev);
      }
    case SetStatus(app, status) => SetStatusKeeps(g, app, status);
  }

  /** The same graph but for the status of applications, and new applications without a revision. */
  predicate SameButApps(g: Graph, h: Graph) {
    && h == g.(apps := h.apps) && g.apps.Keys <= h.apps.Keys
    && (forall app :: app in g.apps ==> h.apps[app].active == g.apps[app].active)
    && (forall app :: app in h.apps && app !in g.apps ==> h.apps[app].active.None?)
  }

  lemma AppsKeep(g: Graph, h: Graph)
    requires Invariant(g) && SameButApps(g, h)
    ensures Invariant(h)
  {
    hide Numbered, AllOneActive, BoundSound, DefinitionsActive, DefEdgesSound;
    NumberedKept(g, h);
    AppsOneActive(g, h);
    AppsDefinitions(g, h);
  }

  lemma AppsOneActive(g: Graph, h: Graph)
    requires Numbered(g) && AllOneActive(g) && SameButApps(g, h)
    ensures AllOneActive(h)
  {
    hide Count;
    forall app | app in h.apps
      ensures OneActive(h, app)
    {
      assert TargetsOfApp(h, app) == TargetsOfApp(g, app);
      if app in g.apps {
        assert OneActive(g, app);
      } else {
        assert TargetsOfApp(h, app) == {};
      }
    }
  }

  lemma AppsDefinitions(g: Graph, h: Graph)
    requires BoundSound(g) && DefinitionsActive(g) && DefEdgesSound(g) && SameButApps(g, h)
    ensures BoundSound(h) && DefinitionsActive(h) && DefEdgesSound(h)
  {
  }

  lemma AddKeeps(g: Graph, app: AppId)
    requires Invariant(g)
    ensures Invariant(Next(g, AddApplication(app)))
  {
    hide Invariant;
    AppsKeep(g, Next(g, AddApplication(app)));
  }

  lemma SetStatusKeeps(g: Graph, app: AppId, status: AppStatus)
    requires Invariant(g)
    ensures Invariant(Next(g, SetStatus(app, status)))
  {
    hide Invariant;
    AppsKeep(g, Next(g, SetStatus(app, status)));
  }

  predicate AllRegular(g: Graph, ops: seq<Op>)
    decreases |ops|
  {
    ops == [] || (Regular(g, ops[0]) && AllRegular(Next(g, ops[0]), ops[1..]))
  }

  function Run(g: Graph, ops: seq<Op>): Graph
    decreases |ops|
  {
    if ops == [] then g else Run(Next(g, ops[0]), ops[1..])
  }

  lemma {:induction false} RunKeeps(g: Graph, ops: seq<Op>)
    requires Invariant(g) && AllRegular(g, ops)
    ensures Invariant(Run(g, ops))
    decreases |ops|
  {
    hide Invariant, Regular, Next;
    if ops != [] {
      StepKeeps(g, ops[0]);
      RunKeeps(Next(g, ops[0]), ops[1..]);
    }
  }

  function Empty(): Graph {
    Graph(map[], {}, map[], map[], map[], {}, map[], map[])
  }

  lemma StartsSound()
    ensures Invariant(Empty())
  {
  }

  // ---------------------------------------------------------------------------
  // Operations together

  lemma NewDraftIsTheDraft(g: Graph, h: Graph, id: RevId, r: Revision)
    requires Numbered(g) && r.app == id.app && id.number == Count(g, id.app) + 1 && r.status == Draft
    requires h.revs == g.revs[id := r]
    ensures TheDraft(h, id.app) == Some(id)
  {
    NumbersAreExact(g, id.app);
    assert Revisions(h, id.app) == Revisions(g, id.app) + {id};
  }

  /** Asking again gives the draft that was just made, and changes nothing. */
  lemma CreateTwice(g: Graph, app: AppId, given: Option<RevId>)
    requires Invariant(g) && TheDraft(g, app).None?
    ensures
      var (h, r) := CreateRevision(g, app, given, TheDraft(g, app));
      r.Ok? ==> TheDraft(h, app) == Some(r.value) && CreateRevision(h, app, given, TheDraft(h, app)) == (h, r)
  {
    hide Numbered, AllOneActive, BoundSound, DefinitionsActive, DefEdgesSound, TheDraft, Count, ResolveParent, BoundBy;
    var (h, r) := CreateRevision(g, app, given, TheDraft(g, app));
    if r.Ok? {
      var parent := ResolveParent(g, app, given).value;
      NewDraftIsTheDraft(g, h, r.value, Revision(app, parent, Draft));
      GivenIsParent(g, app, given);
    }
  }

  lemma GivenIsParent(g: Graph, app: AppId, given: Option<RevId>)
    requires app in g.apps
    ensures var p := ResolveParent(g, app, given); p.Ok? && given.Some? ==> p.value == given
  {
  }

  /** Discarding a new draft undoes its creation: its number is free again. */
  lemma CreateThenDiscard(g: Graph, app: AppId, given: Option<RevId>)
    requires Invariant(g) && TheDraft(g, app).None?
    ensures
      var (h, r) := CreateRevision(g, app, given, TheDraft(g, app));
      r.Ok? ==> DiscardRevision(h, r.value) == (g, None)
  {
    hide AllOneActive, DefinitionsActive, DefEdgesSound;
    var (h, r) := CreateRevision(g, app, given, TheDraft(g, app));
    if r.Ok? {
      NumbersAreExact(g, app);
      assert h.revs - {r.value} == g.revs;
      assert h.bound - {r.value} == g.bound;
    }
  }

  /** No other application's active revision binds a definition of `rev` to something else. */
  predicate AgreesWithOthers(g: Graph, rev: RevId)
    requires rev in g.revs
  {
    forall app, d ::
      (app in g.apps && app != g.revs[rev].app && g.apps[app].active.Some?
       && d in BoundBy(g, g.apps[app].active.value) && d in BoundBy(g, rev))
      ==> BoundBy(g, g.apps[app].active.value)[d] == BoundBy(g, rev)[d]
  }

  predicate BoundKnown(g: Graph) {
    forall rev, d :: rev in g.bound && d in g.bound[rev] ==> d in g.defs
  }

  /**
   A switch keeps the definitions of all active revisions active exactly when no other application's active revision
   binds one of its definitions elsewhere. Nothing in the source keeps applications from sharing a definition.
   */
  lemma SharedDefinitionsIff(g: Graph, rev: RevId)
    requires BoundKnown(g) && DefinitionsActive(g) && ActivateEdges(g, rev).1.None?
    ensures DefinitionsActive(ActivateEdges(g, rev).0) <==> AgreesWithOthers(g, rev)
  {
    hide ActivateEdges, BoundBy, DefinitionsActive, AgreesWithOthers, BoundKnown, ActiveAt, AgreesAt;
    SwitchedGraph(g, rev);
    var h := ActivateEdges(g, rev).0;
    forall app, d
      ensures ActiveAt(h, app, d) <==> AgreesAt(g, rev, app, d)
    {
      SharedAt(g, rev, app, d);
    }
    AllActiveAt(h);
    AllAgreeAt(g, rev);
  }

  predicate ActiveAt(g: Graph, app: AppId, d: Def) {
    Bound(g, app, d) ==> d in g.defs && g.defs[d].active == Some(BoundBy(g, g.apps[app].active.value)[d])
  }

  predicate AgreesAt(g: Graph, rev: RevId, app: AppId, d: Def)
    requires rev in g.revs
  {
    Bound(g, app, d) && app != g.revs[rev].app && d in BoundBy(g, rev) ==>
      BoundBy(g, g.apps[app].active.value)[d] == BoundBy(g, rev)[d]
  }

  lemma SharedAt(g: Graph, rev: RevId, app: AppId, d: Def)
    requires BoundKnown(g) && DefinitionsActive(g) && ActivateEdges(g, rev).1.None?
    ensures rev in g.revs && (ActiveAt(ActivateEdges(g, rev).0, app, d) <==> AgreesAt(g, rev, app, d))
  {
    hide ActivateEdges, BoundBy, DefinitionsActive, BoundKnown;
    SwitchedGraph(g, rev);
    var h := ActivateEdges(g, rev).0;
    if Bound(h, app, d) {
      KnownHere(g, h.apps[app].active.value, d);
      if app in g.apps && g.apps[app].active.Some? {
        OthersActive(g, app, d);
      }
    }
  }

  lemma AllActiveAt(g: Graph)
    ensures DefinitionsActive(g) <==> forall app, d :: ActiveAt(g, app, d)
  {
    if DefinitionsActive(g) {
      forall app, d
        ensures ActiveAt(g, app, d)
      {
      }
    } else {
      var app, d :| app in g.apps && g.apps[app].active.Some? && d in BoundBy(g, g.apps[app].active.value)
        && !(d in g.defs && g.defs[d].active == Some(BoundBy(g, g.apps[app].active.value)[d]));
      assert !ActiveAt(g, app, d);
    }
  }

  lemma AllAgreeAt(g: Graph, rev: RevId)
    requires rev in g.revs
    ensures AgreesWithOthers(g, rev) <==> forall app, d :: AgreesAt(g, rev, app, d)
  {
    if !AgreesWithOthers(g, rev) {
      var app, d :| app in g.apps && app != g.revs[rev].app && g.apps[app].active.Some?
        && d in BoundBy(g, g.apps[app].active.value) && d in BoundBy(g, rev)
        && BoundBy(g, g.apps[app].active.value)[d] != BoundBy(g, rev)[d];
      assert !AgreesAt(g, rev, app, d);
    }
  }

  predicate Bound(g: Graph, app: AppId, d: Def) {
    app in g.apps && g.apps[app].active.Some? && d in BoundBy(g, g.apps[app].active.value)
  }

  lemma KnownHere(g: Graph, rev: RevId, d: Def)
    requires BoundKnown(g) && d in BoundBy(g, rev)
    ensures d in g.defs
  {
  }

  /**
   Rolling back to the revision that was active undoes a switch, but for two things: the other revision is superseded,
   and a definition that only it binds stays where the switch put it.
   */
  lemma RollbackUndoesSwitch(g: Graph, rev: RevId)
    requires Invariant(g) && ActivateEdges(g, rev).1.None? && g.revs[rev].status != Draft
    requires g.apps[rev.app].active.Some? && g.apps[rev.app].active.value != rev && g.apps[rev.app].status != Disabled
    ensures
      var was := g.apps[rev.app].active.value;
      var (h, failure) := Rollback(ActivateEdges(g, rev).0, rev.app, was);
      && failure.None?
      && h.revs == g.revs[rev := g.revs[rev].(status := Superseded)]
      && h.apps == g.apps && h.appEdges == g.appEdges && h.bound == g.bound
      && h.defs.Keys == g.defs.Keys
      && forall d :: d in g.defs ==>
           h.defs[d] == if d in BoundBy(g, rev) && d !in BoundBy(g, was)
                        then g.defs[d].(active := Some(BoundBy(g, rev)[d])) else g.defs[d]
  {
    hide Numbered, AllOneActive, BoundSound, DefinitionsActive, DefEdgesSound, Point, ActivateDefinitions, TargetsOfApp,
      BoundBy, OneActive;
    OwnApp(g, rev);
    var app, was := rev.app, g.apps[rev.app].active.value;
    var g1 := ActivateEdges(g, rev).0;
    SwitchKeeps(g, rev);
    SwitchedGraph(g, rev);
    ActiveFacts(g, app);
    ActiveFacts(g1, app);
    OwnApp(g1, was);
    KnownBindings(g1, was);
    SwitchedGraph(g1, was);
    var h := ActivateEdges(g1, was).0;
    assert h.revs == g.revs[rev := g.revs[rev].(status := Superseded)];
    assert h.apps == g.apps;
    SameEdges(g, h, app, rev, was);
    forall d | d in g.defs
      ensures h.defs[d] == if d in BoundBy(g, rev) && d !in BoundBy(g, was)
                           then g.defs[d].(active := Some(BoundBy(g, rev)[d])) else g.defs[d]
    {
      OthersActive(g, app, d);
    }
  }

  /** Everything that a successful switch does. */
  lemma SwitchedGraph(g: Graph, rev: RevId)
    requires ActivateEdges(g, rev).1.None?
    ensures rev in g.revs && g.revs[rev].app in g.apps
    ensures
      var h, own := ActivateEdges(g, rev).0, g.revs[rev].app;
      var current := g.apps[own].active;
      && (current.Some? ==> current.value in g.revs)
      && h.revs == (if current.Some? && current.value != rev
                    then g.revs[current.value := g.revs[current.value].(status := Superseded)] else g.revs)
                     [rev := g.revs[rev].(status := Active)]
      && h.apps == g.apps[own := App(Some(rev), StatusAfter(g.apps[own].status))]
      && (forall e :: e in h.appEdges <==> if e.0 == own then e == (own, rev) else e in g.appEdges)
      && h.bound == g.bound && h.defs.Keys == g.defs.Keys && (forall id :: BoundBy(h, id) == BoundBy(g, id))
      && (forall d :: d in g.defs ==>
            h.defs[d] == if d in BoundBy(g, rev) then g.defs[d].(active := Some(BoundBy(g, rev)[d])) else g.defs[d])
  {
  }

  lemma ActiveFacts(g: Graph, app: AppId)
    requires Invariant(g) && app in g.apps && g.apps[app].active.Some?
    ensures
      var active := g.apps[app].active.value;
      && active in g.revs && g.revs[active].status == Active && active.app == app == g.revs[active].app
      && TargetsOfApp(g, app) == ActiveSet(g.apps[app].active)
  {
    assert OneActive(g, app);
  }

  lemma KnownBindings(g: Graph, rev: RevId)
    requires BoundSound(g)
    ensures BoundBy(g, rev).Keys <= g.defs.Keys
  {
  }

  lemma SameEdges(g: Graph, h: Graph, app: AppId, rev: RevId, was: RevId)
    requires TargetsOfApp(g, app) == {was}
    requires forall e :: e in h.appEdges <==> if e.0 == app then e == (app, was) else e in g.appEdges
    ensures h.appEdges == g.appEdges
  {
    forall e: (AppId, RevId) | e.0 == app
      ensures e in g.appEdges <==> e == (app, was)
    {
      assert e in g.appEdges ==> e.1 in TargetsOfApp(g, app);
      assert was in TargetsOfApp(g, app);
    }
  }
}
