/**
 Collection of interned nodes. An interned node stays while an edge from a keeper (a revision, or a source tree)
 reaches it, or while a record in flight pins it.
 */
module InternGc {
  import opened Prelude

  datatype Label =
    | ApplicationRevision | ExperienceRevision | SystemRevision
    | SourceTree | SourceContent | ActionRevision | ObjectTypeRevision | RelationTypeRevision
    | TriggerRevision | TestCase | RuntimeDependency | ExperienceSurface
    | Stable(name: string)

  const INTERNED_LABELS := [
    SourceTree, SourceContent, ActionRevision, ObjectTypeRevision, RelationTypeRevision,
    TriggerRevision, TestCase, RuntimeDependency, ExperienceSurface]

  predicate IsRevision(kind: Label) {
    kind == ApplicationRevision || kind == ExperienceRevision || kind == SystemRevision
  }

  predicate IsKeeper(kind: Label) {
    IsRevision(kind) || kind == SourceTree
  }

  datatype Node<Id> = Node(kind: Label, id: Id)

  datatype Edge<Id> = Edge(from: Node<Id>, edgeType: string, to: Node<Id>)

  datatype Graph<Id(==)> = Graph(nodes: set<Node<Id>>, edges: set<Edge<Id>>)

  predicate EdgesLive<Id(==)>(g: Graph<Id>) {
    forall e :: e in g.edges ==> e.from in g.nodes && e.to in g.nodes
  }

  predicate Interned<Id>(n: Node<Id>) {
    n.kind in INTERNED_LABELS
  }

  predicate Pinned<Id(==)>(n: Node<Id>, pinned: set<Id>) {
    n.kind == ActionRevision && n.id in pinned
  }

  predicate Kept<Id(==)>(g: Graph<Id>, n: Node<Id>) {
    exists e :: e in g.edges && e.to == n && IsKeeper(e.from.kind)
  }

  predicate IsOrphan<Id(==)>(g: Graph<Id>, pinned: set<Id>, n: Node<Id>) {
    n in g.nodes && Interned(n) && !Kept(g, n) && !Pinned(n, pinned)
  }

  function Orphans<Id(==)>(g: Graph<Id>, pinned: set<Id>): set<Node<Id>> {
    set n | n in g.nodes && IsOrphan(g, pinned, n)
  }

  /** What is left of a graph when only some nodes stay: deleting a node detaches its edges. */
  function Restrict<Id(==)>(g: Graph<Id>, stay: set<Node<Id>>): Graph<Id> {
    Graph(g.nodes * stay, set e | e in g.edges && e.from in stay && e.to in stay)
  }

  function Delete<Id(==)>(g: Graph<Id>, n: Node<Id>): Graph<Id> {
    Restrict(g, g.nodes - {n})
  }

  /** Every interned node of the set is pinned, or reached from a keeper in the set. */
  predicate Supported<Id(==)>(g: Graph<Id>, pinned: set<Id>, stay: set<Node<Id>>) {
    && stay <= g.nodes
    && (forall n :: n in g.nodes && !Interned(n) ==> n in stay)
    && (forall n :: n in stay && Interned(n) ==> Pinned(n, pinned) || Kept(Restrict(g, stay), n))
  }

  /** The nodes that collection leaves: the largest supported set. */
  ghost predicate Survivors<Id(!new)>(g: Graph<Id>, pinned: set<Id>, stay: set<Node<Id>>) {
    Supported(g, pinned, stay) && forall other :: Supported(g, pinned, other) ==> other <= stay
  }

  /** Why a node stays: it is of no interned kind, an action revision in flight, or held by a revision or a tree that stays. */
  ghost predicate HasReason<Id(!new)>(g: Graph<Id>, stay: set<Node<Id>>, n: Node<Id>, inFlight: bool) {
    || n.kind in {ApplicationRevision, ExperienceRevision, SystemRevision}
    || n.kind.Stable?
    || (n.kind == ActionRevision && inFlight)
    || exists e :: e in g.edges && e.to == n && e.from in stay
                   && e.from.kind in {ApplicationRevision, ExperienceRevision, SystemRevision, SourceTree}
  }

  // ---------------------------------------------------------------------------
  // The loops of the source

  class Collector<Id(==,!new)> {
    var nodes: set<Node<Id>>
    var edges: set<Edge<Id>>
    var callbackTargets: seq<Option<Id>>
    var invoked: seq<Option<Id>>
    var queued: seq<Option<Id>>

    constructor (nodes: set<Node<Id>>, edges: set<Edge<Id>>, callbackTargets: seq<Option<Id>>,
                 invoked: seq<Option<Id>>, queued: seq<Option<Id>>)
      ensures Snapshot() == Graph(nodes, edges)
      ensures this.callbackTargets == callbackTargets && this.invoked == invoked && this.queued == queued
    {
      this.nodes, this.edges := nodes, edges;
      this.callbackTargets, this.invoked, this.queued := callbackTargets, invoked, queued;
    }

    ghost function Snapshot(): Graph<Id>
      reads this
    {
      Graph(nodes, edges)
    }

    /** The action revisions that callback routes, invocations and jobs name. */
    ghost function InFlight(): set<Id>
      reads this
    {
      set o | o in callbackTargets + invoked + queued && o.Some? :: o.value
    }

    lemma NamedInFlight(id: Id)
      ensures id in InFlight() <==> Some(id) in callbackTargets || Some(id) in invoked || Some(id) in queued
    {
      assert Some(id).value == id;
    }

    lemma ReasonsOf(g: Graph<Id>)
      requires EdgesLive(g) && Survivors(g, InFlight(), nodes)
      ensures forall n :: n in g.nodes ==>
        (n in nodes <==>
           HasReason(g, nodes, n, Some(n.id) in callbackTargets || Some(n.id) in invoked || Some(n.id) in queued))
    {
      hide Survivors, EdgesLive, HasReason, InFlight;
      forall n | n in g.nodes
        ensures n in nodes <==>
          HasReason(g, nodes, n, Some(n.id) in callbackTargets || Some(n.id) in invoked || Some(n.id) in queued)
      {
        StaysIffReason(g, InFlight(), nodes, n);
        NamedInFlight(n.id);
      }
    }

    method PinnedActionRevisionIds() returns (pinned: set<Id>)
      ensures pinned == InFlight()
    {
      var named: set<Option<Id>> := {};
      for i := 0 to |callbackTargets|
        invariant forall o :: o in named <==> o in callbackTargets[..i]
      {
        named := named + {callbackTargets[i]};
      }
      for i := 0 to |invoked|
        invariant forall o :: o in named <==> o in callbackTargets || o in invoked[..i]
      {
        named := named + {invoked[i]};
      }
      for i := 0 to |queued|
        invariant forall o :: o in named <==> o in callbackTargets || o in invoked || o in queued[..i]
      {
        named := named + {queued[i]};
      }
      pinned := set o | o in named && o.Some? :: o.value;
    }

    /** One interned collection: its orphans, each once. */
    method OrphansOfKind(kind: Label, pinned: set<Id>) returns (found: seq<Node<Id>>)
      requires kind in INTERNED_LABELS && pinned == InFlight()
      ensures forall n :: n in found <==> n in nodes && n.kind == kind && IsOrphan(Snapshot(), InFlight(), n)
      ensures forall i, j :: 0 <= i < j < |found| ==> found[i] != found[j]
    {
      hide HasReason, InFlight;
      var rest := set n | n in nodes && n.kind == kind;
      ghost var all := rest;
      found := [];
      while rest != {}
        invariant rest <= all
        invariant forall n :: n in found <==> n in all - rest && IsOrphan(Snapshot(), pinned, n)
        invariant forall i, j :: 0 <= i < j < |found| ==> found[i] != found[j]
        decreases rest
      {
        var item :| item in rest;
        rest := rest - {item};
        var inbound := set e | e in edges && e.to == item;
        if exists e :: e in inbound && IsKeeper(e.from.kind) {
          assert Kept(Snapshot(), item);
        } else if kind == ActionRevision && item.id in pinned {
        } else {
          assert IsOrphan(Snapshot(), pinned, item);
          found := found + [item];
        }
      }
    }

    /** One pass over the interned collections. */
    method FindOrphans() returns (found: seq<Node<Id>>)
      ensures forall n :: n in found <==> n in Orphans(Snapshot(), InFlight())
      ensures forall i, j :: 0 <= i < j < |found| ==> found[i] != found[j]
    {
      hide HasReason, InFlight, Kept, Pinned;
      var pinned := PinnedActionRevisionIds();
      found := [];
      for k := 0 to |INTERNED_LABELS|
        invariant forall n :: n in found <==>
          n in nodes && n.kind in INTERNED_LABELS[..k] && IsOrphan(Snapshot(), InFlight(), n)
        invariant forall i, j :: 0 <= i < j < |found| ==> found[i] != found[j]
      {
        LabelsDiffer(k);
        var more := OrphansOfKind(INTERNED_LABELS[k], pinned);
        assert forall n :: n in more ==> n !in found;
        found := found + more;
      }
      assert INTERNED_LABELS[..|INTERNED_LABELS|] == INTERNED_LABELS;
    }

    /** Delete a record: its edges go with it. */
    method DeleteRecord(n: Node<Id>)
      modifies this`nodes, this`edges
      ensures Snapshot() == Restrict(old(Snapshot()), old(nodes) - {n})
    {
      nodes := nodes - {n};
      edges := set e | e in edges && e.from in nodes && e.to in nodes;
    }

    /** Delete batches of orphans until there is none. */
    method DeleteInternedOrphans() returns (deleted: seq<Node<Id>>, ghost rounds: nat)
      requires EdgesLive(Snapshot())
      modifies this`nodes, this`edges
      ensures Survivors(old(Snapshot()), InFlight(), nodes)
      ensures Snapshot() == Restrict(old(Snapshot()), nodes)
      ensures forall n :: n in old(nodes) ==>
        (n in nodes <==>
           HasReason(old(Snapshot()), nodes, n,
                     Some(n.id) in callbackTargets || Some(n.id) in invoked || Some(n.id) in queued))
      ensures forall n :: n in deleted <==> n in old(nodes) - nodes
      ensures TreesLeadToContents(old(Snapshot())) ==> rounds <= 2
    {
      hide HasReason;
      deleted, rounds := [], 0;
      ghost var start := Snapshot();
      ghost var pinned := InFlight();
      AllIsWithin(start);
      while true
        invariant InFlight() == pinned
        invariant EdgesLive(Snapshot()) && nodes <= start.nodes && Snapshot() == Restrict(start, nodes)
        invariant forall n :: n in start.nodes && !Interned(n) ==> n in nodes
        invariant forall other :: Supported(start, pinned, other) ==> other <= nodes
        invariant forall n :: n in deleted <==> n in start.nodes - nodes
        invariant TreesLeadToContents(start) ==> Settling(Snapshot(), pinned, rounds)
        decreases nodes
      {
        var batch := FindOrphans();
        if batch == [] {
          NoOrphansIsSupported(start, pinned, nodes);
          ReasonsOf(start);
          return;
        }
        ghost var before := Snapshot();
        ghost var doomed := Orphans(before, pinned);
        var i := 0;
        while i < |batch|
          invariant 0 <= i <= |batch|
          invariant InFlight() == pinned
          invariant nodes == before.nodes - (set n | n in batch[..i])
          invariant Snapshot() == Restrict(before, nodes)
          invariant forall n :: n in deleted <==> n in start.nodes - nodes
        {
          assert batch[..i + 1] == batch[..i] + [batch[i]];
          assert batch[i] in doomed;
          DeleteRecord(batch[i]);
          deleted := deleted + [batch[i]];
          i := i + 1;
        }
        assert batch[..i] == batch;
        assert (set n | n in batch) == doomed;
        assert nodes == before.nodes - doomed;
        assert batch[0] in doomed && batch[0] in before.nodes;
        RoundKeeps(start, pinned, before, nodes);
        if TreesLeadToContents(start) {
          RoundSettles(before, pinned, rounds);
        }
        rounds := rounds + 1;
      }
    }
  }

  // ---------------------------------------------------------------------------

  lemma LabelsDiffer(k: nat)
    requires k < |INTERNED_LABELS|
    ensures INTERNED_LABELS[k] !in INTERNED_LABELS[..k]
    ensures INTERNED_LABELS[..k + 1] == INTERNED_LABELS[..k] + [INTERNED_LABELS[k]]
  {
  }

  lemma AllIsWithin<Id(!new)>(g: Graph<Id>)
    requires EdgesLive(g)
    ensures Restrict(g, g.nodes) == g
  {
    assert g.nodes * g.nodes == g.nodes;
    assert (set e | e in g.edges && e.from in g.nodes && e.to in g.nodes) == g.edges;
  }

  /** An orphan is in no supported set, so a round of deletions keeps every supported set. */
  lemma RoundKeeps<Id(!new)>(start: Graph<Id>, pinned: set<Id>, before: Graph<Id>, stay: set<Node<Id>>)
    requires before == Restrict(start, before.nodes) && before.nodes <= start.nodes
    requires stay == before.nodes - Orphans(before, pinned)
    requires forall other :: Supported(start, pinned, other) ==> other <= before.nodes
    ensures forall other :: Supported(start, pinned, other) ==> other <= stay
    ensures Restrict(before, stay) == Restrict(start, stay) && EdgesLive(Restrict(start, stay))
  {
    forall other | Supported(start, pinned, other)
      ensures other <= stay
    {
      forall n | n in other
        ensures n !in Orphans(before, pinned)
      {
        if Interned(n) && !Pinned(n, pinned) {
          var e :| e in Restrict(start, other).edges && e.to == n && IsKeeper(e.from.kind);
          assert e in before.edges;
        }
      }
    }
  }

  lemma NoOrphansIsSupported<Id(!new)>(start: Graph<Id>, pinned: set<Id>, stay: set<Node<Id>>)
    requires stay <= start.nodes && forall n :: n in start.nodes && !Interned(n) ==> n in stay
    requires forall n :: n !in Orphans(Restrict(start, stay), pinned)
    ensures Supported(start, pinned, stay)
  {
    var g := Restrict(start, stay);
    forall n | n in stay && Interned(n)
      ensures Pinned(n, pinned) || Kept(g, n)
    {
      assert n in g.nodes && n !in Orphans(g, pinned);
    }
  }

  /** Source trees hold contents and nothing else. */
  predicate TreesLeadToContents<Id(==)>(g: Graph<Id>) {
    forall e :: e in g.edges && e.from.kind == SourceTree ==> e.to.kind == SourceContent
  }

  /** After one round only contents can be orphans, after two nothing can. */
  predicate Settling<Id(==)>(g: Graph<Id>, pinned: set<Id>, rounds: nat) {
    && TreesLeadToContents(g)
    && (rounds == 1 ==> forall n :: n in Orphans(g, pinned) ==> n.kind == SourceContent)
    && (rounds >= 2 ==> Orphans(g, pinned) == {})
    && rounds <= 2
  }

  lemma RoundSettles<Id(!new)>(g: Graph<Id>, pinned: set<Id>, rounds: nat)
    requires EdgesLive(g) && Settling(g, pinned, rounds) && Orphans(g, pinned) != {}
    ensures Settling(Restrict(g, g.nodes - Orphans(g, pinned)), pinned, rounds + 1)
  {
    var stay := g.nodes - Orphans(g, pinned);
    var next := Restrict(g, stay);
    forall n | n in Orphans(next, pinned)
      ensures n.kind == SourceContent && rounds == 0
    {
      assert Kept(g, n);
      var e :| e in g.edges && e.to == n && IsKeeper(e.from.kind);
      assert e !in next.edges;
      assert IsOrphan(g, pinned, e.from);
    }
  }

  // ---------------------------------------------------------------------------
  // What survives

  lemma SurvivorsUnique<Id(!new)>(g: Graph<Id>, pinned: set<Id>, stay: set<Node<Id>>, other: set<Node<Id>>)
    requires Survivors(g, pinned, stay) && Survivors(g, pinned, other)
    ensures stay == other
  {
  }

  /** Delete orphans one at a time, each being an orphan when its turn comes. */
  ghost predicate OrphanRun<Id(!new)>(g: Graph<Id>, pinned: set<Id>, order: seq<Node<Id>>)
    decreases |order|
  {
    order != [] ==> order[0] in Orphans(g, pinned) && OrphanRun(Delete(g, order[0]), pinned, order[1..])
  }

  ghost function AfterRun<Id(!new)>(g: Graph<Id>, order: seq<Node<Id>>): Graph<Id>
    decreases |order|
  {
    if order == [] then g else AfterRun(Delete(g, order[0]), order[1..])
  }

  lemma {:induction false} RunKeepsSupported<Id(!new)>(start: Graph<Id>, g: Graph<Id>, pinned: set<Id>, order: seq<Node<Id>>)
    requires OrphanRun(g, pinned, order)
    requires g.nodes <= start.nodes && g == Restrict(start, g.nodes)
    requires forall n :: n in start.nodes && !Interned(n) ==> n in g.nodes
    requires forall other :: Supported(start, pinned, other) ==> other <= g.nodes
    ensures var end := AfterRun(g, order);
      && end.nodes <= g.nodes && end == Restrict(start, end.nodes)
      && (forall n :: n in start.nodes && !Interned(n) ==> n in end.nodes)
      && forall other :: Supported(start, pinned, other) ==> other <= end.nodes
    decreases |order|
  {
    if order != [] {
      var n := order[0];
      var next := Delete(g, n);
      assert next.nodes == g.nodes - {n};
      assert next == Restrict(start, next.nodes);
      forall other | Supported(start, pinned, other)
        ensures n !in other
      {
        forall m | m in other
          ensures m !in Orphans(g, pinned)
        {
          if Interned(m) && !Pinned(m, pinned) {
            var e :| e in Restrict(start, other).edges && e.to == m && IsKeeper(e.from.kind);
            assert e in g.edges;
          }
        }
      }
      RunKeepsSupported(start, next, pinned, order[1..]);
    }
  }

  /** Deleting orphans in any order, until none is left, leaves the same graph. */
  lemma AnyOrderLeavesSurvivors<Id(!new)>(g: Graph<Id>, pinned: set<Id>, order: seq<Node<Id>>)
    requires EdgesLive(g) && OrphanRun(g, pinned, order) && Orphans(AfterRun(g, order), pinned) == {}
    ensures Survivors(g, pinned, AfterRun(g, order).nodes)
    ensures AfterRun(g, order) == Restrict(g, AfterRun(g, order).nodes)
  {
    AllIsWithin(g);
    RunKeepsSupported(g, g, pinned, order);
    NoOrphansIsSupported(g, pinned, AfterRun(g, order).nodes);
  }

  predicate Linked<Id(==)>(g: Graph<Id>, from: Node<Id>, to: Node<Id>) {
    IsKeeper(from.kind) && exists e :: e in g.edges && e.from == from && e.to == to
  }

  /** A walk along edges whose sources are keepers. */
  predicate KeeperWalk<Id(==)>(g: Graph<Id>, walk: seq<Node<Id>>) {
    && walk != []
    && if |walk| == 1 then walk[0] in g.nodes
       else Linked(g, walk[|walk| - 2], walk[|walk| - 1]) && KeeperWalk(g, walk[..|walk| - 1])
  }

  /** A revision reaches the node through keepers. */
  ghost predicate Reached<Id(!new)>(g: Graph<Id>, n: Node<Id>) {
    exists walk: seq<Node<Id>> :: KeeperWalk(g, walk) && IsRevision(walk[0].kind) && walk[|walk| - 1] == n
  }

  /** What a revision reaches is in every largest supported set, step by step along the walk. */
  lemma {:induction false} ReachedSurvives<Id(!new)>(g: Graph<Id>, pinned: set<Id>, stay: set<Node<Id>>, walk: seq<Node<Id>>)
    requires EdgesLive(g) && Survivors(g, pinned, stay) && KeeperWalk(g, walk) && IsRevision(walk[0].kind)
    ensures walk[|walk| - 1] in stay
    decreases |walk|
  {
    hide Survivors;
    var last := walk[|walk| - 1];
    if |walk| == 1 {
      RevisionStays(g, pinned, stay, last);
    } else {
      ReachedSurvives(g, pinned, stay, walk[..|walk| - 1]);
      var e :| e in g.edges && e.from == walk[|walk| - 2] && e.to == last;
      AddKeptNode(g, pinned, stay, e);
    }
  }

  lemma RevisionStays<Id(!new)>(g: Graph<Id>, pinned: set<Id>, stay: set<Node<Id>>, n: Node<Id>)
    requires Survivors(g, pinned, stay) && n in g.nodes && IsRevision(n.kind)
    ensures n in stay
  {
  }

  /** A node that a surviving keeper points at could be added to the set, so it survives. */
  lemma AddKeptNode<Id(!new)>(g: Graph<Id>, pinned: set<Id>, stay: set<Node<Id>>, e: Edge<Id>)
    requires Survivors(g, pinned, stay) && e in g.edges && e.from in stay && e.to in g.nodes && IsKeeper(e.from.kind)
    ensures e.to in stay
  {
    var more := stay + {e.to};
    forall n | n in more && Interned(n)
      ensures Pinned(n, pinned) || Kept(Restrict(g, more), n)
    {
      if n == e.to {
        assert e in Restrict(g, more).edges;
      } else if !Pinned(n, pinned) {
        var f :| f in Restrict(g, stay).edges && f.to == n && IsKeeper(f.from.kind);
        assert f in Restrict(g, more).edges;
      }
    }
    assert Supported(g, pinned, more);
  }

  /**
   When source trees lead to contents only, collection is exact: an interned node survives exactly when a revision
   reaches it through keepers, or it is a pinned action revision.
   */
  lemma SurvivesIffReached<Id(!new)>(g: Graph<Id>, pinned: set<Id>, stay: set<Node<Id>>, n: Node<Id>)
    requires EdgesLive(g) && TreesLeadToContents(g) && Survivors(g, pinned, stay)
    requires n in g.nodes && Interned(n)
    ensures n in stay <==> Reached(g, n) || Pinned(n, pinned)
  {
    if Reached(g, n) {
      var walk: seq<Node<Id>> :| KeeperWalk(g, walk) && IsRevision(walk[0].kind) && walk[|walk| - 1] == n;
      ReachedSurvives(g, pinned, stay, walk);
    }
    if Pinned(n, pinned) {
      PinnedSurvives(g, pinned, stay, n);
    }
    if n in stay && !Pinned(n, pinned) {
      KeptIsReached(g, pinned, stay, n);
    }
  }

  lemma KeptIsReached<Id(!new)>(g: Graph<Id>, pinned: set<Id>, stay: set<Node<Id>>, n: Node<Id>)
    requires EdgesLive(g) && TreesLeadToContents(g) && Supported(g, pinned, stay)
    requires n in stay && Interned(n) && !Pinned(n, pinned)
    ensures Reached(g, n)
  {
    var e :| e in Restrict(g, stay).edges && e.to == n && IsKeeper(e.from.kind);
    if IsRevision(e.from.kind) {
      OneStep(g, e);
    } else {
      var f :| f in Restrict(g, stay).edges && f.to == e.from && IsKeeper(f.from.kind);
      assert f.from.kind != SourceTree;
      TwoSteps(g, f, e);
    }
  }

  lemma OneStep<Id(!new)>(g: Graph<Id>, e: Edge<Id>)
    requires EdgesLive(g) && e in g.edges && IsRevision(e.from.kind)
    ensures KeeperWalk(g, [e.from, e.to]) && Reached(g, e.to)
  {
    var walk := [e.from, e.to];
    assert walk[..1] == [e.from];
    assert Linked(g, e.from, e.to);
    assert KeeperWalk(g, walk);
  }

  lemma TwoSteps<Id(!new)>(g: Graph<Id>, f: Edge<Id>, e: Edge<Id>)
    requires EdgesLive(g) && f in g.edges && e in g.edges && f.to == e.from
    requires IsRevision(f.from.kind) && IsKeeper(e.from.kind)
    ensures Reached(g, e.to)
  {
    OneStep(g, f);
    var walk := [f.from, f.to, e.to];
    assert walk[..2] == [f.from, f.to];
    assert Linked(g, f.to, e.to);
    assert KeeperWalk(g, walk);
  }

  /** A node survives exactly when it has a reason to. */
  lemma StaysIffReason<Id(!new)>(g: Graph<Id>, pinned: set<Id>, stay: set<Node<Id>>, n: Node<Id>)
    requires EdgesLive(g) && Survivors(g, pinned, stay) && n in g.nodes
    ensures n in stay <==> HasReason(g, stay, n, n.id in pinned)
  {
    assert Interned(n) <==>
      n.kind !in {ApplicationRevision, ExperienceRevision, SystemRevision} && !n.kind.Stable? by {
      LabelsListed(n.kind);
    }
    if Pinned(n, pinned) {
      PinnedSurvives(g, pinned, stay, n);
    } else if n in stay && Interned(n) {
      var e :| e in Restrict(g, stay).edges && e.to == n && IsKeeper(e.from.kind);
      assert e in g.edges;
    } else if e :| e in g.edges && e.to == n && e.from in stay && IsKeeper(e.from.kind) {
      AddKeptNode(g, pinned, stay, e);
    }
  }

  lemma LabelsListed(kind: Label)
    ensures kind in INTERNED_LABELS <==>
      kind !in {ApplicationRevision, ExperienceRevision, SystemRevision} && !kind.Stable?
  {
    if kind in INTERNED_LABELS {
      assert kind != ApplicationRevision && kind != ExperienceRevision && kind != SystemRevision;
    }
    var at := match kind
      case SourceTree => 0 case SourceContent => 1 case ActionRevision => 2 case ObjectTypeRevision => 3
      case RelationTypeRevision => 4 case TriggerRevision => 5 case TestCase => 6 case RuntimeDependency => 7
      case ExperienceSurface => 8 case _ => 0;
    assert INTERNED_LABELS[at] in INTERNED_LABELS;
  }

  lemma PinnedSurvives<Id(!new)>(g: Graph<Id>, pinned: set<Id>, stay: set<Node<Id>>, n: Node<Id>)
    requires Survivors(g, pinned, stay) && n in g.nodes && Pinned(n, pinned)
    ensures n in stay
  {
    var more := stay + {n};
    forall m | m in more && Interned(m)
      ensures Pinned(m, pinned) || Kept(Restrict(g, more), m)
    {
      if m != n && !Pinned(m, pinned) {
        var f :| f in Restrict(g, stay).edges && f.to == m && IsKeeper(f.from.kind);
        assert f in Restrict(g, more).edges;
      }
    }
    assert Supported(g, pinned, more);
  }

  /** Collection keeps every edge that leaves a keeper it keeps: no revision and no kept tree loses an entry. */
  lemma KeepersLoseNothing<Id(!new)>(g: Graph<Id>, pinned: set<Id>, stay: set<Node<Id>>, e: Edge<Id>)
    requires EdgesLive(g) && Survivors(g, pinned, stay)
    requires e in g.edges && e.from in stay && IsKeeper(e.from.kind)
    ensures e in Restrict(g, stay).edges
  {
    AddKeptNode(g, pinned, stay, e);
  }

  /** Without that restriction it is not: a tree with an edge to itself is kept although no revision reaches it. */
  lemma LoopSurvives(id: string)
    ensures var n := Node(SourceTree, id);
      var g := Graph({n}, {Edge(n, "HAS_FILE", n)});
      EdgesLive(g) && Survivors(g, {}, {n}) && !Reached(g, n)
  {
    var n := Node(SourceTree, id);
    var e := Edge(n, "HAS_FILE", n);
    var g := Graph({n}, {e});
    assert e in Restrict(g, {n}).edges;
    assert Kept(Restrict(g, {n}), n);
    assert Supported(g, {}, {n});
    forall walk: seq<Node<string>> | KeeperWalk(g, walk)
      ensures walk[0] == n
    {
      WalkStarts(g, walk);
    }
  }

  lemma {:induction false} WalkStarts<Id(!new)>(g: Graph<Id>, walk: seq<Node<Id>>)
    requires KeeperWalk(g, walk)
    ensures walk[0] in g.nodes
    decreases |walk|
  {
    if |walk| > 1 {
      WalkStarts(g, walk[..|walk| - 1]);
    }
  }
}
