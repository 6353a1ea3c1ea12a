/** Repair and validation of graph edges against a plan, and the reachability check. */
module Integrity {
  import opened Prelude

  datatype Node = Node(kind: string, id: string)

  datatype Edge = Edge(from: Node, edgeType: string, to: Node)

  datatype ActiveEdge = ActiveEdge(from: Node, edgeType: string, to: Option<Node>)

  datatype Plan = Plan(nodes: set<Node>, edges: seq<Edge>, active: seq<ActiveEdge>)

  const SINGLETON_EDGE_TYPES := {
    "HAS_SOURCE_TREE", "FROM_TYPE", "TO_TYPE", "INVOKES", "TARGETS", "TESTS", "RAN", "INSTANCE_OF", "CONFORMS_TO",
    "CAPTURES_REVISION", "HAS_SNAPSHOT", "HAS_BLOB"}

  const LEGACY_EDGE_TYPES := {"N4X_KERNEL", "N4X_RELATION"}

  predicate IsSingleton(edgeType: string) {
    edgeType in SINGLETON_EDGE_TYPES
  }

  predicate IsLegacy(edgeType: string) {
    edgeType in LEGACY_EDGE_TYPES
  }

  function Outgoing(edges: set<Edge>, from: Node, edgeType: string): set<Node> {
    set e | e in edges && e.from == from && e.edgeType == edgeType :: e.to
  }

  function Clear(edges: set<Edge>, from: Node, edgeType: string): set<Edge> {
    set e | e in edges && !(e.from == from && e.edgeType == edgeType)
  }

  // ---------------------------------------------------------------------------
  // Repair

  predicate EndsLive(nodes: set<Node>, e: Edge) {
    e.from in nodes && e.to in nodes
  }

  function RepairEdge(nodes: set<Node>, edges: set<Edge>, e: Edge): set<Edge> {
    if !EndsLive(nodes, e) then edges
    else (if IsSingleton(e.edgeType) then Clear(edges, e.from, e.edgeType) else edges) + {e}
  }

  function RepairActive(nodes: set<Node>, edges: set<Edge>, a: ActiveEdge): set<Edge> {
    Clear(edges, a.from, a.edgeType)
    + if a.to.Some? && EndsLive(nodes, Edge(a.from, a.edgeType, a.to.value))
      then {Edge(a.from, a.edgeType, a.to.value)} else {}
  }

  function RepairEdges(nodes: set<Node>, edges: set<Edge>, plan: seq<Edge>): set<Edge> {
    if plan == [] then edges
    else RepairEdge(nodes, RepairEdges(nodes, edges, plan[..|plan| - 1]), plan[|plan| - 1])
  }

  function RepairActives(nodes: set<Node>, edges: set<Edge>, plan: seq<ActiveEdge>): set<Edge> {
    if plan == [] then edges
    else RepairActive(nodes, RepairActives(nodes, edges, plan[..|plan| - 1]), plan[|plan| - 1])
  }

  function WithoutLegacy(edges: set<Edge>): set<Edge> {
    set e | e in edges && !IsLegacy(e.edgeType)
  }

  function Repair(edges: set<Edge>, plan: Plan): set<Edge> {
    RepairActives(plan.nodes, RepairEdges(plan.nodes, WithoutLegacy(edges), plan.edges), plan.active)
  }

  // ---------------------------------------------------------------------------
  // Validation

  datatype EdgeError =
    | MissingSource(node: Node)
    | MissingTarget(node: Node)
    | MissingEdge(edge: Edge)
    | NotSingle(from: Node, edgeType: string, count: nat)
    | WrongActiveCount(from: Node, edgeType: string, count: nat)
    | WrongActiveTarget(from: Node, edgeType: string, to: Node)

  function PlanErrors(nodes: set<Node>, edges: set<Edge>, e: Edge): set<EdgeError> {
    if e.from !in nodes then {MissingSource(e.from)}
    else if e.to !in nodes then {MissingTarget(e.to)}
    else
      var outgoing := Outgoing(edges, e.from, e.edgeType);
      (if e in edges then {} else {MissingEdge(e)})
      + (if IsSingleton(e.edgeType) && |outgoing| != 1 then {NotSingle(e.from, e.edgeType, |outgoing|)} else {})
  }

  function ActiveErrors(edges: set<Edge>, a: ActiveEdge): set<EdgeError> {
    var outgoing := Outgoing(edges, a.from, a.edgeType);
    if |outgoing| != (if a.to.None? then 0 else 1) then {WrongActiveCount(a.from, a.edgeType, |outgoing|)}
    else set to | to in outgoing && a.to.Some? && a.to.value != to :: WrongActiveTarget(a.from, a.edgeType, to)
  }

  predicate NoErrors(edges: set<Edge>, plan: Plan) {
    && (forall k :: 0 <= k < |plan.edges| ==> PlanErrors(plan.nodes, edges, plan.edges[k]) == {})
    && (forall k :: 0 <= k < |plan.active| ==> ActiveErrors(edges, plan.active[k]) == {})
  }

  /** The one edge of its type from its source. */
  predicate IsOnly(edges: set<Edge>, e: Edge) {
    e in edges && forall other :: other in edges && other.from == e.from && other.edgeType == e.edgeType ==> other == e
  }

  /** What the checks look for: nothing is found exactly when the edges are as the plan says. */
  lemma ChecksPassIff(edges: set<Edge>, plan: Plan)
    ensures NoErrors(edges, plan) <==>
      && (forall e :: e in plan.edges ==>
            && e.from in plan.nodes && e.to in plan.nodes && e in edges
            && (e.edgeType in SINGLETON_EDGE_TYPES ==> IsOnly(edges, e)))
      && (forall a :: a in plan.active ==>
            if a.to.Some? then IsOnly(edges, Edge(a.from, a.edgeType, a.to.value))
            else forall e :: e in edges && e.from == a.from ==> e.edgeType != a.edgeType)
  {
    hide PlanErrors, ActiveErrors, IsOnly;
    forall k | 0 <= k < |plan.edges|
      ensures var e := plan.edges[k];
        PlanErrors(plan.nodes, edges, e) == {} <==>
          && e.from in plan.nodes && e.to in plan.nodes && e in edges
          && (e.edgeType in SINGLETON_EDGE_TYPES ==> IsOnly(edges, e))
    {
      PlannedIsFine(plan.nodes, edges, plan.edges[k]);
    }
    forall k | 0 <= k < |plan.active|
      ensures var a := plan.active[k];
        ActiveErrors(edges, a) == {} <==>
          if a.to.Some? then IsOnly(edges, Edge(a.from, a.edgeType, a.to.value))
          else forall e :: e in edges && e.from == a.from ==> e.edgeType != a.edgeType
    {
      ActiveIsFine(edges, plan.active[k]);
    }
  }

  lemma OutgoingOf(edges: set<Edge>, from: Node, edgeType: string)
    ensures forall to :: to in Outgoing(edges, from, edgeType) <==> Edge(from, edgeType, to) in edges
  {
  }

  lemma OnlyIsOne(edges: set<Edge>, e: Edge)
    requires e in edges
    ensures IsOnly(edges, e) <==> |Outgoing(edges, e.from, e.edgeType)| == 1
  {
    hide Outgoing;
    var outgoing := Outgoing(edges, e.from, e.edgeType);
    OutgoingOf(edges, e.from, e.edgeType);
    if IsOnly(edges, e) {
      forall to | to in outgoing
        ensures to == e.to
      {
        assert Edge(e.from, e.edgeType, to) in edges;
      }
      assert outgoing == {e.to};
    } else if |outgoing| == 1 {
      forall other | other in edges && other.from == e.from && other.edgeType == e.edgeType
        ensures other == e
      {
        assert other == Edge(e.from, e.edgeType, other.to);
        AtMostOne(outgoing, e.to, other.to);
      }
    }
  }

  lemma OnlyIsThere(edges: set<Edge>, e: Edge)
    ensures IsOnly(edges, e) ==> e in edges
  {
  }

  lemma AtMostOne<T>(s: set<T>, a: T, b: T)
    requires |s| == 1 && a in s && b in s
    ensures a == b
  {
    assert |s - {a}| == 0;
  }

  lemma PlannedIsFine(nodes: set<Node>, edges: set<Edge>, e: Edge)
    ensures PlanErrors(nodes, edges, e) == {} <==>
      && e.from in nodes && e.to in nodes && e in edges
      && (e.edgeType in SINGLETON_EDGE_TYPES ==> IsOnly(edges, e))
  {
    hide Outgoing, IsOnly;
    if e in edges {
      OnlyIsOne(edges, e);
    }
    var outgoing := Outgoing(edges, e.from, e.edgeType);
    assert NotSingle(e.from, e.edgeType, |outgoing|) in {NotSingle(e.from, e.edgeType, |outgoing|)};
    assert MissingEdge(e) in {MissingEdge(e)} && MissingSource(e.from) in {MissingSource(e.from)};
  }

  lemma ActiveIsFine(edges: set<Edge>, a: ActiveEdge)
    ensures ActiveErrors(edges, a) == {} <==>
      if a.to.Some? then IsOnly(edges, Edge(a.from, a.edgeType, a.to.value))
      else forall e :: e in edges && e.from == a.from ==> e.edgeType != a.edgeType
  {
    hide Outgoing, IsOnly;
    var outgoing := Outgoing(edges, a.from, a.edgeType);
    OutgoingOf(edges, a.from, a.edgeType);
    assert WrongActiveCount(a.from, a.edgeType, |outgoing|) in {WrongActiveCount(a.from, a.edgeType, |outgoing|)};
    if a.to.Some? {
      var e := Edge(a.from, a.edgeType, a.to.value);
      if e in edges {
        OnlyIsOne(edges, e);
      } else {
        OnlyIsThere(edges, e);
      }
      if |outgoing| == 1 {
        ActiveOne(edges, a);
      }
    } else {
      assert forall e :: e in edges && e.from == a.from && e.edgeType == a.edgeType ==>
        e == Edge(a.from, a.edgeType, e.to) && e.to in outgoing;
      assert outgoing != {} ==> exists to :: to in outgoing;
    }
  }

  lemma ActiveOne(edges: set<Edge>, a: ActiveEdge)
    requires a.to.Some? && |Outgoing(edges, a.from, a.edgeType)| == 1
    ensures ActiveErrors(edges, a) == {} <==> Edge(a.from, a.edgeType, a.to.value) in edges
  {
    hide Outgoing;
    var outgoing := Outgoing(edges, a.from, a.edgeType);
    OutgoingOf(edges, a.from, a.edgeType);
    var to :| to in outgoing;
    if Edge(a.from, a.edgeType, a.to.value) in edges {
      forall other | other in outgoing
        ensures other == a.to.value
      {
        AtMostOne(outgoing, other, a.to.value);
      }
    } else {
      assert WrongActiveTarget(a.from, a.edgeType, to) in ActiveErrors(edges, a);
    }
  }

  /**
   The plan can be met: the ends of its edges live, a source has one target for a singleton type, active pointers do
   not contradict each other, and no edge asks for another target than the active pointer of its source and type.
   */
  predicate Consistent(plan: Plan) {
    && (forall k :: 0 <= k < |plan.edges| ==> EndsLive(plan.nodes, plan.edges[k]))
    && (forall j, k :: 0 <= j < |plan.edges| && 0 <= k < |plan.edges| ==> Compatible(plan.edges[j], plan.edges[k]))
    && (forall k :: 0 <= k < |plan.active| ==> TargetLive(plan.nodes, plan.active[k]))
    && (forall j, k :: 0 <= j < |plan.active| && 0 <= k < |plan.active| ==>
          SamePointer(plan.active[j], plan.active[k]))
    && (forall j, k :: 0 <= j < |plan.edges| && 0 <= k < |plan.active| ==> Follows(plan.edges[j], plan.active[k]))
  }

  predicate Compatible(a: Edge, b: Edge) {
    a.from == b.from && a.edgeType == b.edgeType && IsSingleton(a.edgeType) ==> a.to == b.to
  }

  predicate TargetLive(nodes: set<Node>, a: ActiveEdge) {
    a.to.Some? ==> EndsLive(nodes, Edge(a.from, a.edgeType, a.to.value))
  }

  predicate SamePointer(a: ActiveEdge, b: ActiveEdge) {
    a.from == b.from && a.edgeType == b.edgeType ==> a.to == b.to
  }

  predicate Follows(e: Edge, a: ActiveEdge) {
    e.from == a.from && e.edgeType == a.edgeType ==> a.to == Some(e.to)
  }

  // ---------------------------------------------------------------------------
  // What repair does to the targets of one source and type

  predicate Planned(nodes: set<Node>, plan: seq<Edge>, from: Node, edgeType: string, to: Node) {
    Edge(from, edgeType, to) in plan && EndsLive(nodes, Edge(from, edgeType, to))
  }

  predicate HasPlanned(nodes: set<Node>, plan: seq<Edge>, from: Node, edgeType: string) {
    exists k :: 0 <= k < |plan| && plan[k].from == from && plan[k].edgeType == edgeType && EndsLive(nodes, plan[k])
  }

  predicate HasActive(plan: seq<ActiveEdge>, from: Node, edgeType: string) {
    exists k :: 0 <= k < |plan| && plan[k].from == from && plan[k].edgeType == edgeType
  }

  lemma RepairEdgeTargets(nodes: set<Node>, edges: set<Edge>, e: Edge, from: Node, edgeType: string)
    ensures
      Outgoing(RepairEdge(nodes, edges, e), from, edgeType) ==
        if e.from == from && e.edgeType == edgeType && EndsLive(nodes, e) then
          (if IsSingleton(edgeType) then {} else Outgoing(edges, from, edgeType)) + {e.to}
        else Outgoing(edges, from, edgeType)
  {
    var after := RepairEdge(nodes, edges, e);
    assert EndsLive(nodes, e) ==> e in after;
    assert forall d: Edge :: d in after && d != e ==> d in edges;
  }

  lemma RepairActiveTargets(nodes: set<Node>, edges: set<Edge>, a: ActiveEdge, from: Node, edgeType: string)
    ensures
      Outgoing(RepairActive(nodes, edges, a), from, edgeType) ==
        if a.from == from && a.edgeType == edgeType then
          (if a.to.Some? && EndsLive(nodes, Edge(from, edgeType, a.to.value)) then {a.to.value} else {})
        else Outgoing(edges, from, edgeType)
  {
    var after := RepairActive(nodes, edges, a);
    if a.to.Some? && EndsLive(nodes, Edge(a.from, a.edgeType, a.to.value)) {
      assert Edge(a.from, a.edgeType, a.to.value) in after;
    }
  }

  /** The last target the plan gives, for a source and type that it gives one. */
  function LastPlanned(nodes: set<Node>, plan: seq<Edge>, from: Node, edgeType: string): (to: Node)
    requires HasPlanned(nodes, plan, from, edgeType)
    ensures Planned(nodes, plan, from, edgeType, to)
  {
    var last := plan[|plan| - 1];
    if last.from == from && last.edgeType == edgeType && EndsLive(nodes, last) then
      assert Edge(from, edgeType, last.to) == last;
      last.to
    else
      FewerPlanned(nodes, plan, from, edgeType);
      var to := LastPlanned(nodes, plan[..|plan| - 1], from, edgeType);
      assert Edge(from, edgeType, to) in plan[..|plan| - 1];
      to
  }

  lemma FewerPlanned(nodes: set<Node>, plan: seq<Edge>, from: Node, edgeType: string)
    requires HasPlanned(nodes, plan, from, edgeType)
    requires !(plan[|plan| - 1].from == from && plan[|plan| - 1].edgeType == edgeType && EndsLive(nodes, plan[|plan| - 1]))
    ensures HasPlanned(nodes, plan[..|plan| - 1], from, edgeType)
  {
    var k :| 0 <= k < |plan| && plan[k].from == from && plan[k].edgeType == edgeType && EndsLive(nodes, plan[k]);
    assert plan[..|plan| - 1][k] == plan[k];
  }

  lemma {:induction false} EdgesTargets(nodes: set<Node>, edges: set<Edge>, plan: seq<Edge>, from: Node, edgeType: string)
    ensures
      Outgoing(RepairEdges(nodes, edges, plan), from, edgeType) ==
        if IsSingleton(edgeType) && HasPlanned(nodes, plan, from, edgeType) then {LastPlanned(nodes, plan, from, edgeType)}
        else Outgoing(edges, from, edgeType) + PlannedTargets(nodes, plan, from, edgeType)
    decreases |plan|
  {
    hide RepairEdge, IsSingleton;
    if plan != [] {
      var before, last := plan[..|plan| - 1], plan[|plan| - 1];
      EdgesTargets(nodes, edges, before, from, edgeType);
      RepairEdgeTargets(nodes, RepairEdges(nodes, edges, before), last, from, edgeType);
      PlannedMore(nodes, before, last, from, edgeType);
      assert plan == before + [last];
    }
  }

  function PlannedTargets(nodes: set<Node>, plan: seq<Edge>, from: Node, edgeType: string): set<Node> {
    set k | 0 <= k < |plan| && plan[k].from == from && plan[k].edgeType == edgeType && EndsLive(nodes, plan[k]) :: plan[k].to
  }

  lemma PlannedMore(nodes: set<Node>, plan: seq<Edge>, last: Edge, from: Node, edgeType: string)
    ensures
      var here := last.from == from && last.edgeType == edgeType && EndsLive(nodes, last);
      && PlannedTargets(nodes, plan + [last], from, edgeType)
           == PlannedTargets(nodes, plan, from, edgeType) + (if here then {last.to} else {})
      && (HasPlanned(nodes, plan + [last], from, edgeType) <==> HasPlanned(nodes, plan, from, edgeType) || here)
  {
    var all := plan + [last];
    assert all[|plan|] == last;
    assert forall k :: 0 <= k < |plan| ==> all[k] == plan[k];
  }

  /** The target the last active pointer gives; none when it is unset or names no live node. */
  function LastPointer(nodes: set<Node>, plan: seq<ActiveEdge>, from: Node, edgeType: string): (targets: set<Node>)
    requires HasActive(plan, from, edgeType)
    ensures |targets| <= 1
    ensures SomePointer(nodes, plan, from, edgeType, targets)
  {
    var last := plan[|plan| - 1];
    if last.from == from && last.edgeType == edgeType then
      PointerTargets(nodes, last)
    else
      FewerActive(plan, from, edgeType);
      var targets := LastPointer(nodes, plan[..|plan| - 1], from, edgeType);
      MorePointers(nodes, plan, from, edgeType, targets);
      targets
  }

  predicate SomePointer(nodes: set<Node>, plan: seq<ActiveEdge>, from: Node, edgeType: string, targets: set<Node>) {
    exists k ::
      (0 <= k < |plan| && plan[k].from == from && plan[k].edgeType == edgeType
       && targets == PointerTargets(nodes, plan[k]))
  }

  lemma MorePointers(nodes: set<Node>, plan: seq<ActiveEdge>, from: Node, edgeType: string, targets: set<Node>)
    requires plan != [] && SomePointer(nodes, plan[..|plan| - 1], from, edgeType, targets)
    ensures SomePointer(nodes, plan, from, edgeType, targets)
  {
    var before := plan[..|plan| - 1];
    var k :| 0 <= k < |before| && before[k].from == from && before[k].edgeType == edgeType
      && targets == PointerTargets(nodes, before[k]);
    assert plan[k] == before[k];
  }

  function PointerTargets(nodes: set<Node>, a: ActiveEdge): set<Node> {
    if a.to.Some? && EndsLive(nodes, Edge(a.from, a.edgeType, a.to.value)) then {a.to.value} else {}
  }

  lemma FewerActive(plan: seq<ActiveEdge>, from: Node, edgeType: string)
    requires HasActive(plan, from, edgeType)
    requires !(plan[|plan| - 1].from == from && plan[|plan| - 1].edgeType == edgeType)
    ensures HasActive(plan[..|plan| - 1], from, edgeType)
  {
    var k :| 0 <= k < |plan| && plan[k].from == from && plan[k].edgeType == edgeType;
    assert plan[..|plan| - 1][k] == plan[k];
  }

  lemma HasActiveMore(plan: seq<ActiveEdge>, last: ActiveEdge, from: Node, edgeType: string)
    ensures HasActive(plan + [last], from, edgeType)
      <==> HasActive(plan, from, edgeType) || (last.from == from && last.edgeType == edgeType)
  {
    var all := plan + [last];
    assert all[|plan|] == last;
    assert forall k :: 0 <= k < |plan| ==> all[k] == plan[k];
  }

  lemma {:induction false} ActivesTargets(nodes: set<Node>, edges: set<Edge>, plan: seq<ActiveEdge>, from: Node,
                                          edgeType: string)
    ensures
      Outgoing(RepairActives(nodes, edges, plan), from, edgeType) ==
        if HasActive(plan, from, edgeType) then LastPointer(nodes, plan, from, edgeType)
        else Outgoing(edges, from, edgeType)
    decreases |plan|
  {
    hide RepairActive;
    if plan != [] {
      var before, last := plan[..|plan| - 1], plan[|plan| - 1];
      assert plan == before + [last];
      ActivesTargets(nodes, edges, before, from, edgeType);
      HasActiveMore(before, last, from, edgeType);
      RepairActiveTargets(nodes, RepairActives(nodes, edges, before), last, from, edgeType);
    }
  }

  lemma LegacyTargets(edges: set<Edge>, from: Node, edgeType: string)
    ensures Outgoing(WithoutLegacy(edges), from, edgeType) == if IsLegacy(edgeType) then {} else Outgoing(edges, from, edgeType)
  {
  }

  /** The targets that repair leaves for one source and type. */
  function RepairedTargets(before: set<Node>, plan: Plan, from: Node, edgeType: string): set<Node> {
    if HasActive(plan.active, from, edgeType) then LastPointer(plan.nodes, plan.active, from, edgeType)
    else if IsSingleton(edgeType) && HasPlanned(plan.nodes, plan.edges, from, edgeType) then
      {LastPlanned(plan.nodes, plan.edges, from, edgeType)}
    else (if IsLegacy(edgeType) then {} else before) + PlannedTargets(plan.nodes, plan.edges, from, edgeType)
  }

  lemma RepairTargets(edges: set<Edge>, plan: Plan, from: Node, edgeType: string)
    ensures Outgoing(Repair(edges, plan), from, edgeType)
      == RepairedTargets(Outgoing(edges, from, edgeType), plan, from, edgeType)
  {
    hide Outgoing, RepairEdges, RepairActives, LastPointer, LastPlanned, PlannedTargets, HasActive, HasPlanned;
    LegacyTargets(edges, from, edgeType);
    EdgesTargets(plan.nodes, WithoutLegacy(edges), plan.edges, from, edgeType);
    ActivesTargets(plan.nodes, RepairEdges(plan.nodes, WithoutLegacy(edges), plan.edges), plan.active, from, edgeType);
  }

  lemma InByTargets(edges: set<Edge>, e: Edge)
    ensures e in edges <==> e.to in Outgoing(edges, e.from, e.edgeType)
  {
  }

  // ---------------------------------------------------------------------------
  // The laws of repair

  /** A second repair with the same plan changes nothing, whatever the plan. */
  lemma RepairTwice(edges: set<Edge>, plan: Plan)
    ensures Repair(Repair(edges, plan), plan) == Repair(edges, plan)
  {
    hide Repair, Outgoing, LastPointer, LastPlanned, PlannedTargets, HasActive, HasPlanned;
    var once := Repair(edges, plan);
    var twice := Repair(once, plan);
    forall e
      ensures e in twice <==> e in once
    {
      RepairTargets(edges, plan, e.from, e.edgeType);
      RepairTargets(once, plan, e.from, e.edgeType);
      InByTargets(once, e);
      InByTargets(twice, e);
    }
  }

  /** Repair leaves the edges of a source and type that the plan does not mention, but for legacy types. */
  lemma RepairLeavesOthers(edges: set<Edge>, plan: Plan, e: Edge)
    requires !IsLegacy(e.edgeType) && !HasActive(plan.active, e.from, e.edgeType)
    requires !HasPlanned(plan.nodes, plan.edges, e.from, e.edgeType)
    ensures e in Repair(edges, plan) <==> e in edges
  {
    hide Repair, Outgoing, HasActive;
    RepairTargets(edges, plan, e.from, e.edgeType);
    InByTargets(edges, e);
    InByTargets(Repair(edges, plan), e);
  }

  lemma OneElement<T>(s: set<T>, a: T, b: T)
    requires |s| <= 1 && a in s && b in s
    ensures a == b
  {
    assert |s - {a}| == |s| - 1;
    assert s - {a} == {};
  }

  lemma PlannedHere(plan: Plan, k: nat)
    requires k < |plan.edges| && EndsLive(plan.nodes, plan.edges[k])
    ensures HasPlanned(plan.nodes, plan.edges, plan.edges[k].from, plan.edges[k].edgeType)
    ensures plan.edges[k].to in PlannedTargets(plan.nodes, plan.edges, plan.edges[k].from, plan.edges[k].edgeType)
  {
  }

  lemma ActiveHere(plan: Plan, k: nat)
    requires k < |plan.active|
    ensures HasActive(plan.active, plan.active[k].from, plan.active[k].edgeType)
  {
  }

  lemma LastPointerIs(plan: Plan, k: nat)
    requires Consistent(plan) && k < |plan.active|
    ensures HasActive(plan.active, plan.active[k].from, plan.active[k].edgeType)
    ensures LastPointer(plan.nodes, plan.active, plan.active[k].from, plan.active[k].edgeType) ==
      if plan.active[k].to.Some? then {plan.active[k].to.value} else {}
  {
    hide LastPointer;
    ActiveHere(plan, k);
    var a := plan.active[k];
    var targets := LastPointer(plan.nodes, plan.active, a.from, a.edgeType);
    var j :| 0 <= j < |plan.active| && plan.active[j].from == a.from && plan.active[j].edgeType == a.edgeType
      && targets == PointerTargets(plan.nodes, plan.active[j]);
    assert SamePointer(plan.active[j], a) && TargetLive(plan.nodes, plan.active[j]);
  }

  lemma PlanEdgeMet(edges: set<Edge>, plan: Plan, k: nat)
    requires Consistent(plan) && k < |plan.edges|
    ensures PlanErrors(plan.nodes, Repair(edges, plan), plan.edges[k]) == {}
  {
    hide Repair, Outgoing, LastPointer, LastPlanned, PlannedTargets, HasPlanned;
    var e, after := plan.edges[k], Repair(edges, plan);
    assert EndsLive(plan.nodes, e);
    PlannedHere(plan, k);
    RepairTargets(edges, plan, e.from, e.edgeType);
    InByTargets(after, e);
    if HasActive(plan.active, e.from, e.edgeType) {
      var j :| 0 <= j < |plan.active| && plan.active[j].from == e.from && plan.active[j].edgeType == e.edgeType;
      assert Follows(e, plan.active[j]);
      LastPointerIs(plan, j);
    } else if IsSingleton(e.edgeType) {
      var to := LastPlanned(plan.nodes, plan.edges, e.from, e.edgeType);
      var j :| 0 <= j < |plan.edges| && plan.edges[j] == Edge(e.from, e.edgeType, to);
      assert Compatible(plan.edges[j], e);
    }
  }

  lemma PointerMet(edges: set<Edge>, plan: Plan, k: nat)
    requires Consistent(plan) && k < |plan.active|
    ensures ActiveErrors(Repair(edges, plan), plan.active[k]) == {}
  {
    hide Repair, Outgoing, LastPointer, Consistent;
    var a := plan.active[k];
    RepairTargets(edges, plan, a.from, a.edgeType);
    LastPointerIs(plan, k);
  }

  lemma PlanErrorFound(nodes: set<Node>, edges: set<Edge>, e: Edge)
    ensures !(EndsLive(nodes, e) && e in edges) ==> PlanErrors(nodes, edges, e) != {}
  {
    if e.from !in nodes {
      assert MissingSource(e.from) in PlanErrors(nodes, edges, e);
    } else if e.to !in nodes {
      assert MissingTarget(e.to) in PlanErrors(nodes, edges, e);
    } else if e !in edges {
      assert MissingEdge(e) in PlanErrors(nodes, edges, e);
    }
  }

  lemma PointerErrorFound(edges: set<Edge>, a: ActiveEdge)
    ensures Outgoing(edges, a.from, a.edgeType) != (if a.to.Some? then {a.to.value} else {}) ==> ActiveErrors(edges, a) != {}
  {
    var outgoing := Outgoing(edges, a.from, a.edgeType);
    if |outgoing| != (if a.to.None? then 0 else 1) {
      assert WrongActiveCount(a.from, a.edgeType, |outgoing|) in ActiveErrors(edges, a);
    } else if a.to.Some? {
      var to :| to in outgoing;
      OnlyOne(outgoing, to);
      if to != a.to.value {
        assert WrongActiveTarget(a.from, a.edgeType, to) in ActiveErrors(edges, a);
      }
    }
  }

  lemma OnlyOne<T>(s: set<T>, a: T)
    requires |s| == 1 && a in s
    ensures s == {a}
  {
    forall b | b in s
      ensures b == a
    {
      OneElement(s, a, b);
    }
  }

  lemma AtMostOneLeft(edges: set<Edge>, plan: Plan, from: Node, edgeType: string)
    requires HasActive(plan.active, from, edgeType)
          || (IsSingleton(edgeType) && HasPlanned(plan.nodes, plan.edges, from, edgeType))
    ensures |Outgoing(Repair(edges, plan), from, edgeType)| <= 1
  {
    hide Repair, Outgoing, LastPointer, LastPlanned;
    RepairTargets(edges, plan, from, edgeType);
  }

  lemma PointerLive(edges: set<Edge>, plan: Plan, k: nat, to: Node)
    requires k < |plan.active|
    requires to in Outgoing(Repair(edges, plan), plan.active[k].from, plan.active[k].edgeType)
    ensures EndsLive(plan.nodes, Edge(plan.active[k].from, plan.active[k].edgeType, to))
  {
    hide Repair, Outgoing, LastPointer;
    var a := plan.active[k];
    ActiveHere(plan, k);
    RepairTargets(edges, plan, a.from, a.edgeType);
    var targets := LastPointer(plan.nodes, plan.active, a.from, a.edgeType);
    var j :| 0 <= j < |plan.active| && plan.active[j].from == a.from && plan.active[j].edgeType == a.edgeType
      && targets == PointerTargets(plan.nodes, plan.active[j]);
  }

  lemma MetIsConsistent(edges: set<Edge>, plan: Plan)
    requires NoErrors(Repair(edges, plan), plan)
    ensures Consistent(plan)
  {
    hide Repair, Outgoing, PlanErrors, ActiveErrors, HasActive, HasPlanned;
    var after := Repair(edges, plan);
    forall k | 0 <= k < |plan.edges|
      ensures EndsLive(plan.nodes, plan.edges[k]) && plan.edges[k] in after
    {
      PlanErrorFound(plan.nodes, after, plan.edges[k]);
    }
    forall j, k | 0 <= j < |plan.edges| && 0 <= k < |plan.edges|
      ensures Compatible(plan.edges[j], plan.edges[k])
    {
      var a, b := plan.edges[j], plan.edges[k];
      if a.from == b.from && a.edgeType == b.edgeType && IsSingleton(a.edgeType) {
        PlannedHere(plan, j);
        AtMostOneLeft(edges, plan, a.from, a.edgeType);
        InByTargets(after, a);
        InByTargets(after, b);
        OneElement(Outgoing(after, a.from, a.edgeType), a.to, b.to);
      }
    }
    forall k | 0 <= k < |plan.active|
      ensures Outgoing(after, plan.active[k].from, plan.active[k].edgeType)
        == if plan.active[k].to.Some? then {plan.active[k].to.value} else {}
      ensures TargetLive(plan.nodes, plan.active[k])
    {
      PointerErrorFound(after, plan.active[k]);
      if plan.active[k].to.Some? {
        PointerLive(edges, plan, k, plan.active[k].to.value);
      }
    }
    forall j, k | 0 <= j < |plan.edges| && 0 <= k < |plan.active|
      ensures Follows(plan.edges[j], plan.active[k])
    {
      InByTargets(after, plan.edges[j]);
    }
    forall j, k | 0 <= j < |plan.active| && 0 <= k < |plan.active|
      ensures SamePointer(plan.active[j], plan.active[k])
    {
      var a, b := plan.active[j], plan.active[k];
      assert a.from == b.from && a.edgeType == b.edgeType && a.to.Some? && b.to.Some? ==>
        a.to.value in {b.to.value};
    }
  }

  /** After repair the edge checks find no error exactly when the plan is consistent, whatever edges there were. */
  lemma RepairMeetsPlanIff(edges: set<Edge>, plan: Plan)
    ensures NoErrors(Repair(edges, plan), plan) <==> Consistent(plan)
  {
    hide Repair, PlanErrors, ActiveErrors, Consistent;
    if Consistent(plan) {
      forall k | 0 <= k < |plan.edges|
        ensures PlanErrors(plan.nodes, Repair(edges, plan), plan.edges[k]) == {}
      {
        PlanEdgeMet(edges, plan, k);
      }
      forall k | 0 <= k < |plan.active|
        ensures ActiveErrors(Repair(edges, plan), plan.active[k]) == {}
      {
        PointerMet(edges, plan, k);
      }
    } else if NoErrors(Repair(edges, plan), plan) {
      MetIsConsistent(edges, plan);
    }
  }

  // ---------------------------------------------------------------------------
  // The part of the plan that is read from the store

  const READER_KINDS := {"SystemRevision", "ApplicationRevision", "ExperienceRevision"}

  const READ_EDGE_TYPES := {
    "HAS_SOURCE_TREE", "HAS_ACTION_REVISION", "HAS_OBJECT_TYPE_REVISION", "HAS_RELATION_TYPE_REVISION",
    "HAS_TRIGGER_REVISION", "HAS_TEST", "DECLARES_DEPENDENCY", "DECLARES_SURFACE"}

  predicate IsReadType(edgeType: string) {
    edgeType in READ_EDGE_TYPES
  }

  predicate IsReader(nodes: set<Node>, n: Node) {
    n in nodes && n.kind in READER_KINDS
  }

  predicate IsRead(nodes: set<Node>, e: Edge) {
    IsReader(nodes, e.from) && IsReadType(e.edgeType)
  }

  /** The edges that the store itself is asked for, in any order. */
  ghost predicate Lists(listed: seq<Edge>, nodes: set<Node>, edges: set<Edge>) {
    forall e :: e in listed <==> e in edges && IsRead(nodes, e)
  }

  /** What the records ask for is of other types. */
  predicate RecordsUnread(recorded: Plan) {
    && (forall e :: e in recorded.edges ==> !IsReadType(e.edgeType))
    && (forall a :: a in recorded.active ==> !IsReadType(a.edgeType))
  }

  function Rebuilt(recorded: Plan, listed: seq<Edge>): Plan {
    recorded.(edges := recorded.edges + listed)
  }

  lemma ReadIsNotLegacy(edgeType: string)
    requires IsReadType(edgeType)
    ensures !IsLegacy(edgeType)
  {
  }

  lemma {:induction false} RepairEdgesConcat(nodes: set<Node>, edges: set<Edge>, a: seq<Edge>, b: seq<Edge>)
    ensures RepairEdges(nodes, edges, a + b) == RepairEdges(nodes, RepairEdges(nodes, edges, a), b)
    decreases |b|
  {
    hide RepairEdge;
    if b == [] {
      assert a + b == a;
    } else {
      RepairEdgesConcat(nodes, edges, a, b[..|b| - 1]);
      assert (a + b)[..|a + b| - 1] == a + b[..|b| - 1];
    }
  }

  lemma NothingPlanned(nodes: set<Node>, edges: set<Edge>, plan: seq<Edge>, from: Node, edgeType: string)
    requires forall e :: e in plan ==> !(e.from == from && e.edgeType == edgeType)
    ensures Outgoing(RepairEdges(nodes, edges, plan), from, edgeType) == Outgoing(edges, from, edgeType)
  {
    hide Outgoing, RepairEdges;
    EdgesTargets(nodes, edges, plan, from, edgeType);
    assert PlannedTargets(nodes, plan, from, edgeType) == {};
  }

  /** What the records do not mention goes by the edges read, and what is not read goes by the records. */
  lemma RebuiltOtherTargets(edges: set<Edge>, recorded: Plan, listed: seq<Edge>, from: Node, edgeType: string)
    requires RecordsUnread(recorded) && Lists(listed, recorded.nodes, edges)
    requires !(IsReader(recorded.nodes, from) && IsReadType(edgeType))
    ensures Outgoing(Repair(edges, Rebuilt(recorded, listed)), from, edgeType)
      == Outgoing(Repair(edges, recorded), from, edgeType)
  {
    hide Outgoing, RepairEdges, RepairActives, LastPointer, IsReadType, HasActive;
    var nodes, clean := recorded.nodes, WithoutLegacy(edges);
    var planned := RepairEdges(nodes, clean, recorded.edges);
    RepairEdgesConcat(nodes, clean, recorded.edges, listed);
    NothingPlanned(nodes, planned, listed, from, edgeType);
    ActivesTargets(nodes, planned, recorded.active, from, edgeType);
    ActivesTargets(nodes, RepairEdges(nodes, planned, listed), recorded.active, from, edgeType);
  }

  /** A singleton type with live targets keeps one of them; otherwise all targets that were read stay. */
  predicate ReadTargetsLeft(nodes: set<Node>, before: set<Node>, after: set<Node>, edgeType: string) {
    if IsSingleton(edgeType) && before * nodes != {} then |after| == 1 && after <= before * nodes else after == before
  }

  lemma PlannedIffLive(edges: set<Edge>, nodes: set<Node>, listed: seq<Edge>, from: Node, edgeType: string)
    requires Lists(listed, nodes, edges) && IsReader(nodes, from) && IsReadType(edgeType)
    ensures PlannedTargets(nodes, listed, from, edgeType) == Outgoing(edges, from, edgeType) * nodes
    ensures HasPlanned(nodes, listed, from, edgeType) <==> Outgoing(edges, from, edgeType) * nodes != {}
  {
    hide IsReadType;
    var live := Outgoing(edges, from, edgeType) * nodes;
    forall to
      ensures to in live <==> to in PlannedTargets(nodes, listed, from, edgeType)
    {
      InByTargets(edges, Edge(from, edgeType, to));
      if to in live {
        assert Edge(from, edgeType, to) in listed;
      }
    }
    if HasPlanned(nodes, listed, from, edgeType) {
      var k :| 0 <= k < |listed| && listed[k].from == from && listed[k].edgeType == edgeType && EndsLive(nodes, listed[k]);
      assert listed[k].to in PlannedTargets(nodes, listed, from, edgeType);
    }
  }

  lemma RebuiltReadTargets(edges: set<Edge>, recorded: Plan, listed: seq<Edge>, from: Node, edgeType: string)
    requires RecordsUnread(recorded) && Lists(listed, recorded.nodes, edges)
    requires IsReader(recorded.nodes, from) && IsReadType(edgeType)
    ensures ReadTargetsLeft(recorded.nodes, Outgoing(edges, from, edgeType),
                            Outgoing(Repair(edges, Rebuilt(recorded, listed)), from, edgeType), edgeType)
  {
    hide Outgoing, RepairEdges, RepairActives, LastPointer, LastPlanned, IsReadType, HasPlanned, IsLegacy, IsSingleton;
    var nodes, clean := recorded.nodes, WithoutLegacy(edges);
    var planned := RepairEdges(nodes, clean, recorded.edges);
    ReadIsNotLegacy(edgeType);
    LegacyTargets(edges, from, edgeType);
    NothingPlanned(nodes, clean, recorded.edges, from, edgeType);
    RepairEdgesConcat(nodes, clean, recorded.edges, listed);
    EdgesTargets(nodes, planned, listed, from, edgeType);
    PlannedIffLive(edges, nodes, listed, from, edgeType);
    ActivesTargets(nodes, RepairEdges(nodes, planned, listed), recorded.active, from, edgeType);
    assert !HasActive(recorded.active, from, edgeType);
    if HasPlanned(nodes, listed, from, edgeType) {
      var to := LastPlanned(nodes, listed, from, edgeType);
      InByTargets(edges, Edge(from, edgeType, to));
      assert |{to}| == 1;
    }
  }

  /** A repair with the plan built from the records and the store, and then another one built anew: nothing changes. */
  lemma RebuiltRepairTwice(edges: set<Edge>, recorded: Plan, listed: seq<Edge>, again: seq<Edge>)
    requires RecordsUnread(recorded) && Lists(listed, recorded.nodes, edges)
    requires Lists(again, recorded.nodes, Repair(edges, Rebuilt(recorded, listed)))
    ensures
      var once := Repair(edges, Rebuilt(recorded, listed));
      Repair(once, Rebuilt(recorded, again)) == once
  {
    hide Repair, Outgoing, LastPointer, LastPlanned, PlannedTargets, HasActive, HasPlanned, IsReadType, Lists, Rebuilt;
    var nodes, once := recorded.nodes, Repair(edges, Rebuilt(recorded, listed));
    var twice := Repair(once, Rebuilt(recorded, again));
    forall e
      ensures e in twice <==> e in once
    {
      if IsRead(nodes, e) {
        RebuiltReadTargets(edges, recorded, listed, e.from, e.edgeType);
        RebuiltReadTargets(once, recorded, again, e.from, e.edgeType);
        LeftTwice(nodes, Outgoing(edges, e.from, e.edgeType), Outgoing(once, e.from, e.edgeType),
                  Outgoing(twice, e.from, e.edgeType), e.edgeType);
      } else {
        RebuiltOtherTargets(edges, recorded, listed, e.from, e.edgeType);
        RebuiltOtherTargets(once, recorded, again, e.from, e.edgeType);
        RepairTargets(edges, recorded, e.from, e.edgeType);
        RepairTargets(once, recorded, e.from, e.edgeType);
      }
      InByTargets(once, e);
      InByTargets(twice, e);
    }
  }

  lemma LeftTwice(nodes: set<Node>, before: set<Node>, once: set<Node>, twice: set<Node>, edgeType: string)
    requires ReadTargetsLeft(nodes, before, once, edgeType) && ReadTargetsLeft(nodes, once, twice, edgeType)
    ensures once == twice
  {
    if IsSingleton(edgeType) && once * nodes != {} {
      var to :| to in twice;
      OnlyOne(twice, to);
      OnlyOne(once, to);
    }
  }

  /** Every edge that was read and has a dead target is of a singleton type, and has a live sibling that replaces it. */
  predicate ReadsHealable(nodes: set<Node>, edges: set<Edge>) {
    forall e :: e in edges && IsRead(nodes, e) && e.to !in nodes ==>
      IsSingleton(e.edgeType) && Outgoing(edges, e.from, e.edgeType) * nodes != {}
  }

  lemma SameErrors(nodes: set<Node>, a: set<Edge>, b: set<Edge>, e: Edge)
    requires Outgoing(a, e.from, e.edgeType) == Outgoing(b, e.from, e.edgeType)
    ensures PlanErrors(nodes, a, e) == PlanErrors(nodes, b, e)
  {
    InByTargets(a, e);
    InByTargets(b, e);
  }

  lemma RecordedPartMet(edges: set<Edge>, recorded: Plan, listed: seq<Edge>)
    requires RecordsUnread(recorded) && Lists(listed, recorded.nodes, edges)
    ensures NoErrors(Repair(edges, Rebuilt(recorded, listed)), recorded) <==> Consistent(recorded)
  {
    hide Repair, PlanErrors, Outgoing, Consistent, IsReadType, Lists, Rebuilt;
    var after, same := Repair(edges, Rebuilt(recorded, listed)), Repair(edges, recorded);
    forall k | 0 <= k < |recorded.edges|
      ensures PlanErrors(recorded.nodes, after, recorded.edges[k]) == PlanErrors(recorded.nodes, same, recorded.edges[k])
    {
      var e := recorded.edges[k];
      RebuiltOtherTargets(edges, recorded, listed, e.from, e.edgeType);
      SameErrors(recorded.nodes, after, same, e);
    }
    forall k | 0 <= k < |recorded.active|
      ensures ActiveErrors(after, recorded.active[k]) == ActiveErrors(same, recorded.active[k])
    {
      RebuiltOtherTargets(edges, recorded, listed, recorded.active[k].from, recorded.active[k].edgeType);
    }
    RepairMeetsPlanIff(edges, recorded);
  }

  /** After the repair, an edge read again has no error exactly when its target is live. */
  lemma ReadEdgeMetIff(edges: set<Edge>, recorded: Plan, listed: seq<Edge>, e: Edge)
    requires RecordsUnread(recorded) && Lists(listed, recorded.nodes, edges) && IsRead(recorded.nodes, e)
    requires e in Repair(edges, Rebuilt(recorded, listed))
    ensures PlanErrors(recorded.nodes, Repair(edges, Rebuilt(recorded, listed)), e) == {} <==> e.to in recorded.nodes
  {
    hide Repair, Outgoing, IsReadType, Lists, Rebuilt, IsSingleton;
    var nodes, after := recorded.nodes, Repair(edges, Rebuilt(recorded, listed));
    RebuiltReadTargets(edges, recorded, listed, e.from, e.edgeType);
    InByTargets(after, e);
    PlanErrorFound(nodes, after, e);
    var before, left := Outgoing(edges, e.from, e.edgeType), Outgoing(after, e.from, e.edgeType);
    assert e.to in left;
    assert e.to in nodes && left == before ==> e.to in before * nodes;
    assert e.to in nodes && IsSingleton(e.edgeType) ==> |left| == 1;
  }

  /** Dead targets are gone after the repair exactly when they could be replaced. */
  lemma DeadGoneIff(edges: set<Edge>, recorded: Plan, listed: seq<Edge>)
    requires RecordsUnread(recorded) && Lists(listed, recorded.nodes, edges)
    ensures
      var after := Repair(edges, Rebuilt(recorded, listed));
      (forall e :: e in after && IsRead(recorded.nodes, e) ==> e.to in recorded.nodes)
        <==> ReadsHealable(recorded.nodes, edges)
  {
    hide Repair, Outgoing, IsReadType, Lists, Rebuilt, IsSingleton;
    var nodes, after := recorded.nodes, Repair(edges, Rebuilt(recorded, listed));
    forall e | IsRead(nodes, e) && e.to !in nodes
      ensures e in after <==> e in edges && !(IsSingleton(e.edgeType) && Outgoing(edges, e.from, e.edgeType) * nodes != {})
    {
      RebuiltReadTargets(edges, recorded, listed, e.from, e.edgeType);
      InByTargets(after, e);
      InByTargets(edges, e);
    }
  }

  /**
   The repair as it is run: its plan is built from records and store before, and the checks build it again after. They
   find no error exactly when the records do not contradict each other and every dead target that was read could be
   replaced. Two live source trees of a revision are no obstacle here: they contradict the first plan, not the second.
   */
  lemma RepairHealsIff(edges: set<Edge>, recorded: Plan, listed: seq<Edge>, again: seq<Edge>)
    requires RecordsUnread(recorded) && Lists(listed, recorded.nodes, edges)
    requires Lists(again, recorded.nodes, Repair(edges, Rebuilt(recorded, listed)))
    ensures NoErrors(Repair(edges, Rebuilt(recorded, listed)), Rebuilt(recorded, again))
      <==> Consistent(recorded) && ReadsHealable(recorded.nodes, edges)
  {
    hide Repair, PlanErrors, ActiveErrors, Consistent, ReadsHealable, IsRead;
    var nodes, after := recorded.nodes, Repair(edges, Rebuilt(recorded, listed));
    RecordedPartMet(edges, recorded, listed);
    DeadGoneIff(edges, recorded, listed);
    SplitErrors(after, recorded, again);
    forall e | e in again
      ensures e in after && IsRead(nodes, e) && (PlanErrors(nodes, after, e) == {} <==> e.to in nodes)
    {
      ReadEdgeMetIff(edges, recorded, listed, e);
    }
    assert forall e :: e in after && IsRead(nodes, e) ==> e in again;
  }

  lemma SplitErrors(edges: set<Edge>, recorded: Plan, listed: seq<Edge>)
    ensures NoErrors(edges, Rebuilt(recorded, listed))
      <==> NoErrors(edges, recorded) && forall e :: e in listed ==> PlanErrors(recorded.nodes, edges, e) == {}
  {
    hide PlanErrors, ActiveErrors;
    var plan := Rebuilt(recorded, listed);
    assert forall k :: 0 <= k < |recorded.edges| ==> plan.edges[k] == recorded.edges[k];
    assert forall k :: 0 <= k < |listed| ==> plan.edges[|recorded.edges| + k] == listed[k];
  }

  /** An edge between live nodes by which a revision holds its source tree or one of its definitions. */
  predicate IsHolding(nodes: set<Node>, e: Edge) {
    && e.from in nodes && e.to in nodes
    && e.from.kind in {"SystemRevision", "ApplicationRevision", "ExperienceRevision"}
    && e.edgeType in {
         "HAS_SOURCE_TREE", "HAS_ACTION_REVISION", "HAS_OBJECT_TYPE_REVISION", "HAS_RELATION_TYPE_REVISION",
         "HAS_TRIGGER_REVISION", "HAS_TEST", "DECLARES_DEPENDENCY", "DECLARES_SURFACE"}
  }

  /** A revision with two live source trees. */
  predicate TwoTrees(nodes: set<Node>, edges: set<Edge>, a: Edge, b: Edge) {
    && a in edges && b in edges && a.to != b.to && IsHolding(nodes, a) && IsHolding(nodes, b)
    && b.from == a.from && a.edgeType == b.edgeType == "HAS_SOURCE_TREE"
  }

  lemma HoldingIsRead(nodes: set<Node>, e: Edge)
    ensures IsHolding(nodes, e) <==> IsRead(nodes, e) && e.to in nodes
  {
  }

  /** The repair drops a live edge that it read exactly when a revision has two live source trees; nothing reports it. */
  lemma DropsLiveEdgeIff(edges: set<Edge>, recorded: Plan, listed: seq<Edge>)
    requires RecordsUnread(recorded) && Lists(listed, recorded.nodes, edges)
    ensures
      var after := Repair(edges, Rebuilt(recorded, listed));
      (exists e :: e in edges && IsHolding(recorded.nodes, e) && e !in after)
        <==> exists a, b :: TwoTrees(recorded.nodes, edges, a, b)
  {
    hide Repair, Lists, Rebuilt, Outgoing;
    var nodes, after := recorded.nodes, Repair(edges, Rebuilt(recorded, listed));
    if e :| e in edges && IsHolding(nodes, e) && e !in after {
      DroppedHasSibling(edges, recorded, listed, e);
    }
    if a, b :| TwoTrees(nodes, edges, a, b) {
      HoldingIsRead(nodes, a);
      HoldingIsRead(nodes, b);
      RebuiltReadTargets(edges, recorded, listed, a.from, a.edgeType);
      InByTargets(edges, a);
      InByTargets(after, a);
      InByTargets(after, b);
      var left := Outgoing(after, a.from, a.edgeType);
      assert a.to in Outgoing(edges, a.from, a.edgeType) * nodes;
      assert |left| == 1;
      if a in after && b in after {
        OneElement(left, a.to, b.to);
      }
    }
  }

  lemma DroppedHasSibling(edges: set<Edge>, recorded: Plan, listed: seq<Edge>, e: Edge)
    requires RecordsUnread(recorded) && Lists(listed, recorded.nodes, edges)
    requires e in edges && IsHolding(recorded.nodes, e)
    requires e !in Repair(edges, Rebuilt(recorded, listed))
    ensures exists b :: TwoTrees(recorded.nodes, edges, e, b)
  {
    hide Repair, Lists, Rebuilt, Outgoing;
    var nodes, after := recorded.nodes, Repair(edges, Rebuilt(recorded, listed));
    HoldingIsRead(nodes, e);
    RebuiltReadTargets(edges, recorded, listed, e.from, e.edgeType);
    InByTargets(edges, e);
    InByTargets(after, e);
    var to :| to in Outgoing(after, e.from, e.edgeType);
    var b := Edge(e.from, e.edgeType, to);
    InByTargets(edges, b);
    assert TwoTrees(nodes, edges, e, b);
  }

  // ---------------------------------------------------------------------------
  // Reachability

  /** A walk along edges. */
  predicate IsPath(edges: set<Edge>, path: seq<Node>) {
    |path| > 0 && forall k :: 0 <= k < |path| - 1 ==> Linked(edges, path[k], path[k + 1])
  }

  predicate Linked(edges: set<Edge>, a: Node, b: Node) {
    exists e :: e in edges && e.from == a && e.to == b
  }

  ghost predicate Reachable(edges: set<Edge>, root: Node, n: Node) {
    exists path :: IsPath(edges, path) && path[0] == root && path[|path| - 1] == n
  }

  predicate Closed(edges: set<Edge>, ns: set<Node>) {
    forall e :: e in edges && e.from in ns ==> e.to in ns
  }

  lemma ReachableMore(edges: set<Edge>, root: Node, n: Node, e: Edge)
    requires Reachable(edges, root, n) && e in edges && e.from == n
    ensures Reachable(edges, root, e.to)
  {
    var path :| IsPath(edges, path) && path[0] == root && path[|path| - 1] == n;
    var more := path + [e.to];
    forall k | 0 <= k < |more| - 1
      ensures Linked(edges, more[k], more[k + 1])
    {
      if k == |path| - 1 {
        assert more[k] == n && more[k + 1] == e.to;
      } else {
        assert more[k] == path[k] && more[k + 1] == path[k + 1];
      }
    }
    assert IsPath(edges, more) && more[0] == root && more[|more| - 1] == e.to;
  }

  lemma ReachesItself(edges: set<Edge>, root: Node)
    ensures Reachable(edges, root, root)
  {
    assert IsPath(edges, [root]) && [root][0] == root;
  }

  lemma {:induction false} PathStays(edges: set<Edge>, ns: set<Node>, path: seq<Node>)
    requires Closed(edges, ns) && IsPath(edges, path) && path[0] in ns
    ensures path[|path| - 1] in ns
    decreases |path|
  {
    if |path| > 1 {
      var before := path[..|path| - 1];
      forall k | 0 <= k < |before| - 1
        ensures Linked(edges, before[k], before[k + 1])
      {
        assert Linked(edges, path[k], path[k + 1]);
      }
      PathStays(edges, ns, before);
      assert Linked(edges, path[|path| - 2], path[|path| - 1]);
    }
  }

  /** A closed set with the root, all of it reachable, is exactly what is reachable. */
  lemma ClosedIsReachable(edges: set<Edge>, root: Node, ns: set<Node>)
    requires Closed(edges, ns) && root in ns && forall n :: n in ns ==> Reachable(edges, root, n)
    ensures forall n :: n in ns <==> Reachable(edges, root, n)
  {
    forall n | Reachable(edges, root, n)
      ensures n in ns
    {
      var path :| IsPath(edges, path) && path[0] == root && path[|path| - 1] == n;
      PathStays(edges, ns, path);
    }
  }

  // ---------------------------------------------------------------------------
  // The loops of the source

  const INTERNED_KINDS := {
    "SourceContent", "ActionRevision", "ObjectTypeRevision", "RelationTypeRevision", "TriggerRevision", "TestCase",
    "RuntimeDependency", "ExperienceSurface"}

  class GraphIntegrityService {
    var edges: set<Edge>

    constructor (edges: set<Edge>)
      ensures this.edges == edges
    {
      this.edges := edges;
    }

    method RepairGraphEdges(plan: Plan)
      modifies this
      ensures edges == Repair(old(edges), plan)
    {
      hide IsLegacy, RepairEdge, RepairActive;
      var rest := edges;
      while rest != {}
        invariant rest <= old(edges)
        invariant edges == set e | e in old(edges) && (!IsLegacy(e.edgeType) || e in rest)
        decreases |rest|
      {
        var e :| e in rest;
        if IsLegacy(e.edgeType) {
          edges := edges - {e};
        }
        rest := rest - {e};
      }
      assert edges == WithoutLegacy(old(edges));
      ghost var clean := edges;
      var k := 0;
      while k < |plan.edges|
        invariant 0 <= k <= |plan.edges| && edges == RepairEdges(plan.nodes, clean, plan.edges[..k])
      {
        assert plan.edges[..k + 1][..k] == plan.edges[..k];
        PlanStep(plan.edges[k], plan.nodes);
        k := k + 1;
      }
      assert plan.edges[..k] == plan.edges;
      ghost var planned := edges;
      k := 0;
      while k < |plan.active|
        invariant 0 <= k <= |plan.active| && edges == RepairActives(plan.nodes, planned, plan.active[..k])
      {
        assert plan.active[..k + 1][..k] == plan.active[..k];
        ActiveStep(plan.active[k], plan.nodes);
        k := k + 1;
      }
      assert plan.active[..k] == plan.active;
    }

    method PlanStep(e: Edge, nodes: set<Node>)
      modifies this
      ensures edges == RepairEdge(nodes, old(edges), e)
    {
      if e.from !in nodes || e.to !in nodes {
        return;
      }
      if IsSingleton(e.edgeType) {
        edges := Clear(edges, e.from, e.edgeType);
      }
      edges := edges + {e};
    }

    method ActiveStep(a: ActiveEdge, nodes: set<Node>)
      modifies this
      ensures edges == RepairActive(nodes, old(edges), a)
    {
      edges := Clear(edges, a.from, a.edgeType);
      if a.to.Some? && EndsLive(nodes, Edge(a.from, a.edgeType, a.to.value)) {
        edges := edges + {Edge(a.from, a.edgeType, a.to.value)};
      }
    }

    /** The edges of the read types that revisions have, in the order the store gives them. */
    method ListReadEdges(nodes: set<Node>) returns (listed: seq<Edge>)
      ensures Lists(listed, nodes, edges)
    {
      hide IsRead;
      listed := [];
      var rest := edges;
      while rest != {}
        invariant rest <= edges
        invariant forall e :: e in listed <==> e in edges - rest && IsRead(nodes, e)
        decreases |rest|
      {
        var e :| e in rest;
        if IsRead(nodes, e) {
          listed := listed + [e];
        }
        rest := rest - {e};
      }
    }

    /** Build the plan, repair by it, build it again and check: the whole operation, from the records' part of the plan. */
    method RepairAndValidate(recorded: Plan) returns (errors: set<EdgeError>)
      requires RecordsUnread(recorded)
      modifies this
      ensures errors == {} <==> Consistent(recorded) && ReadsHealable(recorded.nodes, old(edges))
      ensures exists listed :: Lists(listed, recorded.nodes, old(edges)) && edges == Repair(old(edges), Rebuilt(recorded, listed))
    {
      hide Lists, Repair, Rebuilt, NoErrors, Consistent, ReadsHealable;
      var listed := ListReadEdges(recorded.nodes);
      RepairGraphEdges(Rebuilt(recorded, listed));
      var again := ListReadEdges(recorded.nodes);
      errors := ValidateEdges(Rebuilt(recorded, again));
      RepairHealsIff(old(edges), recorded, listed, again);
    }

    /** The edge checks: they report an error exactly when some edge or pointer of the plan is not met. */
    method ValidateEdges(plan: Plan) returns (errors: set<EdgeError>)
      ensures errors == {} <==> NoErrors(edges, plan)
      ensures forall e :: e in errors <==>
        || (exists k :: 0 <= k < |plan.edges| && e in PlanErrors(plan.nodes, edges, plan.edges[k]))
        || (exists k :: 0 <= k < |plan.active| && e in ActiveErrors(edges, plan.active[k]))
    {
      hide PlanErrors, ActiveErrors;
      errors := {};
      var k := 0;
      while k < |plan.edges|
        invariant 0 <= k <= |plan.edges|
        invariant forall e :: e in errors <==> exists j :: 0 <= j < k && e in PlanErrors(plan.nodes, edges, plan.edges[j])
      {
        errors := errors + PlanErrors(plan.nodes, edges, plan.edges[k]);
        k := k + 1;
      }
      k := 0;
      while k < |plan.active|
        invariant 0 <= k <= |plan.active|
        invariant forall e :: e in errors <==>
          || (exists j :: 0 <= j < |plan.edges| && e in PlanErrors(plan.nodes, edges, plan.edges[j]))
          || (exists j :: 0 <= j < k && e in ActiveErrors(edges, plan.active[j]))
      {
        errors := errors + ActiveErrors(edges, plan.active[k]);
        k := k + 1;
      }
      EmptyIff(errors, edges, plan);
    }

    /** The worklist: it finds exactly the nodes that a path leads to. */
    method ReachableFrom(root: Node) returns (reachable: set<Node>)
      ensures forall n :: n in reachable <==> Reachable(edges, root, n)
    {
      hide Reachable;
      reachable := {root};
      var pending := [root];
      ghost var all := {root} + set e | e in edges :: e.to;
      ReachesItself(edges, root);
      while pending != []
        invariant root in reachable && reachable <= all
        invariant forall n :: n in pending ==> n in reachable
        invariant forall n :: n in reachable ==> Reachable(edges, root, n)
        invariant forall e :: e in edges && e.from in reachable && e.from !in pending ==> e.to in reachable
        decreases |all - reachable|, |pending|
      {
        ghost var known := reachable;
        var current := pending[|pending| - 1];
        var rest := pending[..|pending| - 1];
        assert pending == rest + [current];
        var targets := set e | e in edges && e.from == current && e.to !in reachable :: e.to;
        reachable, pending := AddTargets(root, current, reachable, rest, targets);
        if targets == {} {
          assert pending == rest;
        } else {
          var t :| t in targets;
          assert t in all - known && t !in all - reachable;
          assert all - reachable < all - known;
          Smaller(all - reachable, all - known);
        }
      }
      ClosedIsReachable(edges, root, reachable);
    }

    /** Mark the targets of one node, and put them on the worklist. */
    method AddTargets(root: Node, current: Node, known: set<Node>, worklist: seq<Node>, targets: set<Node>)
      returns (reachable: set<Node>, pending: seq<Node>)
      requires Reachable(edges, root, current)
      requires forall t :: t in targets ==> exists e :: e in edges && e.from == current && e.to == t
      requires forall n :: n in known ==> Reachable(edges, root, n)
      ensures reachable == known + targets
      ensures forall n :: n in reachable ==> Reachable(edges, root, n)
      ensures forall n :: n in pending <==> n in worklist || n in targets
      ensures targets == {} ==> pending == worklist
    {
      hide Reachable;
      reachable, pending := known, worklist;
      var rest := targets;
      while rest != {}
        invariant rest <= targets && reachable == known + (targets - rest)
        invariant forall n :: n in reachable ==> Reachable(edges, root, n)
        invariant forall n :: n in pending <==> n in worklist || n in targets - rest
        invariant targets == {} ==> pending == worklist
        decreases |rest|
      {
        var t :| t in rest;
        ghost var e :| e in edges && e.from == current && e.to == t;
        ReachableMore(edges, root, current, e);
        reachable := reachable + {t};
        assert (pending + [t])[|pending|] == t;
        pending := pending + [t];
        rest := rest - {t};
      }
    }

    /** Unreachable nodes are errors, but for interned ones, which only give a warning. Without its root nothing is checked. */
    method ValidateReachability(nodes: seq<Node>, root: Node, rootStored: bool, internedTrees: set<string>)
      returns (rootMissing: bool, errors: set<Node>, warnings: set<Node>)
      ensures rootMissing <==> root !in nodes || !rootStored
      ensures rootMissing ==> errors == {} && warnings == {}
      ensures !rootMissing ==> forall n :: n in errors + warnings <==> n in nodes && !Reachable(edges, root, n)
      ensures forall n :: n in warnings ==>
        n.kind in INTERNED_KINDS || (n.kind == "SourceTree" && n.id in internedTrees)
      ensures forall n :: n in errors ==>
        !(n.kind in INTERNED_KINDS || (n.kind == "SourceTree" && n.id in internedTrees))
    {
      hide Reachable;
      rootMissing, errors, warnings := root !in nodes || !rootStored, {}, {};
      if rootMissing {
        return;
      }
      var reachable := ReachableFrom(root);
      var k := 0;
      while k < |nodes|
        invariant 0 <= k <= |nodes|
        invariant forall n :: n in errors + warnings <==> n in nodes[..k] && n !in reachable
        invariant forall n :: n in warnings ==>
          n.kind in INTERNED_KINDS || (n.kind == "SourceTree" && n.id in internedTrees)
        invariant forall n :: n in errors ==>
          !(n.kind in INTERNED_KINDS || (n.kind == "SourceTree" && n.id in internedTrees))
      {
        var n := nodes[k];
        assert nodes[..k + 1] == nodes[..k] + [n];
        if n !in reachable {
          if n.kind in INTERNED_KINDS || (n.kind == "SourceTree" && n.id in internedTrees) {
            warnings := warnings + {n};
          } else {
            errors := errors + {n};
          }
        }
        k := k + 1;
      }
      assert nodes[..k] == nodes;
    }
  }

  lemma Smaller<T>(a: set<T>, b: set<T>)
    requires a < b
    ensures |a| < |b|
  {
    assert b == a + (b - a);
    assert b - a != {};
  }

  lemma EmptyIff(errors: set<EdgeError>, edges: set<Edge>, plan: Plan)
    requires forall e :: e in errors <==>
      || (exists k :: 0 <= k < |plan.edges| && e in PlanErrors(plan.nodes, edges, plan.edges[k]))
      || (exists k :: 0 <= k < |plan.active| && e in ActiveErrors(edges, plan.active[k]))
    ensures errors == {} <==> NoErrors(edges, plan)
  {
    hide PlanErrors, ActiveErrors;
    if errors == {} {
      forall k | 0 <= k < |plan.edges|
        ensures PlanErrors(plan.nodes, edges, plan.edges[k]) == {}
      {
        forall e
          ensures e !in PlanErrors(plan.nodes, edges, plan.edges[k])
        {
          assert e !in errors;
        }
      }
      forall k | 0 <= k < |plan.active|
        ensures ActiveErrors(edges, plan.active[k]) == {}
      {
        forall e
          ensures e !in ActiveErrors(edges, plan.active[k])
        {
          assert e !in errors;
        }
      }
    }
  }
}
