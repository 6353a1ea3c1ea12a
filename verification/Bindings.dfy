/**
 The edges by which a revision binds definitions. A bound definition has a name; the operations look bindings up by
 name and keep one per name. That is what lets `Applications` treat a revision's bindings as a map.
 */
module Bindings {
  import opened Prelude

  type RevisionId = string

  datatype RevisionKind = ApplicationKind | ExperienceKind | SystemKind

  /** An interned definition: the record holds the name it stands for. */
  datatype Target = Target(name: string, id: string)

  datatype Edge = Edge(revision: RevisionId, edgeType: string, target: Target)

  datatype BindingError = UnknownRevision | DifferentKinds | DuplicateName

  // ---------------------------------------------------------------------------
  // Lookups and steps

  function Matches(edges: set<Edge>, r: RevisionId, edgeType: string, name: string): set<Target> {
    set e | e in edges && e.revision == r && e.edgeType == edgeType && e.target.name == name :: e.target
  }

  ghost function Named(edges: set<Edge>, r: RevisionId, edgeType: string, name: string)
    : Result<Option<Target>, BindingError>
  {
    var found := Matches(edges, r, edgeType, name);
    if |found| > 1 then Err(DuplicateName)
    else if found == {} then Ok(None)
    else Ok(Some(var t :| t in found; t))
  }

  function ReplaceNamed(edges: set<Edge>, r: RevisionId, edgeType: string, current: Option<Target>, next: Target): set<Edge> {
    if current == Some(next) then edges
    else (if current.Some? then edges - {Edge(r, edgeType, current.value)} else edges) + {Edge(r, edgeType, next)}
  }

  /** What declaring a definition does to the edges: look the name up, then replace what it stands for. */
  ghost function Declared(edges: set<Edge>, r: RevisionId, edgeType: string, next: Target): Result<set<Edge>, BindingError> {
    var current := Named(edges, r, edgeType, next.name);
    if current.Err? then Err(current.error) else Ok(ReplaceNamed(edges, r, edgeType, current.value, next))
  }

  function Copied(edges: set<Edge>, parent: RevisionId, child: RevisionId, edgeTypes: set<string>): set<Edge> {
    edges + set e | e in edges && e.revision == parent && e.edgeType in edgeTypes :: Edge(child, e.edgeType, e.target)
  }

  // ---------------------------------------------------------------------------
  // One binding per name

  predicate OnePerName(edges: set<Edge>) {
    forall a, b :: a in edges && b in edges && SameName(a, b) ==> a.target == b.target
  }

  predicate SameName(a: Edge, b: Edge) {
    a.revision == b.revision && a.edgeType == b.edgeType && a.target.name == b.target.name
  }

  lemma SingleMatch(edges: set<Edge>, r: RevisionId, edgeType: string, name: string)
    requires OnePerName(edges)
    ensures |Matches(edges, r, edgeType, name)| <= 1
  {
    var found := Matches(edges, r, edgeType, name);
    if found != {} {
      var t :| t in found;
      forall u | u in found
        ensures u == t
      {
        assert SameName(Edge(r, edgeType, u), Edge(r, edgeType, t));
      }
      assert found == {t};
    }
  }

  /** The revision binds the name to the target, by an edge of this type. */
  predicate BindsTo(edges: set<Edge>, r: RevisionId, edgeType: string, name: string, t: Target) {
    Edge(r, edgeType, t) in edges && t.name == name
  }

  /** Looking a name up: nothing when it is not bound, the one target it is bound to, and a refusal when it has two. */
  lemma NameStandsFor(edges: set<Edge>, r: RevisionId, edgeType: string, name: string)
    ensures
      var found := Named(edges, r, edgeType, name);
      && (found == Ok(None) <==> forall t :: !BindsTo(edges, r, edgeType, name, t))
      && (found.Ok? && found.value.Some? <==>
            exists t :: BindsTo(edges, r, edgeType, name, t) && found == Ok(Some(t))
                        && forall u :: BindsTo(edges, r, edgeType, name, u) ==> u == t)
      && (found == Err(DuplicateName) <==>
            exists t, u :: BindsTo(edges, r, edgeType, name, t) && BindsTo(edges, r, edgeType, name, u) && t != u)
  {
    var found := Matches(edges, r, edgeType, name);
    assert forall t :: t in found <==> BindsTo(edges, r, edgeType, name, t);
    if t, u :| t in found && u in found && t != u {
      TwoMatches(found, t, u);
    } else if found != {} {
      var t :| t in found;
      assert found == {t};
    }
  }

  /** Looking a name up never fails exactly when there is one binding per name. */
  lemma NamedNeverFailsIff(edges: set<Edge>)
    ensures OnePerName(edges) <==> forall r, edgeType, name :: Named(edges, r, edgeType, name).Ok?
  {
    if OnePerName(edges) {
      forall r, edgeType, name
        ensures Named(edges, r, edgeType, name).Ok?
      {
        SingleMatch(edges, r, edgeType, name);
      }
    } else {
      var a, b :| a in edges && b in edges && SameName(a, b) && a.target != b.target;
      var found := Matches(edges, a.revision, a.edgeType, a.target.name);
      assert a.target in found && b.target in found;
      TwoMatches(found, a.target, b.target);
      assert Named(edges, a.revision, a.edgeType, a.target.name).Err?;
    }
  }

  lemma TwoMatches<T>(s: set<T>, a: T, b: T)
    requires a in s && b in s && a != b
    ensures |s| >= 2
  {
    assert b in s - {a};
    assert |s| == |s - {a}| + 1;
  }

  lemma NamedIs(edges: set<Edge>, r: RevisionId, edgeType: string, name: string, t: Target)
    requires OnePerName(edges)
    ensures Named(edges, r, edgeType, name) == Ok(Some(t)) <==> t.name == name && Edge(r, edgeType, t) in edges
    ensures Named(edges, r, edgeType, name) == Ok(None) <==> Matches(edges, r, edgeType, name) == {}
  {
    SingleMatch(edges, r, edgeType, name);
    var found := Matches(edges, r, edgeType, name);
    if t.name == name && Edge(r, edgeType, t) in edges {
      assert t in found;
      forall u | u in found
        ensures u == t
      {
        assert SameName(Edge(r, edgeType, u), Edge(r, edgeType, t));
      }
    }
  }

  /** Declaring keeps one binding per name; the name then stands for the new target, and nothing else changes. */
  lemma DeclareKeeps(edges: set<Edge>, r: RevisionId, edgeType: string, next: Target)
    requires OnePerName(edges)
    ensures
      var after := Declared(edges, r, edgeType, next);
      && after.Ok? && OnePerName(after.value)
      && Named(after.value, r, edgeType, next.name) == Ok(Some(next))
      && forall q, other, name :: (q, other, name) != (r, edgeType, next.name) ==>
           Matches(after.value, q, other, name) == Matches(edges, q, other, name)
  {
    SingleMatch(edges, r, edgeType, next.name);
    var current := Named(edges, r, edgeType, next.name).value;
    var after := ReplaceNamed(edges, r, edgeType, current, next);
    assert Edge(r, edgeType, next) in after;
    forall e | e in edges && SameName(e, Edge(r, edgeType, next))
      ensures current == Some(e.target)
    {
      NamedIs(edges, r, edgeType, next.name, e.target);
    }
    assert current.Some? ==> current.value in Matches(edges, r, edgeType, next.name);
    assert OnePerName(after);
    NamedIs(after, r, edgeType, next.name, next);
  }

  /** The parent and the child give no name two meanings. */
  predicate Agree(edges: set<Edge>, parent: RevisionId, child: RevisionId, edgeTypes: set<string>) {
    forall a, b ::
      (a in edges && b in edges && a.revision == parent && b.revision == child && a.edgeType == b.edgeType
       && a.edgeType in edgeTypes && a.target.name == b.target.name)
      ==> a.target == b.target
  }

  /** Copying keeps one binding per name exactly when the child gives no copied name another meaning already. */
  lemma CopyKeepsIff(edges: set<Edge>, parent: RevisionId, child: RevisionId, edgeTypes: set<string>)
    requires OnePerName(edges)
    ensures OnePerName(Copied(edges, parent, child, edgeTypes)) <==> Agree(edges, parent, child, edgeTypes)
  {
    var after := Copied(edges, parent, child, edgeTypes);
    if OnePerName(after) {
      forall a, b | a in edges && b in edges && a.revision == parent && b.revision == child && a.edgeType == b.edgeType
        && a.edgeType in edgeTypes && a.target.name == b.target.name
        ensures a.target == b.target
      {
        assert Edge(child, a.edgeType, a.target) in after;
        assert SameName(Edge(child, a.edgeType, a.target), b);
      }
    }
    if Agree(edges, parent, child, edgeTypes) {
      forall a, b | a in after && b in after && SameName(a, b)
        ensures a.target == b.target
      {
        var c := if a in edges then a else Edge(parent, a.edgeType, a.target);
        var d := if b in edges then b else Edge(parent, b.edgeType, b.target);
        assert c in edges && d in edges;
        assert c.revision == d.revision ==> SameName(c, d);
      }
    }
  }

  /** A new revision binds, for the copied types, exactly what its parent binds; no other revision changes. */
  lemma CopyToNew(edges: set<Edge>, parent: RevisionId, child: RevisionId, edgeTypes: set<string>)
    requires OnePerName(edges) && parent != child && forall e :: e in edges ==> e.revision != child
    ensures
      var after := Copied(edges, parent, child, edgeTypes);
      && OnePerName(after)
      && (forall t, name :: t in edgeTypes ==> Matches(after, child, t, name) == Matches(edges, parent, t, name))
      && (forall t, name :: t !in edgeTypes ==> Matches(after, child, t, name) == {})
      && (forall r, t, name :: r != child ==> Matches(after, r, t, name) == Matches(edges, r, t, name))
  {
    CopyKeepsIff(edges, parent, child, edgeTypes);
    var after := Copied(edges, parent, child, edgeTypes);
    forall t, name | t in edgeTypes
      ensures Matches(after, child, t, name) == Matches(edges, parent, t, name)
    {
      forall x | x in Matches(edges, parent, t, name)
        ensures x in Matches(after, child, t, name)
      {
        assert Edge(parent, t, x) in edges;
        assert Edge(child, t, x) in after;
      }
    }
  }

  // ---------------------------------------------------------------------------
  // The class

  class RevisionBindings {
    var kinds: map<RevisionId, RevisionKind>
    var edges: set<Edge>

    constructor (kinds: map<RevisionId, RevisionKind>)
      ensures this.kinds == kinds && edges == {}
    {
      this.kinds, edges := kinds, {};
    }

    /** Gather the bindings of a name, and refuse more than one. */
    method FindNamed(r: RevisionId, edgeType: string, name: string) returns (found: Result<Option<Target>, BindingError>)
      ensures found == if r in kinds then Named(edges, r, edgeType, name) else Err(UnknownRevision)
    {
      if r !in kinds {
        return Err(UnknownRevision);
      }
      var matches: seq<Target> := [];
      var rest := set e | e in edges && e.revision == r && e.edgeType == edgeType;
      ghost var done: set<Target> := {};
      while rest != {}
        invariant forall e :: e in rest ==> e in edges && e.revision == r && e.edgeType == edgeType
        invariant Listed(matches, done)
        invariant forall t :: t in done <==> t.name == name && Edge(r, edgeType, t) in edges - rest
        decreases |rest|
      {
        var e :| e in rest;
        if e.target.name == name {
          assert e.target !in done;
          ListMore(matches, done, e.target);
          matches, done := matches + [e.target], done + {e.target};
        }
        rest := rest - {e};
      }
      assert done == Matches(edges, r, edgeType, name);
      ListedSize(matches, done);
      if |matches| > 1 {
        return Err(DuplicateName);
      }
      if matches == [] {
        return Ok(None);
      }
      OneListed(matches, done);
      return Ok(Some(matches[0]));
    }

    method Replace(r: RevisionId, edgeType: string, current: Option<Target>, next: Target)
      returns (error: Option<BindingError>)
      modifies this`edges
      ensures error == if r in kinds then None else Some(UnknownRevision)
      ensures edges == if r in kinds then ReplaceNamed(old(edges), r, edgeType, current, next) else old(edges)
    {
      if r !in kinds {
        return Some(UnknownRevision);
      }
      if current.Some? && current.value != next {
        edges := edges - {Edge(r, edgeType, current.value)};
      }
      if current != Some(next) {
        edges := edges + {Edge(r, edgeType, next)};
      }
      return None;
    }

    /** Copy the edges of some types from one revision to another of its kind, edge by edge. */
    method CopyEdges(parent: RevisionId, child: RevisionId, edgeTypes: seq<string>) returns (error: Option<BindingError>)
      requires parent != child
      modifies this`edges
      ensures error ==
        if parent !in kinds || child !in kinds then Some(UnknownRevision)
        else if kinds[parent] != kinds[child] then Some(DifferentKinds)
        else None
      ensures edges ==
        if error.None? then Copied(old(edges), parent, child, set k | 0 <= k < |edgeTypes| :: edgeTypes[k]) else old(edges)
    {
      if parent !in kinds || child !in kinds {
        return Some(UnknownRevision);
      }
      if kinds[parent] != kinds[child] {
        return Some(DifferentKinds);
      }
      var i := 0;
      while i < |edgeTypes|
        invariant 0 <= i <= |edgeTypes|
        invariant edges == Copied(old(edges), parent, child, set k | 0 <= k < i :: edgeTypes[k])
      {
        CopyType(parent, child, edgeTypes[i]);
        assert (set k | 0 <= k < i + 1 :: edgeTypes[k]) == (set k | 0 <= k < i :: edgeTypes[k]) + {edgeTypes[i]};
        CopyOneMore(old(edges), parent, child, set k | 0 <= k < i :: edgeTypes[k], edgeTypes[i]);
        i := i + 1;
      }
      return None;
    }

    method CopyType(parent: RevisionId, child: RevisionId, edgeType: string)
      requires parent != child
      modifies this`edges
      ensures edges == Copied(old(edges), parent, child, {edgeType})
    {
      var rest := set e | e in edges && e.revision == parent && e.edgeType == edgeType;
      while rest != {}
        invariant forall e :: e in rest ==> e in old(edges) && e.revision == parent && e.edgeType == edgeType
        invariant edges == old(edges) + set e |
          e in old(edges) && e.revision == parent && e.edgeType == edgeType && e !in rest :: Edge(child, e.edgeType, e.target)
        decreases |rest|
      {
        var e :| e in rest;
        edges := edges + {Edge(child, edgeType, e.target)};
        rest := rest - {e};
      }
    }
  }

  lemma CopyOneMore(edges: set<Edge>, parent: RevisionId, child: RevisionId, types: set<string>, t: string)
    requires parent != child
    ensures Copied(Copied(edges, parent, child, types), parent, child, {t}) == Copied(edges, parent, child, types + {t})
  {
    var some := Copied(edges, parent, child, types);
    var left, right := Copied(some, parent, child, {t}), Copied(edges, parent, child, types + {t});
    forall e
      ensures e in left <==> e in right
    {
      assert e.revision == child && Edge(parent, e.edgeType, e.target) in some ==>
        Edge(parent, e.edgeType, e.target) in edges;
    }
  }

  /** A list without repetition of the elements of a set. */
  ghost predicate Listed<T(!new)>(list: seq<T>, elements: set<T>) {
    && (forall i, j :: 0 <= i < j < |list| ==> list[i] != list[j])
    && (forall t :: t in elements <==> t in list)
  }

  lemma ListMore<T(!new)>(list: seq<T>, elements: set<T>, t: T)
    requires Listed(list, elements) && t !in elements
    ensures Listed(list + [t], elements + {t})
  {
    assert (list + [t])[|list|] == t;
    assert forall k :: 0 <= k < |list| ==> list[k] in list;
  }

  lemma {:induction false} ListedSize<T(!new)>(list: seq<T>, elements: set<T>)
    requires Listed(list, elements)
    ensures |list| == |elements|
    decreases |list|
  {
    if list != [] {
      var before, last := list[..|list| - 1], list[|list| - 1];
      assert list == before + [last];
      assert Listed(before, elements - {last});
      ListedSize(before, elements - {last});
    } else {
      assert elements == {};
    }
  }

  lemma OneListed<T(!new)>(list: seq<T>, elements: set<T>)
    requires Listed(list, elements) && |list| == 1
    ensures elements == {list[0]}
  {
  }
}
