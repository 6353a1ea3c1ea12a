/** Collecting the source store is the graph collection of `InternGc`, on the nodes and edges the store holds. */
module SourceCollection {
  import G = SourceGraph
  import P = SourceGraphProofs
  import C = InternGc
  import opened Interning

  datatype Ref = RevisionRef(revision: G.RevisionId) | TreeRef(tree: G.TreeId) | ContentRef(content: ContentId)

  function RevisionNode(r: G.RevisionId): C.Node<Ref> {
    C.Node(C.ApplicationRevision, RevisionRef(r))
  }

  function TreeNode(t: G.TreeId): C.Node<Ref> {
    C.Node(C.SourceTree, TreeRef(t))
  }

  function ContentNode(c: ContentId): C.Node<Ref> {
    C.Node(C.SourceContent, ContentRef(c))
  }

  function ShowEdge(e: G.TreeEdge): C.Edge<Ref> {
    C.Edge(RevisionNode(e.revision), "HAS_SOURCE_TREE", TreeNode(e.tree))
  }

  function HoldEdge(e: G.FileEdge): C.Edge<Ref> {
    C.Edge(TreeNode(e.tree), "HAS_FILE", ContentNode(e.file.content))
  }

  function GraphOf(s: G.Store): C.Graph<Ref> {
    C.Graph(
      (set r | r in s.revisions :: RevisionNode(r))
      + (set t | t in s.trees :: TreeNode(t))
      + (set c | c in s.contents :: ContentNode(c)),
      (set e | e in s.treeEdges :: ShowEdge(e)) + (set e | e in s.fileEdges :: HoldEdge(e)))
  }

  lemma KeptInStore(s: G.Store)
    requires G.EdgesLive(s)
    ensures C.EdgesLive(GraphOf(s)) && C.TreesLeadToContents(GraphOf(s))
    ensures G.EdgesLive(G.Collect(s))
    ensures GraphOf(G.Collect(s)).nodes <= GraphOf(s).nodes
  {
    assert forall e :: e in s.treeEdges ==> e.tree in G.ShownTrees(s);
    var c := G.Collect(s);
    assert forall e :: e in c.fileEdges ==> e.file.content in G.UsedContents(c.fileEdges);
    forall e | e in GraphOf(s).edges
      ensures e.from in GraphOf(s).nodes && e.to in GraphOf(s).nodes
    {
      EdgeEnds(s, e);
    }
  }

  lemma EdgeEnds(s: G.Store, e: C.Edge<Ref>)
    requires G.EdgesLive(s) && e in GraphOf(s).edges
    ensures e.from in GraphOf(s).nodes && e.to in GraphOf(s).nodes
  {
    if e.edgeType == "HAS_SOURCE_TREE" {
      var t :| t in s.treeEdges && ShowEdge(t) == e;
    } else {
      var f :| f in s.fileEdges && HoldEdge(f) == e;
    }
  }

  lemma TreeIsKept(s: G.Store, t: G.TreeId)
    requires G.EdgesLive(s) && t in G.Collect(s).trees
    ensures C.Kept(C.Restrict(GraphOf(s), GraphOf(G.Collect(s)).nodes), TreeNode(t))
  {
    hide C.EdgesLive;
    var stay := GraphOf(G.Collect(s)).nodes;
    var e :| e in s.treeEdges && e.tree == t;
    assert e.revision in G.Collect(s).revisions;
    assert RevisionNode(e.revision) in stay && TreeNode(t) in stay;
    assert ShowEdge(e) in GraphOf(s).edges;
    assert ShowEdge(e) in C.Restrict(GraphOf(s), stay).edges;
  }

  lemma ContentIsKept(s: G.Store, c: ContentId)
    requires G.EdgesLive(s) && c in G.Collect(s).contents
    ensures C.Kept(C.Restrict(GraphOf(s), GraphOf(G.Collect(s)).nodes), ContentNode(c))
  {
    var stay := GraphOf(G.Collect(s)).nodes;
    var f :| f in G.Collect(s).fileEdges && f.file.content == c;
    assert f.tree in G.Collect(s).trees;
    assert TreeNode(f.tree) in stay && ContentNode(c) in stay;
    assert HoldEdge(f) in GraphOf(s).edges;
    assert HoldEdge(f) in C.Restrict(GraphOf(s), stay).edges;
  }

  /** What the store keeps is supported: every kept tree by a revision, every kept content by a kept tree. */
  lemma StoreIsSupported(s: G.Store)
    requires G.EdgesLive(s)
    ensures C.Supported(GraphOf(s), {}, GraphOf(G.Collect(s)).nodes)
  {
    hide C.Kept, C.Restrict, G.EdgesLive, C.EdgesLive;
    KeptInStore(s);
    var stay := GraphOf(G.Collect(s)).nodes;
    forall n | n in stay && C.Interned(n)
      ensures C.Kept(C.Restrict(GraphOf(s), stay), n)
    {
      if n.id.TreeRef? {
        TreeIsKept(s, n.id.tree);
      } else {
        ContentIsKept(s, n.id.content);
      }
    }
  }

  lemma SupportedTree(s: G.Store, other: set<C.Node<Ref>>, t: G.TreeId)
    requires G.EdgesLive(s) && C.Supported(GraphOf(s), {}, other) && TreeNode(t) in other
    ensures t in G.Collect(s).trees
  {
    var e :| e in C.Restrict(GraphOf(s), other).edges && e.to == TreeNode(t) && C.IsKeeper(e.from.kind);
    assert e in GraphOf(s).edges;
    var show :| show in s.treeEdges && ShowEdge(show) == e;
    assert show.tree in G.ShownTrees(s);
  }

  lemma SupportedContent(s: G.Store, other: set<C.Node<Ref>>, c: ContentId)
    requires G.EdgesLive(s) && C.Supported(GraphOf(s), {}, other) && ContentNode(c) in other
    ensures c in G.Collect(s).contents
  {
    var e :| e in C.Restrict(GraphOf(s), other).edges && e.to == ContentNode(c) && C.IsKeeper(e.from.kind);
    assert e in GraphOf(s).edges && e.from in other;
    var hold :| hold in s.fileEdges && HoldEdge(hold) == e;
    SupportedTree(s, other, hold.tree);
    assert hold in G.Collect(s).fileEdges;
    assert c in G.UsedContents(G.Collect(s).fileEdges);
  }

  /** The nodes that `Collect` leaves are the survivors of the graph collection. */
  lemma CollectIsGraphCollection(s: G.Store)
    requires G.EdgesLive(s)
    ensures C.Survivors(GraphOf(s), {}, GraphOf(G.Collect(s)).nodes)
  {
    StoreIsSupported(s);
    var stay := GraphOf(G.Collect(s)).nodes;
    forall other | C.Supported(GraphOf(s), {}, other)
      ensures other <= stay
    {
      forall n | n in other
        ensures n in stay
      {
        assert n in GraphOf(s).nodes;
        match n.id
        case RevisionRef(r) => assert RevisionNode(r) in stay;
        case TreeRef(t) => SupportedTree(s, other, t);
        case ContentRef(c) => SupportedContent(s, other, c);
      }
    }
  }
}
