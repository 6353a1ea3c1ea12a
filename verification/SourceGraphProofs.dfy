/** The store invariant, and that changing one revision changes no other. */
module SourceGraphProofs {
  import opened Prelude
  import opened Interning
  import opened SourceGraph

  // ---------------------------------------------------------------------------
  // Trees and listings

  lemma TreeOfRevision(s: Store, r: RevisionId) returns (t: TreeId)
    requires EdgesLive(s) && OneTreeEach(s) && r in s.revisions
    ensures HasTree(s, r, t) && TreeOf(s, r) == Some(t)
  {
    var e :| e in s.treeEdges && e.revision == r;
    t := e.tree;
    assert HasTree(s, r, t);
  }

  lemma ListingUnique(s: Store, t: TreeId)
    requires PathsUnique(s)
    ensures UniquePaths(Listing(s, t))
  {
    forall f, g | f in Listing(s, t) && g in Listing(s, t) && f.path == g.path
      ensures f == g
    {
      assert FileEdge(t, f) in s.fileEdges && FileEdge(t, g) in s.fileEdges;
    }
  }

  /** Two stores that agree on revisions, tree edges and trees agree on which tree a revision has. */
  lemma SameTreeOf(s: Store, c: Store, r: RevisionId)
    requires r in s.revisions <==> r in c.revisions
    requires forall e: TreeEdge :: e.revision == r ==> (e in s.treeEdges <==> e in c.treeEdges)
    requires forall e: TreeEdge :: e in s.treeEdges && e.revision == r ==> (e.tree in s.trees <==> e.tree in c.trees)
    ensures TreeOf(s, r) == TreeOf(c, r)
  {
    forall t
      ensures HasTree(c, r, t) <==> HasTree(s, r, t)
    {
      assert TreeEdge(r, t).revision == r;
    }
  }

  lemma CollectListing(s: Store, t: TreeId)
    requires t in ShownTrees(s)
    ensures Listing(Collect(s), t) == Listing(s, t)
  {
  }

  lemma CollectFiles(s: Store, r: RevisionId)
    ensures Files(Collect(s), r) == Files(s, r)
  {
    forall e | e in s.treeEdges
      ensures e.tree in s.trees <==> e.tree in Collect(s).trees
    {
      assert e.tree in ShownTrees(s);
    }
    SameTreeOf(s, Collect(s), r);
    if TreeOf(s, r).Some? {
      var t := TreeOf(s, r).value;
      assert TreeEdge(r, t) in s.treeEdges;
      CollectListing(s, t);
    }
  }

  lemma CollectHashes(s: Store)
    requires HashesCurrent(s)
    ensures HashesCurrent(Collect(s))
  {
    forall t | t in Collect(s).trees
      ensures Collect(s).trees[t].hash == HashOf(Listing(Collect(s), t))
    {
      CollectListing(s, t);
    }
  }

  lemma CollectEdges(s: Store)
    requires EdgesLive(s) && OneTreeEach(s) && PathsUnique(s)
    ensures EdgesLive(Collect(s)) && OneTreeEach(Collect(s)) && PathsUnique(Collect(s))
  {
    var c := Collect(s);
    assert forall e :: e in s.treeEdges ==> e.tree in ShownTrees(s);
    assert forall e :: e in c.fileEdges ==> e.file.content in UsedContents(c.fileEdges);
  }

  lemma CollectLeavesNoOrphans(s: Store)
    ensures NoOrphans(Collect(s))
  {
    var c := Collect(s);
    forall t | t in c.trees
      ensures exists e :: e in c.treeEdges && e.tree == t
    {
      assert t in ShownTrees(s);
    }
    forall d | d in c.contents
      ensures exists e :: e in c.fileEdges && e.file.content == d
    {
      assert d in UsedContents(c.fileEdges);
    }
  }

  lemma CollectRecords(s: Store)
    requires ContentsAddressed(s) && IdsFit(s) && DraftsPrivate(s)
    ensures ContentsAddressed(Collect(s)) && IdsFit(Collect(s)) && DraftsPrivate(Collect(s))
  {
  }

  lemma CollectInvariant(s: Store)
    requires WellFormed(s)
    ensures Invariant(Collect(s))
  {
    hide Collect, EdgesLive, OneTreeEach, PathsUnique, ContentsAddressed, HashesCurrent, IdsFit, DraftsPrivate, NoOrphans;
    CollectEdges(s);
    CollectRecords(s);
    CollectHashes(s);
    CollectLeavesNoOrphans(s);
  }

  /** Collecting keeps the invariant, leaves no orphan and changes no file that a revision shows. */
  lemma CollectKeeps(s: Store)
    requires WellFormed(s)
    ensures Invariant(Collect(s))
    ensures forall r :: Files(Collect(s), r) == Files(s, r)
  {
    hide Collect, WellFormed, Invariant, Files;
    CollectInvariant(s);
    forall r
      ensures Files(Collect(s), r) == Files(s, r)
    {
      CollectFiles(s, r);
    }
  }

  // ---------------------------------------------------------------------------
  // The steps

  lemma AddTreeListings(s: Store, n: TreeId, record: Tree, files: set<FileInfo>)
    requires n !in s.trees && EdgesLive(s)
    ensures Listing(AddTree(s, n, record, files), n) == files
    ensures forall u | u != n :: Listing(AddTree(s, n, record, files), u) == Listing(s, u)
  {
    var c := AddTree(s, n, record, files);
    assert forall f :: f in files ==> FileEdge(n, f) in c.fileEdges;
    assert forall f :: f in Listing(c, n) ==> FileEdge(n, f) in c.fileEdges;
    forall u | u != n
      ensures Listing(c, u) == Listing(s, u)
    {
      assert forall f :: f in Listing(c, u) ==> FileEdge(u, f) in c.fileEdges;
      assert forall f :: f in Listing(s, u) ==> FileEdge(u, f) in s.fileEdges;
    }
  }

  lemma AddTreeEdges(s: Store, n: TreeId, record: Tree, files: set<FileInfo>)
    requires n !in s.trees && EdgesLive(s) && PathsUnique(s) && OneTreeEach(s) && UniquePaths(files)
    ensures var c := AddTree(s, n, record, files);
      EdgesLive(c) && PathsUnique(c) && OneTreeEach(c)
  {
    hide HashOf;
  }

  lemma AddTreeRecords(s: Store, n: TreeId, record: Tree, files: set<FileInfo>)
    requires n !in s.trees && ContentsAddressed(s) && IdsFit(s) && DraftsPrivate(s)
    requires n.Interned? ==> record == Tree(InternedTree, n.digest, None)
    requires n.Working? ==> record.status == DraftTree && record.owner == Some(n.revision)
    ensures var c := AddTree(s, n, record, files);
      ContentsAddressed(c) && IdsFit(c) && DraftsPrivate(c)
  {
  }

  lemma AddTreeKeeps(s: Store, n: TreeId, record: Tree, files: set<FileInfo>)
    requires WellFormed(s) && n !in s.trees && UniquePaths(files)
    requires record.hash == HashOf(files)
    requires n.Interned? ==> record == Tree(InternedTree, n.digest, None)
    requires n.Working? ==> record.status == DraftTree && record.owner == Some(n.revision)
    ensures WellFormed(AddTree(s, n, record, files))
  {
    AddTreeListings(s, n, record, files);
    AddTreeEdges(s, n, record, files);
    AddTreeRecords(s, n, record, files);
    var c := AddTree(s, n, record, files);
    assert c.trees == s.trees[n := record];
    hide AddTree, Listing, HashOf, EdgesLive, OneTreeEach, PathsUnique, ContentsAddressed, IdsFit, DraftsPrivate;
    forall t | t in c.trees
      ensures c.trees[t].hash == HashOf(Listing(c, t))
    {
      if t != n {
        assert Listing(c, t) == Listing(s, t);
      }
    }
  }

  lemma SetTreeKeeps(s: Store, r: RevisionId, t: TreeId)
    requires WellFormed(s) && r in s.revisions && t in s.trees
    requires t.Working? ==> t.revision == r
    ensures WellFormed(SetTree(s, r, t))
    ensures Files(SetTree(s, r, t), r) == Listing(s, t)
    ensures TreeOf(SetTree(s, r, t), r) == Some(t)
    ensures forall q | q != r :: Files(SetTree(s, r, t), q) == Files(s, q)
  {
    var c := SetTree(s, r, t);
    SetTreeWellFormed(s, r, t);
    forall u
      ensures Listing(c, u) == Listing(s, u)
    {
    }
    hide Listing;
    assert TreeEdge(r, t) in c.treeEdges;
    assert HasTree(c, r, t);
    forall q | q != r
      ensures Files(c, q) == Files(s, q)
    {
      SameTreeOf(s, c, q);
    }
  }

  /** Changes to tree edges alone keep what files and records keep. */
  lemma SameTreesAndFiles(s: Store, c: Store)
    requires PathsUnique(s) && ContentsAddressed(s) && HashesCurrent(s) && IdsFit(s)
    requires c.trees == s.trees && c.fileEdges == s.fileEdges && c.contents == s.contents
    ensures PathsUnique(c) && ContentsAddressed(c) && HashesCurrent(c) && IdsFit(c)
  {
    assert forall u :: Listing(c, u) == Listing(s, u);
    hide Listing, HashOf;
  }

  lemma SetTreeEdges(s: Store, r: RevisionId, t: TreeId)
    requires EdgesLive(s) && OneTreeEach(s) && DraftsPrivate(s) && r in s.revisions && t in s.trees
    requires t.Working? ==> t.revision == r
    ensures var c := SetTree(s, r, t);
      EdgesLive(c) && OneTreeEach(c) && DraftsPrivate(c)
  {
    var c := SetTree(s, r, t);
    assert TreeEdge(r, t) in c.treeEdges;
    forall q | q in c.revisions
      ensures exists e :: e in c.treeEdges && e.revision == q
    {
      if q != r {
        var e :| e in s.treeEdges && e.revision == q;
        assert e in c.treeEdges;
      }
    }
  }

  lemma SetTreeWellFormed(s: Store, r: RevisionId, t: TreeId)
    requires WellFormed(s) && r in s.revisions && t in s.trees
    requires t.Working? ==> t.revision == r
    ensures WellFormed(SetTree(s, r, t))
  {
    SameTreesAndFiles(s, SetTree(s, r, t));
    SetTreeEdges(s, r, t);
  }

  lemma DeleteTreeListings(s: Store, t: TreeId)
    ensures forall u | u != t :: Listing(DeleteTree(s, t), u) == Listing(s, u)
  {
  }

  lemma DeleteTreeHashes(s: Store, t: TreeId)
    requires HashesCurrent(s)
    ensures HashesCurrent(DeleteTree(s, t))
  {
    DeleteTreeListings(s, t);
    hide Listing, HashOf;
  }

  lemma DeleteTreeEdges(s: Store, t: TreeId)
    requires EdgesLive(s) && OneTreeEach(s) && PathsUnique(s) && forall e :: e in s.treeEdges ==> e.tree != t
    ensures EdgesLive(DeleteTree(s, t)) && OneTreeEach(DeleteTree(s, t)) && PathsUnique(DeleteTree(s, t))
  {
    assert DeleteTree(s, t).treeEdges == s.treeEdges;
  }

  lemma DeleteTreeRecords(s: Store, t: TreeId)
    requires ContentsAddressed(s) && IdsFit(s) && DraftsPrivate(s)
    ensures ContentsAddressed(DeleteTree(s, t)) && IdsFit(DeleteTree(s, t)) && DraftsPrivate(DeleteTree(s, t))
  {
  }

  lemma DeleteTreeWellFormed(s: Store, t: TreeId)
    requires WellFormed(s) && forall e :: e in s.treeEdges ==> e.tree != t
    ensures WellFormed(DeleteTree(s, t))
  {
    hide DeleteTree, EdgesLive, OneTreeEach, PathsUnique, ContentsAddressed, HashesCurrent, IdsFit, DraftsPrivate;
    DeleteTreeHashes(s, t);
    DeleteTreeEdges(s, t);
    DeleteTreeRecords(s, t);
  }

  /** Deleting a tree that no revision has. */
  lemma DeleteTreeKeeps(s: Store, t: TreeId)
    requires WellFormed(s) && forall e :: e in s.treeEdges ==> e.tree != t
    ensures WellFormed(DeleteTree(s, t))
    ensures forall q :: Files(DeleteTree(s, t), q) == Files(s, q)
    ensures forall q :: TreeOf(DeleteTree(s, t), q) == TreeOf(s, q)
  {
    var c := DeleteTree(s, t);
    DeleteTreeWellFormed(s, t);
    DeleteTreeListings(s, t);
    assert c.treeEdges == s.treeEdges;
    hide Listing, HashOf, WellFormed;
    forall q
      ensures TreeOf(c, q) == TreeOf(s, q)
    {
      SameTreeOf(s, c, q);
    }
  }

  /** A revision that shows an interned tree has left nothing under the id of its draft. */
  lemma NoLeftovers(s: Store, r: RevisionId, t: TreeId)
    requires Invariant(s) && HasTree(s, r, t) && t.Interned?
    ensures Working(r) !in s.trees
  {
    assert forall e :: e in s.treeEdges && e.revision == r ==> e.tree == t;
    assert forall e :: e in s.treeEdges && e.tree == Working(r) ==> e.revision == r;
  }

  // ---------------------------------------------------------------------------
  // The operations

  /** What an operation on revision `r` keeps: the invariant, and the files of every other revision. */
  ghost predicate Isolated(s: Store, c: Store, r: RevisionId) {
    && Invariant(c)
    && c.revisions == s.revisions
    && forall q | q != r :: Files(c, q) == Files(s, q)
  }

  /** Give a revision a tree that is not stored yet. */
  lemma MoveToNewTree(s: Store, r: RevisionId, n: TreeId, record: Tree, files: set<FileInfo>)
    requires WellFormed(s) && r in s.revisions && n !in s.trees && UniquePaths(files)
    requires record.hash == HashOf(files)
    requires n.Interned? ==> record == Tree(InternedTree, n.digest, None)
    requires n.Working? ==> record.status == DraftTree && record.owner == Some(n.revision) && n.revision == r
    ensures var c := SetTree(AddTree(s, n, record, files), r, n);
      && WellFormed(c) && c.revisions == s.revisions
      && TreeOf(c, r) == Some(n) && Files(c, r) == files
      && forall q | q != r :: Files(c, q) == Files(s, q)
  {
    var added := AddTree(s, n, record, files);
    AddTreeKeeps(s, n, record, files);
    AddTreeListings(s, n, record, files);
    AddedFiles(s, n, record, files);
    assert added.revisions == s.revisions && added.trees == s.trees[n := record];
    assert SetTree(added, r, n).revisions == added.revisions;
    hide AddTree, SetTree, WellFormed, Listing, Files, HashOf;
    SetTreeKeeps(added, r, n);
  }

  /** Collecting after an operation on revision `r`. */
  lemma CollectIsolated(s: Store, c: Store, r: RevisionId)
    requires WellFormed(c) && c.revisions == s.revisions && forall q | q != r :: Files(c, q) == Files(s, q)
    ensures Isolated(s, Collect(c), r)
    ensures Files(Collect(c), r) == Files(c, r) && TreeOf(Collect(c), r) == TreeOf(c, r)
  {
    assert Collect(c).revisions == c.revisions;
    hide Collect, WellFormed, Invariant, Files;
    CollectKeeps(c);
    CollectTreeOf(c, r);
  }

  /** What the invariant says about the tree of one revision. */
  lemma TreeFacts(s: Store, r: RevisionId, t: TreeId)
    requires WellFormed(s) && HasTree(s, r, t)
    ensures s.trees[t].hash == HashOf(Listing(s, t)) && UniquePaths(Listing(s, t))
    ensures t.Interned? ==> s.trees[t] == Tree(InternedTree, HashOf(Listing(s, t)), None) && t == Interned(HashOf(Listing(s, t)))
    ensures t.Working? ==> s.trees[t].status == DraftTree && s.trees[t].owner == Some(r) && t.revision == r
  {
    ListingUnique(s, t);
    assert TreeEdge(r, t) in s.treeEdges;
    hide Listing, HashOf;
  }

  lemma ReopenSteps(s: Store, r: RevisionId, t: TreeId)
    requires WellFormed(s) && HasTree(s, r, t) && t.Interned?
    ensures r in s.revisions && Files(s, r) == Listing(s, t)
    ensures var record := Tree(DraftTree, HashOf(Listing(s, t)), Some(r));
      EnsureWritable(s, r) == Ok(Collect(SetTree(AddTree(s, Working(r), record, Listing(s, t)), r, Working(r))))
  {
    TreeFacts(s, r, t);
    hide AddTree, SetTree, Listing, HashOf, Collect, WellFormed;
  }

  lemma ReopenKeeps(s: Store, r: RevisionId, t: TreeId)
    requires Invariant(s) && HasTree(s, r, t) && t.Interned?
    ensures EnsureWritable(s, r).Ok?
    ensures var c := EnsureWritable(s, r).value;
      && Isolated(s, c, r)
      && Files(c, r) == Files(s, r)
      && TreeOf(c, r) == Some(Working(r))
  {
    hide EnsureWritable, AddTree, SetTree, Listing, HashOf, Collect, WellFormed, NoOrphans, HasTree, Files, TreeOf, Isolated;
    var files := Listing(s, t);
    var record := Tree(DraftTree, HashOf(files), Some(r));
    ReopenSteps(s, r, t);
    TreeFacts(s, r, t);
    NoLeftovers(s, r, t);
    MoveToNewTree(s, r, Working(r), record, files);
    CollectIsolated(s, SetTree(AddTree(s, Working(r), record, files), r, Working(r)), r);
  }

  /** Opening a tree for writing changes no file, on this revision or on another. */
  lemma EnsureWritableKeeps(s: Store, r: RevisionId)
    requires Invariant(s) && r in s.revisions
    ensures EnsureWritable(s, r).Ok?
    ensures var c := EnsureWritable(s, r).value;
      && Isolated(s, c, r)
      && Files(c, r) == Files(s, r)
      && TreeOf(c, r) == Some(Working(r))
  {
    var t := TreeOfRevision(s, r);
    if t.Interned? {
      ReopenKeeps(s, r, t);
    } else {
      TreeFacts(s, r, t);
    }
  }

  lemma CollectTreeOf(s: Store, r: RevisionId)
    ensures TreeOf(Collect(s), r) == TreeOf(s, r)
  {
    forall e | e in s.treeEdges
      ensures e.tree in s.trees <==> e.tree in Collect(s).trees
    {
      assert e.tree in ShownTrees(s);
    }
    SameTreeOf(s, Collect(s), r);
  }

  /** A tree that no revision has yet changes no files. */
  lemma AddedFiles(s: Store, n: TreeId, record: Tree, files: set<FileInfo>)
    requires n !in s.trees && EdgesLive(s)
    ensures forall q :: Files(AddTree(s, n, record, files), q) == Files(s, q)
  {
    var c := AddTree(s, n, record, files);
    AddTreeListings(s, n, record, files);
    forall q
      ensures Files(c, q) == Files(s, q)
    {
      SameTreeOf(s, c, q);
    }
  }

  /** The tree that interning saves, or finds. */
  function InternedOf(s: Store, t: TreeId, h: TreeDigest): Store {
    var i := Interned(h);
    if i in s.trees && s.trees[i].status == InternedTree then s
    else AddTree(s, i, Tree(InternedTree, h, None), Listing(s, t))
  }

  /** A stored tree named by the hash of some files holds those files. */
  lemma StoredUnderHash(s: Store, files: set<FileInfo>)
    requires WellFormed(s) && UniquePaths(files) && Interned(HashOf(files)) in s.trees
    ensures Listing(s, Interned(HashOf(files))) == files
    ensures s.trees[Interned(HashOf(files))].status == InternedTree
  {
    var i := Interned(HashOf(files));
    ListingUnique(s, i);
    assert s.trees[i].hash == HashOf(Listing(s, i));
    HashIsInjective(files, Listing(s, i));
  }

  lemma InternedOfKeeps(s: Store, t: TreeId, h: TreeDigest)
    requires WellFormed(s) && t in s.trees && h == HashOf(Listing(s, t))
    ensures var c := InternedOf(s, t, h);
      && WellFormed(c) && c.revisions == s.revisions && c.treeEdges == s.treeEdges
      && Interned(h) in c.trees && Listing(c, Interned(h)) == Listing(s, t)
      && (forall u :: u in s.trees ==> u in c.trees && c.trees[u] == s.trees[u])
      && (forall q :: Files(c, q) == Files(s, q))
  {
    var i, files := Interned(h), Listing(s, t);
    ListingUnique(s, t);
    if i in s.trees {
      StoredUnderHash(s, files);
    } else {
      AddTreeKeeps(s, i, Tree(InternedTree, h, None), files);
      AddTreeListings(s, i, Tree(InternedTree, h, None), files);
      AddedFiles(s, i, Tree(InternedTree, h, None), files);
    }
  }

  lemma InternSteps(s: Store, r: RevisionId, t: TreeId)
    requires WellFormed(s) && HasTree(s, r, t)
    ensures r in s.revisions && Files(s, r) == Listing(s, t) && TreeOf(s, r) == Some(t) && t in s.trees
    ensures var h := HashOf(Listing(s, t));
      var saved, i := InternedOf(s, t, h), Interned(h);
      InternTree(s, r) == Ok(Collect(if t == i then saved else DeleteTree(SetTree(saved, r, i), t)))
  {
    hide AddTree, SetTree, DeleteTree, Listing, HashOf, Collect;
    TreeFacts(s, r, t);
  }

  /** After a draft's only revision has moved to another tree, nothing refers to the draft. */
  lemma DraftLeft(s: Store, saved: Store, r: RevisionId, t: TreeId, i: TreeId)
    requires WellFormed(s) && HasTree(s, r, t) && t.Working? && i.Interned? && saved.treeEdges == s.treeEdges
    ensures var moved := SetTree(saved, r, i);
      && moved.revisions == saved.revisions
      && DeleteTree(moved, t).revisions == moved.revisions
      && forall e :: e in moved.treeEdges ==> e.tree != t
  {
    hide HashesCurrent;
    assert TreeEdge(r, t) in s.treeEdges;
  }

  /** Interning changes no file, on this revision or on another, and names the tree by its files. */
  lemma InternKeeps(s: Store, r: RevisionId)
    requires Invariant(s) && r in s.revisions
    ensures InternTree(s, r).Ok?
    ensures var c := InternTree(s, r).value;
      && Isolated(s, c, r)
      && Files(c, r) == Files(s, r)
      && TreeOf(c, r) == Some(Interned(HashOf(Files(s, r))))
  {
    hide InternTree, AddTree, SetTree, DeleteTree, InternedOf, Collect, Listing, HashOf, Files, TreeOf, HasTree, NoOrphans,
      EdgesLive, OneTreeEach, PathsUnique, ContentsAddressed, HashesCurrent, IdsFit, DraftsPrivate, Isolated;
    var t := TreeOfRevision(s, r);
    InternSteps(s, r, t);
    TreeFacts(s, r, t);
    var h := HashOf(Listing(s, t));
    var i := Interned(h);
    var saved := InternedOf(s, t, h);
    InternedOfKeeps(s, t, h);
    if t == i {
      SameTreeEdges(s, saved, r);
      CollectIsolated(s, saved, r);
    } else {
      DraftLeft(s, saved, r, t, i);
      SetTreeKeeps(saved, r, i);
      DeleteTreeKeeps(SetTree(saved, r, i), t);
      CollectIsolated(s, DeleteTree(SetTree(saved, r, i), t), r);
    }
  }

  lemma SameTreeEdges(s: Store, c: Store, r: RevisionId)
    requires EdgesLive(s) && c.revisions == s.revisions && c.treeEdges == s.treeEdges
    requires forall u :: u in s.trees ==> u in c.trees
    ensures TreeOf(c, r) == TreeOf(s, r)
  {
    SameTreeOf(s, c, r);
  }
}
