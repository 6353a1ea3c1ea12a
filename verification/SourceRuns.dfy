/** Batches, patches, creation and discarding keep the store; and so does every run of operations. */
module SourceRuns {
  import opened Prelude
  import opened Interning
  import opened SourceGraph
  import opened SourceGraphProofs
  import opened SourceBatch
  import D = UnifiedDiff

  // ---------------------------------------------------------------------------
  // Batches

  lemma SetFilesListings(s: Store, t: TreeId, files: set<FileInfo>)
    requires t in s.trees
    ensures Listing(SetFiles(s, t, files), t) == files
    ensures forall u | u != t :: Listing(SetFiles(s, t, files), u) == Listing(s, u)
  {
    hide HashOf;
    var c := SetFiles(s, t, files);
    assert forall f :: f in files ==> FileEdge(t, f) in c.fileEdges;
    assert forall f :: f in Listing(c, t) ==> FileEdge(t, f) in c.fileEdges;
    forall u | u != t
      ensures Listing(c, u) == Listing(s, u)
    {
      assert forall f :: f in Listing(c, u) ==> FileEdge(u, f) in c.fileEdges;
      assert forall f :: f in Listing(s, u) ==> FileEdge(u, f) in s.fileEdges;
    }
  }

  lemma SetFilesEdges(s: Store, t: TreeId, files: set<FileInfo>)
    requires t in s.trees && EdgesLive(s) && OneTreeEach(s) && PathsUnique(s) && UniquePaths(files)
    ensures var c := SetFiles(s, t, files); EdgesLive(c) && OneTreeEach(c) && PathsUnique(c)
  {
    hide HashOf;
  }

  lemma SetFilesRecords(s: Store, r: RevisionId, files: set<FileInfo>)
    requires Working(r) in s.trees && ContentsAddressed(s) && IdsFit(s) && DraftsPrivate(s)
    ensures var c := SetFiles(s, Working(r), files); ContentsAddressed(c) && IdsFit(c) && DraftsPrivate(c)
  {
    hide HashOf;
  }

  lemma SetFilesHashes(s: Store, t: TreeId, files: set<FileInfo>)
    requires t in s.trees && HashesCurrent(s)
    ensures HashesCurrent(SetFiles(s, t, files))
  {
    hide Listing, HashOf;
    SetFilesListings(s, t, files);
  }

  lemma SetFilesWellFormed(s: Store, r: RevisionId, files: set<FileInfo>)
    requires WellFormed(s) && Working(r) in s.trees && UniquePaths(files)
    ensures WellFormed(SetFiles(s, Working(r), files))
  {
    hide SetFiles, EdgesLive, OneTreeEach, PathsUnique, ContentsAddressed, HashesCurrent, IdsFit, DraftsPrivate;
    SetFilesEdges(s, Working(r), files);
    SetFilesRecords(s, r, files);
    SetFilesHashes(s, Working(r), files);
  }

  lemma SetFilesTrees(s: Store, r: RevisionId, files: set<FileInfo>)
    requires WellFormed(s) && Working(r) in s.trees
    ensures SetFiles(s, Working(r), files).revisions == s.revisions
    ensures forall q :: TreeOf(SetFiles(s, Working(r), files), q) == TreeOf(s, q)
    ensures forall q | q != r :: TreeOf(s, q) != Some(Working(r))
  {
    hide HashOf, HashesCurrent, Edges, SaveContents;
    forall q
      ensures TreeOf(SetFiles(s, Working(r), files), q) == TreeOf(s, q)
    {
      SameTreeOf(s, SetFiles(s, Working(r), files), q);
    }
    forall q | q != r
      ensures TreeOf(s, q) != Some(Working(r))
    {
      assert HasTree(s, q, Working(r)) ==> TreeEdge(q, Working(r)) in s.treeEdges;
    }
  }

  lemma SetFilesKeeps(s: Store, r: RevisionId, files: set<FileInfo>)
    requires WellFormed(s) && UniquePaths(files) && Working(r) in s.trees && TreeOf(s, r) == Some(Working(r))
    ensures var c := SetFiles(s, Working(r), files);
      && WellFormed(c) && c.revisions == s.revisions
      && TreeOf(c, r) == Some(Working(r)) && Files(c, r) == files
      && forall q | q != r :: Files(c, q) == Files(s, q)
  {
    hide SetFiles, WellFormed, Listing, TreeOf;
    SetFilesWellFormed(s, r, files);
    SetFilesTrees(s, r, files);
    SetFilesListings(s, Working(r), files);
  }

  lemma BatchSteps(s: Store, r: RevisionId, changes: seq<Change>, expected: Option<TreeDigest>)
    requires Invariant(s) && r in s.revisions
    ensures TreeOf(s, r).Some? && HasTree(s, r, TreeOf(s, r).value) && Files(s, r) == Listing(s, TreeOf(s, r).value)
    ensures EnsureWritable(s, r).Ok? && Working(r) in EnsureWritable(s, r).value.trees
    ensures TreeOf(EnsureWritable(s, r).value, r) == Some(Working(r))
    ensures var t := TreeOf(s, r).value;
      BatchUpdate(s, r, changes, expected) ==
        if expected.Some? && s.trees[t].hash != expected.value then Err(TreeConflict)
        else if BatchFiles(Files(s, r), changes).Err? then Err(BatchFiles(Files(s, r), changes).error)
        else Ok(Collect(SetFiles(EnsureWritable(s, r).value, Working(r), BatchFiles(Files(s, r), changes).value)))
  {
    hide EnsureWritable, BatchFiles, Listing, Collect, SetFiles, HashOf, HasTree, TreeOf, NoOrphans,
      EdgesLive, OneTreeEach, PathsUnique, ContentsAddressed, HashesCurrent, IdsFit, DraftsPrivate;
    var t := TreeOfRevision(s, r);
    WritableTree(s, r);
  }

  lemma WritableTree(s: Store, r: RevisionId)
    requires Invariant(s) && r in s.revisions
    ensures EnsureWritable(s, r).Ok? && Working(r) in EnsureWritable(s, r).value.trees
    ensures TreeOf(EnsureWritable(s, r).value, r) == Some(Working(r))
  {
    hide EnsureWritable, Files, Invariant;
    EnsureWritableKeeps(s, r);
    var c := EnsureWritable(s, r).value;
    assert HasTree(c, r, Working(r));
  }

  /** A batch changes the files of its own revision only, to what the changes make of them; refused, it changes nothing. */
  lemma BatchKeeps(s: Store, r: RevisionId, changes: seq<Change>, expected: Option<TreeDigest>)
    requires Invariant(s) && r in s.revisions
    ensures BatchUpdate(s, r, changes, expected).Ok? <==>
      && (expected.Some? ==> HashOf(Files(s, r)) == expected.value)
      && BatchFiles(Files(s, r), changes).Ok?
    ensures BatchUpdate(s, r, changes, expected).Ok? ==>
      var c := BatchUpdate(s, r, changes, expected).value;
      && Isolated(s, c, r)
      && BatchFiles(Files(s, r), changes) == Ok(Files(c, r))
      && TreeOf(c, r) == Some(Working(r))
  {
    hide BatchUpdate, EnsureWritable, BatchFiles, Collect, SetFiles, Listing, Files, HashOf, HasTree,
      EdgesLive, OneTreeEach, PathsUnique, ContentsAddressed, HashesCurrent, IdsFit, DraftsPrivate, NoOrphans, TreeOf;
    BatchSteps(s, r, changes, expected);
    TreeFacts(s, r, TreeOf(s, r).value);
    if BatchFiles(Files(s, r), changes).Ok? {
      var files := BatchFiles(Files(s, r), changes).value;
      var ready := EnsureWritable(s, r).value;
      EnsureWritableKeeps(s, r);
      BatchUnique(Files(s, r), changes);
      SetFilesKeeps(ready, r, files);
      CollectIsolated(s, SetFiles(ready, Working(r), files), r);
    }
  }

  lemma BatchUnique(files: set<FileInfo>, changes: seq<Change>)
    requires UniquePaths(files) && BatchFiles(files, changes).Ok?
    ensures UniquePaths(BatchFiles(files, changes).value)
  {
    hide ApplyChanges, Validate;
    ApplyChangesUnique(files, changes);
  }

  // ---------------------------------------------------------------------------
  // A store is what its revisions show

  lemma TreeEdgesWithin(s: Store, c: Store)
    requires EdgesLive(s) && OneTreeEach(s)
    requires forall r | r in s.revisions :: TreeOf(s, r) == TreeOf(c, r)
    ensures s.treeEdges <= c.treeEdges
  {
    forall e | e in s.treeEdges
      ensures e in c.treeEdges
    {
      EdgeIsTree(s, e);
      assert TreeOf(c, e.revision) == Some(e.tree);
    }
  }

  lemma EdgeIsTree(s: Store, e: TreeEdge)
    requires EdgesLive(s) && OneTreeEach(s) && e in s.treeEdges
    ensures e.revision in s.revisions && TreeOf(s, e.revision) == Some(e.tree)
  {
    assert HasTree(s, e.revision, e.tree);
  }

  lemma TreesAgree(s: Store, c: Store)
    requires Invariant(s) && Invariant(c) && s.revisions == c.revisions
    requires forall r | r in s.revisions :: TreeOf(s, r) == TreeOf(c, r)
    ensures s.treeEdges == c.treeEdges && s.trees.Keys == c.trees.Keys
  {
    hide HashesCurrent, PathsUnique, ContentsAddressed, IdsFit, DraftsPrivate, TreeOf, OneTreeEach;
    TreeEdgesWithin(s, c);
    TreeEdgesWithin(c, s);
  }

  lemma ListingsAgree(s: Store, c: Store, t: TreeId)
    requires Invariant(s) && s.treeEdges == c.treeEdges && s.trees.Keys == c.trees.Keys && s.revisions == c.revisions
    requires forall r | r in s.revisions :: Files(s, r) == Files(c, r)
    requires t in s.trees
    ensures Listing(s, t) == Listing(c, t)
  {
    hide HashesCurrent, PathsUnique, ContentsAddressed, IdsFit, DraftsPrivate, Listing;
    var e :| e in s.treeEdges && e.tree == t;
    var r := e.revision;
    assert HasTree(s, r, t) && HasTree(c, r, t);
    assert Files(s, r) == Listing(s, t) && Files(c, r) == Listing(c, t);
  }

  lemma FileEdgesAgree(s: Store, c: Store)
    requires EdgesLive(s) && EdgesLive(c) && s.trees.Keys == c.trees.Keys
    requires forall t | t in s.trees :: Listing(s, t) == Listing(c, t)
    ensures s.fileEdges == c.fileEdges
  {
    forall e | e in s.fileEdges
      ensures e in c.fileEdges
    {
      assert e.file in Listing(s, e.tree);
    }
    forall e | e in c.fileEdges
      ensures e in s.fileEdges
    {
      assert e.file in Listing(c, e.tree);
    }
  }

  lemma RecordsAgree(s: Store, c: Store)
    requires Invariant(s) && Invariant(c) && s.trees.Keys == c.trees.Keys && s.fileEdges == c.fileEdges
    requires forall t | t in s.trees :: Listing(s, t) == Listing(c, t)
    ensures s.trees == c.trees && s.contents == c.contents
  {
    hide HashOf, Listing, PathsUnique, DraftsPrivate, OneTreeEach;
    forall t | t in s.trees
      ensures s.trees[t] == c.trees[t]
    {
      assert s.trees[t].hash == HashOf(Listing(s, t)) == c.trees[t].hash;
    }
    assert s.contents.Keys == c.contents.Keys;
  }

  /** Nothing is stored beside what the revisions show: the trees and files of the revisions determine the store. */
  lemma SameFilesSameStore(s: Store, c: Store)
    requires Invariant(s) && Invariant(c) && s.revisions == c.revisions
    requires forall r | r in s.revisions :: TreeOf(s, r) == TreeOf(c, r) && Files(s, r) == Files(c, r)
    ensures s == c
  {
    hide Listing, Files, TreeOf, EdgesLive, OneTreeEach, PathsUnique, ContentsAddressed, HashesCurrent, IdsFit,
      DraftsPrivate, NoOrphans;
    TreesAgree(s, c);
    forall t | t in s.trees
      ensures Listing(s, t) == Listing(c, t)
    {
      ListingsAgree(s, c, t);
    }
    FileEdgesAgree(s, c);
    RecordsAgree(s, c);
  }

  // ---------------------------------------------------------------------------
  // Interning and reopening

  /** Interning twice is interning once. */
  lemma InternTwice(s: Store, r: RevisionId)
    requires Invariant(s) && r in s.revisions
    ensures InternTree(s, r).Ok?
    ensures InternTree(InternTree(s, r).value, r) == InternTree(s, r)
  {
    hide InternTree, Files, TreeOf, WellFormed, NoOrphans, HashOf;
    InternKeeps(s, r);
    var c := InternTree(s, r).value;
    InternKeeps(c, r);
    var d := InternTree(c, r).value;
    forall q | q in c.revisions
      ensures TreeOf(d, q) == TreeOf(c, q) && Files(d, q) == Files(c, q)
    {
      if q != r {
        InternTreeOthers(c, r, q);
      }
    }
    SameFilesSameStore(d, c);
  }

  /** Opening an interned tree and interning it again, with nothing written between, restores the whole store. */
  lemma ReopenThenIntern(s: Store, r: RevisionId, t: TreeId)
    requires Invariant(s) && HasTree(s, r, t) && t.Interned?
    ensures EnsureWritable(s, r).Ok? && InternTree(EnsureWritable(s, r).value, r) == Ok(s)
  {
    hide InternTree, EnsureWritable, Files, Listing, WellFormed, NoOrphans, HashOf;
    assert r in s.revisions && TreeOf(s, r) == Some(t);
    TreeFacts(s, r, t);
    InternedName(s, r, t);
    EnsureWritableKeeps(s, r);
    var c := EnsureWritable(s, r).value;
    InternKeeps(c, r);
    var d := InternTree(c, r).value;
    forall q | q in s.revisions
      ensures TreeOf(d, q) == TreeOf(s, q) && Files(d, q) == Files(s, q)
    {
      if q != r {
        EnsureWritableOthers(s, r, q);
        InternTreeOthers(c, r, q);
      }
    }
    SameFilesSameStore(d, s);
  }

  lemma InternedName(s: Store, r: RevisionId, t: TreeId)
    requires WellFormed(s) && HasTree(s, r, t) && t.Interned?
    ensures t == Interned(HashOf(Files(s, r)))
  {
    hide Listing, HashOf;
    TreeFacts(s, r, t);
  }

  /** Revisions with interned trees share a tree exactly when they show the same files. */
  lemma SharedIffSameFiles(s: Store, r: RevisionId, q: RevisionId, t: TreeId, u: TreeId)
    requires Invariant(s) && HasTree(s, r, t) && HasTree(s, q, u) && t.Interned? && u.Interned?
    ensures t == u <==> Files(s, r) == Files(s, q)
  {
    hide HashOf, NoOrphans;
    InternedName(s, r, t);
    InternedName(s, q, u);
  }

  // Other revisions keep their tree, not only their files.

  lemma SetTreeOther(s: Store, r: RevisionId, t: TreeId, q: RevisionId)
    requires q != r
    ensures TreeOf(SetTree(s, r, t), q) == TreeOf(s, q)
  {
    SameTreeOf(s, SetTree(s, r, t), q);
  }

  lemma AddTreeOther(s: Store, n: TreeId, record: Tree, files: set<FileInfo>, q: RevisionId)
    requires EdgesLive(s)
    ensures TreeOf(AddTree(s, n, record, files), q) == TreeOf(s, q)
  {
    hide Edges, SaveContents;
    SameTreeOf(s, AddTree(s, n, record, files), q);
  }

  lemma EnsureWritableOthers(s: Store, r: RevisionId, q: RevisionId)
    requires Invariant(s) && r in s.revisions && q != r && EnsureWritable(s, r).Ok?
    ensures TreeOf(EnsureWritable(s, r).value, q) == TreeOf(s, q)
  {
    hide TreeOf, AddTree, SetTree, Listing, Collect, HashOf, NoOrphans, OneTreeEach, PathsUnique, ContentsAddressed,
      HashesCurrent, IdsFit, DraftsPrivate;
    if TreeOf(s, r).Some? {
      var t, w := TreeOf(s, r).value, Working(r);
      var record := Tree(DraftTree, s.trees[t].hash, Some(r));
      var added := AddTree(s, w, record, Listing(s, t));
      AddTreeOther(s, w, record, Listing(s, t), q);
      SetTreeOther(added, r, w, q);
      CollectTreeOf(SetTree(added, r, w), q);
    }
  }

  lemma InternTreeOthers(s: Store, r: RevisionId, q: RevisionId)
    requires Invariant(s) && r in s.revisions && q != r && InternTree(s, r).Ok?
    ensures TreeOf(InternTree(s, r).value, q) == TreeOf(s, q)
  {
    hide InternTree, TreeOf, AddTree, SetTree, DeleteTree, Listing, Collect, HashOf, NoOrphans, HasTree,
      OneTreeEach, PathsUnique, ContentsAddressed, HashesCurrent, IdsFit, DraftsPrivate, InternedOf;
    var t := TreeOfRevision(s, r);
    InternSteps(s, r, t);
    TreeFacts(s, r, t);
    var h := HashOf(Listing(s, t));
    var i, saved := Interned(h), InternedOf(s, t, h);
    InternedOfOther(s, t, h, q);
    if t == i {
      CollectTreeOf(saved, q);
    } else {
      InternedOfKeeps(s, t, h);
      DraftLeft(s, saved, r, t, i);
      SetTreeKeeps(saved, r, i);
      SetTreeOther(saved, r, i, q);
      DeleteTreeKeeps(SetTree(saved, r, i), t);
      CollectTreeOf(DeleteTree(SetTree(saved, r, i), t), q);
    }
  }

  lemma InternedOfOther(s: Store, t: TreeId, h: TreeDigest, q: RevisionId)
    requires EdgesLive(s)
    ensures TreeOf(InternedOf(s, t, h), q) == TreeOf(s, q)
  {
    hide TreeOf, AddTree, EdgesLive;
    AddTreeOther(s, Interned(h), Tree(InternedTree, h, None), Listing(s, t), q);
  }

  // ---------------------------------------------------------------------------
  // Creation and discarding

  /** One more revision, with an edge to a stored tree. */
  function WithRevision(s: Store, r: RevisionId, t: TreeId): Store {
    s.(revisions := s.revisions + {r}, treeEdges := s.treeEdges + {TreeEdge(r, t)})
  }

  lemma WithRevisionKeeps(s: Store, r: RevisionId, t: TreeId)
    requires WellFormed(s) && r !in s.revisions && t in s.trees && t.Interned?
    ensures var c := WithRevision(s, r, t);
      && WellFormed(c) && c.revisions == s.revisions + {r}
      && TreeOf(c, r) == Some(t) && Files(c, r) == Listing(s, t)
      && forall q | q != r :: TreeOf(c, q) == TreeOf(s, q) && Files(c, q) == Files(s, q)
  {
    hide HashOf, Listing, TreeOf, EdgesLive, OneTreeEach, PathsUnique, ContentsAddressed, HashesCurrent, IdsFit, DraftsPrivate;
    var c := WithRevision(s, r, t);
    SameTreesAndFiles(s, c);
    SameListings(s, c);
    NewEdgeKeeps(s, r, t);
  }

  lemma SameListings(s: Store, c: Store)
    requires c.fileEdges == s.fileEdges
    ensures forall u :: Listing(c, u) == Listing(s, u)
  {
  }

  /** A child that copies the edge of an interned tree shows its parent's files; nothing else changes. */
  lemma CreateFromParent(s: Store, r: RevisionId, p: RevisionId, t: TreeId)
    requires Invariant(s) && r !in s.revisions && HasTree(s, p, t) && t.Interned?
    ensures var c := CreateRevision(s, r, Some(p));
      && Invariant(c) && c.revisions == s.revisions + {r}
      && TreeOf(c, r) == Some(t) && Files(c, r) == Files(s, p)
      && forall q | q != r :: TreeOf(c, q) == TreeOf(s, q) && Files(c, q) == Files(s, q)
  {
    hide CreateRevision, Listing, HashOf, WellFormed;
    CopiedEdge(s, r, p, t);
    WithRevisionKeeps(s, r, t);
    assert TreeOf(s, p) == Some(t);
    assert forall e :: e in s.treeEdges ==> e in WithRevision(s, r, t).treeEdges;
  }

  lemma CopiedEdge(s: Store, r: RevisionId, p: RevisionId, t: TreeId)
    requires HasTree(s, p, t)
    ensures CreateRevision(s, r, Some(p)) == WithRevision(s, r, t)
  {
    var copied := set e | e in s.treeEdges && e.revision == p :: TreeEdge(r, e.tree);
    assert TreeEdge(p, t) in s.treeEdges;
    assert copied == {TreeEdge(r, t)};
  }

  lemma NewEdgeKeeps(s: Store, r: RevisionId, t: TreeId)
    requires EdgesLive(s) && OneTreeEach(s) && DraftsPrivate(s) && r !in s.revisions && t in s.trees && t.Interned?
    ensures var c := WithRevision(s, r, t);
      && EdgesLive(c) && OneTreeEach(c) && DraftsPrivate(c)
      && TreeOf(c, r) == Some(t)
      && forall q | q != r :: TreeOf(c, q) == TreeOf(s, q)
  {
    var c := WithRevision(s, r, t);
    assert TreeEdge(r, t) in c.treeEdges;
    assert HasTree(c, r, t);
    forall q | q in c.revisions
      ensures exists e :: e in c.treeEdges && e.revision == q
    {
      if q != r {
        var e :| e in s.treeEdges && e.revision == q;
        assert e in c.treeEdges;
      }
    }
    forall q | q != r
      ensures TreeOf(c, q) == TreeOf(s, q)
    {
      SameTreeOf(s, c, q);
    }
  }

  /** The edge is copied as it is: a parent that shows a draft ends up sharing it with its child. */
  lemma CreateFromDraft(s: Store, r: RevisionId, p: RevisionId)
    requires Invariant(s) && r !in s.revisions && HasTree(s, p, Working(p))
    ensures var c := CreateRevision(s, r, Some(p));
      !Invariant(c) && TreeOf(c, r) == Some(Working(p)) && TreeOf(c, p) == Some(Working(p))
  {
    hide HashOf, HashesCurrent, PathsUnique, ContentsAddressed, IdsFit;
    var c := CreateRevision(s, r, Some(p));
    CopiedEdge(s, r, p, Working(p));
    assert TreeEdge(r, Working(p)) in c.treeEdges;
    assert HasTree(c, r, Working(p)) && HasTree(c, p, Working(p));
  }

  /** Creating from a parent keeps the store sound exactly when the parent shows an interned tree. */
  lemma CreateKeepsIff(s: Store, r: RevisionId, p: RevisionId, t: TreeId)
    requires Invariant(s) && r !in s.revisions && HasTree(s, p, t)
    ensures Invariant(CreateRevision(s, r, Some(p))) <==> s.trees[t].status == InternedTree
  {
    hide CreateRevision, NoOrphans, HashesCurrent, PathsUnique, ContentsAddressed, Listing, HashOf;
    if t.Interned? {
      CreateFromParent(s, r, p, t);
    } else {
      assert TreeEdge(p, t) in s.treeEdges;
      CreateFromDraft(s, r, p);
    }
  }

  /** With a draft shared in that way, what is written to the child is written to the parent. */
  lemma SharedDraftLeaks(s: Store, r: RevisionId, p: RevisionId, changes: seq<Change>)
    requires Invariant(s) && r !in s.revisions && HasTree(s, p, Working(p))
    requires BatchFiles(Files(s, p), changes).Ok?
    ensures var c := CreateRevision(s, r, Some(p));
      && BatchUpdate(c, r, changes, None).Ok?
      && Files(BatchUpdate(c, r, changes, None).value, p) == BatchFiles(Files(s, p), changes).value
  {
    hide BatchFiles, HashOf;
    var c, w := CreateRevision(s, r, Some(p)), Working(p);
    CreateFromDraft(s, r, p);
    CopiedEdge(s, r, p, w);
    assert s.trees[w].status == DraftTree && c.trees == s.trees;
    assert Listing(c, w) == Listing(s, w) == Files(s, p);
    WriteThrough(c, r, p, w, changes);
  }

  lemma WriteThrough(c: Store, r: RevisionId, p: RevisionId, w: TreeId, changes: seq<Change>)
    requires TreeOf(c, r) == Some(w) && TreeOf(c, p) == Some(w) && c.trees[w].status == DraftTree
    requires BatchFiles(Listing(c, w), changes).Ok?
    ensures BatchUpdate(c, r, changes, None).Ok?
    ensures Files(BatchUpdate(c, r, changes, None).value, p) == BatchFiles(Listing(c, w), changes).value
  {
    hide BatchFiles, HashOf, Listing, Collect;
    var files := BatchFiles(Listing(c, w), changes).value;
    var d := SetFiles(c, w, files);
    SetFilesListings(c, w, files);
    CollectFiles(d, p);
    SameTreeOf(c, d, p);
  }

  lemma CreateEmpty(s: Store, r: RevisionId)
    requires Invariant(s) && r !in s.revisions
    ensures var c := CreateRevision(s, r, None);
      && Invariant(c) && c.revisions == s.revisions + {r}
      && TreeOf(c, r) == Some(Interned(HashOf({}))) && Files(c, r) == {}
      && forall q | q != r :: TreeOf(c, q) == TreeOf(s, q) && Files(c, q) == Files(s, q)
  {
    hide CreateRevision, AddTree, Listing, HashOf, TreeOf, Files,
      EdgesLive, OneTreeEach, PathsUnique, ContentsAddressed, HashesCurrent, IdsFit, DraftsPrivate, NoOrphans;
    var i := Interned(HashOf({}));
    var base := WithEmptyTree(s);
    EmptyTreeKeeps(s);
    CreateEmptySteps(s, r);
    WithRevisionKeeps(base, r, i);
    EmptyShown(s, r);
  }

  /** The store with the interned empty tree. */
  ghost function WithEmptyTree(s: Store): Store {
    var i := Interned(HashOf({}));
    if i in s.trees then s else AddTree(s, i, Tree(InternedTree, HashOf({}), None), {})
  }

  lemma AddEmptyTree(s: Store, record: Tree, i: TreeId)
    ensures AddTree(s, i, record, {}) == s.(trees := s.trees[i := record])
  {
    assert SaveContents(s.contents, {}) == s.contents;
    assert Edges(i, {}) == {};
  }

  lemma CreateEmptySteps(s: Store, r: RevisionId)
    requires EdgesLive(s) && r !in s.revisions
    ensures CreateRevision(s, r, None) == WithRevision(WithEmptyTree(s), r, Interned(HashOf({})))
  {
    hide AddTree, HashOf, Listing;
    AddEmptyTree(s, Tree(InternedTree, HashOf({}), None), Interned(HashOf({})));
    assert (set e | e in s.treeEdges && e.revision != r) == s.treeEdges;
  }

  lemma EmptyTreeKeeps(s: Store)
    requires Invariant(s)
    ensures WellFormed(WithEmptyTree(s)) && WithEmptyTree(s).revisions == s.revisions
    ensures Interned(HashOf({})) in WithEmptyTree(s).trees && Listing(WithEmptyTree(s), Interned(HashOf({}))) == {}
    ensures forall q :: TreeOf(WithEmptyTree(s), q) == TreeOf(s, q) && Files(WithEmptyTree(s), q) == Files(s, q)
  {
    hide AddTree, Listing, HashOf, TreeOf, Files, OneTreeEach, PathsUnique, ContentsAddressed, HashesCurrent, IdsFit,
      DraftsPrivate, NoOrphans;
    var i := Interned(HashOf({}));
    var record := Tree(InternedTree, HashOf({}), None);
    AddEmptyTree(s, record, i);
    if i in s.trees {
      StoredUnderHash(s, {});
    } else {
      AddTreeKeeps(s, i, record, {});
      AddTreeListings(s, i, record, {});
      AddedFiles(s, i, record, {});
      forall q
        ensures TreeOf(WithEmptyTree(s), q) == TreeOf(s, q)
      {
        AddTreeOther(s, i, record, {}, q);
      }
    }
  }

  lemma EmptyShown(s: Store, r: RevisionId)
    requires NoOrphans(s)
    ensures NoOrphans(WithRevision(WithEmptyTree(s), r, Interned(HashOf({}))))
  {
    hide HashOf, AddTree;
    var i := Interned(HashOf({}));
    AddEmptyTree(s, Tree(InternedTree, HashOf({}), None), i);
    var c := WithRevision(WithEmptyTree(s), r, i);
    assert TreeEdge(r, i) in c.treeEdges;
    assert forall e :: e in s.treeEdges ==> e in c.treeEdges;
  }

  // ---------------------------------------------------------------------------

  /** Without a revision and its edges. */
  function RemoveRevision(s: Store, r: RevisionId): Store {
    s.(revisions := s.revisions - {r}, treeEdges := set e | e in s.treeEdges && e.revision != r)
  }

  lemma RemoveRevisionKeeps(s: Store, r: RevisionId)
    requires WellFormed(s)
    ensures WellFormed(RemoveRevision(s, r))
    ensures forall q | q != r :: TreeOf(RemoveRevision(s, r), q) == TreeOf(s, q) && Files(RemoveRevision(s, r), q) == Files(s, q)
  {
    hide HashOf;
    var c := RemoveRevision(s, r);
    SameTreesAndFiles(s, c);
    assert forall u :: Listing(c, u) == Listing(s, u);
    RemoveRevisionEdges(s, r);
    forall q | q != r
      ensures TreeOf(c, q) == TreeOf(s, q)
    {
      SameTreeOf(s, c, q);
    }
  }

  lemma RemoveRevisionEdges(s: Store, r: RevisionId)
    requires EdgesLive(s) && OneTreeEach(s) && DraftsPrivate(s)
    ensures EdgesLive(RemoveRevision(s, r)) && OneTreeEach(RemoveRevision(s, r)) && DraftsPrivate(RemoveRevision(s, r))
  {
    forall q | q in RemoveRevision(s, r).revisions
      ensures exists e :: e in RemoveRevision(s, r).treeEdges && e.revision == q
    {
      var e :| e in s.treeEdges && e.revision == q;
      assert e in RemoveRevision(s, r).treeEdges;
    }
  }

  lemma DiscardSteps(s: Store, r: RevisionId, t: TreeId)
    requires WellFormed(s) && HasTree(s, r, t)
    ensures DiscardRevision(s, r) ==
      Ok(Collect(if t.Working? then DeleteTree(RemoveRevision(s, r), t) else RemoveRevision(s, r)))
    ensures t.Working? ==> forall e :: e in RemoveRevision(s, r).treeEdges ==> e.tree != t
    ensures DeleteTree(RemoveRevision(s, r), t).revisions == RemoveRevision(s, r).revisions == s.revisions - {r}
  {
    hide Collect, HashOf, Listing;
    TreeFacts(s, r, t);
  }

  /** Discarding a revision changes no other revision, and leaves nothing of it behind. */
  lemma DiscardKeeps(s: Store, r: RevisionId)
    requires Invariant(s) && r in s.revisions
    ensures DiscardRevision(s, r).Ok?
    ensures var c := DiscardRevision(s, r).value;
      && Invariant(c) && c.revisions == s.revisions - {r}
      && forall q | q != r :: TreeOf(c, q) == TreeOf(s, q) && Files(c, q) == Files(s, q)
  {
    hide DiscardRevision, DeleteTree, RemoveRevision, Collect, HashOf, Listing, NoOrphans, HasTree, TreeOf, Files,
      EdgesLive, OneTreeEach, PathsUnique, ContentsAddressed, HashesCurrent, IdsFit, DraftsPrivate;
    var t := TreeOfRevision(s, r);
    DiscardSteps(s, r, t);
    RemoveRevisionKeeps(s, r);
    var cut := RemoveRevision(s, r);
    if t.Working? {
      DeleteTreeKeeps(cut, t);
    }
    var dropped := if t.Working? then DeleteTree(cut, t) else cut;
    CollectRevisions(dropped);
    CollectKeeps(dropped);
    forall q | q != r
      ensures TreeOf(Collect(dropped), q) == TreeOf(s, q)
    {
      CollectTreeOf(dropped, q);
    }
  }

  lemma CollectRevisions(s: Store)
    ensures Collect(s).revisions == s.revisions
  {
  }

  /** So it does when the parent shows a draft: the tree that both share stays, as it is the parent's. */
  lemma CreateThenDiscardOnDraft(s: Store, r: RevisionId, p: RevisionId)
    requires Invariant(s) && r !in s.revisions && HasTree(s, p, Working(p))
    ensures DiscardRevision(CreateRevision(s, r, Some(p)), r) == Ok(s)
  {
    hide HashOf, Listing, HashesCurrent, PathsUnique, ContentsAddressed, Collect, NoOrphans;
    CreateFromDraft(s, r, p);
    CopiedEdge(s, r, p, Working(p));
    var c := CreateRevision(s, r, Some(p));
    assert p != r;
    assert c.trees == s.trees;
    assert s.trees[Working(p)].owner == Some(p);
    assert (set e | e in c.treeEdges && e.revision != r) == s.treeEdges;
    assert c.revisions - {r} == s.revisions;
    assert DiscardRevision(c, r) == Ok(Collect(s));
    NothingToCollect(s);
  }

  lemma NothingToCollect(s: Store)
    requires Invariant(s)
    ensures Collect(s) == s
  {
    hide HashOf, HashesCurrent, PathsUnique, IdsFit, Listing;
    var c := Collect(s);
    assert c.trees == s.trees && c.contents == s.contents;
  }

  /** Creating a revision and discarding it restores the whole store. */
  lemma CreateThenDiscard(s: Store, r: RevisionId, parent: Option<RevisionId>)
    requires Invariant(s) && r !in s.revisions
    requires parent.Some? ==> exists t :: HasTree(s, parent.value, t) && t.Interned?
    ensures DiscardRevision(CreateRevision(s, r, parent), r) == Ok(s)
  {
    hide CreateRevision, DiscardRevision, HashOf, Listing, NoOrphans, TreeOf, Files,
      EdgesLive, OneTreeEach, PathsUnique, ContentsAddressed, HashesCurrent, IdsFit, DraftsPrivate;
    if parent.Some? {
      var t :| HasTree(s, parent.value, t) && t.Interned?;
      CreateFromParent(s, r, parent.value, t);
    } else {
      CreateEmpty(s, r);
    }
    var c := CreateRevision(s, r, parent);
    DiscardKeeps(c, r);
    SameFilesSameStore(DiscardRevision(c, r).value, s);
  }

  // ---------------------------------------------------------------------------
  // Patches

  ghost function ApplySourcePatch(s: Store, r: RevisionId, path: string, patch: seq<D.PatchLine>,
                                  expected: Option<ContentId>): Result<Store, SourceError>
  {
    match TreeOf(s, r)
    case None => Err(UnknownRevision)
    case Some(t) =>
      match At(Listing(s, t), path)
      case None => Err(PathMissing(path))
      case Some(f) =>
        if expected.Some? && f.content != expected.value then
          Err(SourceConflict(path))
        else
          match D.ApplyPatch(D.SplitLines(f.content.text), patch)
          case Err(_) => Err(PatchRefused)
          case Ok(lines) =>
            BatchUpdate(s, r, [Write(path, Some(D.Join(lines)), f.role, f.language, Some(f.content))], None)
  }

  /** A patch replaces the text of one existing file, and keeps its role and language and every other file. */
  lemma PatchKeeps(s: Store, r: RevisionId, path: string, patch: seq<D.PatchLine>, expected: Option<ContentId>)
    requires Invariant(s) && r in s.revisions
    ensures var f := At(Files(s, r), path);
      ApplySourcePatch(s, r, path, patch, expected).Ok? <==>
        && f.Some?
        && (expected.Some? ==> f.value.content == expected.value)
        && D.ApplyPatch(D.SplitLines(f.value.content.text), patch).Ok?
    ensures ApplySourcePatch(s, r, path, patch, expected).Ok? ==>
      var c, f := ApplySourcePatch(s, r, path, patch, expected).value, At(Files(s, r), path).value;
      var text := D.Join(D.ApplyPatch(D.SplitLines(f.content.text), patch).value);
      && Isolated(s, c, r)
      && Files(c, r) == Without(Files(s, r), path) + {f.(content := ContentId(text))}
  {
    hide BatchUpdate, D.ApplyPatch, D.SplitLines, D.Join, Listing, HashOf, WellFormed, NoOrphans, Isolated;
    TreeShown(s, r);
    var f := At(Files(s, r), path);
    if f.Some? && D.ApplyPatch(D.SplitLines(f.value.content.text), patch).Ok? {
      var text := D.Join(D.ApplyPatch(D.SplitLines(f.value.content.text), patch).value);
      var write := Write(path, Some(text), f.value.role, f.value.language, Some(f.value.content));
      BatchKeeps(s, r, [write], None);
      SingleBatch(Files(s, r), write);
    }
  }

  lemma TreeShown(s: Store, r: RevisionId)
    requires Invariant(s) && r in s.revisions
    ensures TreeOf(s, r).Some? && Files(s, r) == Listing(s, TreeOf(s, r).value)
  {
    hide Listing, HashOf;
    var t := TreeOfRevision(s, r);
  }

  // ---------------------------------------------------------------------------
  // Runs

  datatype Op =
    | Create(revision: RevisionId, parent: Option<RevisionId>)
    | Open(revision: RevisionId)
    | Intern(revision: RevisionId)
    | Batch(revision: RevisionId, changes: seq<Change>, expectedTree: Option<TreeDigest>)
    | Patch(revision: RevisionId, path: string, patch: seq<D.PatchLine>, expected: Option<ContentId>)
    | Discard(revision: RevisionId)

  /** An operation that raises leaves the store as it was. */
  ghost function Attempt(s: Store, result: Result<Store, SourceError>): Store {
    if result.Ok? then result.value else s
  }

  ghost function Step(s: Store, op: Op): Store {
    match op
    case Create(r, parent) => CreateRevision(s, r, parent)
    case Open(r) => Attempt(s, EnsureWritable(s, r))
    case Intern(r) => Attempt(s, InternTree(s, r))
    case Batch(r, changes, expected) => Attempt(s, BatchUpdate(s, r, changes, expected))
    case Patch(r, path, patch, expected) => Attempt(s, ApplySourcePatch(s, r, path, patch, expected))
    case Discard(r) => Attempt(s, DiscardRevision(s, r))
  }

  /** A new revision has a new id, and a parent, if any, that shows an interned tree. */
  ghost predicate Allowed(s: Store, op: Op) {
    op.Create? ==>
      && op.revision !in s.revisions
      && (op.parent.Some? ==> exists t :: HasTree(s, op.parent.value, t) && t.Interned?)
  }

  ghost function Run(s: Store, ops: seq<Op>): Store
    decreases |ops|
  {
    if ops == [] then s else Run(Step(s, ops[0]), ops[1..])
  }

  ghost predicate AllowedRun(s: Store, ops: seq<Op>)
    decreases |ops|
  {
    ops != [] ==> Allowed(s, ops[0]) && AllowedRun(Step(s, ops[0]), ops[1..])
  }

  lemma UnknownRefused(s: Store, op: Op)
    requires !op.Create? && op.revision !in s.revisions
    ensures Step(s, op) == s
  {
    hide Listing, HashOf, Collect, AddTree, SetTree, DeleteTree, BatchFiles;
    assert TreeOf(s, op.revision).None?;
  }

  /** One operation keeps the invariant and the files of every revision that it does not name. */
  lemma StepKeeps(s: Store, op: Op)
    requires Invariant(s) && Allowed(s, op)
    ensures Invariant(Step(s, op))
    ensures forall q | q in s.revisions && q != op.revision ::
      q in Step(s, op).revisions && Files(Step(s, op), q) == Files(s, q)
  {
    hide CreateRevision, EnsureWritable, InternTree, BatchUpdate, ApplySourcePatch, DiscardRevision, Files, TreeOf,
      WellFormed, NoOrphans, BatchFiles, HashOf, D.ApplyPatch, At;
    if op.Create? {
      if op.parent.Some? {
        var t :| HasTree(s, op.parent.value, t) && t.Interned?;
        CreateFromParent(s, op.revision, op.parent.value, t);
      } else {
        CreateEmpty(s, op.revision);
      }
    } else if op.revision !in s.revisions {
      UnknownRefused(s, op);
    } else {
      match op
      case Open(r) => EnsureWritableKeeps(s, r);
      case Intern(r) => InternKeeps(s, r);
      case Batch(r, changes, expected) => BatchKeeps(s, r, changes, expected);
      case Patch(r, path, patch, expected) => PatchKeeps(s, r, path, patch, expected);
      case Discard(r) => DiscardKeeps(s, r);
    }
  }

  /** Over every run: the invariant holds, and a revision that no operation names shows the files it showed before. */
  lemma {:induction false} RunKeeps(s: Store, ops: seq<Op>)
    requires Invariant(s) && AllowedRun(s, ops)
    ensures Invariant(Run(s, ops))
    ensures forall q | q in s.revisions && (forall i :: 0 <= i < |ops| ==> ops[i].revision != q) ::
      q in Run(s, ops).revisions && Files(Run(s, ops), q) == Files(s, q)
    decreases |ops|
  {
    hide Step, Files, Invariant, Allowed;
    if ops != [] {
      StepKeeps(s, ops[0]);
      RunKeeps(Step(s, ops[0]), ops[1..]);
      assert forall i :: 0 < i < |ops| ==> ops[i] == ops[1..][i - 1];
    }
  }

  lemma EmptyStore()
    ensures Invariant(EMPTY)
  {
  }
}
