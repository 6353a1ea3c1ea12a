/** The source store as it runs: fields that each operation rewrites, proved against `SourceGraph` and `SourceBatch`. */
module SourceStore {
  import opened Prelude
  import opened Interning
  import G = SourceGraph
  import P = SourceGraphProofs
  import B = SourceBatch
  import R = SourceRuns
  import D = UnifiedDiff

  class SourceStore {
    var revisions: set<G.RevisionId>
    var treeEdges: set<G.TreeEdge>
    var trees: map<G.TreeId, G.Tree>
    var fileEdges: set<G.FileEdge>
    var contents: map<ContentId, string>

    constructor ()
      ensures Snapshot() == G.EMPTY && G.Invariant(Snapshot())
    {
      revisions, treeEdges, trees, fileEdges, contents := {}, {}, map[], {}, map[];
      new;
      R.EmptyStore();
    }

    ghost function Snapshot(): G.Store
      reads this
    {
      G.Store(revisions, treeEdges, trees, fileEdges, contents)
    }

    // -------------------------------------------------------------------------
    // Reading

    /** The one tree of a revision. */
    method CurrentTree(r: G.RevisionId) returns (result: Result<G.TreeId, G.SourceError>)
      ensures result == match G.TreeOf(Snapshot(), r) case None => Err(G.UnknownRevision) case Some(t) => Ok(t)
    {
      if r !in revisions {
        assert forall t :: !G.HasTree(Snapshot(), r, t);
        return Err(G.UnknownRevision);
      }
      var edges := set e | e in treeEdges && e.revision == r;
      if |edges| != 1 {
        forall t
          ensures !G.HasTree(Snapshot(), r, t)
        {
          assert G.HasTree(Snapshot(), r, t) ==> edges == {G.TreeEdge(r, t)};
        }
        return Err(G.UnknownRevision);
      }
      var edge :| edge in edges;
      OneElement(edges, edge);
      if edge.tree !in trees {
        assert forall t :: G.HasTree(Snapshot(), r, t) ==> G.TreeEdge(r, t) in edges;
        return Err(G.UnknownRevision);
      }
      assert forall e :: e in treeEdges && e.revision == r ==> e in edges;
      assert G.HasTree(Snapshot(), r, edge.tree);
      return Ok(edge.tree);
    }

    /** The files of a tree, each once, in the order of their paths. */
    method ListSourceTree(t: G.TreeId) returns (files: seq<FileInfo>)
      requires G.PathsUnique(Snapshot())
      ensures Elements(files) == G.Listing(Snapshot(), t) && DistinctPaths(files) && Ascending(files)
    {
      P.ListingUnique(Snapshot(), t);
      var rest := set e | e in fileEdges && e.tree == t :: e.file;
      ghost var all := rest;
      files := [];
      assert UniquePaths(all);
      while rest != {}
        invariant rest <= all && Elements(files) == all - rest && DistinctPaths(files)
        decreases rest
      {
        var f :| f in rest;
        AppendFile(files, f);
        rest, files := rest - {f}, files + [f];
      }
      SortKeepsElements(files);
      SortKeepsDistinct(files);
      SortAscends(files);
      files := SortByPath(files);
    }

    // -------------------------------------------------------------------------
    // Collection

    /** Delete tree records one by one; the edges of each go with it. */
    method DeleteTrees(gone: set<G.TreeId>)
      modifies this
      ensures Snapshot() == DropTrees(old(Snapshot()), gone)
    {
      ghost var before := Snapshot();
      var todo := gone;
      assert DropTrees(before, {}) == before;
      while todo != {}
        invariant todo <= gone
        invariant Snapshot() == DropTrees(before, gone - todo)
        decreases todo
      {
        var t :| t in todo;
        DropOneTree(before, gone - todo, t);
        assert gone - (todo - {t}) == gone - todo + {t};
        trees := trees - {t};
        treeEdges := set e | e in treeEdges && e.tree != t;
        fileEdges := set e | e in fileEdges && e.tree != t;
        todo := todo - {t};
      }
      assert gone - todo == gone;
    }

    method DeleteInternedOrphans()
      requires G.EdgesLive(Snapshot())
      modifies this
      ensures Snapshot() == G.Collect(old(Snapshot()))
    {
      hide G.Collect, DropTrees, G.EdgesLive, Collecting, G.NoOrphans;
      ghost var start := Snapshot();
      StartCollecting(start);
      while true
        invariant Collecting(start, Snapshot())
        decreases trees.Keys, contents.Keys
      {
        var orphanTrees := set t | t in trees && !exists e :: e in treeEdges && e.tree == t;
        var orphanContents := set c | c in contents && !exists e :: e in fileEdges && e.file.content == c;
        if orphanTrees == {} && orphanContents == {} {
          NoneFound(Snapshot());
          Collected(start, Snapshot());
          return;
        }
        ghost var before := Snapshot();
        RoundCollects(start, before, orphanTrees, orphanContents);
        DeleteTrees(orphanTrees);
        contents := contents - orphanContents;
        RoundShrinks(before, orphanTrees, orphanContents);
      }
    }
  
    // -------------------------------------------------------------------------
    // Files

    method UnlinkPath(t: G.TreeId, path: string)
      modifies this`fileEdges
      ensures Snapshot() == G.UnlinkPath(old(Snapshot()), t, path)
    {
      fileEdges := set e | e in fileEdges && !(e.tree == t && e.file.path == path);
    }

    method PutFile(t: G.TreeId, f: FileInfo)
      modifies this`fileEdges, this`contents
      ensures Snapshot() == G.PutFile(old(Snapshot()), t, f)
    {
      UnlinkPath(t, f.path);
      if f.content !in contents {
        contents := contents[f.content := f.content.text];
      }
      if t in trees {
        fileEdges :=
          (set e | e in fileEdges && !(e.tree == t && e.file.path == f.path && e.file.content == f.content))
          + {G.FileEdge(t, f)};
      }
    }

    method PutFiles(t: G.TreeId, files: seq<FileInfo>)
      requires t in trees && DistinctPaths(files)
      modifies this`fileEdges, this`contents
      ensures Snapshot() == G.PutAll(old(Snapshot()), t, Elements(files))
    {
      hide G.PutAll, G.PutFile;
      ghost var before := Snapshot();
      PutNothing(before, t);
      for i := 0 to |files|
        invariant trees == before.trees
        invariant Snapshot() == G.PutAll(before, t, Elements(files[..i]))
      {
        assert files[..i + 1] == files[..i] + [files[i]];
        AppendFile(files[..i], files[i]);
        assert forall g :: g in Elements(files[..i]) ==> g.path != files[i].path;
        PutOneMore(before, t, Elements(files[..i]), files[i]);
        PutFile(t, files[i]);
      }
      assert files[..|files|] == files;
    }

    // -------------------------------------------------------------------------
    // Drafts and interned trees

    method SetTree(r: G.RevisionId, t: G.TreeId)
      modifies this`treeEdges
      ensures Snapshot() == G.SetTree(old(Snapshot()), r, t)
    {
      treeEdges := set e | e in treeEdges && e.revision != r;
      treeEdges := treeEdges + {G.TreeEdge(r, t)};
    }

    method EnsureWritable(r: G.RevisionId) returns (result: Result<G.TreeId, G.SourceError>)
      requires G.Invariant(Snapshot())
      modifies this
      ensures result.Ok? <==> G.EnsureWritable(old(Snapshot()), r).Ok?
      ensures if result.Ok? then G.EnsureWritable(old(Snapshot()), r) == Ok(Snapshot()) else Snapshot() == old(Snapshot())
      ensures G.Invariant(Snapshot())
      ensures result.Ok? ==> result == Ok(G.Working(r)) && G.HasTree(Snapshot(), r, G.Working(r))
    {
      hide G.EnsureWritable, G.TreeOf, G.PutAll, G.SetTree, G.Collect, G.Listing, HashOf, G.NoOrphans, G.EdgesLive,
        G.OneTreeEach, G.PathsUnique, G.ContentsAddressed, G.HashesCurrent, G.IdsFit, G.DraftsPrivate, G.HasTree;
      ghost var before := Snapshot();
      EnsureWritableCases(before, r);
      var current := CurrentTree(r);
      if current.Err? {
        return Err(current.error);
      }
      var t := current.value;
      if trees[t].status == G.DraftTree {
        return Ok(t);
      }
      var w := G.Working(r);
      var files := ListSourceTree(t);
      trees := trees[w := G.Tree(G.DraftTree, trees[t].hash, Some(r))];
      PutFiles(w, files);
      SetTree(r, w);
      DeleteInternedOrphans();
      return Ok(w);
    }
  
    /** Delete the file edges of a draft, then its record. */
    method DeleteWorkingTree(t: G.TreeId)
      modifies this
      ensures Snapshot() == G.DeleteTree(old(Snapshot()), t)
    {
      fileEdges := set e | e in fileEdges && e.tree != t;
      trees := trees - {t};
      treeEdges := set e | e in treeEdges && e.tree != t;
    }

    method InternTree(r: G.RevisionId) returns (result: Result<G.TreeId, G.SourceError>)
      requires G.Invariant(Snapshot())
      modifies this
      ensures result.Ok? <==> G.InternTree(old(Snapshot()), r).Ok?
      ensures if result.Ok? then G.InternTree(old(Snapshot()), r) == Ok(Snapshot()) else Snapshot() == old(Snapshot())
      ensures G.Invariant(Snapshot())
      ensures result.Ok? ==> G.TreeOf(Snapshot(), r) == Some(result.value)
    {
      hide G.InternTree, G.TreeOf, G.PutAll, G.SetTree, G.DeleteTree, G.Collect, G.Listing, HashOf, G.NoOrphans,
        G.EdgesLive, G.OneTreeEach, G.PathsUnique, G.ContentsAddressed, G.HashesCurrent, G.IdsFit, G.DraftsPrivate,
        G.HasTree, ListingHash;
      ghost var before := Snapshot();
      InternCases(before, r);
      var current := CurrentTree(r);
      if current.Err? {
        return Err(current.error);
      }
      var t := current.value;
      var wasDraft := trees[t].status == G.DraftTree;
      var files := ListSourceTree(t);
      var h := ListingHash(files);
      HashOfListing(files);
      var i := G.Interned(h);
      if i !in trees || trees[i].status != G.InternedTree {
        trees := trees[i := G.Tree(G.InternedTree, h, None)];
        PutFiles(i, files);
      }
      if t != i {
        SetTree(r, i);
        if wasDraft {
          DeleteWorkingTree(t);
        }
      }
      DeleteInternedOrphans();
      return Ok(i);
    }

    // -------------------------------------------------------------------------
    // Batches

    /** The files of a listing by path. */
    method IndexByPath(files: seq<FileInfo>) returns (byPath: map<string, FileInfo>)
      requires DistinctPaths(files)
      ensures Indexes(byPath, Elements(files))
    {
      byPath := map[];
      for i := 0 to |files|
        invariant Indexes(byPath, Elements(files[..i]))
      {
        assert files[..i + 1] == files[..i] + [files[i]];
        AppendFile(files[..i], files[i]);
        assert forall g :: g in Elements(files[..i]) ==> g.path != files[i].path;
        byPath := byPath[files[i].path := files[i]];
      }
      assert files[..|files|] == files;
    }

    method ValidateBatch(byPath: map<string, FileInfo>, changes: seq<B.Change>, ghost files: set<FileInfo>)
      returns (refusal: Option<G.SourceError>)
      requires Indexes(byPath, files)
      ensures refusal == B.Validate(files, changes)
    {
      IndexedAt(byPath, files);
      for i := 0 to |changes|
        invariant B.Validate(files, changes) == B.Validate(files, changes[i..])
      {
        var c := changes[i];
        assert changes[i..][0] == c && changes[i..][1..] == changes[i + 1..];
        if c.expected.Some? && (c.path !in byPath || byPath[c.path].content != c.expected.value) {
          return Some(G.SourceConflict(c.path));
        }
        if !c.Write? && c.path !in byPath {
          return Some(G.PathMissing(c.path));
        }
        if c.Rename? {
          if c.newPath == "" {
            return Some(G.RenameNeedsPath);
          }
          if c.newPath in byPath {
            return Some(G.TargetExists(c.newPath));
          }
        }
      }
      return None;
    }

    /** The loop over the changes of a batch, on a draft and the dictionary of its files. */
    method ApplyToDraft(w: G.TreeId, byPath0: map<string, FileInfo>, changes: seq<B.Change>, ghost files: set<FileInfo>)
      returns (result: Result<bool, G.SourceError>, ghost after: set<FileInfo>)
      requires w in trees && Indexes(byPath0, files) && UniquePaths(files)
      requires G.Listing(Snapshot(), w) == files && G.EdgesLive(Snapshot()) && G.ContentsAddressed(Snapshot())
      modifies this`fileEdges, this`contents
      ensures result.Err? ==> B.ApplyChanges(files, changes) == Err(result.error)
      ensures result.Ok? ==>
        && B.ApplyChanges(files, changes) == Ok(after) && UniquePaths(after)
        && Edited(old(Snapshot()), Snapshot(), w, after)
    {
      hide B.ApplyChanges, B.ApplyChange, Edited, G.PutFile, G.UnlinkPath, B.At, B.Produced, B.Without, Indexes, UniquePaths,
        G.Listing, G.EdgesLive, G.ContentsAddressed;
      ghost var before := Snapshot();
      var byPath := byPath0;
      after := files;
      NothingEdited(before, w);
      NoChanges(files, changes);
      for i := 0 to |changes|
        invariant trees == before.trees
        invariant Indexes(byPath, after) && UniquePaths(after)
        invariant Edited(before, Snapshot(), w, after)
        invariant B.ApplyChanges(files, changes) == B.ApplyChanges(after, changes[i..])
      {
        var c := changes[i];
        ghost var listed := after;
        StepOfBatch(byPath, after, changes[i..]);
        assert changes[i..][1..] == changes[i + 1..];
        if c.Write? {
          if c.content.None? {
            return Err(G.MissingContent), after;
          }
          var file := Written(byPath, c);
          assert file.path == c.path by {
            IndexedPaths(byPath, after);
          }
          EditWrite(before, Snapshot(), w, byPath, after, file);
          PutFile(w, file);
          byPath := byPath[c.path := file];
          after := B.Without(after, c.path) + {file};
        } else if c.path !in byPath {
          return Err(G.PathMissing(c.path)), after;
        } else if c.Delete? {
          EditDelete(before, Snapshot(), w, byPath, after, c.path);
          UnlinkPath(w, c.path);
          byPath := byPath - {c.path};
          after := B.Without(after, c.path);
        } else {
          var file := byPath[c.path].(path := c.newPath);
          EditDelete(before, Snapshot(), w, byPath, after, c.path);
          UnlinkPath(w, c.path);
          byPath := byPath - {c.path};
          after := B.Without(after, c.path);
          EditWrite(before, Snapshot(), w, byPath, after, file);
          PutFile(w, file);
          byPath := byPath[c.newPath := file];
          after := B.Without(after, c.newPath) + {file};
        }
      }
      AllChanges(after, changes);
      return Ok(true), after;
    }
  
    /** Store the hash of the files that a tree holds now. */
    method RefreshTreeHash(t: G.TreeId)
      requires t in trees && G.PathsUnique(Snapshot())
      modifies this`trees
      ensures Snapshot() == Rehashed(old(Snapshot()), t)
    {
      hide HashOf, ListingHash;
      var files := ListSourceTree(t);
      HashOfListing(files);
      trees := trees[t := trees[t].(hash := ListingHash(files))];
    }

    /**
     A batch on a draft. A refused one changes nothing; one that fails on the way leaves what it has written so far, which
     the transaction around it undoes.
     */
    method BatchUpdateWorkingTree(w: G.TreeId, changes: seq<B.Change>) returns (result: Result<bool, G.SourceError>)
      requires G.Invariant(Snapshot()) && w in trees && trees[w].status == G.DraftTree
      modifies this
      ensures result.Ok? <==> B.BatchFiles(G.Listing(old(Snapshot()), w), changes).Ok?
      ensures result.Ok? ==>
        Snapshot() == G.Collect(
          G.SetFiles(old(Snapshot()), w, B.BatchFiles(G.Listing(old(Snapshot()), w), changes).value))
      ensures result.Err? ==> B.BatchFiles(G.Listing(old(Snapshot()), w), changes) == Err(result.error)
      ensures B.Validate(G.Listing(old(Snapshot()), w), changes).Some? ==> Snapshot() == old(Snapshot())
    {
      hide B.ApplyChanges, B.Validate, Edited, Rehashed, Indexes, G.SetFiles, G.Collect, G.Listing, HashOf, G.NoOrphans,
        G.EdgesLive, G.OneTreeEach, G.PathsUnique, G.ContentsAddressed, G.HashesCurrent, G.IdsFit, G.DraftsPrivate;
      ghost var before := Snapshot();
      P.ListingUnique(before, w);
      var files := ListSourceTree(w);
      var byPath := IndexByPath(files);
      var refusal := ValidateBatch(byPath, changes, Elements(files));
      if refusal.Some? {
        return Err(refusal.value);
      }
      var done, after := ApplyToDraft(w, byPath, changes, Elements(files));
      if done.Err? {
        return done;
      }
      EditedCollects(before, Snapshot(), w, after);
      RefreshTreeHash(w);
      DeleteInternedOrphans();
      return Ok(true);
    }

    /** A batch runs in a transaction: when it raises, every field is as it was before. */
    method BatchUpdateRevision(r: G.RevisionId, changes: seq<B.Change>, expectedTree: Option<TreeDigest>)
      returns (result: Result<bool, G.SourceError>)
      requires G.Invariant(Snapshot())
      modifies this
      ensures result.Ok? <==> B.BatchUpdate(old(Snapshot()), r, changes, expectedTree).Ok?
      ensures result.Err? ==> B.BatchUpdate(old(Snapshot()), r, changes, expectedTree) == Err(result.error)
      ensures if result.Ok? then B.BatchUpdate(old(Snapshot()), r, changes, expectedTree) == Ok(Snapshot()) else Snapshot() == old(Snapshot())
      ensures G.Invariant(Snapshot())
    {
      hide B.BatchUpdate, B.BatchFiles, Indexes, G.EnsureWritable, G.TreeOf, G.SetFiles, G.Collect, G.Listing, HashOf,
        G.NoOrphans, G.HasTree, B.Validate,
        G.EdgesLive, G.OneTreeEach, G.PathsUnique, G.ContentsAddressed, G.HashesCurrent, G.IdsFit, G.DraftsPrivate;
      ghost var before := Snapshot();
      BatchCases(before, r, changes, expectedTree);
      var current := CurrentTree(r);
      if current.Err? {
        return Err(current.error);
      }
      var t := current.value;
      if expectedTree.Some? && trees[t].hash != expectedTree.value {
        return Err(G.TreeConflict);
      }
      var files := ListSourceTree(t);
      var byPath := IndexByPath(files);
      var refusal := ValidateBatch(byPath, changes, Elements(files));
      if refusal.Some? {
        return Err(refusal.value);
      }
      var saved := (revisions, treeEdges, trees, fileEdges, contents);
      var writable := EnsureWritable(r);
      result := BatchUpdateWorkingTree(writable.value, changes);
      if result.Err? {
        revisions, treeEdges, trees, fileEdges, contents := saved.0, saved.1, saved.2, saved.3, saved.4;
      }
    }

    method ApplySourcePatch(r: G.RevisionId, path: string, patch: seq<D.PatchLine>, expected: Option<ContentId>)
      returns (result: Result<bool, G.SourceError>)
      requires G.Invariant(Snapshot())
      modifies this
      ensures result.Ok? <==> R.ApplySourcePatch(old(Snapshot()), r, path, patch, expected).Ok?
      ensures result.Err? ==> R.ApplySourcePatch(old(Snapshot()), r, path, patch, expected) == Err(result.error)
      ensures if result.Ok? then R.ApplySourcePatch(old(Snapshot()), r, path, patch, expected) == Ok(Snapshot()) else Snapshot() == old(Snapshot())
      ensures G.Invariant(Snapshot())
    {
      hide B.BatchUpdate, G.TreeOf, G.Listing, HashOf, G.NoOrphans, G.HasTree, D.ApplyPatch, D.SplitLines, D.Join, Indexes,
        B.At, G.EdgesLive, G.OneTreeEach, G.ContentsAddressed, G.HashesCurrent, G.IdsFit, G.DraftsPrivate;
      var current := CurrentTree(r);
      if current.Err? {
        return Err(current.error);
      }
      var files := ListSourceTree(current.value);
      var byPath := IndexByPath(files);
      IndexedAt(byPath, Elements(files));
      if path !in byPath {
        return Err(G.PathMissing(path));
      }
      var file := byPath[path];
      if expected.Some? && file.content != expected.value {
        return Err(G.SourceConflict(path));
      }
      var patched := D.ApplyUnifiedDiff(D.SplitLines(file.content.text), patch);
      if patched.Err? {
        return Err(G.PatchRefused);
      }
      var write := B.Write(path, Some(D.Join(patched.value)), file.role, file.language, Some(file.content));
      result := BatchUpdateRevision(r, [write], None);
    }

    // -------------------------------------------------------------------------
    // Revisions

    /** Copy the tree edges of a parent to a draft, as they are. */
    method CopyEdges(parent: G.RevisionId, draft: G.RevisionId)
      modifies this`treeEdges
      ensures treeEdges == old(treeEdges)
        + set e | e in old(treeEdges) && e.revision == parent :: G.TreeEdge(draft, e.tree)
    {
      ghost var before := treeEdges;
      var todo := set e | e in treeEdges && e.revision == parent;
      ghost var all := todo;
      while todo != {}
        invariant todo <= all
        invariant treeEdges == before + set e | e in all - todo :: G.TreeEdge(draft, e.tree)
        decreases todo
      {
        var e :| e in todo;
        treeEdges := treeEdges + {G.TreeEdge(draft, e.tree)};
        todo := todo - {e};
      }
      assert all - todo == all;
    }

    /** A new revision: with the edges of its parent, or with the interned empty tree. */
    method CreateRevision(r: G.RevisionId, parent: Option<G.RevisionId>)
      requires G.Invariant(Snapshot()) && r !in revisions
      modifies this
      ensures Snapshot() == G.CreateRevision(old(Snapshot()), r, parent)
    {
      hide HashOf, ListingHash, G.EdgesLive, G.OneTreeEach, G.PathsUnique, G.ContentsAddressed, G.HashesCurrent,
        G.IdsFit, G.DraftsPrivate, G.NoOrphans;
      revisions := revisions + {r};
      if parent.Some? {
        CopyEdges(parent.value, r);
      } else {
        HashOfListing([]);
        assert Elements([]) == {};
        var h := ListingHash([]);
        if G.Interned(h) !in trees {
          trees := trees[G.Interned(h) := G.Tree(G.InternedTree, h, None)];
        }
        SetTree(r, G.Interned(h));
      }
    }

    method DiscardRevision(r: G.RevisionId) returns (result: Result<bool, G.SourceError>)
      requires G.Invariant(Snapshot())
      modifies this
      ensures result.Ok? <==> G.DiscardRevision(old(Snapshot()), r).Ok?
      ensures if result.Ok? then G.DiscardRevision(old(Snapshot()), r) == Ok(Snapshot()) else Snapshot() == old(Snapshot())
      ensures G.Invariant(Snapshot())
    {
      hide G.TreeOf, G.DeleteTree, G.Collect, HashOf, G.Listing, G.NoOrphans, G.HasTree,
        G.EdgesLive, G.OneTreeEach, G.PathsUnique, G.ContentsAddressed, G.HashesCurrent, G.IdsFit, G.DraftsPrivate;
      ghost var before := Snapshot();
      DiscardCases(before, r);
      var current := CurrentTree(r);
      if current.Err? {
        return Err(current.error);
      }
      var t := current.value;
      var tree := trees[t];
      treeEdges := set e | e in treeEdges && e.revision != r;
      ghost var cut := Snapshot();
      if tree.status == G.DraftTree && tree.owner == Some(r) {
        DeleteWorkingTree(t);
      }
      DeleteLeavesRevisions(cut, t);
      revisions := revisions - {r};
      DeleteInternedOrphans();
      return Ok(true);
    }
  }

  lemma OneElement<T>(s: set<T>, x: T)
    requires |s| == 1 && x in s
    ensures s == {x}
  {
    assert |s - {x}| == 0;
  }

  lemma {:induction false} InsertKeepsDistinct(file: FileInfo, sorted: seq<FileInfo>)
    requires DistinctPaths(sorted) && forall f :: f in sorted ==> f.path != file.path
    ensures DistinctPaths(InsertByPath(file, sorted))
  {
    if sorted != [] && Before(sorted[0].path, file.path) {
      InsertKeepsDistinct(file, sorted[1..]);
      InsertKeepsElements(file, sorted[1..]);
      var tail := InsertByPath(file, sorted[1..]);
      assert forall f :: f in tail ==> f in Elements(tail);
      DistinctCons(sorted[0], tail);
    } else {
      DistinctCons(file, sorted);
    }
  }

  lemma {:induction false} SortKeepsDistinct(files: seq<FileInfo>)
    requires DistinctPaths(files)
    ensures DistinctPaths(SortByPath(files))
  {
    if files != [] {
      SortKeepsDistinct(files[1..]);
      SortKeepsElements(files[1..]);
      forall f | f in SortByPath(files[1..])
        ensures f.path != files[0].path
      {
        assert f in Elements(files[1..]);
      }
      InsertKeepsDistinct(files[0], SortByPath(files[1..]));
    }
  }

  // ---------------------------------------------------------------------------
  // Collection in rounds

  function DropTrees(s: G.Store, gone: set<G.TreeId>): G.Store {
    s.(trees := s.trees - gone,
       treeEdges := (set e | e in s.treeEdges && e.tree !in gone),
       fileEdges := (set e | e in s.fileEdges && e.tree !in gone))
  }

  lemma DropOneTree(s: G.Store, gone: set<G.TreeId>, t: G.TreeId)
    ensures G.DeleteTree(DropTrees(s, gone), t) == DropTrees(s, gone + {t})
  {
  }

  /** Between the start of a collection and its end: only what `Collect` drops has been dropped. */
  predicate Collecting(start: G.Store, s: G.Store) {
    var end := G.Collect(start);
    && s.revisions == start.revisions && s.treeEdges == start.treeEdges
    && end.trees.Keys <= s.trees.Keys <= start.trees.Keys
    && (forall t :: t in s.trees ==> s.trees[t] == start.trees[t])
    && s.fileEdges == (set e | e in start.fileEdges && e.tree in s.trees)
    && end.contents.Keys <= s.contents.Keys <= start.contents.Keys
    && (forall c :: c in s.contents ==> s.contents[c] == start.contents[c])
    && G.EdgesLive(s)
  }

  lemma Collected(start: G.Store, s: G.Store)
    requires Collecting(start, s) && G.EdgesLive(start)
    requires G.NoOrphans(s)
    ensures s == G.Collect(start)
  {
    var end := G.Collect(start);
    assert forall t :: t in s.trees ==> t in G.ShownTrees(start);
    assert s.trees.Keys == end.trees.Keys;
    assert s.fileEdges == end.fileEdges;
    assert forall c :: c in s.contents ==> c in G.UsedContents(end.fileEdges);
    assert s.trees == end.trees && s.contents == end.contents;
  }

  lemma RoundCollects(start: G.Store, before: G.Store, gone: set<G.TreeId>, unused: set<ContentId>)
    requires Collecting(start, before)
    requires gone == set t | t in before.trees && !exists e :: e in before.treeEdges && e.tree == t
    requires unused == set c | c in before.contents && !exists e :: e in before.fileEdges && e.file.content == c
    ensures var dropped := DropTrees(before, gone);
      Collecting(start, dropped.(contents := dropped.contents - unused))
  {
    var dropped := DropTrees(before, gone);
    assert dropped.treeEdges == before.treeEdges;
    assert forall c :: c in G.Collect(start).contents ==> c !in unused by {
      forall c | c in G.Collect(start).contents
        ensures c !in unused
      {
        var e :| e in G.Collect(start).fileEdges && e.file.content == c;
        assert e in before.fileEdges;
      }
    }
  }

  lemma NoneFound(s: G.Store)
    requires (set t | t in s.trees && !exists e :: e in s.treeEdges && e.tree == t) == {}
    requires (set c | c in s.contents && !exists e :: e in s.fileEdges && e.file.content == c) == {}
    ensures G.NoOrphans(s)
  {
    var orphanTrees := set t | t in s.trees && !exists e :: e in s.treeEdges && e.tree == t;
    var orphanContents := set c | c in s.contents && !exists e :: e in s.fileEdges && e.file.content == c;
    assert forall t :: t in s.trees ==> t !in orphanTrees;
    assert forall c :: c in s.contents ==> c !in orphanContents;
  }

  lemma StartCollecting(s: G.Store)
    requires G.EdgesLive(s)
    ensures Collecting(s, s)
  {
  }

  lemma RoundShrinks(before: G.Store, gone: set<G.TreeId>, unused: set<ContentId>)
    ensures DropTrees(before, gone).trees.Keys == before.trees.Keys - gone
    ensures DropTrees(before, gone).contents == before.contents
  {
  }

  lemma AppendFile(files: seq<FileInfo>, f: FileInfo)
    ensures Elements(files + [f]) == Elements(files) + {f}
    ensures DistinctPaths(files) && (forall g :: g in Elements(files) ==> g.path != f.path) ==> DistinctPaths(files + [f])
  {
    assert forall i :: 0 <= i < |files| ==> files[i] in Elements(files);
  }

  lemma DistinctCons(first: FileInfo, rest: seq<FileInfo>)
    requires DistinctPaths(rest) && forall f :: f in rest ==> f.path != first.path
    ensures DistinctPaths([first] + rest)
  {
    var all := [first] + rest;
    assert forall i :: 0 < i < |all| ==> all[i] == rest[i - 1] && all[i] in rest;
  }

  lemma PutNothing(s: G.Store, t: G.TreeId)
    ensures G.PutAll(s, t, Elements([])) == s
  {
    assert G.SaveContents(s.contents, {}) == s.contents;
  }

  lemma PutOneMore(s: G.Store, t: G.TreeId, files: set<FileInfo>, f: FileInfo)
    requires t in s.trees
    requires forall g :: g in files ==> g.path != f.path
    ensures G.PutFile(G.PutAll(s, t, files), t, f) == G.PutAll(s, t, files + {f})
  {
    var put, more := G.PutAll(s, t, files), G.PutAll(s, t, files + {f});
    PutContents(s.contents, files, f);
    assert G.Edges(t, files + {f}) == G.Edges(t, files) + {G.FileEdge(t, f)};
    assert (set g | g in files + {f} :: g.path) == (set g | g in files :: g.path) + {f.path};
    assert G.PutFile(put, t, f).fileEdges == more.fileEdges by {
      hide G.SaveContents;
    }
  }

  lemma PutContents(contents: map<ContentId, string>, files: set<FileInfo>, f: FileInfo)
    ensures var saved := G.SaveContents(contents, files);
      G.SaveContents(contents, files + {f}) == if f.content in saved then saved else saved[f.content := f.content.text]
  {
    var named := set g | g in files :: g.content;
    assert (set g | g in files + {f} :: g.content) == named + {f.content};
  }

  /** What `EnsureWritable` does in each case, and what makes its steps possible. */
  lemma EnsureWritableCases(s: G.Store, r: G.RevisionId)
    requires G.Invariant(s)
    ensures G.PathsUnique(s)
    ensures G.TreeOf(s, r).None? ==> G.EnsureWritable(s, r) == Err(G.UnknownRevision)
    ensures G.EnsureWritable(s, r).Ok? ==>
      var c := G.EnsureWritable(s, r).value; G.Invariant(c) && G.HasTree(c, r, G.Working(r))
    ensures G.TreeOf(s, r).Some? ==>
      var t, w := G.TreeOf(s, r).value, G.Working(r);
      && t in s.trees
      && (s.trees[t].status == G.DraftTree ==> t == w && G.EnsureWritable(s, r) == Ok(s))
      && (s.trees[t].status != G.DraftTree ==>
            var record := G.Tree(G.DraftTree, s.trees[t].hash, Some(r));
            var moved := G.SetTree(G.PutAll(s.(trees := s.trees[w := record]), w, G.Listing(s, t)), r, w);
            && G.EdgesLive(moved)
            && G.EnsureWritable(s, r) == Ok(G.Collect(moved)))
  {
    hide HashOf, G.SetTree, G.PutAll, G.Collect, G.Listing, G.OneTreeEach, G.ContentsAddressed, G.NoOrphans;
    if G.TreeOf(s, r).Some? {
      var t := G.TreeOf(s, r).value;
      P.TreeFacts(s, r, t);
      P.EnsureWritableKeeps(s, r);
      if t.Interned? {
        ReopenLive(s, r, t);
      }
    }
  }

  lemma ReopenLive(s: G.Store, r: G.RevisionId, t: G.TreeId)
    requires G.Invariant(s) && G.HasTree(s, r, t) && t.Interned?
    ensures var record := G.Tree(G.DraftTree, s.trees[t].hash, Some(r));
      G.EdgesLive(G.SetTree(G.AddTree(s, G.Working(r), record, G.Listing(s, t)), r, G.Working(r)))
  {
    hide HashOf, G.SetTree, G.AddTree, G.Listing, G.OneTreeEach, G.ContentsAddressed, G.NoOrphans, G.HashesCurrent, G.IdsFit;
    P.TreeFacts(s, r, t);
    P.NoLeftovers(s, r, t);
    P.MoveToNewTree(s, r, G.Working(r), G.Tree(G.DraftTree, s.trees[t].hash, Some(r)), G.Listing(s, t));
  }

  lemma InternCases(s: G.Store, r: G.RevisionId)
    requires G.Invariant(s)
    ensures G.PathsUnique(s)
    ensures G.TreeOf(s, r).None? ==> G.InternTree(s, r) == Err(G.UnknownRevision)
    ensures G.TreeOf(s, r).Some? ==>
      var t := G.TreeOf(s, r).value;
      var h := HashOf(G.Listing(s, t));
      var i := G.Interned(h);
      var saved := if i in s.trees && s.trees[i].status == G.InternedTree then s
        else G.PutAll(s.(trees := s.trees[i := G.Tree(G.InternedTree, h, None)]), i, G.Listing(s, t));
      var moved := G.SetTree(saved, r, i);
      var end := if t == i then saved else if s.trees[t].status == G.DraftTree then G.DeleteTree(moved, t) else moved;
      && t in s.trees
      && G.EdgesLive(end)
      && G.InternTree(s, r) == Ok(G.Collect(end))
      && G.Invariant(G.Collect(end))
      && G.TreeOf(G.Collect(end), r) == Some(i)
  {
    hide HashOf, G.SetTree, G.DeleteTree, G.Collect, G.Listing, G.OneTreeEach, G.ContentsAddressed, G.NoOrphans,
      G.HashesCurrent, G.IdsFit, G.DraftsPrivate, G.EdgesLive, G.PutAll;
    if G.TreeOf(s, r).Some? {
      var t := G.TreeOf(s, r).value;
      P.TreeFacts(s, r, t);
      P.InternSteps(s, r, t);
      P.InternKeeps(s, r);
      InternLive(s, r, t);
    }
  }

  lemma InternLive(s: G.Store, r: G.RevisionId, t: G.TreeId)
    requires G.Invariant(s) && G.HasTree(s, r, t)
    ensures var h := HashOf(G.Listing(s, t));
      var saved, i := P.InternedOf(s, t, h), G.Interned(h);
      G.EdgesLive(if t == i then saved else G.DeleteTree(G.SetTree(saved, r, i), t))
  {
    hide HashOf, G.SetTree, G.DeleteTree, P.InternedOf, G.Listing, G.OneTreeEach, G.ContentsAddressed, G.NoOrphans,
      G.HashesCurrent, G.IdsFit, G.DraftsPrivate, G.EdgesLive;
    P.TreeFacts(s, r, t);
    var h := HashOf(G.Listing(s, t));
    var i := G.Interned(h);
    P.InternedOfKeeps(s, t, h);
    if t != i {
      P.DraftLeft(s, P.InternedOf(s, t, h), r, t, i);
      P.SetTreeKeeps(P.InternedOf(s, t, h), r, i);
      P.DeleteTreeKeeps(G.SetTree(P.InternedOf(s, t, h), r, i), t);
    }
  }

  // ---------------------------------------------------------------------------
  // The dictionary of a listing, and a draft under edit

  predicate Indexes(byPath: map<string, FileInfo>, files: set<FileInfo>) {
    && (forall p :: p in byPath ==> byPath[p] in files && byPath[p].path == p)
    && (forall f :: f in files ==> f.path in byPath && byPath[f.path] == f)
  }

  lemma IndexedPaths(byPath: map<string, FileInfo>, files: set<FileInfo>)
    requires Indexes(byPath, files)
    ensures forall p :: p in byPath ==> byPath[p].path == p
  {
  }

  lemma IndexedAt(byPath: map<string, FileInfo>, files: set<FileInfo>)
    requires Indexes(byPath, files)
    ensures UniquePaths(files)
    ensures forall p :: B.At(files, p) == if p in byPath then Some(byPath[p]) else None
  {
  }

  /** `s` is `before` with the files of draft `w` replaced, and maybe with more contents. */
  predicate Edited(before: G.Store, s: G.Store, w: G.TreeId, files: set<FileInfo>) {
    && s.revisions == before.revisions && s.treeEdges == before.treeEdges && s.trees == before.trees
    && s.fileEdges == (set e | e in before.fileEdges && e.tree != w) + G.Edges(w, files)
    && before.contents.Keys <= s.contents.Keys
    && (forall f :: f in files ==> f.content in s.contents)
    && G.ContentsAddressed(s)
  }

  lemma NothingEdited(s: G.Store, w: G.TreeId)
    requires G.EdgesLive(s) && G.ContentsAddressed(s)
    ensures Edited(s, s, w, G.Listing(s, w))
  {
    forall e | e in s.fileEdges && e.tree == w
      ensures e in G.Edges(w, G.Listing(s, w))
    {
      assert e.file in G.Listing(s, w);
    }
  }

  lemma NoChanges(files: set<FileInfo>, changes: seq<B.Change>)
    ensures B.ApplyChanges(files, changes) == B.ApplyChanges(files, changes[0..])
  {
    assert changes[0..] == changes;
  }

  lemma AllChanges(files: set<FileInfo>, changes: seq<B.Change>)
    ensures B.ApplyChanges(files, changes[|changes|..]) == Ok(files)
  {
  }

  /** The file that a write leaves: the role and language of an existing file stay. */
  function Written(byPath: map<string, FileInfo>, c: B.Change): FileInfo
    requires c.Write? && c.content.Some?
  {
    if c.path in byPath then byPath[c.path].(content := ContentId(c.content.value))
    else FileInfo(c.path, ContentId(c.content.value), c.role, c.language)
  }

  /** The next change, in terms of the dictionary. */
  lemma StepOfBatch(byPath: map<string, FileInfo>, files: set<FileInfo>, changes: seq<B.Change>)
    requires changes != [] && Indexes(byPath, files)
    ensures var c := changes[0];
      B.ApplyChanges(files, changes) ==
        if c.Write? then
          if c.content.None? then Err(G.MissingContent)
          else B.ApplyChanges(B.Without(files, c.path) + {Written(byPath, c)}, changes[1..])
        else if c.path !in byPath then
          Err(G.PathMissing(c.path))
        else if c.Delete? then
          B.ApplyChanges(B.Without(files, c.path), changes[1..])
        else
          B.ApplyChanges(B.Without(B.Without(files, c.path), c.newPath) + {byPath[c.path].(path := c.newPath)}, changes[1..])
  {
    hide B.Without, Indexes;
    IndexedAt(byPath, files);
  }

  lemma EditDelete(before: G.Store, s: G.Store, w: G.TreeId, byPath: map<string, FileInfo>, files: set<FileInfo>, path: string)
    requires Edited(before, s, w, files) && Indexes(byPath, files) && UniquePaths(files)
    ensures Edited(before, G.UnlinkPath(s, w, path), w, B.Without(files, path))
    ensures Indexes(byPath - {path}, B.Without(files, path)) && UniquePaths(B.Without(files, path))
  {
  }

  lemma EditWrite(before: G.Store, s: G.Store, w: G.TreeId, byPath: map<string, FileInfo>, files: set<FileInfo>, f: FileInfo)
    requires Edited(before, s, w, files) && Indexes(byPath, files) && UniquePaths(files) && w in s.trees
    ensures Edited(before, G.PutFile(s, w, f), w, B.Without(files, f.path) + {f})
    ensures Indexes(byPath[f.path := f], B.Without(files, f.path) + {f})
    ensures UniquePaths(B.Without(files, f.path) + {f})
  {
    var rest := B.Without(files, f.path);
    assert G.Edges(w, rest + {f}) == G.Edges(w, rest) + {G.FileEdge(w, f)};
    EditDelete(before, s, w, byPath, files, f.path);
  }

  ghost function Rehashed(s: G.Store, t: G.TreeId): G.Store
    requires t in s.trees
  {
    s.(trees := s.trees[t := s.trees[t].(hash := HashOf(G.Listing(s, t)))])
  }

  lemma EditedListing(before: G.Store, s: G.Store, w: G.TreeId, files: set<FileInfo>)
    requires Edited(before, s, w, files)
    ensures G.Listing(s, w) == files
  {
    assert forall f :: f in files ==> G.FileEdge(w, f) in s.fileEdges;
    assert forall f :: f in G.Listing(s, w) ==> G.FileEdge(w, f) in s.fileEdges;
  }

  lemma EditedLive(before: G.Store, s: G.Store, w: G.TreeId, files: set<FileInfo>)
    requires G.EdgesLive(before) && G.PathsUnique(before) && UniquePaths(files) && Edited(before, s, w, files)
    requires w in before.trees
    ensures G.EdgesLive(s) && G.PathsUnique(s)
  {
  }

  /** Extra contents do not outlive the collection that ends a batch. */
  lemma EditedCollects(before: G.Store, s: G.Store, w: G.TreeId, files: set<FileInfo>)
    requires G.Invariant(before) && Edited(before, s, w, files) && UniquePaths(files) && w in before.trees
    ensures w in s.trees && G.PathsUnique(s) && G.EdgesLive(Rehashed(s, w))
    ensures G.Collect(Rehashed(s, w)) == G.Collect(G.SetFiles(before, w, files))
  {
    hide HashOf, G.HashesCurrent, G.IdsFit, G.DraftsPrivate, G.NoOrphans, G.OneTreeEach, G.Listing, G.Collect, G.SetFiles;
    EditedLive(before, s, w, files);
    EditedListing(before, s, w, files);
    SetFilesContents(before, w, files);
    SameButContents(Rehashed(s, w), G.SetFiles(before, w, files));
  }

  lemma SetFilesContents(s: G.Store, w: G.TreeId, files: set<FileInfo>)
    requires w in s.trees && G.ContentsAddressed(s) && G.EdgesLive(s)
    ensures var c := G.SetFiles(s, w, files);
      && c.revisions == s.revisions && c.treeEdges == s.treeEdges
      && c.trees == s.trees[w := s.trees[w].(hash := HashOf(files))]
      && c.fileEdges == (set e | e in s.fileEdges && e.tree != w) + G.Edges(w, files)
      && G.ContentsAddressed(c) && G.EdgesLive(c)
  {
    hide HashOf;
  }

  lemma SameButContents(a: G.Store, b: G.Store)
    requires a.revisions == b.revisions && a.treeEdges == b.treeEdges && a.trees == b.trees && a.fileEdges == b.fileEdges
    requires G.ContentsAddressed(a) && G.ContentsAddressed(b) && G.EdgesLive(a) && G.EdgesLive(b)
    ensures G.Collect(a) == G.Collect(b)
  {
    var ca, cb := G.Collect(a), G.Collect(b);
    forall c | c in G.UsedContents(ca.fileEdges)
      ensures c in a.contents && c in b.contents
    {
      var e :| e in ca.fileEdges && e.file.content == c;
    }
    assert ca.contents == cb.contents;
  }

  lemma BatchCases(s: G.Store, r: G.RevisionId, changes: seq<B.Change>, expected: Option<TreeDigest>)
    requires G.Invariant(s)
    ensures G.PathsUnique(s)
    ensures G.TreeOf(s, r).None? ==> B.BatchUpdate(s, r, changes, expected) == Err(G.UnknownRevision)
    ensures G.TreeOf(s, r).Some? ==>
      var t, w := G.TreeOf(s, r).value, G.Working(r);
      && t in s.trees && UniquePaths(G.Listing(s, t))
      && (expected.Some? && s.trees[t].hash != expected.value ==> B.BatchUpdate(s, r, changes, expected) == Err(G.TreeConflict))
      && (!(expected.Some? && s.trees[t].hash != expected.value) ==>
            && G.EnsureWritable(s, r).Ok?
            && var ready := G.EnsureWritable(s, r).value;
            && w in ready.trees && ready.trees[w].status == G.DraftTree
            && G.Listing(ready, w) == G.Listing(s, t)
            && B.BatchUpdate(s, r, changes, expected) ==
                 (var files := B.BatchFiles(G.Listing(s, t), changes);
                 if files.Err? then Err(files.error) else Ok(G.Collect(G.SetFiles(ready, w, files.value))))
            && (B.Validate(G.Listing(s, t), changes).Some? ==>
                  B.BatchUpdate(s, r, changes, expected) == Err(B.Validate(G.Listing(s, t), changes).value)))
    ensures B.BatchUpdate(s, r, changes, expected).Ok? ==> G.Invariant(B.BatchUpdate(s, r, changes, expected).value)
  {
    hide G.EnsureWritable, B.ApplyChanges, B.Validate, HashOf, G.SetFiles, G.Collect, G.Listing, G.NoOrphans,
      G.EdgesLive, G.OneTreeEach, G.ContentsAddressed, G.HashesCurrent, G.IdsFit, G.DraftsPrivate;
    if G.TreeOf(s, r).Some? {
      var t := G.TreeOf(s, r).value;
      P.TreeFacts(s, r, t);
      R.BatchSteps(s, r, changes, expected);
      R.BatchKeeps(s, r, changes, expected);
      WritableFacts(s, r);
    }
  }

  lemma WritableFacts(s: G.Store, r: G.RevisionId)
    requires G.Invariant(s) && r in s.revisions
    ensures G.EnsureWritable(s, r).Ok?
    ensures var ready, w := G.EnsureWritable(s, r).value, G.Working(r);
      w in ready.trees && ready.trees[w].status == G.DraftTree && G.Listing(ready, w) == G.Files(s, r)
  {
    hide G.EnsureWritable, HashOf, G.Listing, G.NoOrphans;
    P.EnsureWritableKeeps(s, r);
    var ready := G.EnsureWritable(s, r).value;
    assert G.HasTree(ready, r, G.Working(r));
  }

  lemma DiscardCases(s: G.Store, r: G.RevisionId)
    requires G.Invariant(s)
    ensures G.TreeOf(s, r).Some? ==>
      var t := G.TreeOf(s, r).value;
      t in s.trees &&
      var cut := s.(treeEdges := set e | e in s.treeEdges && e.revision != r);
      var dropped := if s.trees[t].status == G.DraftTree && s.trees[t].owner == Some(r) then G.DeleteTree(cut, t) else cut;
      var end := dropped.(revisions := s.revisions - {r});
      G.EdgesLive(end) && G.Invariant(G.Collect(end))
  {
    hide HashOf, G.Collect, G.Listing, G.NoOrphans, G.DeleteTree,
      G.EdgesLive, G.OneTreeEach, G.PathsUnique, G.ContentsAddressed, G.HashesCurrent, G.IdsFit, G.DraftsPrivate;
    if G.TreeOf(s, r).Some? {
      var t := G.TreeOf(s, r).value;
      P.TreeFacts(s, r, t);
      R.DiscardKeeps(s, r);
      R.DiscardSteps(s, r, t);
      R.RemoveRevisionKeeps(s, r);
      DeleteCommutes(s, r, t);
      if t.Working? {
        P.DeleteTreeKeeps(R.RemoveRevision(s, r), t);
      }
    }
  }

  lemma DeleteLeavesRevisions(s: G.Store, t: G.TreeId)
    ensures G.DeleteTree(s, t).revisions == s.revisions
  {
  }

  lemma DeleteCommutes(s: G.Store, r: G.RevisionId, t: G.TreeId)
    ensures var cut := s.(treeEdges := set e | e in s.treeEdges && e.revision != r);
      && G.DeleteTree(cut, t).(revisions := s.revisions - {r}) == G.DeleteTree(R.RemoveRevision(s, r), t)
      && cut.(revisions := s.revisions - {r}) == R.RemoveRevision(s, r)
  {
  }
}
