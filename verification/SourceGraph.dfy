/**
 The part of the graph that holds source: revisions point at trees, trees hold files, files name contents.
 Trees are drafts that one revision edits, or interned and shared by hash.

 Each operation of the store is a function here; `SourceStore` proves the imperative operations against them.
 */
module SourceGraph {
  import opened Prelude
  import opened Interning

  type RevisionId = string

  /** The id of the tree that a revision edits, or the hash of an interned tree. */
  datatype TreeId = Working(revision: RevisionId) | Interned(digest: TreeDigest)

  datatype TreeStatus = DraftTree | InternedTree

  datatype Tree = Tree(status: TreeStatus, hash: TreeDigest, owner: Option<RevisionId>)

  /** HAS_SOURCE_TREE */
  datatype TreeEdge = TreeEdge(revision: RevisionId, tree: TreeId)

  /** HAS_FILE */
  datatype FileEdge = FileEdge(tree: TreeId, file: FileInfo)

  datatype Store = Store(
    revisions: set<RevisionId>,
    treeEdges: set<TreeEdge>,
    trees: map<TreeId, Tree>,
    fileEdges: set<FileEdge>,
    contents: map<ContentId, string>)

  const EMPTY := Store({}, {}, map[], {}, map[])

  // ---------------------------------------------------------------------------
  // Reading

  function Listing(s: Store, t: TreeId): set<FileInfo> {
    set e | e in s.fileEdges && e.tree == t :: e.file
  }

  /** `t` is the one tree of revision `r`, and it exists. */
  predicate HasTree(s: Store, r: RevisionId, t: TreeId) {
    && r in s.revisions
    && t in s.trees
    && TreeEdge(r, t) in s.treeEdges
    && forall e :: e in s.treeEdges && e.revision == r ==> e.tree == t
  }

  ghost function TreeOf(s: Store, r: RevisionId): (t: Option<TreeId>)
    ensures t.Some? ==> HasTree(s, r, t.value)
    ensures forall u :: HasTree(s, r, u) ==> t == Some(u)
  {
    if exists t :: HasTree(s, r, t) then
      var t :| HasTree(s, r, t);
      Some(t)
    else
      None
  }

  /** The files that a revision shows. */
  ghost function Files(s: Store, r: RevisionId): set<FileInfo> {
    match TreeOf(s, r)
    case None => {}
    case Some(t) => Listing(s, t)
  }

  // ---------------------------------------------------------------------------
  // What every operation keeps

  /** No edge dangles. */
  predicate EdgesLive(s: Store) {
    && (forall e :: e in s.treeEdges ==> e.revision in s.revisions && e.tree in s.trees)
    && (forall e :: e in s.fileEdges ==> e.tree in s.trees && e.file.content in s.contents)
  }

  /** Every revision has one tree. */
  predicate OneTreeEach(s: Store) {
    && (forall e, f :: e in s.treeEdges && f in s.treeEdges && e.revision == f.revision ==> e == f)
    && (forall r :: r in s.revisions ==> exists e :: e in s.treeEdges && e.revision == r)
  }

  /** A path occurs once in a tree. */
  predicate PathsUnique(s: Store) {
    forall e, f :: e in s.fileEdges && f in s.fileEdges && e.tree == f.tree && e.file.path == f.file.path ==> e == f
  }

  predicate ContentsAddressed(s: Store) {
    forall c :: c in s.contents ==> s.contents[c] == c.text
  }

  /** The stored hash of a tree is the hash of the files it holds now. */
  ghost predicate HashesCurrent(s: Store) {
    forall t :: t in s.trees ==> s.trees[t].hash == HashOf(Listing(s, t))
  }

  /** An interned tree is named by its hash; a draft is named after the revision that owns it. */
  predicate IdsFit(s: Store) {
    forall t :: t in s.trees ==>
      match t
      case Interned(h) => s.trees[t] == Tree(InternedTree, h, None)
      case Working(r) => s.trees[t].status == DraftTree && s.trees[t].owner == Some(r)
  }

  /** Only its owner refers to a draft. */
  predicate DraftsPrivate(s: Store) {
    forall e :: e in s.treeEdges && e.tree.Working? ==> e.tree.revision == e.revision
  }

  ghost predicate WellFormed(s: Store) {
    && EdgesLive(s)
    && OneTreeEach(s)
    && PathsUnique(s)
    && ContentsAddressed(s)
    && HashesCurrent(s)
    && IdsFit(s)
    && DraftsPrivate(s)
  }

  /** Nothing is stored that no revision shows. */
  predicate NoOrphans(s: Store) {
    && (forall t :: t in s.trees ==> exists e :: e in s.treeEdges && e.tree == t)
    && (forall c :: c in s.contents ==> exists e :: e in s.fileEdges && e.file.content == c)
  }

  ghost predicate Invariant(s: Store) {
    WellFormed(s) && NoOrphans(s)
  }

  // ---------------------------------------------------------------------------
  // Steps

  /** Clear the file edges of a path. */
  function UnlinkPath(s: Store, t: TreeId, path: string): Store {
    s.(fileEdges := set e | e in s.fileEdges && !(e.tree == t && e.file.path == path))
  }

  /** MERGE on the path and both ends; nothing happens when an end is missing. */
  function CreateFileEdge(s: Store, t: TreeId, f: FileInfo): Store {
    if t in s.trees && f.content in s.contents then
      s.(fileEdges :=
        (set e | e in s.fileEdges && !(e.tree == t && e.file.path == f.path && e.file.content == f.content))
        + {FileEdge(t, f)})
    else
      s
  }

  function SaveContent(s: Store, c: ContentId): Store {
    if c in s.contents then s else s.(contents := s.contents[c := c.text])
  }

  function PutFile(s: Store, t: TreeId, f: FileInfo): Store {
    CreateFileEdge(SaveContent(UnlinkPath(s, t, f.path), f.content), t, f)
  }

  /** Contents for every file of a set, keeping those already stored. */
  function SaveContents(contents: map<ContentId, string>, files: set<FileInfo>): map<ContentId, string> {
    map c | c in contents.Keys + (set f | f in files :: f.content) :: if c in contents then contents[c] else c.text
  }

  function Edges(t: TreeId, files: set<FileInfo>): set<FileEdge> {
    set f | f in files :: FileEdge(t, f)
  }

  /** Put every file of a set into a tree, in any order. */
  function PutAll(s: Store, t: TreeId, files: set<FileInfo>): Store {
    var paths := set f | f in files :: f.path;
    s.(fileEdges := (set e | e in s.fileEdges && !(e.tree == t && e.file.path in paths)) + Edges(t, files),
       contents := SaveContents(s.contents, files))
  }

  /** Save a tree record, then put files into it. */
  function AddTree(s: Store, t: TreeId, record: Tree, files: set<FileInfo>): Store {
    PutAll(s.(trees := s.trees[t := record]), t, files)
  }

  /** Make a tree hold exactly a set of files, and refresh its hash. */
  ghost function SetFiles(s: Store, t: TreeId, files: set<FileInfo>): Store
    requires t in s.trees
  {
    s.(fileEdges := (set e | e in s.fileEdges && e.tree != t) + Edges(t, files),
       contents := SaveContents(s.contents, files),
       trees := s.trees[t := s.trees[t].(hash := HashOf(files))])
  }

  /** Clear the HAS_SOURCE_TREE edges of a revision, then create one. */
  function SetTree(s: Store, r: RevisionId, t: TreeId): Store {
    s.(treeEdges := (set e | e in s.treeEdges && e.revision != r) + {TreeEdge(r, t)})
  }

  /** Delete a tree and detach it. */
  function DeleteTree(s: Store, t: TreeId): Store {
    s.(trees := s.trees - {t},
       treeEdges := (set e | e in s.treeEdges && e.tree != t),
       fileEdges := (set e | e in s.fileEdges && e.tree != t))
  }

  function ShownTrees(s: Store): set<TreeId> {
    set e | e in s.treeEdges :: e.tree
  }

  function UsedContents(edges: set<FileEdge>): set<ContentId> {
    set e | e in edges :: e.file.content
  }

  /** Collect what no revision shows. */
  function Collect(s: Store): Store {
    var shown := ShownTrees(s);
    var kept := set e | e in s.fileEdges && e.tree in shown;
    s.(trees := (map t | t in s.trees && t in shown :: s.trees[t]),
       fileEdges := kept,
       contents := (map c | c in s.contents && c in UsedContents(kept) :: s.contents[c]))
  }

  // ---------------------------------------------------------------------------
  // Operations

  datatype SourceError =
    | UnknownRevision
    | TreeConflict
    | SourceConflict(path: string)
    | PathMissing(path: string)
    | RenameNeedsPath
    | TargetExists(path: string)
    | MissingContent
    | PatchRefused

  ghost function EnsureWritable(s: Store, r: RevisionId): Result<Store, SourceError> {
    match TreeOf(s, r)
    case None => Err(UnknownRevision)
    case Some(t) =>
      if s.trees[t].status == DraftTree then
        Ok(s)
      else
        var w := Working(r);
        Ok(Collect(SetTree(AddTree(s, w, Tree(DraftTree, s.trees[t].hash, Some(r)), Listing(s, t)), r, w)))
  }

  ghost function InternTree(s: Store, r: RevisionId): Result<Store, SourceError> {
    match TreeOf(s, r)
    case None => Err(UnknownRevision)
    case Some(t) =>
      var files := Listing(s, t);
      var i := Interned(HashOf(files));
      var saved :=
        if i in s.trees && s.trees[i].status == InternedTree then s
        else AddTree(s, i, Tree(InternedTree, HashOf(files), None), files);
      if t == i then
        Ok(Collect(saved))
      else
        var moved := SetTree(saved, r, i);
        Ok(Collect(if s.trees[t].status == DraftTree then DeleteTree(moved, t) else moved))
  }

  /** A new revision with the interned empty tree, or with the tree of its parent. */
  ghost function CreateRevision(s: Store, r: RevisionId, parent: Option<RevisionId>): Store {
    var added := s.(revisions := s.revisions + {r});
    match parent
    case Some(p) =>
      added.(treeEdges := s.treeEdges + (set e | e in s.treeEdges && e.revision == p :: TreeEdge(r, e.tree)))
    case None =>
      var h := HashOf({});
      var i := Interned(h);
      SetTree(if i in s.trees then added else added.(trees := s.trees[i := Tree(InternedTree, h, None)]), r, i)
  }

  ghost function DiscardRevision(s: Store, r: RevisionId): Result<Store, SourceError> {
    match TreeOf(s, r)
    case None => Err(UnknownRevision)
    case Some(t) =>
      var cut := s.(treeEdges := set e | e in s.treeEdges && e.revision != r);
      var dropped := if s.trees[t].status == DraftTree && s.trees[t].owner == Some(r) then DeleteTree(cut, t) else cut;
      Ok(Collect(dropped.(revisions := s.revisions - {r})))
  }
}
