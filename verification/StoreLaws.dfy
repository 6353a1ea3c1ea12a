/** What each operation on the source store makes of the revision that it names, and what it is refused for. */
module StoreLaws {
  import opened Prelude
  import opened Interning
  import opened SourceGraph
  import opened SourceGraphProofs
  import opened SourceBatch
  import opened SourceRuns
  import D = UnifiedDiff

  /** A patched file: its text is what the patch makes of it, and all else stays. */
  ghost function Patched(f: FileInfo, patch: seq<D.PatchLine>): Option<FileInfo> {
    var lines := D.ApplyPatch(D.SplitLines(f.content.text), patch);
    if lines.Ok? then Some(f.(content := ContentId(D.Join(lines.value)))) else None
  }

  /** The file at a path that a patch is for, when it has the expected content and the patch applies to it. */
  ghost predicate IsPatchable(files: set<FileInfo>, op: Op, f: FileInfo)
    requires op.Patch?
  {
    f in files && f.path == op.path && (op.expected.Some? ==> f.content == op.expected.value) && Patched(f, op.patch).Some?
  }

  /**
   What a step makes of its revision: a new one shows nothing, or what its parent shows; opening and interning change
   where the files are and not the files; a batch and a patch change them as they say, or are refused and change nothing;
   and a discarded revision is gone.
   */
  lemma StepDoes(s: Store, op: Op)
    requires Invariant(s) && Allowed(s, op) && (op.Create? || op.revision in s.revisions)
    ensures
      var next, r := Step(s, op), op.revision;
      match op
      case Create(_, parent) =>
        r in next.revisions && Files(next, r) == (if parent.Some? then Files(s, parent.value) else {})
      case Open(_) => Files(next, r) == Files(s, r) && TreeOf(next, r) == Some(Working(r))
      case Intern(_) => Files(next, r) == Files(s, r) && TreeOf(next, r) == Some(Interned(HashOf(Files(s, r))))
      case Batch(_, changes, expected) =>
        var files := BatchFiles(Files(s, r), changes);
        if files.Ok? && (expected.Some? ==> HashOf(Files(s, r)) == expected.value)
        then Files(next, r) == files.value && TreeOf(next, r) == Some(Working(r))
        else next == s
      case Patch(_, path, patch, expected) =>
        && (forall f :: IsPatchable(Files(s, r), op, f) ==>
              Files(next, r) == (set g | g in Files(s, r) && g.path != path) + {Patched(f, patch).value})
        && ((forall f :: !IsPatchable(Files(s, r), op, f)) ==> next == s)
      case Discard(_) => next.revisions == s.revisions - {r}
  {
    hide CreateRevision, EnsureWritable, InternTree, BatchUpdate, ApplySourcePatch, DiscardRevision, Files, TreeOf,
      WellFormed, NoOrphans, BatchFiles, HashOf, D.ApplyPatch, D.SplitLines, D.Join, At, HasTree;
    match op
    case Create(r, parent) =>
      if parent.Some? {
        var t :| HasTree(s, parent.value, t) && t.Interned?;
        CreateFromParent(s, r, parent.value, t);
      } else {
        CreateEmpty(s, r);
      }
    case Open(r) => EnsureWritableKeeps(s, r);
    case Intern(r) => InternKeeps(s, r);
    case Batch(r, changes, expected) => BatchKeeps(s, r, changes, expected);
    case Patch(r, path, patch, expected) => PatchDoes(s, op);
    case Discard(r) => DiscardKeeps(s, r);
  }

  lemma PatchDoes(s: Store, op: Op)
    requires Invariant(s) && op.Patch? && op.revision in s.revisions
    ensures forall f :: IsPatchable(Files(s, op.revision), op, f) ==>
      Files(Step(s, op), op.revision)
        == (set g | g in Files(s, op.revision) && g.path != op.path) + {Patched(f, op.patch).value}
    ensures (forall f :: !IsPatchable(Files(s, op.revision), op, f)) ==> Step(s, op) == s
  {
    hide ApplySourcePatch, Files, Invariant, BatchFiles, D.ApplyPatch, D.SplitLines, D.Join, At, Without, IsPatchable;
    var files := Files(s, op.revision);
    PatchKeeps(s, op.revision, op.path, op.patch, op.expected);
    FileAt(s, op.revision, op.path);
    var at := At(files, op.path);
    forall f: FileInfo
      ensures IsPatchable(files, op, f) <==>
        at == Some(f) && (op.expected.Some? ==> f.content == op.expected.value) && Patched(f, op.patch).Some?
    {
      OnlyPatchable(files, op, f);
    }
    if at.Some? {
      assert IsPatchable(files, op, at.value) <==> ApplySourcePatch(s, op.revision, op.path, op.patch, op.expected).Ok?;
    }
  }

  lemma OnlyPatchable(files: set<FileInfo>, op: Op, f: FileInfo)
    requires op.Patch? && (f in files && f.path == op.path <==> At(files, op.path) == Some(f))
    ensures IsPatchable(files, op, f) <==>
      && At(files, op.path) == Some(f) && (op.expected.Some? ==> f.content == op.expected.value)
      && Patched(f, op.patch).Some?
  {
  }

  lemma FileAt(s: Store, r: RevisionId, path: string)
    requires Invariant(s) && r in s.revisions
    ensures forall f :: f in Files(s, r) && f.path == path <==> At(Files(s, r), path) == Some(f)
    ensures Without(Files(s, r), path) == set g | g in Files(s, r) && g.path != path
  {
    hide HashOf, Listing, NoOrphans;
    TreeShown(s, r);
    ListingUnique(s, TreeOf(s, r).value);
  }

  /** What a batch is refused for: an unknown revision, another tree than the expected one, or its first fault. */
  lemma BatchRefusedFor(s: Store, r: RevisionId, changes: seq<Change>, expected: Option<TreeDigest>)
    requires Invariant(s)
    ensures
      var result := BatchUpdate(s, r, changes, expected);
      if r !in s.revisions then result == Err(UnknownRevision)
      else if expected.Some? && HashOf(Files(s, r)) != expected.value then result == Err(TreeConflict)
      else if BatchFiles(Files(s, r), changes).Err? then result == Err(BatchFiles(Files(s, r), changes).error)
      else result.Ok?
  {
    hide BatchFiles, HashOf, NoOrphans, Collect, EnsureWritable, SetFiles, Listing;
    if r in s.revisions {
      BatchKeeps(s, r, changes, expected);
      TreeShown(s, r);
      TreeFacts(s, r, TreeOf(s, r).value);
    }
  }

  /** What a patch is refused for: an unknown revision or path, another content than the expected one, or the patch. */
  lemma PatchRefusedFor(s: Store, r: RevisionId, path: string, patch: seq<D.PatchLine>, expected: Option<ContentId>)
    requires Invariant(s)
    ensures
      var result := ApplySourcePatch(s, r, path, patch, expected);
      && (r !in s.revisions ==> result == Err(UnknownRevision))
      && (r in s.revisions ==>
            && (result == Err(PathMissing(path)) <==> forall f :: f in Files(s, r) ==> f.path != path)
            && (result == Err(SourceConflict(path)) <==>
                  expected.Some? && exists f :: f in Files(s, r) && f.path == path && f.content != expected.value)
            && (result == Err(PatchRefused) <==>
                  exists f :: f in Files(s, r) && f.path == path && (expected.Some? ==> f.content == expected.value)
                              && Patched(f, patch).None?))
  {
    hide BatchUpdate, D.ApplyPatch, D.SplitLines, D.Join, Listing, HashOf, NoOrphans, At, BatchFiles;
    if r in s.revisions {
      PatchKeeps(s, r, path, patch, expected);
      FileAt(s, r, path);
      TreeShown(s, r);
    }
  }
}
