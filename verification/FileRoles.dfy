/** What becomes of one file in a batch: where it goes, what is written to it, and the role and language it keeps. */
module FileRoles {
  import opened Prelude
  import opened Interning
  import opened SourceGraph
  import opened SourceBatch
  import opened BatchOrigins
  import opened SourceRuns

  /** A change ends the file at a path: it deletes it, or renames another file onto it. A write does not. */
  predicate Ends(c: Change, p: string) {
    || (c.Delete? && c.path == p)
    || (c.Rename? && c.newPath == p && c.path != p)
  }

  function MovedTo(c: Change, p: string): string {
    if c.Rename? && c.path == p then c.newPath else p
  }

  /** Where the file at a path is after the changes, unless one of them ends it. */
  function LivesAt(p: string, changes: seq<Change>): Option<string>
    decreases |changes|
  {
    if changes == [] then Some(p)
    else if Ends(changes[0], p) then None
    else LivesAt(MovedTo(changes[0], p), changes[1..])
  }

  /** The content last written to the file at a path, wherever renames take it; the content it has, if there is none. */
  function LastContent(p: string, changes: seq<Change>, content: ContentId): ContentId
    decreases |changes|
  {
    if changes == [] then content
    else
      var c := changes[0];
      var now := if c.Write? && c.path == p && c.content.Some? then ContentId(c.content.value) else content;
      LastContent(MovedTo(c, p), changes[1..], now)
  }

  lemma OneChangeCarries(files: set<FileInfo>, c: Change, f: FileInfo)
    requires UniquePaths(files) && f in files && ApplyChange(files, c).Ok? && !Ends(c, f.path)
    ensures UniquePaths(ApplyChange(files, c).value)
    ensures f.(path := MovedTo(c, f.path),
               content := if c.Write? && c.path == f.path then ContentId(c.content.value) else f.content)
      in ApplyChange(files, c).value
    ensures c.Write? ==> c.content.Some?
  {
    ApplyChangeFrame(files, c);
    assert At(files, f.path) == Some(f);
  }

  /**
   A file that no change ends is there after the batch, where renames took it, with the content last written to it. It
   keeps its role and language, whatever role and language the writes name.
   */
  lemma {:induction false} FileKeepsRole(files: set<FileInfo>, changes: seq<Change>, f: FileInfo)
    requires UniquePaths(files) && f in files && ApplyChanges(files, changes).Ok? && LivesAt(f.path, changes).Some?
    ensures FileInfo(LivesAt(f.path, changes).value, LastContent(f.path, changes, f.content), f.role, f.language)
      in ApplyChanges(files, changes).value
    decreases |changes|
  {
    hide ApplyChange, UniquePaths;
    if changes == [] {
      assert f == FileInfo(f.path, f.content, f.role, f.language);
    } else {
      var c := changes[0];
      OneChangeCarries(files, c, f);
      var next := f.(path := MovedTo(c, f.path),
                     content := if c.Write? && c.path == f.path then ContentId(c.content.value) else f.content);
      FileKeepsRole(ApplyChange(files, c).value, changes[1..], next);
    }
  }

  lemma {:induction false} UntouchedStays(files: set<FileInfo>, changes: seq<Change>, p: string)
    requires UniquePaths(files) && ApplyChanges(files, changes).Ok?
    requires forall j :: 0 <= j < |changes| ==> p !in Touched(changes[j])
    ensures UniquePaths(ApplyChanges(files, changes).value) && At(ApplyChanges(files, changes).value, p) == At(files, p)
    decreases |changes|
  {
    hide ApplyChange, UniquePaths, At, Touched;
    if changes != [] {
      ApplyChangeFrame(files, changes[0]);
      assert forall j :: 0 <= j < |changes| - 1 ==> changes[1..][j] == changes[j + 1];
      UntouchedStays(ApplyChange(files, changes[0]).value, changes[1..], p);
    }
  }

  lemma FirstWriteMakes(files: set<FileInfo>, c: Change)
    requires UniquePaths(files) && ApplyChange(files, c).Ok? && c.Write? && At(files, c.path).None?
    ensures c.content.Some? && FileInfo(c.path, ContentId(c.content.value), c.role, c.language) in ApplyChange(files, c).value
    ensures UniquePaths(ApplyChange(files, c).value)
  {
    ApplyChangeFrame(files, c);
  }

  /** A path without a file: the first write makes one, and it keeps the role and language of that write from then on. */
  lemma NewFileKeepsFirstRole(files: set<FileInfo>, changes: seq<Change>, i: nat)
    requires UniquePaths(files) && ApplyChanges(files, changes).Ok? && i < |changes| && changes[i].Write?
    requires At(files, changes[i].path).None? && changes[i].content.Some?
    requires forall j :: 0 <= j < i ==> changes[i].path !in Touched(changes[j])
    requires LivesAt(changes[i].path, changes[i + 1..]).Some?
    ensures
      var c, later := changes[i], changes[i + 1..];
      FileInfo(LivesAt(c.path, later).value, LastContent(c.path, later, ContentId(c.content.value)), c.role, c.language)
        in ApplyChanges(files, changes).value
  {
    hide ApplyChange, UniquePaths, At, Touched;
    var c, later := changes[i], changes[i + 1..];
    ApplyPrefix(files, changes, i);
    assert forall j :: 0 <= j < i ==> changes[..i][j] == changes[j];
    UntouchedStays(files, changes[..i], c.path);
    FirstWriteMakes(ApplyChanges(files, changes[..i]).value, c);
    ApplySplit(files, changes, i + 1);
    FileKeepsRole(ApplyChanges(files, changes[..i + 1]).value, later,
                  FileInfo(c.path, ContentId(c.content.value), c.role, c.language));
  }

  /** The same on a revision: every file that no change of a batch ends keeps its role and language. */
  lemma RevisionKeepsRoles(s: Store, r: RevisionId, changes: seq<Change>, expected: Option<TreeDigest>, f: FileInfo)
    requires Invariant(s) && r in s.revisions && BatchUpdate(s, r, changes, expected).Ok?
    requires f in Files(s, r) && LivesAt(f.path, changes).Some?
    ensures FileInfo(LivesAt(f.path, changes).value, LastContent(f.path, changes, f.content), f.role, f.language)
      in Files(BatchUpdate(s, r, changes, expected).value, r)
  {
    hide Invariant, BatchUpdate, Files, ApplyChanges, Validate;
    BatchKeeps(s, r, changes, expected);
    FilesUnique(s, r);
    FileKeepsRole(Files(s, r), changes, f);
  }

  /** And a file that a batch makes keeps those of its first write. */
  lemma RevisionMakesFile(s: Store, r: RevisionId, changes: seq<Change>, expected: Option<TreeDigest>, i: nat)
    requires Invariant(s) && r in s.revisions && BatchUpdate(s, r, changes, expected).Ok?
    requires i < |changes| && changes[i].Write? && changes[i].content.Some?
    requires At(Files(s, r), changes[i].path).None?
    requires forall j :: 0 <= j < i ==> changes[i].path !in Touched(changes[j])
    requires LivesAt(changes[i].path, changes[i + 1..]).Some?
    ensures
      var c, later := changes[i], changes[i + 1..];
      FileInfo(LivesAt(c.path, later).value, LastContent(c.path, later, ContentId(c.content.value)), c.role, c.language)
        in Files(BatchUpdate(s, r, changes, expected).value, r)
  {
    hide Invariant, BatchUpdate, Files, ApplyChanges, Validate;
    BatchKeeps(s, r, changes, expected);
    FilesUnique(s, r);
    NewFileKeepsFirstRole(Files(s, r), changes, i);
  }

  lemma FilesUnique(s: Store, r: RevisionId)
    requires Invariant(s)
    ensures UniquePaths(Files(s, r))
  {
    hide EdgesLive, OneTreeEach, ContentsAddressed, HashesCurrent, IdsFit, DraftsPrivate, NoOrphans;
  }

  // ---------------------------------------------------------------------------
  // Which batches go through

  /** What a change asks of the listing before the batch. */
  predicate Starts(files: set<FileInfo>, c: Change) {
    && (c.expected.Some? ==> exists f :: f in files && f.path == c.path && f.content == c.expected.value)
    && (c.Write? || exists f :: f in files && f.path == c.path)
    && (c.Rename? ==> c.newPath != "" && forall f :: f in files ==> f.path != c.newPath)
  }

  lemma CheckedIff(files: set<FileInfo>, c: Change)
    requires UniquePaths(files)
    ensures Check(files, c).None? <==> Starts(files, c)
  {
    if f :| f in files && f.path == c.path {
      assert At(files, c.path) == Some(f);
    }
  }

  /** The file that a change reads is there when its turn comes; a write has a content. */
  predicate HasItsFile(paths: set<string>, changes: seq<Change>, k: nat)
    requires k < |changes|
  {
    if changes[k].Write? then changes[k].content.Some? else changes[k].path in Origins(paths, changes[..k])
  }

  lemma {:induction false} AppliesIff(files: set<FileInfo>, changes: seq<Change>)
    requires UniquePaths(files)
    ensures ApplyChanges(files, changes).Ok? <==> forall k :: 0 <= k < |changes| ==> HasItsFile(Paths(files), changes, k)
    decreases |changes|
  {
    hide ApplyChange, UniquePaths, Origins;
    if changes != [] {
      var n := |changes| - 1;
      var start, c := changes[..n], changes[n];
      AppliesIff(files, start);
      assert changes == start + [c];
      assert forall k :: 0 <= k < n ==> start[..k] == changes[..k] && start[k] == changes[k];
      assert forall k :: 0 <= k < n ==> HasItsFile(Paths(files), start, k) == HasItsFile(Paths(files), changes, k);
      if ApplyChanges(files, start).Ok? {
        ApplyMore(files, start, c);
        OriginsAreReal(files, start, c.path);
        OneApplies(ApplyChanges(files, start).value, c);
        assert HasItsFile(Paths(files), changes, n) <==> ApplyChange(ApplyChanges(files, start).value, c).Ok?;
      } else {
        FailsEarlier(files, start, c);
      }
    }
  }

  lemma OneApplies(files: set<FileInfo>, c: Change)
    ensures ApplyChange(files, c).Ok? <==> if c.Write? then c.content.Some? else At(files, c.path).Some?
  {
  }

  lemma {:induction false} FailsEarlier(files: set<FileInfo>, changes: seq<Change>, c: Change)
    requires ApplyChanges(files, changes).Err?
    ensures ApplyChanges(files, changes + [c]) == ApplyChanges(files, changes)
    decreases |changes|
  {
    hide ApplyChange;
    assert (changes + [c])[1..] == changes[1..] + [c] && (changes + [c])[0] == changes[0];
    if ApplyChange(files, changes[0]).Ok? {
      FailsEarlier(ApplyChange(files, changes[0]).value, changes[1..], c);
    }
  }

  /** The first change without its file, or without the content of its write, decides how a validated batch fails. */
  lemma {:induction false} LateFaultDecides(files: set<FileInfo>, changes: seq<Change>, k: nat)
    requires UniquePaths(files) && k < |changes| && !HasItsFile(Paths(files), changes, k)
    requires forall j :: 0 <= j < k ==> HasItsFile(Paths(files), changes, j)
    ensures ApplyChanges(files, changes) ==
      Err(if changes[k].Write? then MissingContent else PathMissing(changes[k].path))
    decreases |changes|
  {
    hide ApplyChange, UniquePaths, Origins, ApplyChanges;
    var n := |changes| - 1;
    var start, c := changes[..n], changes[n];
    assert changes == start + [c];
    assert forall j :: 0 <= j < n ==> start[..j] == changes[..j] && start[j] == changes[j];
    assert forall j :: 0 <= j < n ==> HasItsFile(Paths(files), start, j) == HasItsFile(Paths(files), changes, j);
    if k < n {
      LateFaultDecides(files, start, k);
      FailsEarlier(files, start, c);
    } else {
      AppliesIff(files, start);
      ApplyMore(files, start, c);
      OriginsAreReal(files, start, c.path);
      FaultOf(ApplyChanges(files, start).value, c);
    }
  }

  lemma FaultOf(files: set<FileInfo>, c: Change)
    requires if c.Write? then c.content.None? else At(files, c.path).None?
    ensures ApplyChange(files, c) == Err(if c.Write? then MissingContent else PathMissing(c.path))
  {
  }

  /**
   A batch goes through exactly when every change fits the listing before the batch - the expected content, a file to
   delete or rename, a new path that is free - and has its file, and a write its content, when its turn comes.
   */
  lemma BatchGoesThroughIff(files: set<FileInfo>, changes: seq<Change>)
    requires UniquePaths(files)
    ensures BatchFiles(files, changes).Ok? <==>
      forall k :: 0 <= k < |changes| ==> Starts(files, changes[k]) && HasItsFile(Paths(files), changes, k)
  {
    hide ApplyChanges, Check, Starts, HasItsFile, Validate;
    ValidateEach(files, changes);
    AppliesIff(files, changes);
    forall k | 0 <= k < |changes|
      ensures Check(files, changes[k]).None? <==> Starts(files, changes[k])
    {
      CheckedIff(files, changes[k]);
    }
  }

  /** What the refusals mean: a conflict comes first, then a missing file, then a missing or a taken new path. */
  lemma RefusalMeans(files: set<FileInfo>, c: Change)
    requires UniquePaths(files)
    ensures
      var held := c.expected.Some? ==> exists f :: f in files && f.path == c.path && f.content == c.expected.value;
      var there := c.Write? || exists f :: f in files && f.path == c.path;
      && (!held ==> Check(files, c) == Some(SourceConflict(c.path)))
      && (held && !there ==> Check(files, c) == Some(PathMissing(c.path)))
      && (held && there && c.Rename? && c.newPath == "" ==> Check(files, c) == Some(RenameNeedsPath))
      && (held && there && c.Rename? && c.newPath != "" && (exists f :: f in files && f.path == c.newPath) ==>
            Check(files, c) == Some(TargetExists(c.newPath)))
  {
    if f :| f in files && f.path == c.path {
      assert At(files, c.path) == Some(f);
    }
  }

  /** The first change with a fault decides the refusal. */
  lemma {:induction false} FirstFaultDecides(files: set<FileInfo>, changes: seq<Change>, k: nat)
    requires k < |changes| && Check(files, changes[k]).Some?
    requires forall j :: 0 <= j < k ==> Check(files, changes[j]).None?
    ensures Validate(files, changes) == Check(files, changes[k])
    ensures BatchFiles(files, changes) == Err(Check(files, changes[k]).value)
    decreases k
  {
    hide Check, ApplyChanges;
    if k > 0 {
      assert forall j :: 0 <= j < k - 1 ==> changes[1..][j] == changes[j + 1];
      assert Check(files, changes[0]).None? && changes[1..][k - 1] == changes[k];
      FirstFaultDecides(files, changes[1..], k - 1);
    }
  }
}
