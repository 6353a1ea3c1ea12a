/** Which change of a batch put each file where it is, and so which files a batch loses. */
module BatchOrigins {
  import opened Prelude
  import opened Interning
  import opened SourceGraph
  import opened SourceBatch

  /** The path a change leaves a file at. */
  function TargetPath(c: Change): string {
    if c.Rename? then c.newPath else c.path
  }

  function Paths(files: set<FileInfo>): set<string> {
    set f | f in files :: f.path
  }

  /** For each path after a batch: the change that put its file there, or none for a file that was there before. */
  function Origins(paths: set<string>, changes: seq<Change>): map<string, Option<nat>> {
    if changes == [] then map p | p in paths :: None
    else
      var n := |changes| - 1;
      var before := Origins(paths, changes[..n]);
      match changes[n]
      case Write(path, _, _, _, _) => before[path := Some(n)]
      case Delete(path, _) => before - {path}
      case Rename(path, newPath, _) => (before - {path})[newPath := Some(n)]
  }

  // ---------------------------------------------------------------------------
  // Prefixes of a batch

  lemma {:induction false} ApplyPrefix(files: set<FileInfo>, changes: seq<Change>, k: nat)
    requires ApplyChanges(files, changes).Ok? && k < |changes|
    ensures ApplyChanges(files, changes[..k]).Ok?
    ensures ApplyChange(ApplyChanges(files, changes[..k]).value, changes[k]).Ok?
    ensures ApplyChanges(files, changes[..k + 1]) == ApplyChange(ApplyChanges(files, changes[..k]).value, changes[k])
    decreases |changes|
  {
    hide ApplyChange;
    var next := ApplyChange(files, changes[0]).value;
    if k == 0 {
      assert changes[..0] == [] && changes[..1][1..] == [];
    } else {
      ApplyPrefix(next, changes[1..], k - 1);
      assert changes[..k][1..] == changes[1..][..k - 1] && changes[..k + 1][1..] == changes[1..][..k];
      assert changes[1..][k - 1] == changes[k];
    }
  }

  /** The listing when change `k` starts. */
  ghost function Before(files: set<FileInfo>, changes: seq<Change>, k: nat): set<FileInfo>
    requires k <= |changes| && ApplyChanges(files, changes[..k]).Ok?
  {
    ApplyChanges(files, changes[..k]).value
  }

  /** What one change does to the files at the paths it touches. */
  lemma ApplyChangeAt(files: set<FileInfo>, c: Change, p: string)
    requires UniquePaths(files) && ApplyChange(files, c).Ok?
    ensures UniquePaths(ApplyChange(files, c).value)
    ensures At(ApplyChange(files, c).value, p) ==
      if !c.Delete? && p == TargetPath(c) then Produced(files, c)
      else if p in Touched(c) then None
      else At(files, p)
    ensures !c.Delete? ==> Produced(files, c).Some?
  {
    ApplyChangeFrame(files, c);
    var next := ApplyChange(files, c).value;
    if !c.Delete? && p == TargetPath(c) {
      assert Produced(files, c).value in next;
    }
  }

  /** The origin of each file is real: it is what that change produced, or the file that was there from the start. */
  lemma {:induction false} OriginsAreReal(files: set<FileInfo>, changes: seq<Change>, p: string)
    requires UniquePaths(files) && ApplyChanges(files, changes).Ok?
    ensures
      var after, o := ApplyChanges(files, changes).value, Origins(Paths(files), changes);
      && UniquePaths(after)
      && (p in o <==> At(after, p).Some?)
      && (p in o && o[p].None? ==> At(after, p) == At(files, p))
      && (p in o && o[p].Some? ==>
            && o[p].value < |changes| && TargetPath(changes[o[p].value]) == p && !changes[o[p].value].Delete?
            && ApplyChanges(files, changes[..o[p].value]).Ok?
            && At(after, p) == Produced(Before(files, changes, o[p].value), changes[o[p].value]))
    decreases |changes|
  {
    hide ApplyChange, Produced;
    if changes == [] {
      assert At(files, p).Some? ==> At(files, p).value.path in Paths(files);
    } else {
      var n := |changes| - 1;
      var start, c := changes[..n], changes[n];
      ApplyPrefix(files, changes, n);
      assert changes[..n + 1] == changes;
      OriginsAreReal(files, start, p);
      ApplyChangeAt(ApplyChanges(files, start).value, c, p);
      var o := Origins(Paths(files), start);
      assert p in o && o[p].Some? ==> start[..o[p].value] == changes[..o[p].value];
    }
  }

  /** A change is the origin of the file at its path exactly when no later change touches that path. */
  lemma {:induction false} OriginIff(paths: set<string>, changes: seq<Change>, p: string, i: nat)
    ensures
      (p in Origins(paths, changes) && Origins(paths, changes)[p] == Some(i)) <==>
        && i < |changes| && !changes[i].Delete? && TargetPath(changes[i]) == p
        && forall j :: i < j < |changes| ==> p !in Touched(changes[j])
    decreases |changes|
  {
    if changes != [] {
      var n := |changes| - 1;
      OriginIff(paths, changes[..n], p, i);
      assert i < n ==> changes[..n][i] == changes[i];
      assert forall j :: 0 <= j < n ==> changes[..n][j] == changes[j];
    }
  }

  /** Change `i` produced a file, and after the batch that very file is where it was put. */
  predicate KeepsProduced(paths: set<string>, changes: seq<Change>, i: nat)
    requires i < |changes|
  {
    var o := Origins(paths, changes);
    changes[i].Delete? || (TargetPath(changes[i]) in o && o[TargetPath(changes[i])] == Some(i))
  }

  predicate LeavesAlone(changes: seq<Change>, i: nat, j: nat)
    requires i < |changes| && j < |changes|
  {
    changes[i].Delete? || TargetPath(changes[i]) !in Touched(changes[j])
  }

  predicate LeftAlone(changes: seq<Change>, i: nat)
    requires i < |changes|
  {
    forall j :: i < j < |changes| ==> LeavesAlone(changes, i, j)
  }

  lemma KeptIffLeftAlone(paths: set<string>, changes: seq<Change>, i: nat)
    requires i < |changes|
    ensures KeepsProduced(paths, changes, i) <==> LeftAlone(changes, i)
  {
    hide Origins;
    var p := TargetPath(changes[i]);
    OriginIff(paths, changes, p, i);
    assert LeftAlone(changes, i) <==> changes[i].Delete? || forall j :: i < j < |changes| ==> p !in Touched(changes[j]) by {
      if LeftAlone(changes, i) && !changes[i].Delete? {
        forall j | i < j < |changes|
          ensures p !in Touched(changes[j])
        {
          assert LeavesAlone(changes, i, j);
        }
      }
    }
  }

  /**
   Every file that a change of the batch produced stays where it was put exactly when no later change touches its path.
   The validation does not check this, as it looks at the listing before the batch alone.
   */
  lemma StaysWherePutIff(files: set<FileInfo>, changes: seq<Change>)
    requires UniquePaths(files) && BatchFiles(files, changes).Ok?
    ensures
      (forall i :: 0 <= i < |changes| ==> KeepsProduced(Paths(files), changes, i)) <==>
        forall i :: 0 <= i < |changes| ==> LeftAlone(changes, i)
    ensures forall i :: 0 <= i < |changes| && !changes[i].Delete? && KeepsProduced(Paths(files), changes, i) ==>
      && ApplyChanges(files, changes[..i]).Ok?
      && At(BatchFiles(files, changes).value, TargetPath(changes[i])) == Produced(Before(files, changes, i), changes[i])
  {
    hide Origins, ApplyChanges, Produced, Validate, LeftAlone;
    forall i | 0 <= i < |changes|
      ensures KeepsProduced(Paths(files), changes, i) <==> LeftAlone(changes, i)
    {
      KeptIffLeftAlone(Paths(files), changes, i);
    }
    forall i | 0 <= i < |changes| && !changes[i].Delete? && KeepsProduced(Paths(files), changes, i)
      ensures ApplyChanges(files, changes[..i]).Ok?
      ensures At(BatchFiles(files, changes).value, TargetPath(changes[i])) == Produced(Before(files, changes, i), changes[i])
    {
      OriginsAreReal(files, changes, TargetPath(changes[i]));
    }
  }

  // ---------------------------------------------------------------------------
  // Where a file goes

  /** A change removes the file at a path: it deletes it, writes over it, or renames another one onto it. */
  predicate Removes(c: Change, p: string) {
    p in Touched(c) && !(c.Rename? && c.path == p)
  }

  /** Where the file at a path is after the changes; none when one of them has removed it. */
  function EndsAt(p: string, changes: seq<Change>): Option<string>
    decreases |changes|
  {
    if changes == [] then Some(p)
    else if Removes(changes[0], p) then None
    else EndsAt(if changes[0].Rename? && changes[0].path == p then changes[0].newPath else p, changes[1..])
  }

  lemma OneChangeMoves(files: set<FileInfo>, c: Change, f: FileInfo)
    requires UniquePaths(files) && f in files && ApplyChange(files, c).Ok? && !Removes(c, f.path)
    ensures f.(path := if c.Rename? && c.path == f.path then c.newPath else f.path) in ApplyChange(files, c).value
    ensures UniquePaths(ApplyChange(files, c).value)
  {
    ApplyChangeFrame(files, c);
    assert At(files, f.path) == Some(f);
  }

  /** A file that no change removes is there after the batch, with its content, role and language, where renames took it. */
  lemma {:induction false} FileGoesOn(files: set<FileInfo>, changes: seq<Change>, f: FileInfo)
    requires UniquePaths(files) && f in files && ApplyChanges(files, changes).Ok? && EndsAt(f.path, changes).Some?
    ensures f.(path := EndsAt(f.path, changes).value) in ApplyChanges(files, changes).value
    decreases |changes|
  {
    hide ApplyChange, UniquePaths;
    if changes != [] {
      var c := changes[0];
      OneChangeMoves(files, c, f);
      var moved := f.(path := if c.Rename? && c.path == f.path then c.newPath else f.path);
      FileGoesOn(ApplyChange(files, c).value, changes[1..], moved);
    }
  }

  /** Two files never go to one path: what is renamed onto a path removes what is there. */
  lemma {:induction false} GoApart(p: string, q: string, changes: seq<Change>)
    requires p != q && EndsAt(p, changes).Some? && EndsAt(q, changes).Some?
    ensures EndsAt(p, changes) != EndsAt(q, changes)
    decreases |changes|
  {
    if changes != [] {
      var c := changes[0];
      GoApart(if c.Rename? && c.path == p then c.newPath else p, if c.Rename? && c.path == q then c.newPath else q,
              changes[1..]);
    }
  }

  /** Change `j` removes the file that was at `p`, wherever it is by then. */
  predicate RemovedBy(p: string, changes: seq<Change>, j: nat)
    requires j < |changes|
  {
    var there := EndsAt(p, changes[..j]);
    there.Some? && Removes(changes[j], there.value)
  }

  lemma {:induction false} EndsAtPrefix(p: string, changes: seq<Change>, c: Change)
    ensures EndsAt(p, changes + [c]) ==
      if EndsAt(p, changes).None? then None else EndsAt(EndsAt(p, changes).value, [c])
    decreases |changes|
  {
    hide Removes;
    if changes == [] {
      assert [] + [c] == [c];
    } else {
      assert (changes + [c])[1..] == changes[1..] + [c];
      EndsAtPrefix(if changes[0].Rename? && changes[0].path == p then changes[0].newPath else p, changes[1..], c);
    }
  }

  lemma {:induction false} RemovedIff(p: string, changes: seq<Change>)
    ensures EndsAt(p, changes).None? <==> exists j :: 0 <= j < |changes| && RemovedBy(p, changes, j)
    decreases |changes|
  {
    hide Removes;
    if changes != [] {
      var start, c := changes[..|changes| - 1], changes[|changes| - 1];
      assert changes == start + [c];
      RemovedIff(p, start);
      EndsAtPrefix(p, start, c);
      assert changes[..|start|] == start && [c][1..] == [];
      assert forall j :: 0 <= j < |start| ==> start[..j] == changes[..j] && start[j] == changes[j];
      assert forall j :: 0 <= j < |start| ==> RemovedBy(p, start, j) == RemovedBy(p, changes, j);
      assert EndsAt(p, changes).None? <==> EndsAt(p, start).None? || RemovedBy(p, changes, |start|);
    }
  }

  /** Change `j` removes the file that change `i` put somewhere, wherever it is by then. */
  predicate Takes(changes: seq<Change>, i: nat, j: nat)
    requires i < j < |changes|
  {
    var there := EndsAt(TargetPath(changes[i]), changes[i + 1..j]);
    !changes[i].Delete? && there.Some? && Removes(changes[j], there.value)
  }

  /** A later change removes the file that change `i` has put somewhere. */
  predicate LosesProduced(changes: seq<Change>, i: nat)
    requires i < |changes|
  {
    !changes[i].Delete? && EndsAt(TargetPath(changes[i]), changes[i + 1..]).None?
  }

  /** The file that a change produced is there at the end, where later renames took it. */
  lemma ProducedGoesOn(files: set<FileInfo>, changes: seq<Change>, i: nat)
    requires UniquePaths(files) && ApplyChanges(files, changes).Ok? && i < |changes|
    requires !changes[i].Delete? && !LosesProduced(changes, i)
    ensures
      var made := (ApplyPrefix(files, changes, i); Produced(Before(files, changes, i), changes[i]));
      && made.Some?
      && made.value.(path := EndsAt(TargetPath(changes[i]), changes[i + 1..]).value) in ApplyChanges(files, changes).value
  {
    ApplyPrefix(files, changes, i);
    OriginsAreReal(files, changes[..i], "");
    var before, c := Before(files, changes, i), changes[i];
    ApplyChangeAt(before, c, TargetPath(c));
    var made := Produced(before, c).value;
    AtIsIn(ApplyChange(before, c).value, TargetPath(c), made);
    ApplySplit(files, changes, i + 1);
    FileGoesOn(ApplyChange(before, c).value, changes[i + 1..], made);
  }

  lemma AtIsIn(files: set<FileInfo>, p: string, f: FileInfo)
    requires At(files, p) == Some(f)
    ensures f in files && f.path == p
  {
  }

  lemma {:induction false} ApplySplit(files: set<FileInfo>, changes: seq<Change>, k: nat)
    requires ApplyChanges(files, changes).Ok? && k <= |changes|
    ensures ApplyChanges(files, changes[..k]).Ok?
    ensures ApplyChanges(ApplyChanges(files, changes[..k]).value, changes[k..]) == ApplyChanges(files, changes)
    decreases |changes|
  {
    hide ApplyChange;
    if k == 0 {
      assert changes[..0] == [] && changes[0..] == changes;
    } else {
      ApplySplit(ApplyChange(files, changes[0]).value, changes[1..], k - 1);
      assert changes[..k][1..] == changes[1..][..k - 1] && changes[1..][k - 1..] == changes[k..];
    }
  }

  /**
   A batch that goes through loses no file that it produced - each is there at the end, renamed or not - exactly when no
   change deletes, writes over or renames another file onto the path where an earlier change's file then is.
   */
  lemma NothingLostIff(files: set<FileInfo>, changes: seq<Change>)
    requires UniquePaths(files) && BatchFiles(files, changes).Ok?
    ensures
      (forall i :: 0 <= i < |changes| ==> !LosesProduced(changes, i)) <==>
        forall i, j :: 0 <= i < j < |changes| ==> !Takes(changes, i, j)
    ensures forall i :: 0 <= i < |changes| && !changes[i].Delete? && !LosesProduced(changes, i) ==>
      && ApplyChanges(files, changes[..i]).Ok?
      && var made := Produced(Before(files, changes, i), changes[i]);
         made.Some?
         && made.value.(path := EndsAt(TargetPath(changes[i]), changes[i + 1..]).value)
              in BatchFiles(files, changes).value
  {
    hide ApplyChanges, Produced, Validate, EndsAt;
    NothingTakenIff(changes);
    forall i | 0 <= i < |changes| && !changes[i].Delete? && !LosesProduced(changes, i)
      ensures ApplyChanges(files, changes[..i]).Ok?
      ensures
        var made := Produced(Before(files, changes, i), changes[i]);
        made.Some?
        && made.value.(path := EndsAt(TargetPath(changes[i]), changes[i + 1..]).value) in BatchFiles(files, changes).value
    {
      ApplyPrefix(files, changes, i);
      ProducedGoesOn(files, changes, i);
    }
  }

  lemma NothingTakenIff(changes: seq<Change>)
    ensures
      (forall i :: 0 <= i < |changes| ==> !LosesProduced(changes, i)) <==>
        forall i, j :: 0 <= i < j < |changes| ==> !Takes(changes, i, j)
  {
    hide Takes, LosesProduced;
    forall i | 0 <= i < |changes|
      ensures LosesProduced(changes, i) <==> exists j :: i < j < |changes| && Takes(changes, i, j)
    {
      LostIff(changes, i);
    }
    if j, k :| 0 <= j < k < |changes| && Takes(changes, j, k) {
      assert LosesProduced(changes, j);
    }
  }

  lemma LostIff(changes: seq<Change>, i: nat)
    requires i < |changes|
    ensures LosesProduced(changes, i) <==> exists j :: i < j < |changes| && Takes(changes, i, j)
  {
    hide EndsAt, Removes;
    var p, rest := TargetPath(changes[i]), changes[i + 1..];
    if !changes[i].Delete? {
      RemovedIff(p, rest);
      forall j | i < j < |changes|
        ensures Takes(changes, i, j) <==> RemovedBy(p, rest, j - i - 1)
      {
        assert rest[..j - i - 1] == changes[i + 1..j] && rest[j - i - 1] == changes[j];
      }
      if k :| 0 <= k < |rest| && RemovedBy(p, rest, k) {
        var j := k + i + 1;
        assert Takes(changes, i, j);
      }
    }
  }

  // ---------------------------------------------------------------------------
  // Renames

  predicate OnlyRenames(changes: seq<Change>) {
    forall i :: 0 <= i < |changes| ==> changes[i].Rename?
  }

  predicate DistinctSources(changes: seq<Change>) {
    forall i, j :: 0 <= i < j < |changes| ==> changes[i].path != changes[j].path
  }

  predicate DistinctTargets(changes: seq<Change>) {
    forall i, j :: 0 <= i < j < |changes| ==> TargetPath(changes[i]) != TargetPath(changes[j])
  }

  function Targets(changes: seq<Change>): set<string> {
    set i | 0 <= i < |changes| :: TargetPath(changes[i])
  }

  lemma TargetsMore(start: seq<Change>, c: Change)
    ensures Targets(start + [c]) == Targets(start) + {TargetPath(c)}
    ensures DistinctTargets(start + [c]) <==> DistinctTargets(start) && TargetPath(c) !in Targets(start)
  {
    hide TargetPath;
    var changes := start + [c];
    assert changes[|start|] == c;
    assert forall i :: 0 <= i < |start| ==> start[i] == changes[i];
  }

  lemma {:induction false} TargetsCount(changes: seq<Change>)
    ensures |Targets(changes)| <= |changes|
    ensures |Targets(changes)| == |changes| <==> DistinctTargets(changes)
    decreases |changes|
  {
    hide TargetPath, DistinctTargets;
    if changes == [] {
      assert Targets(changes) == {};
      NoTargets();
    } else {
      var start, c := changes[..|changes| - 1], changes[|changes| - 1];
      TargetsCount(start);
      TargetsMore(start, c);
      assert changes == start + [c];
    }
  }

  lemma NoTargets()
    ensures DistinctTargets([])
  {
  }

  function Sources(changes: seq<Change>): set<string> {
    set i | 0 <= i < |changes| :: changes[i].path
  }

  lemma {:induction false} SourcesCount(changes: seq<Change>)
    requires DistinctSources(changes)
    ensures |Sources(changes)| == |changes|
    decreases |changes|
  {
    if changes == [] {
      assert Sources(changes) == {};
    } else {
      var n := |changes| - 1;
      SourcesCount(changes[..n]);
      assert Sources(changes) == Sources(changes[..n]) + {changes[n].path};
    }
  }

  lemma {:induction false} PathsCount(files: set<FileInfo>)
    requires UniquePaths(files)
    ensures |Paths(files)| == |files|
    decreases |files|
  {
    if files == {} {
      assert Paths(files) == {};
    } else {
      var f :| f in files;
      PathsCount(files - {f});
      assert Paths(files) == Paths(files - {f}) + {f.path};
    }
  }

  lemma InPaths(files: set<FileInfo>, p: string)
    ensures p in Paths(files) <==> At(files, p).Some?
  {
    if At(files, p).Some? {
      assert At(files, p).value.path in Paths(files);
    }
  }

  lemma RenamePaths(files: set<FileInfo>, c: Change)
    requires UniquePaths(files) && c.Rename? && c.path in Paths(files)
    ensures ApplyChange(files, c).Ok? && UniquePaths(ApplyChange(files, c).value)
    ensures Paths(ApplyChange(files, c).value) == Paths(files) - {c.path} + {c.newPath}
  {
    InPaths(files, c.path);
    ApplyChangeFrame(files, c);
    var next := ApplyChange(files, c).value;
    forall p
      ensures p in Paths(next) <==> p in Paths(files) - {c.path} + {c.newPath}
    {
      InPaths(files, p);
      InPaths(next, p);
      ApplyChangeAt(files, c, p);
    }
  }

  /** Renames from distinct paths to new ones: the paths that are taken afterwards. */
  lemma {:induction false} RenamesPaths(files: set<FileInfo>, changes: seq<Change>)
    requires UniquePaths(files) && OnlyRenames(changes) && DistinctSources(changes)
    requires Sources(changes) <= Paths(files) && Targets(changes) !! Paths(files)
    ensures ApplyChanges(files, changes).Ok? && UniquePaths(ApplyChanges(files, changes).value)
    ensures Paths(ApplyChanges(files, changes).value) == Paths(files) - Sources(changes) + Targets(changes)
    decreases |changes|
  {
    hide ApplyChange, UniquePaths, Paths;
    if changes == [] {
      assert Targets(changes) == {} == Sources(changes);
    } else {
      var n := |changes| - 1;
      var start, c := changes[..n], changes[n];
      assert forall i :: 0 <= i < n ==> start[i] == changes[i];
      assert Sources(changes) == Sources(start) + {c.path} && Targets(changes) == Targets(start) + {c.newPath};
      RenamesPaths(files, start);
      assert c.path !in Sources(start);
      RenamePaths(ApplyChanges(files, start).value, c);
      ApplyMore(files, start, c);
      assert changes == start + [c];
      assert c.path !in Targets(start);
    }
  }

  lemma {:induction false} ApplyMore(files: set<FileInfo>, changes: seq<Change>, c: Change)
    requires ApplyChanges(files, changes).Ok?
    ensures ApplyChanges(files, changes + [c]) == ApplyChange(ApplyChanges(files, changes).value, c)
    decreases |changes|
  {
    hide ApplyChange;
    if changes == [] {
      assert [c][1..] == [] && [] + [c] == [c];
    } else {
      ApplyMore(ApplyChange(files, changes[0]).value, changes[1..], c);
      assert (changes + [c])[1..] == changes[1..] + [c];
    }
  }

  lemma CheckedRename(files: set<FileInfo>, c: Change)
    requires c.Rename? && Check(files, c).None?
    ensures c.path in Paths(files) && c.newPath !in Paths(files)
  {
    InPaths(files, c.path);
    InPaths(files, c.newPath);
  }

  /** A validated batch of renames keeps the number of files exactly when the new paths are pairwise distinct. */
  lemma RenamesLoseNoFileIff(files: set<FileInfo>, changes: seq<Change>)
    requires UniquePaths(files) && OnlyRenames(changes) && DistinctSources(changes)
    requires Validate(files, changes).None?
    ensures BatchFiles(files, changes).Ok?
    ensures |BatchFiles(files, changes).value| == |files| <==> DistinctTargets(changes)
  {
    hide ApplyChanges, Validate, UniquePaths, Paths, Check;
    ValidateEach(files, changes);
    forall i | 0 <= i < |changes|
      ensures changes[i].path in Paths(files) && changes[i].newPath !in Paths(files)
    {
      CheckedRename(files, changes[i]);
    }
    RenamesPaths(files, changes);
    var after := ApplyChanges(files, changes).value;
    PathsCount(files);
    PathsCount(after);
    SourcesCount(changes);
    TargetsCount(changes);
    Sizes(Paths(files), Sources(changes), Targets(changes));
  }

  lemma Sizes(a: set<string>, gone: set<string>, added: set<string>)
    requires gone <= a && added !! a
    ensures |a - gone + added| == |a| - |gone| + |added|
  {
    assert |a - gone| == |a| - |gone|;
    assert (a - gone) !! added;
  }

  /** A written file is lost, too, to a rename onto its path that the validation lets through. */
  lemma WriteThenRename(b: FileInfo, path: string, text: string, role: string, language: string)
    requires path != b.path && path != ""
    ensures BatchFiles({b}, [Write(path, Some(text), role, language, None), Rename(b.path, path, None)])
      == Ok({b.(path := path)})
  {
    var files := {b};
    var first, second := Write(path, Some(text), role, language, None), Rename(b.path, path, None);
    var changes := [first, second];
    assert At(files, b.path) == Some(b) && At(files, path) == None;
    ValidateEach(files, changes);
    assert changes[1..] == [second];
    var made := FileInfo(path, ContentId(text), role, language);
    assert Without(files, path) == {b};
    assert ApplyChange(files, first) == Ok({b} + {made});
    var next := {b} + {made};
    assert At(next, b.path) == Some(b);
    assert Without(Without(next, b.path), path) == {};
    assert ApplyChange(next, second) == Ok({} + {b.(path := path)});
    assert {} + {b.(path := path)} == {b.(path := path)};
    assert ApplyChanges(next, [second]) == ApplyChanges({b.(path := path)}, []);
  }
}
