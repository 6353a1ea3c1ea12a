/** Batches of changes to the files of one revision. */
module SourceBatch {
  import opened Prelude
  import opened Interning
  import opened SourceGraph

  datatype Change =
    | Write(path: string, content: Option<string>, role: string, language: string, expected: Option<ContentId>)
    | Delete(path: string, expected: Option<ContentId>)
    | Rename(path: string, newPath: string, expected: Option<ContentId>)

  /** The file at a path of a listing. */
  ghost function At(files: set<FileInfo>, path: string): (f: Option<FileInfo>)
    ensures f.Some? ==> f.value in files && f.value.path == path
    ensures f.None? ==> forall g :: g in files ==> g.path != path
  {
    if exists f :: f in files && f.path == path then
      var f :| f in files && f.path == path;
      Some(f)
    else
      None
  }

  function Without(files: set<FileInfo>, path: string): set<FileInfo> {
    set f | f in files && f.path != path
  }

  /** Whether one change can start, judged by the listing before the batch. */
  ghost function Check(files: set<FileInfo>, c: Change): Option<SourceError> {
    var current := At(files, c.path);
    if c.expected.Some? && (current.None? || current.value.content != c.expected.value) then
      Some(SourceConflict(c.path))
    else if !c.Write? && current.None? then
      Some(PathMissing(c.path))
    else if c.Rename? && c.newPath == "" then
      Some(RenameNeedsPath)
    else if c.Rename? && At(files, c.newPath).Some? then
      Some(TargetExists(c.newPath))
    else
      None
  }

  /** The first refusal, every change being judged by the same listing. */
  ghost function Validate(files: set<FileInfo>, changes: seq<Change>): Option<SourceError> {
    if changes == [] then None
    else if Check(files, changes[0]).Some? then Check(files, changes[0])
    else Validate(files, changes[1..])
  }

  /** The file that a change leaves at its target path: a write keeps the role and language of an existing file. */
  ghost function Produced(files: set<FileInfo>, c: Change): Option<FileInfo> {
    var current := At(files, c.path);
    match c
    case Write(path, content, role, language, _) =>
      if content.None? then None
      else if current.Some? then Some(current.value.(content := ContentId(content.value)))
      else Some(FileInfo(path, ContentId(content.value), role, language))
    case Delete(_, _) => None
    case Rename(_, newPath, _) =>
      if current.None? then None else Some(current.value.(path := newPath))
  }

  /** One change, on the listing as the changes before it left it. */
  ghost function ApplyChange(files: set<FileInfo>, c: Change): Result<set<FileInfo>, SourceError> {
    var made := Produced(files, c);
    match c
    case Write(path, content, _, _, _) =>
      if made.None? then Err(MissingContent) else Ok(Without(files, path) + {made.value})
    case Delete(path, _) =>
      if At(files, path).None? then Err(PathMissing(path)) else Ok(Without(files, path))
    case Rename(path, newPath, _) =>
      if made.None? then Err(PathMissing(path))
      else Ok(Without(Without(files, path), newPath) + {made.value})
  }

  ghost function ApplyChanges(files: set<FileInfo>, changes: seq<Change>): Result<set<FileInfo>, SourceError>
    decreases |changes|
  {
    if changes == [] then Ok(files)
    else
      var next :- ApplyChange(files, changes[0]);
      ApplyChanges(next, changes[1..])
  }

  /** What a batch makes of a listing. */
  ghost function BatchFiles(files: set<FileInfo>, changes: seq<Change>): Result<set<FileInfo>, SourceError> {
    var refusal := Validate(files, changes);
    if refusal.Some? then Err(refusal.value) else ApplyChanges(files, changes)
  }

  ghost function BatchUpdate(s: Store, r: RevisionId, changes: seq<Change>, expectedTree: Option<TreeDigest>)
    : Result<Store, SourceError>
  {
    match TreeOf(s, r)
    case None => Err(UnknownRevision)
    case Some(t) =>
      if expectedTree.Some? && s.trees[t].hash != expectedTree.value then
        Err(TreeConflict)
      else
        var files :- BatchFiles(Listing(s, t), changes);
        var ready :- EnsureWritable(s, r);
        match TreeOf(ready, r)
        case None => Err(UnknownRevision)
        case Some(w) => Ok(Collect(SetFiles(ready, w, files)))
  }

  // ---------------------------------------------------------------------------
  // A batch whose changes touch different paths

  function Touched(c: Change): set<string> {
    if c.Rename? then {c.path, c.newPath} else {c.path}
  }

  predicate Apart(changes: seq<Change>) {
    forall i, j :: 0 <= i < j < |changes| ==> Touched(changes[i]) !! Touched(changes[j])
  }

  predicate ContentsGiven(changes: seq<Change>) {
    forall i :: 0 <= i < |changes| ==> changes[i].Write? ==> changes[i].content.Some?
  }

  function AllTouched(changes: set<Change>): set<string> {
    set c, p | c in changes && p in Touched(c) :: p
  }

  /** All changes at once: untouched files stay, and every change leaves what it makes of the files before the batch. */
  ghost function Simultaneous(files: set<FileInfo>, changes: set<Change>): set<FileInfo> {
    (set f | f in files && f.path !in AllTouched(changes))
    + (set c | c in changes && Produced(files, c).Some? :: Produced(files, c).value)
  }

  function ChangeSet(changes: seq<Change>): set<Change> {
    set c | c in changes
  }

  /** A change keeps paths unique and leaves the paths it does not touch alone. */
  lemma ApplyChangeFrame(files: set<FileInfo>, c: Change)
    requires UniquePaths(files) && ApplyChange(files, c).Ok?
    ensures UniquePaths(ApplyChange(files, c).value)
    ensures forall p | p !in Touched(c) :: At(ApplyChange(files, c).value, p) == At(files, p)
  {
    var next := ApplyChange(files, c).value;
    forall p | p !in Touched(c)
      ensures At(next, p) == At(files, p)
    {
      if At(files, p).Some? {
        assert At(files, p).value in next;
      }
    }
  }

  lemma {:induction false} ApplyChangesUnique(files: set<FileInfo>, changes: seq<Change>)
    requires UniquePaths(files) && ApplyChanges(files, changes).Ok?
    ensures UniquePaths(ApplyChanges(files, changes).value)
    decreases |changes|
  {
    if changes != [] {
      ApplyChangeFrame(files, changes[0]);
      ApplyChangesUnique(ApplyChange(files, changes[0]).value, changes[1..]);
    }
  }

  /** Listings that agree on the touched paths treat a change alike. */
  lemma SameJudgement(files: set<FileInfo>, others: set<FileInfo>, c: Change)
    requires forall p | p in Touched(c) :: At(files, p) == At(others, p)
    ensures Check(files, c) == Check(others, c) && Produced(files, c) == Produced(others, c)
  {
  }

  lemma {:induction false} ValidateEach(files: set<FileInfo>, changes: seq<Change>)
    ensures Validate(files, changes).None? <==> forall i :: 0 <= i < |changes| ==> Check(files, changes[i]).None?
  {
    if changes != [] {
      ValidateEach(files, changes[1..]);
      assert forall i :: 0 < i < |changes| ==> changes[i] == changes[1..][i - 1];
    }
  }

  /** A change that is not refused and has its content goes through. */
  lemma CheckedApplies(files: set<FileInfo>, c: Change)
    requires UniquePaths(files) && Check(files, c).None? && (c.Write? ==> c.content.Some?)
    ensures ApplyChange(files, c) == Ok(Simultaneous(files, {c}))
  {
    assert AllTouched({c}) == Touched(c);
    var kept := set f | f in files && f.path !in Touched(c);
    var made := set d | d in {c} && Produced(files, d).Some? :: Produced(files, d).value;
    assert Simultaneous(files, {c}) == kept + made;
    assert made == if Produced(files, c).Some? then {Produced(files, c).value} else {} by {
      if Produced(files, c).Some? {
        assert c in {c};
      }
    }
    if c.Rename? {
      assert Without(Without(files, c.path), c.newPath) == kept;
    } else {
      assert Without(files, c.path) == kept;
      if c.Delete? {
        assert kept + {} == kept;
      }
    }
  }

  lemma ApartFirst(changes: seq<Change>)
    requires changes != [] && Apart(changes)
    ensures Apart(changes[1..])
    ensures forall c | c in changes[1..] :: Touched(changes[0]) !! Touched(c)
    ensures ChangeSet(changes) == {changes[0]} + ChangeSet(changes[1..])
  {
    assert changes == [changes[0]] + changes[1..];
  }

  /** Doing one change and then others that it does not touch is doing them all at once. */
  lemma SimultaneousStep(files: set<FileInfo>, next: set<FileInfo>, c: Change, rest: set<Change>)
    requires UniquePaths(files) && next == Simultaneous(files, {c})
    requires forall d | d in rest :: Touched(c) !! Touched(d)
    requires forall p | p !in Touched(c) :: At(next, p) == At(files, p)
    requires Produced(files, c).Some? ==> Produced(files, c).value.path in Touched(c)
    ensures Simultaneous(next, rest) == Simultaneous(files, {c} + rest)
  {
    forall d | d in rest
      ensures Produced(next, d) == Produced(files, d)
    {
      SameJudgement(files, next, d);
    }
    assert AllTouched({c} + rest) == Touched(c) + AllTouched(rest);
    assert AllTouched({c}) == Touched(c);
    hide At, Produced, UniquePaths;
    var kept := set f | f in files && f.path !in AllTouched({c} + rest);
    var made := set d | d in {c} + rest && Produced(files, d).Some? :: Produced(files, d).value;
    var keptNext := set f | f in next && f.path !in AllTouched(rest);
    var madeNext := set d | d in rest && Produced(next, d).Some? :: Produced(next, d).value;
    forall f | f in Simultaneous(files, {c} + rest)
      ensures f in Simultaneous(next, rest)
    {
      if f in kept {
        assert f in keptNext;
      } else {
        var d :| d in {c} + rest && Produced(files, d).Some? && Produced(files, d).value == f;
        if d in rest {
          assert Produced(next, d).value in madeNext;
        } else {
          assert d in {c} && f in next;
          assert f in keptNext;
        }
      }
    }
    forall f | f in Simultaneous(next, rest)
      ensures f in Simultaneous(files, {c} + rest)
    {
      if f in madeNext {
        var d :| d in rest && Produced(next, d).Some? && Produced(next, d).value == f;
        assert d in {c} + rest && f in made;
      } else if f in files && f.path !in Touched(c) {
        assert f in kept;
      } else {
        assert c in {c} + rest && f in made;
      }
    }
  }

  lemma ProducedPath(files: set<FileInfo>, c: Change)
    ensures Produced(files, c).Some? ==> Produced(files, c).value.path in Touched(c)
  {
  }

  /** A batch that touches different paths is the simultaneous update of the listing before it. */
  lemma {:induction false} BatchIsSimultaneous(files: set<FileInfo>, changes: seq<Change>)
    requires UniquePaths(files) && Apart(changes) && ContentsGiven(changes)
    requires Validate(files, changes).None?
    ensures BatchFiles(files, changes) == Ok(Simultaneous(files, ChangeSet(changes)))
    decreases |changes|
  {
    if changes == [] {
      assert Simultaneous(files, ChangeSet(changes)) == files;
    } else {
      var c, rest := changes[0], changes[1..];
      ApartFirst(changes);
      CheckedApplies(files, c);
      ApplyChangeFrame(files, c);
      ProducedPath(files, c);
      var next := ApplyChange(files, c).value;
      ValidateEach(files, rest);
      ValidateEach(next, rest);
      forall i | 0 <= i < |rest|
        ensures Check(next, rest[i]).None?
      {
        SameJudgement(files, next, rest[i]);
      }
      BatchIsSimultaneous(next, rest);
      SimultaneousStep(files, next, c, ChangeSet(rest));
    }
  }

  /** The order of the changes does not matter, and neither does who is refused. */
  lemma OrderDoesNotMatter(files: set<FileInfo>, changes: seq<Change>, others: seq<Change>)
    requires UniquePaths(files) && Apart(changes) && Apart(others) && ChangeSet(changes) == ChangeSet(others)
    requires ContentsGiven(changes)
    ensures BatchFiles(files, changes).Ok? <==> BatchFiles(files, others).Ok?
    ensures BatchFiles(files, changes).Ok? ==> BatchFiles(files, others) == BatchFiles(files, changes)
  {
    ValidateEach(files, changes);
    ValidateEach(files, others);
    assert forall i :: 0 <= i < |others| ==> others[i] in ChangeSet(changes);
    assert forall i :: 0 <= i < |changes| ==> changes[i] in ChangeSet(others);
    assert Validate(files, changes).None? <==> Validate(files, others).None?;
    assert ContentsGiven(others);
    if Validate(files, changes).None? {
      BatchIsSimultaneous(files, changes);
      BatchIsSimultaneous(files, others);
    }
  }

  /** Every change as a batch of its own, one after the other. */
  ghost function OneByOne(files: set<FileInfo>, changes: seq<Change>): Result<set<FileInfo>, SourceError>
    decreases |changes|
  {
    if changes == [] then Ok(files)
    else
      var next :- BatchFiles(files, [changes[0]]);
      OneByOne(next, changes[1..])
  }

  lemma SingleBatch(files: set<FileInfo>, c: Change)
    ensures BatchFiles(files, [c]) ==
      if Check(files, c).Some? then Err(Check(files, c).value) else ApplyChange(files, c)
  {
    assert [c][1..] == [];
    assert Validate(files, [c]) == Check(files, c);
    var next := ApplyChange(files, c);
    if next.Ok? {
      assert ApplyChanges(next.value, []) == next;
    }
  }

  lemma {:induction false} OneByOneIsTheBatch(files: set<FileInfo>, changes: seq<Change>)
    requires UniquePaths(files) && Apart(changes) && ContentsGiven(changes)
    ensures OneByOne(files, changes).Ok? <==> BatchFiles(files, changes).Ok?
    ensures BatchFiles(files, changes).Ok? ==> OneByOne(files, changes) == BatchFiles(files, changes)
    decreases |changes|
  {
    if changes != [] {
      var c, rest := changes[0], changes[1..];
      SingleBatch(files, c);
      if Check(files, c).None? {
        CheckedApplies(files, c);
        ApartFirst(changes);
        ApplyChangeFrame(files, c);
        var next := ApplyChange(files, c).value;
        OneByOneIsTheBatch(next, rest);
        ValidateEach(files, rest);
        ValidateEach(next, rest);
        forall i | 0 <= i < |rest|
          ensures Check(next, rest[i]) == Check(files, rest[i])
        {
          SameJudgement(files, next, rest[i]);
        }
        assert Validate(files, rest).None? <==> Validate(next, rest).None?;
      }
    }
  }

  /** Changes are judged by the listing before the batch: two renames to one path both pass, and the later one wins. */
  lemma TwoRenamesToOnePath(a: FileInfo, b: FileInfo, target: string)
    requires a.path != b.path && target != "" && target != a.path && target != b.path
    ensures BatchFiles({a, b}, [Rename(a.path, target, None), Rename(b.path, target, None)])
      == Ok({b.(path := target)})
  {
    var files := {a, b};
    var first, second := Rename(a.path, target, None), Rename(b.path, target, None);
    var changes := [first, second];
    assert At(files, a.path) == Some(a) && At(files, b.path) == Some(b) && At(files, target) == None;
    ValidateEach(files, changes);
    assert changes[1..] == [second];
    var moved := a.(path := target);
    assert Without(Without(files, a.path), target) == {b};
    assert ApplyChange(files, first) == Ok({b} + {moved});
    var next := {b} + {moved};
    assert At(next, b.path) == Some(b);
    assert Without(Without(next, b.path), target) == {};
    assert ApplyChange(next, second) == Ok({} + {b.(path := target)});
    assert {} + {b.(path := target)} == {b.(path := target)};
    assert ApplyChanges(next, [second]) == ApplyChanges({b.(path := target)}, []);
  }
}
