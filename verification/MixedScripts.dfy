/**
 Edit scripts with edits that only add lines. Such an edit has no old lines to be found by: it goes where its header
 number says.
 */
module MixedScripts {
  import opened Prelude
  import opened UnifiedDiff
  import opened UnifiedDiffProofs
  import opened EditScripts
  import opened ScriptUndo

  /** How many lines of a file come before a position that may be past its end. */
  function Clip(source: seq<Line>, p: nat): nat {
    if p < |source| then p else |source|
  }

  /** How many lines come before the line with a number; number 0 is the start of the file, as number 1 is. */
  function LinesBefore(number: nat): nat {
    if number == 0 then 0 else number - 1
  }

  /**
   The gap of an edit ends where the edit belongs, for an edit that starts looking at `from`: at the one place of its old
   lines or, without any, before the line that its header names - which is not before `from`, and may be past the end.
   */
  ghost predicate GapEndsRight(source: seq<Line>, from: nat, edit: Edit, number: Option<nat>) {
    var block := OldSide(edit.changes);
    if block != [] then UniqueFrom(source, from, block, from + |edit.gap|)
    else
      && number.Some? && from <= LinesBefore(number.value)
      && Clip(source, LinesBefore(number.value)) == Clip(source, from) + |edit.gap|
  }

  /** Where the next edit starts looking. */
  function EndOf(from: nat, edit: Edit, number: Option<nat>): nat {
    if OldSide(edit.changes) != [] then from + |edit.gap| + |OldSide(edit.changes)|
    else if number.Some? then LinesBefore(number.value)
    else from
  }

  /** Every edit of a script is where its old lines or its header number put it. */
  ghost predicate InTurn(source: seq<Line>, from: nat, edits: seq<Edit>, numbers: seq<Option<nat>>)
    requires |numbers| == |edits|
    decreases |edits|
  {
    edits != [] ==>
      && GapEndsRight(source, from, edits[0], numbers[0])
      && InTurn(source, EndOf(from, edits[0], numbers[0]), edits[1..], numbers[1..])
  }

  /** When every edit has old lines, the numbers do not matter. */
  lemma {:induction false} InTurnByOldLines(source: seq<Line>, from: nat, edits: seq<Edit>, numbers: seq<Option<nat>>)
    requires |numbers| == |edits| && HasOldSides(edits)
    ensures InTurn(source, from, edits, numbers) <==> UniqueInTurn(source, from, edits)
    decreases |edits|
  {
    hide UniqueFrom, OldSide;
    if edits != [] {
      FirstEdit(edits);
      InTurnByOldLines(source, EndOf(from, edits[0], numbers[0]), edits[1..], numbers[1..]);
    }
  }

  // ---------------------------------------------------------------------------
  // One hunk

  lemma SliceParts(source: seq<Line>, from: nat, p: nat, gap: seq<Line>, rest: seq<Line>)
    requires from <= p && SliceFrom(source, from) == gap + rest && Clip(source, p) == Clip(source, from) + |gap|
    ensures Slice(source, from, p) == gap && SliceFrom(source, p) == rest
  {
    var tail := SliceFrom(source, from);
    assert tail[..|gap|] == gap && tail[|gap|..] == rest;
    assert Slice(source, from, p) == tail[..|gap|];
    assert SliceFrom(source, p) == tail[|gap|..];
  }

  lemma {:induction false} InsertHunk(source: seq<Line>, from: nat, edit: Edit, number: Option<nat>, rest: seq<Line>,
                                      hunks: seq<Hunk>)
    requires hunks != [] && hunks[0].Before() == [] == OldSide(edit.changes)
    requires hunks[0].hint == Hint(Header(number))
    requires GapEndsRight(source, from, edit, number) && SliceFrom(source, from) == edit.gap + rest
    ensures SliceFrom(source, EndOf(from, edit, number)) == rest
    ensures ApplyHunks(source, from, hunks) ==
      Prepend(edit.gap + hunks[0].After(), ApplyHunks(source, EndOf(from, edit, number), hunks[1..]))
  {
    SliceParts(source, from, LinesBefore(number.value), edit.gap, rest);
  }

  lemma FirstHint(edits: seq<Edit>, numbers: seq<Option<nat>>)
    requires edits != [] && |numbers| == |edits|
    ensures HunksOf(edits, numbers) != [] && HunksOf(edits, numbers)[0].hint == Hint(Header(numbers[0]))
  {
  }

  // ---------------------------------------------------------------------------
  // Scripts

  lemma {:induction false} ApplyMixed(source: seq<Line>, from: nat, edits: seq<Edit>, tail: seq<Line>,
                                      numbers: seq<Option<nat>>)
    requires |numbers| == |edits| && InTurn(source, from, edits, numbers)
    requires SliceFrom(source, from) == SourceOf(edits, tail)
    ensures ApplyHunks(source, from, HunksOf(edits, numbers)) == Ok(TargetOf(edits, tail))
    decreases |edits|
  {
    hide Place, MatchesAt, UniqueFrom, ReadBackAll, OldSide, NewSide, OldLines, NewLines, Slice, SliceFrom, Hint, GapEndsRight;
    if edits != [] {
      var hunks, edit, number := HunksOf(edits, numbers), edits[0], numbers[0];
      var rest := SourceOf(edits[1..], tail);
      ReadBackSides(edit.changes);
      FirstHunkOf(edits, numbers);
      FirstHint(edits, numbers);
      if OldSide(edit.changes) == [] {
        assert edit.gap + [] + rest == edit.gap + rest;
        InsertHunk(source, from, edit, number, rest, hunks);
      } else {
        OldHunk(source, from, edit, number, rest, hunks);
      }
      ApplyMixed(source, EndOf(from, edit, number), edits[1..], tail, numbers[1..]);
    }
  }

  lemma {:induction false} OldHunk(source: seq<Line>, from: nat, edit: Edit, number: Option<nat>, rest: seq<Line>,
                                   hunks: seq<Hunk>)
    requires hunks != [] && hunks[0].Before() == OldSide(edit.changes) && OldSide(edit.changes) != []
    requires GapEndsRight(source, from, edit, number)
    requires SliceFrom(source, from) == edit.gap + OldSide(edit.changes) + rest
    ensures SliceFrom(source, EndOf(from, edit, number)) == rest
    ensures ApplyHunks(source, from, hunks) ==
      Prepend(edit.gap + hunks[0].After(), ApplyHunks(source, EndOf(from, edit, number), hunks[1..]))
  {
    hide ApplyHunks, OldSide, Place;
    assert from <= |source| by {
      UniqueMatches(source, from, OldSide(edit.changes), from + |edit.gap|);
    }
    ApplyFirstHunk(source, from, edit.gap, rest, hunks);
  }

  /** A patch of rendered edits that applies cuts the file: it is a script with these changes, and gives its target. */
  lemma {:induction false} AppliedIsMixed(source: seq<Line>, from: nat, edits: seq<Edit>, numbers: seq<Option<nat>>)
    returns (b: seq<Edit>, u: seq<Line>)
    requires |numbers| == |edits| && ApplyHunks(source, from, HunksOf(edits, numbers)).Ok?
    ensures SameChanges(edits, b) && SliceFrom(source, from) == SourceOf(b, u) && InTurn(source, from, b, numbers)
    ensures ApplyHunks(source, from, HunksOf(edits, numbers)) == Ok(TargetOf(b, u))
    decreases |edits|
  {
    hide MatchesAt, UniqueFrom, ReadBackAll, OldSide, NewSide, OldLines, NewLines, Slice, SliceFrom, Hint, Place, GapEndsRight;
    if edits == [] {
      b, u := [], SliceFrom(source, from);
    } else {
      var hunks, changes := HunksOf(edits, numbers), edits[0].changes;
      ReadBackSides(changes);
      FirstHunkOf(edits, numbers);
      FirstHint(edits, numbers);
      PlaceAfter(source, from, OldSide(changes), hunks[0].hint);
      var p := Place(source, from, OldSide(changes), hunks[0].hint).value;
      var first := Edit(Slice(source, from, p), changes);
      PlacedEdit(source, from, first, numbers[0], p);
      var more, rest := AppliedIsMixed(source, p + |OldSide(changes)|, edits[1..], numbers[1..]);
      b, u := [first] + more, rest;
      assert b[1..] == more;
    }
  }

  lemma PlacedEdit(source: seq<Line>, from: nat, edit: Edit, number: Option<nat>, p: nat)
    requires Place(source, from, OldSide(edit.changes), Hint(Header(number))) == Some(p)
    requires from <= p && edit.gap == Slice(source, from, p)
    ensures GapEndsRight(source, from, edit, number) && EndOf(from, edit, number) == p + |OldSide(edit.changes)|
    ensures SliceFrom(source, from) == edit.gap + OldSide(edit.changes) + SliceFrom(source, p + |OldSide(edit.changes)|)
  {
    hide OldSide;
    var block := OldSide(edit.changes);
    if block == [] {
      assert SliceFrom(source, from) == Slice(source, from, p) + SliceFrom(source, p);
      assert edit.gap + [] == edit.gap;
    } else {
      UniqueMatches(source, from, block, p);
      SourceParts(source, from, p, block);
      assert |edit.gap| == p - from;
    }
  }

  /** The file and the changes leave one cut: the gaps are decided by the old lines and the numbers. */
  lemma {:induction false} OneCut(source: seq<Line>, from: nat, a: seq<Edit>, t: seq<Line>, b: seq<Edit>, u: seq<Line>,
                                  numbers: seq<Option<nat>>)
    requires |numbers| == |a| == |b| && SameChanges(a, b)
    requires InTurn(source, from, a, numbers) && InTurn(source, from, b, numbers)
    requires SliceFrom(source, from) == SourceOf(a, t) == SourceOf(b, u)
    ensures a == b && t == u
    decreases |a|
  {
    hide MatchesAt, OldSide, SliceFrom, SameChanges;
    if a != [] {
      SameFirstChanges(a, b);
      SameGapLength(source, from, a[0], b[0], numbers[0]);
      var s, n := SliceFrom(source, from), |a[0].gap|;
      assert a[0].gap == s[..n] && b[0].gap == s[..n];
      assert a[0] == b[0];
      NextSlice(source, from, a[0], numbers[0], SourceOf(a[1..], t));
      NextSlice(source, from, b[0], numbers[0], SourceOf(b[1..], u));
      OneCut(source, EndOf(from, a[0], numbers[0]), a[1..], t, b[1..], u, numbers[1..]);
      assert a == [a[0]] + a[1..] && b == [b[0]] + b[1..];
    }
  }

  lemma SameFirstChanges(a: seq<Edit>, b: seq<Edit>)
    requires SameChanges(a, b) && a != []
    ensures b != [] && a[0].changes == b[0].changes && SameChanges(a[1..], b[1..])
  {
  }

  lemma SameGapLength(source: seq<Line>, from: nat, a: Edit, b: Edit, number: Option<nat>)
    requires a.changes == b.changes && GapEndsRight(source, from, a, number) && GapEndsRight(source, from, b, number)
    ensures |a.gap| == |b.gap|
  {
    hide MatchesAt, OldSide;
  }

  lemma NextSlice(source: seq<Line>, from: nat, edit: Edit, number: Option<nat>, rest: seq<Line>)
    requires GapEndsRight(source, from, edit, number)
    requires SliceFrom(source, from) == edit.gap + OldSide(edit.changes) + rest
    ensures SliceFrom(source, EndOf(from, edit, number)) == rest
  {
    hide OldSide;
    var block := OldSide(edit.changes);
    if block == [] {
      assert edit.gap + [] + rest == edit.gap + rest;
      SliceParts(source, from, LinesBefore(number.value), edit.gap, rest);
    } else {
      UniqueMatches(source, from, block, from + |edit.gap|);
      GapThenBlock(source, from, edit.gap, block, rest);
    }
  }

  /**
   Any script, with edits that only add lines: its rendering applied to its source gives its target, when every line can
   be rendered and every edit is in turn. And whenever a rendering applies, it does so as the one script with these
   changes that is in turn.
   */
  lemma MixedScriptGivesTarget(script: Script, header: seq<PatchLine>, numbers: seq<Option<nat>>)
    requires script.edits != [] && |numbers| == |script.edits| && IsFileHeader(header)
    ensures
      var source := SourceOf(script.edits, script.tail);
      var r := ApplyPatch(source, header + Render(script.edits, numbers));
      && (EditsRenderable(script.edits) && InTurn(source, 0, script.edits, numbers) ==>
            r == Ok(TargetOf(script.edits, script.tail)))
      && (r.Ok? <==> EditsRenderable(script.edits) && exists b, u :: CutsInTurn(source, script.edits, numbers, b, u))
      && (r.Ok? ==> forall b, u :: CutsInTurn(source, script.edits, numbers, b, u) ==> r.value == TargetOf(b, u))
  {
    hide ApplyHunks, EditsRenderable, SourceOf, TargetOf, InTurn, SameChanges;
    var edits, source := script.edits, SourceOf(script.edits, script.tail);
    WholeSlice(source);
    RenderedIsHunks(source, edits, header, numbers);
    if EditsRenderable(edits) {
      if InTurn(source, 0, edits, numbers) {
        ApplyMixed(source, 0, edits, script.tail, numbers);
      }
      if ApplyHunks(source, 0, HunksOf(edits, numbers)).Ok? {
        var b, u := AppliedIsMixed(source, 0, edits, numbers);
        SameLength(edits, b);
        assert CutsInTurn(source, edits, numbers, b, u);
      }
      forall b, u | CutsInTurn(source, edits, numbers, b, u)
        ensures ApplyHunks(source, 0, HunksOf(edits, numbers)) == Ok(TargetOf(b, u))
      {
        SameHunks(edits, b, numbers);
        ApplyMixed(source, 0, b, u, numbers);
      }
    }
  }

  /** `b` and `u` cut the file for these changes, every edit in turn. */
  ghost predicate CutsInTurn(source: seq<Line>, edits: seq<Edit>, numbers: seq<Option<nat>>, b: seq<Edit>, u: seq<Line>)
    requires |numbers| == |edits|
  {
    SameChanges(edits, b) && |b| == |edits| && SourceOf(b, u) == source && InTurn(source, 0, b, numbers)
  }

  lemma SameLength(a: seq<Edit>, b: seq<Edit>)
    requires SameChanges(a, b)
    ensures |a| == |b|
  {
  }

  lemma WholeSlice(source: seq<Line>)
    ensures SliceFrom(source, 0) == source
  {
  }

  lemma RenderedIsHunks(source: seq<Line>, edits: seq<Edit>, header: seq<PatchLine>, numbers: seq<Option<nat>>)
    requires edits != [] && |numbers| == |edits| && IsFileHeader(header)
    ensures ApplyPatch(source, header + Render(edits, numbers)).Ok? ==> EditsRenderable(edits)
    ensures EditsRenderable(edits) ==>
      ApplyPatch(source, header + Render(edits, numbers)) == ApplyHunks(source, 0, HunksOf(edits, numbers))
  {
    hide EditsRenderable, ApplyHunks;
    var body := Render(edits, numbers);
    ParseRendered(edits, numbers);
    ApplyIsParseThenApply(source, 0, body);
    var lines := header + body;
    assert lines[|header|..] == body;
    assert HeaderSize(lines) == Ok(|header|);
  }

  lemma {:induction false} SameHunks(a: seq<Edit>, b: seq<Edit>, numbers: seq<Option<nat>>)
    requires |a| == |b| == |numbers| && SameChanges(a, b)
    ensures HunksOf(a, numbers) == HunksOf(b, numbers)
    decreases |a|
  {
    hide ReadBackAll, SameChanges;
    if a != [] {
      SameFirstChanges(a, b);
      SameHunks(a[1..], b[1..], numbers[1..]);
    }
  }

  // ---------------------------------------------------------------------------
  // What is refused

  /** The edits before `k` are in turn, and this is where edit `k` starts looking. */
  function LooksFrom(from: nat, edits: seq<Edit>, numbers: seq<Option<nat>>, k: nat): nat
    requires |numbers| == |edits| && k <= |edits|
    decreases |edits|
  {
    if k == 0 then from else LooksFrom(EndOf(from, edits[0], numbers[0]), edits[1..], numbers[1..], k - 1)
  }

  /** An edit without old lines has no place: its header has no number, or names a line before the last block's end. */
  predicate NoPlace(from: nat, edit: Edit, number: Option<nat>) {
    OldSide(edit.changes) == [] && (number.None? || LinesBefore(number.value) < from)
  }

  lemma {:induction false} RefusedAt(source: seq<Line>, from: nat, edits: seq<Edit>, tail: seq<Line>,
                                     numbers: seq<Option<nat>>, k: nat)
    requires |numbers| == |edits| && k < |edits| && SliceFrom(source, from) == SourceOf(edits, tail)
    requires InTurn(source, from, edits[..k], numbers[..k])
    requires NoPlace(LooksFrom(from, edits, numbers, k), edits[k], numbers[k])
    ensures ApplyHunks(source, from, HunksOf(edits, numbers)) == Err(NoUniqueMatch)
    decreases k
  {
    hide MatchesAt, UniqueFrom, ReadBackAll, OldSide, OldLines, NewLines, Slice, SliceFrom, GapEndsRight, NoPlace;
    var hunks, edit, number := HunksOf(edits, numbers), edits[0], numbers[0];
    ReadBackSides(edit.changes);
    FirstHunkOf(edits, numbers);
    FirstHint(edits, numbers);
    if k == 0 {
      NowhereToGo(source, from, edit, number, hunks);
    } else {
      hide Place, Hint;
      var rest := SourceOf(edits[1..], tail);
      assert edits[..k][1..] == edits[1..][..k - 1] && numbers[..k][1..] == numbers[1..][..k - 1];
      if OldSide(edit.changes) == [] {
        assert edit.gap + [] + rest == edit.gap + rest;
        InsertHunk(source, from, edit, number, rest, hunks);
      } else {
        OldHunk(source, from, edit, number, rest, hunks);
      }
      RefusedAt(source, EndOf(from, edit, number), edits[1..], tail, numbers[1..], k - 1);
    }
  }

  lemma NowhereToGo(source: seq<Line>, from: nat, edit: Edit, number: Option<nat>, hunks: seq<Hunk>)
    requires hunks != [] && hunks[0].Before() == OldSide(edit.changes) && hunks[0].hint == Hint(Header(number))
    requires NoPlace(from, edit, number)
    ensures ApplyHunks(source, from, hunks) == Err(NoUniqueMatch)
  {
  }

  /** A number that points before the end of the block before it, or no number, refuses an edit that only adds lines. */
  lemma MisplacedInsertIsRefused(script: Script, header: seq<PatchLine>, numbers: seq<Option<nat>>, k: nat)
    requires |numbers| == |script.edits| && k < |script.edits| && IsFileHeader(header) && EditsRenderable(script.edits)
    requires InTurn(SourceOf(script.edits, script.tail), 0, script.edits[..k], numbers[..k])
    requires NoPlace(LooksFrom(0, script.edits, numbers, k), script.edits[k], numbers[k])
    ensures ApplyPatch(SourceOf(script.edits, script.tail), header + Render(script.edits, numbers)) == Err(NoUniqueMatch)
  {
    hide ApplyHunks, EditsRenderable, SourceOf, InTurn, NoPlace;
    var edits, source := script.edits, SourceOf(script.edits, script.tail);
    WholeSlice(source);
    RenderedIsHunks(source, edits, header, numbers);
    RefusedAt(source, 0, edits, script.tail, numbers, k);
  }

  // ---------------------------------------------------------------------------
  // Line ends before a marker

  predicate OnlyLineEnds(s: string) {
    forall k :: 0 <= k < |s| ==> IsLineEnd(s[k])
  }

  /** The marker takes the whole line end off the line before it, of one character or of two. */
  lemma {:induction false} MarkerTakesLineEnd(text: string, ends: string)
    requires text == [] || !IsLineEnd(text[|text| - 1])
    requires OnlyLineEnds(ends)
    ensures StripLineEnd(text + ends) == text
    decreases |ends|
  {
    if ends == [] {
      assert text + ends == text;
    } else {
      var s := text + ends;
      assert s[|s| - 1] == ends[|ends| - 1];
      assert s[..|s| - 1] == text + ends[..|ends| - 1];
      MarkerTakesLineEnd(text, ends[..|ends| - 1]);
    }
  }

  /** A line of a hunk with a line end, then a marker: read back as the line without its line end. */
  lemma MarkedLineIsRead(kind: Kind, text: string, ends: string, rest: seq<PatchLine>, seen: seq<Entry>)
    requires text == [] || !IsLineEnd(text[|text| - 1])
    requires ends == "\n" || ends == "\r\n" || ends == "\r"
    requires Renderable(Change(kind, text + ends))
    ensures
      var e := Entry(kind, text + ends, true);
      && ReadEntries([Text([KindChar(kind)] + (text + ends)), Text(MARKER + "\n")] + rest, seen)
           == ReadEntries(rest, seen + [e])
      && EntryText(e) == text
  {
    var c, line, marker := KindChar(kind), Entry(kind, text + ends, false), [Text(MARKER + "\n")];
    ReadOne(c, text + ends, marker + rest, seen);
    assert [Text([c] + (text + ends)), Text(MARKER + "\n")] + rest == [Text([c] + (text + ends))] + (marker + rest);
    ReadMarker(rest, seen + [line]);
    assert (seen + [line])[..|seen + [line]| - 1] == seen;
    MarkerTakesLineEnd(text, ends);
  }
}
