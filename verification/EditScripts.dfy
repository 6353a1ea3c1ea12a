/** Edit scripts rendered as unified diffs: applying one gives its target, and the swapped script undoes it. */
module EditScripts {
  import opened Prelude
  import opened UnifiedDiff
  import opened UnifiedDiffProofs

  /** One line of a script. Any text is allowed, with or without a line end. */
  datatype Change = Change(kind: Kind, text: Line)

  /** Untouched lines, then a block of changes. */
  datatype Edit = Edit(gap: seq<Line>, changes: seq<Change>)

  datatype Script = Script(edits: seq<Edit>, tail: seq<Line>)

  function OldSide(changes: seq<Change>): seq<Line> {
    if changes == [] then []
    else (if changes[0].kind != Added then [changes[0].text] else []) + OldSide(changes[1..])
  }

  function NewSide(changes: seq<Change>): seq<Line> {
    if changes == [] then []
    else (if changes[0].kind != Removed then [changes[0].text] else []) + NewSide(changes[1..])
  }

  /** The file the script starts from. */
  function SourceOf(edits: seq<Edit>, tail: seq<Line>): seq<Line> {
    if edits == [] then tail
    else edits[0].gap + OldSide(edits[0].changes) + SourceOf(edits[1..], tail)
  }

  /** The file the script leads to. */
  function TargetOf(edits: seq<Edit>, tail: seq<Line>): seq<Line> {
    if edits == [] then tail
    else edits[0].gap + NewSide(edits[0].changes) + TargetOf(edits[1..], tail)
  }

  function KindChar(kind: Kind): char {
    match kind
    case Context => ' '
    case Removed => '-'
    case Added => '+'
  }

  /**
   A text without a line end is written with one, followed by the marker. A change is one line: a text with a line end
   inside would be more than one line of a patch text.
   */
  function RenderChange(change: Change): seq<PatchLine> {
    if change.text != [] && IsLineEnd(change.text[|change.text| - 1]) then
      [Text([KindChar(change.kind)] + change.text)]
    else
      [Text([KindChar(change.kind)] + change.text + "\n"), Text(MARKER + "\n")]
  }

  function RenderChanges(changes: seq<Change>): seq<PatchLine> {
    if changes == [] then [] else RenderChange(changes[0]) + RenderChanges(changes[1..])
  }

  /** Hunks with any header numbers. */
  function Render(edits: seq<Edit>, numbers: seq<Option<nat>>): (lines: seq<PatchLine>)
    requires |numbers| == |edits|
    ensures lines == [] <==> edits == []
    ensures lines != [] ==> lines[0].Header?
  {
    if edits == [] then []
    else [Header(numbers[0])] + RenderChanges(edits[0].changes) + Render(edits[1..], numbers[1..])
  }

  /** The entry that a rendered change is read back as. */
  function ReadBack(change: Change): (e: Entry)
    ensures e.kind == change.kind
  {
    if change.text != [] && IsLineEnd(change.text[|change.text| - 1]) then
      Entry(change.kind, change.text, false)
    else
      Entry(change.kind, change.text + "\n", true)
  }

  function ReadBackAll(changes: seq<Change>): seq<Entry> {
    if changes == [] then [] else [ReadBack(changes[0])] + ReadBackAll(changes[1..])
  }

  /** A removed line `-- x` renders as `--- x`, and an added line `++ x` as `+++ x`: both read as a new file section. */
  predicate Renderable(change: Change) {
    && !(change.kind == Removed && "-- " <= change.text)
    && !(change.kind == Added && "++ " <= change.text)
  }

  predicate AllRenderable(changes: seq<Change>) {
    forall i :: 0 <= i < |changes| ==> Renderable(changes[i])
  }

  predicate EditsRenderable(edits: seq<Edit>) {
    forall k :: 0 <= k < |edits| ==> AllRenderable(edits[k].changes)
  }

  lemma ReadBackText(change: Change)
    ensures EntryText(ReadBack(change)) == change.text
  {
    var s := change.text + "\n";
    if !(change.text != [] && IsLineEnd(change.text[|change.text| - 1])) {
      assert s[..|s| - 1] == change.text;
      assert StripLineEnd(s) == StripLineEnd(change.text) == change.text;
    }
  }

  lemma {:induction false} ReadBackSides(changes: seq<Change>)
    ensures OldLines(ReadBackAll(changes)) == OldSide(changes)
    ensures NewLines(ReadBackAll(changes)) == NewSide(changes)
  {
    if changes != [] {
      ReadBackText(changes[0]);
      ReadBackSides(changes[1..]);
      assert ReadBackAll(changes)[1..] == ReadBackAll(changes[1..]);
    }
  }

  lemma ReadRenderedChange(change: Change, rest: seq<PatchLine>, seen: seq<Entry>)
    ensures Renderable(change) ==>
      ReadEntries(RenderChange(change) + rest, seen) == ReadEntries(rest, seen + [ReadBack(change)])
    ensures !Renderable(change) ==> ReadEntries(RenderChange(change) + rest, seen) == Err(MultipleFileSections)
  {
    var c := KindChar(change.kind);
    if |RenderChange(change)| == 1 {
      ReadOne(c, change.text, rest, seen);
    } else {
      var line := Entry(change.kind, change.text + "\n", false);
      var marker := [Text(MARKER + "\n")];
      ReadOne(c, change.text + "\n", marker + rest, seen);
      assert [c] + (change.text + "\n") == [c] + change.text + "\n";
      assert RenderChange(change) + rest == [Text([c] + (change.text + "\n"))] + (marker + rest);
      PrefixBeforeLineEnd(change.text, "-- ");
      PrefixBeforeLineEnd(change.text, "++ ");
      ReadMarker(rest, seen + [line]);
      assert (seen + [line])[..|seen + [line]| - 1] == seen;
    }
  }

  lemma PrefixBeforeLineEnd(text: string, prefix: string)
    requires '\n' !in prefix
    ensures prefix <= text + "\n" <==> prefix <= text
  {
    var s := text + "\n";
    if prefix <= s {
      assert |prefix| < |s| by {
        assert s[|s| - 1] == '\n';
      }
      assert text == s[..|text|];
      assert prefix == text[..|prefix|];
    }
    if prefix <= text {
      assert s[..|prefix|] == text[..|prefix|];
    }
  }

  lemma ReadMarker(rest: seq<PatchLine>, seen: seq<Entry>)
    requires seen != []
    ensures ReadEntries([Text(MARKER + "\n")] + rest, seen) ==
      ReadEntries(rest, seen[..|seen| - 1] + [seen[|seen| - 1].(noNewline := true)])
  {
    var lines := [Text(MARKER + "\n")] + rest;
    assert lines[1..] == rest;
    assert lines[0].raw[0] == '\\';
    assert MARKER <= lines[0].raw;
  }

  lemma FirstRenderable(changes: seq<Change>)
    requires changes != []
    ensures AllRenderable(changes) <==> Renderable(changes[0]) && AllRenderable(changes[1..])
  {
    assert forall i :: 0 < i < |changes| ==> changes[i] == changes[1..][i - 1];
  }

  /** Reading a rendered block gives its changes back. */
  lemma {:induction false} ReadRendered(changes: seq<Change>, rest: seq<PatchLine>, seen: seq<Entry>)
    requires rest == [] || StartsHunk(rest[0])
    requires AllRenderable(changes)
    ensures ReadEntries(RenderChanges(changes) + rest, seen) == Ok((seen + ReadBackAll(changes), rest))
    decreases |changes|
  {
    if changes == [] {
      assert RenderChanges(changes) + rest == rest;
      assert seen + ReadBackAll(changes) == seen;
    } else {
      var next := seen + [ReadBack(changes[0])];
      FirstRenderable(changes);
      ReadRendered(changes[1..], rest, next);
      ReadRenderedChange(changes[0], RenderChanges(changes[1..]) + rest, seen);
      RenderFirst(changes, rest);
      ReadBackFirst(changes, seen);
    }
  }

  lemma ReadBackFirst(changes: seq<Change>, seen: seq<Entry>)
    requires changes != []
    ensures seen + ReadBackAll(changes) == seen + [ReadBack(changes[0])] + ReadBackAll(changes[1..])
  {
  }

  lemma RenderFirst(changes: seq<Change>, rest: seq<PatchLine>)
    requires changes != []
    ensures RenderChanges(changes) + rest == RenderChange(changes[0]) + (RenderChanges(changes[1..]) + rest)
  {
    hide RenderChange;
  }

  /** Reading a rendered block stops at the first line that cannot be rendered. */
  lemma {:induction false} ReadUnrenderable(changes: seq<Change>, rest: seq<PatchLine>, seen: seq<Entry>)
    requires !AllRenderable(changes)
    ensures ReadEntries(RenderChanges(changes) + rest, seen) == Err(MultipleFileSections)
    decreases |changes|
  {
    var c, more := changes[0], changes[1..];
    ReadRenderedChange(c, RenderChanges(more) + rest, seen);
    RenderFirst(changes, rest);
    FirstRenderable(changes);
    if Renderable(c) {
      ReadUnrenderable(more, rest, seen + [ReadBack(c)]);
    }
  }

  /** Every old block occurs once from the end of the old block before it on. */
  ghost predicate UniqueInTurn(source: seq<Line>, from: nat, edits: seq<Edit>)
    decreases |edits|
  {
    edits != [] ==>
      var block, start := OldSide(edits[0].changes), from + |edits[0].gap|;
      UniqueFrom(source, from, block, start) && UniqueInTurn(source, start + |block|, edits[1..])
  }

  predicate HasOldSides(edits: seq<Edit>) {
    forall k :: 0 <= k < |edits| ==> OldSide(edits[k].changes) != []
  }

  lemma FirstEdit(edits: seq<Edit>)
    requires edits != []
    ensures EditsRenderable(edits) <==> AllRenderable(edits[0].changes) && EditsRenderable(edits[1..])
    ensures HasOldSides(edits) <==> OldSide(edits[0].changes) != [] && HasOldSides(edits[1..])
  {
    assert forall k :: 0 < k < |edits| ==> edits[k] == edits[1..][k - 1];
  }

  lemma AfterHeader(edits: seq<Edit>, numbers: seq<Option<nat>>)
    requires edits != [] && |numbers| == |edits|
    ensures Render(edits, numbers)[1..] == RenderChanges(edits[0].changes) + Render(edits[1..], numbers[1..])
  {
  }

  /** The hunks that a rendered script is read back as. */
  function HunksOf(edits: seq<Edit>, numbers: seq<Option<nat>>): seq<Hunk>
    requires |numbers| == |edits|
  {
    if edits == [] then []
    else [Hunk(Hint(Header(numbers[0])), ReadBackAll(edits[0].changes))] + HunksOf(edits[1..], numbers[1..])
  }

  lemma {:induction false} ParseRendered(edits: seq<Edit>, numbers: seq<Option<nat>>)
    requires |numbers| == |edits|
    ensures Parse(Render(edits, numbers)).Ok? <==> EditsRenderable(edits)
    ensures EditsRenderable(edits) ==> Parse(Render(edits, numbers)) == Ok(HunksOf(edits, numbers))
    decreases |edits|
  {
    if edits != [] {
      var changes, more := edits[0].changes, edits[1..];
      var rest := Render(more, numbers[1..]);
      FirstEdit(edits);
      AfterHeader(edits, numbers);
      ParseRendered(more, numbers[1..]);
      if AllRenderable(changes) {
        ReadRendered(changes, rest, []);
        assert [] + ReadBackAll(changes) == ReadBackAll(changes);
      } else {
        ReadUnrenderable(changes, rest, []);
      }
    }
  }

  /** One hunk of a script: it goes where its own block is, or is refused. */
  lemma ApplyFirstHunk(source: seq<Line>, from: nat, gap: seq<Line>, after: seq<Line>, hunks: seq<Hunk>)
    requires hunks != [] && hunks[0].Before() != []
    requires from <= |source| && source[from..] == gap + hunks[0].Before() + after
    ensures from + |gap| + |hunks[0].Before()| <= |source|
    ensures source[from + |gap| + |hunks[0].Before()|..] == after
    ensures ApplyHunks(source, from, hunks) ==
      if UniqueFrom(source, from, hunks[0].Before(), from + |gap|) then
        Prepend(gap + hunks[0].After(), ApplyHunks(source, from + |gap| + |hunks[0].Before()|, hunks[1..]))
      else
        Err(NoUniqueMatch)
  {
    var block := hunks[0].Before();
    GapThenBlock(source, from, gap, block, after);
    PlaceAfter(source, from, block, hunks[0].hint);
    var place := Place(source, from, block, hunks[0].hint);
    if UniqueFrom(source, from, block, from + |gap|) {
      assert place == Some(from + |gap|);
      assert Slice(source, from, from + |gap|) == gap;
    } else {
      assert place.None?;
    }
  }

  lemma {:induction false} ApplyScript(source: seq<Line>, from: nat, edits: seq<Edit>, tail: seq<Line>,
                                       numbers: seq<Option<nat>>)
    requires |numbers| == |edits| && HasOldSides(edits)
    requires from <= |source| && source[from..] == SourceOf(edits, tail)
    ensures ApplyHunks(source, from, HunksOf(edits, numbers)) ==
      if UniqueInTurn(source, from, edits) then Ok(TargetOf(edits, tail)) else Err(NoUniqueMatch)
    decreases |edits|
  {
    hide UniqueFrom, Place, MatchesAt, ReadBackAll, OldSide, NewSide, OldLines, NewLines;
    if edits != [] {
      var hunks := HunksOf(edits, numbers);
      FirstEdit(edits);
      ReadBackSides(edits[0].changes);
      FirstHunkOf(edits, numbers);
      ApplyFirstHunk(source, from, edits[0].gap, SourceOf(edits[1..], tail), hunks);
      ApplyScript(source, from + |edits[0].gap| + |hunks[0].Before()|, edits[1..], tail, numbers[1..]);
    }
  }

  lemma FirstHunkOf(edits: seq<Edit>, numbers: seq<Option<nat>>)
    requires edits != [] && |numbers| == |edits|
    ensures var hunks := HunksOf(edits, numbers);
      && hunks != [] && hunks[0].entries == ReadBackAll(edits[0].changes)
      && hunks[1..] == HunksOf(edits[1..], numbers[1..])
  {
  }

  lemma GapThenBlock(source: seq<Line>, from: nat, gap: seq<Line>, block: seq<Line>, rest: seq<Line>)
    requires from <= |source| && source[from..] == gap + block + rest
    ensures from + |gap| + |block| <= |source|
    ensures source[from..from + |gap|] == gap
    ensures MatchesAt(source, block, from + |gap|)
    ensures source[from + |gap| + |block|..] == rest
  {
    var s := source[from..];
    assert |s| == |gap| + |block| + |rest|;
    assert s[..|gap|] == gap && s[|gap|..|gap| + |block|] == block && s[|gap| + |block|..] == rest;
    assert source[from..from + |gap|] == s[..|gap|];
    assert source[from + |gap|..from + |gap| + |block|] == s[|gap|..|gap| + |block|];
    assert source[from + |gap| + |block|..] == s[|gap| + |block|..];
  }

  /** The two lines that name the files. */
  predicate IsFileHeader(header: seq<PatchLine>) {
    || header == []
    || (|header| == 2 && header[0].Text? && header[1].Text? && "--- " <= header[0].raw && "+++ " <= header[1].raw)
  }

  /**
   Rendering a script whose blocks all have old lines and applying it to the script's source gives the script's
   target exactly when every line can be rendered and every old block is unique in turn; otherwise it is refused.
   */
  lemma RenderedScriptGivesTarget(script: Script, header: seq<PatchLine>, numbers: seq<Option<nat>>)
    requires script.edits != [] && |numbers| == |script.edits| && HasOldSides(script.edits)
    requires IsFileHeader(header)
    ensures var source := SourceOf(script.edits, script.tail);
      var r := ApplyPatch(source, header + Render(script.edits, numbers));
      && (r.Ok? <==> EditsRenderable(script.edits) && UniqueInTurn(source, 0, script.edits))
      && (r.Ok? ==> r.value == TargetOf(script.edits, script.tail))
  {
    hide UniqueInTurn, ApplyHunks, EditsRenderable, SourceOf, TargetOf;
    var source, body := SourceOf(script.edits, script.tail), Render(script.edits, numbers);
    assert source[0..] == source;
    ParseRendered(script.edits, numbers);
    ApplyScript(source, 0, script.edits, script.tail, numbers);
    ApplyIsParseThenApply(source, 0, body);
    var lines := header + body;
    assert lines[|header|..] == body;
    assert HeaderSize(lines) == Ok(|header|);
  }

  // ---------------------------------------------------------------------------
  // Undo

  function SwapChange(change: Change): Change {
    match change.kind
    case Context => change
    case Removed => change.(kind := Added)
    case Added => change.(kind := Removed)
  }

  function SwapChanges(changes: seq<Change>): (r: seq<Change>)
    ensures |r| == |changes|
    ensures forall i :: 0 <= i < |changes| ==> r[i] == SwapChange(changes[i])
  {
    if changes == [] then [] else [SwapChange(changes[0])] + SwapChanges(changes[1..])
  }

  function SwapEdits(edits: seq<Edit>): (r: seq<Edit>)
    ensures |r| == |edits|
    ensures forall k :: 0 <= k < |edits| ==> r[k] == Edit(edits[k].gap, SwapChanges(edits[k].changes))
  {
    if edits == [] then []
    else [Edit(edits[0].gap, SwapChanges(edits[0].changes))] + SwapEdits(edits[1..])
  }

  lemma {:induction false} SwapSides(changes: seq<Change>)
    ensures OldSide(SwapChanges(changes)) == NewSide(changes)
    ensures NewSide(SwapChanges(changes)) == OldSide(changes)
  {
    if changes != [] {
      SwapSides(changes[1..]);
      assert SwapChanges(changes)[1..] == SwapChanges(changes[1..]);
    }
  }

  lemma {:induction false} SwapEnds(edits: seq<Edit>, tail: seq<Line>)
    ensures SourceOf(SwapEdits(edits), tail) == TargetOf(edits, tail)
    ensures TargetOf(SwapEdits(edits), tail) == SourceOf(edits, tail)
  {
    if edits != [] {
      SwapSides(edits[0].changes);
      SwapEnds(edits[1..], tail);
      assert SwapEdits(edits)[1..] == SwapEdits(edits[1..]);
    }
  }
}
