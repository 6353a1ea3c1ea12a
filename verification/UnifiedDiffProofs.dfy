/** What the patch engine promises, over every source and every patch. */
module UnifiedDiffProofs {
  import opened Prelude
  import opened UnifiedDiff

  // ---------------------------------------------------------------------------
  // Placement

  datatype Hunk = Hunk(hint: Option<nat>, entries: seq<Entry>) {
    function Before(): seq<Line> {
      OldLines(entries)
    }

    function After(): seq<Line> {
      NewLines(entries)
    }
  }

  /** The hunks of a patch body, without placing any of them. */
  function Parse(lines: seq<PatchLine>): Result<seq<Hunk>, PatchError>
    decreases |lines|
  {
    if lines == [] then
      Ok([])
    else if !lines[0].Header? then
      Err(InvalidHunkHeader)
    else
      var (entries, rest) :- ReadEntries(lines[1..], []);
      var hunks :- Parse(rest);
      Ok([Hunk(Hint(lines[0]), entries)] + hunks)
  }

  /** The hunks of a whole patch, file header included. */
  function ParsePatch(lines: seq<PatchLine>): Result<seq<Hunk>, PatchError> {
    if lines == [] then
      Err(EmptyPatch)
    else
      var start :- HeaderSize(lines);
      if start == |lines| then Err(NoHunks) else Parse(lines[start..])
  }

  /** What the parsed hunks make of the source from position `from` on. */
  ghost function ApplyHunks(source: seq<Line>, from: nat, hunks: seq<Hunk>): Result<seq<Line>, PatchError>
    decreases |hunks|
  {
    if hunks == [] then
      Ok(SliceFrom(source, from))
    else
      match Place(source, from, hunks[0].Before(), hunks[0].hint)
      case None => Err(NoUniqueMatch)
      case Some(p) =>
        Prepend(Slice(source, from, p) + hunks[0].After(), ApplyHunks(source, p + |hunks[0].Before()|, hunks[1..]))
  }

  /** Parsing while placing, as the engine does, is parsing first and placing after, but for which error is given. */
  lemma {:induction false} ApplyIsParseThenApply(source: seq<Line>, from: nat, lines: seq<PatchLine>)
    ensures Parse(lines).Err? ==> ApplyFrom(source, from, lines).Err?
    ensures Parse(lines).Ok? ==> ApplyFrom(source, from, lines) == ApplyHunks(source, from, Parse(lines).value)
    decreases |lines|
  {
    hide ReadEntries, Place, UniqueFrom, MatchesAt, OldLines, NewLines;
    if lines != [] && lines[0].Header? && ReadEntries(lines[1..], []).Ok? {
      var (entries, rest) := ReadEntries(lines[1..], []).value;
      var place := Place(source, from, OldLines(entries), Hint(lines[0]));
      if place.Some? {
        ApplyIsParseThenApply(source, place.value + |OldLines(entries)|, rest);
      }
      if Parse(rest).Ok? {
        ConsHunk(Hunk(Hint(lines[0]), entries), Parse(rest).value);
      }
    }
  }

  lemma ConsHunk(hunk: Hunk, hunks: seq<Hunk>)
    ensures ([hunk] + hunks)[0] == hunk && ([hunk] + hunks)[1..] == hunks
  {
  }

  predicate AllHaveOldLines(hunks: seq<Hunk>) {
    forall k :: 0 <= k < |hunks| ==> hunks[k].Before() != []
  }

  /** `at` places every old block in the source, in order and without overlap. */
  predicate IsPlacement(source: seq<Line>, from: nat, hunks: seq<Hunk>, at: seq<nat>)
    decreases |hunks|
  {
    && |at| == |hunks|
    && (hunks != [] ==>
          && from <= at[0]
          && MatchesAt(source, hunks[0].Before(), at[0])
          && IsPlacement(source, at[0] + |hunks[0].Before()|, hunks[1..], at[1..]))
  }

  ghost predicate OnlyPlacement(source: seq<Line>, from: nat, hunks: seq<Hunk>, at: seq<nat>) {
    && IsPlacement(source, from, hunks, at)
    && forall other :: IsPlacement(source, from, hunks, other) ==> other == at
  }

  ghost predicate HasOnePlacement(source: seq<Line>, from: nat, hunks: seq<Hunk>) {
    exists at :: OnlyPlacement(source, from, hunks, at)
  }

  /** The source with the window of every old block replaced by the new block. */
  function Splice(source: seq<Line>, from: nat, hunks: seq<Hunk>, at: seq<nat>): seq<Line>
    requires from <= |source| && IsPlacement(source, from, hunks, at)
    decreases |hunks|
  {
    if hunks == [] then
      source[from..]
    else
      var next := at[0] + |hunks[0].Before()|;
      source[from..at[0]] + hunks[0].After() + Splice(source, next, hunks[1..], at[1..])
  }

  /** Every hunk in turn has one position from the end of the hunk before it on. */
  ghost predicate Places(source: seq<Line>, from: nat, hunks: seq<Hunk>, at: seq<nat>)
    decreases |hunks|
  {
    && |at| == |hunks|
    && (hunks != [] ==>
          && UniqueFrom(source, from, hunks[0].Before(), at[0])
          && Places(source, at[0] + |hunks[0].Before()|, hunks[1..], at[1..]))
  }

  lemma {:induction false} PlacesIsOnlyPlacement(source: seq<Line>, from: nat, hunks: seq<Hunk>, at: seq<nat>)
    requires Places(source, from, hunks, at)
    ensures OnlyPlacement(source, from, hunks, at)
    decreases |hunks|
  {
    if hunks != [] {
      var next := at[0] + |hunks[0].Before()|;
      PlacesIsOnlyPlacement(source, next, hunks[1..], at[1..]);
      forall other | IsPlacement(source, from, hunks, other)
        ensures other == at
      {
        assert other[0] == at[0];
        assert IsPlacement(source, next, hunks[1..], other[1..]);
        assert other == [other[0]] + other[1..] && at == [at[0]] + at[1..];
      }
    }
  }

  /** When the hunks apply, every one had exactly one position when its turn came. */
  lemma {:induction false} AppliedPlaces(source: seq<Line>, from: nat, hunks: seq<Hunk>) returns (at: seq<nat>)
    requires AllHaveOldLines(hunks)
    requires ApplyHunks(source, from, hunks).Ok?
    ensures Places(source, from, hunks, at)
    decreases |hunks|
  {
    if hunks == [] {
      at := [];
    } else {
      var block := hunks[0].Before();
      PlaceAfter(source, from, block, hunks[0].hint);
      var start := Place(source, from, block, hunks[0].hint).value;
      var tail := AppliedPlaces(source, start + |block|, hunks[1..]);
      at := [start] + tail;
      assert at[1..] == tail;
    }
  }

  /** When every hunk has exactly one position in turn, the hunks apply and splice. */
  lemma {:induction false} PlacesApplies(source: seq<Line>, from: nat, hunks: seq<Hunk>, at: seq<nat>)
    requires from <= |source| && AllHaveOldLines(hunks)
    requires Places(source, from, hunks, at)
    ensures IsPlacement(source, from, hunks, at)
    ensures ApplyHunks(source, from, hunks) == Ok(Splice(source, from, hunks, at))
    decreases |hunks|
  {
    if hunks != [] {
      var block := hunks[0].Before();
      PlaceAfter(source, from, block, hunks[0].hint);
      assert UniqueFrom(source, from, block, at[0]);
      assert Place(source, from, block, hunks[0].hint) == Some(at[0]);
      PlacesApplies(source, at[0] + |block|, hunks[1..], at[1..]);
    }
  }

  /** A patch that applies has exactly one ordered placement of its old blocks, and the result splices it. */
  lemma AppliedPatchSplices(source: seq<Line>, lines: seq<PatchLine>) returns (at: seq<nat>)
    requires ParsePatch(lines).Ok? && AllHaveOldLines(ParsePatch(lines).value)
    requires ApplyPatch(source, lines).Ok?
    ensures OnlyPlacement(source, 0, ParsePatch(lines).value, at)
    ensures ApplyPatch(source, lines).value == Splice(source, 0, ParsePatch(lines).value, at)
  {
    var hunks := ParsePatch(lines).value;
    ApplyIsParseThenApply(source, 0, lines[HeaderSize(lines).value..]);
    at := AppliedPlaces(source, 0, hunks);
    PlacesIsOnlyPlacement(source, 0, hunks, at);
    PlacesApplies(source, 0, hunks, at);
  }

  predicate KeepsBlocks(hunks: seq<Hunk>) {
    forall k :: 0 <= k < |hunks| ==> hunks[k].After() == hunks[k].Before()
  }

  /** Splicing the old blocks back in gives the source: the windows are the old blocks and nothing else. */
  lemma {:induction false} SpliceKeepsTheRest(source: seq<Line>, from: nat, hunks: seq<Hunk>, at: seq<nat>)
    requires from <= |source| && IsPlacement(source, from, hunks, at) && KeepsBlocks(hunks)
    ensures Splice(source, from, hunks, at) == source[from..]
    decreases |hunks|
  {
    hide OldLines, NewLines;
    if hunks != [] {
      var next := at[0] + |hunks[0].Before()|;
      SpliceKeepsTheRest(source, next, hunks[1..], at[1..]);
      assert hunks[0].After() == source[at[0]..next];
      JoinThree(source, from, at[0], next);
    }
  }

  lemma JoinThree(s: seq<Line>, a: nat, b: nat, c: nat)
    requires a <= b <= c <= |s|
    ensures s[a..b] + s[b..c] + s[c..] == s[a..]
  {
  }

  // A patch applies exactly when each of its prefixes has one placement. A placement of the whole patch that
  // is unique is not enough: see `OnePlacementIsNotEnough`.

  lemma {:induction false} PlacesFromPrefixes(source: seq<Line>, from: nat, hunks: seq<Hunk>) returns (at: seq<nat>)
    requires forall k: nat | k <= |hunks| :: HasOnePlacement(source, from, hunks[..k])
    ensures Places(source, from, hunks, at)
    decreases |hunks|
  {
    if hunks == [] {
      at := [];
    } else {
      var first := hunks[0].Before();
      assert HasOnePlacement(source, from, hunks[..1]);
      var only :| OnlyPlacement(source, from, hunks[..1], only);
      var start := only[0];
      forall q: nat | from <= q && MatchesAt(source, first, q)
        ensures q == start
      {
        assert IsPlacement(source, from, hunks[..1], [q]);
      }
      var next := start + |first|;
      forall k: nat | k <= |hunks[1..]|
        ensures HasOnePlacement(source, next, hunks[1..][..k])
      {
        DropFirstHunk(source, from, hunks[..k + 1], start);
        assert hunks[..k + 1][1..] == hunks[1..][..k];
      }
      var tail := PlacesFromPrefixes(source, next, hunks[1..]);
      at := [start] + tail;
      assert at[1..] == tail;
    }
  }

  lemma DropFirstHunk(source: seq<Line>, from: nat, hunks: seq<Hunk>, start: nat)
    requires hunks != [] && UniqueFrom(source, from, hunks[0].Before(), start)
    requires HasOnePlacement(source, from, hunks)
    ensures HasOnePlacement(source, start + |hunks[0].Before()|, hunks[1..])
  {
    var next := start + |hunks[0].Before()|;
    var at :| OnlyPlacement(source, from, hunks, at);
    assert at[0] == start;
    forall other | IsPlacement(source, next, hunks[1..], other)
      ensures other == at[1..]
    {
      var whole := [start] + other;
      assert whole[1..] == other;
      assert IsPlacement(source, from, hunks, whole);
    }
    assert OnlyPlacement(source, next, hunks[1..], at[1..]);
  }

  lemma {:induction false} PlacesPrefix(source: seq<Line>, from: nat, hunks: seq<Hunk>, at: seq<nat>, k: nat)
    requires Places(source, from, hunks, at) && k <= |hunks|
    ensures Places(source, from, hunks[..k], at[..k])
    decreases k
  {
    if k > 0 {
      PlacesPrefix(source, at[0] + |hunks[0].Before()|, hunks[1..], at[1..], k - 1);
      assert hunks[..k][1..] == hunks[1..][..k - 1] && at[..k][1..] == at[1..][..k - 1];
    }
  }

  lemma AppliesIffPrefixesPlaced(source: seq<Line>, lines: seq<PatchLine>)
    requires ParsePatch(lines).Ok? && AllHaveOldLines(ParsePatch(lines).value)
    ensures ApplyPatch(source, lines).Ok? <==>
      forall k: nat | k <= |ParsePatch(lines).value| :: HasOnePlacement(source, 0, ParsePatch(lines).value[..k])
  {
    var hunks := ParsePatch(lines).value;
    ApplyIsParseThenApply(source, 0, lines[HeaderSize(lines).value..]);
    if ApplyPatch(source, lines).Ok? {
      var at := AppliedPlaces(source, 0, hunks);
      forall k: nat | k <= |hunks|
        ensures HasOnePlacement(source, 0, hunks[..k])
      {
        PlacesPrefix(source, 0, hunks, at, k);
        PlacesIsOnlyPlacement(source, 0, hunks[..k], at[..k]);
      }
    }
    if forall k: nat | k <= |hunks| :: HasOnePlacement(source, 0, hunks[..k]) {
      var at := PlacesFromPrefixes(source, 0, hunks);
      PlacesApplies(source, 0, hunks, at);
    }
  }

  /** Two bodies that differ at most in the numbers of their hunk headers. */
  predicate SameExceptNumbers(lines: seq<PatchLine>, others: seq<PatchLine>) {
    && |lines| == |others|
    && forall i :: 0 <= i < |lines| ==> lines[i] == others[i] || (lines[i].Header? && others[i].Header?)
  }

  lemma {:induction false} SameEntries(lines: seq<PatchLine>, others: seq<PatchLine>, seen: seq<Entry>)
    requires SameExceptNumbers(lines, others)
    ensures var r, o := ReadEntries(lines, seen), ReadEntries(others, seen);
      if r.Err? then o == Err(r.error)
      else o.Ok? && o.value.0 == r.value.0 && SameExceptNumbers(r.value.1, o.value.1)
    decreases |lines|
  {
    if lines != [] && !StartsHunk(lines[0]) {
      var raw := lines[0].raw;
      assert SameExceptNumbers(lines[1..], others[1..]);
      if "--- " <= raw || "+++ " <= raw {
      } else if MARKER <= raw {
        if seen != [] {
          SameEntries(lines[1..], others[1..], seen[..|seen| - 1] + [seen[|seen| - 1].(noNewline := true)]);
        }
      } else if raw != "" && IsKindChar(raw[0]) {
        SameEntries(lines[1..], others[1..], seen + [Entry(KindOf(raw[0]), raw[1..], false)]);
      }
    }
  }

  lemma {:induction false} ParseIgnoresNumbers(lines: seq<PatchLine>, others: seq<PatchLine>)
    requires SameExceptNumbers(lines, others) && Parse(lines).Ok?
    ensures Parse(others).Ok? && SameBlocks(Parse(lines).value, Parse(others).value)
    decreases |lines|
  {
    if lines != [] {
      assert SameExceptNumbers(lines[1..], others[1..]);
      SameEntries(lines[1..], others[1..], []);
      ParseIgnoresNumbers(ReadEntries(lines[1..], []).value.1, ReadEntries(others[1..], []).value.1);
    }
  }

  predicate SameBlocks(hunks: seq<Hunk>, others: seq<Hunk>) {
    && |hunks| == |others|
    && forall k :: 0 <= k < |hunks| ==> hunks[k].entries == others[k].entries
  }

  lemma {:induction false} ApplyIgnoresNumbers(source: seq<Line>, from: nat, hunks: seq<Hunk>, others: seq<Hunk>)
    requires SameBlocks(hunks, others) && AllHaveOldLines(hunks)
    ensures ApplyHunks(source, from, others) == ApplyHunks(source, from, hunks)
    decreases |hunks|
  {
    if hunks != [] {
      var block := hunks[0].Before();
      var start := Place(source, from, block, hunks[0].hint);
      assert Place(source, from, block, others[0].hint) == start;
      if start.Some? {
        ApplyIgnoresNumbers(source, start.value + |block|, hunks[1..], others[1..]);
      }
    }
  }

  /** Changing the line numbers of the headers never changes the result when every hunk has old lines. */
  lemma NumbersDoNotMatter(source: seq<Line>, lines: seq<PatchLine>, others: seq<PatchLine>)
    requires SameExceptNumbers(lines, others)
    requires ParsePatch(lines).Ok? && AllHaveOldLines(ParsePatch(lines).value)
    ensures ApplyPatch(source, others) == ApplyPatch(source, lines)
  {
    var start := HeaderSize(lines).value;
    assert HeaderSize(others) == Ok(start);
    assert SameExceptNumbers(lines[start..], others[start..]);
    ParseIgnoresNumbers(lines[start..], others[start..]);
    ApplyIgnoresNumbers(source, 0, ParsePatch(lines).value, Parse(others[start..]).value);
    ApplyIsParseThenApply(source, 0, lines[start..]);
    ApplyIsParseThenApply(source, 0, others[start..]);
  }

  lemma PrefixOfCons(c: char, text: string, first: char, others: string)
    ensures [first] + others <= [c] + text <==> first == c && others <= text
  {
    var raw, prefix := [c] + text, [first] + others;
    if prefix <= raw {
      assert raw[0] == prefix[0];
      assert forall i :: 0 <= i < |others| ==> others[i] == prefix[i + 1] && raw[i + 1] == text[i];
    }
    if first == c && others <= text {
      assert raw == prefix + text[|others|..];
    }
  }

  predicate OpensFileSection(c: char, text: string) {
    (c == '-' && "-- " <= text) || (c == '+' && "++ " <= text)
  }

  /** How one body line is read. */
  lemma ReadOne(c: char, text: string, rest: seq<PatchLine>, seen: seq<Entry>)
    requires IsKindChar(c)
    ensures ReadEntries([Text([c] + text)] + rest, seen) ==
      if OpensFileSection(c, text) then Err(MultipleFileSections)
      else ReadEntries(rest, seen + [Entry(KindOf(c), text, false)])
  {
    var raw := [c] + text;
    var lines := [Text(raw)] + rest;
    assert lines[0].raw == raw && lines[1..] == rest && raw[1..] == text;
    PrefixOfCons(c, text, '-', "-- ");
    PrefixOfCons(c, text, '+', "++ ");
    assert "--- " == ['-'] + "-- " && "+++ " == ['+'] + "++ ";
    assert raw[0] == c;
    assert !(MARKER <= raw) by {
      assert MARKER[0] == '\\';
    }
    assert !("@@" <= raw) by {
      assert "@@"[0] == '@';
    }
  }

  /** A hunk of one removed line. */
  function RemoveOne(text: Line): Hunk {
    Hunk(None, [Entry(Removed, text, false)])
  }

  lemma ParseRemoveOne(text: Line, rest: seq<PatchLine>)
    requires !("-- " <= text)
    requires Parse(rest).Ok? && (rest == [] || StartsHunk(rest[0]))
    ensures Parse([Header(None), Text(['-'] + text)] + rest) == Ok([RemoveOne(text)] + Parse(rest).value)
    ensures RemoveOne(text).Before() == [text]
  {
    var lines := [Header(None), Text(['-'] + text)] + rest;
    assert lines[1..] == [Text(['-'] + text)] + rest;
    ReadOne('-', text, rest, []);
    assert [] + [Entry(Removed, text, false)] == [Entry(Removed, text, false)];
    assert OldLines([Entry(Removed, text, false)]) == [text] + OldLines([]);
  }

  /** In a, b, a the patch that removes an a and then a b has one placement. */
  lemma OnlyOneWay(source: seq<Line>, hunks: seq<Hunk>)
    requires |source| == 3 && source[0] == source[2] != source[1]
    requires hunks == [RemoveOne(source[0]), RemoveOne(source[1])]
    requires hunks[0].Before() == [source[0]] && hunks[1].Before() == [source[1]]
    ensures OnlyPlacement(source, 0, hunks, [0, 1])
  {
    assert hunks[1..] == [hunks[1]] && [0, 1][1..] == [1];
    assert source[0..1] == [source[0]] && source[1..2] == [source[1]];
    assert IsPlacement(source, 1, hunks[1..], [1]);
    forall other | IsPlacement(source, 0, hunks, other)
      ensures other == [0, 1]
    {
      assert IsPlacement(source, other[0] + 1, hunks[1..], other[1..]);
      assert other[1..][0] == other[1];
      assert source[other[1]..other[1] + 1][0] == source[other[1]];
      assert source[other[0]..other[0] + 1][0] == source[other[0]];
    }
  }

  /** One placement of the whole patch does not make it apply: here the first hunk alone matches twice. */
  lemma OnePlacementIsNotEnough()
    ensures var source := ["a\n", "b\n", "a\n"];
      var lines := [Header(None), Text(['-'] + "a\n"), Header(None), Text(['-'] + "b\n")];
      && ParsePatch(lines).Ok? && AllHaveOldLines(ParsePatch(lines).value)
      && HasOnePlacement(source, 0, ParsePatch(lines).value)
      && ApplyPatch(source, lines).Err?
  {
    var a, b := "a\n", "b\n";
    var source := [a, b, a];
    var second := [Header(None), Text(['-'] + b)];
    var lines := [Header(None), Text(['-'] + a)] + second;
    assert second + [] == second && [RemoveOne(b)] + [] == [RemoveOne(b)];
    ParseRemoveOne(b, []);
    ParseRemoveOne(a, second);
    var hunks := [RemoveOne(a), RemoveOne(b)];
    assert [RemoveOne(a)] + [RemoveOne(b)] == hunks && lines[0..] == lines;
    assert ParsePatch(lines) == Ok(hunks);
    assert a[0] != b[0];
    OnlyOneWay(source, hunks);
    assert [Header(None), Text(['-'] + a), Header(None), Text(['-'] + b)] == lines;
    assert source[0..1] == [a] && source[2..3] == [a];
    assert MatchesAt(source, [a], 0) && MatchesAt(source, [a], 2);
    ApplyIsParseThenApply(source, 0, lines);
    assert forall p: nat :: !UniqueFrom(source, 0, [a], p);
  }

  // ---------------------------------------------------------------------------
  // Hunks without old lines

  /** The body of a hunk that only adds lines. */
  predicate OnlyAdds(entries: seq<Entry>) {
    forall i :: 0 <= i < |entries| ==> entries[i].kind == Added
  }

  lemma {:induction false} OnlyAddsHasNoOldLines(entries: seq<Entry>)
    requires OnlyAdds(entries)
    ensures OldLines(entries) == []
  {
    if entries != [] {
      OnlyAddsHasNoOldLines(entries[1..]);
    }
  }

  /**
   A single hunk that only adds lines goes by its header number alone: for number n > 0 its lines are inserted
   before line n (POSIX puts them after it), a number past the end appends, and without a number it is refused.
   */
  lemma InsertOnlyGoesBeforeItsLine(source: seq<Line>, header: PatchLine, body: seq<PatchLine>, entries: seq<Entry>)
    requires header.Header?
    requires ReadEntries(body, []) == Ok((entries, [])) && OnlyAdds(entries)
    ensures header.oldStart.None? ==> ApplyPatch(source, [header] + body) == Err(NoUniqueMatch)
    ensures header.oldStart.Some? ==>
      var n := header.oldStart.value;
      var k := if n == 0 then 0 else if n - 1 <= |source| then n - 1 else |source|;
      ApplyPatch(source, [header] + body) == Ok(source[..k] + NewLines(entries) + source[k..])
  {
    OnlyAddsHasNoOldLines(entries);
    var lines := [header] + body;
    assert lines[0..] == lines && lines[1..] == body;
    if header.oldStart.Some? {
      var at := Hint(header).value;
      assert Place(source, 0, OldLines(entries), Hint(header)) == Some(at);
      var r := Slice(source, 0, at) + NewLines(entries) + SliceFrom(source, at);
      assert ApplyFrom(source, at, []) == Ok(SliceFrom(source, at));
      assert ApplyFrom(source, 0, lines) == Ok(r);
    }
  }

  predicate AllAre(lines: seq<Line>, line: Line) {
    forall k :: 0 <= k < |lines| ==> lines[k] == line
  }

  /** Lines may stand before or after another one alike exactly when they all equal it. */
  lemma {:induction false} BeforeIsAfterIff(lines: seq<Line>, line: Line)
    ensures lines + [line] == [line] + lines <==> AllAre(lines, line)
    decreases |lines|
  {
    if lines != [] {
      var rest := lines[1..];
      BeforeIsAfterIff(rest, line);
      assert lines == [lines[0]] + rest;
      if lines[0] == line {
        assert (lines + [line])[1..] == rest + [line] && ([line] + lines)[1..] == lines == [line] + rest;
        assert lines + [line] == [line] + (rest + [line]) && [line] + lines == [line] + ([line] + rest);
      } else {
        assert (lines + [line])[0] != ([line] + lines)[0];
      }
    }
  }

  lemma SameFrame(before: seq<Line>, x: seq<Line>, y: seq<Line>, after: seq<Line>)
    ensures before + x + after == before + y + after <==> x == y
  {
    var l, r := before + x + after, before + y + after;
    if l == r {
      assert |x| == |y|;
      assert l[|before|..|before| + |x|] == x && r[|before|..|before| + |y|] == y;
    }
  }

  /**
   The unified format of POSIX puts an empty old range after the line its header names. Within the file the engine
   gives that result exactly when the header names line 0, or when every inserted line equals the named one.
   */
  lemma InsertOnlyIsPosixIff(source: seq<Line>, n: nat, body: seq<PatchLine>, entries: seq<Entry>)
    requires ReadEntries(body, []) == Ok((entries, [])) && OnlyAdds(entries) && n <= |source|
    ensures
      ApplyPatch(source, [Header(Some(n))] + body) == Ok(source[..n] + NewLines(entries) + source[n..]) <==>
        n == 0 || AllAre(NewLines(entries), source[n - 1])
  {
    hide ReadEntries, ApplyPatch, NewLines;
    InsertOnlyGoesBeforeItsLine(source, Header(Some(n)), body, entries);
    if n > 0 {
      var added, line := NewLines(entries), source[n - 1];
      var before, after := source[..n - 1], source[n..];
      assert source[..n] == before + [line] && source[n - 1..] == [line] + after;
      assert before + added + ([line] + after) == before + (added + [line]) + after;
      assert before + [line] + added + after == before + ([line] + added) + after;
      SameFrame(before, added + [line], [line] + added, after);
      BeforeIsAfterIff(added, line);
    }
  }

  /** A hunk that inserts a line other than the one it names always lands on the other side of it. */
  lemma InsertOnlyDiffersFromPosix(source: seq<Line>, n: nat, line: Line)
    requires 0 < n <= |source| && line != source[n - 1] && !("++ " <= line)
    ensures
      var r := ApplyPatch(source, [Header(Some(n)), Text(['+'] + line)]);
      && r == Ok(source[..n - 1] + [line] + source[n - 1..])
      && r != Ok(source[..n] + [line] + source[n..])
  {
    hide ApplyPatch;
    var body, e := [Text(['+'] + line)], Entry(Added, line, false);
    ReadOne('+', line, [], []);
    assert body == [Text(['+'] + line)] + [] && [] + [e] == [e];
    OneEntry(e);
    assert NewLines([e]) == [line] && OnlyAdds([e]);
    InsertOnlyGoesBeforeItsLine(source, Header(Some(n)), body, [e]);
    InsertOnlyIsPosixIff(source, n, body, [e]);
    assert [line][0] == line;
    assert [Header(Some(n))] + body == [Header(Some(n)), Text(['+'] + line)];
  }

  lemma OneEntry(e: Entry)
    ensures ReadEntries([], [e]) == Ok(([e], []))
    ensures e.kind != Removed && !e.noNewline ==> NewLines([e]) == [e.text]
  {
    assert [e][1..] == [];
  }
}
