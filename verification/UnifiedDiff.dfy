/**
 The patch engine of the source store: parse a unified diff and place each hunk
 by the one position where its old lines occur.

 A file is a sequence of lines that keep their line ends. A patch is a sequence
 of lines too; a line that is a well-formed hunk header is the case `Header`,
 which carries the old start line number when the header has one.
 */
module UnifiedDiff {
  import opened Prelude

  type Line = string

  datatype PatchLine = Header(oldStart: Option<nat>) | Text(raw: string)

  datatype Kind = Context | Removed | Added

  datatype Entry = Entry(kind: Kind, text: string, noNewline: bool)

  datatype PatchError =
    | EmptyPatch
    | MissingNewFileHeader
    | MissingOldFileHeader
    | InvalidHunkHeader
    | MultipleFileSections
    | OrphanMarker
    | InvalidLine
    | NoUniqueMatch
    | NoHunks

  const MARKER := "\\ No newline at end of file"

  predicate IsLineEnd(c: char) {
    c == '\n' || c == '\r'
  }

  function StripLineEnd(s: string): string {
    if s != [] && IsLineEnd(s[|s| - 1]) then StripLineEnd(s[..|s| - 1]) else s
  }

  function EntryText(e: Entry): Line {
    if e.noNewline then StripLineEnd(e.text) else e.text
  }

  // Texts and lines

  /** Where the first line of a text ends: after \n, after \r\n, after another \r, or at the end. */
  function LineSize(text: string): (n: nat)
    requires text != []
    ensures 0 < n <= |text|
  {
    if text[0] == '\n' || |text| == 1 then 1
    else if text[0] == '\r' then (if text[1] == '\n' then 2 else 1)
    else 1 + LineSize(text[1..])
  }

  function SplitLines(text: string): seq<Line>
    decreases |text|
  {
    if text == [] then []
    else [text[..LineSize(text)]] + SplitLines(text[LineSize(text)..])
  }

  function Join(lines: seq<Line>): string {
    if lines == [] then [] else lines[0] + Join(lines[1..])
  }

  lemma {:induction false} JoinSplitLines(text: string)
    ensures Join(SplitLines(text)) == text
    decreases |text|
  {
    if text != [] {
      JoinSplitLines(text[LineSize(text)..]);
      assert SplitLines(text)[1..] == SplitLines(text[LineSize(text)..]);
    }
  }

  predicate StartsHunk(line: PatchLine) {
    line.Header? || "@@" <= line.raw
  }

  /** Where the header says the old lines start, counted from 0. */
  function Hint(header: PatchLine): Option<nat>
    requires header.Header?
  {
    match header.oldStart
    case None => None
    case Some(n) => Some(if n == 0 then 0 else n - 1)
  }

  predicate IsKindChar(c: char) {
    c == ' ' || c == '+' || c == '-'
  }

  function KindOf(c: char): Kind
    requires IsKindChar(c)
  {
    if c == ' ' then Context else if c == '-' then Removed else Added
  }

  /** The texts of the entries that the old side shows. */
  function OldLines(entries: seq<Entry>): seq<Line> {
    if entries == [] then []
    else
      (if entries[0].kind != Added then [EntryText(entries[0])] else []) + OldLines(entries[1..])
  }

  /** The texts of the entries that the new side shows. */
  function NewLines(entries: seq<Entry>): seq<Line> {
    if entries == [] then []
    else
      (if entries[0].kind != Removed then [EntryText(entries[0])] else []) + NewLines(entries[1..])
  }

  /** The body of one hunk, up to the next hunk header, after the entries `seen`. */
  function ReadEntries(lines: seq<PatchLine>, seen: seq<Entry>)
    : (r: Result<(seq<Entry>, seq<PatchLine>), PatchError>)
    ensures r.Ok? ==> |r.value.1| <= |lines| && (r.value.1 == [] || StartsHunk(r.value.1[0]))
  {
    if lines == [] || StartsHunk(lines[0]) then
      Ok((seen, lines))
    else
      var raw := lines[0].raw;
      if "--- " <= raw || "+++ " <= raw then
        Err(MultipleFileSections)
      else if MARKER <= raw then
        if seen == [] then
          Err(OrphanMarker)
        else
          ReadEntries(lines[1..], seen[..|seen| - 1] + [seen[|seen| - 1].(noNewline := true)])
      else if raw == "" || !IsKindChar(raw[0]) then
        Err(InvalidLine)
      else
        ReadEntries(lines[1..], seen + [Entry(KindOf(raw[0]), raw[1..], false)])
  }

  /** `block` is what `source` shows from position `p` on. */
  predicate MatchesAt(source: seq<Line>, block: seq<Line>, p: int) {
    0 <= p && p + |block| <= |source| && source[p..p + |block|] == block
  }

  /** `p` is the one position at or after `from` where `block` occurs. */
  ghost predicate UniqueFrom(source: seq<Line>, from: nat, block: seq<Line>, p: nat) {
    && from <= p
    && MatchesAt(source, block, p)
    && forall q: nat | from <= q && MatchesAt(source, block, q) :: q == p
  }

  /**
   Where a hunk goes. Old lines decide alone; the line number only places a hunk
   that has none.
   */
  ghost function Place(source: seq<Line>, from: nat, block: seq<Line>, hint: Option<nat>): Option<nat> {
    if block == [] then
      if hint.Some? && from <= hint.value then hint else None
    else if exists p: nat :: UniqueFrom(source, from, block, p) then
      var p: nat :| UniqueFrom(source, from, block, p);
      Some(p)
    else
      None
  }

  /** `source[from:to]` as Python slices it: positions past the end are the end. */
  function Slice(source: seq<Line>, from: nat, to: nat): seq<Line>
    requires from <= to
  {
    var n := |source|;
    source[if from < n then from else n..if to < n then to else n]
  }

  function SliceFrom(source: seq<Line>, from: nat): seq<Line> {
    source[if from < |source| then from else |source|..]
  }

  /** Emitted lines before what the rest of the patch emits, or its error. */
  function Prepend(output: seq<Line>, r: Result<seq<Line>, PatchError>): Result<seq<Line>, PatchError> {
    if r.Ok? then Ok(output + r.value) else r
  }

  /** What the hunks in `lines` make of the source from position `from` on. */
  ghost function ApplyFrom(source: seq<Line>, from: nat, lines: seq<PatchLine>)
    : Result<seq<Line>, PatchError>
    decreases |lines|
  {
    if lines == [] then
      Ok(SliceFrom(source, from))
    else if !lines[0].Header? then
      Err(InvalidHunkHeader)
    else
      var (entries, rest) :- ReadEntries(lines[1..], []);
      var block := OldLines(entries);
      match Place(source, from, block, Hint(lines[0]))
      case None => Err(NoUniqueMatch)
      case Some(p) =>
        var tail :- ApplyFrom(source, p + |block|, rest);
        Ok(Slice(source, from, p) + NewLines(entries) + tail)
  }

  /** How many leading lines are the `---` and `+++` file header. */
  function HeaderSize(lines: seq<PatchLine>): (r: Result<nat, PatchError>)
    requires lines != []
    ensures r.Ok? ==> r.value <= |lines|
  {
    if lines[0].Text? && "--- " <= lines[0].raw then
      if 1 < |lines| && lines[1].Text? && "+++ " <= lines[1].raw then Ok(2) else Err(MissingNewFileHeader)
    else if lines[0].Text? && "+++ " <= lines[0].raw then
      Err(MissingOldFileHeader)
    else
      Ok(0)
  }

  ghost function ApplyPatch(source: seq<Line>, lines: seq<PatchLine>): Result<seq<Line>, PatchError> {
    if lines == [] then
      Err(EmptyPatch)
    else
      var start :- HeaderSize(lines);
      if start == |lines| then Err(NoHunks) else ApplyFrom(source, 0, lines[start..])
  }

  // ---------------------------------------------------------------------------
  // The loops of the source, proved against the functions above.

  method FindUniqueHunkStart(source: seq<Line>, sourceIndex: nat, oldLines: seq<Line>, hintedStart: Option<nat>)
    returns (start: Option<nat>)
    ensures start == Place(source, sourceIndex, oldLines, hintedStart)
    ensures oldLines != [] && start.Some? ==>
      forall q: nat :: sourceIndex <= q && MatchesAt(source, oldLines, q) <==> q == start.value
    ensures oldLines != [] && start.None? ==>
      forall p: nat :: !UniqueFrom(source, sourceIndex, oldLines, p)
  {
    if oldLines == [] {
      return if hintedStart.Some? && sourceIndex <= hintedStart.value then hintedStart else None;
    }
    var matches: seq<nat> := [];
    var last := |source| - |oldLines|;
    var candidate := sourceIndex;
    while candidate < last + 1
      invariant sourceIndex <= candidate
      invariant forall q: nat :: q in matches <==> sourceIndex <= q < candidate && MatchesAt(source, oldLines, q)
      invariant forall i :: 0 <= i < |matches| ==> matches[i] < candidate
      invariant forall i, j :: 0 <= i < j < |matches| ==> matches[i] < matches[j]
    {
      if source[candidate..candidate + |oldLines|] == oldLines {
        matches := matches + [candidate];
      }
      candidate := candidate + 1;
    }
    assert forall q: nat :: q in matches <==> sourceIndex <= q && MatchesAt(source, oldLines, q);
    if |matches| == 1 {
      assert matches[0] in matches;
      assert UniqueFrom(source, sourceIndex, oldLines, matches[0]);
      return Some(matches[0]);
    }
    if |matches| > 1 {
      assert matches[0] in matches && matches[1] in matches;
      assert MatchesAt(source, oldLines, matches[0]) && MatchesAt(source, oldLines, matches[1]);
    }
    return None;
  }

  /** The inner loop over the lines of one hunk, from `first` on. */
  method ReadHunk(lines: seq<PatchLine>, first: nat) returns (result: Result<(seq<Entry>, nat), PatchError>)
    requires first <= |lines|
    ensures result.Err? ==> ReadEntries(lines[first..], []) == Err(result.error)
    ensures result.Ok? ==>
      && first <= result.value.1 <= |lines|
      && ReadEntries(lines[first..], []) == Ok((result.value.0, lines[result.value.1..]))
  {
    var index := first;
    var entries: seq<Entry> := [];
    while index < |lines| && !StartsHunk(lines[index])
      invariant first <= index <= |lines|
      invariant ReadEntries(lines[first..], []) == ReadEntries(lines[index..], entries)
    {
      assert lines[index..][1..] == lines[index + 1..];
      var line := lines[index].raw;
      if "--- " <= line || "+++ " <= line {
        return Err(MultipleFileSections);
      }
      if MARKER <= line {
        if entries == [] {
          return Err(OrphanMarker);
        }
        entries := entries[..|entries| - 1] + [entries[|entries| - 1].(noNewline := true)];
      } else {
        if line == "" || !IsKindChar(line[0]) {
          return Err(InvalidLine);
        }
        entries := entries + [Entry(KindOf(line[0]), line[1..], false)];
      }
      index := index + 1;
    }
    return Ok((entries, index));
  }

  /** The loop that collects the old lines of a hunk. */
  method CollectOldLines(entries: seq<Entry>) returns (oldLines: seq<Line>)
    ensures oldLines == OldLines(entries)
  {
    oldLines := [];
    var i := 0;
    while i < |entries|
      invariant 0 <= i <= |entries|
      invariant OldLines(entries) == oldLines + OldLines(entries[i..])
    {
      assert entries[i..][1..] == entries[i + 1..];
      if entries[i].kind != Added {
        oldLines := oldLines + [EntryText(entries[i])];
      }
      i := i + 1;
    }
  }

  /** The loop that moves past the old lines of a hunk and emits its new lines. */
  method EmitHunk(entries: seq<Entry>, before: seq<Line>, start: nat)
    returns (output: seq<Line>, sourceIndex: nat)
    ensures output == before + NewLines(entries)
    ensures sourceIndex == start + |OldLines(entries)|
  {
    output, sourceIndex := before, start;
    var i := 0;
    while i < |entries|
      invariant 0 <= i <= |entries|
      invariant sourceIndex + |OldLines(entries[i..])| == start + |OldLines(entries)|
      invariant before + NewLines(entries) == output + NewLines(entries[i..])
    {
      assert entries[i..][1..] == entries[i + 1..];
      if entries[i].kind != Added {
        sourceIndex := sourceIndex + 1;
      }
      if entries[i].kind != Removed {
        output := output + [EntryText(entries[i])];
      }
      i := i + 1;
    }
  }

  method ApplyUnifiedDiff(source: seq<Line>, lines: seq<PatchLine>) returns (result: Result<seq<Line>, PatchError>)
    ensures result == ApplyPatch(source, lines)
  {
    hide ReadEntries, Place, UniqueFrom, MatchesAt, OldLines, NewLines;
    if lines == [] {
      return Err(EmptyPatch);
    }
    var index := 0;
    if lines[index].Text? && "--- " <= lines[index].raw {
      index := index + 1;
      if index >= |lines| || !(lines[index].Text? && "+++ " <= lines[index].raw) {
        return Err(MissingNewFileHeader);
      }
      index := index + 1;
    } else if lines[index].Text? && "+++ " <= lines[index].raw {
      return Err(MissingOldFileHeader);
    }
    ghost var start := index;
    var output: seq<Line> := [];
    var sourceIndex: nat := 0;
    var hunkCount := 0;
    PrependNothing(ApplyFrom(source, 0, lines[start..]));
    while index < |lines|
      invariant start <= index <= |lines|
      invariant hunkCount == 0 ==> index == start
      invariant hunkCount > 0 ==> start < |lines|
      invariant ApplyFrom(source, 0, lines[start..]) == Prepend(output, ApplyFrom(source, sourceIndex, lines[index..]))
    {
      ghost var todo := lines[index..];
      ghost var patched := ApplyFrom(source, sourceIndex, todo);
      var header := lines[index];
      if !header.Header? {
        return Err(InvalidHunkHeader);
      }
      assert todo[1..] == lines[index + 1..];
      var body := ReadHunk(lines, index + 1);
      if body.Err? {
        return Err(body.error);
      }
      hunkCount := hunkCount + 1;
      var entries := body.value.0;
      index := body.value.1;
      var oldLines := CollectOldLines(entries);
      var hunkStart := FindUniqueHunkStart(source, sourceIndex, oldLines, Hint(header));
      if hunkStart.None? {
        return Err(NoUniqueMatch);
      }
      ApplyFromHunk(source, sourceIndex, todo, entries, lines[index..], hunkStart.value, output);
      output, sourceIndex :=
        EmitHunk(entries, output + Slice(source, sourceIndex, hunkStart.value), hunkStart.value);
    }
    if hunkCount == 0 {
      return Err(NoHunks);
    }
    return Ok(output + SliceFrom(source, sourceIndex));
  }

  lemma PlaceAfter(source: seq<Line>, from: nat, block: seq<Line>, hint: Option<nat>)
    ensures var p := Place(source, from, block, hint);
      p.Some? ==> from <= p.value && (block != [] ==> UniqueFrom(source, from, block, p.value))
  {
  }

  /** One round of the outer loop. */
  lemma ApplyFromHunk(source: seq<Line>, from: nat, lines: seq<PatchLine>, entries: seq<Entry>,
                      rest: seq<PatchLine>, start: nat, output: seq<Line>)
    requires lines != [] && lines[0].Header? && ReadEntries(lines[1..], []) == Ok((entries, rest))
    requires Place(source, from, OldLines(entries), Hint(lines[0])) == Some(start)
    ensures from <= start
    ensures Prepend(output, ApplyFrom(source, from, lines)) ==
            Prepend(output + Slice(source, from, start) + NewLines(entries),
                    ApplyFrom(source, start + |OldLines(entries)|, rest))
  {
    hide ReadEntries, UniqueFrom, MatchesAt, OldLines, NewLines, Place;
    PlaceAfter(source, from, OldLines(entries), Hint(lines[0]));
    var between, block := Slice(source, from, start), NewLines(entries);
    var tail := ApplyFrom(source, start + |OldLines(entries)|, rest);
    if tail.Ok? {
      assert output + (between + block + tail.value) == output + between + block + tail.value;
    }
  }

  lemma PrependNothing(r: Result<seq<Line>, PatchError>)
    ensures Prepend([], r) == r
  {
    if r.Ok? {
      assert [] + r.value == r.value;
    }
  }
}
