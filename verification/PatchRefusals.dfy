/** Which line refuses a patch, and how: the faults of a patch, line by line. */
module PatchRefusals {
  import opened Prelude
  import opened UnifiedDiff
  import opened UnifiedDiffProofs

  predicate Begins(line: PatchLine, start: string) {
    line.Text? && |line.raw| >= |start| && line.raw[..|start|] == start
  }

  /** What is wrong with a line after the file header, by itself and the line before it. */
  function FaultAt(lines: seq<PatchLine>, k: nat): Option<PatchError>
    requires k < |lines|
  {
    var line := lines[k];
    if line.Header? then None
    else if k == 0 || Begins(line, "@@") then Some(InvalidHunkHeader)
    else if Begins(line, "--- ") || Begins(line, "+++ ") then Some(MultipleFileSections)
    else if Begins(line, MARKER) then (if lines[k - 1].Header? then Some(OrphanMarker) else None)
    else if Begins(line, " ") || Begins(line, "+") || Begins(line, "-") then None
    else Some(InvalidLine)
  }

  predicate Faultless(lines: seq<PatchLine>, from: nat, to: nat)
    requires to <= |lines|
  {
    forall k :: from <= k < to ==> FaultAt(lines, k).None?
  }

  /** The first line with a fault from a line on. */
  predicate FirstFault(lines: seq<PatchLine>, from: nat, k: nat, e: PatchError) {
    from <= k < |lines| && Faultless(lines, from, k) && FaultAt(lines, k) == Some(e)
  }

  lemma BeginsIsPrefix(line: PatchLine, start: string)
    requires line.Text?
    ensures Begins(line, start) <==> start <= line.raw
  {
  }

  lemma FirstChar(line: PatchLine, start: string)
    requires line.Text? && start != ""
    ensures Begins(line, start) ==> line.raw[0] == start[0]
  {
    assert Begins(line, start) ==> line.raw[0] == line.raw[..|start|][0];
  }

  /** One line of a hunk: it ends the hunk, has a fault or is read. */
  lemma OneLine(lines: seq<PatchLine>, i: nat, seen: seq<Entry>) returns (more: seq<Entry>)
    requires 0 < i < |lines| && !StartsHunk(lines[i]) && (seen == [] <==> lines[i - 1].Header?)
    ensures
      var r, fault := ReadEntries(lines[i..], seen), FaultAt(lines, i);
      if fault.Some? then r == Err(fault.value)
      else more != [] && r == ReadEntries(lines[i + 1..], more)
  {
    more := seen;
    var line := lines[i];
    BeginsIsPrefix(line, "@@");
    BeginsIsPrefix(line, "--- ");
    BeginsIsPrefix(line, "+++ ");
    BeginsIsPrefix(line, MARKER);
    assert lines[i..][0] == line && lines[i..][1..] == lines[i + 1..];
    assert Begins(line, " ") || Begins(line, "+") || Begins(line, "-") <==> line.raw != "" && IsKindChar(line.raw[0]);
    if FaultAt(lines, i).None? {
      if Begins(line, MARKER) {
        more := seen[..|seen| - 1] + [seen[|seen| - 1].(noNewline := true)];
      } else {
        more := seen + [Entry(KindOf(line.raw[0]), line.raw[1..], false)];
      }
    }
  }

  /** A hunk is read up to the next line that starts one, or up to the first fault. */
  lemma {:induction false} ReadToFault(lines: seq<PatchLine>, i: nat, seen: seq<Entry>)
    requires 0 < i <= |lines| && (seen == [] <==> lines[i - 1].Header?)
    ensures
      var r := ReadEntries(lines[i..], seen);
      && (r.Ok? ==>
            var m := |lines| - |r.value.1|;
            i <= m && r.value.1 == lines[m..] && Faultless(lines, i, m) && (m < |lines| ==> StartsHunk(lines[m])))
      && (r.Err? ==> exists k :: FirstFault(lines, i, k, r.error))
    decreases |lines| - i
  {
    hide FaultAt;
    if i < |lines| && !StartsHunk(lines[i]) {
      hide ReadEntries;
      var more := OneLine(lines, i, seen);
      NoHeader(lines[i]);
      if FaultAt(lines, i).Some? {
        assert FirstFault(lines, i, i, FaultAt(lines, i).value);
      } else {
        ReadToFault(lines, i + 1, more);
        var r := ReadEntries(lines[i + 1..], more);
        if r.Err? {
          var k :| FirstFault(lines, i + 1, k, r.error);
          assert FirstFault(lines, i, k, r.error);
        }
      }
    }
  }

  lemma NoHeader(line: PatchLine)
    requires !StartsHunk(line)
    ensures !line.Header?
  {
  }

  /** A line that starts a hunk is as faulty in the middle of a patch as at its beginning. */
  lemma FaultsShift(lines: seq<PatchLine>, m: nat, k: nat)
    requires m + k < |lines| && StartsHunk(lines[m])
    ensures FaultAt(lines[m..], k) == FaultAt(lines, m + k)
  {
    assert lines[m..][k] == lines[m + k];
    assert k > 0 ==> lines[m..][k - 1] == lines[m + k - 1];
    if lines[m].Text? {
      BeginsIsPrefix(lines[m], "@@");
    }
  }

  /** A patch body is read exactly when no line has a fault; otherwise it is refused for its first fault. */
  lemma {:induction false} BodyIsReadIff(lines: seq<PatchLine>)
    ensures Parse(lines).Ok? <==> Faultless(lines, 0, |lines|)
    ensures Parse(lines).Err? ==> exists k :: FirstFault(lines, 0, k, Parse(lines).error)
    decreases |lines|, 1
  {
    hide FaultAt, ReadEntries;
    if lines != [] {
      FaultOfFirst(lines);
      if !lines[0].Header? {
        assert FirstFault(lines, 0, 0, InvalidHunkHeader);
      } else {
        ReadToFault(lines, 1, []);
        var r := ReadEntries(lines[1..], []);
        if r.Err? {
          var k :| FirstFault(lines, 1, k, r.error);
          assert FirstFault(lines, 0, k, r.error);
        } else {
          AfterHunk(lines, |lines| - |r.value.1|);
        }
      }
    }
  }

  lemma FaultOfFirst(lines: seq<PatchLine>)
    requires lines != []
    ensures FaultAt(lines, 0) == if lines[0].Header? then None else Some(InvalidHunkHeader)
  {
  }

  lemma {:induction false} AfterHunk(lines: seq<PatchLine>, m: nat)
    requires 0 < m <= |lines| && Faultless(lines, 0, m) && (m < |lines| ==> StartsHunk(lines[m]))
    ensures Parse(lines[m..]).Ok? <==> Faultless(lines, 0, |lines|)
    ensures Parse(lines[m..]).Err? ==> exists k :: FirstFault(lines, 0, k, Parse(lines[m..]).error)
    decreases |lines|, 0
  {
    hide FaultAt, Parse, StartsHunk;
    var rest := lines[m..];
    BodyIsReadIff(rest);
    forall k | 0 <= k < |rest|
      ensures FaultAt(rest, k) == FaultAt(lines, m + k)
    {
      FaultsShift(lines, m, k);
    }
    assert Faultless(rest, 0, |rest|) ==> Faultless(lines, 0, |lines|) by {
      assert forall k :: m <= k < |lines| ==> FaultAt(lines, k) == FaultAt(rest, k - m);
    }
    if Parse(rest).Err? {
      var k :| FirstFault(rest, 0, k, Parse(rest).error);
      assert forall j :: m <= j < m + k ==> FaultAt(lines, j) == FaultAt(rest, j - m);
      assert FirstFault(lines, 0, m + k, Parse(rest).error);
    }
  }

  // ---------------------------------------------------------------------------
  // Whole patches

  /** Where the hunks of a patch begin: after the two lines of a file header, or at once. */
  function BodyStart(lines: seq<PatchLine>): nat
    requires lines != []
  {
    if Begins(lines[0], "--- ") then 2 else 0
  }

  /** The file header is whole: both of its lines, or none. */
  predicate HeaderWhole(lines: seq<PatchLine>)
    requires lines != []
  {
    && !Begins(lines[0], "+++ ")
    && (Begins(lines[0], "--- ") ==> |lines| >= 2 && Begins(lines[1], "+++ "))
  }

  lemma HeaderRefusals(lines: seq<PatchLine>)
    requires lines != []
    ensures
      HeaderSize(lines) ==
        if HeaderWhole(lines) then Ok(BodyStart(lines))
        else if Begins(lines[0], "+++ ") then Err(MissingOldFileHeader)
        else Err(MissingNewFileHeader)
  {
    if lines[0].Text? {
      BeginsIsPrefix(lines[0], "--- ");
      BeginsIsPrefix(lines[0], "+++ ");
      FirstChar(lines[0], "--- ");
      FirstChar(lines[0], "+++ ");
      if |lines| >= 2 && lines[1].Text? {
        BeginsIsPrefix(lines[1], "+++ ");
      }
    }
  }

  /**
   What a patch is refused for: having no lines, half a file header, no hunk, or the first line with a fault - unless a
   hunk before that line has no place in the file. Without any of these, only a hunk without a place refuses it.
   */
  lemma PatchIsRefusedFor(source: seq<Line>, lines: seq<PatchLine>)
    ensures
      var r := ApplyPatch(source, lines);
      if lines == [] then r == Err(EmptyPatch)
      else if Begins(lines[0], "+++ ") then r == Err(MissingOldFileHeader)
      else if !HeaderWhole(lines) then r == Err(MissingNewFileHeader)
      else if |lines| == BodyStart(lines) then r == Err(NoHunks)
      else
        var body := lines[BodyStart(lines)..];
        && (Faultless(body, 0, |body|) ==> r.Ok? || r == Err(NoUniqueMatch))
        && (!Faultless(body, 0, |body|) ==>
              r.Err? && (r.error != NoUniqueMatch ==> exists k :: FirstFault(body, 0, k, r.error)))
  {
    hide ApplyFrom, Parse, FaultAt;
    if lines != [] {
      HeaderRefusals(lines);
      if HeaderWhole(lines) {
        var body := lines[BodyStart(lines)..];
        BodyIsReadIff(body);
        ApplyIsParseThenApply(source, 0, body);
        if Parse(body).Ok? {
          OnlyPlacesFail(source, 0, Parse(body).value);
        } else {
          ErrorOfBody(source, 0, body);
        }
      }
    }
  }

  lemma {:induction false} OnlyPlacesFail(source: seq<Line>, from: nat, hunks: seq<Hunk>)
    ensures ApplyHunks(source, from, hunks).Err? ==> ApplyHunks(source, from, hunks).error == NoUniqueMatch
    decreases |hunks|
  {
    hide Place;
    if hunks != [] {
      var place := Place(source, from, hunks[0].Before(), hunks[0].hint);
      if place.Some? {
        OnlyPlacesFail(source, place.value + |hunks[0].Before()|, hunks[1..]);
      }
    }
  }

  lemma {:induction false} ErrorOfBody(source: seq<Line>, from: nat, lines: seq<PatchLine>)
    requires Parse(lines).Err?
    ensures ApplyFrom(source, from, lines) in {Err(Parse(lines).error), Err(NoUniqueMatch)}
    decreases |lines|
  {
    hide ReadEntries, Place, OldLines, NewLines;
    if lines != [] && lines[0].Header? && ReadEntries(lines[1..], []).Ok? {
      var (entries, rest) := ReadEntries(lines[1..], []).value;
      var place := Place(source, from, OldLines(entries), Hint(lines[0]));
      if place.Some? {
        ErrorOfBody(source, place.value + |OldLines(entries)|, rest);
      }
    }
  }
}
