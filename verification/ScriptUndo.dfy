/**
 When the swapped script undoes a script. The store keeps the patched file as one text and cuts it into lines again
 before the next patch, so the second patch sees the target's lines only if those are the lines of a text.
 */
module ScriptUndo {
  import opened Prelude
  import opened UnifiedDiff
  import opened UnifiedDiffProofs
  import opened EditScripts
  import opened TextLines

  // ---------------------------------------------------------------------------
  // Scripts with the same changes and other gaps

  predicate SameChanges(a: seq<Edit>, b: seq<Edit>) {
    |a| == |b| && forall k :: 0 <= k < |a| ==> a[k].changes == b[k].changes
  }

  predicate HasNewSides(edits: seq<Edit>) {
    forall k :: 0 <= k < |edits| ==> NewSide(edits[k].changes) != []
  }

  /** Every new block occurs once, in turn, in the target. */
  ghost predicate NewUniqueInTurn(target: seq<Line>, from: nat, edits: seq<Edit>)
    decreases |edits|
  {
    edits != [] ==>
      var block, start := NewSide(edits[0].changes), from + |edits[0].gap|;
      UniqueFrom(target, from, block, start) && NewUniqueInTurn(target, start + |block|, edits[1..])
  }

  lemma {:induction false} SwapUnique(target: seq<Line>, from: nat, edits: seq<Edit>)
    ensures UniqueInTurn(target, from, SwapEdits(edits)) <==> NewUniqueInTurn(target, from, edits)
    decreases |edits|
  {
    hide UniqueFrom;
    if edits != [] {
      SwapSides(edits[0].changes);
      assert SwapEdits(edits)[1..] == SwapEdits(edits[1..]);
      SwapUnique(target, from + |edits[0].gap| + |NewSide(edits[0].changes)|, edits[1..]);
    }
  }

  lemma {:induction false} SwapChangesTwice(changes: seq<Change>)
    ensures SwapChanges(SwapChanges(changes)) == changes
  {
    if changes != [] {
      SwapChangesTwice(changes[1..]);
      assert SwapChanges(changes)[1..] == SwapChanges(changes[1..]);
    }
  }

  lemma SwapTwice(edits: seq<Edit>)
    ensures SwapEdits(SwapEdits(edits)) == edits
  {
    forall k | 0 <= k < |edits|
      ensures SwapEdits(SwapEdits(edits))[k] == edits[k]
    {
      SwapChangesTwice(edits[k].changes);
    }
  }

  lemma MatchShift(source: seq<Line>, cut: nat, block: seq<Line>, q: nat)
    requires cut <= |source|
    ensures MatchesAt(source, block, cut + q) <==> MatchesAt(source[cut..], block, q)
  {
    if cut + q + |block| <= |source| {
      assert source[cut + q..cut + q + |block|] == source[cut..][q..q + |block|];
    }
  }

  lemma UniqueShift(source: seq<Line>, cut: nat, from: nat, block: seq<Line>, p: nat)
    requires cut <= |source|
    ensures UniqueFrom(source, cut + from, block, cut + p) <==> UniqueFrom(source[cut..], from, block, p)
  {
    hide MatchesAt;
    MatchShift(source, cut, block, p);
    if UniqueFrom(source[cut..], from, block, p) {
      forall q: nat | cut + from <= q && MatchesAt(source, block, q)
        ensures q == cut + p
      {
        var r: nat := q - cut;
        MatchShift(source, cut, block, r);
      }
    }
    if UniqueFrom(source, cut + from, block, cut + p) {
      forall r: nat | from <= r && MatchesAt(source[cut..], block, r)
        ensures r == p
      {
        MatchShift(source, cut, block, r);
      }
    }
  }

  lemma {:induction false} UniqueInTail(source: seq<Line>, cut: nat, from: nat, edits: seq<Edit>)
    requires cut <= |source|
    ensures UniqueInTurn(source, cut + from, edits) <==> UniqueInTurn(source[cut..], from, edits)
    decreases |edits|
  {
    hide UniqueFrom;
    if edits != [] {
      var start := from + |edits[0].gap|;
      UniqueShift(source, cut, from, OldSide(edits[0].changes), start);
      UniqueInTail(source, cut, start + |OldSide(edits[0].changes)|, edits[1..]);
    }
  }

  /** The first block of a script, and the rest of it on the rest of the lines. */
  lemma FirstBlock(edits: seq<Edit>, tail: seq<Line>)
    requires edits != []
    ensures
      var block, rest := OldSide(edits[0].changes), SourceOf(edits[1..], tail);
      && SourceOf(edits, tail) == edits[0].gap + block + rest
      && (UniqueInTurn(SourceOf(edits, tail), 0, edits) ==>
            UniqueFrom(SourceOf(edits, tail), 0, block, |edits[0].gap|) && UniqueInTurn(rest, 0, edits[1..]))
  {
    hide UniqueFrom;
    var source, block := SourceOf(edits, tail), OldSide(edits[0].changes);
    var cut := |edits[0].gap| + |block|;
    assert source[cut..] == SourceOf(edits[1..], tail);
    UniqueInTail(source, cut, 0, edits[1..]);
  }

  // ---------------------------------------------------------------------------
  // Two ways to cut the same texts

  /**
   `a` cuts the first file into gaps and old blocks, `b` the second one into other gaps and the new blocks; put
   together the other way round, both give the same two texts.
   */
  ghost predicate CutAlike(a: seq<Edit>, t: seq<Line>, b: seq<Edit>, u: seq<Line>) {
    && SameChanges(a, b) && HasOldSides(a) && HasNewSides(a)
    && IsText(SourceOf(a, t)) && UniqueInTurn(SourceOf(a, t), 0, a)
    && IsText(TargetOf(b, u)) && NewUniqueInTurn(TargetOf(b, u), 0, b)
    && Join(SourceOf(a, t)) == Join(SourceOf(b, u))
    && Join(TargetOf(a, t)) == Join(TargetOf(b, u))
  }

  lemma ThreeParts(a: seq<Line>, b: seq<Line>, c: seq<Line>)
    requires IsText(a + b + c)
    ensures Join(a + b + c) == Join(a) + Join(b) + Join(c)
    ensures Cut(Join(a), Join(b) + Join(c)) && Cut(Join(a) + Join(b), Join(c))
    ensures IsText(a) && IsText(b) && IsText(c)
  {
    assert a + b + c == a + (b + c);
    SplitCut(a, b + c);
    SplitCut(a + b, c);
    SplitCut(b, c);
    JoinConcat(a + b, c);
    JoinConcat(a, b);
    JoinConcat(b, c);
  }

  lemma Window(p: seq<Line>, block: seq<Line>, q: seq<Line>)
    ensures (p + (block + q))[..|p|] == p && MatchesAt(p + (block + q), block, |p|)
  {
  }

  lemma SplitThree(a: string, b: string, c: string)
    requires Cut(a, b + c) && Cut(a + b, c)
    ensures SplitLines(a + b + c) == SplitLines(a) + (SplitLines(b) + SplitLines(c))
  {
    hide SplitLines;
    CutInside(a, b, c);
    SplitConcat(a, b + c);
    SplitConcat(b, c);
    assert a + b + c == a + (b + c);
  }

  /** A block found in the text at two line ends is found in its lines. */
  lemma FoundInLines(lines: seq<Line>, block: seq<Line>, before: string, after: string)
    requires IsText(lines) && IsText(block) && Join(lines) == before + Join(block) + after
    requires Cut(before, Join(block) + after) && Cut(before + Join(block), after)
    ensures |SplitLines(before)| <= |lines| && SplitLines(before) == lines[..|SplitLines(before)|]
    ensures MatchesAt(lines, block, |SplitLines(before)|)
  {
    hide SplitLines, Join, Cut, MatchesAt;
    SplitThree(before, Join(block), after);
    Window(SplitLines(before), block, SplitLines(after));
  }

  lemma CutInside(a: string, b: string, c: string)
    requires Cut(a + b, c)
    ensures b != "" ==> Cut(b, c)
    ensures b == "" ==> Cut(b, c)
  {
    if b != "" {
      assert (a + b)[|a + b| - 1] == b[|b| - 1];
    }
  }

  lemma UniqueGap(lines: seq<Line>, gap: seq<Line>, block: seq<Line>, rest: seq<Line>, before: string, after: string)
    requires IsText(lines) && lines == gap + block + rest && UniqueFrom(lines, 0, block, |gap|)
    requires Join(lines) == before + Join(block) + after
    requires Cut(before, Join(block) + after) && Cut(before + Join(block), after)
    ensures before == Join(gap)
  {
    ThreeParts(gap, block, rest);
    FoundInLines(lines, block, before, after);
    assert |SplitLines(before)| == |gap|;
    assert lines[..|gap|] == gap;
    JoinSplitLines(before);
  }

  /** The texts of a script are those of its first gap and block, and of the rest. */
  lemma TextParts(edits: seq<Edit>, tail: seq<Line>)
    requires edits != []
    ensures Join(SourceOf(edits, tail))
      == Join(edits[0].gap) + Join(OldSide(edits[0].changes)) + Join(SourceOf(edits[1..], tail))
    ensures Join(TargetOf(edits, tail))
      == Join(edits[0].gap) + Join(NewSide(edits[0].changes)) + Join(TargetOf(edits[1..], tail))
  {
    hide Join;
    var e := edits[0];
    JoinConcat(e.gap + OldSide(e.changes), SourceOf(edits[1..], tail));
    JoinConcat(e.gap, OldSide(e.changes));
    JoinConcat(e.gap + NewSide(e.changes), TargetOf(edits[1..], tail));
    JoinConcat(e.gap, NewSide(e.changes));
  }

  /**
   How the rests of two pairs of texts can differ: not at all at the end of the scripts; else only where a gap is
   empty, and then by the blocks that come next.
   */
  predicate Heads(last: bool, a: string, b: string, c: string, d: string) {
    if last then a == b && c == d
    else a != "" && b != "" && c != "" && d != "" && (a[0] == b[0] || c[0] == d[0] || a[0] == c[0])
  }

  lemma FirstOf(x: string, y: string, z: string)
    requires y != ""
    ensures x + y + z != "" && (x + y + z)[0] == if x != "" then x[0] else y[0]
  {
  }

  lemma RestHeads(a: seq<Edit>, t: seq<Line>, b: seq<Edit>, u: seq<Line>)
    requires SameChanges(a, b)
    requires a != [] ==> Join(OldSide(a[0].changes)) != "" && Join(NewSide(a[0].changes)) != ""
    ensures Heads(a == [], Join(SourceOf(a, t)), Join(TargetOf(a, t)), Join(SourceOf(b, u)), Join(TargetOf(b, u)))
  {
    if a != [] {
      var o, n := Join(OldSide(a[0].changes)), Join(NewSide(a[0].changes));
      TextParts(a, t);
      TextParts(b, u);
      FirstOf(Join(a[0].gap), o, Join(SourceOf(a[1..], t)));
      FirstOf(Join(a[0].gap), n, Join(TargetOf(a[1..], t)));
      FirstOf(Join(b[0].gap), o, Join(SourceOf(b[1..], u)));
      FirstOf(Join(b[0].gap), n, Join(TargetOf(b[1..], u)));
    }
  }

  // Below: a file is g + o + a or h + o + c; another is g + n + b or h + n + d.

  lemma SameStart(g: string, h: string, o: string, n: string, a: string, b: string, c: string, d: string)
    requires g + o + a == h + o + c && g + n + b == h + n + d && |h| < |g| && o != "" && n != ""
    ensures o[0] == n[0]
    ensures Cut(h, n + d) ==> Cut(h, o + c)
  {
    assert (g + o + a)[|h|] == g[|h|] && (h + o + c)[|h|] == o[0];
    assert (g + n + b)[|h|] == g[|h|] && (h + n + d)[|h|] == n[0];
    assert (o + c)[0] == o[0] && (n + d)[0] == n[0];
  }

  lemma LastOf(x: string, y: string)
    requires y != ""
    ensures x + y != "" && (x + y)[|x + y| - 1] == y[|y| - 1]
  {
  }

  lemma BlockEndsLine(g: string, h: string, o: string, n: string, a: string, b: string, c: string, d: string, last: bool)
    requires g + o + a == h + o + c && g + n + b == h + n + d && o != "" && n != ""
    requires Cut(g + o, a) && Cut(h + n, d) && Heads(last, a, b, c, d)
    ensures c == "" || IsLineEnd(o[|o| - 1])
  {
    if c != "" && a != "" {
      LastOf(g, o);
    } else if c != "" {
      LastOf(h + o, c);
      LastOf(h + n, d);
      LastOf(g, o);
      LastOf(g, n);
      LastOf(h, n);
      assert g + o + a == g + o && g + n + b == g + n;
    }
  }

  /** With a shorter gap, the old block or the new block would also be found at the other place. */
  lemma Dilemma(g: string, h: string, o: string, n: string, a: string, b: string, c: string, d: string, last: bool)
    requires g + o + a == h + o + c && g + n + b == h + n + d && |h| < |g| && o != "" && n != ""
    requires Cut(g, o + a) && Cut(g + o, a) && Cut(h, n + d) && Cut(h + n, d) && Heads(last, a, b, c, d)
    ensures Cut(h, o + c)
    ensures Cut(h + o, c) || (Cut(g, n + b) && Cut(g + n, b))
  {
    SameStart(g, h, o, n, a, b, c, d);
    BlockEndsLine(g, h, o, n, a, b, c, d, last);
    LastOf(h, o);
    LastOf(g, o);
    LastOf(g, n);
    LastOf(h, n);
    assert (o + a)[0] == o[0] && (n + b)[0] == n[0];
  }

  /** The first gap, block and rest of two files that are cut alike, as texts. */
  lemma FirstCut(a: seq<Edit>, t: seq<Line>, b: seq<Edit>, u: seq<Line>)
    requires CutAlike(a, t, b, u) && a != []
    ensures
      var g, h := Join(a[0].gap), Join(b[0].gap);
      var o, n := Join(OldSide(a[0].changes)), Join(NewSide(a[0].changes));
      var oldRest, newRest := Join(SourceOf(a[1..], t)), Join(TargetOf(a[1..], t));
      var oldRest2, newRest2 := Join(SourceOf(b[1..], u)), Join(TargetOf(b[1..], u));
      && b != [] && b[0].changes == a[0].changes && o != "" && n != ""
      && Join(SourceOf(a, t)) == g + o + oldRest == h + o + oldRest2
      && Join(TargetOf(b, u)) == h + n + newRest2 == g + n + newRest
      && Cut(g, o + oldRest) && Cut(g + o, oldRest) && Cut(h, n + newRest2) && Cut(h + n, newRest2)
      && IsText(a[0].gap) && IsText(b[0].gap) && IsText(OldSide(a[0].changes)) && IsText(NewSide(a[0].changes))
      && IsText(SourceOf(a[1..], t)) && IsText(TargetOf(b[1..], u))
  {
    hide UniqueInTurn, NewUniqueInTurn, Cut, IsText, Join, OldSide, NewSide;
    TextParts(a, t);
    TextParts(b, u);
    ThreeParts(a[0].gap, OldSide(a[0].changes), SourceOf(a[1..], t));
    ThreeParts(b[0].gap, NewSide(b[0].changes), TargetOf(b[1..], u));
    NoEmptyLine(OldSide(a[0].changes));
    NoEmptyLine(NewSide(a[0].changes));
  }

  lemma RestAlike(a: seq<Edit>, t: seq<Line>, b: seq<Edit>, u: seq<Line>)
    requires CutAlike(a, t, b, u) && |a| > 1
    ensures Join(OldSide(a[1].changes)) != "" && Join(NewSide(a[1].changes)) != ""
  {
    hide UniqueInTurn, NewUniqueInTurn, Cut, IsText, Join, OldSide, NewSide;
    FirstCut(a, t, b, u);
    ThreeParts(a[1].gap, OldSide(a[1].changes), SourceOf(a[1..][1..], t));
    ThreeParts(b[1].gap, NewSide(b[1].changes), TargetOf(b[1..][1..], u));
    NoEmptyLine(OldSide(a[1].changes));
    NoEmptyLine(NewSide(a[1].changes));
  }

  lemma FirstUnique(a: seq<Edit>, t: seq<Line>, b: seq<Edit>, u: seq<Line>)
    requires CutAlike(a, t, b, u) && a != []
    ensures SourceOf(a, t) == a[0].gap + OldSide(a[0].changes) + SourceOf(a[1..], t)
    ensures TargetOf(b, u) == b[0].gap + NewSide(b[0].changes) + TargetOf(b[1..], u)
    ensures UniqueFrom(SourceOf(a, t), 0, OldSide(a[0].changes), |a[0].gap|)
    ensures UniqueFrom(TargetOf(b, u), 0, NewSide(b[0].changes), |b[0].gap|)
    ensures UniqueInTurn(SourceOf(a[1..], t), 0, a[1..]) && NewUniqueInTurn(TargetOf(b[1..], u), 0, b[1..])
  {
    hide UniqueFrom, IsText, Join, UniqueInTurn, NewUniqueInTurn, OldSide, NewSide;
    FirstBlock(a, t);
    SwapEnds(b, u);
    SwapUnique(TargetOf(b, u), 0, b);
    FirstBlock(SwapEdits(b), u);
    SwapSides(b[0].changes);
    SwapTail(b);
    SwapEnds(b[1..], u);
    SwapUnique(TargetOf(b[1..], u), 0, b[1..]);
  }

  lemma SwapTail(edits: seq<Edit>)
    requires edits != []
    ensures SwapEdits(edits)[1..] == SwapEdits(edits[1..])
    ensures SwapEdits(edits)[0] == Edit(edits[0].gap, SwapChanges(edits[0].changes))
  {
  }

  lemma NotShorter(a: seq<Edit>, t: seq<Line>, b: seq<Edit>, u: seq<Line>)
    requires CutAlike(a, t, b, u) && a != []
    ensures b != [] && |Join(b[0].gap)| >= |Join(a[0].gap)|
  {
    hide UniqueFrom, UniqueInTurn, NewUniqueInTurn, Cut, IsText, Join, OldSide, NewSide, SourceOf, TargetOf, Heads;
    var g, h := Join(a[0].gap), Join(b[0].gap);
    FirstCut(a, t, b, u);
    FirstUnique(a, t, b, u);
    if |a| > 1 {
      RestAlike(a, t, b, u);
    }
    RestHeads(a[1..], t, b[1..], u);
    if |h| < |g| {
      var o, n := Join(OldSide(a[0].changes)), Join(NewSide(a[0].changes));
      var oldRest, newRest := Join(SourceOf(a[1..], t)), Join(TargetOf(a[1..], t));
      var oldRest2, newRest2 := Join(SourceOf(b[1..], u)), Join(TargetOf(b[1..], u));
      Dilemma(g, h, o, n, oldRest, newRest, oldRest2, newRest2, a[1..] == []);
      if Cut(h + o, oldRest2) {
        UniqueGap(SourceOf(a, t), a[0].gap, OldSide(a[0].changes), SourceOf(a[1..], t), h, oldRest2);
      } else {
        UniqueGap(TargetOf(b, u), b[0].gap, NewSide(b[0].changes), TargetOf(b[1..], u), g, newRest);
      }
    }
  }

  lemma SwapAlike(a: seq<Edit>, t: seq<Line>, b: seq<Edit>, u: seq<Line>)
    requires CutAlike(a, t, b, u)
    ensures CutAlike(SwapEdits(b), u, SwapEdits(a), t)
  {
    hide UniqueFrom, IsText, Join, UniqueInTurn, NewUniqueInTurn;
    SwapEnds(a, t);
    SwapEnds(b, u);
    SwapUnique(TargetOf(b, u), 0, b);
    SwapUnique(SourceOf(a, t), 0, SwapEdits(a));
    SwapTwice(a);
    forall k | 0 <= k < |a|
      ensures OldSide(SwapEdits(b)[k].changes) == NewSide(a[k].changes)
      ensures NewSide(SwapEdits(b)[k].changes) == OldSide(a[k].changes)
    {
      SwapSides(a[k].changes);
    }
  }

  lemma SameFirstGap(a: seq<Edit>, t: seq<Line>, b: seq<Edit>, u: seq<Line>)
    requires CutAlike(a, t, b, u) && a != []
    ensures b != [] && a[0].gap == b[0].gap
  {
    hide UniqueFrom, IsText, Join, UniqueInTurn, NewUniqueInTurn, SourceOf, TargetOf, Cut, CutAlike;
    NotShorter(a, t, b, u);
    SwapAlike(a, t, b, u);
    SameSizes(a, t, b, u);
    NotShorter(SwapEdits(b), u, SwapEdits(a), t);
    FirstCut(a, t, b, u);
    var g, h := Join(a[0].gap), Join(b[0].gap);
    assert |g| == |h|;
    SamePrefix(g, h, Join(OldSide(a[0].changes)), Join(SourceOf(a[1..], t)), Join(SourceOf(b[1..], u)));
    SameText(a[0].gap, b[0].gap);
  }

  lemma SameSizes(a: seq<Edit>, t: seq<Line>, b: seq<Edit>, u: seq<Line>)
    requires CutAlike(a, t, b, u)
    ensures |a| == |b|
  {
  }

  lemma SamePrefix(g: string, h: string, o: string, x: string, y: string)
    requires g + o + x == h + o + y && |g| == |h|
    ensures g == h && x == y
  {
    assert (g + o + x)[..|g|] == g && (h + o + y)[..|h|] == h;
    assert (g + o + x)[|g| + |o|..] == x && (h + o + y)[|h| + |o|..] == y;
  }

  lemma RestCutAlike(a: seq<Edit>, t: seq<Line>, b: seq<Edit>, u: seq<Line>)
    requires CutAlike(a, t, b, u) && a != []
    ensures b != [] && CutAlike(a[1..], t, b[1..], u)
  {
    hide UniqueFrom, IsText, Join, UniqueInTurn, NewUniqueInTurn, SourceOf, TargetOf, Cut, OldSide, NewSide;
    SameFirstGap(a, t, b, u);
    FirstCut(a, t, b, u);
    FirstUnique(a, t, b, u);
    var g := Join(a[0].gap);
    SamePrefix(g, g, Join(OldSide(a[0].changes)), Join(SourceOf(a[1..], t)), Join(SourceOf(b[1..], u)));
    SamePrefix(g, g, Join(NewSide(a[0].changes)), Join(TargetOf(a[1..], t)), Join(TargetOf(b[1..], u)));
  }

  /** Two files that are cut alike have the same gaps: the second one is the target of the script, line by line. */
  lemma {:induction false} CutAlikeIsSame(a: seq<Edit>, t: seq<Line>, b: seq<Edit>, u: seq<Line>)
    requires CutAlike(a, t, b, u)
    ensures a == b && t == u
    decreases |a|
  {
    hide UniqueFrom, IsText, Join, UniqueInTurn, NewUniqueInTurn, Cut, OldSide, NewSide;
    SameSizes(a, t, b, u);
    if a == [] {
      SameText(t, u);
    } else {
      SameFirstGap(a, t, b, u);
      RestCutAlike(a, t, b, u);
      CutAlikeIsSame(a[1..], t, b[1..], u);
      FirstCut(a, t, b, u);
      assert a == [a[0]] + a[1..] && b == [b[0]] + b[1..];
    }
  }

  // ---------------------------------------------------------------------------
  // The swapped script on the stored text

  /** A patch that applies cuts the file: what lies between its blocks are the gaps of a script with its changes. */
  lemma {:induction false} AppliedIsScript(source: seq<Line>, from: nat, edits: seq<Edit>, numbers: seq<Option<nat>>)
    returns (b: seq<Edit>, u: seq<Line>)
    requires from <= |source| && |numbers| == |edits| && HasOldSides(edits)
    requires ApplyHunks(source, from, HunksOf(edits, numbers)).Ok?
    ensures SameChanges(edits, b) && source[from..] == SourceOf(b, u) && UniqueInTurn(source, from, b)
    ensures ApplyHunks(source, from, HunksOf(edits, numbers)) == Ok(TargetOf(b, u))
    decreases |edits|
  {
    hide UniqueFrom, MatchesAt, ReadBackAll, OldSide, NewSide, OldLines, NewLines;
    if edits == [] {
      b, u := [], source[from..];
    } else {
      var hunks := HunksOf(edits, numbers);
      FirstEdit(edits);
      ReadBackSides(edits[0].changes);
      FirstHunkOf(edits, numbers);
      var block := OldSide(edits[0].changes);
      PlaceAfter(source, from, block, hunks[0].hint);
      var start := Place(source, from, block, hunks[0].hint).value;
      UniqueMatches(source, from, block, start);
      var more, rest := AppliedIsScript(source, start + |block|, edits[1..], numbers[1..]);
      b, u := [Edit(source[from..start], edits[0].changes)] + more, rest;
      assert b[1..] == more;
      SourceParts(source, from, start, block);
    }
  }

  lemma UniqueMatches(source: seq<Line>, from: nat, block: seq<Line>, p: nat)
    requires UniqueFrom(source, from, block, p)
    ensures from <= p && p + |block| <= |source| && source[p..p + |block|] == block
  {
  }

  lemma SourceParts(source: seq<Line>, from: nat, p: nat, block: seq<Line>)
    requires from <= p && p + |block| <= |source| && source[p..p + |block|] == block
    ensures source[from..] == source[from..p] + block + source[p + |block|..]
  {
  }

  /** The file that the store keeps after the patch, cut into lines for the next one. */
  function Stored(lines: seq<Line>): seq<Line> {
    SplitLines(Join(lines))
  }

  ghost predicate Undoes(source: seq<Line>, r: Result<seq<Line>, PatchError>) {
    r.Ok? && Join(r.value) == Join(source)
  }

  lemma SwapHasSides(edits: seq<Edit>)
    requires HasOldSides(edits) && HasNewSides(edits)
    ensures HasOldSides(SwapEdits(edits)) && HasNewSides(SwapEdits(edits))
  {
    forall k | 0 <= k < |edits|
      ensures OldSide(SwapEdits(edits)[k].changes) == NewSide(edits[k].changes)
      ensures NewSide(SwapEdits(edits)[k].changes) == OldSide(edits[k].changes)
    {
      SwapSides(edits[k].changes);
    }
  }

  lemma ApplyRendered(source: seq<Line>, edits: seq<Edit>, numbers: seq<Option<nat>>)
    requires edits != [] && |numbers| == |edits|
    ensures ApplyPatch(source, Render(edits, numbers)).Ok? ==> EditsRenderable(edits)
    ensures EditsRenderable(edits) ==>
      ApplyPatch(source, Render(edits, numbers)) == ApplyHunks(source, 0, HunksOf(edits, numbers))
  {
    hide EditsRenderable, ApplyHunks;
    var body := Render(edits, numbers);
    ParseRendered(edits, numbers);
    ApplyIsParseThenApply(source, 0, body);
    assert body[0..] == body;
  }

  /** If the swapped script undoes on the stored text, the stored lines are the target's, and so the blocks are unique. */
  lemma UndoneIsText(script: Script, backNumbers: seq<Option<nat>>)
    requires script.edits != [] && |backNumbers| == |script.edits|
    requires HasOldSides(script.edits) && HasNewSides(script.edits)
    requires IsText(SourceOf(script.edits, script.tail))
    requires UniqueInTurn(SourceOf(script.edits, script.tail), 0, script.edits)
    requires
      Undoes(SourceOf(script.edits, script.tail),
             ApplyPatch(Stored(TargetOf(script.edits, script.tail)), Render(SwapEdits(script.edits), backNumbers)))
    ensures IsText(TargetOf(script.edits, script.tail)) && EditsRenderable(SwapEdits(script.edits))
    ensures UniqueInTurn(TargetOf(script.edits, script.tail), 0, SwapEdits(script.edits))
  {
    hide UniqueInTurn, NewUniqueInTurn, EditsRenderable, ApplyHunks, ApplyPatch, SourceOf, TargetOf, Join, SplitLines;
    var edits, tail := script.edits, script.tail;
    var back, stored := SwapEdits(edits), Stored(TargetOf(edits, tail));
    SwapHasSides(edits);
    ApplyRendered(stored, back, backNumbers);
    var c, u := AppliedIsScript(stored, 0, back, backNumbers);
    assert stored[0..] == stored;
    var b := SwapEdits(c);
    SwapEnds(c, u);
    SwapTwice(c);
    SwapUnique(stored, 0, b);
    SameAsSwapped(edits, c);
    StoredIsText(TargetOf(edits, tail));
    assert CutAlike(edits, tail, b, u);
    CutAlikeIsSame(edits, tail, b, u);
  }

  lemma SameAsSwapped(edits: seq<Edit>, c: seq<Edit>)
    requires SameChanges(SwapEdits(edits), c)
    ensures SameChanges(edits, SwapEdits(c))
  {
    forall k | 0 <= k < |edits|
      ensures SwapEdits(c)[k].changes == edits[k].changes
    {
      SwapChangesTwice(edits[k].changes);
    }
  }

  lemma StoredIsText(lines: seq<Line>)
    ensures IsText(Stored(lines)) && Join(Stored(lines)) == Join(lines)
  {
    JoinSplitLines(Join(lines));
  }

  /**
   A script is applied to a file, the result is stored as a text, and the script with `+` and `-` swapped is applied to
   that text. This gives the file back exactly when the target's lines are the lines of a text - an added line without
   a line end can only be the last one -, the swapped lines can be rendered, and each new block is unique in turn.
   */
  lemma SwappedScriptUndoesIff(script: Script, numbers: seq<Option<nat>>, backNumbers: seq<Option<nat>>)
    requires script.edits != [] && |numbers| == |backNumbers| == |script.edits|
    requires HasOldSides(script.edits) && HasNewSides(script.edits)
    requires IsText(SourceOf(script.edits, script.tail))
    requires ApplyPatch(SourceOf(script.edits, script.tail), Render(script.edits, numbers)).Ok?
    ensures
      var source, target := SourceOf(script.edits, script.tail), TargetOf(script.edits, script.tail);
      var back := SwapEdits(script.edits);
      var there := ApplyPatch(source, Render(script.edits, numbers)).value;
      Undoes(source, ApplyPatch(Stored(there), Render(back, backNumbers))) <==>
        IsText(target) && EditsRenderable(back) && UniqueInTurn(target, 0, back)
  {
    hide UniqueInTurn, EditsRenderable, ApplyPatch, SourceOf, TargetOf, Join, SplitLines;
    var edits, tail := script.edits, script.tail;
    var source, target, back := SourceOf(edits, tail), TargetOf(edits, tail), SwapEdits(edits);
    RenderedScriptGivesTarget(script, [], numbers);
    assert [] + Render(edits, numbers) == Render(edits, numbers);
    if Undoes(source, ApplyPatch(Stored(target), Render(back, backNumbers))) {
      UndoneIsText(script, backNumbers);
    }
    if IsText(target) && EditsRenderable(back) && UniqueInTurn(target, 0, back) {
      SwapHasSides(edits);
      SwapEnds(edits, tail);
      RenderedScriptGivesTarget(Script(back, tail), [], backNumbers);
      assert [] + Render(back, backNumbers) == Render(back, backNumbers);
    }
  }

  /**
   A script that applies and is not undone: it adds a line without a line end that is not the last one, so that the
   stored text runs it together with the next line.
   */
  lemma UnendedLineIsNotUndone()
    ensures
      var script := Script(
        [Edit([], [Change(Context, "a\n"), Change(Removed, "b"), Change(Added, "b2"), Change(Added, "c\n")])], []);
      var source, target := SourceOf(script.edits, script.tail), TargetOf(script.edits, script.tail);
      && IsText(source) && ApplyPatch(source, Render(script.edits, [None])) == Ok(target)
      && !IsText(target)
      && !Undoes(source, ApplyPatch(Stored(target), Render(SwapEdits(script.edits), [None])))
  {
    hide ApplyPatch, Undoes, UniqueInTurn, UniqueFrom, EditsRenderable, IsText, SourceOf, TargetOf, OldSide, NewSide;
    var ca, cb, cx, cc := Change(Context, "a\n"), Change(Removed, "b"), Change(Added, "b2"), Change(Added, "c\n");
    var e := Edit([], [ca, cb, cx, cc]);
    var script := Script([e], []);
    Sides(ca, cb, cx, cc);
    OneEdit(e);
    var source, target := SourceOf(script.edits, script.tail), TargetOf(script.edits, script.tail);
    assert source == ["a\n", "b"] && target == ["a\n", "b2", "c\n"];
    SourceIsText();
    TargetIsNoText();
    RenderedScriptGivesTarget(script, [], [None]);
    assert [] + Render(script.edits, [None]) == Render(script.edits, [None]);
    WholeBlock(e);
    AllRendered(ca, cb, cx, cc);
    SwappedScriptUndoesIff(script, [None], [None]);
  }

  lemma AllRendered(ca: Change, cb: Change, cx: Change, cc: Change)
    requires Renderable(ca) && Renderable(cb) && Renderable(cx) && Renderable(cc)
    ensures EditsRenderable([Edit([], [ca, cb, cx, cc])])
  {
  }

  lemma WholeBlock(e: Edit)
    requires e.gap == [] && OldSide(e.changes) != []
    ensures UniqueInTurn(OldSide(e.changes), 0, [e])
  {
    WholeFile(OldSide(e.changes));
    assert [e][1..] == [];
  }

  lemma OneEdit(e: Edit)
    ensures SourceOf([e], []) == e.gap + OldSide(e.changes) && TargetOf([e], []) == e.gap + NewSide(e.changes)
  {
    assert [e][1..] == [];
  }

  lemma FirstSide(c: Change, rest: seq<Change>)
    ensures OldSide([c] + rest) == (if c.kind != Added then [c.text] else []) + OldSide(rest)
    ensures NewSide([c] + rest) == (if c.kind != Removed then [c.text] else []) + NewSide(rest)
  {
    assert ([c] + rest)[1..] == rest;
  }

  lemma Sides(ca: Change, cb: Change, cx: Change, cc: Change)
    requires ca.kind == Context && cb.kind == Removed && cx.kind == Added && cc.kind == Added
    ensures OldSide([ca, cb, cx, cc]) == [ca.text, cb.text]
    ensures NewSide([ca, cb, cx, cc]) == [ca.text, cx.text, cc.text]
  {
    hide OldSide, NewSide;
    FirstSide(cc, []);
    FirstSide(cx, [cc]);
    FirstSide(cb, [cx, cc]);
    FirstSide(ca, [cb, cx, cc]);
    NoSides();
    assert [cc] + [] == [cc] && [cx] + [cc] == [cx, cc] && [cb] + [cx, cc] == [cb, cx, cc];
    assert [ca] + [cb, cx, cc] == [ca, cb, cx, cc];
  }

  lemma NoSides()
    ensures OldSide([]) == [] && NewSide([]) == []
  {
  }

  lemma WholeFile(lines: seq<Line>)
    requires lines != []
    ensures UniqueFrom(lines, 0, lines, 0)
  {
    assert lines[0..|lines|] == lines;
  }

  lemma SourceIsText()
    ensures IsText(["a\n", "b"])
  {
    var x := "a\nb";
    assert ["a\n", "b"][1..] == ["b"] && ["b"][1..] == [];
    assert Join(["a\n", "b"]) == "a\n" + ("b" + "") == x;
    assert x[1..] == "\nb" && LineSize(x[1..]) == 1 && LineSize(x) == 2;
    assert x[..2] == "a\n" && x[2..] == "b";
    assert "b"[..1] == "b" && "b"[1..] == "";
  }

  lemma RunTogether(a: seq<Line>, b: seq<Line>)
    ensures !Cut(Join(a), Join(b)) ==> !IsText(a + b)
  {
    if IsText(a + b) {
      SplitCut(a, b);
    }
  }

  lemma TargetIsNoText()
    ensures !IsText(["a\n", "b2", "c\n"])
  {
    var a, b := ["a\n", "b2"], ["c\n"];
    assert a + b == ["a\n", "b2", "c\n"] && a[1..] == ["b2"] && a[1..][1..] == [] && b[1..] == [];
    assert Join(a) == "a\n" + ("b2" + "") == "a\nb2" && Join(b) == "c\n" + "" == "c\n";
    RunTogether(a, b);
  }
}
