/**
 The batched differ of msg.cc: which parts of the scripts of successive batches it keeps, that it
 terminates, and that what it keeps is a script of the whole.
 */
module Batches {
  import opened EditGraph
  import opened Scripts
  import opened Search
  import opened Backtrace

  type Line = string

  type MsgDiff = seq<Diff<Line>>

  predicate SameLine(a: Line, b: Line) {
    a == b
  }

  function Lines(expected: seq<Line>, got: seq<Line>): Problem<Line> {
    Problem(expected, got, SameLine)
  }

  function Min(a: nat, b: nat): nat {
    if b < a then b else a
  }

  // One batch, and with it every later one, is of a size that myers_diff supports.
  predicate InRange(expected: seq<Line>, got: seq<Line>, limit: nat) {
    Min(limit, |expected|) + Min(limit, |got|) <= MAX_TOTAL
  }

  // The batched differ comes to an end: batches are at least of a size that can be searched, and the
  // limit lets them consume something; see BatchMakesProgress.
  predicate Ends(expected: seq<Line>, got: seq<Line>, limit: nat) {
    && Min(limit, |expected|) + Min(limit, |got|) <= 0x7ffe
    && (limit > 0 || (expected == [] && got == []))
  }

  predicate FitsInOneBatch(expected: seq<Line>, got: seq<Line>, limit: nat) {
    |expected| <= limit && |got| <= limit
  }

  // The position after the last EQ entry, or 0.
  ghost function AfterLastEQ(s: MsgDiff): (i: nat)
    ensures i <= |s|
  {
    if s == [] then 0
    else if s[|s| - 1].action == EQ then |s|
    else AfterLastEQ(s[..|s| - 1])
  }

  // How much of a batch's script is kept: up to its last EQ, or all of it if it has none.
  ghost function DiffEnd(s: MsgDiff): (i: nat)
    ensures i <= |s|
  {
    if AfterLastEQ(s) == 0 then |s| else AfterLastEQ(s)
  }

  // n is the length of the longest prefix of s that ends in an EQ entry, or all of s if it has none.
  ghost predicate EndsAtLastEQ(s: MsgDiff, n: int) {
    if forall i :: 0 <= i < |s| ==> s[i].action != EQ then n == |s|
    else 0 < n <= |s| && s[n - 1].action == EQ && forall i :: n <= i < |s| ==> s[i].action != EQ
  }

  lemma {:induction false} AfterLastEQMeans(s: MsgDiff)
    ensures AfterLastEQ(s) == 0 <==> forall i :: 0 <= i < |s| ==> s[i].action != EQ
    ensures AfterLastEQ(s) > 0 ==> s[AfterLastEQ(s) - 1].action == EQ
    ensures forall i :: AfterLastEQ(s) <= i < |s| ==> s[i].action != EQ
    decreases |s|
  {
    if s == [] {
    } else {
      AfterLastEQMeans(s[..|s| - 1]);
    }
  }

  // So batches are cut back to their last EQ entry, and nowhere else.
  lemma CutsAtLastEQ(s: MsgDiff, n: int)
    ensures EndsAtLastEQ(s, n) <==> n == DiffEnd(s)
  {
    hide AfterLastEQ;
    AfterLastEQMeans(s);
  }

  ghost function Batch(expected: seq<Line>, got: seq<Line>, limit: nat): Problem<Line> {
    Lines(expected[..Min(limit, |expected|)], got[..Min(limit, |got|)])
  }

  // What is kept of the first batch.
  ghost function FirstSegment(expected: seq<Line>, got: seq<Line>, limit: nat): MsgDiff {
    var s := Returned(Batch(expected, got, limit));
    s[..DiffEnd(s)]
  }

  // How much of the inputs is done with after the first batch: what the kept entries consume if there
  // is an EQ entry, and else the whole batch.
  ghost function Consumed(expected: seq<Line>, got: seq<Line>, limit: nat): (nat, nat) {
    var s := Returned(Batch(expected, got, limit));
    if AfterLastEQ(s) == 0 then (Min(limit, |expected|), Min(limit, |got|))
    else (OrigCount(s[..DiffEnd(s)]), UpdatedCount(s[..DiffEnd(s)]))
  }

  // s is a cheapest script for the slices of the two inputs that it consumes, which are at their
  // starts, and is numbered from there.
  ghost predicate CheapestSegment(expected: seq<Line>, got: seq<Line>, s: MsgDiff) {
    var e, g := OrigCount(s), UpdatedCount(s);
    && e <= |expected| && g <= |got|
    && IsScript(Lines(expected[..e], got[..g]), s) && Numbered(s)
    && Edits(s) == e + g - 2 * Lcs(Lines(expected[..e], got[..g]), e, g)
  }

  lemma WholeIsSegment(expected: seq<Line>, got: seq<Line>)
    requires Supported(Lines(expected, got))
    ensures CheapestSegment(expected, got, MyersScript(Lines(expected, got)))
    ensures OrigCount(MyersScript(Lines(expected, got))) == |expected|
    ensures UpdatedCount(MyersScript(Lines(expected, got))) == |got|
  {
    hide MyersScript;
    var p := Lines(expected, got);
    MyersScriptIsOptimal(p);
    FitsNeeds(p, MyersScript(p), p.N(), p.M());
    assert expected[..|expected|] == expected && got[..|got|] == got;
  }

  // What is kept of a batch is a cheapest segment, as a prefix of a cheapest script is cheapest, and the
  // inputs go on where it ends.
  lemma SegmentFits(expected: seq<Line>, got: seq<Line>, limit: nat)
    requires InRange(expected, got, limit)
    ensures var s := FirstSegment(expected, got, limit);
            && CheapestSegment(expected, got, s)
            && Consumed(expected, got, limit) == (OrigCount(s), UpdatedCount(s))
  {
    hide MyersScript, Fits, Numbered, Edits, OrigCount, UpdatedCount;
    var p, q := Lines(expected, got), Batch(expected, got, limit);
    var script := MyersScript(q);
    MyersScriptIsOptimal(q);
    FitsNeeds(q, script, q.N(), q.M());
    assert script[..|script|] == script;
    var i := DiffEnd(script);
    var s := script[..i];
    PrefixFits(q, script, q.N(), q.M(), i);
    PrefixCheapest(q, script, q.N(), q.M(), i);
    NumberedPrefix(script, i);
    SliceFits(p, q, s, OrigCount(s), UpdatedCount(s));
  }

  // A script that is cheapest in a batch is cheapest for the slices that it consumes.
  lemma SliceFits(p: Problem<Line>, q: Problem<Line>, s: MsgDiff, e: nat, g: nat)
    requires q.orig <= p.orig && q.updated <= p.updated && q.comparator == p.comparator == SameLine
    requires e <= q.N() && g <= q.M() && Fits(q, s, e, g) && Edits(s) == Dist(q, e, g)
    ensures var slice := Lines(p.orig[..e], p.updated[..g]);
            Fits(slice, s, e, g) && Edits(s) == e + g - 2 * Lcs(slice, e, g)
  {
    var slice := Lines(p.orig[..e], p.updated[..g]);
    FitsInPrefix(q, slice, s, e, g);
    LcsInPrefix(q, slice, e, g);
  }

  lemma {:induction false} CountsOfPrefix<T>(s: seq<Diff<T>>, i: nat)
    requires i <= |s|
    ensures OrigCount(s[..i]) <= OrigCount(s) && UpdatedCount(s[..i]) <= UpdatedCount(s)
    ensures OrigCount(s[..i]) <= i && UpdatedCount(s[..i]) <= i <= OrigCount(s[..i]) + UpdatedCount(s[..i])
    decreases |s|
  {
    if i == |s| {
      assert s[..i] == s;
      if i > 0 {
        CountsOfPrefix(s[..i - 1], i - 1);
        assert s[..i - 1][..i - 1] == s[..i - 1];
      }
    } else {
      assert s[..|s| - 1][..i] == s[..i];
      CountsOfPrefix(s[..|s| - 1], i);
    }
  }

  lemma {:induction false} AfterLastEQCounts(s: MsgDiff)
    requires AfterLastEQ(s) > 0
    ensures OrigCount(s[..AfterLastEQ(s)]) > 0 && UpdatedCount(s[..AfterLastEQ(s)]) > 0
    decreases |s|
  {
    var init := s[..|s| - 1];
    if s[|s| - 1].action == EQ {
      assert s[..|s|] == s;
    } else {
      AfterLastEQCounts(init);
      assert init[..AfterLastEQ(init)] == s[..AfterLastEQ(init)];
    }
  }

  // If the input does not fit in one batch, the first batch consumes something of it exactly when the
  // limit is not 0: a limit of 0 would recur on the same input for ever.
  lemma BatchMakesProgress(expected: seq<Line>, got: seq<Line>, limit: nat)
    requires !FitsInOneBatch(expected, got, limit)
    ensures var (e, g) := Consumed(expected, got, limit);
            && e <= Min(limit, |expected|) && g <= Min(limit, |got|)
            && (e + g > 0 <==> limit > 0)
  {
    hide MyersScript, OrigCount, UpdatedCount, Fits, Numbered, Edits;
    var q := Batch(expected, got, limit);
    var s := Returned(q);
    if AfterLastEQ(s) > 0 {
      MyersScriptIsOptimal(q);
      FitsNeeds(q, s, q.N(), q.M());
      CountsOfPrefix(s, DiffEnd(s));
      AfterLastEQCounts(s);
    }
  }

  // What safe_diff_msg_helper appends, batch by batch.
  ghost function Segments(expected: seq<Line>, got: seq<Line>, limit: nat): seq<MsgDiff>
    requires Ends(expected, got, limit)
    decreases |expected| + |got|
  {
    if FitsInOneBatch(expected, got, limit) then [Returned(Lines(expected, got))]
    else
      BatchMakesProgress(expected, got, limit);
      var (e, g) := Consumed(expected, got, limit);
      [FirstSegment(expected, got, limit)] + Segments(expected[e..], got[g..], limit)
  }

  ghost function Concat(segments: seq<MsgDiff>): MsgDiff {
    if segments == [] then [] else segments[0] + Concat(segments[1..])
  }

  ghost function BatchedScript(expected: seq<Line>, got: seq<Line>, limit: nat): MsgDiff
    requires Ends(expected, got, limit)
  {
    Concat(Segments(expected, got, limit))
  }

  lemma OneSegment(expected: seq<Line>, got: seq<Line>, limit: nat)
    requires Ends(expected, got, limit) && FitsInOneBatch(expected, got, limit)
    ensures BatchedScript(expected, got, limit) == Returned(Lines(expected, got))
  {
    hide Returned;
    var s := Returned(Lines(expected, got));
    assert Concat([s]) == s + [];
  }

  lemma NextSegment(expected: seq<Line>, got: seq<Line>, limit: nat)
    requires Ends(expected, got, limit) && !FitsInOneBatch(expected, got, limit)
    ensures var (e, g) := Consumed(expected, got, limit);
            && e <= Min(limit, |expected|) && g <= Min(limit, |got|) && e + g > 0
            && BatchedScript(expected, got, limit) ==
               FirstSegment(expected, got, limit) + BatchedScript(expected[e..], got[g..], limit)
  {
    hide Returned, FirstSegment, Consumed;
    BatchMakesProgress(expected, got, limit);
    var (e, g) := Consumed(expected, got, limit);
    var s := FirstSegment(expected, got, limit);
    var rest := Segments(expected[e..], got[g..], limit);
    assert ([s] + rest)[1..] == rest;
  }

  /* -------- where the batches are cut -------- */

  // Of every batch but the last, which is kept whole, a segment is the part of the script up to its last
  // EQ entry, or all of it without one.  The next batch begins where the segment ends; if nothing was
  // kept, the batch is passed over.
  ghost predicate CutSegments(expected: seq<Line>, got: seq<Line>, limit: nat, segments: seq<MsgDiff>)
    decreases |segments|
  {
    if FitsInOneBatch(expected, got, limit) then segments == [Returned(Lines(expected, got))]
    else
      segments != [] &&
      var n, m := Min(limit, |expected|), Min(limit, |got|);
      var s, script := segments[0], Returned(Lines(expected[..n], got[..m]));
      var (e, g) := if s == [] then (n, m) else (OrigCount(s), UpdatedCount(s));
      && s <= script && EndsAtLastEQ(script, |s|)
      && e <= |expected| && g <= |got| && CutSegments(expected[e..], got[g..], limit, segments[1..])
  }

  lemma FirstCut(expected: seq<Line>, got: seq<Line>, limit: nat, s: MsgDiff)
    ensures s <= Returned(Batch(expected, got, limit)) && EndsAtLastEQ(Returned(Batch(expected, got, limit)), |s|)
            <==> s == FirstSegment(expected, got, limit)
    ensures Consumed(expected, got, limit) ==
            var s := FirstSegment(expected, got, limit);
            if s == [] then (Min(limit, |expected|), Min(limit, |got|)) else (OrigCount(s), UpdatedCount(s))
  {
    hide MyersScript, Fits, Numbered, EndsAtLastEQ;
    var q := Batch(expected, got, limit);
    var script := Returned(q);
    CutsAtLastEQ(script, |s|);
    if Supported(q) {
      MyersScriptIsOptimal(q);
      FitsNeeds(q, script, q.N(), q.M());
      assert script[..|script|] == script;
    }
  }

  // That describes the segments completely.
  lemma {:induction false} SegmentsAreCut
    (expected: seq<Line>, got: seq<Line>, limit: nat, segments: seq<MsgDiff>)
    requires Ends(expected, got, limit)
    ensures CutSegments(expected, got, limit, segments) <==> segments == Segments(expected, got, limit)
    decreases |expected| + |got|
  {
    hide MyersScript, Returned, FirstSegment, Consumed, EndsAtLastEQ, OrigCount, UpdatedCount;
    if FitsInOneBatch(expected, got, limit) {
    } else {
      BatchMakesProgress(expected, got, limit);
      FirstCut(expected, got, limit, if segments == [] then [] else segments[0]);
      var s := FirstSegment(expected, got, limit);
      var (e, g) := Consumed(expected, got, limit);
      var rest := Segments(expected[e..], got[g..], limit);
      assert Segments(expected, got, limit) == [s] + rest;
      if segments != [] {
        SegmentsAreCut(expected[e..], got[g..], limit, segments[1..]);
        assert segments == [segments[0]] + segments[1..];
      }
    }
  }

  /* -------- what is kept is a script of the whole -------- */

  // Each segment is a cheapest script for the slices that it consumes, and these follow each other
  // to the end of the inputs.
  ghost predicate OptimalSegments(expected: seq<Line>, got: seq<Line>, segments: seq<MsgDiff>)
    decreases |segments|
  {
    if segments == [] then expected == [] && got == []
    else
      var s := segments[0];
      CheapestSegment(expected, got, s)
      && OptimalSegments(expected[OrigCount(s)..], got[UpdatedCount(s)..], segments[1..])
  }

  lemma PrependSegment(expected: seq<Line>, got: seq<Line>, s: MsgDiff, rest: seq<MsgDiff>)
    requires CheapestSegment(expected, got, s)
    requires OptimalSegments(expected[OrigCount(s)..], got[UpdatedCount(s)..], rest)
    ensures OptimalSegments(expected, got, [s] + rest)
  {
    assert ([s] + rest)[1..] == rest;
  }

  lemma {:induction false} SegmentsAreOptimal(expected: seq<Line>, got: seq<Line>, limit: nat)
    requires InRange(expected, got, limit) && Ends(expected, got, limit)
    ensures OptimalSegments(expected, got, Segments(expected, got, limit))
    decreases |expected| + |got|
  {
    hide MyersScript, FirstSegment, Consumed, CheapestSegment;
    if FitsInOneBatch(expected, got, limit) {
      WholeIsSegment(expected, got);
      PrependSegment(expected, got, MyersScript(Lines(expected, got)), []);
    } else {
      SegmentFits(expected, got, limit);
      BatchMakesProgress(expected, got, limit);
      var s := FirstSegment(expected, got, limit);
      var expected', got' := expected[OrigCount(s)..], got[UpdatedCount(s)..];
      SegmentsAreOptimal(expected', got', limit);
      PrependSegment(expected, got, s, Segments(expected', got', limit));
    }
  }

  // Segments in a row, whatever their size, make a script of the whole.
  lemma {:induction false} SegmentsFit(expected: seq<Line>, got: seq<Line>, segments: seq<MsgDiff>)
    requires OptimalSegments(expected, got, segments)
    ensures IsScript(Lines(expected, got), Concat(segments))
    decreases |segments|
  {
    if segments == [] {
    } else {
      hide Fits, Edits, Numbered, Lcs;
      var s := segments[0];
      var e, g := OrigCount(s), UpdatedCount(s);
      var p, rest := Lines(expected, got), Lines(expected[e..], got[g..]);
      SegmentsFit(expected[e..], got[g..], segments[1..]);
      FitsInPrefix(p, Lines(expected[..e], got[..g]), s, e, g);
      Concatenate(p, s, e, g, rest, Concat(segments[1..]), rest.N(), rest.M());
    }
  }

  // For every limit in range the batched script is a complete edit script, never cheaper than the
  // cheapest, and as cheap if one batch takes it all.
  lemma BatchedIsScript(expected: seq<Line>, got: seq<Line>, limit: nat)
    requires InRange(expected, got, limit) && Ends(expected, got, limit)
    ensures IsScript(Lines(expected, got), BatchedScript(expected, got, limit))
    ensures Edits(BatchedScript(expected, got, limit)) >=
            |expected| + |got| - 2 * Lcs(Lines(expected, got), |expected|, |got|)
    ensures FitsInOneBatch(expected, got, limit) ==>
              Edits(BatchedScript(expected, got, limit)) ==
              |expected| + |got| - 2 * Lcs(Lines(expected, got), |expected|, |got|)
    ensures |BatchedScript(expected, got, limit)| <= |expected| + |got|
  {
    hide MyersScript, FirstSegment, Segments, OptimalSegments;
    SegmentsAreOptimal(expected, got, limit);
    SegmentsFit(expected, got, Segments(expected, got, limit));
    var p := Lines(expected, got);
    FitsNeeds(p, BatchedScript(expected, got, limit), p.N(), p.M());
    if FitsInOneBatch(expected, got, limit) {
      MyersScriptIsOptimal(p);
      OneSegment(expected, got, limit);
    }
  }

  lemma BatchIsSkipped(expected: seq<Line>, got: seq<Line>, limit: nat)
    requires !InRange(expected, got, limit)
    ensures FirstSegment(expected, got, limit) == []
    ensures Consumed(expected, got, limit) == (Min(limit, |expected|), Min(limit, |got|))
  {
  }

  // Whatever the sizes, the entries take no more than there is, and what a batch that is not supported
  // skips is missing.
  lemma {:induction false} BatchedCounts(expected: seq<Line>, got: seq<Line>, limit: nat)
    requires Ends(expected, got, limit)
    ensures var s := BatchedScript(expected, got, limit);
            && OrigCount(s) <= |expected| && UpdatedCount(s) <= |got|
            && (!InRange(expected, got, limit) ==> OrigCount(s) + UpdatedCount(s) < |expected| + |got|)
    decreases |expected| + |got|
  {
    hide MyersScript, Segments, BatchedScript;
    if InRange(expected, got, limit) {
      BatchedIsScript(expected, got, limit);
      FitsNeeds(Lines(expected, got), BatchedScript(expected, got, limit), |expected|, |got|);
    } else if FitsInOneBatch(expected, got, limit) {
      OneSegment(expected, got, limit);
    } else {
      NextSegment(expected, got, limit);
      BatchIsSkipped(expected, got, limit);
      hide FirstSegment, Consumed, Returned;
      var expected', got' := expected[Min(limit, |expected|)..], got[Min(limit, |got|)..];
      assert BatchedScript(expected, got, limit) == BatchedScript(expected', got', limit);
      BatchedCounts(expected', got', limit);
    }
  }

  // The batched differ returns a script of its inputs if and only if the first batch is of a size that
  // myers_diff supports.
  lemma BatchedIsScriptIff(expected: seq<Line>, got: seq<Line>, limit: nat)
    requires Ends(expected, got, limit)
    ensures IsScript(Lines(expected, got), BatchedScript(expected, got, limit)) <==>
            InRange(expected, got, limit)
  {
    hide BatchedScript;
    var s := BatchedScript(expected, got, limit);
    BatchedCounts(expected, got, limit);
    if InRange(expected, got, limit) {
      BatchedIsScript(expected, got, limit);
    } else if IsScript(Lines(expected, got), s) {
      FitsNeeds(Lines(expected, got), s, |expected|, |got|);
    }
  }

  // So limits up to 8191 are good for inputs of any length, and no others are: with the default limit,
  // 32767, two inputs of 8192 lines already are too much.
  lemma LimitsThatWork(limit: nat)
    requires limit > 0
    ensures (forall expected: seq<Line>, got: seq<Line> :: Ends(expected, got, limit) ==>
              IsScript(Lines(expected, got), BatchedScript(expected, got, limit))) <==> limit <= 8191
  {
    hide BatchedScript, IsScript;
    forall expected: seq<Line>, got: seq<Line> | Ends(expected, got, limit)
      ensures IsScript(Lines(expected, got), BatchedScript(expected, got, limit)) <==>
              InRange(expected, got, limit)
    {
      BatchedIsScriptIff(expected, got, limit);
    }
    if limit > 8191 {
      var lines := seq(8192, _ => "");
      assert Ends(lines, lines, limit) && !InRange(lines, lines, limit);
    }
  }

  /* -------- the method -------- */

  // The vector that the helper appends to by reference.
  class DiffSink {
    var entries: MsgDiff

    constructor ()
      ensures entries == []
    {
      entries := [];
    }
  }

  // The entry after a prefix that ends in an EQ is where both inputs go on.
  lemma AfterEQ<T>(s: seq<Diff<T>>, i: nat)
    requires Numbered(s) && i < |s| && s[i].action == EQ
    ensures s[i].orig + 1 == OrigCount(s[..i + 1]) && s[i].updated + 1 == UpdatedCount(s[..i + 1])
  {
    NumberedAt(s, i);
    assert s[..i + 1][..i] == s[..i];
  }

  // The loops of the helper that push back the first n entries of a script.
  method PushBack(diffs: DiffSink, mdiffs: MsgDiff, n: nat)
    requires n <= |mdiffs|
    modifies diffs
    ensures diffs.entries == old(diffs.entries) + mdiffs[..n]
  {
    for i := 0 to n
      invariant diffs.entries == old(diffs.entries) + mdiffs[..i]
    {
      diffs.entries := diffs.entries + [mdiffs[i]];
    }
  }

  // The loop of the helper that looks for the last EQ entry, and for where the inputs go on after it.
  method FindBatchEnd(mdiffs: MsgDiff, nexpected: IndexT, ngot: IndexT)
    returns (diffEnd: IndexT, eoffset: IndexT, goffset: IndexT)
    requires Numbered(mdiffs) && |mdiffs| < 0x8000
    ensures EndsAtLastEQ(mdiffs, diffEnd) && diffEnd == DiffEnd(mdiffs)
    ensures if forall i :: 0 <= i < |mdiffs| ==> mdiffs[i].action != EQ then eoffset == nexpected && goffset == ngot
            else eoffset == OrigCount(mdiffs[..diffEnd]) && goffset == UpdatedCount(mdiffs[..diffEnd])
    ensures if AfterLastEQ(mdiffs) == 0 then eoffset == nexpected && goffset == ngot
            else eoffset == OrigCount(mdiffs[..diffEnd]) && goffset == UpdatedCount(mdiffs[..diffEnd])
  {
    diffEnd := |mdiffs|;
    eoffset := nexpected;
    goffset := ngot;
    var n: IndexT := |mdiffs|;
    for i := 0 to n
      invariant diffEnd == if AfterLastEQ(mdiffs[..i]) == 0 then |mdiffs| else AfterLastEQ(mdiffs[..i])
      invariant if AfterLastEQ(mdiffs[..i]) == 0 then eoffset == nexpected && goffset == ngot
                else eoffset == OrigCount(mdiffs[..diffEnd]) && goffset == UpdatedCount(mdiffs[..diffEnd])
    {
      assert mdiffs[..i + 1][..i] == mdiffs[..i];
      if mdiffs[i].action == EQ {
        AfterEQ(mdiffs, i);
        CountsOfPrefix(mdiffs, i + 1);
        diffEnd := i + 1;
        eoffset := mdiffs[i].orig + 1;
        goffset := mdiffs[i].updated + 1;
      }
    }
    assert mdiffs[..|mdiffs|] == mdiffs;
    AfterLastEQMeans(mdiffs);
    CutsAtLastEQ(mdiffs, diffEnd);
  }

  // The part of the helper that diffs one batch and keeps what it can.
  method KeepBatch(diffs: DiffSink, expected: seq<Line>, got: seq<Line>, batchLimit: nat)
    returns (eoffset: IndexT, goffset: IndexT)
    requires Ends(expected, got, batchLimit)
    modifies diffs
    ensures diffs.entries == old(diffs.entries) + FirstSegment(expected, got, batchLimit)
    ensures (eoffset, goffset) == Consumed(expected, got, batchLimit)
  {
    hide MyersScript, DiffEnd, Numbered, Fits;
    var exbatch := expected[..Min(batchLimit, |expected|)];
    var gobatch := got[..Min(batchLimit, |got|)];
    var p := Lines(exbatch, gobatch);
    SearchableIff(p);
    var mdiffs := MyersDiff(p);
    BatchSize(p);

    var diffEnd: IndexT;
    diffEnd, eoffset, goffset :=
      FindBatchEnd(mdiffs, Min(batchLimit, |expected|), Min(batchLimit, |got|));
    PushBack(diffs, mdiffs, diffEnd);
  }

  lemma BatchSize(p: Problem<Line>)
    ensures Numbered(Returned(p)) && |Returned(p)| <= p.N() + p.M()
  {
    hide MyersScript;
    if Supported(p) {
      MyersScriptIsOptimal(p);
      FitsNeeds(p, Returned(p), p.N(), p.M());
    }
  }

  // safe_diff_msg_helper.
  method SafeDiffMsgHelper(diffs: DiffSink, expected: seq<Line>, got: seq<Line>, batchLimit: nat)
    requires Ends(expected, got, batchLimit)
    modifies diffs
    ensures diffs.entries == old(diffs.entries) + BatchedScript(expected, got, batchLimit)
    decreases |expected| + |got|
  {
    hide Returned, FirstSegment, BatchedScript, Consumed;
    if |expected| <= batchLimit && |got| <= batchLimit {
      SearchableIff(Lines(expected, got));
      var mdiffs := MyersDiff(Lines(expected, got));
      OneSegment(expected, got, batchLimit);
      PushBack(diffs, mdiffs, |mdiffs|);
      assert mdiffs[..|mdiffs|] == mdiffs;
      return;
    }
    NextSegment(expected, got, batchLimit);
    var eoffset, goffset := KeepBatch(diffs, expected, got, batchLimit);
    SafeDiffMsgHelper(diffs, expected[eoffset..], got[goffset..], batchLimit);
  }
}
