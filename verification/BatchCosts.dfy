/**
 What diffing in batches costs: when the batched script is a cheapest one.
 */
module BatchCosts {
  import opened EditGraph
  import opened Scripts
  import opened Search
  import opened Backtrace
  import opened Batches

  ghost function Cheapest(expected: seq<Line>, got: seq<Line>): int {
    Corner(Lines(expected, got))
  }

  // Cutting the inputs anywhere never makes them cheaper to convert.
  lemma CutCosts(expected: seq<Line>, got: seq<Line>, e: nat, g: nat)
    requires e <= |expected| && g <= |got|
    ensures Cheapest(expected, got) <=
            Cheapest(expected[..e], got[..g]) + Cheapest(expected[e..], got[g..])
  {
    var p, slice, rest := Lines(expected, got), Lines(expected[..e], got[..g]), Lines(expected[e..], got[g..]);
    var s := BestScript(slice, e, g);
    var t := BestScript(rest, rest.N(), rest.M());
    FitsInPrefix(p, slice, s, e, g);
    Concatenate(p, s, e, g, rest, t, rest.N(), rest.M());
    FitsNeeds(p, s + t, p.N(), p.M());
  }

  // Every cut between segments is where some cheapest script of what is left passes.
  ghost predicate CutsAreFree(expected: seq<Line>, got: seq<Line>, segments: seq<MsgDiff>)
    requires OptimalSegments(expected, got, segments)
    decreases |segments|
  {
    segments != [] ==>
      var e, g := OrigCount(segments[0]), UpdatedCount(segments[0]);
      && Cheapest(expected, got) == Cheapest(expected[..e], got[..g]) + Cheapest(expected[e..], got[g..])
      && CutsAreFree(expected[e..], got[g..], segments[1..])
  }

  // The batched script is as cheap as the cheapest one if and only if every cut is free.
  lemma {:induction false} BatchedIsCheapestIff(expected: seq<Line>, got: seq<Line>, segments: seq<MsgDiff>)
    requires OptimalSegments(expected, got, segments)
    ensures Edits(Concat(segments)) >= Cheapest(expected, got)
    ensures Edits(Concat(segments)) == Cheapest(expected, got) <==> CutsAreFree(expected, got, segments)
    decreases |segments|
  {
    if segments == [] {
    } else {
      var s := segments[0];
      var e, g := OrigCount(s), UpdatedCount(s);
      BatchedIsCheapestIff(expected[e..], got[g..], segments[1..]);
      CutCosts(expected, got, e, g);
      CountsOfConcat(s, Concat(segments[1..]));
    }
  }

  // So it is never cheaper than the cheapest, and as cheap exactly if its own cuts are free.
  lemma BatchedCosts(expected: seq<Line>, got: seq<Line>, limit: nat)
    requires InRange(expected, got, limit) && Ends(expected, got, limit)
    ensures OptimalSegments(expected, got, Segments(expected, got, limit))
    ensures Edits(BatchedScript(expected, got, limit)) >= Cheapest(expected, got)
    ensures Edits(BatchedScript(expected, got, limit)) == Cheapest(expected, got) <==>
            CutsAreFree(expected, got, Segments(expected, got, limit))
  {
    hide Segments, CutsAreFree, OptimalSegments;
    SegmentsAreOptimal(expected, got, limit);
    BatchedIsCheapestIff(expected, got, Segments(expected, got, limit));
  }

  /* -------- the sizes for which batching costs nothing -------- */

  // Batching is as good as diffing at once for all inputs of these sizes.
  ghost predicate NeverCostsMore(n: nat, m: nat, limit: nat)
    requires limit > 0 && Min(limit, n) + Min(limit, m) <= MAX_TOTAL
  {
    forall expected: seq<Line>, got: seq<Line> :: |expected| == n && |got| == m ==>
      Edits(BatchedScript(expected, got, limit)) == Cheapest(expected, got)
  }

  // Where neither the first batch nor what follows it has lines in common, all lines are edited.
  lemma CommonLinesMissed(expected: seq<Line>, got: seq<Line>, limit: nat)
    requires limit > 0 && InRange(expected, got, limit) && !FitsInOneBatch(expected, got, limit)
    requires NothingMatches(Batch(expected, got, limit))
    requires NothingMatches(Lines(expected[Min(limit, |expected|)..], got[Min(limit, |got|)..]))
    ensures Edits(BatchedScript(expected, got, limit)) == |expected| + |got|
  {
    hide MyersScript, BatchedScript, Fits, Edits, NothingMatches;
    var q := Batch(expected, got, limit);
    var script := MyersScript(q);
    MyersScriptIsOptimal(q);
    ScriptOfNoMatch(q, script, q.N(), q.M());
    NoEQ(script);
    assert script[..|script|] == script;
    NextSegment(expected, got, limit);
    var expected', got' := expected[Min(limit, |expected|)..], got[Min(limit, |got|)..];
    BatchedIsScript(expected', got', limit);
    ScriptOfNoMatch(Lines(expected', got'), BatchedScript(expected', got', limit), |expected'|, |got'|);
    CountsOfConcat(script, BatchedScript(expected', got', limit));
  }

  lemma {:induction false} NoEQ(s: MsgDiff)
    requires forall i :: 0 <= i < |s| ==> s[i].action != EQ
    ensures AfterLastEQ(s) == 0
    decreases |s|
  {
    if s == [] {
    } else {
      NoEQ(s[..|s| - 1]);
    }
  }

  lemma OneMatchSaves<T>(p: Problem<T>, x: nat, y: nat)
    requires p.Match(x, y)
    ensures Corner(p) <= p.N() + p.M() - 2
  {
    LcsAtMostCorner(p, x + 1, y + 1);
  }

  // count copies of one line, and then the rest up to n lines copies of another.
  function Blocks(count: nat, first: Line, n: nat, second: Line): (lines: seq<Line>)
    requires count <= n
    ensures |lines| == n
  {
    seq(n, i => if i < count then first else second)
  }

  // Inputs that batching diffs worst: one is longer than a batch and has lines in common with the
  // first batch of the other only after its own first batch.
  lemma CostsMore(n: nat, m: nat, limit: nat) returns (expected: seq<Line>, got: seq<Line>)
    requires limit > 0 && Min(limit, n) + Min(limit, m) <= MAX_TOTAL
    requires n > 0 && m > 0 && (n > limit || m > limit)
    ensures |expected| == n && |got| == m
    ensures Cheapest(expected, got) <= n + m - 2 < n + m == Edits(BatchedScript(expected, got, limit))
  {
    hide BatchedScript, Corner;
    if n > limit {
      expected, got := Blocks(limit, "a", n, "b"), Blocks(Min(limit, m), "b", m, "c");
      OneMatchSaves(Lines(expected, got), limit, 0);
    } else {
      expected, got := Blocks(Min(limit, n), "b", n, "c"), Blocks(limit, "a", m, "b");
      OneMatchSaves(Lines(expected, got), 0, limit);
    }
    CommonLinesMissed(expected, got, limit);
  }

  // With limit 1, taking away the first of two different lines costs three edits instead of one.
  lemma BatchingCanCostMore(a: Line, b: Line)
    requires a != b
    ensures Cheapest([a, b], [b]) == 1 && Edits(BatchedScript([a, b], [b], 1)) == 3
  {
    hide BatchedScript, Dist;
    var expected, got := [a, b], [b];
    var p := Lines(expected, got);
    assert expected[..1] == [a] && expected[1..] == [b] && got[..1] == [b] && got[1..] == [];
    CommonLinesMissed(expected, got, 1);
    OneMatchSaves(p, 1, 0);
    DistBounds(p, p.N(), p.M());
  }

  // On an empty side there is nothing to miss.
  lemma EmptySideCostsNoMore(expected: seq<Line>, got: seq<Line>, limit: nat)
    requires limit > 0 && InRange(expected, got, limit) && (expected == [] || got == [])
    ensures Edits(BatchedScript(expected, got, limit)) == Cheapest(expected, got)
  {
    hide BatchedScript;
    var p := Lines(expected, got);
    BatchedIsScript(expected, got, limit);
    ScriptOfNoMatch(p, BatchedScript(expected, got, limit), p.N(), p.M());
    LcsOfDisjoint(p, p.N(), p.M());
  }

  // Batching returns a cheapest script for all inputs of given sizes if and only if both fit into one
  // batch or one is empty.
  lemma NeverCostsMoreIff(n: nat, m: nat, limit: nat)
    requires limit > 0 && Min(limit, n) + Min(limit, m) <= MAX_TOTAL
    ensures NeverCostsMore(n, m, limit) <==> (n <= limit && m <= limit) || n == 0 || m == 0
  {
    hide BatchedScript;
    if (n <= limit && m <= limit) || n == 0 || m == 0 {
      forall expected: seq<Line>, got: seq<Line> | |expected| == n && |got| == m
        ensures Edits(BatchedScript(expected, got, limit)) == Cheapest(expected, got)
      {
        if n == 0 || m == 0 {
          EmptySideCostsNoMore(expected, got, limit);
        } else {
          BatchedIsScript(expected, got, limit);
        }
      }
    } else {
      var expected, got := CostsMore(n, m, limit);
    }
  }
}
