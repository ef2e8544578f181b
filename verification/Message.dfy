/**
 The message builder of msg.cc: which entries of a script are shown, and at which line numbers.
 */
module Message {
  import opened EditGraph
  import opened Scripts
  import opened Search
  import opened Backtrace
  import opened Batches

  const LINES_BEFORE := 3
  const LINES_AFTER := 3

  // A shown line: what diff_line_format is given.
  datatype Shown = Shown(val: Line, action: Action, orig: nat, updated: nat)

  // Entry i is at most LINES_BEFORE before or LINES_AFTER after an edit among the first n entries.
  ghost predicate NearEdit(diffs: MsgDiff, n: nat, i: int) {
    exists j :: 0 <= j < n && j < |diffs| && diffs[j].action != EQ && j - LINES_BEFORE <= i <= j + LINES_AFTER
  }

  lemma NearMeans(diffs: MsgDiff, i: nat)
    requires i < |diffs|
    ensures NearEdit(diffs, |diffs|, i) <==>
              exists j :: 0 <= j < |diffs| && diffs[j].action != EQ && -3 <= j - i <= 3
  {
  }

  ghost function Record(diffs: MsgDiff, i: nat): Shown
    requires i < |diffs|
  {
    Shown(diffs[i].val, diffs[i].action, OrigCount(diffs[..i]), UpdatedCount(diffs[..i]))
  }

  // The message about the first n entries.
  ghost function MessageOf(diffs: MsgDiff, n: nat): seq<Shown>
    requires n <= |diffs|
  {
    if n == 0 then []
    else MessageOf(diffs, n - 1) + if NearEdit(diffs, |diffs|, n - 1) then [Record(diffs, n - 1)] else []
  }

  // The shown lines are those of the entries at the given positions: exactly the ones near an edit among
  // the first n, in order, each with its line, its action and how much of either input precedes it.
  ghost predicate Shows(diffs: MsgDiff, n: nat, out: seq<Shown>, at: seq<nat>) {
    && |at| == |out|
    && (forall l, l' :: 0 <= l < l' < |at| ==> at[l] < at[l'])
    && (forall l :: 0 <= l < |at| ==> at[l] < n && at[l] < |diffs|)
    && (forall i :: 0 <= i < n ==> (i in at <==> NearEdit(diffs, |diffs|, i)))
    && forall l :: 0 <= l < |at| ==>
         && out[l].val == diffs[at[l]].val && out[l].action == diffs[at[l]].action
         && out[l].orig == OrigCount(diffs[..at[l]]) && out[l].updated == UpdatedCount(diffs[..at[l]])
  }

  lemma ShowsNot(diffs: MsgDiff, n: nat, out: seq<Shown>, at: seq<nat>)
    requires n < |diffs| && Shows(diffs, n, out, at) && !NearEdit(diffs, |diffs|, n)
    ensures Shows(diffs, n + 1, out, at)
  {
    hide NearEdit, OrigCount, UpdatedCount;
  }

  lemma ShowsOneMore(diffs: MsgDiff, n: nat, out: seq<Shown>, at: seq<nat>)
    requires n < |diffs| && Shows(diffs, n, out, at) && NearEdit(diffs, |diffs|, n)
    ensures Shows(diffs, n + 1, out + [Record(diffs, n)], at + [n])
  {
    hide NearEdit, OrigCount, UpdatedCount;
    forall i | 0 <= i < n + 1
      ensures i in at + [n] <==> NearEdit(diffs, |diffs|, i)
    {
      assert i in at + [n] <==> i in at || i == n;
    }
  }

  lemma {:induction false} MessageShows(diffs: MsgDiff, n: nat) returns (at: seq<nat>)
    requires n <= |diffs|
    ensures Shows(diffs, n, MessageOf(diffs, n), at)
    decreases n
  {
    if n == 0 {
      at := [];
    } else {
      hide NearEdit, Shows, Record;
      at := MessageShows(diffs, n - 1);
      var before := MessageOf(diffs, n - 1);
      if NearEdit(diffs, |diffs|, n - 1) {
        ShowsOneMore(diffs, n - 1, before, at);
        at := at + [n - 1];
      } else {
        ShowsNot(diffs, n - 1, before, at);
        assert MessageOf(diffs, n) == before;
      }
    }
  }

  lemma CountsStep<T>(s: seq<Diff<T>>, i: nat)
    requires i < |s|
    ensures OrigCount(s[..i + 1]) == OrigCount(s[..i]) + if s[i].action == ADD then 0 else 1
    ensures UpdatedCount(s[..i + 1]) == UpdatedCount(s[..i]) + if s[i].action == DEL then 0 else 1
  {
    assert s[..i + 1][..i] == s[..i];
  }

  lemma NoCounts<T>()
    ensures OrigCount<T>([]) == UpdatedCount<T>([]) == 0
  {
  }

  /* -------- to_string -------- */

  // to_string keeps the number of entries in an IndexT.  This is the number that it gets; the array of
  // lines to show must not have a negative size.
  function Kept(diffs: MsgDiff): IndexT {
    Narrow(|diffs|)
  }

  lemma KeptOf(diffs: MsgDiff)
    ensures Kept(diffs) <= |diffs|
    ensures |diffs| < 0x8000 ==> Kept(diffs) == |diffs| && diffs[..Kept(diffs)] == diffs
  {
  }

  // The message about a script: it is about all of a script of up to 32767 entries, and about the
  // entries before the last multiple of 65536 are taken away of a longer one.
  ghost function Printed(diffs: MsgDiff): seq<Shown>
    requires Kept(diffs) >= 0
  {
    KeptOf(diffs);
    MessageOf(diffs[..Kept(diffs)], Kept(diffs))
  }

  // The loop that marks the lines to show.
  method MarkShown(diffs: MsgDiff) returns (show: array<bool>)
    requires Kept(diffs) >= 0
    ensures fresh(show) && show.Length == Kept(diffs)
    ensures forall i :: 0 <= i < Kept(diffs) ==> (show[i] <==> NearEdit(diffs, Kept(diffs), i))
  {
    KeptOf(diffs);
    var ndiffs: IndexT := Narrow(|diffs|);
    show := new bool[ndiffs](_ => false);
    for i := 0 to ndiffs
      invariant forall l :: 0 <= l < ndiffs ==> (show[l] <==> NearEdit(diffs, i, l))
    {
      if diffs[i].action != EQ {
        var begin: IndexT := if i - LINES_BEFORE < 0 then 0 else i - LINES_BEFORE;
        var end: IndexT := if i + LINES_AFTER < ndiffs - 1 then i + LINES_AFTER else ndiffs - 1;
        forall l | begin <= l <= end {
          show[l] := true;
        }
      }
      assert forall l :: NearEdit(diffs, i, l) ==> NearEdit(diffs, i + 1, l);
    }
  }

  lemma NearEditOf(diffs: MsgDiff, n: nat)
    requires n <= |diffs|
    ensures forall i :: NearEdit(diffs[..n], n, i) == NearEdit(diffs, n, i)
  {
    assert forall j :: 0 <= j < n ==> diffs[..n][j] == diffs[j];
  }

  method ToString(diffs: MsgDiff) returns (out: seq<Shown>)
    requires Kept(diffs) >= 0
    ensures out == Printed(diffs)
    ensures Kept(diffs) <= |diffs|
    ensures exists at :: Shows(diffs[..Kept(diffs)], Kept(diffs), out, at)
  {
    KeptOf(diffs);
    var show := MarkShown(diffs);
    var ndiffs: IndexT := Narrow(|diffs|);
    ghost var s := diffs[..ndiffs];
    NearEditOf(diffs, ndiffs);
    hide NearEdit, Narrow, OrigCount, UpdatedCount;
    NoCounts<Line>();
    var oidx: nat, uidx: nat := 0, 0;
    out := [];
    for i := 0 to ndiffs
      invariant oidx == OrigCount(s[..i]) && uidx == UpdatedCount(s[..i])
      invariant out == MessageOf(s, i)
      invariant forall l :: 0 <= l < ndiffs ==> (show[l] <==> NearEdit(s, ndiffs, l))
    {
      if show[i] {
        out := out + [Shown(diffs[i].val, diffs[i].action, oidx, uidx)];
      }
      CountsStep(s, i);
      match diffs[i].action {
        case EQ =>
          oidx := oidx + 1;
          uidx := uidx + 1;
        case ADD =>
          uidx := uidx + 1;
        case DEL =>
          oidx := oidx + 1;
      }
    }
    ghost var at := MessageShows(s, ndiffs);
  }

  /* -------- what a message says -------- */

  // The line numbers of a record are those of its line in the inputs.
  ghost predicate Truthful(expected: seq<Line>, got: seq<Line>, r: Shown) {
    && (r.action != ADD ==> r.orig < |expected| && expected[r.orig] == r.val)
    && (r.action != DEL ==> r.updated < |got| && got[r.updated] == r.val)
  }

  // Whatever the positions in the entries of a script are, the line numbers in its message are true.
  lemma {:induction false} MessageIsTruthful(expected: seq<Line>, got: seq<Line>, diffs: MsgDiff, n: nat)
    requires IsScript(Lines(expected, got), diffs) && n <= |diffs|
    ensures forall r :: r in MessageOf(diffs, n) ==> Truthful(expected, got, r)
    decreases n
  {
    if n == 0 {
    } else {
      MessageIsTruthful(expected, got, diffs, n - 1);
      EntryFits(Lines(expected, got), diffs, |expected|, |got|, n - 1);
    }
  }

  // Records stand in the order of their entries, so no two entries have the same record.
  lemma {:induction false} PositionsGrow<T>(s: seq<Diff<T>>, i: nat, j: nat)
    requires i < j <= |s|
    ensures OrigCount(s[..i]) + UpdatedCount(s[..i]) < OrigCount(s[..j]) + UpdatedCount(s[..j])
    decreases j
  {
    CountsStep(s, j - 1);
    if i == j - 1 {
    } else {
      PositionsGrow(s, i, j - 1);
    }
  }

  // An entry is shown if and only if it is near an edit, and nothing but entries is shown.
  lemma {:induction false} ShownIffNear(diffs: MsgDiff, n: nat)
    requires n <= |diffs|
    ensures forall i :: 0 <= i < n ==> (Record(diffs, i) in MessageOf(diffs, n) <==> NearEdit(diffs, |diffs|, i))
    ensures forall r :: r in MessageOf(diffs, n) ==> exists i :: 0 <= i < n && r == Record(diffs, i)
    decreases n
  {
    if n == 0 {
    } else {
      ShownIffNear(diffs, n - 1);
      forall i | 0 <= i < n - 1
        ensures Record(diffs, i) != Record(diffs, n - 1)
      {
        PositionsGrow(diffs, i, n - 1);
      }
      forall r | r in MessageOf(diffs, n)
        ensures exists i :: 0 <= i < n && r == Record(diffs, i)
      {
        if r !in MessageOf(diffs, n - 1) {
          assert r == Record(diffs, n - 1);
        }
      }
    }
  }

  lemma EmptyIffFree(diffs: MsgDiff)
    ensures MessageOf(diffs, |diffs|) == [] <==> Edits(diffs) == 0
  {
    FreeScript(diffs);
    ShownIffNear(diffs, |diffs|);
    forall i | 0 <= i < |diffs| && diffs[i].action != EQ
      ensures MessageOf(diffs, |diffs|) != []
    {
      assert NearEdit(diffs, |diffs|, i);
    }
    if MessageOf(diffs, |diffs|) != [] {
      assert MessageOf(diffs, |diffs|)[0] in MessageOf(diffs, |diffs|);
    }
  }

  /* -------- the message is empty exactly when the inputs are equal -------- */

  lemma {:induction false} FreeScriptOfEqual<T>(p: Problem<T>, s: seq<Diff<T>>, x: int, y: int)
    requires Fits(p, s, x, y) && Edits(s) == 0
    ensures 0 <= x == y <= p.N() && y <= p.M()
    ensures forall i :: 0 <= i < x ==> p.Match(i, i)
    decreases |s|
  {
    if s == [] {
    } else {
      FreeScriptOfEqual(p, s[..|s| - 1], x - 1, y - 1);
    }
  }

  lemma {:induction false} LcsOfEqual(lines: seq<Line>, x: nat)
    requires x <= |lines|
    ensures Lcs(Lines(lines, lines), x, x) == x
    decreases x
  {
    if x == 0 {
    } else {
      LcsOfEqual(lines, x - 1);
    }
  }

  // On equal inputs every batch is free and takes as much of one as of the other.
  lemma EqualBatch(lines: seq<Line>, limit: nat)
    ensures var (e, g) := Consumed(lines, lines, limit);
            e == g && Edits(FirstSegment(lines, lines, limit)) == 0
  {
    hide MyersScript;
    var q := Batch(lines, lines, limit);
    var s := Returned(q);
    if Supported(q) {
      MyersScriptIsOptimal(q);
      LcsOfEqual(q.orig, q.N());
      FreePrefix(s, DiffEnd(s));
    }
  }

  lemma FreePrefix<T>(s: seq<Diff<T>>, i: nat)
    requires Edits(s) == 0 && i <= |s|
    ensures Edits(s[..i]) == 0 && OrigCount(s[..i]) == UpdatedCount(s[..i])
  {
    FreeScript(s);
    FreeScript(s[..i]);
  }

  lemma EqualWhole(lines: seq<Line>)
    ensures Edits(Returned(Lines(lines, lines))) == 0
  {
    hide MyersScript;
    var p := Lines(lines, lines);
    if Supported(p) {
      MyersScriptIsOptimal(p);
      LcsOfEqual(lines, |lines|);
    }
  }

  lemma {:induction false} EqualIsFree(lines: seq<Line>, limit: nat)
    requires Ends(lines, lines, limit)
    ensures Edits(BatchedScript(lines, lines, limit)) == 0
    decreases |lines|
  {
    hide Returned, FirstSegment, Consumed, BatchedScript;
    if FitsInOneBatch(lines, lines, limit) {
      OneSegment(lines, lines, limit);
      EqualWhole(lines);
    } else {
      NextSegment(lines, lines, limit);
      EqualBatch(lines, limit);
      var (e, g) := Consumed(lines, lines, limit);
      EqualIsFree(lines[e..], limit);
      CountsOfConcat(FirstSegment(lines, lines, limit), BatchedScript(lines[e..], lines[e..], limit));
    }
  }

  // The batched script is free exactly for equal inputs, if batches are of a supported size.
  lemma FreeIffEqual(expected: seq<Line>, got: seq<Line>, limit: nat)
    requires InRange(expected, got, limit) && Ends(expected, got, limit)
    ensures Edits(BatchedScript(expected, got, limit)) == 0 <==> expected == got
  {
    hide BatchedScript;
    BatchedIsScript(expected, got, limit);
    if expected == got {
      EqualIsFree(expected, limit);
    } else if Edits(BatchedScript(expected, got, limit)) == 0 {
      FreeScriptOfEqual(Lines(expected, got), BatchedScript(expected, got, limit), |expected|, |got|);
      forall i | 0 <= i < |expected|
        ensures expected[i] == got[i]
      {
        assert Lines(expected, got).Match(i, i);
      }
    }
  }

  /* -------- diff_msg and safe_diff_msg -------- */

  // What diff_msg says, for any inputs that it can search.
  ghost function Message(expected: seq<Line>, got: seq<Line>): seq<Shown>
    requires Searchable(Lines(expected, got))
  {
    var s := Returned(Lines(expected, got));
    MessageOf(s, |s|)
  }

  method DiffMsg(expected: seq<Line>, got: seq<Line>) returns (out: seq<Shown>)
    requires Searchable(Lines(expected, got))
    ensures out == Message(expected, got)
    ensures var s := Returned(Lines(expected, got)); exists at :: Shows(s, |s|, out, at)
    ensures |expected| + |got| <= MAX_TOTAL ==> forall r :: r in out ==> Truthful(expected, got, r)
    ensures |expected| + |got| <= MAX_TOTAL ==> (out == [] <==> expected == got)
    ensures |expected| + |got| > MAX_TOTAL ==> out == []
  {
    hide Returned;
    var p := Lines(expected, got);
    var diffs := MyersDiff(p);
    BatchSize(p);
    KeptOf(diffs);
    out := ToString(diffs);
    assert diffs[..Kept(diffs)] == diffs;
    WholeMessage(expected, got);
  }

  // The message about all of a script that diff_msg finds.
  lemma WholeMessage(expected: seq<Line>, got: seq<Line>)
    requires Searchable(Lines(expected, got))
    ensures if |expected| + |got| <= MAX_TOTAL then
              && (forall r :: r in Message(expected, got) ==> Truthful(expected, got, r))
              && (Message(expected, got) == [] <==> expected == got)
            else Message(expected, got) == []
  {
    hide MyersScript;
    var p, limit := Lines(expected, got), |expected| + |got|;
    var s := Returned(p);
    if Supported(p) {
      MyersScriptIsOptimal(p);
      MessageIsTruthful(expected, got, s, |s|);
      EmptyIffFree(s);
      OneSegment(expected, got, limit);
      FreeIffEqual(expected, got, limit);
    }
  }

  lemma LinesAreSearchable(expected: seq<Line>, got: seq<Line>)
    requires |expected| + |got| <= 0x7ffe
    ensures Searchable(Lines(expected, got))
  {
    SearchableIff(Lines(expected, got));
  }

  // Among inputs of given sizes, up to 32766 lines in total, diff_msg is empty for the equal ones only,
  // if and only if the sizes total at most 16383: larger ones get an empty message whatever they are.
  lemma EmptyIffEqualIff(n: nat, m: nat)
    requires n + m <= 0x7ffe
    ensures (forall expected: seq<Line>, got: seq<Line> ::
               |expected| == n && |got| == m ==>
                 Searchable(Lines(expected, got)) && (Message(expected, got) == [] <==> expected == got))
            <==> n + m <= MAX_TOTAL
  {
    hide Returned, Searchable;
    forall expected: seq<Line>, got: seq<Line> | |expected| == n && |got| == m
      ensures Searchable(Lines(expected, got))
      ensures n + m <= MAX_TOTAL ==> (Message(expected, got) == [] <==> expected == got)
    {
      LinesAreSearchable(expected, got);
      WholeMessage(expected, got);
    }
    var expected, got := seq(n, _ => "a"), seq(m, _ => "b");
    LinesAreSearchable(expected, got);
    WholeMessage(expected, got);
    if n + m > MAX_TOTAL {
      assert n == m ==> expected[0] != got[0];
    }
  }

  // Where the last batch of n lines begins.
  function LastBatch(n: nat, limit: nat): (k: nat)
    requires limit > 0
    ensures k <= n <= k + limit
  {
    if n <= limit then 0 else limit + LastBatch(n - limit, limit)
  }

  function LessOrNone(n: nat, k: nat): nat {
    if n < k then 0 else n - k
  }

  // For inputs of these sizes the last batch is not supported.  As it is the smallest one, none is.
  predicate AllSkipped(n: nat, m: nat, limit: nat)
    requires limit > 0
  {
    var k := LastBatch(if n < m then m else n, limit);
    LessOrNone(n, k) + LessOrNone(m, k) > MAX_TOTAL
  }

  lemma NextBatch(n: nat, limit: nat)
    requires limit > 0
    ensures LastBatch(n, limit) == if n <= limit then 0 else limit + LastBatch(n - limit, limit)
  {
  }

  // So all batches are skipped if and only if the first is and the others are, if there are any.
  lemma AllSkippedIff(n: nat, m: nat, limit: nat)
    requires limit > 0
    ensures AllSkipped(n, m, limit) <==>
            && Min(limit, n) + Min(limit, m) > MAX_TOTAL
            && ((n <= limit && m <= limit) || AllSkipped(n - Min(limit, n), m - Min(limit, m), limit))
  {
    hide LastBatch;
    var n', m' := n - Min(limit, n), m - Min(limit, m);
    if n < m {
      NextBatch(m, limit);
      assert m > limit ==> n' < m' == m - limit;
    } else {
      NextBatch(n, limit);
      assert n > limit ==> m' <= n' == n - limit;
    }
  }

  lemma {:induction false} SkippedIsFree(expected: seq<Line>, got: seq<Line>, limit: nat)
    requires limit > 0 && Ends(expected, got, limit) && AllSkipped(|expected|, |got|, limit)
    ensures BatchedScript(expected, got, limit) == []
    decreases |expected| + |got|
  {
    hide MyersScript, BatchedScript, AllSkipped;
    AllSkippedIff(|expected|, |got|, limit);
    if FitsInOneBatch(expected, got, limit) {
      OneSegment(expected, got, limit);
    } else {
      NextSegment(expected, got, limit);
      BatchIsSkipped(expected, got, limit);
      hide FirstSegment, Consumed, Returned;
      SkippedIsFree(expected[Min(limit, |expected|)..], got[Min(limit, |got|)..], limit);
    }
  }

  // Inputs of different lengths still have different lengths where the first supported batch begins.
  lemma {:induction false} SupportedBatchCosts(expected: seq<Line>, got: seq<Line>, limit: nat)
    requires limit > 0 && Ends(expected, got, limit) && !AllSkipped(|expected|, |got|, limit)
    requires |expected| != |got|
    ensures Edits(BatchedScript(expected, got, limit)) > 0
    decreases |expected| + |got|
  {
    hide MyersScript, BatchedScript, AllSkipped;
    AllSkippedIff(|expected|, |got|, limit);
    if InRange(expected, got, limit) {
      FreeIffEqual(expected, got, limit);
    } else {
      NextSegment(expected, got, limit);
      BatchIsSkipped(expected, got, limit);
      hide FirstSegment, Consumed, Returned;
      var expected', got' := expected[Min(limit, |expected|)..], got[Min(limit, |got|)..];
      assert BatchedScript(expected, got, limit) == BatchedScript(expected', got', limit);
      SupportedBatchCosts(expected', got', limit);
    }
  }

  // No edits means no difference, for all inputs of these sizes.
  ghost predicate FreeOnlyIfEqual(n: nat, m: nat, limit: nat)
    requires limit > 0 && Min(limit, n) + Min(limit, m) <= 0x7ffe
  {
    forall expected: seq<Line>, got: seq<Line> :: |expected| == n && |got| == m ==>
      (Edits(BatchedScript(expected, got, limit)) == 0 <==> expected == got)
  }

  // Batches that are not supported are skipped, and batches do not get larger.  So inputs of the same
  // length need the first one supported, or they could differ in a skipped one only; inputs of different
  // lengths need the last one.
  lemma FreeIffEqualIff(n: nat, m: nat, limit: nat)
    requires limit > 0 && Min(limit, n) + Min(limit, m) <= 0x7ffe
    ensures FreeOnlyIfEqual(n, m, limit) <==>
            if n == m then Min(limit, n) + Min(limit, m) <= MAX_TOTAL else !AllSkipped(n, m, limit)
  {
    if n == m {
      SameLengthIff(n, limit);
    } else {
      OtherLengthIff(n, m, limit);
    }
  }

  lemma OtherLengthIff(n: nat, m: nat, limit: nat)
    requires limit > 0 && Min(limit, n) + Min(limit, m) <= 0x7ffe && n != m
    ensures FreeOnlyIfEqual(n, m, limit) <==> !AllSkipped(n, m, limit)
  {
    hide BatchedScript, AllSkipped;
    if AllSkipped(n, m, limit) {
      var expected, got := seq(n, _ => ""), seq(m, _ => "");
      SkippedIsFree(expected, got, limit);
      assert Edits(BatchedScript(expected, got, limit)) == 0;
    } else {
      forall expected: seq<Line>, got: seq<Line> | |expected| == n && |got| == m
        ensures Edits(BatchedScript(expected, got, limit)) == 0 <==> expected == got
      {
        SupportedBatchCosts(expected, got, limit);
      }
    }
  }

  lemma SameLengthIff(n: nat, limit: nat)
    requires limit > 0 && Min(limit, n) + Min(limit, n) <= 0x7ffe
    ensures FreeOnlyIfEqual(n, n, limit) <==> Min(limit, n) + Min(limit, n) <= MAX_TOTAL
  {
    hide BatchedScript;
    if Min(limit, n) + Min(limit, n) <= MAX_TOTAL {
      forall expected: seq<Line>, got: seq<Line> | |expected| == n && |got| == n
        ensures Edits(BatchedScript(expected, got, limit)) == 0 <==> expected == got
      {
        FreeIffEqual(expected, got, limit);
      }
    } else {
      var got := seq(n, _ => "b");
      var expected := got[0 := "a"];
      assert expected[0] != got[0];
      FirstLineSkipped(expected, got, limit);
    }
  }

  lemma FirstLineSkipped(expected: seq<Line>, got: seq<Line>, limit: nat)
    requires Ends(expected, got, limit) && !InRange(expected, got, limit)
    requires |expected| == |got| > 0 && expected[1..] == got[1..]
    ensures Edits(BatchedScript(expected, got, limit)) == 0
  {
    hide MyersScript, BatchedScript;
    if FitsInOneBatch(expected, got, limit) {
      OneSegment(expected, got, limit);
    } else {
      NextSegment(expected, got, limit);
      BatchIsSkipped(expected, got, limit);
      var i := Min(limit, |got|);
      assert expected[i..] == expected[1..][i - 1..] == got[1..][i - 1..] == got[i..];
      EqualIsFree(got[i..], limit);
      CountsOfConcat(FirstSegment(expected, got, limit), BatchedScript(got[i..], got[i..], limit));
    }
  }

  // A batched script has no more entries than there are lines.
  lemma BatchedLength(expected: seq<Line>, got: seq<Line>, limit: nat)
    requires Ends(expected, got, limit)
    ensures |BatchedScript(expected, got, limit)| <= |expected| + |got|
  {
    hide BatchedScript;
    var s := BatchedScript(expected, got, limit);
    BatchedCounts(expected, got, limit);
    CountsOfPrefix(s, |s|);
    assert s[..|s|] == s;
  }

  // So to_string keeps all entries of the batched scripts of given sizes if and only if there are at
  // most 32767 lines in all, because all lines may be edited.
  lemma AllKeptIff(n: nat, m: nat, limit: nat)
    requires limit > 0 && Min(limit, n) + Min(limit, m) <= MAX_TOTAL
    ensures (forall expected: seq<Line>, got: seq<Line> :: |expected| == n && |got| == m ==>
              Kept(BatchedScript(expected, got, limit)) == |BatchedScript(expected, got, limit)|)
            <==> n + m < 0x8000
  {
    hide BatchedScript;
    forall expected: seq<Line>, got: seq<Line> | |expected| == n && |got| == m
      ensures |BatchedScript(expected, got, limit)| <= n + m
    {
      BatchedLength(expected, got, limit);
    }
    var expected, got := seq(n, _ => "a"), seq(m, _ => "b");
    BatchedIsScript(expected, got, limit);
    ScriptOfNoMatch(Lines(expected, got), BatchedScript(expected, got, limit), n, m);
    assert |BatchedScript(expected, got, limit)| == n + m;
  }

  // The message about a script is true however many of its entries are kept.
  lemma PrintedIsTruthful(expected: seq<Line>, got: seq<Line>, diffs: MsgDiff)
    requires IsScript(Lines(expected, got), diffs) && Kept(diffs) >= 0
    ensures forall r :: r in Printed(diffs) ==> Truthful(expected, got, r)
  {
    hide IsScript;
    KeptOf(diffs);
    PrefixIsTruthful(expected, got, diffs, Kept(diffs), Kept(diffs));
  }

  lemma {:induction false} PrefixIsTruthful
    (expected: seq<Line>, got: seq<Line>, diffs: MsgDiff, kept: nat, n: nat)
    requires IsScript(Lines(expected, got), diffs) && n <= kept <= |diffs|
    ensures forall r :: r in MessageOf(diffs[..kept], n) ==> Truthful(expected, got, r)
    decreases n
  {
    if n == 0 {
    } else {
      PrefixIsTruthful(expected, got, diffs, kept, n - 1);
      EntryFits(Lines(expected, got), diffs, |expected|, |got|, n - 1);
      assert diffs[..kept][..n - 1] == diffs[..n - 1];
    }
  }

  // A script of 65536 deletions has an empty message.
  lemma NothingKept(expected: seq<Line>, limit: nat)
    requires limit > 0 && Min(limit, |expected|) <= MAX_TOTAL && |expected| == 0x1_0000
    ensures Kept(BatchedScript(expected, [], limit)) == 0
    ensures Printed(BatchedScript(expected, [], limit)) == []
  {
    hide BatchedScript;
    var s := BatchedScript(expected, [], limit);
    BatchedIsScript(expected, [], limit);
    ScriptOfNoMatch(Lines(expected, []), s, |expected|, 0);
    assert |s| == 0x1_0000;
  }

  // Like diff_msg for inputs of any length, as long as the batches end and the number of entries that is
  // kept is not negative.
  method SafeDiffMsg(expected: seq<Line>, got: seq<Line>, batchLimit: nat) returns (out: seq<Shown>)
    requires Ends(expected, got, batchLimit)
    requires Kept(BatchedScript(expected, got, batchLimit)) >= 0
    ensures out == Printed(BatchedScript(expected, got, batchLimit))
    ensures InRange(expected, got, batchLimit) ==> forall r :: r in out ==> Truthful(expected, got, r)
    ensures |expected| + |got| < 0x8000 ==> (out == [] <==> Edits(BatchedScript(expected, got, batchLimit)) == 0)
    ensures |BatchedScript(expected, got, batchLimit)| < 0x8000 && InRange(expected, got, batchLimit) ==>
              (out == [] <==> expected == got)
    ensures expected == got ==> out == []
  {
    hide BatchedScript, Narrow;
    var diff := new DiffSink();
    SafeDiffMsgHelper(diff, expected, got, batchLimit);
    ghost var script := BatchedScript(expected, got, batchLimit);
    assert diff.entries == script;
    out := ToString(diff.entries);
    PrintedMessage(expected, got, batchLimit);
  }

  // What the message about the batched script says.
  lemma PrintedMessage(expected: seq<Line>, got: seq<Line>, limit: nat)
    requires Ends(expected, got, limit) && Kept(BatchedScript(expected, got, limit)) >= 0
    ensures var s := BatchedScript(expected, got, limit);
            && (InRange(expected, got, limit) ==> forall r :: r in Printed(s) ==> Truthful(expected, got, r))
            && (|expected| + |got| < 0x8000 ==> |s| < 0x8000)
            && (|s| < 0x8000 ==> (Printed(s) == [] <==> Edits(s) == 0))
            && (|s| < 0x8000 && InRange(expected, got, limit) ==> (Printed(s) == [] <==> expected == got))
            && (expected == got ==> Printed(s) == [])
  {
    hide BatchedScript, Edits, IsScript;
    var s := BatchedScript(expected, got, limit);
    BatchedLength(expected, got, limit);
    KeptOf(s);
    EmptyIffFree(s[..Kept(s)]);
    if InRange(expected, got, limit) {
      BatchedIsScript(expected, got, limit);
      PrintedIsTruthful(expected, got, s);
      FreeIffEqual(expected, got, limit);
    }
    if expected == got {
      EqualIsFree(expected, limit);
      FreePrefix(s, Kept(s));
    }
  }
}
