/**
 The forward searches of myers_diff.h: the edit count and the trace.
 */
module Search {
  import opened EditGraph
  import opened Scripts
  import opened Furthest

  // Conversion of an int to int16_t.
  function Narrow(i: int): IndexT {
    (i + 0x8000) % 0x10000 - 0x8000
  }

  lemma NarrowKeeps(i: int)
    ensures Narrow(i) == i <==> -0x8000 <= i < 0x8000
  {
  }

  // It is the only int16_t that is congruent.
  lemma NarrowIs(i: int, j: IndexT)
    ensures j == Narrow(i) <==> (i - j) % 0x10000 == 0
  {
    assert (i - Narrow(i)) % 0x10000 == 0;
  }

  // The problems for which both searches stop with the right answer; see SearchableIff.
  ghost predicate Searchable<T>(p: Problem<T>) {
    p.N() + p.M() < 0x8000 && Corner(p) < 0x7fff
  }

  // That is all sizes up to 32766, and 32767 unless the arrays have nothing in common.
  lemma SearchableIff<T>(p: Problem<T>)
    ensures Searchable(p) <==>
            || p.N() + p.M() <= 0x7ffe
            || (p.N() + p.M() == 0x7fff && exists x, y :: p.Match(x, y))
  {
    DistBounds(p, p.N(), p.M());
    if x, y :| p.Match(x, y) {
      LcsAtMostCorner(p, x + 1, y + 1);
    } else {
      LcsOfDisjoint(p, p.N(), p.M());
    }
  }

  // The loop over the diagonals of a round gets past the last one.
  ghost predicate HasEnd(iedit: IndexT) {
    exists k: IndexT :: k <= iedit && Visits(iedit, k) && Narrow(k + 2) > iedit
  }

  // It does not in rounds 32766 and 32767, because adding 2 to k narrows: exactly the rounds before can
  // be got through.
  lemma RoundsThatEnd(iedit: IndexT)
    requires iedit >= 0
    ensures HasEnd(iedit) <==> iedit <= 0x7ffd
  {
    assert Visits(iedit, iedit);
    if iedit <= 0x7ffd {
      assert Narrow(iedit + 2) > iedit;
    }
  }

  // The other arrays of 32767 elements in all would need round 32767.  But round 32766 does not get
  // to the far corner on any diagonal, and has no end.
  lemma RoundWithoutEnd<T>(p: Problem<T>)
    requires p.N() + p.M() == 0x7fff && !Searchable(p)
    ensures Corner(p) == 0x7fff
    ensures forall k :: Visits(0x7ffe, k) ==> !PastCorner(p, Far(p, 0x7ffe, k), k)
    ensures !HasEnd(0x7ffe)
  {
    hide Far, HasEnd;
    DistBounds(p, p.N(), p.M());
    RoundsThatEnd(0x7ffe);
    forall k | Visits(0x7ffe, k)
      ensures !PastCorner(p, Far(p, 0x7ffe, k), k)
    {
      StopsAtCorner(p, 0x7ffe, k);
    }
  }

  const MAX_TOTAL := 16383

  // The sizes for which the backtrace can use the trace; see RowWidthFits.
  predicate Supported<T>(p: Problem<T>) {
    p.N() + p.M() <= MAX_TOTAL
  }

  // The row width 2(n + m) + 1, which the backtrace keeps in an IndexT, survives that exactly when
  // the arrays are of supported size.
  lemma RowWidthFits<T>(p: Problem<T>)
    ensures Narrow(RowWidth(p)) == RowWidth(p) <==> Supported(p)
  {
  }

  /* -------- the cyclic array of costs -------- */

  function RowWidth<T>(p: Problem<T>): nat {
    2 * (p.N() + p.M()) + 1
  }

  // The slot of a diagonal between -(n + m) and n + m, and the diagonal that owns a slot.
  ghost function SlotOf(width: int, k: int): int {
    if k < 0 then width + k else if k < width then k else k - width
  }

  ghost function DiagonalOf(width: int, i: int): int {
    if 2 * i < width then i else i - width
  }

  // No two of these diagonals share a slot.
  lemma OneSlot(width: int, k: int)
    requires width % 2 == 1 && -width < 2 * k < width
    ensures 0 <= SlotOf(width, k) < width && DiagonalOf(width, SlotOf(width, k)) == k
    ensures forall i :: 0 <= i < width && DiagonalOf(width, i) == k ==> i == SlotOf(width, k)
  {
  }

  // The index expression of the source.
  method CyclicIndex(ncost: int, k: int) returns (i: int)
    requires ncost > 0 && -ncost <= k <= ncost
    ensures i == SlotOf(ncost, k) && 0 <= i < ncost
  {
    i := (ncost + k) % ncost;
    if k == ncost {
      assert ncost + k == ncost * 2;
    } else if k >= 0 {
      assert ncost + k == ncost * 1 + k;
    }
  }

  // A round is half done: the diagonals below k are as in row `after`, the others as in `before`.
  ghost predicate Mixed(costs: seq<int>, before: seq<int>, after: seq<int>, k: int) {
    |costs| == |before| == |after|
    && forall i :: 0 <= i < |costs| ==>
         costs[i] == if DiagonalOf(|costs|, i) < k then after[i] else before[i]
  }

  // The array of costs before round r.
  ghost function Row<T>(p: Problem<T>, r: nat): (row: seq<int>)
    ensures |row| == RowWidth(p)
  {
    seq(RowWidth(p), i requires 0 <= i < RowWidth(p) => Cost(p, r, DiagonalOf(RowWidth(p), i)))
  }

  // Round r has recorded the diagonals below k.
  ghost predicate Recorded<T>(p: Problem<T>, costs: seq<int>, r: nat, k: int) {
    Mixed(costs, Row(p, r), Row(p, r + 1), k)
  }

  lemma RowStep<T>(p: Problem<T>, r: nat, i: nat)
    requires i < RowWidth(p)
    ensures var k := DiagonalOf(RowWidth(p), i);
            Row(p, r + 1)[i] == if Visits(r, k) then Far(p, r, k) else Row(p, r)[i]
  {
    RoundWrites(p, r, DiagonalOf(RowWidth(p), i));
  }

  // No round has been anywhere yet.
  lemma FirstRow<T>(p: Problem<T>, costs: seq<int>)
    requires |costs| == RowWidth(p) && forall i :: 0 <= i < |costs| ==> costs[i] == 0
    ensures costs == Row(p, 0)
  {
  }

  // A round begins on a row.
  lemma RoundBegins<T>(p: Problem<T>, r: nat)
    ensures Recorded(p, Row(p, r), r, 0 - r)
  {
    forall i | 0 <= i < RowWidth(p) && DiagonalOf(RowWidth(p), i) < 0 - r
      ensures Row(p, r)[i] == Row(p, r + 1)[i]
    {
      RowStep(p, r, i);
    }
  }

  // Having recorded every diagonal it visits, it ends on the next row.
  lemma RoundEnds<T>(p: Problem<T>, costs: seq<int>, r: nat, k: int)
    requires k > r && Recorded(p, costs, r, k)
    ensures costs == Row(p, r + 1)
  {
    forall i | 0 <= i < RowWidth(p)
      ensures costs[i] == Row(p, r + 1)[i]
    {
      RowStep(p, r, i);
    }
  }

  lemma RowAtSlot<T>(p: Problem<T>, r: nat, k: int)
    requires -(p.N() + p.M()) <= k <= p.N() + p.M()
    ensures 0 <= SlotOf(RowWidth(p), k) < RowWidth(p)
    ensures Row(p, r)[SlotOf(RowWidth(p), k)] == Cost(p, r, k)
  {
    OneSlot(RowWidth(p), k);
  }

  // The slots of the neighbouring diagonals hold what the last round left for them.  At the ends of
  // the array of costs one of the two slots belongs to another diagonal; it is not one that counts.
  lemma NeighbourSlots<T>(p: Problem<T>, costs: seq<int>, r: nat, k: int)
    requires 0 < r <= p.N() + p.M() && Visits(r, k) && Recorded(p, costs, r, k)
    ensures k != 0 - r ==> costs[SlotOf(|costs|, k - 1)] == LeftCost(p, r, k)
    ensures k != r ==> costs[SlotOf(|costs|, k + 1)] == RightCost(p, r, k)
  {
    hide Far, Row;
    RoundReads(p, r, k);
    if k != 0 - r {
      RowAtSlot(p, r + 1, k - 1);
    }
    if k != r {
      RowAtSlot(p, r, k + 1);
    }
  }

  lemma MixedNext(costs: seq<int>, before: seq<int>, after: seq<int>, k: int, s: nat)
    requires Mixed(costs, before, after, k) && s < |costs| && DiagonalOf(|costs|, s) == k
    requires forall i :: 0 <= i < |costs| && DiagonalOf(|costs|, i) == k ==> i == s
    requires forall i :: 0 <= i < |costs| && DiagonalOf(|costs|, i) == k + 1 ==> before[i] == after[i]
    ensures Mixed(costs[s := after[s]], before, after, k + 2)
  {
  }

  // What the round leaves alone next to the diagonal that it writes.
  lemma RoundSkips<T>(p: Problem<T>, r: nat, k: int)
    requires Visits(r, k)
    ensures forall i :: 0 <= i < RowWidth(p) && DiagonalOf(RowWidth(p), i) == k + 1 ==>
              Row(p, r)[i] == Row(p, r + 1)[i]
  {
    hide Far, Row;
    forall i | 0 <= i < RowWidth(p) && DiagonalOf(RowWidth(p), i) == k + 1
      ensures Row(p, r)[i] == Row(p, r + 1)[i]
    {
      RowStep(p, r, i);
    }
  }

  // Recording the diagonal that the round has reached moves it on to its next one.
  lemma RecordNext<T>(p: Problem<T>, costs: seq<int>, r: nat, k: int)
    requires r <= p.N() + p.M() && Visits(r, k) && Recorded(p, costs, r, k)
    ensures 0 <= SlotOf(|costs|, k) < |costs|
    ensures Recorded(p, costs[SlotOf(|costs|, k) := Far(p, r, k)], r, k + 2)
  {
    hide Far, Row;
    OneSlot(|costs|, k);
    RowStep(p, r, SlotOf(|costs|, k));
    RoundSkips(p, r, k);
    hide SlotOf, DiagonalOf;
    MixedNext(costs, Row(p, r), Row(p, r + 1), k, SlotOf(|costs|, k));
  }

  /* -------- the search -------- */

  lemma EntranceIsStart<T>(p: Problem<T>, costs: seq<int>, r: nat, k: int)
    requires r <= p.N() + p.M() && Visits(r, k) && Recorded(p, costs, r, k)
    ensures |costs| == RowWidth(p)
    ensures 0 <= SlotOf(|costs|, k - 1) < |costs| && 0 <= SlotOf(|costs|, k + 1) < |costs|
    ensures var left, right := costs[SlotOf(|costs|, k - 1)], costs[SlotOf(|costs|, k + 1)];
            Start(p, r, k) == if FromAbove(r, k, left, right) then right else left + 1
  {
    hide Far;
    if r > 0 {
      NeighbourSlots(p, costs, r, k);
    }
  }

  // Where round iedit enters diagonal k: the two reads and the branch on them.
  method Enter<T>(p: Problem<T>, costs: array<IndexT>, iedit: IndexT, k: IndexT) returns (x: IndexT)
    requires 0 <= iedit <= p.N() + p.M() && Visits(iedit, k)
    requires Recorded(p, costs[..], iedit, k)
    requires Start(p, iedit, k) < 0x8000
    ensures x == Start(p, iedit, k)
  {
    hide Start, Recorded;
    EntranceIsStart(p, costs[..], iedit, k);
    var ncost := costs.Length;
    var index := CyclicIndex(ncost, k - 1);
    var prevk := costs[index];
    index := CyclicIndex(ncost, k + 1);
    var nextk := costs[index];
    hide SlotOf;
    if k == -iedit || (k != iedit && prevk < nextk) {
      x := nextk;
    } else {
      x := prevk + 1;
    }
  }

  // The innermost loop: slides from (start, start - k) along matching pairs.
  method Slide<T>(p: Problem<T>, start: IndexT, k: IndexT) returns (x: IndexT, y: IndexT)
    requires p.N() < 0x8000 && p.M() < 0x8000 && start >= 0 && 0 <= start - k < 0x8000
    ensures x == SnakeEnd(p, start, k) && y == x - k
  {
    x, y := start, start - k;
    while x < |p.orig| && y < |p.updated| && p.comparator(p.orig[x], p.updated[y])
      invariant 0 <= x && 0 <= y == x - k
      invariant SnakeEnd(p, x, k) == SnakeEnd(p, start, k)
    {
      x := x + 1;
      y := y + 1;
    }
  }

  // The inner loop body that both searches share: extends diagonal k in round iedit and records it.
  method Extend<T>(p: Problem<T>, costs: array<IndexT>, iedit: IndexT, k: IndexT)
    returns (x: IndexT, y: IndexT)
    requires p.N() + p.M() < 0x8000
    requires 0 <= iedit <= Corner(p) && Visits(iedit, k)
    requires Recorded(p, costs[..], iedit, k)
    modifies costs
    ensures x == Far(p, iedit, k) && y == x - k
    ensures Recorded(p, costs[..], iedit, k + 2)
  {
    CornerIsVisited(p);
    PointsInRange(p, iedit, k);
    PointsInTotal(p, iedit, k);
    hide Far, Start, SnakeEnd, Recorded, Corner;
    var start := Enter(p, costs, iedit, k);
    x, y := Slide(p, start, k);
    RecordNext(p, costs[..], iedit, k);
    EntranceIsStart(p, costs[..], iedit, k);
    var index := CyclicIndex(costs.Length, k);
    ghost var before := costs[..];
    costs[index] := x;
    assert costs[..] == before[index := x];
  }

  lemma CornerCost<T>(p: Problem<T>)
    ensures Corner(p) == p.N() + p.M() - 2 * Lcs(p, p.N(), p.M())
  {
  }

  // After diagonal k the round either is at the far corner, in the round of its distance, or goes on
  // to the next diagonal, in that round not past the one of the corner; then nothing narrows.
  lemma AfterDiagonal<T>(p: Problem<T>, iedit: int, k: int)
    requires Searchable(p) && 0 <= iedit <= Corner(p) && Visits(iedit, k)
    requires iedit == Corner(p) ==> k <= p.N() - p.M()
    ensures if PastCorner(p, Far(p, iedit, k), k) then iedit == Corner(p)
            else Narrow(k + 2) == k + 2 && (iedit == Corner(p) ==> k + 2 <= p.N() - p.M())
  {
    hide Far, Corner, Narrow;
    CornerIsVisited(p);
    StopsAtCorner(p, iedit, k);
    NarrowKeeps(k + 2);
  }

  // One round of either search: its diagonals in turn, until one gets to the far corner.
  method Round<T>(p: Problem<T>, costs: array<IndexT>, iedit: IndexT, n: IndexT, m: IndexT)
    returns (cont: bool)
    requires Searchable(p) && n == p.N() && m == p.M()
    requires 0 <= iedit <= Corner(p) && costs[..] == Row(p, iedit)
    modifies costs
    ensures cont <==> iedit < Corner(p)
    ensures cont ==> costs[..] == Row(p, iedit + 1)
  {
    CornerIsVisited(p);
    RoundBegins(p, iedit);
    hide Far, Recorded, Row, Corner, Narrow, Searchable;
    cont := true;
    var x: IndexT, y: IndexT;
    var k: IndexT := -iedit;
    while k <= iedit && cont
      invariant cont ==> Recorded(p, costs[..], iedit, k)
      invariant cont ==> -iedit <= k <= iedit + 2 && (iedit - k) % 2 == 0
      invariant cont && iedit == Corner(p) ==> k <= n - m
      invariant !cont ==> iedit == Corner(p)
      decreases cont, iedit + 2 - k
    {
      x, y := Extend(p, costs, iedit, k);
      AfterDiagonal(p, iedit, k);
      cont := x < n || y < m;
      k := Narrow(k + 2);
    }
    if cont {
      RoundEnds(p, costs[..], iedit, k);
    }
  }

  // myers_diff_min_edit: the number of edits of a cheapest script.  The loop stops one round before
  // the last one it might need and answers that round by default.
  method MyersDiffMinEdit<T>(p: Problem<T>) returns (minEdits: IndexT)
    requires Searchable(p)
    ensures minEdits == p.N() + p.M() - 2 * Lcs(p, p.N(), p.M())
  {
    CornerIsVisited(p);
    CornerCost(p);
    var n: IndexT := |p.orig|;
    var m: IndexT := |p.updated|;
    var maxEdit: IndexT := n + m;
    hide Row, Corner, Narrow;

    var ncost := 2 * maxEdit + 1;
    var costs := new IndexT[ncost](_ => 0);
    FirstRow(p, costs[..]);
    var cont := true;
    minEdits := maxEdit;
    var iedit: IndexT := 0;
    while iedit < maxEdit && cont
      invariant minEdits == if cont then maxEdit else Corner(p)
      invariant cont ==> 0 <= iedit <= Corner(p) && costs[..] == Row(p, iedit)
      decreases cont, maxEdit - iedit
    {
      cont := Round(p, costs, iedit, n, m);
      if !cont {
        minEdits := iedit;
      }
      NarrowKeeps(iedit + 1);
      iedit := Narrow(iedit + 1);
    }
  }

  // The first r rows of the trace, flattened.
  ghost function Rows<T>(p: Problem<T>, r: nat): seq<int> {
    if r == 0 then [] else Rows(p, r - 1) + Row(p, r - 1)
  }

  lemma NoRows<T>(p: Problem<T>)
    ensures Rows(p, 0) == []
  {
  }

  lemma NextRow<T>(p: Problem<T>, r: nat)
    ensures Rows(p, r + 1) == Rows(p, r) + Row(p, r)
  {
  }

  lemma {:induction false} RowsAt<T>(p: Problem<T>, rows: nat, r: nat, i: nat)
    requires r < rows && i < RowWidth(p)
    ensures |Rows(p, rows)| == rows * RowWidth(p)
    ensures 0 <= r * RowWidth(p) + i < rows * RowWidth(p)
    ensures Rows(p, rows)[r * RowWidth(p) + i] == Cost(p, r, DiagonalOf(RowWidth(p), i))
    decreases rows
  {
    var w := RowWidth(p);
    assert rows * w == (rows - 1) * w + w;
    if rows == 1 {
    } else if r == rows - 1 {
      RowsAt(p, rows - 1, 0, 0);
    } else {
      RowsAt(p, rows - 1, r, i);
    }
  }

  // myers_diff_trace: one row of costs for every round, taken before the round, ending with the
  // round that gets to the far corner.
  method MyersDiffTrace<T>(p: Problem<T>) returns (trace: seq<IndexT>)
    requires Searchable(p)
    ensures 0 <= Corner(p) && trace == Rows(p, Corner(p) + 1)
    ensures |trace| == (Corner(p) + 1) * RowWidth(p)
  {
    CornerIsVisited(p);
    NoRows(p);
    var n: IndexT := |p.orig|;
    var m: IndexT := |p.updated|;
    var maxEdit: IndexT := n + m;
    hide Row, Corner, Rows, Narrow;

    var ncost := 2 * maxEdit + 1;
    var costs := new IndexT[ncost](_ => 0);
    FirstRow(p, costs[..]);
    trace := [];
    var cont := true;
    var iedit: IndexT := 0;
    while iedit <= maxEdit && cont
      invariant cont ==> 0 <= iedit <= Corner(p) && costs[..] == Row(p, iedit) && trace == Rows(p, iedit)
      invariant !cont ==> trace == Rows(p, Corner(p) + 1)
      decreases cont, maxEdit - iedit
    {
      trace := trace + costs[..];
      NextRow(p, iedit);
      cont := Round(p, costs, iedit, n, m);
      NarrowKeeps(iedit + 1);
      iedit := Narrow(iedit + 1);
    }
    RowsAt(p, Corner(p) + 1, 0, 0);
  }
}
