/**
 The second half of myers_diff.h: replaying the trace backwards and turning its points into a script.
 */
module Backtrace {
  import opened EditGraph
  import opened Scripts
  import opened Furthest
  import opened Search

  datatype Point = Point(x: int, y: int)

  /* -------- the points of the backtrace -------- */

  // The diagonal from which round d entered diagonal k.
  ghost function PrevDiagonal<T>(p: Problem<T>, d: int, k: int): (k': int)
    requires d > 0 && Visits(d, k)
    ensures Visits(d - 1, k')
  {
    if FromAbove(d, k, LeftCost(p, d, k), RightCost(p, d, k)) then k + 1 else k - 1
  }

  // The points on diagonal k from just above x down to `to`.
  ghost function Descend(x: int, k: int, to: int): seq<Point>
    decreases x - to
  {
    if x > to then [Point(x - 1, x - 1 - k)] + Descend(x - 1, k, to) else []
  }

  // The way back to the origin from the furthest point of round d on diagonal k: along the snake to
  // where the forward search entered it, then to the furthest point that it entered from.
  ghost function WayBack<T>(p: Problem<T>, d: int, k: int): seq<Point>
    requires Visits(d, k)
    decreases d
  {
    Descend(Far(p, d, k), k, Start(p, d, k)) +
    if d == 0 then []
    else
      var k' := PrevDiagonal(p, d, k);
      [Point(Far(p, d - 1, k'), Far(p, d - 1, k') - k')] + WayBack(p, d - 1, k')
  }

  // What is in row d of the trace.
  lemma TraceRow<T>(p: Problem<T>, d: nat, i: int)
    requires d <= Corner(p) && 0 <= i < RowWidth(p)
    ensures |Rows(p, Corner(p) + 1)| == (Corner(p) + 1) * RowWidth(p)
    ensures 0 <= d * RowWidth(p) + i < |Rows(p, Corner(p) + 1)|
    ensures Rows(p, Corner(p) + 1)[d * RowWidth(p) + i] == Cost(p, d, DiagonalOf(RowWidth(p), i))
  {
    hide Far, Row, Rows, Cost, Corner;
    RowsAt(p, Corner(p) + 1, d, i);
  }

  // The slots that the backtrace reads on its way from diagonal k are those of the neighbours.
  lemma NeighboursOf(w: int, d: int, k: int)
    requires w % 2 == 1 && 0 < d && 2 * d < w && -d <= k <= d
    ensures k != -d ==> DiagonalOf(w, SlotOf(w, k - 1)) == k - 1
    ensures k != d ==> DiagonalOf(w, SlotOf(w, k + 1)) == k + 1
  {
  }

  // In row d they hold the same as the forward search has seen in round d.
  lemma TraceNeighbours<T>(p: Problem<T>, d: nat, k: int)
    requires d <= p.N() + p.M() && Visits(d, k)
    ensures var w := RowWidth(p);
            var left := Cost(p, d, DiagonalOf(w, SlotOf(w, k - 1)));
            var right := Cost(p, d, DiagonalOf(w, SlotOf(w, k + 1)));
            && (d == 0 ==> left == right == 0)
            && (d > 0 && k != 0 - d ==> left == LeftCost(p, d, k))
            && (d > 0 && k != d ==> right == RightCost(p, d, k))
  {
    hide Cost, Far, LeftCost, RightCost, SlotOf, DiagonalOf, Visits;
    var w := RowWidth(p);
    NoCostYet(p, DiagonalOf(w, SlotOf(w, k - 1)));
    NoCostYet(p, DiagonalOf(w, SlotOf(w, k + 1)));
    if d > 0 {
      RoundReads(p, d, k);
      VisitsWithin(d, k);
      NeighboursOf(w, d, k);
    }
  }

  lemma NoCostYet<T>(p: Problem<T>, k: int)
    ensures Cost(p, 0, k) == 0
  {
  }

  lemma VisitsWithin(d: int, k: int)
    requires Visits(d, k)
    ensures -d <= k <= d
  {
  }

  // int32_t: the type in which the backtrace computes the index into the flattened trace.
  type Int32 = i: int | -0x8000_0000 <= i < 0x8000_0000

  lemma FlatIndexFits(r: int, w: int)
    requires -1 <= r <= MAX_TOTAL && 0 < w < 0x8000
    ensures -0x8000 <= r * w <= MAX_TOTAL * 0x8000
  {
    assert r * w <= MAX_TOTAL * w;
    assert r * w >= -1 * w;
  }

  lemma QuotientIsUnique(a: int, q: int, width: int, r: int)
    requires a * width == q * width + r && 0 <= r < width
    ensures a == q
  {
    if a > q {
      MulAtLeast(a - q, width);
    } else if a < q {
      MulAtLeast(q - a, width);
    }
  }

  lemma MulAtLeast(a: int, width: int)
    requires a >= 1 && width > 0
    ensures a * width >= width
  {
  }

  lemma RowCount(rows: int, width: int)
    requires width > 0
    ensures rows * width / width == rows
  {
    QuotientIsUnique(rows, rows * width / width, width, rows * width % width);
  }

  // Reading slot i of row iedit of the flattened trace.
  method TraceAt<T>(p: Problem<T>, traces: seq<IndexT>, iedit: IndexT, ncost: IndexT, i: int)
    returns (cost: IndexT)
    requires Supported(p) && ncost == RowWidth(p) && 0 <= i < ncost
    requires 0 <= iedit <= Corner(p) && traces == Rows(p, Corner(p) + 1)
    ensures cost == Cost(p, iedit, DiagonalOf(ncost, i))
  {
    hide Rows, Cost, Corner, DiagonalOf;
    TraceRow(p, iedit, i);
    CornerIsVisited(p);
    FlatIndexFits(iedit, ncost);
    var flat: Int32 := iedit * ncost + i;
    cost := traces[flat];
  }

  // The upper half of the loop body of myers_diff_backtrace: from row iedit of the trace, the
  // diagonal that the forward search came from and where it left that diagonal.
  method PreviousPoint<T>(p: Problem<T>, traces: seq<IndexT>, iedit: IndexT, ncost: IndexT, k: IndexT)
    returns (prevX: IndexT, prevK: IndexT)
    requires Supported(p) && ncost == RowWidth(p)
    requires 0 <= iedit <= Corner(p) && Visits(iedit, k) && traces == Rows(p, Corner(p) + 1)
    ensures iedit == 0 ==> prevK == 1 && prevX == 0
    ensures iedit > 0 ==> prevK == PrevDiagonal(p, iedit, k) && prevX == Far(p, iedit - 1, prevK)
  {
    hide Far, Rows, Cost, Corner;
    CornerIsVisited(p);
    var index := CyclicIndex(ncost, k - 1);
    var left := TraceAt(p, traces, iedit, ncost, index);
    index := CyclicIndex(ncost, k + 1);
    var right := TraceAt(p, traces, iedit, ncost, index);
    TraceNeighbours(p, iedit, k);
    hide SlotOf, DiagonalOf;
    if k == -iedit || (k != iedit && left < right) {
      prevK := k + 1;
    } else {
      prevK := k - 1;
    }
    index := CyclicIndex(ncost, prevK);
    prevX := TraceAt(p, traces, iedit, ncost, index);
  }

  // One iteration of the backtrace, in terms of the forward search.
  lemma BackStep<T>(p: Problem<T>, d: int, k: int)
    requires Visits(d, k)
    ensures 0 <= Start(p, d, k) <= Far(p, d, k) && 0 <= Start(p, d, k) - k
    ensures d == 0 ==> Start(p, d, k) == 0 && WayBack(p, d, k) == Descend(Far(p, d, k), k, 0) + []
    ensures d > 0 ==>
              var k' := PrevDiagonal(p, d, k);
              var far := Far(p, d - 1, k');
              && 0 <= far && 0 <= far - k' && (k' == k - 1 || k' == k + 1)
              && Start(p, d, k) == (if k' == k + 1 then far else far + 1)
              && WayBack(p, d, k) == Descend(Far(p, d, k), k, Start(p, d, k)) +
                                     ([Point(far, far - k')] + WayBack(p, d - 1, k'))
  {
    PointsInRange(p, d, k);
    if d > 0 {
      PointsInRange(p, d - 1, PrevDiagonal(p, d, k));
    }
  }

  // The inner loop of myers_diff_backtrace: back along the snake to where it started, which is level
  // with the previous point in x or in y.
  method DescendSnake(points: seq<Point>, x: IndexT, y: IndexT, prevX: IndexT, prevY: IndexT, ghost start: int)
    returns (points': seq<Point>)
    requires 0 <= start <= x && 0 <= start - (x - y)
    requires if start == prevX then prevY <= start - (x - y) else start > prevX && start - (x - y) == prevY
    ensures points' == points + Descend(x, x - y, start)
  {
    points' := points;
    var px: IndexT, py: IndexT := x, y;
    while px > prevX && py > prevY
      invariant start <= px <= x && py == px - (x - y)
      invariant points' + Descend(px, x - y, start) == points + Descend(x, x - y, start)
    {
      px, py := px - 1, py - 1;
      points' := points' + [Point(px, py)];
    }
  }

  // The loop body of myers_diff_backtrace.
  method BackRound<T>(p: Problem<T>, traces: seq<IndexT>, iedit: IndexT, ncost: IndexT,
                      points: seq<Point>, x: IndexT, y: IndexT)
    returns (points': seq<Point>, prevX: IndexT, prevY: IndexT)
    requires Supported(p) && ncost == RowWidth(p)
    requires 0 <= iedit <= Corner(p) && traces == Rows(p, Corner(p) + 1)
    requires Visits(iedit, x - y) && x == Far(p, iedit, x - y)
    requires 0 <= x <= p.N() && 0 <= y <= p.M()
    ensures iedit == 0 ==> points' == points + WayBack(p, iedit, x - y)
    ensures iedit > 0 ==>
              && Visits(iedit - 1, prevX - prevY) && prevX == Far(p, iedit - 1, prevX - prevY)
              && 0 <= prevX <= p.N() && 0 <= prevY <= p.M()
              && points' + WayBack(p, iedit - 1, prevX - prevY) == points + WayBack(p, iedit, x - y)
  {
    hide Far, Rows, WayBack, Start, PrevDiagonal, Corner, Descend, Visits;
    var k: IndexT := x - y;
    BackStep(p, iedit, k);
    var prevK: IndexT;
    prevX, prevK := PreviousPoint(p, traces, iedit, ncost, k);
    prevY := prevX - prevK;

    points' := DescendSnake(points, x, y, prevX, prevY, Start(p, iedit, k));

    if iedit > 0 {
      points' := points' + [Point(prevX, prevY)];
    }
  }

  // Conversion of an int to size_t.
  function ToSize(i: int): nat
    requires -0x8000 <= i
  {
    if i < 0 then i + 0x1_0000_0000_0000_0000 else i
  }

  lemma {:induction false} ProductGrows(a: nat, b: nat, width: nat)
    requires a <= b
    ensures a * width <= b * width
    decreases b - a
  {
    if a == b {
    } else {
      ProductGrows(a + 1, b, width);
      assert (a + 1) * width == a * width + width;
    }
  }

  lemma QuotientOf(size: nat, rows: nat, width: nat, divisor: nat)
    requires rows < 0x8000 && 0 < width < 0x10000 && size == rows * width
    requires if width < 0x8000 then divisor == width else divisor > 0x8000_0000
    ensures divisor > 0 && size / divisor == if width < 0x8000 then rows else 0
  {
    if width < 0x8000 {
      RowCount(rows, width);
    } else {
      ProductGrows(rows, 0x8000, width);
      DivisorTooLarge(size, divisor);
    }
  }

  lemma DivisorTooLarge(size: nat, divisor: nat)
    requires size < divisor
    ensures size / divisor == 0
  {
  }

  // The number of rows, which the backtrace finds by dividing by the narrowed row width: that is
  // negative for sizes that are not supported, and becomes a divisor larger than any trace.
  method CountRows(size: nat, ghost rows: nat, ghost width: nat, ncost: IndexT) returns (ntraces: IndexT)
    requires rows < 0x8000 && 0 < width < 0x10000 && size == rows * width && ncost == Narrow(width)
    ensures ntraces == if width < 0x8000 then rows else 0
  {
    var divisor := ToSize(ncost);
    QuotientOf(size, rows, width, divisor);
    NarrowKeeps(rows);
    hide Narrow, ToSize;
    var quotient := size / divisor;
    NarrowKeeps(quotient);
    ntraces := Narrow(quotient);
  }

  // myers_diff_backtrace.  It finds the way back if the size is supported, and else no points at all.
  method MyersDiffBacktrace<T>(p: Problem<T>) returns (points: seq<Point>)
    requires Searchable(p)
    ensures Visits(Corner(p), p.N() - p.M())
    ensures points == if Supported(p) then WayBack(p, Corner(p), p.N() - p.M()) else []
  {
    CornerIsVisited(p);
    NarrowKeeps(RowWidth(p));
    hide Far, Rows, WayBack, Corner, Visits, Narrow;
    var x: IndexT := |p.orig|;
    var y: IndexT := |p.updated|;
    var ncost: IndexT := Narrow(2 * (x + y) + 1);

    var traces := MyersDiffTrace(p);

    points := [];
    var ntraces := CountRows(|traces|, Corner(p) + 1, RowWidth(p), ncost);
    var iedit: IndexT := ntraces - 1;
    while iedit >= 0
      invariant -1 <= iedit <= Corner(p)
      invariant iedit >= 0 ==> Supported(p) && 0 <= x <= p.N() && 0 <= y <= p.M() && Visits(iedit, x - y)
      invariant iedit >= 0 ==> x == Far(p, iedit, x - y)
      invariant points + (if iedit < 0 then [] else WayBack(p, iedit, x - y)) ==
                if Supported(p) then WayBack(p, Corner(p), p.N() - p.M()) else []
    {
      points, x, y := BackRound(p, traces, iedit, ncost, points, x, y);
      iedit := iedit - 1;
    }
  }

  /* -------- the points form a path -------- */

  // One step back towards the origin, inside the rectangle, diagonal only on a matching pair.
  ghost predicate Step<T>(p: Problem<T>, a: Point, b: Point) {
    && 0 <= b.x <= a.x <= p.N() && 0 <= b.y <= a.y <= p.M()
    && (b == Point(a.x, a.y - 1) || b == Point(a.x - 1, a.y)
        || (b == Point(a.x - 1, a.y - 1) && p.Match(b.x, b.y)))
  }

  // From `from`, the points lead step by step to the origin.
  ghost predicate Chain<T>(p: Problem<T>, from: Point, points: seq<Point>)
    decreases |points|
  {
    if points == [] then from == Point(0, 0)
    else Step(p, from, points[0]) && Chain(p, points[0], points[1..])
  }

  ghost predicate IsTurn(a: Point, b: Point) {
    a.x == b.x || a.y == b.y
  }

  ghost function ChainTurns(from: Point, points: seq<Point>): nat
    decreases |points|
  {
    if points == [] then 0
    else (if IsTurn(from, points[0]) then 1 else 0) + ChainTurns(points[0], points[1..])
  }

  lemma ChainPrepend<T>(p: Problem<T>, from: Point, next: Point, rest: seq<Point>)
    requires Step(p, from, next) && Chain(p, next, rest)
    ensures Chain(p, from, [next] + rest)
    ensures ChainTurns(from, [next] + rest) == ChainTurns(next, rest) + if IsTurn(from, next) then 1 else 0
  {
    assert ([next] + rest)[1..] == rest;
  }

  lemma {:induction false} DescendIsChain<T>(p: Problem<T>, x: int, k: int, to: int, rest: seq<Point>)
    requires to <= x && 0 <= to && 0 <= to - k && x <= p.N() && x - k <= p.M()
    requires forall z, z' :: to <= z < x && z' == z - k ==> p.Match(z, z')
    requires Chain(p, Point(to, to - k), rest)
    ensures Chain(p, Point(x, x - k), Descend(x, k, to) + rest)
    ensures ChainTurns(Point(x, x - k), Descend(x, k, to) + rest) == ChainTurns(Point(to, to - k), rest)
    decreases x
  {
    hide Chain, ChainTurns;
    if to == x {
      assert Descend(x, k, to) + rest == rest;
    } else {
      DescendIsChain(p, x - 1, k, to, rest);
      ChainPrepend(p, Point(x, x - k), Point(x - 1, x - 1 - k), Descend(x - 1, k, to) + rest);
      assert Descend(x, k, to) + rest == [Point(x - 1, x - 1 - k)] + (Descend(x - 1, k, to) + rest);
    }
  }

  // Back along the snake of round d on diagonal k.
  lemma SnakeIsChain<T>(p: Problem<T>, d: int, k: int, rest: seq<Point>)
    requires Visits(d, k) && Far(p, d, k) <= p.N() && Far(p, d, k) - k <= p.M()
    requires Chain(p, Point(Start(p, d, k), Start(p, d, k) - k), rest)
    ensures var all := Descend(Far(p, d, k), k, Start(p, d, k)) + rest;
            && Chain(p, Point(Far(p, d, k), Far(p, d, k) - k), all)
            && ChainTurns(Point(Far(p, d, k), Far(p, d, k) - k), all) ==
               ChainTurns(Point(Start(p, d, k), Start(p, d, k) - k), rest)
  {
    hide Far, Start, Descend, SnakeEnd, Chain, ChainTurns;
    PointsInRange(p, d, k);
    forall z, z' | Start(p, d, k) <= z < Far(p, d, k) && z' == z - k
      ensures p.Match(z, z')
    {
      SnakeMatches(p, Start(p, d, k), k, z);
    }
    DescendIsChain(p, Far(p, d, k), k, Start(p, d, k), rest);
  }

  // The step by which the forward search entered diagonal k, backwards.
  lemma EntranceIsStep<T>(p: Problem<T>, d: int, k: int)
    requires d > 0 && Visits(d, k) && Far(p, d, k) <= p.N() && Far(p, d, k) - k <= p.M()
    ensures var start, k' := Start(p, d, k), PrevDiagonal(p, d, k);
            var prev := Point(Far(p, d - 1, k'), Far(p, d - 1, k') - k');
            Step(p, Point(start, start - k), prev) && IsTurn(Point(start, start - k), prev)
  {
    hide Far, Start, PrevDiagonal, WayBack;
    BackStep(p, d, k);
    PointsInRange(p, d, k);
  }

  // The way back from any furthest point inside the rectangle is a path with one turn per round.
  lemma {:induction false} WayBackIsChain<T>(p: Problem<T>, d: int, k: int)
    requires Visits(d, k) && Far(p, d, k) <= p.N() && Far(p, d, k) - k <= p.M()
    ensures Chain(p, Point(Far(p, d, k), Far(p, d, k) - k), WayBack(p, d, k))
    ensures ChainTurns(Point(Far(p, d, k), Far(p, d, k) - k), WayBack(p, d, k)) == d
    decreases d
  {
    hide Far, WayBack, PrevDiagonal, Start, Descend;
    BackStep(p, d, k);
    if d == 0 {
      SnakeIsChain(p, d, k, []);
    } else {
      var start, k' := Start(p, d, k), PrevDiagonal(p, d, k);
      var prev := Point(Far(p, d - 1, k'), Far(p, d - 1, k') - k');
      EntranceIsStep(p, d, k);
      WayBackIsChain(p, d - 1, k');
      hide Chain, ChainTurns;
      ChainPrepend(p, Point(start, start - k), prev, WayBack(p, d - 1, k'));
      SnakeIsChain(p, d, k, [prev] + WayBack(p, d - 1, k'));
    }
  }

  /* -------- from points to a script -------- */

  // The entry for a step from b to a.
  ghost function Entry<T>(p: Problem<T>, a: Point, b: Point): Diff<T>
    requires Supported(p) && Step(p, a, b)
  {
    if b.x == a.x then Diff(p.updated[b.y], -1, b.y, ADD)
    else if b.y == a.y then Diff(p.orig[b.x], b.x, -1, DEL)
    else Diff(p.orig[b.x], b.x, b.y, EQ)
  }

  ghost function ScriptOf<T>(p: Problem<T>, from: Point, points: seq<Point>): seq<Diff<T>>
    requires Supported(p) && Chain(p, from, points)
    decreases |points|
  {
    if points == [] then []
    else ScriptOf(p, points[0], points[1..]) + [Entry(p, from, points[0])]
  }

  lemma EntryExtends<T>(p: Problem<T>, a: Point, b: Point, s: seq<Diff<T>>)
    requires Supported(p) && Step(p, a, b) && Fits(p, s, b.x, b.y) && Numbered(s)
    ensures var t := s + [Entry(p, a, b)];
            && Fits(p, t, a.x, a.y) && Numbered(t)
            && Edits(t) == Edits(s) + if IsTurn(a, b) then 1 else 0
  {
    var t := s + [Entry(p, a, b)];
    assert t[..|t| - 1] == s;
    FitsNeeds(p, s, b.x, b.y);
  }

  lemma {:induction false} ChainIsScript<T>(p: Problem<T>, from: Point, points: seq<Point>)
    requires Supported(p) && Chain(p, from, points)
    ensures Fits(p, ScriptOf(p, from, points), from.x, from.y)
    ensures Numbered(ScriptOf(p, from, points))
    ensures Edits(ScriptOf(p, from, points)) == ChainTurns(from, points)
    decreases |points|
  {
    if points == [] {
    } else {
      hide Fits, Numbered, Edits, Entry, Step;
      ChainIsScript(p, points[0], points[1..]);
      EntryExtends(p, from, points[0], ScriptOf(p, points[0], points[1..]));
    }
  }

  // The script that myers_diff returns.
  ghost function MyersScript<T>(p: Problem<T>): seq<Diff<T>>
    requires Supported(p)
  {
    CornerIsVisited(p);
    WayBackIsChain(p, Corner(p), p.N() - p.M());
    ScriptOf(p, Point(p.N(), p.M()), WayBack(p, Corner(p), p.N() - p.M()))
  }

  // It is a script from all of orig to all of updated, with true positions, and no script is cheaper.
  lemma MyersScriptIsOptimal<T>(p: Problem<T>)
    requires Supported(p)
    ensures IsScript(p, MyersScript(p)) && Numbered(MyersScript(p))
    ensures Edits(MyersScript(p)) == p.N() + p.M() - 2 * Lcs(p, p.N(), p.M())
    ensures forall s :: IsScript(p, s) ==> Edits(MyersScript(p)) <= Edits(s)
  {
    WayBackIsOptimal(p);
    hide MyersScript;
    forall s | IsScript(p, s)
      ensures Edits(MyersScript(p)) <= Edits(s)
    {
      FitsNeeds(p, s, p.N(), p.M());
    }
  }

  lemma WayBackIsOptimal<T>(p: Problem<T>)
    requires Supported(p)
    ensures IsScript(p, MyersScript(p)) && Numbered(MyersScript(p)) && Edits(MyersScript(p)) == Corner(p)
  {
    CornerIsVisited(p);
    WayBackIsChain(p, Corner(p), p.N() - p.M());
    hide Far, WayBack, Visits, Corner;
    ChainIsScript(p, Point(p.N(), p.M()), WayBack(p, Corner(p), p.N() - p.M()));
  }

  lemma ScriptOfFirst<T>(p: Problem<T>, from: Point, points: seq<Point>)
    requires Supported(p) && Chain(p, from, points) && points != []
    ensures Step(p, from, points[0]) && Chain(p, points[0], points[1..])
    ensures ScriptOf(p, from, points) == ScriptOf(p, points[0], points[1..]) + [Entry(p, from, points[0])]
  {
  }

  lemma ScriptOfNone<T>(p: Problem<T>, from: Point)
    requires Supported(p) && Chain(p, from, [])
    ensures ScriptOf(p, from, []) == []
  {
  }

  lemma StepHasEntry<T>(p: Problem<T>, a: Point, b: Point)
    requires Supported(p) && Step(p, a, b)
    ensures 0 <= b.x < 0x8000 && 0 <= b.y < 0x8000
    ensures if b.x == a.x then b.y < p.M() && Entry(p, a, b) == Diff(p.updated[b.y], -1, b.y, ADD)
            else b.x < p.N() && Entry(p, a, b) == if b.y == a.y then Diff(p.orig[b.x], b.x, -1, DEL)
                                                  else Diff(p.orig[b.x], b.x, b.y, EQ)
  {
  }

  ghost function Reversed<T>(s: seq<T>): seq<T> {
    if s == [] then [] else [s[|s| - 1]] + Reversed(s[..|s| - 1])
  }

  lemma ReversedAppend<T>(s: seq<T>, e: T)
    ensures Reversed(s + [e]) == [e] + Reversed(s)
  {
    assert (s + [e])[..|s|] == s;
  }

  // The copy of a vector through its reverse iterators.
  method Reverse<T>(s: seq<T>) returns (r: seq<T>)
    ensures r == Reversed(s)
  {
    r := [];
    var i := |s|;
    assert s[..i] == s;
    while i > 0
      invariant 0 <= i <= |s| && r + Reversed(s[..i]) == Reversed(s)
    {
      assert s[..i][..i - 1] == s[..i - 1];
      i := i - 1;
      r := r + [s[i]];
    }
  }

  // What myers_diff returns for any size that it can search: for those that the backtrace does not
  // support, nothing.
  ghost function Returned<T>(p: Problem<T>): seq<Diff<T>> {
    if Supported(p) then MyersScript(p) else []
  }

  // So of the arrays that it can search, it returns a script exactly for those of supported size.
  lemma ReturnsScriptIff<T>(p: Problem<T>)
    requires Searchable(p)
    ensures IsScript(p, Returned(p)) <==> Supported(p)
  {
    hide MyersScript;
    if Supported(p) {
      MyersScriptIsOptimal(p);
    }
  }

  // The loop of myers_diff that turns points into entries.
  method ToEntries<T>(p: Problem<T>, points: seq<Point>) returns (diffs: seq<Diff<T>>)
    requires points == [] || (Supported(p) && Chain(p, Point(p.N(), p.M()), points))
    ensures Reversed(diffs) == if points == [] then [] else ScriptOf(p, Point(p.N(), p.M()), points)
  {
    hide Chain, ScriptOf, Step, Entry;
    diffs := [];
    var prev := Point(|p.orig|, |p.updated|);
    for i := 0 to |points|
      invariant points != [] ==> Supported(p) && Chain(p, prev, points[i..])
      invariant points != [] ==>
                  ScriptOf(p, prev, points[i..]) + Reversed(diffs) == ScriptOf(p, Point(p.N(), p.M()), points)
      invariant points == [] ==> diffs == []
    {
      var next := points[i];
      var entry: Diff<T>;
      ScriptOfFirst(p, prev, points[i..]);
      StepHasEntry(p, prev, next);
      if next.x == prev.x {
        entry := Diff(p.updated[next.y], -1, next.y, ADD);
      } else if next.y == prev.y {
        entry := Diff(p.orig[next.x], next.x, -1, DEL);
      } else {
        entry := Diff(p.orig[next.x], next.x, next.y, EQ);
      }
      assert points[i..][1..] == points[i + 1..];
      ReversedAppend(diffs, entry);
      diffs := diffs + [entry];
      prev := next;
    }
    if points != [] {
      ScriptOfNone(p, prev);
    }
  }

  lemma PointsGiveReturned<T>(p: Problem<T>, points: seq<Point>)
    requires Visits(Corner(p), p.N() - p.M())
    requires points == if Supported(p) then WayBack(p, Corner(p), p.N() - p.M()) else []
    ensures points == [] || (Supported(p) && Chain(p, Point(p.N(), p.M()), points))
    ensures Returned(p) == if points == [] then [] else ScriptOf(p, Point(p.N(), p.M()), points)
  {
    hide WayBack, Far, Chain, ChainTurns, ScriptOf, Corner, Visits;
    if Supported(p) {
      CornerIsVisited(p);
      WayBackIsChain(p, Corner(p), p.N() - p.M());
      if points == [] {
        ScriptOfNone(p, Point(p.N(), p.M()));
      }
    }
  }

  // myers_diff.
  method MyersDiff<T>(p: Problem<T>) returns (script: seq<Diff<T>>)
    requires Searchable(p)
    ensures script == Returned(p)
    ensures Supported(p) ==> IsScript(p, script) && Numbered(script)
    ensures Supported(p) ==> Edits(script) == p.N() + p.M() - 2 * Lcs(p, p.N(), p.M())
  {
    if Supported(p) {
      MyersScriptIsOptimal(p);
    }
    var points := MyersDiffBacktrace(p);
    PointsGiveReturned(p, points);
    hide *;
    var diffs := ToEntries(p, points);
    script := Reverse(diffs);
  }
}
