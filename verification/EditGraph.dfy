/**
 The edit graph of two arrays, and the distances in it.

 A point (x, y) stands for "x elements of the original and y elements of the updated array are
 consumed".  A step right deletes, a step down adds, and a diagonal step keeps a pair of elements
 that the comparator accepts.  The search of myers_diff.h runs past the n x m rectangle, so the
 graph here covers the whole quadrant; pairs match only inside the rectangle.
 */
module EditGraph {

  // The two arrays handed to the diff functions together with the comparator, which may be any
  // relation: nothing below assumes it is reflexive, symmetric or transitive.
  datatype Problem<!T> = Problem(orig: seq<T>, updated: seq<T>, comparator: (T, T) -> bool) {

    function N(): nat { |orig| }

    function M(): nat { |updated| }

    predicate Match(x: int, y: int) {
      0 <= x < |orig| && 0 <= y < |updated| && comparator(orig[x], updated[y])
    }
  }

  // Length of the longest common subsequence of the first x and the first y elements, by the
  // textbook recursion.
  ghost function Lcs<T>(p: Problem<T>, x: nat, y: nat): nat
    decreases x + y
  {
    if x == 0 || y == 0 then 0
    else if p.Match(x - 1, y - 1) then 1 + Lcs(p, x - 1, y - 1)
    else if Lcs(p, x - 1, y) >= Lcs(p, x, y - 1) then Lcs(p, x - 1, y)
    else Lcs(p, x, y - 1)
  }

  // The number of non-diagonal steps needed to get from the origin to (x, y); WalkNeeds and
  // BestWalk below show that this is what it is.
  ghost function Dist<T>(p: Problem<T>, x: nat, y: nat): int {
    x + y - 2 * Lcs(p, x, y)
  }

  ghost function Corner<T>(p: Problem<T>): int {
    Dist(p, p.N(), p.M())
  }

  /* -------- how Lcs and Dist vary between neighbours -------- */

  lemma {:induction false} LcsGrowsByAtMostOne<T>(p: Problem<T>, x: nat, y: nat)
    ensures Lcs(p, x, y) <= Lcs(p, x + 1, y) <= Lcs(p, x, y) + 1
    ensures Lcs(p, x, y) <= Lcs(p, x, y + 1) <= Lcs(p, x, y) + 1
    decreases x + y
  {
    if y > 0 {
      LcsGrowsByAtMostOne(p, x, y - 1);
    }
    if x == 0 {
    } else {
      LcsGrowsByAtMostOne(p, x - 1, y);
    }
  }

  lemma {:induction false} LcsBounds<T>(p: Problem<T>, x: nat, y: nat)
    ensures Lcs(p, x, y) <= x && Lcs(p, x, y) <= y
    ensures Lcs(p, x, y) <= p.N() && Lcs(p, x, y) <= p.M()
    decreases x + y
  {
    if x == 0 || y == 0 {
    } else {
      LcsBounds(p, x - 1, y - 1);
      LcsBounds(p, x - 1, y);
      LcsBounds(p, x, y - 1);
    }
  }

  // A step right or down changes the distance by exactly one.
  lemma DistStep<T>(p: Problem<T>, x: nat, y: nat)
    ensures Dist(p, x + 1, y) == Dist(p, x, y) + 1 || Dist(p, x + 1, y) == Dist(p, x, y) - 1
    ensures Dist(p, x, y + 1) == Dist(p, x, y) + 1 || Dist(p, x, y + 1) == Dist(p, x, y) - 1
  {
    LcsGrowsByAtMostOne(p, x, y);
  }

  // A step along a diagonal keeps the distance if the pair matches; otherwise the distance is one
  // more than that of the nearer of the two points in between.  It never shrinks.
  lemma DistDiagonal<T>(p: Problem<T>, x: nat, y: nat)
    ensures p.Match(x, y) ==> Dist(p, x + 1, y + 1) == Dist(p, x, y)
    ensures !p.Match(x, y) && Dist(p, x + 1, y) <= Dist(p, x, y + 1) ==>
              Dist(p, x + 1, y + 1) == Dist(p, x + 1, y) + 1
    ensures !p.Match(x, y) && Dist(p, x, y + 1) <= Dist(p, x + 1, y) ==>
              Dist(p, x + 1, y + 1) == Dist(p, x, y + 1) + 1
    ensures Dist(p, x + 1, y + 1) == Dist(p, x, y) || Dist(p, x + 1, y + 1) == Dist(p, x, y) + 2
  {
    LcsGrowsByAtMostOne(p, x, y);
    LcsGrowsByAtMostOne(p, x + 1, y);
    LcsGrowsByAtMostOne(p, x, y + 1);
  }

  lemma {:induction false} DistMonotoneOnDiagonal<T>(p: Problem<T>, x: nat, y: nat, t: nat)
    ensures Dist(p, x, y) <= Dist(p, x + t, y + t)
    decreases t
  {
    if t == 0 {
    } else {
      DistMonotoneOnDiagonal(p, x, y, t - 1);
      DistDiagonal(p, x + t - 1, y + t - 1);
    }
  }

  lemma DistBounds<T>(p: Problem<T>, x: nat, y: nat)
    ensures x - y <= Dist(p, x, y) && y - x <= Dist(p, x, y) <= x + y
    ensures x - p.N() <= Dist(p, x, y) && y - p.M() <= Dist(p, x, y)
    ensures (Dist(p, x, y) + x - y) % 2 == 0
  {
    LcsBounds(p, x, y);
    assert Dist(p, x, y) + x - y == 2 * (x - Lcs(p, x, y));
  }

  // Past the right (bottom) edge of the rectangle, its last column (row) decides.
  lemma {:induction false} LcsPastRight<T>(p: Problem<T>, x: nat, y: nat)
    requires x >= p.N()
    ensures Lcs(p, x, y) == Lcs(p, p.N(), y)
    decreases x + y
  {
    if x == p.N() || y == 0 {
    } else {
      LcsPastRight(p, x - 1, y);
      LcsPastRight(p, x, y - 1);
      LcsGrowsByAtMostOne(p, p.N(), y - 1);
    }
  }

  lemma {:induction false} LcsPastBottom<T>(p: Problem<T>, x: nat, y: nat)
    requires y >= p.M()
    ensures Lcs(p, x, y) == Lcs(p, x, p.M())
    decreases x + y
  {
    if y == p.M() || x == 0 {
    } else {
      LcsPastBottom(p, x, y - 1);
      LcsPastBottom(p, x - 1, y);
      LcsGrowsByAtMostOne(p, x - 1, p.M());
    }
  }

  // Nothing outside the rectangle has more in common than its far corner.
  lemma {:induction false} LcsMonotone<T>(p: Problem<T>, x: nat, y: nat, dx: nat, dy: nat)
    ensures Lcs(p, x, y) <= Lcs(p, x + dx, y + dy)
    decreases dx + dy
  {
    if dx > 0 {
      LcsMonotone(p, x, y, dx - 1, dy);
      LcsGrowsByAtMostOne(p, x + dx - 1, y + dy);
    } else if dy > 0 {
      LcsMonotone(p, x, y, dx, dy - 1);
      LcsGrowsByAtMostOne(p, x + dx, y + dy - 1);
    } else {
    }
  }

  lemma LcsAtMostCorner<T>(p: Problem<T>, x: nat, y: nat)
    ensures Lcs(p, x, y) <= Lcs(p, p.N(), p.M())
  {
    var x' := if x < p.N() then p.N() else x;
    var y' := if y < p.M() then p.M() else y;
    LcsMonotone(p, x, y, x' - x, y' - y);
    LcsPastRight(p, x', y');
    LcsPastBottom(p, p.N(), y');
  }

  // Beyond the far corner every further step costs one.
  lemma DistBeyondCorner<T>(p: Problem<T>, x: nat, y: nat)
    requires x >= p.N() && y >= p.M()
    ensures Dist(p, x, y) == Corner(p) + (x - p.N()) + (y - p.M())
  {
    LcsPastRight(p, x, y);
    LcsPastBottom(p, p.N(), y);
  }

  ghost predicate NothingMatches<T>(p: Problem<T>) {
    forall x, y :: !p.Match(x, y)
  }

  lemma {:induction false} LcsOfDisjoint<T>(p: Problem<T>, x: nat, y: nat)
    requires NothingMatches(p)
    ensures Lcs(p, x, y) == 0
    decreases x + y
  {
    if x == 0 || y == 0 {
    } else {
      LcsOfDisjoint(p, x - 1, y);
      LcsOfDisjoint(p, x, y - 1);
    }
  }

  /* -------- walks: what Dist means -------- */

  datatype Move = Right | Down | Diagonal

  // path leads from the origin to (x, y); diagonal moves need a matching pair.
  ghost predicate Walk<T>(p: Problem<T>, path: seq<Move>, x: int, y: int)
    decreases |path|
  {
    if path == [] then x == 0 && y == 0
    else
      var init := path[..|path| - 1];
      match path[|path| - 1]
      case Right => x > 0 && Walk(p, init, x - 1, y)
      case Down => y > 0 && Walk(p, init, x, y - 1)
      case Diagonal => p.Match(x - 1, y - 1) && Walk(p, init, x - 1, y - 1)
  }

  ghost function Turns(path: seq<Move>): nat {
    if path == [] then 0
    else Turns(path[..|path| - 1]) + if path[|path| - 1] == Diagonal then 0 else 1
  }

  lemma {:induction false} WalkNeeds<T>(p: Problem<T>, path: seq<Move>, x: int, y: int)
    requires Walk(p, path, x, y)
    ensures x >= 0 && y >= 0 && Dist(p, x, y) <= Turns(path)
    decreases |path|
  {
    if path == [] {
    } else {
      var init := path[..|path| - 1];
      match path[|path| - 1]
      case Right =>
        WalkNeeds(p, init, x - 1, y);
        DistStep(p, x - 1, y);
      case Down =>
        WalkNeeds(p, init, x, y - 1);
        DistStep(p, x, y - 1);
      case Diagonal =>
        WalkNeeds(p, init, x - 1, y - 1);
        DistDiagonal(p, x - 1, y - 1);
    }
  }

  lemma {:induction false} BestWalk<T>(p: Problem<T>, x: nat, y: nat) returns (path: seq<Move>)
    ensures Walk(p, path, x, y) && Turns(path) == Dist(p, x, y)
    decreases x + y
  {
    if x == 0 && y == 0 {
      path := [];
    } else {
      var move: Move;
      if p.Match(x - 1, y - 1) {
        path := BestWalk(p, x - 1, y - 1);
        move := Diagonal;
      } else if y == 0 || (x > 0 && Lcs(p, x - 1, y) >= Lcs(p, x, y - 1)) {
        path := BestWalk(p, x - 1, y);
        move := Right;
      } else {
        path := BestWalk(p, x, y - 1);
        move := Down;
      }
      assert (path + [move])[..|path|] == path;
      path := path + [move];
    }
  }

  /* -------- furthest reaching points -------- */

  // (x, x - k) is the last point on diagonal k at distance d.
  ghost predicate IsFurthest<T>(p: Problem<T>, d: int, k: int, x: int) {
    0 <= x && 0 <= x - k && Dist(p, x, x - k) == d && Dist(p, x + 1, x + 1 - k) == d + 2
  }

  // The furthest point is the furthest one any walk with d non-diagonal moves can get to.
  lemma FurthestIsFurthestReaching<T>(p: Problem<T>, d: int, k: int, x: int)
    requires IsFurthest(p, d, k, x)
    ensures exists path :: Walk(p, path, x, x - k) && Turns(path) == d
    ensures forall path, x', y' :: Walk(p, path, x', y') && x' - y' == k && Turns(path) <= d ==> x' <= x
  {
    var best := BestWalk(p, x, x - k);
    forall path, x', y' | Walk(p, path, x', y') && x' - y' == k && Turns(path) <= d
      ensures x' <= x
    {
      WalkNeeds(p, path, x', y');
      if x' > x {
        DistMonotoneOnDiagonal(p, x + 1, x + 1 - k, x' - x - 1);
      }
    }
  }

  // (x, y) is at distance d and cannot be entered from diagonals k - 1 and k + 1 further along.
  // The search starts a snake at such a point and every point of the snake is such a point.
  ghost predicate OnSnake<T>(p: Problem<T>, d: int, x: int, y: int) {
    0 <= x && 0 <= y
    && Dist(p, x, y) == d && Dist(p, x, y + 1) == d + 1 && Dist(p, x + 1, y) == d + 1
  }

  // A snake goes on along a match and ends, at a furthest point, exactly where there is none.
  lemma SnakeStep<T>(p: Problem<T>, d: int, x: int, y: int)
    requires OnSnake(p, d, x, y)
    ensures p.Match(x, y) ==> OnSnake(p, d, x + 1, y + 1)
    ensures p.Match(x, y) <==> Dist(p, x + 1, y + 1) == d
    ensures !p.Match(x, y) <==> IsFurthest(p, d, x - y, x)
  {
    DistDiagonal(p, x, y);
    DistDiagonal(p, x + 1, y);
    DistDiagonal(p, x, y + 1);
    DistStep(p, x + 1, y + 1);
  }
}
