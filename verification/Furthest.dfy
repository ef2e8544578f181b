/**
 The recurrence behind Myers' greedy search, and why it computes furthest reaching points, stops
 exactly at the far corner and stays within int16_t.
 */
module Furthest {
  import opened EditGraph

  // Diagonals that round d of the search visits.
  predicate Visits(d: int, k: int) {
    -d <= k <= d && (d - k) % 2 == 0
  }

  // Where the snake on diagonal k that begins at (x, x - k) ends.
  function SnakeEnd<T>(p: Problem<T>, x: int, k: int): int
    decreases p.N() - x
  {
    if p.Match(x, x - k) then SnakeEnd(p, x + 1, k) else x
  }

  // The search enters diagonal k from above, by a step down, or else from the left; left and right
  // are the values of diagonals k - 1 and k + 1.
  predicate FromAbove(d: int, k: int, left: int, right: int) {
    k == -d || (k != d && left < right)
  }

  function Entrance(d: int, k: int, left: int, right: int): int {
    if FromAbove(d, k, left, right) then right else left + 1
  }

  // The value that round d leaves in the slot of diagonal k.
  ghost function Far<T>(p: Problem<T>, d: int, k: int): int
    requires Visits(d, k)
    decreases d, 0
  {
    if d == 0 then SnakeEnd(p, 0, 0)
    else SnakeEnd(p, Entrance(d, k, LeftCost(p, d, k), RightCost(p, d, k)), k)
  }

  // What round d - 1 left in the slots of the neighbouring diagonals, where it has visited them.
  ghost function LeftCost<T>(p: Problem<T>, d: int, k: int): int
    requires d > 0 && Visits(d, k)
    decreases d - 1, 1
  {
    if k == -d then 0 else Far(p, d - 1, k - 1)
  }

  ghost function RightCost<T>(p: Problem<T>, d: int, k: int): int
    requires d > 0 && Visits(d, k)
    decreases d - 1, 1
  {
    if k == d then 0 else Far(p, d - 1, k + 1)
  }

  // Where round d enters diagonal k.
  ghost function Start<T>(p: Problem<T>, d: int, k: int): int
    requires Visits(d, k)
  {
    if d == 0 then 0 else Entrance(d, k, LeftCost(p, d, k), RightCost(p, d, k))
  }

  /* -------- the recurrence computes furthest reaching points -------- */

  lemma {:induction false} SnakeFollows<T>(p: Problem<T>, d: int, x: int, k: int)
    requires OnSnake(p, d, x, x - k)
    ensures x <= SnakeEnd(p, x, k) && IsFurthest(p, d, k, SnakeEnd(p, x, k))
    decreases p.N() - x
  {
    SnakeStep(p, d, x, x - k);
    if !p.Match(x, x - k) {
    } else {
      SnakeFollows(p, d, x + 1, k);
    }
  }

  lemma {:induction false} SnakeMatches<T>(p: Problem<T>, x: int, k: int, z: int)
    requires x <= z < SnakeEnd(p, x, k)
    ensures p.Match(z, z - k)
    decreases p.N() - x
  {
    if x == z {
    } else {
      SnakeMatches(p, x + 1, k, z);
    }
  }

  // At or past the furthest point of a neighbouring diagonal, that diagonal is not an entrance.
  lemma NoEntrance<T>(p: Problem<T>, d: int, k: int, far: int, x: int)
    requires IsFurthest(p, d, k, far) && x > far
    ensures Dist(p, x, x - k) >= d + 2
  {
    DistMonotoneOnDiagonal(p, far + 1, far + 1 - k, x - far - 1);
  }

  // Entering diagonal k by a step down from the furthest point of diagonal k + 1, when diagonal
  // k - 1 does not reach as far.
  lemma EnterDown<T>(p: Problem<T>, d: int, k: int, left: int, right: int)
    requires IsFurthest(p, d - 1, k + 1, right)
    requires k == -d || (left < right && IsFurthest(p, d - 1, k - 1, left))
    ensures OnSnake(p, d, right, right - k)
  {
    if k == -d {
      DistBounds(p, right, right - k + 1);
    } else {
      NoEntrance(p, d - 1, k - 1, left, right);
    }
    DistStep(p, right, right - k - 1);
    DistStep(p, right, right - k);
  }

  // Entering diagonal k by a step right from the furthest point of diagonal k - 1, when diagonal
  // k + 1 does not reach further.
  lemma EnterRight<T>(p: Problem<T>, d: int, k: int, left: int, right: int)
    requires IsFurthest(p, d - 1, k - 1, left)
    requires k == d || (right <= left && IsFurthest(p, d - 1, k + 1, right))
    ensures OnSnake(p, d, left + 1, left + 1 - k)
  {
    if k == d {
      DistBounds(p, left + 2, left + 1 - k);
    } else {
      NoEntrance(p, d - 1, k + 1, right, left + 2);
    }
    DistStep(p, left, left - k + 1);
    DistStep(p, left + 1, left + 1 - k);
  }

  // The entrance the search chooses is on a snake.
  lemma EntranceOnSnake<T>(p: Problem<T>, d: int, k: int, left: int, right: int)
    requires d > 0 && Visits(d, k)
    requires k != -d ==> IsFurthest(p, d - 1, k - 1, left)
    requires k != d ==> IsFurthest(p, d - 1, k + 1, right)
    ensures OnSnake(p, d, Entrance(d, k, left, right), Entrance(d, k, left, right) - k)
  {
    if FromAbove(d, k, left, right) {
      EnterDown(p, d, k, left, right);
    } else {
      EnterRight(p, d, k, left, right);
    }
  }

  // The value that round d leaves for diagonal k is the x of its furthest reaching point.
  lemma {:induction false} FarIsFurthest<T>(p: Problem<T>, d: int, k: int)
    requires Visits(d, k)
    ensures OnSnake(p, d, Start(p, d, k), Start(p, d, k) - k)
    ensures Start(p, d, k) <= Far(p, d, k) && IsFurthest(p, d, k, Far(p, d, k))
    decreases d, 1
  {
    if d == 0 {
      OriginOnSnake(p);
    } else {
      NeighboursAreFurthest(p, d, k);
      EntranceOnSnake(p, d, k, LeftCost(p, d, k), RightCost(p, d, k));
    }
    SnakeFollows(p, d, Start(p, d, k), k);
  }

  lemma OriginOnSnake<T>(p: Problem<T>)
    ensures OnSnake(p, 0, 0, 0)
  {
    DistBounds(p, 0, 1);
    DistBounds(p, 1, 0);
  }

  lemma {:induction false} NeighboursAreFurthest<T>(p: Problem<T>, d: int, k: int)
    requires d > 0 && Visits(d, k)
    ensures k != -d ==> IsFurthest(p, d - 1, k - 1, LeftCost(p, d, k))
    ensures k != d ==> IsFurthest(p, d - 1, k + 1, RightCost(p, d, k))
    decreases d, 0
  {
    hide Start, IsFurthest, OnSnake, SnakeEnd;
    if k != -d {
      FarIsFurthest(p, d - 1, k - 1);
    }
    if k != d {
      FarIsFurthest(p, d - 1, k + 1);
    }
  }

  // There is only one: a value is the furthest on diagonal k at distance d if and only if it is Far.
  lemma FurthestIsFar<T>(p: Problem<T>, d: int, k: int, x: int)
    requires Visits(d, k)
    ensures IsFurthest(p, d, k, x) <==> x == Far(p, d, k)
  {
    FarIsFurthest(p, d, k);
    if IsFurthest(p, d, k, x) {
      if x < Far(p, d, k) {
        NoEntrance(p, d, k, x, Far(p, d, k));
      } else if x > Far(p, d, k) {
        NoEntrance(p, d, k, Far(p, d, k), x);
      }
    }
  }

  /* -------- the stopping point -------- */

  predicate PastCorner<T>(p: Problem<T>, x: int, k: int) {
    x >= p.N() && x - k >= p.M()
  }

  // Round d is past the corner on diagonal k exactly when d is the distance of the corner and k its
  // diagonal, and then it is at the corner, although the search may run past either edge before.
  // Hence the loops stop by round n + m.
  lemma StopsAtCorner<T>(p: Problem<T>, d: int, k: int)
    requires Visits(d, k) && d <= Corner(p)
    ensures PastCorner(p, Far(p, d, k), k) <==> d == Corner(p) && k == p.N() - p.M()
    ensures PastCorner(p, Far(p, d, k), k) ==> Far(p, d, k) == p.N()
  {
    var x := Far(p, d, k);
    FarIsFurthest(p, d, k);
    if PastCorner(p, x, k) {
      DistBeyondCorner(p, x, x - k);
    } else if d == Corner(p) && k == p.N() - p.M() {
      NoEntrance(p, d, k, x, p.N());
    }
  }

  lemma CornerIsVisited<T>(p: Problem<T>)
    ensures 0 <= Corner(p) <= p.N() + p.M() && Visits(Corner(p), p.N() - p.M())
    ensures Far(p, Corner(p), p.N() - p.M()) == p.N()
  {
    DistBounds(p, p.N(), p.M());
    StopsAtCorner(p, Corner(p), p.N() - p.M());
  }

  /* -------- ranges -------- */

  // Points of round d stay within d of the rectangle, so x <= n + d and y <= m + d.
  lemma PointsInRange<T>(p: Problem<T>, d: int, k: int)
    requires Visits(d, k)
    ensures 0 <= Start(p, d, k) <= Far(p, d, k) <= p.N() + d
    ensures 0 <= Start(p, d, k) - k <= Far(p, d, k) - k <= p.M() + d
    ensures Far(p, d, k) == SnakeEnd(p, Start(p, d, k), k)
  {
    FarIsFurthest(p, d, k);
    DistBounds(p, Far(p, d, k), Far(p, d, k) - k);
  }

  // Until the search stops they even stay within n + m, however far they run past an edge.
  lemma PointsInTotal<T>(p: Problem<T>, d: int, k: int)
    requires Visits(d, k) && d <= Corner(p)
    ensures Far(p, d, k) <= p.N() + p.M() && Far(p, d, k) - k <= p.N() + p.M()
  {
    var x, y := Far(p, d, k), Far(p, d, k) - k;
    FarIsFurthest(p, d, k);
    LcsBounds(p, x, y);
    LcsAtMostCorner(p, x, y);
  }

  /* -------- the rows of the trace -------- */

  // Some round before r may have visited diagonal k, and LastVisit is the last one.
  predicate Behind(r: int, k: int) {
    -r < k < r
  }

  function LastVisit(r: int, k: int): (d: int)
    requires Behind(r, k)
    ensures 0 <= d < r && Visits(d, k)
  {
    if (r - 1 - k) % 2 == 0 then r - 1 else r - 2
  }

  // The slot of diagonal k in the cyclic array of costs before round r: the furthest point of the
  // last round that visited k, or 0 if none has.
  ghost function Cost<T>(p: Problem<T>, r: int, k: int): int {
    if Behind(r, k) then Far(p, LastVisit(r, k), k) else 0
  }

  // A row can be read without the recurrence: zero where no round has been, and elsewhere the
  // furthest reaching point of the last round that visited the diagonal.
  lemma CostMeans<T>(p: Problem<T>, r: int, k: int, x: int)
    ensures x == Cost(p, r, k) <==>
              if Behind(r, k) then IsFurthest(p, LastVisit(r, k), k, x) else x == 0
  {
    if Behind(r, k) {
      FurthestIsFar(p, LastVisit(r, k), k, x);
    }
  }

  // Round r writes the diagonals it visits and no others.
  lemma RoundWrites<T>(p: Problem<T>, r: nat, k: int)
    ensures Cost(p, r + 1, k) == if Visits(r, k) then Far(p, r, k) else Cost(p, r, k)
  {
  }

  // So the neighbours it reads are what the round before it wrote.
  lemma RoundReads<T>(p: Problem<T>, r: int, k: int)
    requires r > 0 && Visits(r, k)
    ensures k != -r ==> Cost(p, r, k - 1) == Cost(p, r + 1, k - 1) == LeftCost(p, r, k)
    ensures k != r ==> Cost(p, r, k + 1) == RightCost(p, r, k)
  {
    if k != -r {
      assert LastVisit(r, k - 1) == LastVisit(r + 1, k - 1) == r - 1;
    }
    if k != r {
      assert LastVisit(r, k + 1) == r - 1;
    }
  }
}
