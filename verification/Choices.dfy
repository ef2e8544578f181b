/**
 Which of the cheapest scripts myers_diff returns: seen from its end, it adds wherever a cheapest script
 can, and else deletes wherever one can.
 */
module Choices {
  import opened EditGraph
  import opened Scripts
  import opened Furthest
  import opened Search
  import opened Backtrace

  // Some cheapest script of the first x and the first y elements ends in an addition.
  ghost predicate CanAdd<T>(p: Problem<T>, x: nat, y: nat) {
    y > 0 && Dist(p, x, y - 1) < Dist(p, x, y)
  }

  ghost predicate CanDelete<T>(p: Problem<T>, x: nat, y: nat) {
    x > 0 && Dist(p, x - 1, y) < Dist(p, x, y)
  }

  ghost function Choice<T>(p: Problem<T>, x: nat, y: nat): Action {
    if CanAdd(p, x, y) then ADD else if CanDelete(p, x, y) then DEL else EQ
  }

  // Every entry is the choice at the point that it leads to.
  ghost predicate Chosen<T>(p: Problem<T>, s: seq<Diff<T>>) {
    forall i :: 0 <= i < |s| ==> s[i].action == Choice(p, OrigCount(s[..i + 1]), UpdatedCount(s[..i + 1]))
  }

  lemma AddAtEnd<T>(p: Problem<T>, x: nat, y: nat) returns (s: seq<Diff<T>>)
    requires x <= p.N() && y <= p.M() && CanAdd(p, x, y)
    ensures Fits(p, s, x, y) && Edits(s) == Dist(p, x, y) && s != [] && s[|s| - 1].action == ADD
  {
    hide Lcs;
    var init := BestScript(p, x, y - 1);
    DistStep(p, x, y - 1);
    s := init + [Diff(p.updated[y - 1], 0, 0, ADD)];
    assert s[..|s| - 1] == init;
  }

  lemma DeleteAtEnd<T>(p: Problem<T>, x: nat, y: nat) returns (s: seq<Diff<T>>)
    requires x <= p.N() && y <= p.M() && CanDelete(p, x, y)
    ensures Fits(p, s, x, y) && Edits(s) == Dist(p, x, y) && s != [] && s[|s| - 1].action == DEL
  {
    hide Lcs;
    var init := BestScript(p, x - 1, y);
    DistStep(p, x - 1, y);
    s := init + [Diff(p.orig[x - 1], 0, 0, DEL)];
    assert s[..|s| - 1] == init;
  }

  lemma EndsInChoice<T>(p: Problem<T>, s: seq<Diff<T>>, x: nat, y: nat)
    requires Fits(p, s, x, y) && Edits(s) == Dist(p, x, y) && s != []
    ensures s[|s| - 1].action == ADD ==> CanAdd(p, x, y)
    ensures s[|s| - 1].action == DEL ==> CanDelete(p, x, y)
  {
    hide Lcs;
    match s[|s| - 1].action
    case EQ =>
    case ADD => FitsNeeds(p, s[..|s| - 1], x, y - 1);
    case DEL => FitsNeeds(p, s[..|s| - 1], x - 1, y);
  }

  // s is a cheapest script up to (x, y), and ends in this action.
  ghost predicate CheapestWith<T>(p: Problem<T>, s: seq<Diff<T>>, x: nat, y: nat, last: Action) {
    Fits(p, s, x, y) && Edits(s) == Dist(p, x, y) && s != [] && s[|s| - 1].action == last
  }

  // CanAdd and CanDelete say what was said of them.
  lemma CanAddIff<T>(p: Problem<T>, x: nat, y: nat)
    requires x <= p.N() && y <= p.M()
    ensures CanAdd(p, x, y) <==> exists s: seq<Diff<T>> :: CheapestWith(p, s, x, y, ADD)
  {
    hide Fits, Edits, Dist, CanAdd;
    if CanAdd(p, x, y) {
      var s := AddAtEnd(p, x, y);
      assert CheapestWith(p, s, x, y, ADD);
    }
    if s: seq<Diff<T>> :| CheapestWith(p, s, x, y, ADD) {
      EndsInChoice(p, s, x, y);
    }
  }

  lemma CanDeleteIff<T>(p: Problem<T>, x: nat, y: nat)
    requires x <= p.N() && y <= p.M()
    ensures CanDelete(p, x, y) <==> exists s: seq<Diff<T>> :: CheapestWith(p, s, x, y, DEL)
  {
    hide Fits, Edits, Dist, CanDelete;
    if CanDelete(p, x, y) {
      var s := DeleteAtEnd(p, x, y);
      assert CheapestWith(p, s, x, y, DEL);
    }
    if s: seq<Diff<T>> :| CheapestWith(p, s, x, y, DEL) {
      EndsInChoice(p, s, x, y);
    }
  }

  /* -------- the search makes these choices -------- */

  // Where a round enters a diagonal, it has come from above exactly if the choice is to add.
  lemma ChoiceAtStart<T>(p: Problem<T>, d: int, k: int)
    requires d > 0 && Visits(d, k)
    ensures var x := Start(p, d, k);
            && 0 <= x && 0 <= x - k
            && Choice(p, x, x - k) == if PrevDiagonal(p, d, k) == k + 1 then ADD else DEL
  {
    hide Far, Dist;
    var x, left, right := Start(p, d, k), LeftCost(p, d, k), RightCost(p, d, k);
    FarIsFurthest(p, d, k);
    NeighboursAreFurthest(p, d, k);
    if !FromAbove(d, k, left, right) {
      if k != d {
        NoEntrance(p, d - 1, k + 1, right, x);
      } else if x - k > 0 {
        DistBounds(p, x, x - k - 1);
      }
    }
  }

  // Along the snake there is nothing to choose.
  lemma ChoiceOnSnake<T>(p: Problem<T>, d: int, k: int, x: int)
    requires Visits(d, k) && Start(p, d, k) < x <= Far(p, d, k)
    ensures 0 < x && 0 < x - k && Choice(p, x, x - k) == EQ
  {
    hide Far, Dist;
    PointsInRange(p, d, k);
    OnTheSnake(p, d, k, x);
    DistBounds(p, x, x - k - 1);
    DistBounds(p, x - 1, x - k);
    if d > 0 {
      NeighboursAreFurthest(p, d, k);
      if k != d {
        AtOrAfterRight(p, d, k);
        NoEntrance(p, d - 1, k + 1, RightCost(p, d, k), x);
      }
      if k != -d {
        AtOrAfterRight(p, d, k);
        NoEntrance(p, d - 1, k - 1, LeftCost(p, d, k), x - 1);
      }
    }
  }

  lemma AtOrAfterRight<T>(p: Problem<T>, d: int, k: int)
    requires d > 0 && Visits(d, k)
    ensures k != d ==> RightCost(p, d, k) <= Start(p, d, k)
    ensures k != -d ==> LeftCost(p, d, k) < Start(p, d, k)
  {
    hide Far;
  }

  lemma OnTheSnake<T>(p: Problem<T>, d: int, k: int, x: int)
    requires Visits(d, k) && Start(p, d, k) <= x <= Far(p, d, k)
    ensures 0 <= x && 0 <= x - k && Dist(p, x, x - k) == d
  {
    hide Far;
    var start, far := Start(p, d, k), Far(p, d, k);
    FarIsFurthest(p, d, k);
    DistMonotoneOnDiagonal(p, start, start - k, x - start);
    DistMonotoneOnDiagonal(p, x, x - k, far - x);
  }

  /* -------- and so does the script -------- */

  ghost function ActionOf(a: Point, b: Point): Action {
    if b.x == a.x then ADD else if b.y == a.y then DEL else EQ
  }

  // Every step of a path is the choice at the point that it comes back from.
  ghost predicate ChosenChain<T>(p: Problem<T>, from: Point, points: seq<Point>)
    decreases |points|
  {
    points != [] ==>
      && 0 <= from.x && 0 <= from.y && ActionOf(from, points[0]) == Choice(p, from.x, from.y)
      && ChosenChain(p, points[0], points[1..])
  }

  lemma ChosenPrepend<T>(p: Problem<T>, from: Point, next: Point, rest: seq<Point>)
    requires ChosenChain(p, next, rest)
    requires 0 <= from.x && 0 <= from.y && ActionOf(from, next) == Choice(p, from.x, from.y)
    ensures ChosenChain(p, from, [next] + rest)
  {
    assert ([next] + rest)[1..] == rest;
  }

  lemma {:induction false} SnakeIsChosen<T>(p: Problem<T>, d: int, k: int, x: int, rest: seq<Point>)
    requires Visits(d, k) && Start(p, d, k) <= x <= Far(p, d, k)
    requires ChosenChain(p, Point(Start(p, d, k), Start(p, d, k) - k), rest)
    ensures ChosenChain(p, Point(x, x - k), Descend(x, k, Start(p, d, k)) + rest)
    decreases x - Start(p, d, k)
  {
    hide Far, Start, Choice, ChosenChain;
    var start := Start(p, d, k);
    if x == start {
      assert Descend(x, k, start) + rest == rest;
    } else {
      SnakeIsChosen(p, d, k, x - 1, rest);
      ChoiceOnSnake(p, d, k, x);
      ChosenPrepend(p, Point(x, x - k), Point(x - 1, x - 1 - k), Descend(x - 1, k, start) + rest);
      assert Descend(x, k, start) + rest == [Point(x - 1, x - 1 - k)] + (Descend(x - 1, k, start) + rest);
    }
  }

  lemma NothingChosen<T>(p: Problem<T>, from: Point)
    ensures ChosenChain(p, from, [])
  {
  }

  lemma {:induction false} WayBackIsChosen<T>(p: Problem<T>, d: int, k: int)
    requires Visits(d, k)
    ensures ChosenChain(p, Point(Far(p, d, k), Far(p, d, k) - k), WayBack(p, d, k))
    decreases d
  {
    hide Far, WayBack, PrevDiagonal, Start, Descend, Choice, ChosenChain;
    BackStep(p, d, k);
    var start := Start(p, d, k);
    if d == 0 {
      NothingChosen(p, Point(start, start - k));
      SnakeIsChosen(p, d, k, Far(p, d, k), []);
    } else {
      var k' := PrevDiagonal(p, d, k);
      var prev := Point(Far(p, d - 1, k'), Far(p, d - 1, k') - k');
      WayBackIsChosen(p, d - 1, k');
      ChoiceAtStart(p, d, k);
      ChosenPrepend(p, Point(start, start - k), prev, WayBack(p, d - 1, k'));
      SnakeIsChosen(p, d, k, Far(p, d, k), [prev] + WayBack(p, d - 1, k'));
    }
  }

  lemma ChosenAppend<T>(p: Problem<T>, s: seq<Diff<T>>, e: Diff<T>)
    requires Chosen(p, s)
    requires e.action == Choice(p, OrigCount(s + [e]), UpdatedCount(s + [e]))
    ensures Chosen(p, s + [e])
  {
    hide Choice, OrigCount, UpdatedCount;
    var t := s + [e];
    assert t[..|t|] == t;
    forall i | 0 <= i < |s|
      ensures t[i].action == Choice(p, OrigCount(t[..i + 1]), UpdatedCount(t[..i + 1]))
    {
      assert t[..i + 1] == s[..i + 1] && t[i] == s[i];
    }
  }

  lemma {:induction false} ScriptIsChosen<T>(p: Problem<T>, from: Point, points: seq<Point>)
    requires Supported(p) && Chain(p, from, points) && ChosenChain(p, from, points)
    ensures Chosen(p, ScriptOf(p, from, points))
    decreases |points|
  {
    if points == [] {
    } else {
      var s := ScriptOf(p, points[0], points[1..]);
      var e := Entry(p, from, points[0]);
      ScriptIsChosen(p, points[0], points[1..]);
      ChainIsScript(p, from, points);
      FitsNeeds(p, s + [e], from.x, from.y);
      hide Fits, Numbered, Chosen, Choice, ChosenChain, Chain;
      assert e.action == ActionOf(from, points[0]);
      ChosenAppend(p, s, e);
    }
  }

  lemma MyersScriptIsChosen<T>(p: Problem<T>)
    requires Supported(p)
    ensures Chosen(p, MyersScript(p))
  {
    hide Far, Start, WayBack, Dist, Visits, Chosen, Chain, ChainTurns, ChosenChain, ScriptOf;
    CornerIsVisited(p);
    WayBackIsChain(p, Corner(p), p.N() - p.M());
    WayBackIsChosen(p, Corner(p), p.N() - p.M());
    ScriptIsChosen(p, Point(p.N(), p.M()), WayBack(p, Corner(p), p.N() - p.M()));
  }

  /* -------- there is only one such script -------- */

  lemma ChosenInit<T>(p: Problem<T>, s: seq<Diff<T>>)
    requires Chosen(p, s) && s != []
    ensures Chosen(p, s[..|s| - 1])
    ensures s[|s| - 1].action == Choice(p, OrigCount(s), UpdatedCount(s))
  {
    hide Choice, OrigCount, UpdatedCount;
    var init := s[..|s| - 1];
    assert s[..|s| - 1 + 1] == s;
    forall i | 0 <= i < |init|
      ensures init[i].action == Choice(p, OrigCount(init[..i + 1]), UpdatedCount(init[..i + 1]))
    {
      assert init[..i + 1] == s[..i + 1] && init[i] == s[i];
    }
  }

  // The last entry of a script is determined by its action.
  lemma SameLast<T>(p: Problem<T>, s: seq<Diff<T>>, t: seq<Diff<T>>, x: int, y: int) returns (x': int, y': int)
    requires Fits(p, s, x, y) && Numbered(s) && Fits(p, t, x, y) && Numbered(t)
    requires s != [] && t != [] && s[|s| - 1].action == t[|t| - 1].action
    ensures s[|s| - 1] == t[|t| - 1]
    ensures Fits(p, s[..|s| - 1], x', y') && Numbered(s[..|s| - 1])
    ensures Fits(p, t[..|t| - 1], x', y') && Numbered(t[..|t| - 1])
  {
    var action := s[|s| - 1].action;
    x', y' := if action == ADD then x else x - 1, if action == DEL then y else y - 1;
    FitsNeeds(p, s[..|s| - 1], x', y');
    FitsNeeds(p, t[..|t| - 1], x', y');
  }

  lemma {:induction false} ChosenIsUnique<T>(p: Problem<T>, s: seq<Diff<T>>, t: seq<Diff<T>>, x: int, y: int)
    requires Fits(p, s, x, y) && Numbered(s) && Chosen(p, s)
    requires Fits(p, t, x, y) && Numbered(t) && Chosen(p, t)
    ensures s == t
    decreases |s|
  {
    hide Fits, Numbered, Dist, Chosen, Choice, OrigCount, UpdatedCount, Edits;
    FitsNeeds(p, s, x, y);
    FitsNeeds(p, t, x, y);
    OnlyNothing(p, s, x, y);
    OnlyNothing(p, t, x, y);
    if s == [] {
    } else {
      ChosenInit(p, s);
      ChosenInit(p, t);
      var x', y' := SameLast(p, s, t, x, y);
      ChosenIsUnique(p, s[..|s| - 1], t[..|t| - 1], x', y');
      assert s == s[..|s| - 1] + [s[|s| - 1]] && t == t[..|t| - 1] + [t[|t| - 1]];
    }
  }

  lemma OnlyNothing<T>(p: Problem<T>, s: seq<Diff<T>>, x: int, y: int)
    requires Fits(p, s, x, y)
    ensures s == [] <==> x == 0 && y == 0
  {
    FitsNeeds(p, s, x, y);
  }

  // So these properties are all there is to say about the script of myers_diff.
  lemma MyersScriptIff<T>(p: Problem<T>, s: seq<Diff<T>>)
    requires Supported(p)
    ensures s == MyersScript(p) <==> IsScript(p, s) && Numbered(s) && Chosen(p, s)
  {
    MyersScriptIsOptimal(p);
    MyersScriptIsChosen(p);
    hide MyersScript, Fits, Numbered, Chosen;
    if IsScript(p, s) && Numbered(s) && Chosen(p, s) {
      ChosenIsUnique(p, s, MyersScript(p), p.N(), p.M());
    }
  }

  lemma AddStays<T>(p: Problem<T>, x: nat, y: nat)
    requires CanAdd(p, x, y) && CanDelete(p, x + 1, y)
    ensures CanAdd(p, x + 1, y)
  {
    DistStep(p, x, y);
    DistStep(p, x, y - 1);
  }

  // Between two kept elements it deletes before it adds.
  lemma DeletionsFirst<T>(p: Problem<T>, s: seq<Diff<T>>, i: nat)
    requires Chosen(p, s) && i + 1 < |s| && s[i].action == ADD
    ensures s[i + 1].action != DEL
  {
    hide CanAdd, CanDelete;
    assert s[..i + 2][..i + 1] == s[..i + 1];
    var x, y := OrigCount(s[..i + 1]), UpdatedCount(s[..i + 1]);
    assert s[i + 1].action == DEL ==> OrigCount(s[..i + 2]) == x + 1 && UpdatedCount(s[..i + 2]) == y;
    if CanDelete(p, x + 1, y) {
      AddStays(p, x, y);
    }
  }
}
