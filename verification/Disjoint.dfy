/**
 The shape of the script when no element of one array matches any element of the other: all deletions
 in order, then all additions in order.
 */
module Disjoint {
  import opened EditGraph
  import opened Scripts
  import opened Furthest
  import opened Search
  import opened Backtrace

  // The first x deletions followed by the first y additions.
  ghost function DeletionsThenAdditions<T>(p: Problem<T>, x: nat, y: nat): seq<Diff<T>>
    requires Supported(p) && x <= p.N() && y <= p.M()
  {
    seq(x, i requires 0 <= i < x => Diff(p.orig[i], i, -1, DEL)) +
    seq(y, j requires 0 <= j < y => Diff(p.updated[j], -1, j, ADD))
  }

  // Every point is as far from the origin as it is high and wide.
  lemma FarOfDisjoint<T>(p: Problem<T>, d: int, k: int)
    requires NothingMatches(p) && Visits(d, k)
    ensures 2 * Far(p, d, k) == d + k && Start(p, d, k) == Far(p, d, k)
  {
    FarIsFurthest(p, d, k);
    LcsOfDisjoint(p, Far(p, d, k), Far(p, d, k) - k);
    LcsOfDisjoint(p, Start(p, d, k), Start(p, d, k) - k);
  }

  // The way back from (x, y) leads up to the first row, and then left along it.
  lemma WayBackOfDisjoint<T>(p: Problem<T>, x: nat, y: nat)
    requires NothingMatches(p)
    ensures Visits(x + y, x - y) && Far(p, x + y, x - y) == x
    ensures x == 0 && y == 0 ==> WayBack(p, 0, 0) == []
    ensures y > 0 ==>
              WayBack(p, x + y, x - y) == [Point(x, y - 1)] + WayBack(p, x + y - 1, x - y + 1)
    ensures x > 0 && y == 0 ==>
              WayBack(p, x + y, x - y) == [Point(x - 1, y)] + WayBack(p, x + y - 1, x - y - 1)
  {
    hide Far, Start, WayBack;
    var d, k := x + y, x - y;
    FarOfDisjoint(p, d, k);
    BackStep(p, d, k);
    if y > 0 {
      FarOfDisjoint(p, d - 1, k + 1);
    }
    if x > 0 {
      FarOfDisjoint(p, d - 1, k - 1);
    }
  }

  // An addition comes last, and a deletion if there is no addition.
  lemma LastEntry<T>(p: Problem<T>, x: nat, y: nat)
    requires Supported(p) && x <= p.N() && y <= p.M()
    ensures x == 0 && y == 0 ==> DeletionsThenAdditions(p, x, y) == []
    ensures y > 0 ==> DeletionsThenAdditions(p, x, y) ==
                      DeletionsThenAdditions(p, x, y - 1) + [Diff(p.updated[y - 1], -1, y - 1, ADD)]
    ensures x > 0 && y == 0 ==> DeletionsThenAdditions(p, x, y) ==
                                DeletionsThenAdditions(p, x - 1, y) + [Diff(p.orig[x - 1], x - 1, -1, DEL)]
  {
  }

  lemma {:induction false} ScriptOfDisjoint<T>(p: Problem<T>, x: nat, y: nat)
    requires NothingMatches(p) && Supported(p) && x <= p.N() && y <= p.M()
    ensures Visits(x + y, x - y) && Chain(p, Point(x, y), WayBack(p, x + y, x - y))
    ensures ScriptOf(p, Point(x, y), WayBack(p, x + y, x - y)) == DeletionsThenAdditions(p, x, y)
    decreases x + y
  {
    hide WayBack, Far, Chain, ScriptOf, DeletionsThenAdditions;
    var points := WayBack(p, x + y, x - y);
    WayBackOfDisjoint(p, x, y);
    WayBackIsChain(p, x + y, x - y);
    LastEntry(p, x, y);
    if x == 0 && y == 0 {
      ScriptOfNone(p, Point(0, 0));
    } else {
      ScriptOfFirst(p, Point(x, y), points);
      if y > 0 {
        ScriptOfDisjoint(p, x, y - 1);
        assert points[1..] == WayBack(p, x + y - 1, x - y + 1);
      } else {
        ScriptOfDisjoint(p, x - 1, y);
        assert points[1..] == WayBack(p, x + y - 1, x - y - 1);
      }
    }
  }

  lemma DisjointScript<T>(p: Problem<T>)
    requires NothingMatches(p) && Supported(p)
    ensures MyersScript(p) == DeletionsThenAdditions(p, p.N(), p.M())
  {
    LcsOfDisjoint(p, p.N(), p.M());
    ScriptOfDisjoint(p, p.N(), p.M());
  }
}
