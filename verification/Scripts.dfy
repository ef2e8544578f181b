/**
 Edit scripts: what myers_diff returns, what makes one correct and what it costs.
 */
module Scripts {
  import opened EditGraph

  // int16_t.  C++ computes in int and narrows on every store, so values are stored in variables of
  // this type: the verifier then shows that no store changes a value.
  type IndexT = i: int | -0x8000 <= i < 0x8000

  datatype Action = EQ | ADD | DEL

  datatype Diff<T> = Diff(val: T, orig: IndexT, updated: IndexT, action: Action)

  // How many elements of the original array a script consumes.
  ghost function OrigCount<T>(s: seq<Diff<T>>): nat {
    if s == [] then 0
    else OrigCount(s[..|s| - 1]) + if s[|s| - 1].action == ADD then 0 else 1
  }

  // How many elements of the updated array a script produces.
  ghost function UpdatedCount<T>(s: seq<Diff<T>>): nat {
    if s == [] then 0
    else UpdatedCount(s[..|s| - 1]) + if s[|s| - 1].action == DEL then 0 else 1
  }

  // The cost of a script: its entries other than EQ.
  ghost function Edits<T>(s: seq<Diff<T>>): nat {
    if s == [] then 0
    else Edits(s[..|s| - 1]) + if s[|s| - 1].action == EQ then 0 else 1
  }

  // s turns the first x elements of the original into the first y elements of the updated array:
  // every entry carries the element it deletes, adds or keeps, and keeps only matching pairs.
  ghost predicate Fits<T>(p: Problem<T>, s: seq<Diff<T>>, x: int, y: int)
    decreases |s|
  {
    if s == [] then x == 0 && y == 0
    else
      var init, e := s[..|s| - 1], s[|s| - 1];
      match e.action
      case EQ => p.Match(x - 1, y - 1) && e.val == p.orig[x - 1] && Fits(p, init, x - 1, y - 1)
      case ADD => 0 < y <= p.M() && e.val == p.updated[y - 1] && Fits(p, init, x, y - 1)
      case DEL => 0 < x <= p.N() && e.val == p.orig[x - 1] && Fits(p, init, x - 1, y)
  }

  // The positions of every entry are those of its element, and -1 in an array it is not from.
  ghost predicate Numbered<T>(s: seq<Diff<T>>)
    decreases |s|
  {
    s != [] ==>
      var init, e := s[..|s| - 1], s[|s| - 1];
      && Numbered(init)
      && e.orig == (if e.action == ADD then -1 else OrigCount(init))
      && e.updated == (if e.action == DEL then -1 else UpdatedCount(init))
  }

  // A complete edit script from all of orig to all of updated.
  ghost predicate IsScript<T>(p: Problem<T>, s: seq<Diff<T>>) {
    Fits(p, s, p.N(), p.M())
  }

  /* -------- cost -------- */

  lemma {:induction false} FitsNeeds<T>(p: Problem<T>, s: seq<Diff<T>>, x: int, y: int)
    requires Fits(p, s, x, y)
    ensures 0 <= x == OrigCount(s) && 0 <= y == UpdatedCount(s)
    ensures x <= p.N() && y <= p.M() && |s| <= x + y
    ensures Dist(p, x, y) <= Edits(s)
    decreases |s|
  {
    if s == [] {
    } else {
      var init := s[..|s| - 1];
      match s[|s| - 1].action
      case EQ =>
        FitsNeeds(p, init, x - 1, y - 1);
        DistDiagonal(p, x - 1, y - 1);
      case ADD =>
        FitsNeeds(p, init, x, y - 1);
        DistStep(p, x, y - 1);
      case DEL =>
        FitsNeeds(p, init, x - 1, y);
        DistStep(p, x - 1, y);
    }
  }

  // The bound is attained, whatever the size of the arrays.
  lemma {:induction false} BestScript<T>(p: Problem<T>, x: nat, y: nat) returns (s: seq<Diff<T>>)
    requires x <= p.N() && y <= p.M()
    ensures Fits(p, s, x, y) && Edits(s) == Dist(p, x, y)
    decreases x + y
  {
    if x == 0 && y == 0 {
      s := [];
    } else {
      var e: Diff<T>;
      if p.Match(x - 1, y - 1) {
        s := BestScript(p, x - 1, y - 1);
        e := Diff(p.orig[x - 1], 0, 0, EQ);
      } else if y == 0 || (x > 0 && Lcs(p, x - 1, y) >= Lcs(p, x, y - 1)) {
        s := BestScript(p, x - 1, y);
        e := Diff(p.orig[x - 1], 0, -1, DEL);
      } else {
        s := BestScript(p, x, y - 1);
        e := Diff(p.updated[y - 1], -1, 0, ADD);
      }
      assert (s + [e])[..|s|] == s;
      s := s + [e];
    }
  }

  // Every script is made of scripts for prefixes of the arrays.
  lemma {:induction false} PrefixFits<T>(p: Problem<T>, s: seq<Diff<T>>, x: int, y: int, i: nat)
    requires Fits(p, s, x, y) && i <= |s|
    ensures Fits(p, s[..i], OrigCount(s[..i]), UpdatedCount(s[..i]))
    decreases |s|
  {
    FitsNeeds(p, s, x, y);
    if i == |s| {
      assert s[..i] == s;
    } else {
      var init := s[..|s| - 1];
      assert init[..i] == s[..i];
      match s[|s| - 1].action
      case EQ => PrefixFits(p, init, x - 1, y - 1, i);
      case ADD => PrefixFits(p, init, x, y - 1, i);
      case DEL => PrefixFits(p, init, x - 1, y, i);
    }
  }

  // A prefix of a cheapest script is a cheapest script for what it consumes.
  lemma {:induction false} PrefixCheapest<T>(p: Problem<T>, s: seq<Diff<T>>, x: nat, y: nat, i: nat)
    requires Fits(p, s, x, y) && i <= |s| && Edits(s) == Dist(p, x, y)
    ensures OrigCount(s[..i]) <= x && UpdatedCount(s[..i]) <= y
    ensures Edits(s[..i]) == Dist(p, OrigCount(s[..i]), UpdatedCount(s[..i]))
    decreases |s|
  {
    hide Dist;
    FitsNeeds(p, s, x, y);
    if i == |s| {
      assert s[..i] == s;
    } else {
      var init := s[..|s| - 1];
      assert init[..i] == s[..i];
      match s[|s| - 1].action
      case EQ =>
        FitsNeeds(p, init, x - 1, y - 1);
        DistDiagonal(p, x - 1, y - 1);
        PrefixCheapest(p, init, x - 1, y - 1, i);
      case ADD =>
        FitsNeeds(p, init, x, y - 1);
        DistStep(p, x, y - 1);
        PrefixCheapest(p, init, x, y - 1, i);
      case DEL =>
        FitsNeeds(p, init, x - 1, y);
        DistStep(p, x - 1, y);
        PrefixCheapest(p, init, x - 1, y, i);
    }
  }

  // The entry at position i stands at the point its predecessors lead to.
  lemma EntryFits<T>(p: Problem<T>, s: seq<Diff<T>>, x: int, y: int, i: nat)
    requires Fits(p, s, x, y) && i < |s|
    ensures var o, u := OrigCount(s[..i]), UpdatedCount(s[..i]);
            && (s[i].action != ADD ==> o < p.N() && s[i].val == p.orig[o])
            && (s[i].action == ADD ==> u < p.M() && s[i].val == p.updated[u])
            && (s[i].action == EQ ==> p.Match(o, u))
  {
    PrefixFits(p, s, x, y, i + 1);
    assert s[..i + 1][..i] == s[..i];
  }

  // A script of a prefix of the arrays followed by a script of the rest is a script of the whole.
  lemma {:induction false} Concatenate<T>(p: Problem<T>, s: seq<Diff<T>>, x: int, y: int,
                                          rest: Problem<T>, t: seq<Diff<T>>, x': int, y': int)
    requires Fits(p, s, x, y)
    requires 0 <= x <= p.N() && 0 <= y <= p.M()
    requires rest == Problem(p.orig[x..], p.updated[y..], p.comparator)
    requires Fits(rest, t, x', y')
    ensures Fits(p, s + t, x + x', y + y')
    ensures Edits(s + t) == Edits(s) + Edits(t)
    decreases |t|
  {
    if t == [] {
      assert s + t == s;
    } else {
      var init := t[..|t| - 1];
      assert (s + t)[..|s + t| - 1] == s + init;
      match t[|t| - 1].action
      case EQ => Concatenate(p, s, x, y, rest, init, x' - 1, y' - 1);
      case ADD => Concatenate(p, s, x, y, rest, init, x', y' - 1);
      case DEL => Concatenate(p, s, x, y, rest, init, x' - 1, y');
    }
  }

  lemma {:induction false} CountsOfConcat<T>(s: seq<Diff<T>>, t: seq<Diff<T>>)
    ensures OrigCount(s + t) == OrigCount(s) + OrigCount(t)
    ensures UpdatedCount(s + t) == UpdatedCount(s) + UpdatedCount(t)
    ensures Edits(s + t) == Edits(s) + Edits(t)
    decreases |t|
  {
    if t == [] {
      assert s + t == s;
    } else {
      assert (s + t)[..|s + t| - 1] == s + t[..|t| - 1];
      CountsOfConcat(s, t[..|t| - 1]);
    }
  }

  // Where nothing matches, a script deletes and adds everything.
  lemma {:induction false} ScriptOfNoMatch<T>(p: Problem<T>, s: seq<Diff<T>>, x: int, y: int)
    requires Fits(p, s, x, y) && NothingMatches(p)
    ensures Edits(s) == |s| == x + y
    ensures forall i :: 0 <= i < |s| ==> s[i].action != EQ
    decreases |s|
  {
    if s == [] {
    } else {
      match s[|s| - 1].action
      case EQ =>
      case ADD => ScriptOfNoMatch(p, s[..|s| - 1], x, y - 1);
      case DEL => ScriptOfNoMatch(p, s[..|s| - 1], x - 1, y);
    }
  }

  // A script that stays inside a prefix of the arrays does not see the rest of them.
  lemma {:induction false} FitsInPrefix<T>(p: Problem<T>, q: Problem<T>, s: seq<Diff<T>>, x: int, y: int)
    requires q.orig <= p.orig && q.updated <= p.updated && q.comparator == p.comparator
    requires x <= q.N() && y <= q.M()
    ensures Fits(p, s, x, y) <==> Fits(q, s, x, y)
    decreases |s|
  {
    if s == [] {
    } else {
      var init := s[..|s| - 1];
      FitsInPrefix(p, q, init, x - 1, y - 1);
      FitsInPrefix(p, q, init, x, y - 1);
      FitsInPrefix(p, q, init, x - 1, y);
    }
  }

  lemma {:induction false} LcsInPrefix<T>(p: Problem<T>, q: Problem<T>, x: nat, y: nat)
    requires q.orig <= p.orig && q.updated <= p.updated && q.comparator == p.comparator
    requires x <= q.N() && y <= q.M()
    ensures Lcs(p, x, y) == Lcs(q, x, y)
    decreases x + y
  {
    if x == 0 || y == 0 {
    } else {
      LcsInPrefix(p, q, x - 1, y - 1);
      LcsInPrefix(p, q, x - 1, y);
      LcsInPrefix(p, q, x, y - 1);
    }
  }

  /* -------- round trip -------- */

  // What is left of a script without its ADD entries.
  ghost function Originals<T>(s: seq<Diff<T>>): seq<Diff<T>> {
    if s == [] then []
    else Originals(s[..|s| - 1]) + if s[|s| - 1].action == ADD then [] else [s[|s| - 1]]
  }

  // What is left of a script without its DEL entries.
  ghost function Updateds<T>(s: seq<Diff<T>>): seq<Diff<T>> {
    if s == [] then []
    else Updateds(s[..|s| - 1]) + if s[|s| - 1].action == DEL then [] else [s[|s| - 1]]
  }

  // Without its ADD entries a script is the original array, element by element.
  lemma {:induction false} OriginalsAreOrig<T>(p: Problem<T>, s: seq<Diff<T>>, x: int, y: int)
    requires Fits(p, s, x, y)
    ensures |Originals(s)| == x <= p.N()
    ensures forall i :: 0 <= i < x ==> Originals(s)[i].val == p.orig[i]
    decreases |s|
  {
    if s == [] {
    } else {
      var init := s[..|s| - 1];
      match s[|s| - 1].action
      case EQ => OriginalsAreOrig(p, init, x - 1, y - 1);
      case ADD => OriginalsAreOrig(p, init, x, y - 1);
      case DEL => OriginalsAreOrig(p, init, x - 1, y);
    }
  }

  // Without its DEL entries a script is the updated array, except where it keeps an
  // element of the original array that the comparator takes for the updated one.
  lemma {:induction false} UpdatedsAreUpdated<T>(p: Problem<T>, s: seq<Diff<T>>, x: int, y: int)
    requires Fits(p, s, x, y)
    ensures |Updateds(s)| == y <= p.M()
    ensures forall j :: 0 <= j < y ==>
              if Updateds(s)[j].action == ADD then Updateds(s)[j].val == p.updated[j]
              else exists i :: p.Match(i, j) && Updateds(s)[j].val == p.orig[i]
    decreases |s|
  {
    if s == [] {
    } else {
      var init := s[..|s| - 1];
      match s[|s| - 1].action
      case EQ => UpdatedsAreUpdated(p, init, x - 1, y - 1);
      case ADD => UpdatedsAreUpdated(p, init, x, y - 1);
      case DEL => UpdatedsAreUpdated(p, init, x - 1, y);
    }
  }

  // So a script contains both arrays, if the comparator takes only equal elements for each other.
  lemma RoundTrip<T>(p: Problem<T>, s: seq<Diff<T>>)
    requires IsScript(p, s)
    ensures p.orig == seq(|Originals(s)|, i requires 0 <= i < |Originals(s)| => Originals(s)[i].val)
    ensures (forall i, j :: p.Match(i, j) ==> p.orig[i] == p.updated[j]) ==>
              p.updated == seq(|Updateds(s)|, j requires 0 <= j < |Updateds(s)| => Updateds(s)[j].val)
  {
    OriginalsAreOrig(p, s, p.N(), p.M());
    UpdatedsAreUpdated(p, s, p.N(), p.M());
  }

  // The positions in a script count 0, 1, 2, ... through either array, each once and in order, and are
  // -1 exactly where an entry is not from that array.
  lemma NumbersEnumerate<T>(s: seq<Diff<T>>)
    requires Numbered(s)
    ensures |Originals(s)| == OrigCount(s) && |Updateds(s)| == UpdatedCount(s)
    ensures forall i :: 0 <= i < |Originals(s)| ==> Originals(s)[i].orig == i
    ensures forall j :: 0 <= j < |Updateds(s)| ==> Updateds(s)[j].updated == j
    ensures forall i :: 0 <= i < |s| ==>
              && (s[i].orig == -1 <==> s[i].action == ADD)
              && (s[i].updated == -1 <==> s[i].action == DEL)
  {
    OriginalsEnumerate(s);
    UpdatedsEnumerate(s);
    hide Numbered;
    forall i | 0 <= i < |s|
      ensures (s[i].orig == -1 <==> s[i].action == ADD) && (s[i].updated == -1 <==> s[i].action == DEL)
    {
      NumberedAt(s, i);
    }
  }

  lemma {:induction false} OriginalsEnumerate<T>(s: seq<Diff<T>>)
    requires Numbered(s)
    ensures |Originals(s)| == OrigCount(s)
    ensures forall i :: 0 <= i < |Originals(s)| ==> Originals(s)[i].orig == i
    decreases |s|
  {
    if s == [] {
    } else {
      OriginalsEnumerate(s[..|s| - 1]);
    }
  }

  lemma {:induction false} UpdatedsEnumerate<T>(s: seq<Diff<T>>)
    requires Numbered(s)
    ensures |Updateds(s)| == UpdatedCount(s)
    ensures forall j :: 0 <= j < |Updateds(s)| ==> Updateds(s)[j].updated == j
    decreases |s|
  {
    if s == [] {
    } else {
      UpdatedsEnumerate(s[..|s| - 1]);
    }
  }

  lemma NumberedAt<T>(s: seq<Diff<T>>, i: nat)
    requires Numbered(s) && i < |s|
    ensures s[i].orig == (if s[i].action == ADD then -1 else OrigCount(s[..i]))
    ensures s[i].updated == (if s[i].action == DEL then -1 else UpdatedCount(s[..i]))
  {
    NumberedPrefix(s, i + 1);
    assert s[..i + 1][..i] == s[..i];
  }

  lemma {:induction false} NumberedPrefix<T>(s: seq<Diff<T>>, i: nat)
    requires Numbered(s) && i <= |s|
    ensures Numbered(s[..i])
    decreases |s|
  {
    if i == |s| {
      assert s[..i] == s;
    } else {
      NumberedPrefix(s[..|s| - 1], i);
      assert s[..|s| - 1][..i] == s[..i];
    }
  }

  // A script costs nothing exactly when it only keeps elements.
  lemma {:induction false} FreeScript<T>(s: seq<Diff<T>>)
    ensures Edits(s) == 0 <==> forall i :: 0 <= i < |s| ==> s[i].action == EQ
    ensures Edits(s) == 0 ==> OrigCount(s) == |s| == UpdatedCount(s)
    decreases |s|
  {
    if s == [] {
    } else {
      FreeScript(s[..|s| - 1]);
      assert forall i :: 0 <= i < |s| - 1 ==> s[..|s| - 1][i] == s[i];
    }
  }
}
