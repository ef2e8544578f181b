/**
 estd::HashList: a list without duplicates and an index into it.
 */
module HashLists {
  import opened Options

  /* -------- the naive list: every operation searches -------- */

  datatype Op<T> =
    | PushBack(val: T)
    | Insert(before: Option<T>, val: T)   // before the node of a value, or at the end
    | PopBack
    | Erase(val: T)
    | Clear

  ghost predicate NoDuplicates<T>(s: seq<T>) {
    forall i, j :: 0 <= i < j < |s| ==> s[i] != s[j]
  }

  ghost function IndexOf<T>(s: seq<T>, v: T): (i: nat)
    requires v in s
    ensures i < |s| && s[i] == v && v !in s[..i]
  {
    if s[0] == v then 0
    else
      assert s == [s[0]] + s[1..];
      IndexOf(s[1..], v) + 1
  }

  ghost function Position<T>(s: seq<T>, before: Option<T>): (i: nat)
    ensures i <= |s|
  {
    if before.Some? && before.value in s then IndexOf(s, before.value) else |s|
  }

  ghost function Without<T>(s: seq<T>, v: T): seq<T> {
    if v in s then s[..IndexOf(s, v)] + s[IndexOf(s, v) + 1..] else s
  }

  ghost function Apply<T>(s: seq<T>, op: Op<T>): seq<T> {
    match op
    case PushBack(v) => if v in s then s else s + [v]
    case Insert(before, v) =>
      if v in s then s else s[..Position(s, before)] + [v] + s[Position(s, before)..]
    case PopBack => if s == [] then s else s[..|s| - 1]
    case Erase(v) => Without(s, v)
    case Clear => []
  }

  ghost function Run<T>(s: seq<T>, ops: seq<Op<T>>): seq<T> {
    if ops == [] then s else Apply(Run(s, ops[..|ops| - 1]), ops[|ops| - 1])
  }

  // A position must be valid unless the value is there already, in which case it is not looked at.
  ghost predicate Legal<T>(s: seq<T>, op: Op<T>) {
    op.Insert? && op.before.Some? && op.val !in s ==> op.before.value in s
  }

  lemma WithoutKeeps<T>(s: seq<T>, v: T, u: T)
    requires NoDuplicates(s)
    ensures NoDuplicates(Without(s, v)) && (u in Without(s, v) <==> u in s && u != v)
  {
    if v in s {
      CutKeeps(s, IndexOf(s, v), u);
      hide IndexOf, NoDuplicates;
    }
  }

  lemma CutKeeps<T>(s: seq<T>, i: nat, u: T)
    requires NoDuplicates(s) && i < |s|
    ensures NoDuplicates(s[..i] + s[i + 1..])
    ensures u in s[..i] + s[i + 1..] <==> u in s && u != s[i]
  {
    assert s == s[..i] + [s[i]] + s[i + 1..];
  }

  lemma ApplyKeeps<T>(s: seq<T>, op: Op<T>)
    requires NoDuplicates(s)
    ensures NoDuplicates(Apply(s, op))
  {
    if op.Erase? {
      WithoutKeeps(s, op.val, op.val);
    }
  }

  // No run of operations makes a duplicate, whether its positions are valid or not.
  lemma {:induction false} RunKeeps<T>(s: seq<T>, ops: seq<Op<T>>)
    requires NoDuplicates(s)
    ensures NoDuplicates(Run(s, ops))
    decreases |ops|
  {
    if ops == [] {
    } else {
      RunKeeps(s, ops[..|ops| - 1]);
      ApplyKeeps(Run(s, ops[..|ops| - 1]), ops[|ops| - 1]);
    }
  }

  // A legal insertion of a new value puts it right before the value at its position, or at the end.
  lemma InsertLands<T>(s: seq<T>, before: Option<T>, v: T)
    requires NoDuplicates(s) && v !in s && Legal(s, Insert(before, v))
    ensures var t := Apply(s, Insert(before, v));
            && v in t && |t| == |s| + 1
            && match before
               case None => IndexOf(t, v) == |s|
               case Some(u) => u in t && IndexOf(t, v) + 1 == IndexOf(t, u)
  {
    ApplyKeeps(s, Insert(before, v));
    var t, i := Apply(s, Insert(before, v)), Position(s, before);
    IndexIs(t, i);
    if before.Some? {
      IndexIs(t, i + 1);
    }
  }

  lemma IndexIs<T>(s: seq<T>, i: nat)
    requires NoDuplicates(s) && i < |s|
    ensures IndexOf(s, s[i]) == i
  {
  }

  // No operation changes the order of the values that it leaves in the list.
  lemma OrderStays<T>(s: seq<T>, op: Op<T>, u: T, v: T)
    requires NoDuplicates(s)
    requires u in s && v in s && u in Apply(s, op) && v in Apply(s, op)
    ensures IndexOf(s, u) < IndexOf(s, v) <==> IndexOf(Apply(s, op), u) < IndexOf(Apply(s, op), v)
  {
    ApplyKeeps(s, op);
    MovedTo(s, op, u);
    MovedTo(s, op, v);
  }

  // Where a value is after an operation: one further if something was inserted before it, one less far
  // if something was erased before it.
  ghost function NewIndex<T>(s: seq<T>, op: Op<T>, i: nat): int {
    match op
    case Insert(before, v) => if v !in s && Position(s, before) <= i then i + 1 else i
    case Erase(v) => if v in s && IndexOf(s, v) < i then i - 1 else i
    case _ => i
  }

  lemma MovedTo<T>(s: seq<T>, op: Op<T>, u: T)
    requires NoDuplicates(s) && u in s && u in Apply(s, op)
    ensures IndexOf(Apply(s, op), u) == NewIndex(s, op, IndexOf(s, u))
  {
    ApplyKeeps(s, op);
    NewIndexIs(s, op, u);
    hide Apply, NewIndex;
    IndexIs(Apply(s, op), NewIndex(s, op, IndexOf(s, u)));
  }

  // u is at its new index.
  ghost predicate Moved<T>(s: seq<T>, op: Op<T>, u: T)
    requires u in s
  {
    var i := NewIndex(s, op, IndexOf(s, u));
    0 <= i < |Apply(s, op)| && Apply(s, op)[i] == u
  }

  lemma InsertMoves<T>(s: seq<T>, before: Option<T>, v: T, u: T)
    requires u in s
    ensures Moved(s, Insert(before, v), u)
  {
    hide IndexOf, Position;
    SurvivesInsert(s, Position(s, before), v, IndexOf(s, u));
  }

  lemma EraseMoves<T>(s: seq<T>, v: T, u: T)
    requires NoDuplicates(s) && u in s && u != v
    ensures Moved(s, Erase(v), u)
  {
    hide IndexOf, NoDuplicates;
    if v in s {
      SurvivesCut(s, IndexOf(s, v), IndexOf(s, u));
    }
  }

  lemma NewIndexIs<T>(s: seq<T>, op: Op<T>, u: T)
    requires NoDuplicates(s) && u in s && u in Apply(s, op)
    ensures Moved(s, op, u)
  {
    hide IndexOf, NoDuplicates, Without;
    match op
    case PushBack(v) =>
    case Insert(before, v) => InsertMoves(s, before, v, u);
    case PopBack => WithoutLast(s, u);
    case Erase(v) =>
      WithoutKeeps(s, v, u);
      EraseMoves(s, v, u);
    case Clear =>
  }

  lemma SurvivesInsert<T>(s: seq<T>, i: nat, v: T, j: nat)
    requires i <= |s| && j < |s|
    ensures (s[..i] + [v] + s[i..])[if i <= j then j + 1 else j] == s[j]
  {
  }

  lemma SurvivesCut<T>(s: seq<T>, i: nat, j: nat)
    requires i < |s| && j < |s| && i != j
    ensures (s[..i] + s[i + 1..])[if i < j then j - 1 else j] == s[j]
  {
  }

  lemma WithoutLast<T>(s: seq<T>, u: T)
    requires NoDuplicates(s) && s != [] && u in s[..|s| - 1]
    ensures IndexOf(s, u) < |s| - 1
  {
    var i :| 0 <= i < |s| - 1 && s[i] == u;
    IndexIs(s, i);
  }

  // erase takes back an insertion, wherever it was.
  lemma EraseUndoesInsert<T>(s: seq<T>, before: Option<T>, v: T)
    requires NoDuplicates(s) && v !in s
    ensures Apply(Apply(s, Insert(before, v)), Erase(v)) == s
    ensures Apply(Apply(s, PushBack(v)), Erase(v)) == s
  {
    hide Without, Position, NoDuplicates;
    ErasesAt(s, Position(s, before), v);
    ErasesAt(s, |s|, v);
    assert s[..|s|] + [v] + s[|s|..] == s + [v];
  }

  // pop_back takes back a push_back, and leaves an empty list empty.
  lemma PopUndoesPush<T>(s: seq<T>, v: T)
    requires v !in s
    ensures Apply(Apply(s, PushBack(v)), PopBack) == s
    ensures Apply<T>([], PopBack) == []
  {
    assert (s + [v])[..|s|] == s;
  }

  // erase removes its value and no other.
  lemma EraseRemovesOnly<T>(s: seq<T>, v: T, u: T)
    requires NoDuplicates(s)
    ensures u in Apply(s, Erase(v)) <==> u in s && u != v
  {
    WithoutKeeps(s, v, u);
  }

  lemma ErasesAt<T>(s: seq<T>, i: nat, v: T)
    requires i <= |s| && v !in s
    ensures Without(s[..i] + [v] + s[i..], v) == s
  {
    var t := s[..i] + [v] + s[i..];
    FirstAt(t, i);
    assert t[..i] == s[..i] && t[i + 1..] == s[i..];
  }

  lemma FirstAt<T>(t: seq<T>, i: nat)
    requires i < |t| && t[i] !in t[..i]
    ensures IndexOf(t, t[i]) == i
  {
    InPrefix(t, i);
  }

  lemma InPrefix<T>(t: seq<T>, i: nat)
    requires i <= |t|
    ensures forall j :: 0 <= j < i ==> t[j] in t[..i]
  {
    forall j | 0 <= j < i
      ensures t[j] in t[..i]
    {
      assert t[..i][j] == t[j];
    }
  }

  /* -------- the class -------- */

  // A list node; an iterator is a reference to one, or null at the end.
  class Node<T> {
    const val: T

    constructor (val: T)
      ensures this.val == val
    {
      this.val := val;
    }
  }

  ghost function Values<T>(nodes: seq<Node<T>>): seq<T> {
    seq(|nodes|, i requires 0 <= i < |nodes| => nodes[i].val)
  }

  ghost predicate Distinct<T>(nodes: seq<Node<T>>) {
    forall i, j :: 0 <= i < j < |nodes| ==> nodes[i].val != nodes[j].val
  }

  // The index has exactly the values of the list as keys, and leads from each to its only node.
  ghost predicate Indexed<T>(nodes: seq<Node<T>>, index: map<T, Node<T>>) {
    && Distinct(nodes)
    && (forall i :: 0 <= i < |nodes| ==> nodes[i].val in index && index[nodes[i].val] == nodes[i])
    && (forall v :: v in index ==> index[v] in nodes && index[v].val == v)
  }

  lemma IndexFinds<T>(nodes: seq<Node<T>>, index: map<T, Node<T>>, v: T)
    requires Indexed(nodes, index)
    ensures v in index <==> v in Values(nodes)
    ensures v in index ==> index[v].val == v
    ensures forall i :: 0 <= i < |nodes| && nodes[i].val == v ==> IndexOf(Values(nodes), v) == i
  {
    if v in index {
      var i :| 0 <= i < |nodes| && nodes[i] == index[v];
      assert Values(nodes)[i] == v;
    }
  }

  lemma IndexHolds<T>(nodes: seq<Node<T>>, index: map<T, Node<T>>, v: T)
    requires Indexed(nodes, index) && v in index
    ensures index[v].val == v && exists i :: 0 <= i < |nodes| && nodes[i] == index[v]
  {
  }

  lemma ValuesOfInsert<T>(nodes: seq<Node<T>>, i: nat, at: Node<T>)
    requires i <= |nodes|
    ensures Values(nodes[..i] + [at] + nodes[i..]) == Values(nodes)[..i] + [at.val] + Values(nodes)[i..]
  {
  }

  lemma InsertAt<T>(nodes: seq<Node<T>>, i: nat, at: Node<T>, node: Node<T>)
    requires i <= |nodes|
    ensures node in nodes[..i] + [at] + nodes[i..] <==> node == at || node in nodes
  {
    assert nodes == nodes[..i] + nodes[i..];
  }

  lemma DistinctInsert<T>(nodes: seq<Node<T>>, i: nat, at: Node<T>)
    requires Distinct(nodes) && i <= |nodes| && forall j :: 0 <= j < |nodes| ==> nodes[j].val != at.val
    ensures Distinct(nodes[..i] + [at] + nodes[i..])
  {
  }

  lemma IndexedInsert<T>(nodes: seq<Node<T>>, index: map<T, Node<T>>, i: nat, at: Node<T>)
    requires Indexed(nodes, index) && at.val !in index && i <= |nodes|
    ensures Indexed(nodes[..i] + [at] + nodes[i..], index[at.val := at])
  {
    DistinctInsert(nodes, i, at);
    hide Distinct;
    var nodes', index' := nodes[..i] + [at] + nodes[i..], index[at.val := at];
    forall j | 0 <= j < |nodes'|
      ensures nodes'[j].val in index' && index'[nodes'[j].val] == nodes'[j]
    {
      InsertAt(nodes, i, at, nodes'[j]);
    }
    forall v | v in index'
      ensures index'[v] in nodes' && index'[v].val == v
    {
      InsertAt(nodes, i, at, index'[v]);
    }
  }

  lemma ValuesOfRemove<T>(nodes: seq<Node<T>>, i: nat)
    requires i < |nodes|
    ensures Values(nodes[..i] + nodes[i + 1..]) == Values(nodes)[..i] + Values(nodes)[i + 1..]
  {
  }

  lemma IndexedRemove<T>(nodes: seq<Node<T>>, index: map<T, Node<T>>, i: nat)
    requires Indexed(nodes, index) && i < |nodes|
    ensures Indexed(nodes[..i] + nodes[i + 1..], index - {nodes[i].val})
  {
    var nodes', index' := nodes[..i] + nodes[i + 1..], index - {nodes[i].val};
    forall j | 0 <= j < |nodes'|
      ensures nodes'[j] == nodes[if j < i then j else j + 1]
      ensures nodes'[j].val in index' && index'[nodes'[j].val] == nodes'[j]
    {
      assert nodes'[j] == nodes[if j < i then j else j + 1];
    }
    forall v | v in index'
      ensures index'[v] in nodes' && index'[v].val == v
    {
      var j :| 0 <= j < |nodes| && nodes[j] == index[v];
      assert nodes'[if j < i then j else j - 1] == nodes[j];
    }
  }

  lemma RemovedIsWithout<T>(nodes: seq<Node<T>>, index: map<T, Node<T>>, i: nat)
    requires Indexed(nodes, index) && i < |nodes|
    ensures Values(nodes[..i] + nodes[i + 1..]) == Without(Values(nodes), nodes[i].val)
  {
    IndexFinds(nodes, index, nodes[i].val);
    ValuesOfRemove(nodes, i);
    hide IndexOf, Indexed;
    assert Values(nodes)[i] == nodes[i].val;
  }

  class HashList<T(==)> {
    var lst: seq<Node<T>>
    var umap: map<T, Node<T>>

    ghost predicate Valid()
      reads this
    {
      Indexed(lst, umap)
    }

    ghost function Contents(): seq<T>
      reads this
    {
      Values(lst)
    }

    // Values that were in the list and still are keep their positions.
    twostate predicate PositionsStay()
      reads this
    {
      forall v :: v in old(umap) && v in umap ==> umap[v] == old(umap)[v]
    }

    constructor ()
      ensures Valid() && Contents() == []
    {
      lst, umap := [], map[];
    }

    // The constructor from a range.
    constructor FromRange(range: seq<T>)
      ensures Valid() && Contents() == Run([], Pushes(range))
    {
      lst, umap := [], map[];
      new;
      var begin := 0;
      while begin != |range|
        invariant 0 <= begin <= |range| && Valid()
        invariant Contents() == Run([], Pushes(range[..begin]))
      {
        var position := PushBackValue(range[begin]);
        assert Pushes(range[..begin + 1])[..begin] == Pushes(range[..begin]);
        begin := begin + 1;
      }
      assert range[..|range|] == range;
    }

    method PushBackValue(val: T) returns (position: Node<T>)
      requires Valid()
      modifies this
      ensures Valid() && Contents() == Apply(old(Contents()), PushBack(val)) && PositionsStay()
      ensures if val in old(umap) then lst == old(lst) && umap == old(umap)
              else lst == old(lst) + [position] && umap == old(umap)[val := position]
      ensures val in umap && position == umap[val] && position.val == val
    {
      hide Indexed;
      IndexFinds(lst, umap, val);
      if val in umap {
        return umap[val];
      }
      position := new Node(val);
      IndexedInsert(lst, umap, |lst|, position);
      ValuesOfInsert(lst, |lst|, position);
      assert lst[..|lst|] + [position] + lst[|lst|..] == lst + [position];
      lst := lst + [position];
      umap := umap[val := position];
    }

    method PopBackValue()
      requires Valid()
      modifies this
      ensures Valid() && Contents() == Apply(old(Contents()), PopBack) && PositionsStay()
      ensures if old(lst) == [] then lst == [] && umap == old(umap)
              else old(lst) == lst + [old(lst)[|old(lst)| - 1]]
                   && umap == old(umap) - {old(lst)[|old(lst)| - 1].val}
    {
      if lst == [] {
        return;
      }
      hide Indexed;
      IndexedRemove(lst, umap, |lst| - 1);
      ValuesOfRemove(lst, |lst| - 1);
      assert lst[..|lst| - 1] + lst[|lst|..] == lst[..|lst| - 1];
      umap := umap - {lst[|lst| - 1].val};
      lst := lst[..|lst| - 1];
    }

    // insert before a position, which must be one of this list unless val is in the list already.
    method InsertValue(position: Node?<T>, val: T) returns (at: Node<T>)
      requires Valid()
      requires val !in umap && position != null ==> position in lst
      modifies this
      ensures Valid() && PositionsStay()
      ensures var op := Insert(if position == null then None else Some(position.val), val);
              Legal(old(Contents()), op) && Contents() == Apply(old(Contents()), op)
      ensures val in umap && at == umap[val] && at.val == val
      ensures if val in old(umap) then lst == old(lst) && umap == old(umap)
              else exists i :: 0 <= i <= |old(lst)| && lst == old(lst)[..i] + [at] + old(lst)[i..]
                     && (if position == null then i == |old(lst)| else i < |old(lst)| && old(lst)[i] == position)
      ensures val !in old(umap) ==> umap == old(umap)[val := at]
    {
      hide Indexed;
      IndexFinds(lst, umap, val);
      if val in umap {
        return umap[val];
      }
      at := new Node(val);
      if position == null {
        IndexedInsert(lst, umap, |lst|, at);
        ValuesOfInsert(lst, |lst|, at);
        assert lst[..|lst|] + [at] + lst[|lst|..] == lst + [at];
        lst := lst + [at];
      } else {
        var i :| 0 <= i < |lst| && lst[i] == position;
        IndexFinds(lst, umap, position.val);
        IndexedInsert(lst, umap, i, at);
        ValuesOfInsert(lst, i, at);
        assert Values(lst)[i] == position.val;
        lst := lst[..i] + [at] + lst[i..];
      }
      umap := umap[val := at];
    }

    method EraseValue(val: T)
      requires Valid()
      modifies this
      ensures Valid() && Contents() == Apply(old(Contents()), Erase(val)) && PositionsStay()
      ensures if val !in old(umap) then lst == old(lst) && umap == old(umap)
              else exists i :: 0 <= i < |old(lst)| && lst == old(lst)[..i] + old(lst)[i + 1..]
                     && old(lst)[i] == old(umap)[val]
      ensures umap == old(umap) - {val}
    {
      IndexFinds(lst, umap, val);
      if val !in umap {
        assert umap - {val} == umap;
        return;
      }
      hide IndexOf, Without, Distinct;
      IndexHolds(lst, umap, val);
      var i :| 0 <= i < |lst| && lst[i] == umap[val];
      hide Indexed, Without;
      IndexedRemove(lst, umap, i);
      RemovedIsWithout(lst, umap, i);
      lst := lst[..i] + lst[i + 1..];
      umap := umap - {val};
    }

    method ClearAll()
      modifies this
      ensures Valid() && Contents() == [] && PositionsStay()
    {
      umap := map[];
      lst := [];
    }

    // One operation; a position is given by the value that is there.
    method Perform(op: Op<T>)
      requires Valid() && Legal(Contents(), op)
      modifies this
      ensures Valid() && Contents() == Apply(old(Contents()), op) && PositionsStay()
    {
      hide Indexed;
      match op {
        case PushBack(val) =>
          var _ := PushBackValue(val);
        case Insert(before, val) =>
          IndexFinds(lst, umap, val);
          var position := null;
          if before.Some? && val !in umap {
            IndexFinds(lst, umap, before.value);
            IndexHolds(lst, umap, before.value);
            position := umap[before.value];
          }
          var _ := InsertValue(position, val);
        case PopBack => PopBackValue();
        case Erase(val) => EraseValue(val);
        case Clear => ClearAll();
      }
    }

    // Operations in a row.  The position of a value is the same as before as long as the value has been
    // in the list all the time.
    method PerformAll(ops: seq<Op<T>>)
      requires Valid() && LegalRun(Contents(), ops)
      modifies this
      ensures Valid() && Contents() == Run(old(Contents()), ops)
      ensures forall v :: Remains(old(Contents()), ops, v) ==>
                v in old(umap) && v in umap && umap[v] == old(umap)[v]
    {
      hide Indexed, Apply, Legal;
      ghost var s := Contents();
      RemainsNone(lst, umap, s);
      for i := 0 to |ops|
        invariant Valid() && Contents() == Run(s, ops[..i])
        invariant forall v :: Remains(s, ops[..i], v) ==>
                    v in old(umap) && v in umap && umap[v] == old(umap)[v]
      {
        assert ops[..i + 1][..i] == ops[..i];
        Perform(ops[i]);
        forall v | Remains(s, ops[..i + 1], v)
          ensures v in old(umap) && v in umap && umap[v] == old(umap)[v]
        {
          RemainsBefore(s, ops, i, v);
          IndexFinds(lst, umap, v);
        }
      }
      assert ops[..|ops|] == ops;
    }
  }

  // Every operation of a run is legal when its turn comes.
  ghost predicate LegalRun<T>(s: seq<T>, ops: seq<Op<T>>) {
    forall i :: 0 <= i < |ops| ==> Legal(Run(s, ops[..i]), ops[i])
  }

  // v is in the list at the beginning of a run and after each of its operations.
  ghost predicate Remains<T>(s: seq<T>, ops: seq<Op<T>>, v: T) {
    forall i :: 0 <= i <= |ops| ==> v in Run(s, ops[..i])
  }

  lemma RemainsNone<T>(nodes: seq<Node<T>>, index: map<T, Node<T>>, s: seq<T>)
    requires Indexed(nodes, index) && s == Values(nodes)
    ensures Run(s, []) == s
    ensures forall v :: Remains(s, [], v) ==> v in index
  {
    hide Indexed;
    var none: seq<Op<T>> := [];
    assert none[..0] == none;
    forall v | Remains(s, none, v)
      ensures v in index
    {
      assert v in Run(s, none[..0]);
      IndexFinds(nodes, index, v);
    }
  }

  lemma RemainsBefore<T>(s: seq<T>, ops: seq<Op<T>>, n: nat, v: T)
    requires n < |ops| && Remains(s, ops[..n + 1], v)
    ensures Remains(s, ops[..n], v) && v in Run(s, ops[..n + 1])
  {
    hide Run;
    assert ops[..n + 1][..n + 1] == ops[..n + 1];
    forall i | 0 <= i <= n
      ensures v in Run(s, ops[..n][..i])
    {
      assert ops[..n][..i] == ops[..n + 1][..i];
    }
  }

  ghost function Pushes<T>(range: seq<T>): seq<Op<T>> {
    seq(|range|, i requires 0 <= i < |range| => PushBack(range[i]))
  }

  // The constructor from a range keeps every value once, in the order of its first occurrences.
  lemma RangeWithoutDuplicates<T>(range: seq<T>)
    ensures var r := Run([], Pushes(range));
            && NoDuplicates(r)
            && (forall v :: v in r <==> v in range)
            && (forall i, j :: 0 <= i < j < |r| ==> IndexOf(range, r[i]) < IndexOf(range, r[j]))
  {
    RunKeeps([], Pushes(range));
    RangeOccurs(range);
  }

  lemma {:induction false} RangeOccurs<T>(range: seq<T>)
    ensures var r := Run([], Pushes(range));
            && (forall v :: v in r <==> v in range)
            && (forall i, j :: 0 <= i < j < |r| ==> IndexOf(range, r[i]) < IndexOf(range, r[j]))
    decreases |range|
  {
    if range == [] {
    } else {
      var init, last := range[..|range| - 1], range[|range| - 1];
      var before := Run([], Pushes(init));
      RangeOccurs(init);
      assert Pushes(range)[..|range| - 1] == Pushes(init);
      assert Run([], Pushes(range)) == if last in before then before else before + [last];
      hide Run;
      OccurrencesStay(init, last);
      assert range == init + [last];
    }
  }

  lemma OccurrencesStay<T>(init: seq<T>, last: T)
    ensures forall v :: v in init ==> v in init + [last] && IndexOf(init + [last], v) == IndexOf(init, v)
    ensures last in init + [last] && (last !in init ==> IndexOf(init + [last], last) == |init|)
  {
    forall v | v in init
      ensures v in init + [last] && IndexOf(init + [last], v) == IndexOf(init, v)
    {
      FirstInPrefix(init, init + [last], v);
    }
    assert (init + [last])[..|init|] == init;
    if last !in init {
      FirstAt(init + [last], |init|);
    }
  }

  lemma {:induction false} FirstInPrefix<T>(s: seq<T>, t: seq<T>, v: T)
    requires s <= t && v in s
    ensures v in t && IndexOf(t, v) == IndexOf(s, v)
    decreases |s|
  {
    assert t[IndexOf(s, v)] == v;
    if s[0] == v {
    } else {
      assert s == [s[0]] + s[1..];
      FirstInPrefix(s[1..], t[1..], v);
    }
  }
}
