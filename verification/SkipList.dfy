/**
 The skip list of a memtable (db/skiplist.h): nodes linked level by level, one writer,
 readers that take no lock.  Nodes are numbered in the order they were allocated, and
 node 0 is the head; `next` holds the link of a node at a level.  Keys are ranks in the
 order of the comparator.
 */
module SkipLists {
  import opened Wrappers

  const MAX_HEIGHT := 12
  const HEAD: nat := 0

  type Key = real

  datatype Node = Node(key: Key, height: nat)

  datatype List = List(nodes: seq<Node>, next: map<(nat, nat), Option<nat>>, maxHeight: nat)

  // ----- the chain of nodes at one level -----

  // The node at position `i` is on level `l`, and links to the next one.
  ghost predicate LinksOn(s: List, l: nat, chain: seq<nat>, i: nat)
    requires i < |chain|
  {
    && chain[i] < |s.nodes| && l < s.nodes[chain[i]].height
    && (chain[i], l) in s.next
    && s.next[(chain[i], l)] == if i + 1 < |chain| then Some(chain[i + 1]) else None
  }

  // The links of level `l` lead from the head through exactly `chain`.
  ghost predicate Linked(s: List, l: nat, chain: seq<nat>) {
    && chain != [] && chain[0] == HEAD
    && forall i :: 0 <= i < |chain| ==> LinksOn(s, l, chain, i)
  }

  // Strictly sorted behind the head.
  ghost predicate Sorted(nodes: seq<Node>, chain: seq<nat>) {
    && (forall i :: 0 <= i < |chain| ==> chain[i] < |nodes|)
    && (forall i :: 1 <= i < |chain| ==> chain[i] != HEAD)
    && (forall i, j :: 1 <= i < j < |chain| ==> nodes[chain[i]].key < nodes[chain[j]].key)
  }

  // Every node of a level is a node of the levels below.
  ghost predicate Nested(levels: seq<seq<nat>>) {
    forall m, l, x :: 0 <= m < l < |levels| && x in levels[l] ==> x in levels[m]
  }

  ghost predicate WellLinked(s: List, levels: seq<seq<nat>>) {
    && |levels| == MAX_HEIGHT
    && 1 <= s.maxHeight <= MAX_HEIGHT
    && (forall l :: 0 <= l < MAX_HEIGHT ==> Linked(s, l, levels[l]) && Sorted(s.nodes, levels[l]))
    && Nested(levels)
    && (forall l :: s.maxHeight <= l < MAX_HEIGHT ==> levels[l] == [HEAD])
  }

  lemma {:induction false} LevelFacts(s: List, levels: seq<seq<nat>>, l: nat)
    requires WellLinked(s, levels) && l < MAX_HEIGHT
    ensures Linked(s, l, levels[l]) && Sorted(s.nodes, levels[l]) && HEAD in levels[l]
    ensures l > 0 ==> forall x :: x in levels[l] ==> x in levels[l - 1]
  {
    assert levels[l][0] == HEAD;
  }

  // A sorted level that is nested in another one is a sublist of it: the order of any
  // two nodes is the same in both.
  lemma {:induction false} NestedIsSublist(nodes: seq<Node>, upper: seq<nat>, lower: seq<nat>, i: nat, j: nat) returns (p: nat, q: nat)
    requires Sorted(nodes, upper) && Sorted(nodes, lower) && i < j < |upper|
    requires upper[0] == HEAD && lower != [] && lower[0] == HEAD && forall x :: x in upper ==> x in lower
    ensures p < q < |lower| && lower[p] == upper[i] && lower[q] == upper[j]
  {
    assert upper[i] in lower && upper[j] in lower;
    p :| 0 <= p < |lower| && lower[p] == upper[i];
    q :| 0 <= q < |lower| && lower[q] == upper[j];
    assert i == 0 ==> p == 0;
    assert q > 0;
    if i > 0 {
      OrderOfKeys(nodes, upper, i, j);
      OrderOfKeys(nodes, lower, p, q);
    }
  }

  lemma {:induction false} OrderOfKeys(nodes: seq<Node>, chain: seq<nat>, i: nat, j: nat)
    requires Sorted(nodes, chain) && 0 < i < |chain| && 0 < j < |chain|
    ensures i < j <==> nodes[chain[i]].key < nodes[chain[j]].key
  {
    assert i < j ==> nodes[chain[i]].key < nodes[chain[j]].key;
    assert j < i ==> nodes[chain[j]].key < nodes[chain[i]].key;
  }

  // ----- searching -----

  // The head comes before every key.
  predicate Precedes(nodes: seq<Node>, x: nat, key: Key)
    requires x < |nodes|
  {
    x == HEAD || nodes[x].key < key
  }

  // A null link is considered infinite.
  predicate KeyIsAfterNode(nodes: seq<Node>, key: Key, n: Option<nat>)
    requires n.Some? ==> n.value < |nodes|
  {
    n.Some? && nodes[n.value].key < key
  }

  // Position `q` is the last one of the chain that comes before the key.
  ghost predicate Splits(nodes: seq<Node>, chain: seq<nat>, q: nat, key: Key) {
    && q < |chain| && (forall i :: 0 <= i < |chain| ==> chain[i] < |nodes|)
    && (forall i :: 1 <= i <= q ==> nodes[chain[i]].key < key)
    && (forall i :: q < i < |chain| ==> key <= nodes[chain[i]].key)
  }

  // `x` is the last node of the chain before the key.
  ghost predicate LastBefore(nodes: seq<Node>, chain: seq<nat>, x: nat, key: Key) {
    exists q: nat :: Splits(nodes, chain, q, key) && chain[q] == x
  }

  // The first node of the chain that is not before the key, if there is one.
  ghost predicate FirstFrom(nodes: seq<Node>, chain: seq<nat>, r: Option<nat>, key: Key) {
    exists q: nat :: Splits(nodes, chain, q, key) && r == if q + 1 < |chain| then Some(chain[q + 1]) else None
  }

  // What one look at a link tells.
  lemma {:induction false} LookAhead(s: List, l: nat, chain: seq<nat>, x: nat, key: Key)
    requires Linked(s, l, chain) && Sorted(s.nodes, chain) && x in chain && Precedes(s.nodes, x, key)
    ensures (x, l) in s.next
    ensures var n := s.next[(x, l)];
      && (n.Some? ==> n.value in chain && n.value < |s.nodes|)
      && (if KeyIsAfterNode(s.nodes, key, n)
          then Precedes(s.nodes, n.value, key) && n.value != HEAD
          else LastBefore(s.nodes, chain, x, key) && FirstFrom(s.nodes, chain, n, key))
  {
    var q :| 0 <= q < |chain| && chain[q] == x;
    assert LinksOn(s, l, chain, q);
    var n := s.next[(x, l)];
    assert n == if q + 1 < |chain| then Some(chain[q + 1]) else None;
    if !KeyIsAfterNode(s.nodes, key, n) {
      forall i | 1 <= i <= q
        ensures s.nodes[chain[i]].key < key
      {
      }
      forall i | q < i < |chain|
        ensures key <= s.nodes[chain[i]].key
      {
        assert n == Some(chain[q + 1]);
      }
      assert Splits(s.nodes, chain, q, key);
    }
  }

  // The first node from a key on is the least one: no node is skipped.
  lemma {:induction false} FirstFromIsLeast(nodes: seq<Node>, chain: seq<nat>, r: Option<nat>, key: Key, x: nat)
    requires Sorted(nodes, chain) && FirstFrom(nodes, chain, r, key)
    requires x in chain && x != HEAD && chain[0] == HEAD && key <= nodes[x].key
    ensures r.Some? && r.value in chain && r.value < |nodes| && key <= nodes[r.value].key <= nodes[x].key
  {
    var q: nat :| Splits(nodes, chain, q, key) && r == if q + 1 < |chain| then Some(chain[q + 1]) else None;
    var i :| 0 <= i < |chain| && chain[i] == x;
    assert q < i;
    assert i > q + 1 ==> nodes[chain[q + 1]].key < nodes[chain[i]].key;
  }

  // ----- the stores of an insertion -----

  function Place(chain: seq<nat>, q: nat, x: nat): seq<nat>
    requires q < |chain|
  {
    chain[..q + 1] + [x] + chain[q + 1..]
  }

  lemma {:induction false} PlacedAt(chain: seq<nat>, q: nat, x: nat)
    requires q < |chain|
    ensures |Place(chain, q, x)| == |chain| + 1
    ensures Place(chain, q, x)[q + 1] == x
    ensures forall i :: 0 <= i <= q ==> Place(chain, q, x)[i] == chain[i]
    ensures forall i :: q + 1 < i <= |chain| ==> Place(chain, q, x)[i] == chain[i - 1]
  {
  }

  lemma {:induction false} PlacedNodes(chain: seq<nat>, q: nat, x: nat, y: nat)
    requires q < |chain|
    ensures y in Place(chain, q, x) <==> y == x || y in chain
  {
    var r := Place(chain, q, x);
    if y in chain {
      var i :| 0 <= i < |chain| && chain[i] == y;
      assert r[if i <= q then i else i + 1] == y;
    }
    assert r[q + 1] == x;
  }

  // A link of a node that is not in the chain, or of another level, does not matter.
  lemma {:induction false} LinkedElsewhere(s: List, l: nat, chain: seq<nat>, x: nat, m: nat, n: Option<nat>)
    requires Linked(s, l, chain) && (m != l || x !in chain)
    ensures Linked(s.(next := s.next[(x, m) := n]), l, chain)
  {
    var s' := s.(next := s.next[(x, m) := n]);
    forall i | 0 <= i < |chain|
      ensures LinksOn(s', l, chain, i)
    {
      assert LinksOn(s, l, chain, i) && chain[i] in chain;
    }
  }

  // x->NoBarrier_SetNext(i, prev[i]->NoBarrier_Next(i)): not visible yet.
  lemma {:induction false} OwnLinkIsInvisible(s: List, levels: seq<seq<nat>>, x: nat, l: nat, n: Option<nat>)
    requires WellLinked(s, levels) && l < MAX_HEIGHT && x !in levels[l]
    ensures WellLinked(s.(next := s.next[(x, l) := n]), levels)
  {
    hide Linked, Sorted, Nested;
    forall m | 0 <= m < MAX_HEIGHT
      ensures Linked(s.(next := s.next[(x, l) := n]), m, levels[m])
    {
      LinkedElsewhere(s, m, levels[m], x, l, n);
    }
  }

  // prev[i]->SetNext(i, x): the node appears in the chain, in its place.
  lemma {:induction false} StoreLinks(s: List, l: nat, chain: seq<nat>, q: nat, x: nat)
    requires Linked(s, l, chain) && Sorted(s.nodes, chain) && q < |chain|
    requires x < |s.nodes| && x !in chain && l < s.nodes[x].height
    requires (x, l) in s.next && (chain[q], l) in s.next && s.next[(x, l)] == s.next[(chain[q], l)]
    requires Splits(s.nodes, chain, q, s.nodes[x].key)
    requires forall y :: y in chain && y != HEAD ==> s.nodes[y].key != s.nodes[x].key
    ensures Linked(s.(next := s.next[(chain[q], l) := Some(x)]), l, Place(chain, q, x))
    ensures Sorted(s.nodes, Place(chain, q, x))
  {
    hide Sorted, Splits, Place;
    PlacedAt(chain, q, x);
    var s' := s.(next := s.next[(chain[q], l) := Some(x)]);
    var r := Place(chain, q, x);
    forall i | 0 <= i < |r|
      ensures LinksOn(s', l, r, i)
    {
      assert LinksOn(s, l, chain, q) && chain[q] in chain;
      if i < q {
        assert LinksOn(s, l, chain, i) && r[i] == chain[i] && r[i + 1] == chain[i + 1];
        DistinctNodes(s.nodes, chain, i, q);
      } else if i > q + 1 {
        assert LinksOn(s, l, chain, i - 1) && r[i] == chain[i - 1] && chain[i - 1] in chain;
        assert i + 1 < |r| ==> r[i + 1] == chain[i];
        DistinctNodes(s.nodes, chain, i - 1, q);
      } else {
        assert r[q] == chain[q] && r[q + 1] == x;
        assert q + 2 < |r| ==> r[q + 2] == chain[q + 1];
      }
    }
    PlaceIsSorted(s.nodes, chain, q, x);
  }

  lemma {:induction false} DistinctNodes(nodes: seq<Node>, chain: seq<nat>, i: nat, j: nat)
    requires Sorted(nodes, chain) && i < |chain| && j < |chain| && i != j && chain[0] == HEAD
    ensures chain[i] != chain[j]
  {
    var a, b := if i < j then i else j, if i < j then j else i;
    if a > 0 {
      assert nodes[chain[a]].key < nodes[chain[b]].key;
    }
  }

  lemma {:induction false} PlaceIsSorted(nodes: seq<Node>, chain: seq<nat>, q: nat, x: nat)
    requires Sorted(nodes, chain) && q < |chain| && x < |nodes| && x !in chain && chain[0] == HEAD
    requires Splits(nodes, chain, q, nodes[x].key)
    requires forall y :: y in chain && y != HEAD ==> nodes[y].key != nodes[x].key
    ensures Sorted(nodes, Place(chain, q, x))
  {
    var r := Place(chain, q, x);
    assert HEAD in chain;
    forall i | 0 <= i < |chain|
      ensures i > q ==> nodes[x].key < nodes[chain[i]].key
    {
      assert chain[i] in chain;
    }
    forall i | 0 <= i < |r|
      ensures r[i] == if i <= q then chain[i] else if i == q + 1 then x else chain[i - 1]
    {
    }
  }

  ghost predicate NoDuplicate(nodes: seq<Node>, chain: seq<nat>, key: Key) {
    forall y :: y in chain && y != HEAD && y < |nodes| ==> nodes[y].key != key
  }

  // Linking a node at level `l`, once it is linked at every level below.
  lemma {:induction false} LinkKeepsList(s: List, levels: seq<seq<nat>>, l: nat, q: nat, x: nat)
    requires WellLinked(s, levels) && l < s.maxHeight && q < |levels[l]|
    requires x < |s.nodes| && x !in levels[l] && l < s.nodes[x].height
    requires l > 0 ==> x in levels[l - 1]
    requires (x, l) in s.next && (levels[l][q], l) in s.next && s.next[(x, l)] == s.next[(levels[l][q], l)]
    requires Splits(s.nodes, levels[l], q, s.nodes[x].key) && NoDuplicate(s.nodes, levels[l], s.nodes[x].key)
    ensures WellLinked(s.(next := s.next[(levels[l][q], l) := Some(x)]), levels[l := Place(levels[l], q, x)])
  {
    hide Linked, Splits;
    var s' := s.(next := s.next[(levels[l][q], l) := Some(x)]);
    var levels' := levels[l := Place(levels[l], q, x)];
    StoreLinks(s, l, levels[l], q, x);
    forall m | 0 <= m < MAX_HEIGHT
      ensures Linked(s', m, levels'[m]) && Sorted(s'.nodes, levels'[m])
    {
      if m != l {
        LinkedElsewhere(s, m, levels[m], levels[l][q], l, Some(x));
      }
    }
    forall a, b, y | 0 <= a < b < MAX_HEIGHT && y in levels'[b]
      ensures y in levels'[a]
    {
      PlacedNodes(levels[l], q, x, y);
      assert y in levels[b] ==> y in levels[a];
      assert y == x && b == l ==> a == l - 1 || y in levels[a];
    }
  }

  // Storing a larger height shows readers only empty levels.
  lemma {:induction false} RaisedHeight(s: List, levels: seq<seq<nat>>, height: nat)
    requires WellLinked(s, levels) && s.maxHeight <= height <= MAX_HEIGHT
    ensures WellLinked(s.(maxHeight := height), levels)
  {
    hide Sorted, Nested;
    forall l | 0 <= l < MAX_HEIGHT
      ensures Linked(s.(maxHeight := height), l, levels[l])
    {
      assert Linked(s, l, levels[l]);
      forall i | 0 <= i < |levels[l]|
        ensures LinksOn(s.(maxHeight := height), l, levels[l], i)
      {
        assert LinksOn(s, l, levels[l], i);
      }
    }
  }

  lemma {:induction false} NewNodeIsInvisible(s: List, levels: seq<seq<nat>>, n: Node)
    requires WellLinked(s, levels)
    ensures WellLinked(s.(nodes := s.nodes + [n]), levels)
    ensures forall l :: 0 <= l < MAX_HEIGHT ==> |s.nodes| !in levels[l]
  {
    forall l | 0 <= l < MAX_HEIGHT
      ensures Linked(s.(nodes := s.nodes + [n]), l, levels[l]) && Sorted(s.nodes + [n], levels[l]) && |s.nodes| !in levels[l]
    {
      assert Linked(s, l, levels[l]) && Sorted(s.nodes, levels[l]);
      forall i | 0 <= i < |levels[l]|
        ensures LinksOn(s.(nodes := s.nodes + [n]), l, levels[l], i)
      {
        assert LinksOn(s, l, levels[l], i);
      }
    }
  }

  // ----- the list as the writer uses it -----

  class SkipList {
    var list: List
    // The chain of every level.
    ghost var levels: seq<seq<nat>>

    ghost predicate Valid()
      reads this
    {
      WellLinked(list, levels)
    }

    // The keys, which are those of the lowest level.
    ghost function Keys(): set<Key>
      requires Valid()
      reads this
    {
      ChainKeys(list.nodes, levels[0])
    }

    constructor ()
      ensures Valid() && Keys() == {}
    {
      list := List([Node(0.0, MAX_HEIGHT)], map l: nat | l < MAX_HEIGHT :: (HEAD, l) := None, 1);
      levels := seq(MAX_HEIGHT, _ => [HEAD]);
    }

    // FindGreaterOrEqual: also the last node before the key at every level in use.
    method FindGreaterOrEqual(key: Key) returns (r: Option<nat>, prev: seq<nat>)
      requires Valid()
      ensures FirstFrom(list.nodes, levels[0], r, key)
      ensures |prev| == MAX_HEIGHT
      ensures forall l :: 0 <= l < list.maxHeight ==> LastBefore(list.nodes, levels[l], prev[l], key)
    {
      hide Linked, Sorted, Nested, Splits, LastBefore, FirstFrom;
      var x: nat := HEAD;
      var level: nat := list.maxHeight - 1;
      prev := seq(MAX_HEIGHT, _ => HEAD);
      LevelFacts(list, levels, level);
      ghost var at: nat := PositionOf(levels[level], x);
      while true
        invariant 0 <= level < list.maxHeight && |prev| == MAX_HEIGHT
        invariant at < |levels[level]| && levels[level][at] == x && x < |list.nodes| && Precedes(list.nodes, x, key)
        invariant forall l :: level < l < list.maxHeight ==> LastBefore(list.nodes, levels[l], prev[l], key)
        decreases level, |levels[level]| - at
      {
        LevelFacts(list, levels, level);
        LookAhead(list, level, levels[level], x, key);
        var next := list.next[(x, level)];
        if KeyIsAfterNode(list.nodes, key, next) {
          at := LinkIsNextPosition(list, level, levels[level], at);
          x := next.value;
        } else {
          prev := prev[level := x];
          if level == 0 {
            return next, prev;
          }
          level := level - 1;
          at := PositionOf(levels[level], x);
        }
      }
    }

    // FindLessThan, from which an iterator steps backward; the head means none.
    method FindLessThan(key: Key) returns (x: nat)
      requires Valid()
      ensures LastBefore(list.nodes, levels[0], x, key)
    {
      hide Linked, Sorted, Nested, Splits, LastBefore, FirstFrom;
      x := HEAD;
      var level: nat := list.maxHeight - 1;
      LevelFacts(list, levels, level);
      ghost var at: nat := PositionOf(levels[level], x);
      while true
        invariant 0 <= level < list.maxHeight
        invariant at < |levels[level]| && levels[level][at] == x && x < |list.nodes| && Precedes(list.nodes, x, key)
        decreases level, |levels[level]| - at
      {
        LevelFacts(list, levels, level);
        LookAhead(list, level, levels[level], x, key);
        var next := list.next[(x, level)];
        if next.None? || list.nodes[next.value].key >= key {
          if level == 0 {
            return x;
          }
          level := level - 1;
          at := PositionOf(levels[level], x);
        } else {
          at := LinkIsNextPosition(list, level, levels[level], at);
          x := next.value;
        }
      }
    }

    // FindLast: the end of the lowest chain.
    method FindLast() returns (x: nat)
      requires Valid()
      ensures levels[0] != [] && x == levels[0][|levels[0]| - 1]
    {
      hide Linked, Sorted, Nested;
      x := HEAD;
      var level: nat := list.maxHeight - 1;
      LevelFacts(list, levels, level);
      ghost var at: nat := PositionOf(levels[level], x);
      while true
        invariant 0 <= level < list.maxHeight
        invariant at < |levels[level]| && levels[level][at] == x
        decreases level, |levels[level]| - at
      {
        LevelFacts(list, levels, level);
        LinkOf(list, levels, level, at);
        var next := list.next[(x, level)];
        if next.None? {
          LinkIsLast(list, level, levels[level], at);
          if level == 0 {
            return x;
          }
          level := level - 1;
          at := PositionOf(levels[level], x);
        } else {
          at := LinkIsNextPosition(list, level, levels[level], at);
          x := next.value;
        }
      }
    }

    method Contains(key: Key) returns (r: bool)
      requires Valid()
      ensures r <==> key in Keys()
    {
      var x, prev := FindGreaterOrEqual(key);
      FoundIffPresent(list, levels, x, key);
      r := x.Some? && list.nodes[x.value].key == key;
    }

    /**
     Insert, with the height that was drawn.  The list is well linked after every
     single store, and in the end the key has been added.
     */
    method Insert(key: Key, height: nat)
      requires Valid() && key !in Keys() && 1 <= height <= MAX_HEIGHT
      modifies this
      ensures Valid() && Keys() == old(Keys()) + {key}
      ensures list.maxHeight == if height > old(list.maxHeight) then height else old(list.maxHeight)
      ensures list.nodes == old(list.nodes) + [Node(key, height)]
      // The new node is on its `height` lowest levels and nowhere else, and no other node moves.
      ensures |levels| == |old(levels)| == MAX_HEIGHT
      ensures forall l, y :: 0 <= l < MAX_HEIGHT ==>
        (y in levels[l] <==> y in old(levels)[l] || (l < height && y == |old(list.nodes)|))
    {
      hide Linked, Sorted, Nested, Splits, LastBefore, FirstFrom, NoDuplicate;
      var r: Option<nat>, prev: seq<nat> := FindGreaterOrEqual(key);
      ghost var before := levels;
      LevelFacts(list, levels, 0);
      ChainBounds(list, levels, 0);
      HeadPrecedesEmpty(list, levels, key);
      NoDuplicateAnywhere(list, levels, key);
      if height > list.maxHeight {
        for i := list.maxHeight to height
          invariant |prev| == MAX_HEIGHT
          invariant forall l :: 0 <= l < i ==> LastBefore(list.nodes, levels[l], prev[l], key)
        {
          prev := prev[i := HEAD];
        }
        RaisedHeight(list, levels, height);
        list := list.(maxHeight := height);
      }
      ghost var earlier := list;
      var x := |list.nodes|;
      NewNodeIsInvisible(list, levels, Node(key, height));
      list := list.(nodes := list.nodes + [Node(key, height)]);
      for i := 0 to height
        invariant WellLinked(list, levels) && height <= list.maxHeight == earlier.maxHeight && list.nodes == earlier.nodes + [Node(key, height)]
        invariant forall l :: i <= l < MAX_HEIGHT ==> levels[l] == before[l] && x !in levels[l]
        invariant forall l, y :: 0 <= l < i ==> (y in levels[l] <==> y in before[l] || y == x)
        invariant i > 0 ==> x in levels[i - 1]
      {
        var p: nat := prev[i];
        assert levels[i] == before[i];
        ghost var q: nat := SplitsStill(earlier, list, levels[i], p, key);
        LinkOf(list, levels, i, q);
        var own := list.next[(p, i)];
        OwnLinkIsInvisible(list, levels, x, i, own);
        list := list.(next := list.next[(x, i) := own]);
        LinkKeepsList(list, levels, i, q, x);
        forall y
          ensures y in Place(levels[i], q, x) <==> y == x || y in levels[i]
        {
          PlacedNodes(levels[i], q, x, y);
        }
        list := list.(next := list.next[(p, i) := Some(x)]);
        levels := levels[i := Place(levels[i], q, x)];
      }
      InsertedKeys(earlier.nodes, list.nodes, before[0], levels[0], x, key);
    }
  }

  // Positions 1 to |chain| - 1 are the nodes in order of their keys; |chain| is past the end.
  class Iterator {
    const list: SkipList
    var node: Option<nat>

    constructor (list: SkipList)
      ensures this.list == list && node == None
    {
      this.list := list;
      node := None;
    }

    ghost predicate At(p: nat)
      reads this, list
    {
      && list.Valid() && 1 <= p <= |list.levels[0]|
      && node == if p < |list.levels[0]| then Some(list.levels[0][p]) else None
    }

    method Next(ghost p: nat)
      requires At(p) && node.Some?
      modifies this
      ensures At(p + 1)
    {
      LinkOf(list.list, list.levels, 0, p);
      NextLink(list.list, list.levels, p);
      node := list.list.next[(node.value, 0)];
    }

    // There are no links backward: search for the last node before the key.
    method Prev(ghost p: nat)
      requires At(p) && node.Some?
      modifies this
      ensures p == 1 ==> node == None
      ensures p > 1 ==> At(p - 1)
    {
      ChainBounds(list.list, list.levels, 0);
      var x := list.FindLessThan(list.list.nodes[node.value].key);
      BeforePosition(list.list, list.levels, p, x);
      node := if x == HEAD then None else Some(x);
    }

    method Seek(target: Key) returns (ghost p: nat)
      requires list.Valid()
      modifies this
      ensures At(p) && Splits(list.list.nodes, list.levels[0], p - 1, target)
    {
      var r, prev := list.FindGreaterOrEqual(target);
      ghost var q: nat :| Splits(list.list.nodes, list.levels[0], q, target)
                          && r == if q + 1 < |list.levels[0]| then Some(list.levels[0][q + 1]) else None;
      p := q + 1;
      node := r;
    }

    method SeekToFirst()
      requires list.Valid()
      modifies this
      ensures At(1)
    {
      LevelFacts(list.list, list.levels, 0);
      ChainStarts(list.list, 0, list.levels[0]);
      LinkOf(list.list, list.levels, 0, 0);
      NextLink(list.list, list.levels, 0);
      node := list.list.next[(HEAD, 0)];
    }

    method SeekToLast()
      requires list.Valid()
      modifies this
      ensures |list.levels[0]| == 1 ==> node == None
      ensures |list.levels[0]| > 1 ==> At(|list.levels[0]| - 1)
    {
      var x := list.FindLast();
      HeadIsFirst(list.list, list.levels);
      node := if x == HEAD then None else Some(x);
    }
  }

  lemma {:induction false} NextLink(s: List, levels: seq<seq<nat>>, q: nat)
    requires WellLinked(s, levels) && q < |levels[0]| && (levels[0][q], 0) in s.next
    ensures s.next[(levels[0][q], 0)] == if q + 1 < |levels[0]| then Some(levels[0][q + 1]) else None
  {
    LevelFacts(s, levels, 0);
    assert LinksOn(s, 0, levels[0], q);
  }

  lemma {:induction false} HeadIsFirst(s: List, levels: seq<seq<nat>>)
    requires WellLinked(s, levels)
    ensures levels[0] != [] && levels[0][0] == HEAD
    ensures forall i :: 1 <= i < |levels[0]| ==> levels[0][i] != HEAD
  {
    LevelFacts(s, levels, 0);
  }

  lemma {:induction false} BeforePosition(s: List, levels: seq<seq<nat>>, p: nat, x: nat)
    requires WellLinked(s, levels) && 1 <= p < |levels[0]| && levels[0][p] < |s.nodes|
    requires LastBefore(s.nodes, levels[0], x, s.nodes[levels[0][p]].key)
    ensures x == levels[0][p - 1] && (x == HEAD <==> p == 1)
  {
    hide Linked, Nested;
    LevelFacts(s, levels, 0);
    HeadIsFirst(s, levels);
    var chain := levels[0];
    var q: nat :| Splits(s.nodes, chain, q, s.nodes[chain[p]].key) && chain[q] == x;
    assert q < p;
    assert p > 1 ==> s.nodes[chain[p - 1]].key < s.nodes[chain[p]].key;
  }

  ghost function ChainKeys(nodes: seq<Node>, chain: seq<nat>): set<Key> {
    set x | x in chain && x != HEAD && x < |nodes| :: nodes[x].key
  }

  lemma {:induction false} PositionOf(chain: seq<nat>, x: nat) returns (q: nat)
    requires x in chain
    ensures q < |chain| && chain[q] == x
  {
    q :| 0 <= q < |chain| && chain[q] == x;
  }

  lemma {:induction false} LinkIsNextPosition(s: List, l: nat, chain: seq<nat>, q: nat) returns (p: nat)
    requires Linked(s, l, chain) && q < |chain| && (chain[q], l) in s.next && s.next[(chain[q], l)].Some?
    ensures q < p < |chain| && chain[p] == s.next[(chain[q], l)].value
  {
    assert LinksOn(s, l, chain, q);
    p := q + 1;
  }

  lemma {:induction false} LinkIsLast(s: List, l: nat, chain: seq<nat>, q: nat)
    requires Linked(s, l, chain) && q < |chain| && (chain[q], l) in s.next && s.next[(chain[q], l)].None?
    ensures q == |chain| - 1
  {
    assert LinksOn(s, l, chain, q);
  }

  lemma {:induction false} LinkOf(s: List, levels: seq<seq<nat>>, l: nat, q: nat)
    requires WellLinked(s, levels) && l < MAX_HEIGHT && q < |levels[l]|
    ensures (levels[l][q], l) in s.next && levels[l][q] in levels[l]
  {
    LevelFacts(s, levels, l);
    assert LinksOn(s, l, levels[l], q);
  }

  lemma {:induction false} FoundIffPresent(s: List, levels: seq<seq<nat>>, r: Option<nat>, key: Key)
    requires WellLinked(s, levels) && FirstFrom(s.nodes, levels[0], r, key)
    ensures r.Some? ==> r.value < |s.nodes| && r.value in levels[0] && r.value != HEAD
    ensures (r.Some? && s.nodes[r.value].key == key) <==> key in ChainKeys(s.nodes, levels[0])
  {
    hide Linked, Nested;
    LevelFacts(s, levels, 0);
    var chain := levels[0];
    var q: nat :| Splits(s.nodes, chain, q, key) && r == if q + 1 < |chain| then Some(chain[q + 1]) else None;
    assert q + 1 < |chain| ==> chain[q + 1] in chain;
    if key in ChainKeys(s.nodes, chain) {
      var x :| x in chain && x != HEAD && x < |s.nodes| && s.nodes[x].key == key;
      ChainStarts(s, 0, chain);
      FirstFromIsLeast(s.nodes, chain, r, key, x);
    }
  }

  lemma {:induction false} ChainBounds(s: List, levels: seq<seq<nat>>, l: nat)
    requires WellLinked(s, levels) && l < MAX_HEIGHT
    ensures forall x :: x in levels[l] ==> x < |s.nodes|
    ensures |s.nodes| > 0
  {
    assert Sorted(s.nodes, levels[l]) && Linked(s, l, levels[l]);
  }

  lemma {:induction false} ChainStarts(s: List, l: nat, chain: seq<nat>)
    requires Linked(s, l, chain)
    ensures chain != [] && chain[0] == HEAD
  {
  }

  // Above the height of the list the head is the last node before any key.
  lemma {:induction false} HeadPrecedesEmpty(s: List, levels: seq<seq<nat>>, key: Key)
    requires WellLinked(s, levels)
    ensures forall l :: s.maxHeight <= l < MAX_HEIGHT ==> LastBefore(s.nodes, levels[l], HEAD, key)
  {
    forall l | s.maxHeight <= l < MAX_HEIGHT
      ensures LastBefore(s.nodes, levels[l], HEAD, key)
    {
      LevelFacts(s, levels, l);
      assert Splits(s.nodes, levels[l], 0, key);
    }
  }

  lemma {:induction false} NoDuplicateAnywhere(s: List, levels: seq<seq<nat>>, key: Key)
    requires WellLinked(s, levels) && key !in ChainKeys(s.nodes, levels[0])
    ensures forall l :: 0 <= l < MAX_HEIGHT ==> NoDuplicate(s.nodes, levels[l], key)
  {
    hide Linked, Sorted;
    forall l, y | 0 <= l < MAX_HEIGHT && y in levels[l] && y != HEAD && y < |s.nodes|
      ensures s.nodes[y].key != key
    {
      assert l > 0 ==> y in levels[0];
    }
  }

  // The search result stays right while only the new node has been added.
  lemma {:induction false} SplitsStill(s: List, s': List, chain: seq<nat>, p: nat, key: Key) returns (q: nat)
    requires LastBefore(s.nodes, chain, p, key) && NoDuplicate(s.nodes, chain, key) && s.nodes <= s'.nodes
    ensures Splits(s'.nodes, chain, q, key) && chain[q] == p && NoDuplicate(s'.nodes, chain, key)
  {
    q :| Splits(s.nodes, chain, q, key) && chain[q] == p;
  }

  lemma {:induction false} InsertedKeys(nodes: seq<Node>, nodes': seq<Node>, chain: seq<nat>, chain': seq<nat>, x: nat, key: Key)
    requires x == |nodes| && x != HEAD && nodes <= nodes' && x < |nodes'| && nodes'[x].key == key
    requires forall y :: y in chain ==> y < |nodes|
    requires forall y :: y in chain' <==> y in chain || y == x
    ensures ChainKeys(nodes', chain') == ChainKeys(nodes, chain) + {key}
  {
    forall k
      ensures k in ChainKeys(nodes', chain') <==> k in ChainKeys(nodes, chain) || k == key
    {
      if k in ChainKeys(nodes, chain) {
        var y :| y in chain && y != HEAD && y < |nodes| && nodes[y].key == k;
        assert y in chain' && nodes'[y].key == k;
      }
      assert x in chain';
    }
  }
}
