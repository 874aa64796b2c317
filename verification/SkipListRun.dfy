/**
 The skip list under one writer and a reader that takes no lock: every store of Insert
 and every link that a search follows is one atomic step.  Readers only read, so one
 search beside the writer stands for any number of them.
 */
module SkipListRun {
  import opened Wrappers
  import opened SkipLists

  // The writer between two of its stores.
  datatype Writer =
    | Resting
    // The search is over: `prev` holds the last node before the key at every level.
    | Searched(key: Key, height: nat, prev: seq<nat>)
    // Every level below `level` is linked; `own` once the new node has its own link there.
    | Linking(node: nat, prev: seq<nat>, level: nat, own: bool)

  datatype Search =
    | Walking(target: Key, x: nat, level: nat)
    | Found(target: Key, result: Option<nat>)

  // `start` is the level and `looks` the number of links the search has followed.
  datatype Reader = Reader(search: Search, start: nat, looks: nat)

  // `levels` are the chains that the links form.
  datatype System = System(list: List, levels: seq<seq<nat>>, writer: Writer, reader: Option<Reader>)

  // ----- the invariant -----

  // The node belongs at the level, next to the one that the writer's search found.
  ghost predicate Fits(s: List, levels: seq<seq<nat>>, l: nat, x: nat, key: Key)
    requires l < |levels|
  {
    LastBefore(s.nodes, levels[l], x, key) && NoDuplicate(s.nodes, levels[l], key)
  }

  ghost predicate WriterInv(y: System)
    requires |y.levels| == MAX_HEIGHT
  {
    match y.writer
    case Resting => true
    case Searched(key, height, prev) =>
      && 1 <= height <= MAX_HEIGHT && |prev| == MAX_HEIGHT
      && (forall l :: 0 <= l < MAX_HEIGHT ==> Fits(y.list, y.levels, l, prev[l], key))
    case Linking(node, prev, level, own) =>
      && node < |y.list.nodes| && level < y.list.nodes[node].height <= y.list.maxHeight && level < |prev| == MAX_HEIGHT
      && (forall l :: level <= l < MAX_HEIGHT ==> node !in y.levels[l])
      && (forall l :: 0 <= l < level ==> node in y.levels[l])
      && (forall l :: level <= l < MAX_HEIGHT ==> Fits(y.list, y.levels, l, prev[l], y.list.nodes[node].key))
      && (own ==> (node, level) in y.list.next && (prev[level], level) in y.list.next
                  && y.list.next[(node, level)] == y.list.next[(prev[level], level)])
  }

  // How many nodes a search has certainly left behind.
  ghost predicate Reached(chain: seq<nat>, x: nat, n: nat) {
    exists q :: n <= q < |chain| && chain[q] == x
  }

  ghost predicate ReaderInv(y: System, r: Reader)
    requires |y.levels| == MAX_HEIGHT
  {
    && r.start < MAX_HEIGHT
    && match r.search
       case Walking(target, x, level) =>
         && level <= r.start && x < |y.list.nodes|
         && x in y.levels[level] && Precedes(y.list.nodes, x, target)
         && r.start - level <= r.looks
         && Reached(y.levels[0], x, r.looks - (r.start - level))
       case Found(target, result) =>
         r.looks <= |y.levels[0]| + r.start
  }

  ghost predicate Inv(y: System) {
    && |y.levels| == MAX_HEIGHT && WellLinked(y.list, y.levels)
    && WriterInv(y)
    && (y.reader.Some? ==> ReaderInv(y, y.reader.value))
  }

  // ----- the steps of the writer -----

  // The search of Insert: the writer is alone in changing the list, so its own search
  // is as good as one step.
  ghost predicate FinishSearch(y: System, key: Key, height: nat, prev: seq<nat>, y': System) {
    && y.writer.Resting? && 1 <= height <= MAX_HEIGHT && |prev| == |y.levels| == MAX_HEIGHT
    && (forall l :: 0 <= l < MAX_HEIGHT ==> Fits(y.list, y.levels, l, prev[l], key))
    && y' == y.(writer := Searched(key, height, prev))
  }

  // max_height_.store
  ghost predicate RaiseHeight(y: System, y': System) {
    && y.writer.Searched? && y.writer.height > y.list.maxHeight
    && y' == y.(list := y.list.(maxHeight := y.writer.height))
  }

  ghost predicate CreateNode(y: System, y': System) {
    && y.writer.Searched? && y.writer.height <= y.list.maxHeight
    && var w := y.writer;
       y' == y.(list := y.list.(nodes := y.list.nodes + [Node(w.key, w.height)]),
                writer := Linking(|y.list.nodes|, w.prev, 0, false))
  }

  // x->NoBarrier_SetNext
  ghost predicate StoreOwnLink(y: System, y': System) {
    && y.writer.Linking? && !y.writer.own && y.writer.level < |y.writer.prev|
    && var w := y.writer;
       && (w.prev[w.level], w.level) in y.list.next
       && y' == y.(list := y.list.(next := y.list.next[(w.node, w.level) := y.list.next[(w.prev[w.level], w.level)]]),
                   writer := w.(own := true))
  }

  // prev[i]->SetNext
  ghost predicate StorePrevLink(y: System, q: nat, y': System) {
    && y.writer.Linking? && y.writer.own && y.writer.level < |y.writer.prev| && y.writer.level < |y.levels|
    && y.writer.node < |y.list.nodes|
    && var w := y.writer;
       && q < |y.levels[w.level]| && y.levels[w.level][q] == w.prev[w.level]
       && y' == y.(list := y.list.(next := y.list.next[(w.prev[w.level], w.level) := Some(w.node)]),
                   levels := y.levels[w.level := Place(y.levels[w.level], q, w.node)],
                   writer := if w.level + 1 < y.list.nodes[w.node].height then Linking(w.node, w.prev, w.level + 1, false) else Resting)
  }

  // ----- the steps of the reader -----

  // Any height that the list has had or may get does: the reader need not see the
  // current one.
  ghost predicate StartSearch(y: System, target: Key, height: nat, y': System) {
    && 1 <= height <= MAX_HEIGHT
    && y' == y.(reader := Some(Reader(Walking(target, HEAD, height - 1), height - 1, 0)))
  }

  // One turn of the loop of FindGreaterOrEqual.
  ghost predicate Look(y: System, y': System) {
    && y.reader.Some? && y.reader.value.search.Walking?
    && var r := y.reader.value;
       var w := r.search;
       && (w.x, w.level) in y.list.next
       && var n := y.list.next[(w.x, w.level)];
          && (n.Some? ==> n.value < |y.list.nodes|)
          && var after := if KeyIsAfterNode(y.list.nodes, w.target, n) then w.(x := n.value)
                          else if w.level == 0 then Found(w.target, n)
                          else w.(level := w.level - 1);
             y' == y.(reader := Some(r.(search := after, looks := r.looks + 1)))
  }

  datatype Step =
    | DoFinishSearch(key: Key, height: nat, prev: seq<nat>)
    | DoRaiseHeight
    | DoCreateNode
    | DoStoreOwnLink
    | DoStorePrevLink(q: nat)
    | DoStartSearch(target: Key, height: nat)
    | DoLook

  ghost predicate Does(y: System, step: Step, y': System) {
    match step
    case DoFinishSearch(key, height, prev) => FinishSearch(y, key, height, prev, y')
    case DoRaiseHeight => RaiseHeight(y, y')
    case DoCreateNode => CreateNode(y, y')
    case DoStoreOwnLink => StoreOwnLink(y, y')
    case DoStorePrevLink(q) => StorePrevLink(y, q, y')
    case DoStartSearch(target, height) => StartSearch(y, target, height, y')
    case DoLook => Look(y, y')
  }

  // ----- the writer keeps the invariant -----

  lemma {:induction false} LevelsKeepReader(y: System, y': System)
    requires |y.levels| == |y'.levels| == MAX_HEIGHT && y'.reader == y.reader && y.list.nodes <= y'.list.nodes
    requires y.levels == y'.levels
    requires y.reader.Some? ==> ReaderInv(y, y.reader.value)
    ensures y'.reader.Some? ==> ReaderInv(y', y'.reader.value)
  {
  }

  lemma {:induction false} RaiseHeightKeeps(y: System, y': System)
    requires Inv(y) && RaiseHeight(y, y')
    ensures Inv(y')
  {
    hide WellLinked, ReaderInv, LastBefore, NoDuplicate;
    RaisedHeight(y.list, y.levels, y.writer.height);
    assert forall l :: 0 <= l < MAX_HEIGHT ==> Fits(y.list, y.levels, l, y.writer.prev[l], y.writer.key);
    LevelsKeepReader(y, y');
  }

  lemma {:induction false} MoreNodes(nodes: seq<Node>, nodes': seq<Node>, chain: seq<nat>, x: nat, key: Key)
    requires nodes <= nodes' && LastBefore(nodes, chain, x, key) && NoDuplicate(nodes, chain, key)
    ensures LastBefore(nodes', chain, x, key) && NoDuplicate(nodes', chain, key)
  {
    var q: nat :| Splits(nodes, chain, q, key) && chain[q] == x;
    assert Splits(nodes', chain, q, key);
  }

  lemma {:induction false} CreateNodeKeeps(y: System, y': System)
    requires Inv(y) && CreateNode(y, y')
    ensures Inv(y')
  {
    hide WellLinked, ReaderInv, LastBefore, NoDuplicate;
    var w := y.writer;
    NewNodeIsInvisible(y.list, y.levels, Node(w.key, w.height));
    forall l | 0 <= l < MAX_HEIGHT
      ensures Fits(y'.list, y'.levels, l, w.prev[l], w.key)
    {
      assert Fits(y.list, y.levels, l, w.prev[l], w.key);
      MoreNodes(y.list.nodes, y'.list.nodes, y.levels[l], w.prev[l], w.key);
    }
    LevelsKeepReader(y, y');
  }

  lemma {:induction false} StoreOwnLinkKeeps(y: System, y': System)
    requires Inv(y) && StoreOwnLink(y, y')
    ensures Inv(y')
  {
    hide WellLinked, ReaderInv, LastBefore, NoDuplicate;
    var w := y.writer;
    var n := y.list.next[(w.prev[w.level], w.level)];
    OwnLinkIsInvisible(y.list, y.levels, w.node, w.level, n);
    forall l | w.level <= l < MAX_HEIGHT
      ensures Fits(y'.list, y'.levels, l, w.prev[l], y.list.nodes[w.node].key)
    {
      assert Fits(y.list, y.levels, l, w.prev[l], y.list.nodes[w.node].key);
    }
    LevelsKeepReader(y, y');
  }

  // A chain position only moves up when a node is placed in the chain.
  lemma {:induction false} PlacedKeepsReached(chain: seq<nat>, q: nat, x: nat, y: nat, n: nat)
    requires q < |chain| && Reached(chain, y, n)
    ensures Reached(Place(chain, q, x), y, n)
  {
    hide Place;
    PlacedAt(chain, q, x);
    var i :| n <= i < |chain| && chain[i] == y;
    assert Place(chain, q, x)[if i <= q then i else i + 1] == y;
  }

  lemma {:induction false} StorePrevLinkKeepsReader(y: System, q: nat, y': System)
    requires Inv(y) && StorePrevLink(y, q, y') && y.reader.Some?
    ensures ReaderInv(y', y'.reader.value)
  {
    hide WellLinked, WriterInv, Place, Reached;
    var r := y.reader.value;
    var l := y.writer.level;
    PlacedAt(y.levels[l], q, y.writer.node);
    if r.search.Walking? {
      PlacedNodes(y.levels[l], q, y.writer.node, r.search.x);
      if l == 0 {
        PlacedKeepsReached(y.levels[0], q, y.writer.node, r.search.x, r.looks - (r.start - r.search.level));
      }
    }
  }

  lemma {:induction false} SplitPosition(nodes: seq<Node>, chain: seq<nat>, q: nat, key: Key)
    requires Sorted(nodes, chain) && q < |chain| && LastBefore(nodes, chain, chain[q], key) && chain[0] == HEAD
    ensures Splits(nodes, chain, q, key)
  {
    var p: nat :| Splits(nodes, chain, p, key) && chain[p] == chain[q];
    if p != q {
      DistinctNodes(nodes, chain, p, q);
    }
  }

  lemma {:induction false} StorePrevLinkLinks(y: System, q: nat, y': System)
    requires Inv(y) && StorePrevLink(y, q, y')
    ensures WellLinked(y'.list, y'.levels)
  {
    hide ReaderInv, LastBefore, NoDuplicate, Linked, Sorted, Splits;
    var w := y.writer;
    var l := w.level;
    assert Fits(y.list, y.levels, l, w.prev[l], y.list.nodes[w.node].key);
    LevelFacts(y.list, y.levels, l);
    ChainStarts(y.list, l, y.levels[l]);
    SplitPosition(y.list.nodes, y.levels[l], q, y.list.nodes[w.node].key);
    LinkKeepsList(y.list, y.levels, l, q, w.node);
  }

  lemma {:induction false} StorePrevLinkKeeps(y: System, q: nat, y': System)
    requires Inv(y) && StorePrevLink(y, q, y')
    ensures Inv(y')
  {
    StorePrevLinkLinks(y, q, y');
    if y.reader.Some? {
      StorePrevLinkKeepsReader(y, q, y');
    }
    hide WellLinked, ReaderInv, LastBefore, NoDuplicate, Place;
    var w := y.writer;
    var l := w.level;
    PlacedNodes(y.levels[l], q, w.node, w.node);
    if y'.writer.Linking? {
      forall m | l + 1 <= m < MAX_HEIGHT
        ensures Fits(y'.list, y'.levels, m, w.prev[m], y.list.nodes[w.node].key)
      {
        assert Fits(y.list, y.levels, m, w.prev[m], y.list.nodes[w.node].key);
      }
    }
  }

  // ----- the reader keeps the invariant -----

  lemma {:induction false} StartSearchKeeps(y: System, target: Key, height: nat, y': System)
    requires Inv(y) && StartSearch(y, target, height, y')
    ensures Inv(y')
  {
    hide WriterInv, Linked, Sorted;
    LevelFacts(y.list, y.levels, height - 1);
    LevelFacts(y.list, y.levels, 0);
    ChainBounds(y.list, y.levels, 0);
    ChainStarts(y.list, 0, y.levels[0]);
    assert y.levels[0][0] == HEAD;
    WriterUntouched(y, y');
  }

  // Moving along a link of any level moves forward in the lowest chain.
  lemma {:induction false} ForwardInLowest(s: List, levels: seq<seq<nat>>, l: nat, x: nat, n: nat, count: nat)
    requires WellLinked(s, levels) && l < MAX_HEIGHT && x in levels[l] && (x, l) in s.next && s.next[(x, l)] == Some(n)
    requires Reached(levels[0], x, count)
    ensures n in levels[l] && Reached(levels[0], n, count + 1)
  {
    hide Linked, Sorted;
    LevelFacts(s, levels, l);
    LevelFacts(s, levels, 0);
    ChainStarts(s, l, levels[l]);
    ChainStarts(s, 0, levels[0]);
    var i := PositionOf(levels[l], x);
    var j := LinkIsNextPosition(s, l, levels[l], i);
    assert forall y :: y in levels[l] ==> y in levels[0];
    var p, q := NestedIsSublist(s.nodes, levels[l], levels[0], i, j);
    var a :| count <= a < |levels[0]| && levels[0][a] == x;
    if a != p {
      DistinctNodes(s.nodes, levels[0], a, p);
    }
    assert levels[l][j] == n && levels[0][q] == n;
  }

  lemma {:induction false} LookKeeps(y: System, y': System)
    requires Inv(y) && Look(y, y')
    ensures Inv(y')
  {
    hide WriterInv, Linked, Sorted, Reached, WellLinked, LastBefore, FirstFrom;
    var r := y.reader.value;
    var w := r.search;
    LevelFacts(y.list, y.levels, w.level);
    LookAhead(y.list, w.level, y.levels[w.level], w.x, w.target);
    var n := y.list.next[(w.x, w.level)];
    var count := r.looks - (r.start - w.level);
    if KeyIsAfterNode(y.list.nodes, w.target, n) {
      ForwardInLowest(y.list, y.levels, w.level, w.x, n.value, count);
    }
    ReachedBounds(y.levels[0], w.x, count);
    assert y'.writer == y.writer && y'.levels == y.levels && y'.list == y.list;
    WriterUntouched(y, y');
  }

  lemma {:induction false} WriterUntouched(y: System, y': System)
    requires |y.levels| == MAX_HEIGHT && WriterInv(y) && y'.writer == y.writer && y'.levels == y.levels && y'.list == y.list
    ensures WriterInv(y')
  {
  }

  lemma {:induction false} ReachedBounds(chain: seq<nat>, x: nat, n: nat)
    requires Reached(chain, x, n)
    ensures n < |chain|
  {
  }

  lemma {:induction false} StepKeepsInv(y: System, step: Step, y': System)
    requires Inv(y) && Does(y, step, y')
    ensures Inv(y')
  {
    hide RaiseHeight, CreateNode, StoreOwnLink, StorePrevLink, StartSearch, Look, WellLinked, ReaderInv;
    match step
    case DoFinishSearch(key, height, prev) => LevelsKeepReader(y, y');
    case DoRaiseHeight => RaiseHeightKeeps(y, y');
    case DoCreateNode => CreateNodeKeeps(y, y');
    case DoStoreOwnLink => StoreOwnLinkKeeps(y, y');
    case DoStorePrevLink(q) => StorePrevLinkKeeps(y, q, y');
    case DoStartSearch(target, height) => StartSearchKeeps(y, target, height, y');
    case DoLook => LookKeeps(y, y');
  }

  // ----- whole runs -----

  const EMPTY_LEVELS: seq<seq<nat>> :=
    [[HEAD], [HEAD], [HEAD], [HEAD], [HEAD], [HEAD], [HEAD], [HEAD], [HEAD], [HEAD], [HEAD], [HEAD]]

  ghost predicate IsEmptyList(s: List) {
    s.nodes == [Node(0.0, MAX_HEIGHT)] && s.maxHeight == 1
    && forall l :: 0 <= l < MAX_HEIGHT ==> (HEAD, l) in s.next && s.next[(HEAD, l)] == None
  }

  ghost predicate IsRun(run: seq<System>, steps: seq<Step>) {
    && run != [] && IsEmptyList(run[0].list) && run[0].levels == EMPTY_LEVELS
    && run[0].writer.Resting? && run[0].reader.None?
    && |steps| == |run| - 1
    && forall i :: 0 <= i < |steps| ==> Does(run[i], steps[i], run[i + 1])
  }

  /** At every step between the stores of any insertions every level is well linked. */
  lemma {:induction false} RunKeepsInv(run: seq<System>, steps: seq<Step>, i: nat)
    requires IsRun(run, steps) && i < |run|
    ensures Inv(run[i])
  {
    hide Does;
    if i == 0 {
      forall l | 0 <= l < MAX_HEIGHT
        ensures Linked(run[0].list, l, [HEAD])
      {
        assert LinksOn(run[0].list, l, [HEAD], 0);
      }
    } else {
      hide Inv;
      RunKeepsInv(run, steps, i - 1);
      StepKeepsInv(run[i - 1], steps[i - 1], run[i]);
    }
  }

  lemma {:induction false} StepKeepsNodes(y: System, step: Step, y': System, x: nat)
    requires Inv(y) && Does(y, step, y') && x in y.levels[0]
    ensures |y'.levels| == MAX_HEIGHT && x in y'.levels[0] && y.list.nodes <= y'.list.nodes
  {
    hide WellLinked, ReaderInv, Look, StartSearch;
    StepKeepsInv(y, step, y');
    LevelCount(y'.list, y'.levels);
    LevelCount(y.list, y.levels);
    if step.DoStorePrevLink? {
      PlacedNodes(y.levels[y.writer.level], step.q, y.writer.node, x);
    }
    if step.DoLook? || step.DoStartSearch? {
      ReaderStepsChangeNothing(y, step, y');
    }
  }

  lemma {:induction false} LevelCount(s: List, levels: seq<seq<nat>>)
    requires WellLinked(s, levels)
    ensures |levels| == MAX_HEIGHT
  {
  }

  lemma {:induction false} ReaderStepsChangeNothing(y: System, step: Step, y': System)
    requires Does(y, step, y') && (step.DoLook? || step.DoStartSearch?)
    ensures y'.list == y.list && y'.levels == y.levels && y'.writer == y.writer
  {
  }

  lemma {:induction false} NodesStay(run: seq<System>, steps: seq<Step>, i: nat, j: nat, x: nat)
    requires IsRun(run, steps) && i <= j < |run| && |run[i].levels| == MAX_HEIGHT && x in run[i].levels[0]
    ensures |run[j].levels| == MAX_HEIGHT && x in run[j].levels[0] && run[i].list.nodes <= run[j].list.nodes
  {
    hide Does, Inv;
    if i < j {
      NodesStay(run, steps, i, j - 1, x);
      RunKeepsInv(run, steps, j - 1);
      StepKeepsNodes(run[j - 1], steps[j - 1], run[j], x);
    }
  }

  // ----- what the insertions leave behind -----

  // The nodes that the steps so far have asked for, in order.
  function Asked(steps: seq<Step>): seq<Node> {
    if steps == [] then []
    else
      var last := steps[|steps| - 1];
      Asked(steps[..|steps| - 1]) + if last.DoFinishSearch? then [Node(last.key, last.height)] else []
  }

  // On how many of its levels a node is linked by now.
  function LinkedLevels(y: System, x: nat): nat
    requires x < |y.list.nodes|
  {
    if y.writer.Linking? && y.writer.node == x then y.writer.level else y.list.nodes[x].height
  }

  ghost predicate OnItsLevels(y: System) {
    && |y.levels| == MAX_HEIGHT
    && forall x, l :: 0 <= x < |y.list.nodes| && 0 <= l < MAX_HEIGHT ==> (x in y.levels[l] <==> l < LinkedLevels(y, x))
  }

  // The head, then one node per insertion; no level is in use for nothing.
  ghost predicate HoldsAsked(y: System, asked: seq<Node>) {
    && [Node(0.0, MAX_HEIGHT)] + asked
       == (if y.writer.Searched? then y.list.nodes + [Node(y.writer.key, y.writer.height)] else y.list.nodes)
    && (y.list.maxHeight == 1 || exists n :: n in asked && n.height == y.list.maxHeight)
    && (y.writer.Linking? ==> y.writer.node == |asked|)
  }

  lemma {:induction false} HeadIsNode(y: System)
    requires Inv(y)
    ensures HEAD < |y.list.nodes|
  {
    hide WriterInv, ReaderInv, Sorted, Nested;
    assert Linked(y.list, 0, y.levels[0]);
    assert LinksOn(y.list, 0, y.levels[0], 0);
  }

  lemma {:induction false} LinkingOneMore(y: System, q: nat, y': System)
    requires Inv(y) && StorePrevLink(y, q, y') && OnItsLevels(y)
    ensures OnItsLevels(y')
  {
    hide WellLinked, ReaderInv, Fits, Place;
    var l := y.writer.level;
    forall x, m | 0 <= x < |y'.list.nodes| && 0 <= m < MAX_HEIGHT
      ensures x in y'.levels[m] <==> m < LinkedLevels(y', x)
    {
      PlacedNodes(y.levels[l], q, y.writer.node, x);
      assert x in y.levels[m] <==> m < LinkedLevels(y, x);
    }
  }

  // A step that links nothing leaves every node on as many levels as before.
  lemma {:induction false} LinkingNothing(y: System, y': System)
    requires OnItsLevels(y) && y'.levels == y.levels && y.list.nodes <= y'.list.nodes
    requires forall x :: 0 <= x < |y.list.nodes| ==> LinkedLevels(y', x) == LinkedLevels(y, x)
    requires forall x, l :: |y.list.nodes| <= x < |y'.list.nodes| && 0 <= l < MAX_HEIGHT ==> x !in y.levels[l] && LinkedLevels(y', x) == 0
    ensures OnItsLevels(y')
  {
    forall x, l | 0 <= x < |y'.list.nodes| && 0 <= l < MAX_HEIGHT
      ensures x in y'.levels[l] <==> l < LinkedLevels(y', x)
    {
      assert x < |y.list.nodes| ==> (x in y.levels[l] <==> l < LinkedLevels(y, x));
    }
  }

  lemma {:induction false} StepKeepsLevels(y: System, step: Step, y': System)
    requires Inv(y) && Does(y, step, y') && OnItsLevels(y)
    ensures OnItsLevels(y')
  {
    hide WellLinked, ReaderInv, Look, StartSearch, StorePrevLink, OnItsLevels, Fits;
    if step.DoStorePrevLink? {
      LinkingOneMore(y, step.q, y');
    } else {
      if step.DoCreateNode? {
        NewNodeIsInvisible(y.list, y.levels, Node(y.writer.key, y.writer.height));
      }
      if step.DoLook? || step.DoStartSearch? {
        ReaderStepsChangeNothing(y, step, y');
      }
      LinkingNothing(y, y');
    }
  }

  lemma {:induction false} StepKeepsAsked(y: System, step: Step, y': System, asked: seq<Node>)
    requires Inv(y) && Does(y, step, y') && HoldsAsked(y, asked)
    ensures HoldsAsked(y', asked + if step.DoFinishSearch? then [Node(step.key, step.height)] else [])
  {
    hide Inv, Look, StartSearch;
    HeadIsNode(y);
    var all := asked + if step.DoFinishSearch? then [Node(step.key, step.height)] else [];
    assert forall n :: n in asked ==> n in all;
    if step.DoRaiseHeight? {
      var n := Node(y.writer.key, y.writer.height);
      assert asked[|asked| - 1] == ([Node(0.0, MAX_HEIGHT)] + asked)[|asked|] == n;
    }
    if step.DoLook? || step.DoStartSearch? {
      ReaderStepsChangeNothing(y, step, y');
    }
  }

  /**
   Insertions are whole.  Whenever the writer rests, the list is the head and one node
   for every insertion so far, with the key and the height that were asked for, and a
   node is on a level exactly if the level is below its height; the list is as high as
   its highest node.
   */
  lemma {:induction false} InsertionsAreWhole(run: seq<System>, steps: seq<Step>, i: nat)
    requires IsRun(run, steps) && i < |run|
    ensures OnItsLevels(run[i]) && HoldsAsked(run[i], Asked(steps[..i]))
  {
    hide Does, Inv;
    if i == 0 {
      assert steps[..0] == [];
    } else {
      InsertionsAreWhole(run, steps, i - 1);
      RunKeepsInv(run, steps, i - 1);
      assert steps[..i][..i - 1] == steps[..i - 1];
      StepKeepsLevels(run[i - 1], steps[i - 1], run[i]);
      StepKeepsAsked(run[i - 1], steps[i - 1], run[i], Asked(steps[..i - 1]));
    }
  }

  // The look that ends a search reads the first node from the target on.
  lemma {:induction false} LastLookIsExact(y: System, y': System)
    requires Inv(y) && Look(y, y') && y'.reader.value.search.Found?
    ensures FirstFrom(y'.list.nodes, y'.levels[0], y'.reader.value.search.result, y.reader.value.search.target)
  {
    hide WriterInv, Linked, Sorted, Reached, WellLinked, LastBefore, FirstFrom;
    var w := y.reader.value.search;
    LevelFacts(y.list, y.levels, 0);
    LookAhead(y.list, w.level, y.levels[w.level], w.x, w.target);
  }

  /**
   A search never skips a key.  Whatever the writer did while the search walked, the
   node it ends at is a node of the list, it is not before the target, and it does not
   come after any node `x` from the target on that was there when the search began.
   */
  lemma {:induction false} SearchNeverSkips(run: seq<System>, steps: seq<Step>, i: nat, j: nat, x: nat)
    requires IsRun(run, steps) && i < j < |run| && steps[j - 1].DoLook?
    requires run[j].reader.Some? && run[j].reader.value.search.Found?
    requires |run[i].levels| == MAX_HEIGHT && x in run[i].levels[0] && x != HEAD
    requires x < |run[i].list.nodes| && run[j].reader.value.search.target <= run[i].list.nodes[x].key
    ensures var r := run[j].reader.value.search;
      && r.result.Some? && |run[j].levels| == MAX_HEIGHT && r.result.value in run[j].levels[0]
      && r.result.value < |run[j].list.nodes|
      && r.target <= run[j].list.nodes[r.result.value].key <= run[i].list.nodes[x].key
  {
    hide Inv, FirstFrom, Linked, Sorted;
    RunKeepsInv(run, steps, j - 1);
    RunKeepsInv(run, steps, j);
    NodesStay(run, steps, i, j, x);
    LastLookIsExact(run[j - 1], run[j]);
    WellLinkedNow(run[j]);
    var r := run[j].reader.value.search;
    FirstFromIsLeast(run[j].list.nodes, run[j].levels[0], r.result, r.target, x);
  }

  lemma {:induction false} WellLinkedNow(y: System)
    requires Inv(y)
    ensures WellLinked(y.list, y.levels) && |y.levels| == MAX_HEIGHT
    ensures Sorted(y.list.nodes, y.levels[0]) && y.levels[0] != [] && y.levels[0][0] == HEAD
  {
    hide WriterInv, ReaderInv;
    LevelFacts(y.list, y.levels, 0);
  }

  /**
   A search ends: at any moment it has followed no more links than there are nodes in
   the list by then, the head included, plus the levels it started with.
   */
  lemma {:induction false} SearchIsBounded(run: seq<System>, steps: seq<Step>, j: nat)
    requires IsRun(run, steps) && j < |run| && run[j].reader.Some?
    ensures |run[j].levels| == MAX_HEIGHT
    ensures run[j].reader.value.looks <= |run[j].levels[0]| + MAX_HEIGHT - 1
  {
    hide WriterInv, WellLinked, Reached;
    RunKeepsInv(run, steps, j);
    LevelCount(run[j].list, run[j].levels);
    var r := run[j].reader.value;
    if r.search.Walking? {
      ReachedBounds(run[j].levels[0], r.search.x, r.looks - (r.start - r.search.level));
    }
  }

  /** A walking search can always go on: the link it needs is there. */
  lemma {:induction false} SearchCanLook(y: System)
    requires Inv(y) && y.reader.Some? && y.reader.value.search.Walking?
    ensures exists y' :: Look(y, y')
  {
    hide WriterInv, Linked, Sorted, Reached, WellLinked, LastBefore, FirstFrom;
    var r := y.reader.value;
    var w := r.search;
    LevelFacts(y.list, y.levels, w.level);
    LookAhead(y.list, w.level, y.levels[w.level], w.x, w.target);
    var n := y.list.next[(w.x, w.level)];
    var after := if KeyIsAfterNode(y.list.nodes, w.target, n) then w.(x := n.value)
                 else if w.level == 0 then Found(w.target, n)
                 else w.(level := w.level - 1);
    assert Look(y, y.(reader := Some(r.(search := after, looks := r.looks + 1))));
  }
}
