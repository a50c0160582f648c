/** Which node follows which at every level of a skip list, given the nodes' heights in list order. */
module SkipLevels {
  import opened Common

  /** The next index after i whose node is linked at level l, or the length when there is none. */
  function Next(levels: seq<nat>, i: nat, l: nat): (j: nat)
    requires i < |levels|
    ensures i < j <= |levels|
    ensures j < |levels| ==> levels[j] > l
    ensures forall m :: i < m < j ==> levels[m] <= l
    decreases |levels| - i
  {
    if i + 1 == |levels| || levels[i + 1] > l then i + 1 else Next(levels, i + 1, l)
  }

  lemma {:induction false} NextIs(levels: seq<nat>, i: nat, l: nat, j: nat)
    requires i < j <= |levels| && (j < |levels| ==> levels[j] > l) && forall m :: i < m < j ==> levels[m] <= l
    ensures Next(levels, i, l) == j
    decreases j - i
  {
    if i + 1 < j {
      NextIs(levels, i + 1, l, j);
    }
  }

  /** What the links become when a node of height h enters at position p. */
  lemma {:induction false} NextInserted(levels: seq<nat>, p: nat, h: nat, levels': seq<nat>, i: nat, l: nat)
    requires 1 <= p <= |levels| && levels' == levels[..p] + [h] + levels[p..] && i < |levels|
    ensures i < p && Next(levels, i, l) < p ==> Next(levels', i, l) == Next(levels, i, l)
    ensures i < p && Next(levels, i, l) >= p ==>
              Next(levels', i, l) == if h > l then p else Next(levels, i, l) + 1
    ensures i < p && Next(levels, i, l) >= p ==> Next(levels', p, l) == Next(levels, i, l) + 1
    ensures i >= p ==> Next(levels', i + 1, l) == Next(levels, i, l) + 1
  {
    var n := Next(levels, i, l);
    assert forall m :: 0 <= m < p ==> levels'[m] == levels[m];
    assert forall m :: p < m < |levels'| ==> levels'[m] == levels[m - 1];
    if i >= p {
      NextIs(levels', i + 1, l, n + 1);
    } else if n < p {
      NextIs(levels', i, l, n);
    } else {
      NextIs(levels', p, l, n + 1);
      NextIs(levels', i, l, if h > l then p else n + 1);
    }
  }

  /** A node linked at level l is not skipped at that level. */
  lemma {:induction false} NextStops(levels: seq<nat>, i: nat, j: nat, l: nat)
    requires i < j < |levels| && levels[j] > l
    ensures Next(levels, i, l) <= j
    decreases j - i
  {
    if i + 1 < j {
      NextStops(levels, i + 1, j, l);
    }
  }

  /** Of the nodes linked at level l, the one whose link crosses p is the last before p. */
  lemma {:induction false} CrossingIsLast(levels: seq<nat>, p: nat, l: nat, u: nat, i: nat)
    requires u < p <= |levels| && i < p && levels[u] > l && levels[i] > l && Next(levels, u, l) >= p
    ensures i <= u && (i < u ==> Next(levels, i, l) < p)
  {
    if i < u {
      NextStops(levels, i, u, l);
    }
  }

  /** Following the links of level l from i. */
  ghost function Walk(levels: seq<nat>, i: nat, l: nat): seq<nat>
    requires i <= |levels|
    decreases |levels| - i
  {
    if i == |levels| then [] else [i] + Walk(levels, Next(levels, i, l), l)
  }

  /** Level l visits, in list order, exactly the nodes taller than l. */
  lemma {:induction false} WalkVisits(levels: seq<nat>, i: nat, l: nat)
    requires i <= |levels| && (i < |levels| ==> levels[i] > l)
    ensures Ascending(Walk(levels, i, l))
    ensures forall j: nat :: j in Walk(levels, i, l) <==> i <= j < |levels| && levels[j] > l
    decreases |levels| - i
  {
    if i < |levels| {
      var n := Next(levels, i, l);
      WalkVisits(levels, n, l);
      var rest := Walk(levels, n, l);
      HeadBelow(i, rest);
      forall j: nat ensures j in [i] + rest <==> i <= j < |levels| && levels[j] > l {
        assert j in [i] + rest <==> j == i || j in rest;
      }
    }
  }
}

/** The memtable: a skip list of keys and values. */
module SkipList {
  import opened SkipLevels

  const MAX_LEVEL: nat := 16
  const NODE_BYTES: nat := 48
  const LINK_BYTES: nat := 8

  class Node {
    const key: nat
    const level: nat
    var value: nat
    var forward: seq<Node?>

    constructor (key: nat, value: nat, level: nat)
      ensures this.key == key && this.value == value && this.level == level
      ensures forward == seq(level, _ => null)
    {
      this.key, this.value, this.level := key, value, level;
      forward := seq(level, _ => null);
    }
  }

  /** The heights of the nodes, in list order. */
  ghost function Levels(order: seq<Node>): (r: seq<nat>)
    ensures |r| == |order| && forall i :: 0 <= i < |order| ==> r[i] == order[i].level
  {
    seq(|order|, i requires 0 <= i < |order| => order[i].level)
  }

  ghost function NodeAt(order: seq<Node>, i: nat): Node? { if i < |order| then order[i] else null }

  /** The head, then distinct nodes with strictly increasing keys. */
  ghost predicate Ordered(order: seq<Node>, level: nat) {
    && order != [] && order[0].level == MAX_LEVEL && 1 <= level <= MAX_LEVEL
    && (forall i, j :: 0 <= i < j < |order| ==> order[i] != order[j])
    && (forall i, j :: 1 <= i < j < |order| ==> order[i].key < order[j].key)
    && (forall i :: 1 <= i < |order| ==> 1 <= order[i].level <= level)
  }

  /** Every forward pointer leads to the next node that is tall enough. */
  ghost predicate Linked(order: seq<Node>)
    reads order
  {
    forall i :: 0 <= i < |order| ==> NodeLinked(order, i)
  }

  ghost predicate NodeLinked(order: seq<Node>, i: nat)
    requires i < |order|
    reads order
  {
    && |order[i].forward| == order[i].level
    && forall l: nat :: l < order[i].level ==> order[i].forward[l] == NodeAt(order, Next(Levels(order), i, l))
  }

  /** The list that the forward pointers of level l run through, to its end. */
  ghost predicate Follows(path: seq<Node>, l: nat)
    reads path
  {
    && path != []
    && forall i :: 0 <= i < |path| ==> Leads(path, l, i)
  }

  ghost predicate Leads(path: seq<Node>, l: nat, i: nat)
    requires i < |path|
    reads path
  {
    l < |path[i].forward| && path[i].forward[l] == NodeAt(path, i + 1)
  }

  /** There is such a list from every node linked at level l. */
  lemma {:induction false} ListFrom(order: seq<Node>, i: nat, l: nat) returns (path: seq<Node>)
    requires Linked(order) && i < |order| && l < order[i].level
    ensures Follows(path, l) && path[0] == order[i]
    decreases |order| - i
  {
    assert NodeLinked(order, i);
    var n := Next(Levels(order), i, l);
    if n == |order| {
      path := [order[i]];
      assert Leads(path, l, 0);
    } else {
      var rest := ListFrom(order, n, l);
      path := [order[i]] + rest;
      forall j | 0 <= j < |path| ensures Leads(path, l, j) {
        assert j > 0 ==> Leads(rest, l, j - 1);
      }
    }
  }

  /** Following the pointers is walking the indices. */
  lemma {:induction false} FollowsWalk(order: seq<Node>, path: seq<Node>, i: nat, l: nat)
    requires Linked(order) && Follows(path, l) && i < |order| && path[0] == order[i]
    ensures var w := Walk(Levels(order), i, l);
            |w| == |path| && forall j :: 0 <= j < |path| ==> w[j] < |order| && path[j] == order[w[j]]
    decreases |path|
  {
    assert NodeLinked(order, i) && Leads(path, l, 0);
    var n := Next(Levels(order), i, l);
    if |path| == 1 {
      assert n == |order|;
    } else {
      var rest := path[1..];
      forall j | 0 <= j < |rest| ensures Leads(rest, l, j) {
        assert Leads(path, l, j + 1);
      }
      FollowsWalk(order, rest, n, l);
      assert forall j :: 1 <= j < |path| ==> path[j] == rest[j - 1];
    }
  }

  /** The list of level l visits exactly the nodes taller than l, their keys strictly increasing. */
  lemma {:induction false} LevelList(order: seq<Node>, level: nat, path: seq<Node>, l: nat)
    requires Ordered(order, level) && Linked(order) && Follows(path, l) && path[0] == order[0] && l < MAX_LEVEL
    ensures forall i, j :: 1 <= i < j < |path| ==> path[i].key < path[j].key
    ensures forall n :: n in path <==> n in order && n.level > l
  {
    var w := Walk(Levels(order), 0, l);
    FollowsWalk(order, path, 0, l);
    WalkVisits(Levels(order), 0, l);
    forall i, j | 1 <= i < j < |path| ensures path[i].key < path[j].key {
      assert w[0] < w[i] < w[j];
    }
    forall n | n in order && n.level > l ensures n in path {
      var i :| 0 <= i < |order| && order[i] == n;
      assert i in w;
      var j :| 0 <= j < |w| && w[j] == i;
      assert path[j] == n;
    }
    forall n | n in path ensures n in order && n.level > l {
      var j :| 0 <= j < |path| && path[j] == n;
      assert w[j] in w;
    }
  }

  /** The nodes hold exactly the contents. */
  ghost predicate Holds(order: seq<Node>, contents: map<nat, nat>)
    reads order
  {
    && (forall i :: 1 <= i < |order| ==> order[i].key in contents && contents[order[i].key] == order[i].value)
    && (forall k :: k in contents ==> exists i :: 1 <= i < |order| && order[i].key == k)
  }

  /** p is where key belongs: all smaller keys are before it. */
  ghost predicate Position(order: seq<Node>, key: nat, p: nat) {
    && 1 <= p <= |order|
    && (forall i :: 1 <= i < p ==> order[i].key < key)
    && (forall i :: p <= i < |order| ==> key <= order[i].key)
  }

  lemma {:induction false} PositionExists(order: seq<Node>, level: nat, key: nat, n: nat) returns (p: nat)
    requires Ordered(order, level) && 1 <= n <= |order|
    requires forall i :: n <= i < |order| ==> key <= order[i].key
    ensures Position(order, key, p)
  {
    if n > 1 && order[n - 1].key >= key {
      p := PositionExists(order, level, key, n - 1);
    } else {
      p := n;
    }
  }

  /** At the bottom level nothing is skipped. */
  lemma {:induction false} BottomIsNext(order: seq<Node>, level: nat, p: nat, c: nat)
    requires Ordered(order, level) && c < p <= |order| && Next(Levels(order), c, 0) >= p
    ensures p == c + 1
  {
    if c + 1 < |order| {
      NextStops(Levels(order), c, c + 1, 0);
    }
  }

  lemma {:induction false} BottomNext(order: seq<Node>, level: nat, p: nat, c: nat)
    requires Ordered(order, level) && c < p <= |order| && Next(Levels(order), c, 0) >= p
    ensures Next(Levels(order), c, 0) == p
  {
    BottomIsNext(order, level, p, c);
    NextIs(Levels(order), c, 0, p);
  }

  lemma {:induction false} HeadFacts(order: seq<Node>, level: nat, key: nat, p: nat)
    requires Ordered(order, level) && Position(order, key, p)
    ensures 1 <= p <= |order| && order[0].level == MAX_LEVEL && 1 <= level <= MAX_LEVEL
  {
  }

  /** The node at p is the only one that can hold key. */
  lemma {:induction false} FoundAt(order: seq<Node>, level: nat, contents: map<nat, nat>, key: nat, p: nat)
    requires Ordered(order, level) && Holds(order, contents) && Position(order, key, p)
    ensures key in contents <==> p < |order| && order[p].key == key
    ensures key in contents ==> contents[key] == order[p].value
  {
    if key in contents {
      var i :| 1 <= i < |order| && order[i].key == key;
      assert i >= p;
    }
  }

  /** update[l] is the node, at index us[l], whose link at level l crosses position p. */
  ghost predicate CrossesAt(order: seq<Node>, update: seq<Node?>, us: seq<nat>, p: nat, l: nat) {
    && l < |update| && l < |us| && us[l] < p <= |order| && update[l] == order[us[l]]
    && order[us[l]].level > l && Next(Levels(order), us[l], l) >= p
  }

  ghost predicate Crosses(order: seq<Node>, update: seq<Node?>, us: seq<nat>, p: nat, h: nat) {
    |update| == |us| == MAX_LEVEL && forall l: nat :: l < h ==> CrossesAt(order, update, us, p, l)
  }

  lemma {:induction false} CrossFacts(order: seq<Node>, update: seq<Node?>, us: seq<nat>, p: nat, l: nat)
    requires CrossesAt(order, update, us, p, l)
    ensures l < |update| && l < |us| && us[l] < |order| && update[l] == order[us[l]] && order[us[l]].level > l
  {
  }

  lemma {:induction false} CrossSet(order: seq<Node>, update: seq<Node?>, us: seq<nat>, p: nat, lo: nat, hi: nat,
                                    i: nat, u: nat, update': seq<Node?>, us': seq<nat>)
    requires |update| == |us| == MAX_LEVEL && i < MAX_LEVEL
    requires forall l: nat :: lo <= l < hi ==> CrossesAt(order, update, us, p, l)
    requires u < p <= |order| && order[u].level > i && Next(Levels(order), u, i) >= p
    requires update' == update[i := order[u]] && us' == us[i := u]
    ensures CrossesAt(order, update', us', p, i)
    ensures forall l: nat :: lo <= l < hi ==> CrossesAt(order, update', us', p, l)
  {
    forall l: nat | lo <= l < hi ensures CrossesAt(order, update', us', p, l) {
      assert CrossesAt(order, update, us, p, l);
    }
  }

  lemma {:induction false} TallestCrosses(order: seq<Node>, level: nat, p: nat, l: nat)
    requires Ordered(order, level) && 1 <= p <= |order| && level <= l < MAX_LEVEL
    ensures order[0].level > l && Next(Levels(order), 0, l) >= p
  {
    NextIs(Levels(order), 0, l, |order|);
  }

  /** The forward pointers of all nodes. */
  ghost function Forwards(order: seq<Node>): (r: seq<seq<Node?>>)
    reads order
    ensures |r| == |order| && forall i :: 0 <= i < |order| ==> r[i] == order[i].forward
  {
    seq(|order|, i requires 0 <= i < |order| reads order => order[i].forward)
  }

  /** The links after the new node has been put in at the levels below h. */
  ghost predicate Relinked(order: seq<Node>, fwd: seq<seq<Node?>>, node: Node, own: seq<Node?>, us: seq<nat>, h: nat) {
    && |fwd| == |order| && |own| == node.level && h <= node.level && h <= |us|
    && (forall l: nat :: l < h ==> us[l] < |order| && own[l] == NodeAt(order, Next(Levels(order), us[l], l)))
    && (forall i :: 0 <= i < |order| ==> NodeRelinked(order, fwd[i], node, us, h, i))
  }

  ghost predicate NodeRelinked(order: seq<Node>, forward: seq<Node?>, node: Node, us: seq<nat>, h: nat, i: nat)
    requires i < |order| && h <= |us|
  {
    && |forward| == order[i].level
    && forall l: nat :: l < order[i].level ==>
         forward[l] == if l < h && us[l] == i then node else NodeAt(order, Next(Levels(order), i, l))
  }

  lemma {:induction false} NothingRelinked(order: seq<Node>, node: Node, us: seq<nat>)
    requires Linked(order) && |node.forward| == node.level
    ensures Relinked(order, Forwards(order), node, node.forward, us, 0)
  {
    forall i | 0 <= i < |order| ensures NodeRelinked(order, order[i].forward, node, us, 0, i) {
      assert NodeLinked(order, i);
    }
  }

  /** Linking the new node at one more level. */
  lemma {:induction false} RelinkOne(order: seq<Node>, fwd: seq<seq<Node?>>, node: Node, own: seq<Node?>,
                                     us: seq<nat>, h: nat, u: nat)
    requires Relinked(order, fwd, node, own, us, h) && h < node.level && h < |us| && us[h] == u < |order|
    requires order[u].level > h
    ensures |fwd[u]| == order[u].level
    ensures Relinked(order, fwd[u := fwd[u][h := node]], node, own[h := fwd[u][h]], us, h + 1)
  {
    assert NodeRelinked(order, fwd[u], node, us, h, u);
    var fwd' := fwd[u := fwd[u][h := node]];
    forall i | 0 <= i < |order| ensures NodeRelinked(order, fwd'[i], node, us, h + 1, i) {
      assert NodeRelinked(order, fwd[i], node, us, h, i);
    }
  }

  // ---- Size and height ----

  ghost function SumBytes(nodes: seq<Node>): nat {
    if nodes == [] then 0 else NODE_BYTES + nodes[0].level * LINK_BYTES + SumBytes(nodes[1..])
  }

  lemma {:induction false} SumSplit(a: seq<Node>, b: seq<Node>)
    ensures SumBytes(a + b) == SumBytes(a) + SumBytes(b)
  {
    if a == [] {
      assert a + b == b;
    } else {
      assert (a + b)[1..] == a[1..] + b;
      SumSplit(a[1..], b);
    }
  }

  /** The byte count is that of all nodes but the head, and the level is the height of the tallest of them. */
  ghost predicate Measured(order: seq<Node>, level: nat, bytes: nat) {
    && order != [] && bytes == SumBytes(order[1..])
    && (level == 1 || exists i :: 1 <= i < |order| && order[i].level == level)
  }

  lemma {:induction false} InsertMeasured(order: seq<Node>, level: nat, bytes: nat, node: Node, p: nat,
                                          order': seq<Node>, level': nat)
    requires Measured(order, level, bytes) && 1 <= p <= |order| && order' == order[..p] + [node] + order[p..]
    requires level' == if node.level > level then node.level else level
    ensures Measured(order', level', bytes + NODE_BYTES + node.level * LINK_BYTES)
  {
    var a, b := order[1..p], order[p..];
    assert order[1..] == a + b && order'[1..] == a + ([node] + b);
    SumSplit(a, b);
    SumSplit(a, [node] + b);
    assert ([node] + b)[1..] == b;
    if node.level > level {
      assert order'[p].level == level';
    } else if level != 1 {
      var i :| 1 <= i < |order| && order[i].level == level;
      assert order'[if i < p then i else i + 1].level == level;
    }
  }

  class SkipList {
    const head: Node
    var level: nat
    var size: nat
    var byteSize: nat
    ghost var order: seq<Node>
    ghost var contents: map<nat, nat>

    ghost predicate Valid()
      reads this, order
    {
      && Ordered(order, level) && order[0] == head && size == |order| - 1
      && Linked(order) && Holds(order, contents) && Measured(order, level, byteSize)
    }

    /** Every level is a sorted list from the head through nodes of the level below it. */
    lemma {:induction false} LevelsNest(l: nat, below: seq<Node>, above: seq<Node>)
      requires Valid() && l + 1 < MAX_LEVEL && Follows(below, l) && Follows(above, l + 1)
      requires below[0] == above[0] == head
      ensures forall i, j :: 1 <= i < j < |below| ==> below[i].key < below[j].key
      ensures forall i, j :: 1 <= i < j < |above| ==> above[i].key < above[j].key
      ensures forall n :: n in above ==> n in below
    {
      LevelList(order, level, below, l);
      LevelList(order, level, above, l + 1);
    }

    constructor ()
      ensures Valid() && fresh(order) && contents == map[] && size == 0 && byteSize == 0
    {
      head := new Node(0, 0, MAX_LEVEL);
      level, size, byteSize := 1, 0, 0;
      contents := map[];
      new;
      order := [head];
    }

    /** Walks one level: from the node at c to the last node with a smaller key. */
    method Descend(key: nat, i: nat, curr: Node, ghost p: nat, ghost c: nat) returns (next: Node, ghost d: nat)
      requires Valid() && Position(order, key, p) && c < p && curr == order[c] && i < curr.level
      ensures d < p && next == order[d] && i < next.level && Next(Levels(order), d, i) >= p
    {
      hide Measured;
      next, d := curr, c;
      while next.forward[i] != null && next.forward[i].key < key
        invariant d < p && next == order[d] && i < next.level && NodeLinked(order, d)
        decreases p - d
      {
        d := Next(Levels(order), d, i);
        next := next.forward[i];
      }
    }

    /** Get is lookup in the contents. */
    method Get(key: nat) returns (found: bool, value: nat)
      requires Valid()
      ensures found <==> key in contents
      ensures found ==> value == contents[key]
    {
      hide Measured;
      value := 0;
      ghost var p := PositionExists(order, level, key, |order|);
      var curr := head;
      ghost var c: nat := 0;
      var i: nat := level;
      while i > 0
        invariant i <= level && c < p && curr == order[c] && i <= curr.level && 1 <= curr.level
        invariant i < level ==> i < curr.level && Next(Levels(order), c, i) >= p
      {
        i := i - 1;
        curr, c := Descend(key, i, curr, p, c);
      }
      assert NodeLinked(order, c);
      BottomIsNext(order, level, p, c);
      FoundAt(order, level, contents, key, p);
      var next := curr.forward[0];
      if next != null && next.key == key {
        return true, next.value;
      }
      return false, 0;
    }

    /** The last node before p at every level in use, and the node at p. */
    method FindPredecessors(key: nat, ghost p: nat) returns (next: Node?, update: seq<Node?>, ghost us: seq<nat>)
      requires Valid() && Position(order, key, p)
      ensures next == NodeAt(order, p)
      ensures Crosses(order, update, us, p, level)
    {
      hide Measured, CrossesAt, Holds, Ordered, Next, Position;
      var curr := head;
      ghost var c: nat := 0;
      HeadFacts(order, level, key, p);
      update, us := seq(MAX_LEVEL, _ => null), seq(MAX_LEVEL, _ => 0);
      var i: nat := level;
      while i > 0
        invariant i <= level && c < p && curr == order[c] && i <= curr.level && 1 <= curr.level
        invariant i < level ==> i < curr.level && Next(Levels(order), c, i) >= p
        invariant |update| == |us| == MAX_LEVEL
        invariant forall l: nat :: i <= l < level ==> CrossesAt(order, update, us, p, l)
      {
        i := i - 1;
        curr, c := Descend(key, i, curr, p, c);
        CrossSet(order, update, us, p, i + 1, level, i, c, update[i := curr], us[i := c]);
        update, us := update[i := curr], us[i := c];
      }
      assert NodeLinked(order, c);
      BottomNext(order, level, p, c);
      next := curr.forward[0];
    }

    method RandomLevel() returns (l: nat)
      ensures 1 <= l <= MAX_LEVEL
    {
      l := 1;
      var coin: bool := *;
      while coin && l < MAX_LEVEL
        invariant 1 <= l <= MAX_LEVEL
        decreases MAX_LEVEL - l
      {
        l := l + 1;
        coin := *;
      }
    }

    /** Puts the node after update[l] at each of its levels. */
    method Link(node: Node, update: seq<Node?>, ghost us: seq<nat>, ghost p: nat, ghost top: nat)
      requires Ordered(order, top) && Linked(order) && node !in order && |node.forward| == node.level
      requires Crosses(order, update, us, p, node.level) && Holds(order, contents)
      modifies order, node
      ensures Relinked(order, Forwards(order), node, node.forward, us, node.level)
      ensures Holds(order, contents) && node.value == old(node.value)
    {
      hide Relinked, Linked, CrossesAt, Forwards, Holds;
      NothingRelinked(order, node, us);
      for i := 0 to node.level
        invariant Relinked(order, Forwards(order), node, node.forward, us, i) && |node.forward| == node.level
        invariant Holds(order, contents) && node.value == old(node.value)
      {
        LinkAt(node, update, us, p, top, i);
      }
    }

    method LinkAt(node: Node, update: seq<Node?>, ghost us: seq<nat>, ghost p: nat, ghost top: nat, i: nat)
      requires Ordered(order, top) && node !in order && i < node.level && |node.forward| == node.level
      requires CrossesAt(order, update, us, p, i)
      requires Relinked(order, Forwards(order), node, node.forward, us, i) && Holds(order, contents)
      modifies order, node
      ensures Relinked(order, Forwards(order), node, node.forward, us, i + 1) && |node.forward| == node.level
      ensures Holds(order, contents) && node.value == old(node.value)
    {
      hide Relinked, CrossesAt, Forwards;
      CrossFacts(order, update, us, p, i);
      ghost var u := us[i];
      ghost var fwd := Forwards(order);
      RelinkOne(order, fwd, node, node.forward, us, i, u);
      var before := update[i];
      var after := before.forward[i];
      node.forward := node.forward[i := after];
      before.forward := before.forward[i := node];
      assert Forwards(order) == fwd[u := fwd[u][i := node]];
    }

    /** Put adds or replaces one entry of the contents, whatever heights are drawn. */
    method Put(key: nat, value: nat)
      requires Valid()
      modifies this, order
      ensures Valid() && contents == old(contents)[key := value]
      ensures forall n :: n in order ==> n in old(order) || fresh(n)
      ensures size == (old(size) + if key in old(contents) then 0 else 1) && size > 0
      ensures key in old(contents) ==> byteSize == old(byteSize)
      ensures key !in old(contents) ==> NODE_BYTES < byteSize - old(byteSize) <= NODE_BYTES + MAX_LEVEL * LINK_BYTES
    {
      hide Ordered, Linked, Holds, Crosses, Measured;
      ghost var p := PositionExists(order, level, key, |order|);
      var curr, update, us := FindPredecessors(key, p);
      FoundAt(order, level, contents, key, p);
      if curr != null && curr.key == key {
        Replace(curr, value, p);
      } else {
        Insert(key, value, update, us, p);
      }
    }

    method Replace(node: Node, value: nat, ghost p: nat)
      requires Valid() && 1 <= p < |order| && order[p] == node
      modifies this`contents, node`value
      ensures Valid() && contents == old(contents)[node.key := value]
    {
      hide Measured;
      node.value := value;
      contents := contents[node.key := value];
      assert forall i :: 0 <= i < |order| ==> old(NodeLinked(order, i));
      assert forall i :: 0 <= i < |order| ==> NodeLinked(order, i);
    }

    method Insert(key: nat, value: nat, update: seq<Node?>, ghost us: seq<nat>, ghost p: nat)
      requires Valid() && Position(order, key, p) && key !in contents && Crosses(order, update, us, p, level)
      modifies this, order
      ensures Valid() && contents == old(contents)[key := value]
      ensures forall n :: n in order ==> n in old(order) || fresh(n)
      ensures size == old(size) + 1
      ensures NODE_BYTES < byteSize - old(byteSize) <= NODE_BYTES + MAX_LEVEL * LINK_BYTES
    {
      hide Linked, Holds, Crosses, CrossesAt, Ordered, Measured;
      var newLevel := RandomLevel();
      if newLevel > level {
        var update', us' := Raise(update, us, p, newLevel);
        InsertNode(key, value, newLevel, update', us', p);
      } else {
        FewerCross(order, update, us, p, level, newLevel);
        InsertNode(key, value, newLevel, update, us, p);
      }
    }

    method InsertNode(key: nat, value: nat, newLevel: nat, update: seq<Node?>, ghost us: seq<nat>, ghost p: nat)
      requires Valid() && Position(order, key, p) && key !in contents
      requires 1 <= newLevel <= MAX_LEVEL && Crosses(order, update, us, p, newLevel)
      modifies this, order
      ensures Valid() && contents == old(contents)[key := value]
      ensures forall n :: n in order ==> n in old(order) || fresh(n)
      ensures size == old(size) + 1 && byteSize == old(byteSize) + NODE_BYTES + newLevel * LINK_BYTES
      ensures level == if newLevel > old(level) then newLevel else old(level)
    {
      hide Linked, Holds, Crosses, CrossesAt, Ordered, Measured, Relinked, Forwards, Levels;
      FoundAt(order, level, contents, key, p);
      ghost var level' := if newLevel > level then newLevel else level;
      OrderedHigher(order, level, newLevel, level');
      var node := new Node(key, value, newLevel);
      LinkNode(node, update, us, p);
    }

    /** Puts a new node into the list. */
    method LinkNode(node: Node, update: seq<Node?>, ghost us: seq<nat>, ghost p: nat)
      requires Valid() && Position(order, node.key, p) && node.key !in contents && node !in order
      requires 1 <= node.level <= MAX_LEVEL && Crosses(order, update, us, p, node.level)
      requires |node.forward| == node.level && (p < |order| ==> order[p].key != node.key)
      modifies this, order, node
      ensures Valid() && contents == old(contents)[node.key := node.value] && node.value == old(node.value)
      ensures order == old(order)[..p] + [node] + old(order)[p..]
      ensures size == old(size) + 1 && byteSize == old(byteSize) + NODE_BYTES + node.level * LINK_BYTES
      ensures level == if node.level > old(level) then node.level else old(level)
    {
      hide Linked, Holds, Crosses, CrossesAt, Ordered, Measured, Relinked, Forwards, Levels;
      var level' := if node.level > level then node.level else level;
      OrderedHigher(order, level, node.level, level');
      Link(node, update, us, p, level');
      ghost var order' := order[..p] + [node] + order[p..];
      InsertAll(order, level, byteSize, contents, node, update, us, p, order', level');
      order, contents, level, size := order', contents[node.key := node.value], level', size + 1;
      byteSize := byteSize + NODE_BYTES + node.level * LINK_BYTES;
    }

    /** The levels not in use so far start at the head. */
    method Raise(update: seq<Node?>, ghost us: seq<nat>, ghost p: nat, newLevel: nat)
      returns (update': seq<Node?>, ghost us': seq<nat>)
      requires Valid() && 1 <= p <= |order| && Crosses(order, update, us, p, level) && level < newLevel <= MAX_LEVEL
      ensures Crosses(order, update', us', p, newLevel)
    {
      hide CrossesAt, Linked, Holds, Measured;
      update', us' := update, us;
      for i := level to newLevel
        invariant Crosses(order, update', us', p, i)
      {
        TallestCrosses(order, level, p, i);
        CrossSet(order, update', us', p, 0, i, i, 0, update'[i := head], us'[i := 0]);
        update', us' := update'[i := head], us'[i := 0];
      }
    }

    /** To vector lists the contents in strictly increasing key order. */
    method ToVector() returns (pairs: seq<(nat, nat)>)
      requires Valid()
      ensures |pairs| == size && Lists(pairs, contents)
    {
      hide Ordered, Holds, Measured;
      pairs := [];
      BottomLinks(order, level);
      assert NodeLinked(order, 0);
      var curr := head.forward[0];
      while curr != null
        invariant |pairs| + 1 <= |order| && curr == NodeAt(order, |pairs| + 1)
        invariant forall i :: 0 <= i < |pairs| ==> pairs[i] == (order[i + 1].key, order[i + 1].value)
        decreases |order| - |pairs|
      {
        assert NodeLinked(order, |pairs| + 1);
        pairs := pairs + [(curr.key, curr.value)];
        curr := curr.forward[0];
      }
      NodesList(order, level, contents, pairs);
    }
  }

  lemma {:induction false} InsertAll(order: seq<Node>, level: nat, bytes: nat, contents: map<nat, nat>, node: Node,
                                     update: seq<Node?>, us: seq<nat>, p: nat, order': seq<Node>, level': nat)
    requires Ordered(order, level') && Holds(order, contents) && Measured(order, level, bytes)
    requires Position(order, node.key, p) && 1 <= node.level <= level' && node !in order && node.key !in contents
    requires p < |order| ==> order[p].key != node.key
    requires level' == if node.level > level then node.level else level
    requires Relinked(order, Forwards(order), node, node.forward, us, node.level)
    requires Crosses(order, update, us, p, node.level) && order' == order[..p] + [node] + order[p..]
    ensures Ordered(order', level') && Linked(order') && Holds(order', contents[node.key := node.value])
    ensures Measured(order', level', bytes + NODE_BYTES + node.level * LINK_BYTES)
    ensures |order'| == |order| + 1 && order'[0] == order[0]
  {
    hide Ordered, Linked, Holds, Measured, Relinked, Crosses, Forwards;
    InsertMeasured(order, level, bytes, node, p, order', level');
    InsertOrdered(order, level', node, p, order');
    InsertLinked(order, level', node, update, us, p, order');
    InsertHolds(order, contents, node, p, order');
  }

  /** The pairs are the map's entries, in strictly increasing key order. */
  ghost predicate Lists(pairs: seq<(nat, nat)>, m: map<nat, nat>) {
    && (forall i, j :: 0 <= i < j < |pairs| ==> pairs[i].0 < pairs[j].0)
    && (forall i :: 0 <= i < |pairs| ==> pairs[i].0 in m && m[pairs[i].0] == pairs[i].1)
    && (forall k :: k in m ==> exists i :: 0 <= i < |pairs| && pairs[i].0 == k)
  }

  lemma {:induction false} NodesList(order: seq<Node>, level: nat, contents: map<nat, nat>, pairs: seq<(nat, nat)>)
    requires Ordered(order, level) && Holds(order, contents) && |pairs| == |order| - 1
    requires forall i :: 0 <= i < |pairs| ==> pairs[i] == (order[i + 1].key, order[i + 1].value)
    ensures Lists(pairs, contents)
  {
    forall k | k in contents ensures exists i :: 0 <= i < |pairs| && pairs[i].0 == k {
      var i :| 1 <= i < |order| && order[i].key == k;
      assert pairs[i - 1].0 == k;
    }
  }

  lemma {:induction false} BottomLinks(order: seq<Node>, level: nat)
    requires Ordered(order, level)
    ensures forall i :: 0 <= i < |order| ==> Next(Levels(order), i, 0) == i + 1
    ensures order != [] && forall i :: 0 <= i < |order| ==> order[i].level >= 1
  {
    forall i | 0 <= i < |order| ensures Next(Levels(order), i, 0) == i + 1 {
      if i + 1 < |order| {
        NextStops(Levels(order), i, i + 1, 0);
      }
    }
  }

  lemma {:induction false} FewerCross(order: seq<Node>, update: seq<Node?>, us: seq<nat>, p: nat, h: nat, h': nat)
    requires Crosses(order, update, us, p, h) && h' <= h
    ensures Crosses(order, update, us, p, h')
  {
  }

  lemma {:induction false} OrderedHigher(order: seq<Node>, level: nat, newLevel: nat, level': nat)
    requires Ordered(order, level) && newLevel <= MAX_LEVEL && level' == if newLevel > level then newLevel else level
    ensures Ordered(order, level') && order != []
  {
  }

  lemma {:induction false} InsertedLevels(order: seq<Node>, node: Node, p: nat, order': seq<Node>)
    requires 1 <= p <= |order| && order' == order[..p] + [node] + order[p..]
    ensures Levels(order') == Levels(order)[..p] + [node.level] + Levels(order)[p..]
  {
  }

  /** The relinked nodes, with the new one at p, are linked again. */
  lemma {:induction false} InsertLinked(order: seq<Node>, level: nat, node: Node, update: seq<Node?>, us: seq<nat>,
                                        p: nat, order': seq<Node>)
    requires Ordered(order, level) && 1 <= p <= |order|
    requires Relinked(order, Forwards(order), node, node.forward, us, node.level)
    requires Crosses(order, update, us, p, node.level)
    requires order' == order[..p] + [node] + order[p..]
    ensures Linked(order')
  {
    hide NodeLinked, Relinked, Levels, CrossesAt;
    InsertedLevels(order, node, p, order');
    forall i | 0 <= i < |order'| ensures NodeLinked(order', i) {
      if i == p {
        NewLinked(order, node, update, us, p, order');
      } else {
        StillRelinked(order, node, us, if i < p then i else i - 1);
        OldLinked(order, node, update, us, p, order', if i < p then i else i - 1);
      }
    }
  }

  lemma {:induction false} NewLinked(order: seq<Node>, node: Node, update: seq<Node?>, us: seq<nat>, p: nat,
                                     order': seq<Node>)
    requires 1 <= p <= |order| && Relinked(order, Forwards(order), node, node.forward, us, node.level)
    requires Crosses(order, update, us, p, node.level)
    requires order' == order[..p] + [node] + order[p..]
    requires Levels(order') == Levels(order)[..p] + [node.level] + Levels(order)[p..]
    ensures NodeLinked(order', p)
  {
    var levels, levels' := Levels(order), Levels(order');
    hide Levels, NodeAt, Next, CrossesAt;
    forall l: nat | l < node.level ensures node.forward[l] == NodeAt(order', Next(levels', p, l)) {
      NewLink(order, node, update, us, p, order', l);
    }
  }

  lemma {:induction false} NewLink(order: seq<Node>, node: Node, update: seq<Node?>, us: seq<nat>, p: nat,
                                   order': seq<Node>, l: nat)
    requires 1 <= p <= |order| && CrossesAt(order, update, us, p, l) && l < node.level
    requires order' == order[..p] + [node] + order[p..]
    requires Levels(order') == Levels(order)[..p] + [node.level] + Levels(order)[p..]
    ensures NodeAt(order', Next(Levels(order'), p, l)) == NodeAt(order, Next(Levels(order), us[l], l))
  {
    var levels, levels' := Levels(order), Levels(order');
    hide Levels, NodeAt, Next;
    NextInserted(levels, p, node.level, levels', us[l], l);
    NodeAfter(order, node, p, order', Next(levels, us[l], l));
  }

  lemma {:induction false} StillRelinked(order: seq<Node>, node: Node, us: seq<nat>, i: nat)
    requires Relinked(order, Forwards(order), node, node.forward, us, node.level) && i < |order|
    ensures node.level <= |us| && NodeRelinked(order, order[i].forward, node, us, node.level, i)
  {
    assert NodeRelinked(order, Forwards(order)[i], node, us, node.level, i);
  }

  lemma {:induction false} OldLinked(order: seq<Node>, node: Node, update: seq<Node?>, us: seq<nat>, p: nat,
                                     order': seq<Node>, i: nat)
    requires 1 <= p <= |order| && i < |order| && node.level <= |us|
    requires NodeRelinked(order, order[i].forward, node, us, node.level, i)
    requires Crosses(order, update, us, p, node.level) && order' == order[..p] + [node] + order[p..]
    requires Levels(order') == Levels(order)[..p] + [node.level] + Levels(order)[p..]
    ensures NodeLinked(order', if i < p then i else i + 1)
  {
    hide CrossesAt, Levels, NodeAt;
    var i' := if i < p then i else i + 1;
    assert order'[i'] == order[i];
    forall l: nat | l < order[i].level ensures order[i].forward[l] == NodeAt(order', Next(Levels(order'), i', l)) {
      LinkAfter(order, node, update, us, p, order', i, l);
    }
  }

  lemma {:induction false} NodeAfter(order: seq<Node>, node: Node, p: nat, order': seq<Node>, j: nat)
    requires 1 <= p <= |order| && order' == order[..p] + [node] + order[p..]
    ensures NodeAt(order', p) == node
    ensures j < p ==> NodeAt(order', j) == NodeAt(order, j)
    ensures j >= p ==> NodeAt(order', j + 1) == NodeAt(order, j)
  {
  }

  /** Where node i's link at level l leads after the insertion. */
  lemma {:induction false} LinkAfter(order: seq<Node>, node: Node, update: seq<Node?>, us: seq<nat>, p: nat,
                                     order': seq<Node>, i: nat, l: nat)
    requires 1 <= p <= |order| && i < |order| && l < order[i].level
    requires l < node.level ==> CrossesAt(order, update, us, p, l)
    requires order' == order[..p] + [node] + order[p..]
    requires Levels(order') == Levels(order)[..p] + [node.level] + Levels(order)[p..]
    ensures NodeAt(order', Next(Levels(order'), if i < p then i else i + 1, l)) ==
            if l < node.level && us[l] == i then node else NodeAt(order, Next(Levels(order), i, l))
  {
    var levels, levels' := Levels(order), Levels(order');
    hide Levels, NodeAt, Next;
    NextInserted(levels, p, node.level, levels', i, l);
    NodeAfter(order, node, p, order', Next(levels, i, l));
    if l < node.level && i < p {
      CrossingIsLast(levels, p, l, us[l], i);
    }
  }

  lemma {:induction false} InsertHolds(order: seq<Node>, contents: map<nat, nat>, node: Node, p: nat,
                                       order': seq<Node>)
    requires Holds(order, contents) && 1 <= p <= |order| && node.key !in contents
    requires order' == order[..p] + [node] + order[p..]
    ensures Holds(order', contents[node.key := node.value])
  {
    var contents' := contents[node.key := node.value];
    forall k | k in contents' ensures exists i :: 1 <= i < |order'| && order'[i].key == k {
      if k == node.key {
        assert order'[p].key == k;
      } else {
        var i :| 1 <= i < |order| && order[i].key == k;
        assert order'[if i < p then i else i + 1].key == k;
      }
    }
  }

  lemma {:induction false} InsertOrdered(order: seq<Node>, level: nat, node: Node, p: nat, order': seq<Node>)
    requires Ordered(order, level) && Position(order, node.key, p) && 1 <= node.level <= level && node !in order
    requires p < |order| ==> order[p].key != node.key
    requires order' == order[..p] + [node] + order[p..]
    ensures Ordered(order', level)
  {
    assert forall i :: p <= i < |order| ==> node.key < order[i].key;
  }
}
