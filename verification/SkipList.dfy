/**
  The skip list with linked towers.  A node keeps MAX_LEVEL forward entries but only the
  entries up to its own level are ever set; the others stay `Unset`, and reading the
  target of an entry asks for a proof that it is set.
 */
module SkipList {
  import opened Basics
  import opened SkipListShape
  import Spec = SkipListSpec

  const MAX_LEVEL: nat := 10

  datatype Link<V(0)> = Unset | To(node: Node?<V>)

  class Node<V(0)> {
    var k: int
    var v: V
    const forward: array<Link<V>>

    constructor ()
      ensures fresh(forward) && forward.Length == MAX_LEVEL
      ensures forall i :: 0 <= i < MAX_LEVEL ==> forward[i] == Unset
    {
      k := 0;
      forward := new Link<V>[MAX_LEVEL](_ => Unset);
    }
  }

  /** The node at position `b`, or null past the end. */
  ghost function At<V(0)>(nodes: seq<Node<V>>, b: nat): Node?<V>
  {
    if b < |nodes| then nodes[b] else null
  }

  /** Where the entry of position `a` at `level` has to lead. */
  ghost function Target<V(0)>(nodes: seq<Node<V>>, hs: seq<nat>, a: nat, level: nat): Node?<V>
    requires |hs| == |nodes| && a < |nodes|
  {
    At(nodes, Next(hs, a + 1, level))
  }

  ghost predicate Distinct<V(0)>(nodes: seq<Node<V>>)
  {
    && (forall a :: 0 <= a < |nodes| ==> nodes[a].forward.Length == MAX_LEVEL)
    && (forall a, b :: 0 <= a < b < |nodes| ==> nodes[a] != nodes[b] && nodes[a].forward != nodes[b].forward)
  }

  ghost predicate HeightsOk(hs: seq<nat>)
  {
    |hs| >= 1 && hs[0] == MAX_LEVEL - 1 && forall a :: 0 <= a < |hs| ==> hs[a] < MAX_LEVEL
  }

  ghost function Arrays<V(0)>(nodes: seq<Node<V>>): set<array<Link<V>>>
  {
    set a | 0 <= a < |nodes| :: nodes[a].forward
  }

  /** Every entry up to a node's level leads to the next node that reaches the level. */
  ghost predicate Linked<V(0)>(nodes: seq<Node<V>>, hs: seq<nat>)
    requires |hs| == |nodes| && HeightsOk(hs) && Distinct(nodes)
    reads Arrays(nodes)
  {
    forall a, i :: 0 <= a < |nodes| && 0 <= i <= hs[a] ==> nodes[a].forward[i] == To(Target(nodes, hs, a, i))
  }

  /** Entry (`a`, `j`) lies on the path to position `p`, on one of the `n` lowest levels. */
  ghost predicate OnPath(hs: seq<nat>, p: nat, n: nat, a: nat, j: nat)
  {
    j < n && a == Prev(hs, p, j)
  }

  /** The links after `x` was spliced in before position `p` on the `n` lowest levels. */
  ghost predicate Spliced<V(0)>(nodes: seq<Node<V>>, hs: seq<nat>, p: nat, x: Node<V>, n: nat)
    requires |hs| == |nodes| && HeightsOk(hs) && Distinct(nodes)
    requires 1 <= p <= |nodes| && x.forward.Length == MAX_LEVEL && n <= MAX_LEVEL
    reads x.forward, Arrays(nodes)
  {
    && (forall a, j {:trigger nodes[a].forward[j]} :: 0 <= a < |nodes| && 0 <= j <= hs[a] ==>
      nodes[a].forward[j] == To(if OnPath(hs, p, n, a, j) then x else Target(nodes, hs, a, j)))
    && (forall j {:trigger x.forward[j]} :: 0 <= j < n ==> x.forward[j] == To(Target(nodes, hs, Prev(hs, p, j), j)))
  }

  lemma AtInserted<V(0)>(nodes: seq<Node<V>>, p: nat, x: Node<V>, b: nat)
    requires p <= |nodes|
    ensures At(Inserted(nodes, p, x), b) == if b < p then At(nodes, b) else if b == p then x else At(nodes, b - 1)
  {
  }

  /** Where the entries lead once `x`, of level `top`, stands at position `p`. */
  lemma TargetInserted<V(0)>(nodes: seq<Node<V>>, hs: seq<nat>, p: nat, x: Node<V>, top: nat, a: nat, j: nat)
    requires |hs| == |nodes| && HeightsOk(hs) && 1 <= p <= |nodes| && top < MAX_LEVEL
    requires a <= |nodes| && j <= Inserted(hs, p, top)[a]
    ensures Target(Inserted(nodes, p, x), Inserted(hs, p, top), a, j) ==
      if a == p then Target(nodes, hs, Prev(hs, p, j), j)
      else if a > p then Target(nodes, hs, a - 1, j)
      else if OnPath(hs, p, top + 1, a, j) then x
      else Target(nodes, hs, a, j)
  {
    NextAround(hs, p, top, a, j);
    AtInserted(nodes, p, x, Next(Inserted(hs, p, top), a + 1, j));
  }

  lemma DistinctInserted<V(0)>(nodes: seq<Node<V>>, hs: seq<nat>, p: nat, x: Node<V>, top: nat)
    requires |hs| == |nodes| && HeightsOk(hs) && Distinct(nodes) && 1 <= p <= |nodes| && top < MAX_LEVEL
    requires x !in nodes && x.forward !in Arrays(nodes) && x.forward.Length == MAX_LEVEL
    ensures HeightsOk(Inserted(hs, p, top)) && Distinct(Inserted(nodes, p, x))
  {
  }

  lemma SplicedEntry<V(0)>(nodes: seq<Node<V>>, hs: seq<nat>, p: nat, x: Node<V>, top: nat, a: nat, j: nat)
    requires |hs| == |nodes| && HeightsOk(hs) && Distinct(nodes) && 1 <= p <= |nodes| && top < MAX_LEVEL
    requires x.forward.Length == MAX_LEVEL && Spliced(nodes, hs, p, x, top + 1)
    requires a <= |nodes| && j <= Inserted(hs, p, top)[a]
    requires Inserted(nodes, p, x)[a].forward.Length == MAX_LEVEL && HeightsOk(Inserted(hs, p, top))
    ensures Inserted(nodes, p, x)[a].forward[j] == To(Target(Inserted(nodes, p, x), Inserted(hs, p, top), a, j))
  {
    TargetInserted(nodes, hs, p, x, top, a, j);
    if a < p {
      assert Inserted(nodes, p, x)[a] == nodes[a] && Inserted(hs, p, top)[a] == hs[a];
    } else if a > p {
      assert Inserted(nodes, p, x)[a] == nodes[a - 1] && Inserted(hs, p, top)[a] == hs[a - 1];
    }
  }

  lemma SplicedLinks<V(0)>(nodes: seq<Node<V>>, hs: seq<nat>, p: nat, x: Node<V>, top: nat)
    requires |hs| == |nodes| && HeightsOk(hs) && Distinct(nodes) && 1 <= p <= |nodes| && top < MAX_LEVEL
    requires x.forward.Length == MAX_LEVEL && Spliced(nodes, hs, p, x, top + 1)
    requires HeightsOk(Inserted(hs, p, top)) && Distinct(Inserted(nodes, p, x))
    ensures Linked(Inserted(nodes, p, x), Inserted(hs, p, top))
  {
    forall a, j | 0 <= a <= |nodes| && 0 <= j <= Inserted(hs, p, top)[a]
      ensures Inserted(nodes, p, x)[a].forward[j] == To(Target(Inserted(nodes, p, x), Inserted(hs, p, top), a, j))
    {
      SplicedEntry(nodes, hs, p, x, top, a, j);
    }
  }

  /** The nodes hold the keys in order, and the map `m` is what they hold. */
  ghost predicate Holds<V(0)>(nodes: seq<Node<V>>, keys: seq<int>, m: map<int, V>)
    reads nodes
  {
    && |nodes| == |keys| >= 1 && Sorted(keys)
    && (forall a {:trigger nodes[a].k} :: 1 <= a < |nodes| ==> nodes[a].k == keys[a])
    && (forall a {:trigger nodes[a].v} {:trigger keys[a] in m} :: 1 <= a < |nodes| ==>
      keys[a] in m && m[keys[a]] == nodes[a].v)
    && Covers(keys, m)
  }

  ghost predicate LevelsUpTo(hs: seq<nat>, level: nat)
  {
    level < MAX_LEVEL && forall a :: 1 <= a < |hs| ==> hs[a] <= level
  }

  lemma ElementsInserted<V(0)>(nodes: seq<Node<V>>, p: nat, x: Node<V>)
    requires 1 <= p <= |nodes|
    ensures |Inserted(nodes, p, x)| == |nodes| + 1 && Inserted(nodes, p, x)[0] == nodes[0]
    ensures forall y :: y in Inserted(nodes, p, x) ==> y == x || y in nodes
  {
  }

  lemma LevelsInserted(hs: seq<nat>, level: nat, p: nat, top: nat)
    requires LevelsUpTo(hs, level) && 1 <= p <= |hs| && top <= level
    ensures LevelsUpTo(Inserted(hs, p, top), level) && |Inserted(hs, p, top)| == |hs| + 1
  {
  }

  lemma HoldsInserted<V(0)>(nodes: seq<Node<V>>, keys: seq<int>, m: map<int, V>, x: Node<V>)
    requires Holds(nodes, keys, m)
    requires var p := Rank(keys, x.k); p < |keys| ==> keys[p] != x.k
    ensures var p := Rank(keys, x.k); Holds(Inserted(nodes, p, x), Inserted(keys, p, x.k), m[x.k := x.v])
  {
    var p, k, m' := Rank(keys, x.k), x.k, m[x.k := x.v];
    SortedInserted(keys, k);
    CoversInserted(keys, m, p, k, x.v);
    var nodes', keys' := Inserted(nodes, p, x), Inserted(keys, p, k);
    forall a | 1 <= a < |nodes'| ensures nodes'[a].k == keys'[a] && keys'[a] in m' && m'[keys'[a]] == nodes'[a].v {
      if a != p {
        var b := if a < p then a else a - 1;
        assert nodes'[a] == nodes[b] && keys'[a] == keys[b];
        assert nodes[b].k == keys[b] && keys[b] in m;
      }
    }
  }

  /** The links after the node at position `p` was taken out on the `n` lowest levels. */
  ghost predicate Unspliced<V(0)>(nodes: seq<Node<V>>, hs: seq<nat>, p: nat, n: nat)
    requires |hs| == |nodes| && HeightsOk(hs) && Distinct(nodes) && 1 <= p < |nodes|
    reads Arrays(nodes)
  {
    forall a, j {:trigger nodes[a].forward[j]} :: 0 <= a < |nodes| && 0 <= j <= hs[a] ==>
      nodes[a].forward[j] == To(Target(nodes, hs, if OnPath(hs, p, n, a, j) then p else a, j))
  }

  lemma NoneUnspliced<V(0)>(nodes: seq<Node<V>>, hs: seq<nat>, p: nat)
    requires |hs| == |nodes| && HeightsOk(hs) && Distinct(nodes) && Linked(nodes, hs) && 1 <= p < |nodes|
    ensures Unspliced(nodes, hs, p, 0)
  {
  }

  /** The entry the unlinking loop looks at next leads to position `p` exactly on the node's own levels. */
  lemma UnsplicedFront<V(0)>(nodes: seq<Node<V>>, hs: seq<nat>, p: nat, i: nat)
    requires |hs| == |nodes| && HeightsOk(hs) && Distinct(nodes) && 1 <= p < |nodes| && i < MAX_LEVEL
    requires Unspliced(nodes, hs, p, i)
    ensures var before := nodes[Prev(hs, p, i)].forward;
      && before in Arrays(nodes) && before.Length == MAX_LEVEL
      && before[i].To? && (before[i].node == nodes[p] <==> i <= hs[p])
  {
    hide Next, Prev;
    NextFromPrev(hs, p, i);
    var q := Prev(hs, p, i);
    assert nodes[q].forward[i] == To(At(nodes, Next(hs, p, i)));
    assert Next(hs, p, i) == p <==> i <= hs[p];
  }

  lemma AtDeleted<V(0)>(nodes: seq<Node<V>>, p: nat, b: nat)
    requires p < |nodes|
    ensures At(Deleted(nodes, p), b) == if b < p then At(nodes, b) else At(nodes, b + 1)
  {
  }

  /** Where the entries lead once position `p` is gone. */
  lemma TargetDeleted<V(0)>(nodes: seq<Node<V>>, hs: seq<nat>, p: nat, a: nat, j: nat)
    requires |hs| == |nodes| && HeightsOk(hs) && 1 <= p < |nodes|
    requires a < |nodes| - 1 && j <= Deleted(hs, p)[a]
    ensures Target(Deleted(nodes, p), Deleted(hs, p), a, j) ==
      if a >= p then Target(nodes, hs, a + 1, j)
      else Target(nodes, hs, if OnPath(hs, p, hs[p] + 1, a, j) then p else a, j)
  {
    hide Next;
    NextAroundDeleted(hs, p, a, j);
    AtDeleted(nodes, p, Next(Deleted(hs, p), a + 1, j));
  }

  lemma DistinctDeleted<V(0)>(nodes: seq<Node<V>>, hs: seq<nat>, p: nat)
    requires |hs| == |nodes| && HeightsOk(hs) && Distinct(nodes) && 1 <= p < |nodes|
    ensures HeightsOk(Deleted(hs, p)) && Distinct(Deleted(nodes, p)) && nodes[p] !in Deleted(nodes, p)
  {
  }

  lemma UnsplicedEntry<V(0)>(nodes: seq<Node<V>>, hs: seq<nat>, p: nat, a: nat, j: nat)
    requires |hs| == |nodes| && HeightsOk(hs) && Distinct(nodes) && 1 <= p < |nodes|
    requires Unspliced(nodes, hs, p, hs[p] + 1)
    requires a < |nodes| - 1 && j <= Deleted(hs, p)[a]
    requires HeightsOk(Deleted(hs, p)) && Distinct(Deleted(nodes, p))
    ensures Deleted(nodes, p)[a].forward[j] == To(Target(Deleted(nodes, p), Deleted(hs, p), a, j))
  {
    TargetDeleted(nodes, hs, p, a, j);
    var b := if a < p then a else a + 1;
    assert Deleted(nodes, p)[a] == nodes[b] && Deleted(hs, p)[a] == hs[b];
  }

  lemma UnsplicedLinks<V(0)>(nodes: seq<Node<V>>, hs: seq<nat>, p: nat)
    requires |hs| == |nodes| && HeightsOk(hs) && Distinct(nodes) && 1 <= p < |nodes|
    requires Unspliced(nodes, hs, p, hs[p] + 1)
    requires HeightsOk(Deleted(hs, p)) && Distinct(Deleted(nodes, p))
    ensures Linked(Deleted(nodes, p), Deleted(hs, p))
  {
    forall a, j | 0 <= a < |nodes| - 1 && 0 <= j <= Deleted(hs, p)[a]
      ensures Deleted(nodes, p)[a].forward[j] == To(Target(Deleted(nodes, p), Deleted(hs, p), a, j))
    {
      UnsplicedEntry(nodes, hs, p, a, j);
    }
  }

  lemma HoldsDeleted<V(0)>(nodes: seq<Node<V>>, keys: seq<int>, m: map<int, V>, p: nat)
    requires Holds(nodes, keys, m) && 1 <= p < |nodes|
    ensures Holds(Deleted(nodes, p), Deleted(keys, p), m - {keys[p]})
  {
    CoversDeleted(keys, m, p);
    var nodes', keys', m' := Deleted(nodes, p), Deleted(keys, p), m - {keys[p]};
    forall a | 1 <= a < |nodes'| ensures nodes'[a].k == keys'[a] && keys'[a] in m' && m'[keys'[a]] == nodes'[a].v {
      var b := if a < p then a else a + 1;
      assert nodes'[a] == nodes[b] && keys'[a] == keys[b];
      assert nodes[b].k == keys[b] && keys[b] in m;
    }
  }

  class Skiplist<V(0)> {
    var level: nat
    var head: Node<V>

    ghost var nodes: seq<Node<V>>
    ghost var heights: seq<nat>
    ghost var keys: seq<int>
    ghost var contents: map<int, V>

    ghost predicate Valid()
      reads this, nodes, Arrays(nodes)
    {
      Linking() && (level > 0 ==> Next(heights, 1, level) < |heights|)
    }

    /** All of Valid except that the top level is in use. */
    ghost predicate Linking()
      reads this, nodes, Arrays(nodes)
    {
      && |nodes| == |heights| && Holds(nodes, keys, contents)
      && nodes[0] == head
      && HeightsOk(heights) && Distinct(nodes)
      && Linked(nodes, heights)
      && LevelsUpTo(heights, level)
    }

    /** `MakeNode`: entries below `n` are null, the others are left unset. */
    static method MakeNode(n: nat) returns (node: Node<V>)
      requires n <= MAX_LEVEL
      ensures fresh(node) && fresh(node.forward) && node.forward.Length == MAX_LEVEL
      ensures forall i :: 0 <= i < MAX_LEVEL ==> node.forward[i] == if i < n then To(null) else Unset
    {
      node := new Node();
      for i := 0 to n
        invariant forall j :: 0 <= j < MAX_LEVEL ==> node.forward[j] == if j < i then To(null) else Unset
      {
        node.forward[i] := To(null);
      }
    }

    /** The height the coins give: as many levels as there are heads before the first tail, at most MAX_LEVEL - 1. */
    static ghost predicate Tossed(coin: nat -> bool, h: nat)
    {
      h <= 9 && (forall i :: 0 <= i < h ==> coin(i)) && (h < 9 ==> !coin(h))
    }

    /** `GetInsertLevel`: the number of heads before the first tail, at most MAX_LEVEL - 1. */
    static method GetInsertLevel(coin: nat -> bool) returns (res: nat)
      ensures Tossed(coin, res)
    {
      res := 0;
      while true
        invariant res < MAX_LEVEL - 1
        invariant forall i :: 0 <= i < res ==> coin(i)
        decreases MAX_LEVEL - res
      {
        if coin(res) {
          res := res + 1;
        } else {
          break;
        }
        if MAX_LEVEL - 1 <= res {
          break;
        }
      }
      if res >= MAX_LEVEL - 1 {
        res := MAX_LEVEL - 1;
      }
    }

    constructor ()
      ensures Valid() && contents == map[]
      ensures fresh(nodes) && fresh(Arrays(nodes))
    {
      level := 0;
      var h := MakeNode(MAX_LEVEL);
      head := h;
      nodes, heights, keys, contents := [h], [MAX_LEVEL - 1], [0], map[];
    }

    /** The position of the first key that is at least `k`. */
    ghost function RankOf(k: int): nat
      reads `keys
    {
      Rank(keys, k)
    }

    /** The node the descent for `k` leaves level `i` from. */
    ghost function LastBelow(k: int, i: nat): Node<V>
      reads `keys, `heights, `nodes
      requires |nodes| == |heights| == |keys| >= 1
    {
      nodes[Prev(heights, Rank(keys, k), i)]
    }

    /** Walk right on level `i` to the last node with a smaller key. */
    method WalkLevel(start: Node<V>, i: nat, k: int) returns (vertical: Node<V>, horizontal: Node?<V>)
      requires Valid() && i < MAX_LEVEL && start == LastBelow(k, i + 1)
      ensures vertical == LastBelow(k, i)
      ensures i == 0 ==> horizontal == At(nodes, RankOf(k))
    {
      ghost var p := RankOf(k);
      ghost var a := Prev(heights, p, i + 1);
      vertical := start;
      horizontal := vertical.forward[i].node;
      while horizontal != null && horizontal.k < k
        invariant a < p && vertical == nodes[a] && heights[a] >= i
        invariant horizontal == Target(nodes, heights, a, i)
        decreases |nodes| - a
      {
        a := Next(heights, a + 1, i);
        vertical := horizontal;
        horizontal := horizontal.forward[i].node;
      }
      WalkStops(heights, keys, k, i, a);
    }

    /** Above the list's level the descent stands at the head. */
    lemma HeadIsLastAbove(k: int)
      requires Linking()
      ensures forall i :: i > level ==> LastBelow(k, i) == head
    {
    }

    /**
      The descent every operation starts with: from the top level down, on each level
      right to the last node with a smaller key, which goes into `path`.
     */
    method Descend(k: int) returns (path: seq<Node<V>>, horizontal: Node?<V>)
      requires Valid()
      ensures |path| == level + 1
      ensures forall i :: 0 <= i <= level ==> path[i] == LastBelow(k, i)
      ensures horizontal == At(nodes, RankOf(k))
    {
      hide Next, Prev;
      HeadIsLastAbove(k);
      var start := head;
      var vertical := start;
      path := seq(level + 1, _ => start);
      horizontal := null;
      var i := level + 1;
      while i > 0
        invariant 0 <= i <= level + 1 && |path| == level + 1
        invariant vertical == LastBelow(k, i)
        invariant forall j :: i <= j <= level ==> path[j] == LastBelow(k, j)
        invariant i == 0 ==> horizontal == At(nodes, RankOf(k))
      {
        i := i - 1;
        vertical, horizontal := WalkLevel(vertical, i, k);
        path := path[i := vertical];
      }
    }

    /** One turn of the relinking loop: on level `i`, `x` goes between `before` and its successor. */
    static method SpliceLevel(x: Node<V>, before: Node<V>, i: nat, ghost nodes: seq<Node<V>>, ghost hs: seq<nat>,
                              ghost p: nat)
      requires |hs| == |nodes| && HeightsOk(hs) && Distinct(nodes)
      requires 1 <= p <= |nodes| && i < MAX_LEVEL
      requires x.forward.Length == MAX_LEVEL && x !in nodes && x.forward !in Arrays(nodes)
      requires before == nodes[Prev(hs, p, i)]
      requires Spliced(nodes, hs, p, x, i)
      modifies x.forward, before.forward
      ensures Spliced(nodes, hs, p, x, i + 1)
    {
      hide Next, Prev;
      ghost var q := Prev(hs, p, i);
      assert forall a :: 0 <= a < |nodes| && a != q ==> nodes[a].forward != before.forward;
      x.forward[i] := before.forward[i];
      before.forward[i] := To(x);
    }

    /** The relinking loop of `Modify`: on every level up to `top`, `x` goes after the node of `path`. */
    static method Splice(x: Node<V>, path: seq<Node<V>>, top: nat, ghost nodes: seq<Node<V>>, ghost hs: seq<nat>,
                         ghost p: nat)
      requires |hs| == |nodes| && HeightsOk(hs) && Distinct(nodes) && Linked(nodes, hs)
      requires 1 <= p <= |nodes| && top < MAX_LEVEL && top < |path|
      requires x.forward.Length == MAX_LEVEL && x !in nodes && x.forward !in Arrays(nodes)
      requires forall j :: 0 <= j <= top ==> path[j] == nodes[Prev(hs, p, j)]
      modifies x.forward, Arrays(nodes)
      ensures Spliced(nodes, hs, p, x, top + 1)
    {
      for i := 0 to top + 1
        invariant Spliced(nodes, hs, p, x, i)
      {
        SpliceLevel(x, path[i], i, nodes, hs, p);
      }
    }

    /** A new node of level `top` between the nodes of `path` and their successors. */
    static method Join(k: int, v: V, path: seq<Node<V>>, top: nat, ghost nodes: seq<Node<V>>, ghost hs: seq<nat>,
                       ghost p: nat)
      returns (x: Node<V>)
      requires |hs| == |nodes| && HeightsOk(hs) && Distinct(nodes) && Linked(nodes, hs)
      requires 1 <= p <= |nodes| && top < MAX_LEVEL && top < |path|
      requires forall j :: 0 <= j <= top ==> path[j] == nodes[Prev(hs, p, j)]
      modifies Arrays(nodes)
      ensures fresh(x) && fresh(x.forward) && x.k == k && x.v == v
      ensures HeightsOk(Inserted(hs, p, top)) && Distinct(Inserted(nodes, p, x))
      ensures Linked(Inserted(nodes, p, x), Inserted(hs, p, top))
    {
      x := MakeNode(top);
      x.k := k;
      x.v := v;
      Splice(x, path, top, nodes, hs, p);
      DistinctInserted(nodes, hs, p, x, top);
      SplicedLinks(nodes, hs, p, x, top);
    }

    /** The end of `Modify`: a new node of level `top` for the absent key `k`. */
    method Attach(k: int, v: V, path: seq<Node<V>>, top: nat)
      requires Linking() && top <= level
      requires |path| == level + 1 && forall j :: 0 <= j <= level ==> path[j] == LastBelow(k, j)
      requires RankOf(k) < |keys| ==> keys[RankOf(k)] != k
      modifies `nodes, `heights, `keys, `contents, Arrays(nodes)
      ensures Linking()
      ensures contents == old(contents)[k := v]
      ensures forall x :: x in nodes ==> x in old(nodes) || (fresh(x) && fresh(x.forward))
      ensures heights == Inserted(old(heights), old(RankOf(k)), top)
    {
      assert |nodes| == |keys|;
      hide Next, Prev, OnPath, Holds, HeightsOk, Distinct, Linked, LevelsUpTo, Inserted;
      ghost var p := RankOf(k);
      LevelsInserted(heights, level, p, top);
      var newnode := Join(k, v, path, top, nodes, heights, p);
      HoldsInserted(nodes, keys, contents, newnode);
      ElementsInserted(nodes, p, newnode);
      nodes := Inserted(nodes, p, newnode);
      heights := Inserted(heights, p, top);
      keys := Inserted(keys, p, k);
      contents := contents[k := v];
    }

    /** Where `Modify` raises the list to the new node's level: the added levels start at the head. */
    method Raise(path0: seq<Node<V>>, top: nat, ghost k: int) returns (path: seq<Node<V>>)
      requires Linking() && top < MAX_LEVEL
      requires |path0| == level + 1 && forall j :: 0 <= j <= level ==> path0[j] == LastBelow(k, j)
      modifies `level
      ensures Linking() && level == if top > old(level) then top else old(level)
      ensures |path| == level + 1 && forall j :: 0 <= j <= level ==> path[j] == LastBelow(k, j)
    {
      path := path0;
      HeadIsLastAbove(k);
      while top > level
        invariant old(level) <= level && (level == old(level) || level <= top)
        invariant |path| == level + 1 && forall j :: 0 <= j <= level ==> path[j] == LastBelow(k, j)
      {
        level := level + 1;
        path := path + [head];
      }
    }

    /** The branch of `Modify` for a key that is present. */
    method Overwrite(node: Node<V>, v: V, ghost p: nat)
      requires Valid() && 1 <= p < |nodes| && node == nodes[p]
      modifies `contents, node`v
      ensures Valid() && unchanged(`nodes)
      ensures contents == old(contents)[keys[p] := v]
    {
      assert forall a :: 1 <= a < |nodes| && a != p ==> nodes[a] != node && keys[a] != keys[p];
      node.v := v;
      contents := contents[keys[p] := v];
    }

    /** The branch of `Modify` for a key that is absent, with the path `Descend` left. */
    method InsertNew(k: int, v: V, path0: seq<Node<V>>, coin: nat -> bool)
      requires Valid() && (RankOf(k) < |keys| ==> keys[RankOf(k)] != k)
      requires |path0| == level + 1 && forall j :: 0 <= j <= level ==> path0[j] == LastBelow(k, j)
      modifies this, Arrays(nodes)
      ensures Valid()
      ensures contents == old(contents)[k := v]
      ensures forall x :: x in nodes ==> x in old(nodes) || (fresh(x) && fresh(x.forward))
      ensures exists h :: Tossed(coin, h) && heights == Inserted(old(heights), old(RankOf(k)), h)
    {
      var insertLevel := GetInsertLevel(coin);
      TopInserted(heights, RankOf(k), insertLevel, level);
      var path := Raise(path0, insertLevel, k);
      Attach(k, v, path, insertLevel);
    }

    /** `Modify`: after any outcome of the coin the list holds `v` for `k` and is otherwise the same map. */
    method Modify(k: int, v: V, coin: nat -> bool)
      requires Valid()
      modifies this, nodes, Arrays(nodes)
      ensures Valid()
      ensures contents == old(contents)[k := v]
      ensures forall x :: x in nodes ==> x in old(nodes) || (fresh(x) && fresh(x.forward))
      ensures k in old(contents) ==> nodes == old(nodes) && heights == old(heights) && level == old(level)
      ensures k !in old(contents) ==>
        exists h :: Tossed(coin, h) && heights == Inserted(old(heights), old(RankOf(k)), h)
    {
      var path, horizontal := Descend(k);
      if horizontal != null && horizontal.k == k {
        Overwrite(horizontal, v, RankOf(k));
      } else {
        InsertNew(k, v, path, coin);
      }
    }

    /** One turn of the unlinking loop: on level `i`, `before` skips the node at position `p`. */
    static method UnspliceLevel(before: Node<V>, gone: Node<V>, i: nat, ghost nodes: seq<Node<V>>,
                                ghost hs: seq<nat>, ghost p: nat)
      requires |hs| == |nodes| && HeightsOk(hs) && Distinct(nodes) && 1 <= p < |nodes|
      requires gone == nodes[p] && i <= hs[p] && before == nodes[Prev(hs, p, i)]
      requires Unspliced(nodes, hs, p, i)
      modifies before.forward
      ensures Unspliced(nodes, hs, p, i + 1)
    {
      hide Next, Prev;
      ghost var q := Prev(hs, p, i);
      assert forall a :: 0 <= a < |nodes| && a != q ==> nodes[a].forward != before.forward;
      before.forward[i] := gone.forward[i];
    }

    /** The unlinking loop of `Remove`, up to the first level whose predecessor does not point to the node. */
    static method Unsplice(gone: Node<V>, path: seq<Node<V>>, level: nat, ghost nodes: seq<Node<V>>,
                           ghost hs: seq<nat>, ghost p: nat)
      requires |hs| == |nodes| && HeightsOk(hs) && Distinct(nodes) && Linked(nodes, hs) && 1 <= p < |nodes|
      requires LevelsUpTo(hs, level) && gone == nodes[p]
      requires |path| == level + 1 && forall j :: 0 <= j <= level ==> path[j] == nodes[Prev(hs, p, j)]
      modifies Arrays(nodes)
      ensures Unspliced(nodes, hs, p, hs[p] + 1)
    {
      hide Next, Prev, Linked, OnPath, Unspliced, Arrays, Distinct, HeightsOk, Target, At;
      NoneUnspliced(nodes, hs, p);
      UnsplicedFront(nodes, hs, p, 0);
      var i := 0;
      while i <= level && path[i].forward[i].node == gone
        invariant i <= hs[p] + 1 && Unspliced(nodes, hs, p, i)
        invariant i <= level ==>
          var before := path[i].forward;
          && before in Arrays(nodes) && before.Length == MAX_LEVEL
          && before[i].To? && (before[i].node == gone <==> i <= hs[p])
        decreases level + 1 - i
      {
        UnspliceLevel(path[i], gone, i, nodes, hs, p);
        i := i + 1;
        if i <= level { UnsplicedFront(nodes, hs, p, i); }
      }
    }

    /** The branch of `Remove` that takes out the node at position `p`. */
    method Detach(gone: Node<V>, path: seq<Node<V>>, ghost p: nat)
      requires Linking() && 1 <= p < |nodes| && gone == nodes[p]
      requires |path| == level + 1 && forall j :: 0 <= j <= level ==> path[j] == nodes[Prev(heights, p, j)]
      modifies `nodes, `heights, `keys, `contents, Arrays(nodes)
      ensures Linking()
      ensures nodes == Deleted(old(nodes), p) && gone !in nodes
      ensures contents == old(contents) - {old(keys)[p]}
    {
      Unsplice(gone, path, level, nodes, heights, p);
      DistinctDeleted(nodes, heights, p);
      UnsplicedLinks(nodes, heights, p);
      HoldsDeleted(nodes, keys, contents, p);
      nodes, heights, keys, contents := Deleted(nodes, p), Deleted(heights, p), Deleted(keys, p), contents - {keys[p]};
    }

    /** The closing loop of `Remove`: down to the highest level in use. */
    method Lower()
      requires Linking()
      modifies `level
      ensures Valid()
    {
      while head.forward[level].node == null && level != 0
        invariant Linking()
      {
        level := level - 1;
      }
    }

    /** `Remove`: the list holds every key but `k`, and the node of `k` is on no level any more. */
    method Remove(k: int)
      requires Valid()
      modifies this, Arrays(nodes)
      ensures Valid()
      ensures contents == old(contents) - {k}
      ensures k !in old(contents) ==> nodes == old(nodes)
      ensures k in old(contents) ==>
        var p := old(RankOf(k));
        p < |old(nodes)| && nodes == Deleted(old(nodes), p) && old(keys)[p] == k && old(nodes)[p] !in nodes
    {
      var path, horizontal := Descend(k);
      ghost var p := RankOf(k);
      if horizontal != null && horizontal.k == k {
        Detach(horizontal, path, p);
        Lower();
      } else {
        AbsentKey(k);
      }
    }

    /** A key not found at its rank is not in the map. */
    lemma AbsentKey(k: int)
      requires Valid() && (RankOf(k) < |keys| ==> keys[RankOf(k)] != k)
      ensures k !in contents
    {
    }

    /** `Search`: `v` keeps its value when the key is absent. */
    method Search(k: int, v0: V) returns (found: bool, v: V)
      requires Valid()
      ensures found <==> k in contents
      ensures v == if k in contents then contents[k] else v0
    {
      var path, horizontal := Descend(k);
      if horizontal != null && horizontal.k == k {
        return true, horizontal.v;
      }
      AbsentKey(k);
      return false, v0;
    }

    /** Position `a` is where a range that starts at `from` goes on. */
    ghost predicate Continues(a: nat, from: int)
      reads `nodes, `keys
    {
      && |nodes| == |keys| && 1 <= a <= |nodes|
      && (forall b :: 1 <= b < a ==> keys[b] < from)
      && (a < |nodes| ==> from <= keys[a])
    }

    /** The rest of a range, read from the node where it goes on. */
    lemma RangeFrom(a: nat, from: int, ed: int)
      requires Valid() && Continues(a, from)
      ensures Spec.RangeValues(contents, from, ed) ==
        if a < |nodes| && nodes[a].k <= ed then [nodes[a].v] + Spec.RangeValues(contents, nodes[a].k + 1, ed) else []
    {
      hide Linked, HeightsOk, Distinct, LevelsUpTo, Next, Spec.RangeValues;
      if a == |nodes| {
        Spec.RangeIsEmpty(contents, from, ed);
      } else {
        assert nodes[a].k == keys[a] && keys[a] in contents && contents[keys[a]] == nodes[a].v;
        forall k | from <= k < keys[a] ensures k !in contents {
          assert forall b :: 1 <= b < |keys| ==> keys[b] != k;
        }
        Spec.RangeStartsAt(contents, from, keys[a], ed);
      }
    }

    /** The bottom link of the node at position `a` leads to the next node. */
    lemma BottomLink(a: nat)
      requires Valid() && a < |nodes|
      ensures nodes[a].forward[0] == To(At(nodes, a + 1))
      ensures 1 <= a ==> Continues(a + 1, nodes[a].k + 1)
    {
      NextOnBottom(heights, a + 1);
    }

    /** `v` and the rest of the range from `from` make up the range from `st`. */
    ghost predicate Collected(v: seq<V>, from: int, st: int, ed: int)
      reads `contents
    {
      v + Spec.RangeValues(contents, from, ed) == Spec.RangeValues(contents, st, ed)
    }

    lemma CollectNext(v: seq<V>, a: nat, from: int, st: int, ed: int)
      requires Valid() && Continues(a, from) && Collected(v, from, st, ed)
      ensures if a < |nodes| && nodes[a].k <= ed then Collected(v + [nodes[a].v], nodes[a].k + 1, st, ed)
        else v == Spec.RangeValues(contents, st, ed)
    {
      RangeFrom(a, from, ed);
      if a < |nodes| && nodes[a].k <= ed {
        var rest := Spec.RangeValues(contents, nodes[a].k + 1, ed);
        assert v + ([nodes[a].v] + rest) == (v + [nodes[a].v]) + rest;
      }
    }

    /** `RangeGet`: the values of the keys from `st` to `ed` in key order. */
    method RangeGet(st: int, ed: int) returns (v: seq<V>)
      requires Valid()
      ensures v == Spec.RangeValues(contents, st, ed)
    {
      v := [];
      var path, horizontal := Descend(st);
      ghost var a, from := RankOf(st), st;
      while horizontal != null && horizontal.k <= ed
        invariant Continues(a, from) && horizontal == At(nodes, a) && Collected(v, from, st, ed)
        decreases |nodes| - a
      {
        CollectNext(v, a, from, st, ed);
        BottomLink(a);
        v := v + [horizontal.v];
        from := horizontal.k + 1;
        horizontal := horizontal.forward[0].node;
        a := a + 1;
      }
      CollectNext(v, a, from, st, ed);
    }

    /** `cnt` and the number of values from `from` on make up the number from `st` on. */
    ghost predicate CountedTo(cnt: nat, from: int, st: int, ed: int)
      reads `contents
    {
      cnt + |Spec.RangeValues(contents, from, ed)| == |Spec.RangeValues(contents, st, ed)|
    }

    lemma CountNext(cnt: nat, a: nat, from: int, st: int, ed: int)
      requires Valid() && Continues(a, from) && CountedTo(cnt, from, st, ed)
      ensures if a < |nodes| && nodes[a].k <= ed then CountedTo(cnt + 1, nodes[a].k + 1, st, ed)
        else cnt == |Spec.RangeValues(contents, st, ed)|
    {
      RangeFrom(a, from, ed);
    }

    /** `RangeCount`: how many keys lie from `st` to `ed`. */
    method RangeCount(st: int, ed: int) returns (cnt: nat)
      requires Valid()
      ensures cnt == |set k | k in contents && st <= k <= ed|
    {
      cnt := 0;
      var path, horizontal := Descend(st);
      ghost var a, from := RankOf(st), st;
      while horizontal != null && horizontal.k <= ed
        invariant Continues(a, from) && horizontal == At(nodes, a) && CountedTo(cnt, from, st, ed)
        decreases |nodes| - a
      {
        CountNext(cnt, a, from, st, ed);
        BottomLink(a);
        cnt := cnt + 1;
        from := horizontal.k + 1;
        horizontal := horizontal.forward[0].node;
        a := a + 1;
      }
      CountNext(cnt, a, from, st, ed);
      Spec.RangeHasOneValuePerKey(contents, st, ed);
    }

    /** What the destructor reads of a node: it asks for a proof that the node is not freed and its link is set. */
    static method NextBottom(x: Node<V>, ghost freed: seq<Node<V>>) returns (next: Node?<V>)
      requires x !in freed && x.forward.Length == MAX_LEVEL && x.forward[0].To?
      ensures next == x.forward[0].node
    {
      next := x.forward[0].node;
    }

    /** Freeing a node asks for a proof that it is not freed already. */
    static method Free(x: Node<V>, freed: seq<Node<V>>) returns (freed': seq<Node<V>>)
      requires x !in freed
      ensures freed' == freed + [x]
    {
      freed' := freed + [x];
    }

    /** The walk has freed the nodes before position `a`, and the node there is still whole. */
    lemma NotFreed(a: nat)
      requires Valid() && 1 <= a < |nodes|
      ensures nodes[a] !in nodes[1..a] && head !in nodes[1..a] && nodes[1..a] + [nodes[a]] == nodes[1..a + 1]
      ensures nodes[a].forward[0] == To(At(nodes, a + 1))
    {
      BottomLink(a);
    }

    /**
      The destructor's walk: every node is freed exactly once, the head last, and no
      entry of a freed node is read.
     */
    method Destroy() returns (freed: seq<Node<V>>)
      requires Valid()
      ensures freed == nodes[1..] + [head]
      ensures forall i, j :: 0 <= i < j < |freed| ==> freed[i] != freed[j]
    {
      hide Next;
      freed := [];
      BottomLink(0);
      var left := NextBottom(head, freed);
      ghost var a := 1;
      while true
        invariant 1 <= a <= |nodes| && left == At(nodes, a) && freed == nodes[1..a]
        decreases |nodes| - a
      {
        if left == null {
          break;
        }
        NotFreed(a);
        var next := NextBottom(left, freed);
        if next == null {
          break;
        }
        freed := Free(left, freed);
        left := next;
        a := a + 1;
      }
      if left != null {
        NotFreed(a);
        freed := Free(left, freed);
      }
      freed := Free(head, freed);
    }

    /** One operation answers, and changes the map, as an ordered map would. */
    method Perform(op: Spec.Op<V>, coin: nat -> bool) returns (answer: Spec.Answer<V>)
      requires Valid()
      modifies this, nodes, Arrays(nodes)
      ensures Valid()
      ensures contents == Spec.Apply(old(contents), op) && answer == Spec.Reply(old(contents), op)
      ensures forall x :: x in nodes ==> x in old(nodes) || (fresh(x) && fresh(x.forward))
    {
      match op {
        case Modify(k, v) =>
          Modify(k, v, coin);
          answer := Spec.Done;
        case Remove(k) =>
          Remove(k);
          answer := Spec.Done;
        case Search(k) =>
          var v0: V := *;
          var found, v := Search(k, v0);
          answer := Spec.Found(if found then Some(v) else None);
        case RangeGet(st, ed) =>
          var v := RangeGet(st, ed);
          answer := Spec.Values(v);
        case RangeCount(st, ed) =>
          var cnt := RangeCount(st, ed);
          answer := Spec.Count(cnt);
      }
    }

    /** Any run of operations, under any outcomes of the coins, is answered as by the ordered map. */
    method RunAll(ops: seq<Spec.Op<V>>, coins: nat -> nat -> bool) returns (answers: seq<Spec.Answer<V>>)
      requires Valid()
      modifies this, nodes, Arrays(nodes)
      ensures Valid()
      ensures contents == Spec.MapAfter(old(contents), ops)
      ensures answers == Spec.Replies(old(contents), ops)
    {
      answers := [];
      for i := 0 to |ops|
        invariant Valid()
        invariant contents == Spec.MapAfter(old(contents), ops[..i])
        invariant answers == Spec.Replies(old(contents), ops[..i])
        invariant forall x :: x in nodes ==> x in old(nodes) || (fresh(x) && fresh(x.forward))
      {
        assert ops[..i + 1][..i] == ops[..i];
        var answer := Perform(ops[i], coins(i));
        answers := answers + [answer];
      }
      assert ops[..|ops|] == ops;
    }
  }
}
