/**
  The shape of a skip list as sequences: position 0 is the head, position `a` the
  `a`-th node in key order, and `hs[a]` the highest level the node is linked at.
 */
module SkipListShape {

  /** The first position from `from` on that reaches `level`, or `|hs|`. */
  ghost function Next(hs: seq<nat>, from: nat, level: nat): (r: nat)
    requires from <= |hs|
    ensures from <= r <= |hs|
    ensures r < |hs| ==> hs[r] >= level
    ensures forall c :: from <= c < r ==> hs[c] < level
    decreases |hs| - from
  {
    if from == |hs| || hs[from] >= level then from else Next(hs, from + 1, level)
  }

  /** The last position before `p` that reaches `level`, or the head. */
  ghost function Prev(hs: seq<nat>, p: nat, level: nat): (a: nat)
    ensures a < p || a == 0
    ensures p <= |hs| && a > 0 ==> hs[a] >= level
    ensures p <= |hs| ==> forall c :: a < c < p ==> hs[c] < level
  {
    if p <= 1 || p > |hs| then 0
    else if hs[p - 1] >= level then p - 1
    else Prev(hs, p - 1, level)
  }

  /** The first position from 1 on whose key is at least `k`. */
  ghost function Rank(keys: seq<int>, k: int): (p: nat)
    ensures |keys| >= 1 ==> 1 <= p <= |keys|
    ensures Sorted(keys) ==>
      && (forall a :: 1 <= a < p && a < |keys| ==> keys[a] < k)
      && (forall a :: 1 <= p <= a < |keys| ==> keys[a] >= k)
  {
    if |keys| <= 1 then 1
    else if keys[|keys| - 1] < k then |keys|
    else Rank(keys[..|keys| - 1], k)
  }

  /** Keys grow strictly from position 1 on; position 0, the head, has no key. */
  ghost predicate Sorted(keys: seq<int>)
  {
    forall a, b :: 1 <= a < b < |keys| ==> keys[a] < keys[b]
  }

  ghost function Inserted<T>(s: seq<T>, p: nat, x: T): seq<T>
    requires p <= |s|
  {
    s[..p] + [x] + s[p..]
  }

  ghost function Deleted<T>(s: seq<T>, p: nat): seq<T>
    requires p < |s|
  {
    s[..p] + s[p + 1..]
  }

  lemma {:induction false} NextIs(hs: seq<nat>, from: nat, level: nat, r: nat)
    requires from <= r <= |hs|
    requires r < |hs| ==> hs[r] >= level
    requires forall c :: from <= c < r ==> hs[c] < level
    ensures Next(hs, from, level) == r
  {
    var n := Next(hs, from, level);
    assert n < |hs| ==> hs[n] >= level;
  }

  lemma NextInserted(hs: seq<nat>, p: nat, h: nat, from: nat, level: nat)
    requires p <= |hs| && from <= |hs| + 1
    ensures Next(Inserted(hs, p, h), from, level) ==
      if from > p then Next(hs, from - 1, level) + 1
      else if Next(hs, from, level) < p then Next(hs, from, level)
      else if level <= h then p
      else Next(hs, from, level) + 1
  {
    var hs' := Inserted(hs, p, h);
    if from > p {
      NextIs(hs', from, level, Next(hs, from - 1, level) + 1);
    } else if Next(hs, from, level) < p {
      NextIs(hs', from, level, Next(hs, from, level));
    } else if level <= h {
      NextIs(hs', from, level, p);
    } else {
      NextIs(hs', from, level, Next(hs, from, level) + 1);
    }
  }

  lemma NextDeleted(hs: seq<nat>, p: nat, from: nat, level: nat)
    requires p < |hs| && from < |hs|
    ensures Next(Deleted(hs, p), from, level) ==
      if from > p then Next(hs, from + 1, level) - 1
      else if Next(hs, from, level) < p then Next(hs, from, level)
      else if Next(hs, from, level) == p then Next(hs, p + 1, level) - 1
      else Next(hs, from, level) - 1
  {
    var hs' := Deleted(hs, p);
    if from > p {
      NextIs(hs', from, level, Next(hs, from + 1, level) - 1);
    } else if Next(hs, from, level) < p {
      NextIs(hs', from, level, Next(hs, from, level));
    } else if Next(hs, from, level) == p {
      NextIs(hs', from, level, Next(hs, p + 1, level) - 1);
    } else {
      NextIs(hs', from, level, Next(hs, from, level) - 1);
    }
  }

  /** A position before `p` is the predecessor of `p` at a level exactly when it links across `p`. */
  lemma PrevCrosses(hs: seq<nat>, p: nat, level: nat, a: nat)
    requires 1 <= p <= |hs| && hs[0] >= level && a < p && hs[a] >= level
    ensures Next(hs, a + 1, level) >= p <==> a == Prev(hs, p, level)
  {
    var q := Prev(hs, p, level);
    var n := Next(hs, a + 1, level);
    if a < q { assert n <= q; }
    assert a <= q;
  }

  /** The successor of position `a` on `level` after an element of level `h` went in at `p`. */
  lemma NextAround(hs: seq<nat>, p: nat, h: nat, a: nat, level: nat)
    requires 1 <= p <= |hs| && a <= |hs| && level <= Inserted(hs, p, h)[a] && level <= hs[0]
    ensures var n := Next(Inserted(hs, p, h), a + 1, level);
      if a == p then n == Next(hs, Prev(hs, p, level) + 1, level) + 1 > p
      else if a > p then n == Next(hs, a, level) + 1 > p
      else if level <= h && a == Prev(hs, p, level) then n == p
      else var m := Next(hs, a + 1, level); if m < p then n == m else n == m + 1
  {
    NextInserted(hs, p, h, a + 1, level);
    if a < p {
      PrevCrosses(hs, p, level, a);
    } else if a == p {
      NextFromPrev(hs, p, level);
    }
  }

  /** The predecessor of `p` and `p` itself see the same successor from `p` on. */
  lemma NextFromPrev(hs: seq<nat>, p: nat, level: nat)
    requires 1 <= p <= |hs| && level <= hs[0]
    ensures Next(hs, Prev(hs, p, level) + 1, level) == Next(hs, p, level)
  {
    NextIs(hs, Prev(hs, p, level) + 1, level, Next(hs, p, level));
  }

  /** On level 0 the predecessor of a position is the position before it. */
  lemma NextOnBottom(hs: seq<nat>, p: nat)
    requires 1 <= p <= |hs|
    ensures Prev(hs, p, 0) == p - 1 && Next(hs, p, 0) == p
  {
  }

  /** Where the walk for `k` on one level stops. */
  lemma WalkStops(hs: seq<nat>, keys: seq<int>, k: int, level: nat, a: nat)
    requires |hs| == |keys| >= 1 && hs[0] >= level && Sorted(keys)
    requires a < Rank(keys, k) && hs[a] >= level
    requires var n := Next(hs, a + 1, level); n < |hs| ==> keys[n] >= k
    ensures a == Prev(hs, Rank(keys, k), level)
    ensures level == 0 ==> Next(hs, a + 1, level) == Rank(keys, k)
  {
    PrevCrosses(hs, Rank(keys, k), level, a);
    NextOnBottom(hs, Rank(keys, k));
  }

  lemma SortedInserted(keys: seq<int>, k: int)
    requires |keys| >= 1 && Sorted(keys)
    requires var p := Rank(keys, k); p < |keys| ==> keys[p] != k
    ensures Sorted(Inserted(keys, Rank(keys, k), k))
    ensures forall a :: 1 <= a < |keys| ==> keys[a] != k
  {
  }

  /** The new element makes its own level the top one, or leaves the top one in use. */
  lemma TopInserted(hs: seq<nat>, p: nat, h: nat, level: nat)
    requires 1 <= p <= |hs| && (level > 0 ==> Next(hs, 1, level) < |hs|)
    ensures var top := if h > level then h else level;
      top > 0 ==> Next(Inserted(hs, p, h), 1, top) < |hs| + 1
  {
    NextInserted(hs, p, h, 1, if h > level then h else level);
  }

  /** Every key of `m` stands at some position. */
  ghost predicate Covers<V>(keys: seq<int>, m: map<int, V>)
  {
    forall k :: k in m ==> exists a :: 1 <= a < |keys| && keys[a] == k
  }

  lemma CoversInserted<V>(keys: seq<int>, m: map<int, V>, p: nat, k: int, v: V)
    requires Covers(keys, m) && 1 <= p <= |keys|
    ensures Covers(Inserted(keys, p, k), m[k := v])
  {
    var keys' := Inserted(keys, p, k);
    assert keys'[p] == k;
    forall j | j in m && j != k ensures exists a :: 1 <= a < |keys'| && keys'[a] == j {
      var a :| 1 <= a < |keys| && keys[a] == j;
      assert keys'[if a < p then a else a + 1] == j;
    }
  }

  /** The successor of a position on `level` after position `p` went away. */
  lemma NextAroundDeleted(hs: seq<nat>, p: nat, a: nat, level: nat)
    requires 1 <= p < |hs| && a < |hs| - 1 && level <= Deleted(hs, p)[a] && level <= hs[0]
    ensures var n := Next(Deleted(hs, p), a + 1, level);
      if a >= p then n == Next(hs, a + 2, level) - 1 >= p
      else if level <= hs[p] && a == Prev(hs, p, level) then n == Next(hs, p + 1, level) - 1 >= p
      else var m := Next(hs, a + 1, level); if m < p then n == m else m > p && n == m - 1
  {
    NextDeleted(hs, p, a + 1, level);
    if a < p {
      PrevCrosses(hs, p, level, a);
      NextFromPrev(hs, p, level);
    } else {
      assert a == p ==> Next(hs, p + 1, level) >= p;
    }
  }

  lemma CoversDeleted<V>(keys: seq<int>, m: map<int, V>, p: nat)
    requires Covers(keys, m) && 1 <= p < |keys| && Sorted(keys)
    ensures Covers(Deleted(keys, p), m - {keys[p]}) && Sorted(Deleted(keys, p))
  {
    var keys' := Deleted(keys, p);
    forall j | j in m && j != keys[p] ensures exists a :: 1 <= a < |keys'| && keys'[a] == j {
      var a :| 1 <= a < |keys| && keys[a] == j;
      assert keys'[if a < p then a else a - 1] == j;
    }
  }
}
