/**
  The array heap with children `2i` and `2i + 1` counted from 0, so that the root has
  the single proper child 1, and its use as a keeper of the K least elements.
 */
module TopKHeap {

  /** `a` ranks at or beyond `b` for a comparator that answers 1 or 0; ties may answer either. */
  ghost predicate Ge<T>(cmp: (T, T) -> int, a: T, b: T)
  {
    cmp(a, b) == 1 || cmp(b, a) == 0
  }

  /** The comparator answers 0 or 1 and its ranking is transitive. */
  ghost predicate Ranks<T(!new)>(cmp: (T, T) -> int)
  {
    && (forall a, b :: cmp(a, b) == 0 || cmp(a, b) == 1)
    && (forall a, b, c {:trigger Chain(a, b, c)} :: Ge(cmp, a, b) && Ge(cmp, b, c) ==> Ge(cmp, a, c))
  }

  /** Always true; it names the three elements transitivity is used for. */
  ghost predicate Chain<T>(a: T, b: T, c: T) { true }

  lemma GeTransitive<T(!new)>(cmp: (T, T) -> int, a: T, b: T, c: T)
    requires Ranks(cmp) && Ge(cmp, a, b) && Ge(cmp, b, c)
    ensures Ge(cmp, a, c)
  {
    assert Chain(a, b, c);
  }

  /** `x` ranks at or beyond every element of `m`. */
  ghost predicate Beyond<T>(cmp: (T, T) -> int, x: T, m: multiset<T>)
  {
    forall y :: y in m ==> Ge(cmp, x, y)
  }

  /** The links `Adjust` establishes for `size` elements: those of parents below `size / 2`, from `low` on. */
  ghost predicate Heaped<T>(cmp: (T, T) -> int, d: seq<T>, low: nat, size: nat)
    requires size <= |d|
  {
    forall c :: 1 <= c < size && low <= c / 2 < size / 2 ==> Ge(cmp, d[c / 2], d[c])
  }

  /** Heaped, except that the element at `i` may be too small for its children. */
  ghost predicate HeapedExcept<T>(cmp: (T, T) -> int, d: seq<T>, low: nat, size: nat, i: nat)
    requires size <= |d|
  {
    && (forall c :: 1 <= c < size && low <= c / 2 < size / 2 && c / 2 != i ==> Ge(cmp, d[c / 2], d[c]))
    && (forall c :: 1 <= c < size && 1 <= i && low <= i / 2 && c / 2 == i && i < size / 2 ==> Ge(cmp, d[i / 2], d[c]))
  }

  /** How many elements take part in the order: the last of an odd number from 3 on does not. */
  function Active(size: nat): (n: nat)
    ensures n <= size && (size > 0 ==> n > 0)
  {
    if size == 1 then 1 else size / 2 * 2
  }

  /** The first `n` elements were rearranged, the others stayed in place. */
  ghost predicate Rearranged<T>(before: seq<T>, after: seq<T>, n: nat)
  {
    && |before| == |after| && n <= |before|
    && multiset(after[..n]) == multiset(before[..n])
    && after[n..] == before[n..]
  }

  ghost function Swapped<T>(d: seq<T>, i: nat, j: nat): seq<T>
    requires i < |d| && j < |d|
  {
    d[i := d[j]][j := d[i]]
  }

  lemma SwapRearranges<T>(d: seq<T>, i: nat, j: nat, n: nat)
    requires i < n <= |d| && j < n
    ensures Rearranged(d, Swapped(d, i, j), n)
  {
    var e := Swapped(d, i, j);
    assert e[..n] == Swapped(d[..n], i, j);
    assert e[n..] == d[n..];
  }

  lemma RearrangedTwice<T>(a: seq<T>, b: seq<T>, c: seq<T>, n: nat)
    requires Rearranged(a, b, n) && Rearranged(b, c, n)
    ensures Rearranged(a, c, n)
  {
  }

  /** The child `Adjust` descends to, or `i` itself. */
  ghost predicate Largest<T>(cmp: (T, T) -> int, d: seq<T>, size: nat, i: nat, max: nat)
    requires size <= |d|
  {
    && max < size
    && (max == i || (max > i && max / 2 == i))
    && (forall c :: 1 <= c < size && c / 2 == i ==> Ge(cmp, d[max], d[c]))
    && Ge(cmp, d[max], d[i])
  }

  /** Comparing a node with its left and then its right child finds the largest of the three. */
  lemma LargestOfThree<T(!new)>(cmp: (T, T) -> int, d: seq<T>, size: nat, i: nat, first: nat, max: nat)
    requires Ranks(cmp) && size <= |d| && i < size / 2
    requires first == if cmp(d[i], d[2 * i]) == 0 then 2 * i else i
    requires max == if cmp(d[first], d[2 * i + 1]) == 0 then 2 * i + 1 else first
    ensures Largest(cmp, d, size, i, max)
  {
    var l, r := 2 * i, 2 * i + 1;
    assert cmp(d[i], d[i]) == 0 || cmp(d[i], d[i]) == 1;
    assert cmp(d[l], d[l]) == 0 || cmp(d[l], d[l]) == 1;
    assert cmp(d[r], d[r]) == 0 || cmp(d[r], d[r]) == 1;
    assert Ge(cmp, d[first], d[i]) && Ge(cmp, d[first], d[l]);
    assert Ge(cmp, d[max], d[first]) && Ge(cmp, d[max], d[r]);
    GeTransitive(cmp, d[max], d[first], d[i]);
    GeTransitive(cmp, d[max], d[first], d[l]);
    forall c | 1 <= c < size && c / 2 == i ensures Ge(cmp, d[max], d[c]) {
      assert c == l || c == r;
    }
  }

  lemma NoSwapHeaps<T(!new)>(cmp: (T, T) -> int, d: seq<T>, low: nat, size: nat, i: nat)
    requires size <= |d| && HeapedExcept(cmp, d, low, size, i) && Largest(cmp, d, size, i, i)
    ensures Heaped(cmp, d, low, size)
  {
  }

  lemma SwapMovesGap<T(!new)>(cmp: (T, T) -> int, d: seq<T>, low: nat, size: nat, i: nat, max: nat)
    requires Ranks(cmp) && size <= |d| && low <= i < size / 2
    requires HeapedExcept(cmp, d, low, size, i) && Largest(cmp, d, size, i, max) && max != i
    ensures HeapedExcept(cmp, Swapped(d, i, max), low, size, max)
  {
    var e := Swapped(d, i, max);
    forall c | 1 <= c < size && low <= c / 2 < size / 2 && c / 2 != max ensures Ge(cmp, e[c / 2], e[c]) {
      if c / 2 == i {
        assert e[c / 2] == d[max];
        assert e[c] == d[c] || e[c] == d[i];
      } else if c == i {
        assert e[c] == d[max];
      } else {
        assert e[c] == d[c] && e[c / 2] == d[c / 2];
      }
    }
    forall c | 1 <= c < size && c / 2 == max && max < size / 2 ensures Ge(cmp, e[max / 2], e[c]) {
      assert e[max / 2] == d[max] && e[c] == d[c];
    }
  }

  /** The root ranks at or beyond every element that takes part in the order. */
  lemma {:induction false} RootDominates<T(!new)>(cmp: (T, T) -> int, d: seq<T>, size: nat, j: nat)
    requires Ranks(cmp) && size <= |d| && Heaped(cmp, d, 0, size) && j < Active(size)
    ensures Ge(cmp, d[0], d[j])
  {
    if j > 0 {
      RootDominates(cmp, d, size, j / 2);
      GeTransitive(cmp, d[0], d[j / 2], d[j]);
    } else {
      assert cmp(d[0], d[0]) == 0 || cmp(d[0], d[0]) == 1;
    }
  }

  class Heap<T(!new)> {
    var data: seq<T>
    const cmpfunc: (T, T) -> int

    constructor (cmpfunc: (T, T) -> int)
      ensures this.cmpfunc == cmpfunc && data == []
    {
      this.cmpfunc := cmpfunc;
      data := [];
    }

    function Left(i: nat): nat { i * 2 }

    function Right(i: nat): nat { i * 2 + 1 }

    method Swap(i: nat, j: nat)
      requires i < |data| && j < |data|
      modifies this
      ensures data == Swapped(old(data), i, j)
    {
      var tmp := data[i];
      data := data[i := data[j]];
      data := data[j := tmp];
    }

    /** The two comparisons at the start of `Adjust`. */
    method PickLargest(i: nat, size: nat) returns (max: nat)
      requires Ranks(cmpfunc) && i < size / 2 && size <= |data|
      ensures Largest(cmpfunc, data, size, i, max)
    {
      max := i;
      if Left(i) < size && cmpfunc(data[max], data[Left(i)]) == 0 {
        max := Left(i);
      }
      ghost var first := max;
      if Right(i) < size && cmpfunc(data[max], data[Right(i)]) == 0 {
        max := Right(i);
      }
      LargestOfThree(cmpfunc, data, size, i, first, max);
    }

    /**
      `Adjust`: moves the element at `i` down until the order holds from `low` on.  It
      touches no more than the first `size / 2 * 2` elements.
     */
    method Adjust(i: nat, size: nat, ghost low: nat, ghost span: nat)
      requires Ranks(cmpfunc) && size <= |data| && low <= i
      requires size / 2 * 2 <= span <= |data|
      requires HeapedExcept(cmpfunc, data, low, size, i)
      modifies this
      ensures |data| == old(|data|)
      ensures Heaped(cmpfunc, data, low, size)
      ensures Rearranged(old(data), data, span)
      decreases size - i
    {
      if i < size / 2 {
        var max := PickLargest(i, size);
        if max != i {
          SwapMovesGap(cmpfunc, data, low, size, i, max);
          ghost var swapped := Swapped(data, i, max);
          SwapRearranges(data, i, max, span);
          Swap(max, i);
          assert data == swapped;
          Adjust(max, size, low, span);
          RearrangedTwice(old(data), swapped, data, span);
        } else {
          NoSwapHeaps(cmpfunc, data, low, size, i);
        }
      }
    }

    /** The copy and heapify loop shared by the constructor and `Init`. */
    method Init(input: seq<T>)
      requires Ranks(cmpfunc)
      modifies this
      ensures |data| == |input|
      ensures Heaped(cmpfunc, data, 0, |input|)
      ensures Rearranged(input, data, |input| / 2 * 2)
    {
      data := [];
      for k := 0 to |input|
        invariant data == input[..k]
      {
        data := data + [input[k]];
      }
      assert input[..|input|] == input;
      var i := |data| / 2;
      while true
        invariant 0 <= i <= |input| / 2 && |data| == |input|
        invariant Heaped(cmpfunc, data, i + 1, |data|) && Rearranged(input, data, |input| / 2 * 2)
        decreases i
      {
        Adjust(i, |data|, i, |data| / 2 * 2);
        if i == 0 {
          break;
        }
        i := i - 1;
      }
    }

    /** `Setop`: the heap keeps one element less than it had with `x`; `discarded` is the one it lost. */
    method Setop(x: T) returns (ghost discarded: T)
      requires Ranks(cmpfunc) && |data| > 0 && Heaped(cmpfunc, data, 0, |data|)
      modifies this
      ensures |data| == old(|data|) && Heaped(cmpfunc, data, 0, |data|)
      ensures Kept(data) + multiset{discarded} == Kept(old(data)) + multiset{x}
      ensures Frozen(data) == Frozen(old(data))
      ensures Beyond(cmpfunc, discarded, Kept(data))
      ensures forall z :: Beyond(cmpfunc, z, Kept(old(data))) ==> Beyond(cmpfunc, z, Kept(data))
    {
      RootBeyondKept(cmpfunc, data);
      ghost var before := data;
      if cmpfunc(x, data[0]) > 0 {
        discarded := x;
        BeyondBeyond(cmpfunc, x, data[0], Kept(data));
        return;
      }
      discarded := data[0];
      KeptReplaced(data, x);
      data := data[0 := x];
      ghost var replaced := data;
      Adjust(0, |data|, 0, |data| / 2 * 2);
      RearrangedKept(replaced, data);
      ReplacedStaysBelow(cmpfunc, before, x);
    }

    /** `Getop`. */
    method Getop() returns (x: T)
      requires Ranks(cmpfunc) && |data| > 0 && Heaped(cmpfunc, data, 0, |data|)
      ensures x in Kept(data) && Beyond(cmpfunc, x, Kept(data))
    {
      x := data[0];
      RootBeyondKept(cmpfunc, data);
    }

    /**
      Top K: after `Init` on the first elements and `Setop` on the rest of a stream, the
      array and the discarded elements together are everything seen, and every discarded
      element ranks at or beyond every element that takes part in the order.  They rank
      beyond the whole array, as a keeper of the least elements promises, always for an
      even size and for one element; otherwise exactly when enough of the other elements
      rank at or beyond the last one of `input`, which is never compared.
     */
    method TopK(input: seq<T>, stream: seq<T>) returns (ghost discarded: seq<T>)
      requires Ranks(cmpfunc) && |input| > 0
      modifies this
      ensures |data| == |input| && Heaped(cmpfunc, data, 0, |data|)
      ensures Kept(data) + multiset(discarded) == Kept(input) + multiset(stream)
      ensures Frozen(data) == Frozen(input)
      ensures multiset(data) + multiset(discarded) == multiset(input) + multiset(stream)
      ensures forall x :: x in discarded ==> Beyond(cmpfunc, x, Kept(data))
      ensures (forall x :: x in discarded ==> Beyond(cmpfunc, x, multiset(data))) <==>
        || |input| % 2 == 0 || |input| == 1
        || AtLeast(cmpfunc, input[|input| - 1], input[..|input| - 1] + stream) >= |stream|
    {
      Init(input);
      RearrangedKept(input, data);
      discarded := [];
      for k := 0 to |stream|
        invariant |data| == |input| && Heaped(cmpfunc, data, 0, |data|) && |discarded| == k
        invariant Kept(data) + multiset(discarded) == Kept(input) + multiset(stream[..k])
        invariant Frozen(data) == Frozen(input)
        invariant forall x :: x in discarded ==> Beyond(cmpfunc, x, Kept(data))
      {
        assert stream[..k + 1] == stream[..k] + [stream[k]];
        ghost var before := Kept(data);
        ghost var lost := Setop(stream[k]);
        Exchange(Kept(data), lost, before, stream[k], multiset(discarded), Kept(input), multiset(stream[..k]));
        discarded := discarded + [lost];
      }
      assert stream[..|stream|] == stream;
      DiscardedAreHighestExactlyWhen(cmpfunc, input, stream, data, discarded);
    }
  }

  /** How many elements of `s` rank at or beyond `z`. */
  ghost function AtLeast<T>(cmp: (T, T) -> int, z: T, s: seq<T>): (n: nat)
    ensures n <= |s|
  {
    if s == [] then 0 else (if Ge(cmp, s[0], z) then 1 else 0) + AtLeast(cmp, z, s[1..])
  }

  lemma {:induction false} AtLeastConcat<T>(cmp: (T, T) -> int, z: T, a: seq<T>, b: seq<T>)
    ensures AtLeast(cmp, z, a + b) == AtLeast(cmp, z, a) + AtLeast(cmp, z, b)
  {
    if a == [] {
      assert a + b == b;
    } else {
      assert (a + b)[1..] == a[1..] + b;
      AtLeastConcat(cmp, z, a[1..], b);
    }
  }

  ghost function Without<T>(s: seq<T>, i: nat): seq<T>
    requires i < |s|
  {
    s[..i] + s[i + 1..]
  }

  lemma {:induction false} AtLeastWithout<T>(cmp: (T, T) -> int, z: T, s: seq<T>, i: nat)
    requires i < |s|
    ensures AtLeast(cmp, z, s) == AtLeast(cmp, z, Without(s, i)) + if Ge(cmp, s[i], z) then 1 else 0
  {
    if i == 0 {
      assert Without(s, 0) == s[1..];
    } else {
      assert Without(s, i)[1..] == Without(s[1..], i - 1);
      AtLeastWithout(cmp, z, s[1..], i - 1);
    }
  }

  lemma BagWithout<T>(s: seq<T>, i: nat)
    requires i < |s|
    ensures multiset(Without(s, i)) == multiset(s) - multiset{s[i]}
  {
    assert s == s[..i] + ([s[i]] + s[i + 1..]);
  }

  lemma {:induction false} AtLeastRearranged<T>(cmp: (T, T) -> int, z: T, a: seq<T>, b: seq<T>)
    requires multiset(a) == multiset(b)
    ensures AtLeast(cmp, z, a) == AtLeast(cmp, z, b)
    decreases |a|
  {
    if a == [] {
      assert |multiset(b)| == 0;
    } else {
      assert a[0] in multiset(b);
      var i :| 0 <= i < |b| && b[i] == a[0];
      AtLeastWithout(cmp, z, a, 0);
      AtLeastWithout(cmp, z, b, i);
      BagWithout(a, 0);
      BagWithout(b, i);
      AtLeastRearranged(cmp, z, Without(a, 0), Without(b, i));
    }
  }

  lemma {:induction false} AllOrNoneAtLeast<T>(cmp: (T, T) -> int, z: T, s: seq<T>)
    ensures AtLeast(cmp, z, s) == |s| <==> forall x :: x in s ==> Ge(cmp, x, z)
    ensures AtLeast(cmp, z, s) == 0 <==> forall x :: x in s ==> !Ge(cmp, x, z)
  {
    if s != [] {
      AllOrNoneAtLeast(cmp, z, s[1..]);
      assert forall x :: x in s <==> x == s[0] || x in s[1..];
    }
  }

  /** The highest of `seen` all rank at or beyond `z` exactly when there are that many which do. */
  lemma HighestReachExactlyWhen<T(!new)>(cmp: (T, T) -> int, z: T, kept: seq<T>, highest: seq<T>, seen: seq<T>)
    requires Ranks(cmp) && multiset(kept) + multiset(highest) == multiset(seen)
    requires forall x :: x in highest ==> Beyond(cmp, x, multiset(kept))
    ensures (forall x :: x in highest ==> Ge(cmp, x, z)) <==> AtLeast(cmp, z, seen) >= |highest|
  {
    assert multiset(kept + highest) == multiset(seen);
    AtLeastRearranged(cmp, z, kept + highest, seen);
    AtLeastConcat(cmp, z, kept, highest);
    AllOrNoneAtLeast(cmp, z, highest);
    AllOrNoneAtLeast(cmp, z, kept);
    if x :| x in highest && !Ge(cmp, x, z) {
      forall y | y in kept ensures !Ge(cmp, y, z) {
        assert y in multiset(kept);
        if Ge(cmp, y, z) { GeTransitive(cmp, x, y, z); }
      }
    }
  }

  /** When `TopK` discards nothing that ranks below an element it holds. */
  lemma DiscardedAreHighestExactlyWhen<T(!new)>(cmp: (T, T) -> int, input: seq<T>, stream: seq<T>, d: seq<T>,
                                                discarded: seq<T>)
    requires Ranks(cmp) && |input| == |d| >= 1 && |discarded| == |stream|
    requires Kept(d) + multiset(discarded) == Kept(input) + multiset(stream) && Frozen(d) == Frozen(input)
    requires forall x :: x in discarded ==> Beyond(cmp, x, Kept(d))
    ensures multiset(d) + multiset(discarded) == multiset(input) + multiset(stream)
    ensures (forall x :: x in discarded ==> Beyond(cmp, x, multiset(d))) <==>
      || |input| % 2 == 0 || |input| == 1
      || AtLeast(cmp, input[|input| - 1], input[..|input| - 1] + stream) >= |stream|
  {
    var n := |d|;
    KeptAndFrozen(d);
    KeptAndFrozen(input);
    calc {
      multiset(d) + multiset(discarded);
      (Kept(d) + multiset(discarded)) + multiset(Frozen(d));
      (Kept(input) + multiset(stream)) + multiset(Frozen(input));
    }
    if n % 2 == 1 && n > 1 {
      var z := input[n - 1];
      assert multiset(d) == Kept(d) + multiset{z};
      forall x | x in discarded ensures Beyond(cmp, x, multiset(d)) <==> Ge(cmp, x, z) {
        assert forall y :: y in multiset(d) <==> y in Kept(d) || y == z;
      }
      HighestReachExactlyWhen(cmp, z, d[..n - 1], discarded, input[..n - 1] + stream);
    }
  }

  lemma KeptAndFrozen<T>(d: seq<T>)
    ensures multiset(d) == Kept(d) + multiset(Frozen(d))
    ensures |d| % 2 == 1 && |d| > 1 ==> Frozen(d) == [d[|d| - 1]]
    ensures |d| % 2 == 0 || |d| == 1 ==> Frozen(d) == []
  {
    assert d == d[..Active(|d|)] + d[Active(|d|)..];
  }

  /**
    When `Init` puts a dominating element at index 0: for an even size and for a single
    element always; for any other odd size the last element stays outside the order, so
    exactly when an earlier input element ranks at or beyond it.
   */
  lemma InitDominatesExactlyWhen<T(!new)>(cmp: (T, T) -> int, input: seq<T>, d: seq<T>)
    requires Ranks(cmp) && |input| == |d| >= 1
    requires Heaped(cmp, d, 0, |d|) && Rearranged(input, d, |d| / 2 * 2)
    ensures (forall j :: 0 <= j < |d| ==> Ge(cmp, d[0], d[j])) <==>
      |input| % 2 == 0 || |input| == 1 || exists i :: 0 <= i < |input| - 1 && Ge(cmp, input[i], input[|input| - 1])
  {
    var n := |d|;
    RearrangedKept(input, d);
    forall j | 0 <= j < Active(n) ensures Ge(cmp, d[0], d[j]) {
      RootDominates(cmp, d, n, j);
    }
    if n % 2 == 1 && n > 1 {
      assert Active(n) == n - 1;
      assert d[n - 1] == d[n - 1..][0] == input[n - 1..][0] == input[n - 1];
      assert d[0] == d[..n - 1][0] && d[0] in multiset(d[..n - 1]);
      assert d[0] in multiset(input[..n - 1]);
      if i :| 0 <= i < n - 1 && Ge(cmp, input[i], input[n - 1]) {
        assert input[i] == input[..n - 1][i] && input[i] in multiset(input[..n - 1]);
        assert input[i] in multiset(d[..n - 1]);
        var j :| 0 <= j < n - 1 && d[..n - 1][j] == input[i];
        GeTransitive(cmp, d[0], d[j], input[n - 1]);
      }
    }
  }

  /** For an even size, and for one element, everything takes part in the order. */
  lemma EvenSizesKeepAll<T>(d: seq<T>)
    requires |d| % 2 == 0 || |d| == 1
    ensures Kept(d) == multiset(d) && Frozen(d) == []
  {
    assert d[..|d|] == d;
  }

  /** The elements that take part in the order. */
  ghost function Kept<T>(d: seq<T>): multiset<T> { multiset(d[..Active(|d|)]) }

  /** The element left out of the order when the size is odd and at least 3. */
  ghost function Frozen<T>(d: seq<T>): seq<T> { d[Active(|d|)..] }

  lemma RootBeyondKept<T(!new)>(cmp: (T, T) -> int, d: seq<T>)
    requires Ranks(cmp) && |d| > 0 && Heaped(cmp, d, 0, |d|)
    ensures d[0] in Kept(d) && Beyond(cmp, d[0], Kept(d))
  {
    assert d[0] == d[..Active(|d|)][0];
    forall y | y in Kept(d) ensures Ge(cmp, d[0], y) {
      var j :| 0 <= j < Active(|d|) && d[j] == y;
      RootDominates(cmp, d, |d|, j);
    }
  }

  lemma BeyondBeyond<T(!new)>(cmp: (T, T) -> int, x: T, top: T, m: multiset<T>)
    requires Ranks(cmp) && Ge(cmp, x, top) && Beyond(cmp, top, m)
    ensures Beyond(cmp, x, m)
  {
    forall y | y in m ensures Ge(cmp, x, y) {
      GeTransitive(cmp, x, top, y);
    }
  }

  /** Replacing the root by a smaller element keeps what is beyond the heap beyond it. */
  lemma ReplacedStaysBelow<T(!new)>(cmp: (T, T) -> int, d: seq<T>, x: T)
    requires Ranks(cmp) && |d| > 0 && Heaped(cmp, d, 0, |d|) && Ge(cmp, d[0], x)
    ensures Beyond(cmp, d[0], Kept(d[0 := x]))
    ensures forall z :: Beyond(cmp, z, Kept(d)) ==> Beyond(cmp, z, Kept(d[0 := x]))
  {
    RootBeyondKept(cmp, d);
    KeptReplaced(d, x);
    forall y | y in Kept(d[0 := x]) ensures y == x || y in Kept(d) {
      assert y in Kept(d[0 := x]) + multiset{d[0]};
    }
    forall z | Beyond(cmp, z, Kept(d)) ensures Beyond(cmp, z, Kept(d[0 := x])) {
      GeTransitive(cmp, z, d[0], x);
    }
  }

  lemma Exchange<T>(kept: multiset<T>, lost: T, before: multiset<T>, x: T, discarded: multiset<T>,
                    start: multiset<T>, seen: multiset<T>)
    requires kept + multiset{lost} == before + multiset{x} && before + discarded == start + seen
    ensures kept + (discarded + multiset{lost}) == start + (seen + multiset{x})
  {
    calc {
      kept + (discarded + multiset{lost});
      (kept + multiset{lost}) + discarded;
      (before + discarded) + multiset{x};
    }
  }

  lemma KeptReplaced<T>(d: seq<T>, x: T)
    requires |d| > 0
    ensures Kept(d[0 := x]) + multiset{d[0]} == Kept(d) + multiset{x}
    ensures Frozen(d[0 := x]) == Frozen(d)
  {
    var n := Active(|d|);
    assert d[0 := x][..n] == d[..n][0 := x];
  }

  lemma RearrangedKept<T>(before: seq<T>, after: seq<T>)
    requires Rearranged(before, after, |before| / 2 * 2)
    ensures Kept(after) == Kept(before) && Frozen(after) == Frozen(before)
  {
    if |before| == 1 {
      assert before == before[0..] == after[0..] == after;
    }
  }
}
