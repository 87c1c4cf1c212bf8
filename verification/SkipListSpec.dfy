/** The ordered map the skip list has to agree with, and its answers. */
module SkipListSpec {
  import opened Basics

  /** The values of the keys from `st` to `ed`, in ascending key order. */
  ghost function RangeValues<V>(m: map<int, V>, st: int, ed: int): seq<V>
    decreases ed - st
  {
    if st > ed then []
    else (if st in m then [m[st]] else []) + RangeValues(m, st + 1, ed)
  }

  lemma {:induction false} RangeSkips<V>(m: map<int, V>, st: int, next: int, ed: int)
    requires st <= next && forall k :: st <= k < next ==> k !in m
    ensures RangeValues(m, st, ed) == RangeValues(m, next, ed)
    decreases next - st
  {
    if st < next {
      RangeSkips(m, st + 1, next, ed);
    }
  }

  lemma RangeStartsAt<V>(m: map<int, V>, st: int, first: int, ed: int)
    requires st <= first && first in m && forall k :: st <= k < first ==> k !in m
    ensures RangeValues(m, st, ed) == if first <= ed then [m[first]] + RangeValues(m, first + 1, ed) else []
  {
    RangeSkips(m, st, first, ed);
  }

  lemma RangeIsEmpty<V>(m: map<int, V>, st: int, ed: int)
    requires forall k :: st <= k ==> k !in m
    ensures RangeValues(m, st, ed) == []
  {
    if st <= ed { RangeSkips(m, st, ed + 1, ed); }
  }

  /** `RangeValues` has one value for each key of the map in the range. */
  lemma {:induction false} RangeHasOneValuePerKey<V>(m: map<int, V>, st: int, ed: int)
    ensures |RangeValues(m, st, ed)| == |set k | k in m && st <= k <= ed|
    decreases ed - st
  {
    var all := set k | k in m && st <= k <= ed;
    if st > ed {
      assert all == {};
    } else {
      var rest := set k | k in m && st + 1 <= k <= ed;
      RangeHasOneValuePerKey(m, st + 1, ed);
      assert all == rest + if st in m then {st} else {};
    }
  }

  /** These values belong to the keys of the map in the range, each once and in ascending order. */
  lemma {:induction false} RangeIsAscending<V>(m: map<int, V>, st: int, ed: int) returns (ks: seq<int>)
    ensures forall i, j :: 0 <= i < j < |ks| ==> ks[i] < ks[j]
    ensures forall k :: k in ks <==> k in m && st <= k <= ed
    ensures |ks| == |RangeValues(m, st, ed)|
    ensures forall i :: 0 <= i < |ks| ==> ks[i] in m && RangeValues(m, st, ed)[i] == m[ks[i]]
    decreases ed - st
  {
    if st > ed {
      ks := [];
    } else {
      ks := RangeIsAscending(m, st + 1, ed);
      if st in m {
        var rest, values := ks, RangeValues(m, st + 1, ed);
        ks := [st] + rest;
        assert RangeValues(m, st, ed) == [m[st]] + values;
        hide RangeValues;
        assert forall k :: k in ks <==> k == st || k in rest;
      }
    }
  }

  datatype Op<V> =
    | Modify(k: int, v: V)
    | Remove(k: int)
    | Search(k: int)
    | RangeGet(st: int, ed: int)
    | RangeCount(st: int, ed: int)

  datatype Answer<V> = Done | Found(value: Option<V>) | Values(values: seq<V>) | Count(n: nat)

  function Apply<V>(m: map<int, V>, op: Op<V>): map<int, V>
  {
    match op
    case Modify(k, v) => m[k := v]
    case Remove(k) => m - {k}
    case _ => m
  }

  ghost function Reply<V>(m: map<int, V>, op: Op<V>): Answer<V>
  {
    match op
    case Search(k) => Found(if k in m then Some(m[k]) else None)
    case RangeGet(st, ed) => Values(RangeValues(m, st, ed))
    case RangeCount(st, ed) => Count(|set k | k in m && st <= k <= ed|)
    case _ => Done
  }

  /** The map after a run of operations. */
  function MapAfter<V>(m: map<int, V>, ops: seq<Op<V>>): map<int, V>
  {
    if ops == [] then m else Apply(MapAfter(m, ops[..|ops| - 1]), ops[|ops| - 1])
  }

  /** The answers an ordered map gives to a run of operations. */
  ghost function Replies<V>(m: map<int, V>, ops: seq<Op<V>>): seq<Answer<V>>
  {
    if ops == [] then []
    else
      var n := |ops| - 1;
      Replies(m, ops[..n]) + [Reply(MapAfter(m, ops[..n]), ops[n])]
  }
}
