/** Slot numbers of ever-growing tickets: the remainder by the ring's capacity. */
module RingIndex {

  /** `n` modulo `m` by repeated subtraction; RemainderIsModulo ties it to `%`. */
  function Remainder(n: nat, m: nat): (r: nat)
    requires m > 0
    ensures r < m
  {
    if n < m then n else Remainder(n - m, m)
  }

  lemma {:induction false} RemainderDivides(n: nat, m: nat) returns (q: nat)
    requires m > 0
    ensures n == q * m + Remainder(n, m)
  {
    if n < m {
      q := 0;
    } else {
      q := RemainderDivides(n - m, m);
      q := q + 1;
    }
  }

  lemma MultipleIsLarge(d: int, m: nat)
    requires d >= 1
    ensures d * m >= m
  {
  }

  lemma RemainderIsUnique(m: nat, q: int, r: nat, q': int, r': nat)
    requires r < m && r' < m && q * m + r == q' * m + r'
    ensures r == r'
  {
    var d := q - q';
    assert d * m == q * m - q' * m;
    if d >= 1 {
      MultipleIsLarge(d, m);
    } else if d <= -1 {
      MultipleIsLarge(-d, m);
    }
  }

  lemma RemainderIsModulo(n: nat, m: nat)
    requires m > 0
    ensures Remainder(n, m) == n % m
  {
    var q := RemainderDivides(n, m);
    RemainderIsUnique(m, q, Remainder(n, m), n / m, n % m);
  }

  lemma {:induction false} SlotsDiffer(capacity: nat, j: nat, k: nat)
    requires capacity > 0 && j < k < j + capacity
    ensures Remainder(j, capacity) != Remainder(k, capacity)
  {
    if j >= capacity {
      SlotsDiffer(capacity, j - capacity, k - capacity);
    }
  }
}
