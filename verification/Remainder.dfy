/** Remainders: bucket numbers and ring positions. */
module Remainder {

  /** a % n by repeated subtraction.  The proofs that walk over buckets and ring entries use this form, which
      needs no non-linear arithmetic; SlotIsRemainder says that it is the remainder. */
  function Slot(a: nat, n: nat): (b: nat)
    requires 0 < n
    ensures b < n
  {
    if a < n then a else Slot(a - n, n)
  }

  lemma ModOf(a: int, q: int, n: int, r: int)
    requires 0 <= r < n && a == q * n + r
    ensures a % n == r
  {
    var d := a / n - q;
    assert d * n == r - a % n;
    assert d >= 1 ==> d * n >= n;
    assert d <= -1 ==> d * n <= -n;
  }

  lemma ModMinus(a: nat, n: nat)
    requires 0 < n <= a
    ensures (a - n) % n == a % n
  {
    var q, r := (a - n) / n, (a - n) % n;
    assert a == (q + 1) * n + r;
    ModOf(a, q + 1, n, r);
  }

  lemma {:induction false} SlotIsRemainder(a: nat, n: nat)
    requires 0 < n
    ensures Slot(a, n) == a % n
  {
    if a >= n {
      SlotIsRemainder(a - n, n);
      ModMinus(a, n);
    }
  }

  lemma {:induction false} SlotNext(a: nat, n: nat)
    requires 0 < n
    ensures Slot(a + 1, n) == if Slot(a, n) + 1 == n then 0 else Slot(a, n) + 1
  {
    if a >= n {
      SlotNext(a - n, n);
    } else if a + 1 == n {
      assert Slot(a + 1, n) == Slot(0, n);
    }
  }

  lemma {:induction false} SlotBelow(a: nat, b: nat, n: nat)
    requires 0 < n && b < n && b <= a && Slot(a, n) == b
    ensures (a - b) % n == 0 && (a - b < n ==> a == b)
  {
    if a >= n {
      SlotBelow(a - n, b, n);
      ModMinus(a - b, n);
    }
  }

  /** Numbers with the same remainder differ by a multiple of n. */
  lemma {:induction false} SlotSame(a: nat, b: nat, n: nat)
    requires 0 < n && b <= a && Slot(a, n) == Slot(b, n)
    ensures (a - b) % n == 0 && (a - b < n ==> a == b)
  {
    if a >= n {
      if b >= n {
        SlotSame(a - n, b - n, n);
      } else {
        SlotBelow(a, b, n);
      }
    }
  }

  /** One round further on is the same place. */
  lemma SlotRound(a: nat, n: nat)
    requires 0 < n
    ensures Slot(a + n, n) == Slot(a, n)
  {}
}
