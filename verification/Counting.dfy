/**
 Counting the integers of an interval that satisfy a property, and products that grow.
 */
module Counting {

  /** How many integers of `[lo, hi)` satisfy `p`. */
  function CountIn(p: int -> bool, lo: int, hi: int): nat
    decreases hi - lo
  {
    if lo >= hi then 0 else (if p(lo) then 1 else 0) + CountIn(p, lo + 1, hi)
  }

  lemma {:induction false} CountSplit(p: int -> bool, lo: int, mid: int, hi: int)
    requires lo <= mid <= hi
    ensures CountIn(p, lo, hi) == CountIn(p, lo, mid) + CountIn(p, mid, hi)
    decreases mid - lo
  {
    if lo < mid {
      CountSplit(p, lo + 1, mid, hi);
    }
  }

  lemma {:induction false} CountSame(p: int -> bool, q: int -> bool, lo: int, hi: int)
    requires forall t :: lo <= t < hi ==> p(t) == q(t)
    ensures CountIn(p, lo, hi) == CountIn(q, lo, hi)
    decreases hi - lo
  {
    if lo < hi {
      CountSame(p, q, lo + 1, hi);
    }
  }

  lemma {:induction false} CountConst(p: int -> bool, b: bool, lo: int, hi: int)
    requires forall t :: lo <= t < hi ==> p(t) == b
    ensures CountIn(p, lo, hi) == if b && lo <= hi then hi - lo else 0
    decreases hi - lo
  {
    if lo < hi {
      CountConst(p, b, lo + 1, hi);
    }
  }

  lemma {:induction false} CountBound(p: int -> bool, lo: int, hi: int)
    ensures CountIn(p, lo, hi) <= if lo < hi then hi - lo else 0
    decreases hi - lo
  {
    if lo < hi {
      CountBound(p, lo + 1, hi);
    }
  }

  lemma Grows(p: nat, q: nat, k: nat)
    requires p <= q
    ensures p * k <= q * k
  {
  }
}
