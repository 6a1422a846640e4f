/**
 Ring buffers: the slots behind an index, and what they hold.
 */
module Rings {

  // Where the k-th entry behind an index is.
  function Slot(size: nat, base: nat, k: nat): (p: nat)
    requires size > 0
    ensures p < size
  {
    (base + k) % size
  }

  // The n entries from index `base` on.
  function Queued<T>(ring: seq<T>, base: nat, n: nat): (s: seq<T>)
    requires |ring| > 0
    ensures |s| == n
  {
    seq(n, k requires 0 <= k => ring[Slot(|ring|, base, k)])
  }

  lemma SlotsDiffer(size: nat, base: nat, a: nat, b: nat)
    requires a < b < a + size
    ensures Slot(size, base, a) != Slot(size, base, b)
  {
    var x, y := base + a, base + b;
    if x % size == y % size {
      Multiple(size, x / size, y / size, x % size, x, y);
    }
  }

  lemma Multiple(size: nat, p: nat, q: nat, r: nat, x: nat, y: nat)
    requires x == size * p + r && y == size * q + r && x < y
    ensures y - x >= size
  {
    if q <= p {
      Distributes(size, p, q);
    } else {
      Distributes(size, q, p);
      AtLeast(size, q - p);
    }
  }

  lemma Distributes(d: nat, a: nat, b: nat)
    requires a >= b
    ensures d * (a - b) == d * a - d * b && d * (a - b) >= 0
  {
  }

  lemma AtLeast(d: nat, n: nat)
    requires n > 0
    ensures d * n >= d
  {
  }

  // Writing the next free slot appends.
  lemma WriteAppends<T>(ring: seq<T>, base: nat, n: nat, x: T)
    requires n < |ring|
    ensures Queued(ring[Slot(|ring|, base, n) := x], base, n + 1) == Queued(ring, base, n) + [x]
  {
    forall k | 0 <= k < n
      ensures Slot(|ring|, base, k) != Slot(|ring|, base, n)
    {
      SlotsDiffer(|ring|, base, k, n);
    }
  }
}
