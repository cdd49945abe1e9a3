/**
  The queue's index arithmetic. A capacity is a power of two, so the source may
  find a ticket's cell with `pos & mask_` where it means the remainder.
 */
module Capacity {

  /** The largest size the source can round up without its shift wrapping round at 2^64. */
  const LARGEST_ROUNDABLE: nat := 0x8000_0000_0000_0000

  predicate IsPow2(n: nat) {
    n == 1 || (0 < n && n % 2 == 0 && IsPow2(n / 2))
  }

  /** Bitwise and of two naturals, bit by bit. */
  function And(a: nat, b: nat): (r: nat)
    ensures r <= b
  {
    if a == 0 || b == 0 then 0 else (a % 2) * (b % 2) + 2 * And(a / 2, b / 2)
  }

  /** The cell a ticket uses in a ring of mask + 1 cells. */
  function Slot(pos: nat, mask: nat): (s: nat)
    ensures s <= mask
  {
    And(pos, mask)
  }

  /** Tickets a whole lap apart share a cell. */
  lemma {:induction false} SlotPeriod(pos: nat, mask: nat)
    requires IsPow2(mask + 1)
    ensures Slot(pos + mask + 1, mask) == Slot(pos, mask)
    decreases mask
  {
    if mask != 0 {
      SlotPeriod(pos / 2, mask / 2);
    }
  }

  /** Tickets less than a lap apart have cells of their own. */
  lemma {:induction false} SlotDistinct(j: nat, k: nat, mask: nat)
    requires IsPow2(mask + 1) && j < k <= j + mask
    ensures Slot(j, mask) != Slot(k, mask)
    decreases mask
  {
    if j % 2 == k % 2 {
      SlotDistinct(j / 2, k / 2, mask / 2);
    }
  }

  /** Every window of one lap covers every cell. */
  lemma {:induction false} WindowCovers(lo: nat, mask: nat, i: nat) returns (k: nat)
    requires IsPow2(mask + 1) && i <= mask
    ensures lo <= k <= lo + mask && Slot(k, mask) == i
    decreases mask
  {
    if mask == 0 {
      k := lo;
    } else {
      var half := WindowCovers((lo - i % 2 + 1) / 2, mask / 2, i / 2);
      k := 2 * half + i % 2;
    }
  }

  lemma {:induction false} SlotOfFirstLap(pos: nat, mask: nat)
    requires IsPow2(mask + 1) && pos <= mask
    ensures Slot(pos, mask) == pos
    decreases mask
  {
    if mask != 0 {
      SlotOfFirstLap(pos / 2, mask / 2);
    }
  }

  lemma Scale(c: int, x: int)
    requires 0 < c
    ensures 1 <= x ==> c <= c * x
    ensures x <= -1 ==> c * x <= -c
  {
  }

  lemma SameRemainder(c: int, d: int, r: int, r': int)
    requires 0 <= r < c && 0 <= r' < c && c * d == r - r'
    ensures r == r'
  {
    Scale(c, d);
  }

  lemma ModStep(pos: nat, cap: nat)
    requires 0 < cap
    ensures (pos + cap) % cap == pos % cap
  {
    var q, r, q', r' := pos / cap, pos % cap, (pos + cap) / cap, (pos + cap) % cap;
    assert pos == cap * q + r && pos + cap == cap * q' + r';
    assert cap * (q' - q - 1) == cap * q' - cap * q - cap;
    SameRemainder(cap, q' - q - 1, r, r');
  }

  lemma RemainderBelow(pos: nat, cap: nat)
    requires pos < cap
    ensures pos % cap == pos
  {
    SameRemainder(cap, pos / cap, pos, pos % cap);
  }

  /** Masking with capacity - 1 is taking the remainder by the capacity. */
  lemma {:induction false} SlotIsRemainder(pos: nat, cap: nat)
    requires IsPow2(cap)
    ensures Slot(pos, cap - 1) == pos % cap
  {
    if pos < cap {
      SlotOfFirstLap(pos, cap - 1);
      RemainderBelow(pos, cap);
    } else {
      SlotIsRemainder(pos - cap, cap);
      SlotPeriod(pos - cap, cap - 1);
      ModStep(pos - cap, cap);
    }
  }

  lemma {:induction false} Pow2Gap(p: nat, q: nat)
    requires IsPow2(p) && IsPow2(q) && p < q
    ensures 2 * p <= q
    decreases q
  {
    if p != 1 {
      Pow2Gap(p / 2, q / 2);
    }
  }

  /** config.cpp rounds the configured queue size up to the least usable power of two. */
  method NextPow2(v: nat) returns (p: nat)
    requires v <= LARGEST_ROUNDABLE
    ensures IsPow2(p) && 2 <= p && v <= p && p < 0x1_0000_0000_0000_0000
    ensures forall q: nat :: IsPow2(q) && 2 <= q && v <= q ==> p <= q
  {
    p := 2;
    while p < v
      invariant IsPow2(p) && 2 <= p < 0x1_0000_0000_0000_0000
      invariant forall q: nat :: IsPow2(q) && 2 <= q && v <= q ==> p <= q
      decreases 2 * v - p
    {
      ghost var was := p;
      p := p * 2;
      forall q: nat | IsPow2(q) && 2 <= q && v <= q
        ensures p <= q
      {
        Pow2Gap(was, q);
      }
    }
  }
}
