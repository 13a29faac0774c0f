/** size_t arithmetic, and the overflow-guarded doubling loop the buffers share. */
module Sizes {
  const SIZE_MOD := 0x1_0000_0000_0000_0000

  function Wrap(n: nat): nat {
    n % SIZE_MOD
  }

  lemma WrapOnce(n: nat)
    requires n < 2 * SIZE_MOD
    ensures Wrap(n) == if n < SIZE_MOD then n else n - SIZE_MOD
  {
  }

  // `start` doubled until it is at least `need`. A doubling that overflows is cut off
  // at `need` itself.
  function DoubledSize(start: nat, need: nat): (size: nat)
    requires start < SIZE_MOD && need < SIZE_MOD
    ensures need <= size < SIZE_MOD
    ensures start >= need ==> size == start
    ensures start < need ==> size == need || size < 2 * need
    decreases need - start
  {
    if start >= need then start
    else
      WrapDouble(start);
      var tmp := Wrap(start * 2);
      if tmp <= start then need else DoubledSize(tmp, need)
  }

  lemma WrapDouble(n: nat)
    requires n < SIZE_MOD
    ensures Wrap(n * 2) == if n * 2 < SIZE_MOD then n * 2 else n * 2 - SIZE_MOD
  {
  }

  // start doubled k times.
  function Doublings(start: nat, k: nat): (r: nat)
    ensures r >= start
  {
    if k == 0 then start else 2 * Doublings(start, k - 1)
  }

  lemma {:induction false} DoublingsFrom(start: nat, k: nat)
    ensures Doublings(2 * start, k) == Doublings(start, k + 1)
  {
    if k > 0 { DoublingsFrom(start, k - 1); }
  }

  // The size is the first of start, 2 * start, 4 * start and so on that is not below the need.
  lemma {:induction false} DoubledIsLeast(start: nat, need: nat, k: nat)
    requires need <= Doublings(start, k) < SIZE_MOD && (k > 0 ==> Doublings(start, k - 1) < need)
    ensures start < SIZE_MOD && DoubledSize(start, need) == Doublings(start, k)
    decreases k
  {
    if k > 0 {
      DoublingsFrom(start, k - 1);
      if k > 1 { DoublingsFrom(start, k - 2); }
      DoubledIsLeast(2 * start, need, k - 1);
      WrapDouble(start);
    }
  }

  // Where none of these fits a size_t, it is the need itself.
  lemma {:induction false} DoubledIsNeed(start: nat, need: nat)
    requires start < SIZE_MOD && need < SIZE_MOD
    requires forall k :: Doublings(start, k) < need || SIZE_MOD <= Doublings(start, k)
    ensures DoubledSize(start, need) == need
    decreases need - start
  {
    assert Doublings(start, 0) == start;
    WrapDouble(start);
    if start > 0 && 2 * start < SIZE_MOD {
      forall k ensures Doublings(2 * start, k) < need || SIZE_MOD <= Doublings(2 * start, k) {
        DoublingsFrom(start, k);
      }
      DoubledIsNeed(2 * start, need);
    }
  }

  // The loop ends on every input, in machine arithmetic.
  method Doubled(start: nat, need: nat) returns (size: nat)
    requires start < SIZE_MOD && need < SIZE_MOD
    ensures size == DoubledSize(start, need)
  {
    size := start;
    while size < need
      invariant size < SIZE_MOD
      invariant DoubledSize(size, need) == DoubledSize(start, need)
      decreases need - size
    {
      WrapDouble(size);
      var tmp := Wrap(size * 2);
      if tmp <= size {
        size := need;
        break;
      }
      size := tmp;
    }
  }
}
