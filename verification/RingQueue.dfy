/**
 The ring queue: a fixed array, read and write indices that wrap by a modulo, and a
 count. It is a bounded sequence that drops its front when full.
 */
module RingQueue {
  import opened Sizes
  import Bytes

  // The bounded sequences the operations stand for.
  function Room<T>(q: seq<T>, cap: nat): seq<T>
    requires cap > 0
  {
    if |q| == cap then q[1..] else q
  }

  function Added<T>(q: seq<T>, x: T, cap: nat): seq<T>
    requires cap > 0
  {
    Room(q, cap) + [x]
  }

  function AddedFront<T>(q: seq<T>, x: T, cap: nat): seq<T>
    requires cap > 0
  {
    [x] + Room(q, cap)
  }

  // next_read - 1 in size_t arithmetic, then modulo the capacity.
  function StepBack(index: nat, cap: nat): nat
    requires cap > 0
  {
    (index + SIZE_MOD - 1) % SIZE_MOD % cap
  }

  lemma StepBackInside(r: nat, cap: nat)
    requires 0 < r < cap <= SIZE_MOD
    ensures StepBack(r, cap) == r - 1
  {
    assert (r + SIZE_MOD - 1) % SIZE_MOD == r - 1;
    Bytes.ModUnique(r - 1, cap, 0, r - 1);
  }

  lemma StepBackFirst(cap: nat)
    requires 0 < cap <= SIZE_MOD
    ensures StepBack(0, cap) == cap - 1 <==> SIZE_MOD % cap == 0
  {
    var q, m := SIZE_MOD / cap, SIZE_MOD % cap;
    assert SIZE_MOD == cap * q + m;
    if m == 0 {
      assert SIZE_MOD - 1 == cap * (q - 1) + (cap - 1);
      Bytes.ModUnique(SIZE_MOD - 1, cap, q - 1, cap - 1);
    } else {
      Bytes.ModUnique(SIZE_MOD - 1, cap, q, m - 1);
    }
  }

  function SlotBefore(r: nat, cap: nat): nat
    requires cap > 0
  {
    if r == 0 then cap - 1 else r - 1
  }

  // Stepping back from every slot reaches the slot before it exactly for the
  // capacities that divide the size of size_t: the powers of two.
  lemma StepBackExact(cap: nat)
    requires 0 < cap <= SIZE_MOD
    ensures (forall r: nat | r < cap :: StepBack(r, cap) == SlotBefore(r, cap)) <==> SIZE_MOD % cap == 0
  {
    StepBackFirst(cap);
    forall r: nat | 0 < r < cap
      ensures StepBack(r, cap) == SlotBefore(r, cap)
    {
      StepBackInside(r, cap);
    }
    assert StepBack(0, cap) == SlotBefore(0, cap) <==> SIZE_MOD % cap == 0;
  }

  lemma StepOn(r: nat, cap: nat)
    requires r < cap
    ensures (r + 1) % cap == if r + 1 == cap then 0 else r + 1
  {
    if r + 1 < cap { Bytes.ModUnique(r + 1, cap, 0, r + 1); } else { Bytes.ModUnique(cap, cap, 1, 0); }
  }

  // The slot i places after `start` in a ring of `cap` slots, for i up to `cap`.
  function Slot(start: nat, i: nat, cap: nat): nat {
    if start + i < cap then start + i else if start + i >= 2 * cap then 0 else start + i - cap
  }

  // The `len` elements from `start` on, going round the ring.
  function Window<T>(ring: seq<T>, start: nat, len: nat): (s: seq<T>)
    requires start < |ring| && len <= |ring|
    ensures |s| == len
  {
    seq(len, i requires 0 <= i < len => ring[Slot(start, i, |ring|)])
  }

  lemma WindowPush<T>(ring: seq<T>, start: nat, len: nat, x: T)
    requires start < |ring| && len < |ring|
    ensures Window(ring[Slot(start, len, |ring|) := x], start, len + 1) == Window(ring, start, len) + [x]
  {
  }

  lemma WindowFront<T>(ring: seq<T>, start: nat, len: nat, x: T)
    requires start < |ring| && len < |ring|
    ensures var first := SlotBefore(start, |ring|);
      Window(ring[first := x], first, len + 1) == [x] + Window(ring, start, len)
  {
  }

  lemma WindowDrop<T>(ring: seq<T>, start: nat, len: nat)
    requires start < |ring| && 0 < len <= |ring|
    ensures var next := Slot(start, 1, |ring|);
      Window(ring, start, len) == [ring[start]] + Window(ring, next, len - 1)
  {
  }

  class Queue<T(0)> {
    var nextWrite: nat
    var nextRead: nat
    var count: nat
    const maxCount: nat
    const zero: T
    const ring: array<T>

    ghost predicate Valid()
      reads this
    {
      && ring.Length == maxCount && 0 < maxCount < SIZE_MOD
      && nextRead < maxCount && count <= maxCount && nextWrite == Slot(nextRead, count, maxCount)
    }

    ghost function Contents(): (s: seq<T>)
      reads this, ring
      requires Valid()
      ensures |s| == count
    {
      Window(ring[..], nextRead, count)
    }

    // SAQueue_init
    constructor (maxCount: nat, zero: T)
      requires 0 < maxCount < SIZE_MOD
      ensures Valid() && Contents() == [] && nextRead == 0 && this.maxCount == maxCount && fresh(ring)
    {
      nextWrite, nextRead, count := 0, 0, 0;
      this.maxCount, this.zero := maxCount, zero;
      ring := new T[maxCount](_ => zero);
    }

    method Clear()
      requires Valid()
      modifies this, ring
      ensures Valid() && Contents() == []
    {
      nextWrite, nextRead, count := 0, 0, 0;
      forall i | 0 <= i < ring.Length {
        ring[i] := zero;
      }
    }

    // Both writers make room by dropping the front when the ring is full.
    method DropIfFull()
      requires Valid()
      modifies this
      ensures Valid() && count < maxCount && nextWrite == old(nextWrite)
      ensures nextRead == if old(count) < maxCount then old(nextRead) else (old(nextRead) + 1) % maxCount
      ensures Contents() == Room(old(Contents()), maxCount)
    {
      if count == maxCount {
        StepOn(nextRead, maxCount);
        WindowDrop(ring[..], nextRead, count);
        assert Contents()[1..] == Window(ring[..], Slot(nextRead, 1, maxCount), count - 1);
        count := count - 1;
        nextRead := (nextRead + 1) % maxCount;
      }
    }

    method Add(x: T)
      requires Valid()
      modifies this, ring
      ensures Valid() && Contents() == Added(old(Contents()), x, maxCount)
    {
      DropIfFull();
      WindowPush(ring[..], nextRead, count, x);
      StepOn(nextWrite, maxCount);
      ghost var after := ring[..][nextWrite := x];
      ring[nextWrite] := x;
      assert ring[..] == after;
      count := count + 1;
      nextWrite := (nextWrite + 1) % maxCount;
    }

    // Whether the slot before the front, once there is room, is where the step back leads: always
    // for capacities that divide the size of size_t, else unless the front is in slot 0.
    predicate Fronts()
      reads this
      requires maxCount > 0
    {
      SIZE_MOD % maxCount == 0 || nextRead != if count == maxCount then maxCount - 1 else 0
    }

    method AddFront(x: T)
      requires Valid()
      modifies this, ring
      ensures Valid() <==> old(Fronts())
      ensures old(Fronts()) ==> Contents() == AddedFront(old(Contents()), x, maxCount)
    {
      ghost var fronts := Fronts();
      DropIfFull();
      WindowFront(ring[..], nextRead, count, x);
      if nextRead == 0 { StepBackFirst(maxCount); } else { StepBackInside(nextRead, maxCount); }
      ghost var start := nextRead;
      nextRead := StepBack(nextRead, maxCount);
      assert fronts <==> nextRead == SlotBefore(start, maxCount);
      ghost var after := ring[..][nextRead := x];
      ring[nextRead] := x;
      assert ring[..] == after;
      count := count + 1;
    }

    // SAQueue_get and SAQueue_getRaw
    method Get() returns (ok: bool, x: T)
      requires Valid()
      modifies this
      ensures Valid() && (ok <==> old(Contents()) != [])
      ensures ok ==> old(Contents()) == [x] + Contents()
      ensures !ok ==> Contents() == []
    {
      if count == 0 {
        return false, zero;
      }
      WindowDrop(ring[..], nextRead, count);
      StepOn(nextRead, maxCount);
      x := ring[nextRead];
      count := count - 1;
      nextRead := (nextRead + 1) % maxCount;
      return true, x;
    }
  }

  // In an empty ring of three slots the step back from slot 0 leads to slot 0.
  method FrontOfThree() returns (q: Queue<int>)
    ensures !q.Valid()
  {
    q := new Queue<int>(3, 0);
    assert SIZE_MOD % 3 == 1;
    q.AddFront(1);
  }

  // Adding a whole sequence keeps the newest `cap` elements, in order.
  function AddedAll<T>(q: seq<T>, xs: seq<T>, cap: nat): seq<T>
    requires cap > 0
    decreases |xs|
  {
    if xs == [] then q else AddedAll(Added(q, xs[0], cap), xs[1..], cap)
  }

  function Newest<T>(s: seq<T>, cap: nat): seq<T> {
    if |s| <= cap then s else s[|s| - cap..]
  }

  lemma NewestAdd<T>(s: seq<T>, x: T, cap: nat)
    requires cap > 0
    ensures Newest(s + [x], cap) == Added(Newest(s, cap), x, cap)
  {
  }

  lemma {:induction false} AddedAllIsNewest<T>(q: seq<T>, xs: seq<T>, cap: nat)
    requires 0 < cap && |q| <= cap
    ensures AddedAll(q, xs, cap) == Newest(q + xs, cap)
    decreases |xs|
  {
    if xs == [] {
      assert q + xs == q;
    } else {
      var q1 := Added(q, xs[0], cap);
      AddedAllIsNewest(q1, xs[1..], cap);
      assert q1 + xs[1..] == Room(q, cap) + xs;
      if |q| == cap {
        assert q1 + xs[1..] == (q + xs)[1..];
      }
    }
  }
}
