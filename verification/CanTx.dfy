/**
 The transmit scheduler of one gateway: three ring queues, and rounds that build
 packs of at most four frames with distinct ids. Frames whose id is already in the
 pack wait in a 16-slot skip ring and go back to the front of their queue.
 */
module CanTx {
  import opened RingQueue

  // CSType_csFrame_t
  datatype Frame = Frame(id: nat, reg: nat, len: nat, data: seq<nat>)

  const PACK_SIZE := 4
  const QUEUE_SIZE := 32
  const SKIP_SIZE := 16
  const NO_FRAME := Frame(0, 0, 0, [])

  // CSTx_priority_t: the index of a gateway's queue.
  datatype Priority = Low | Normal | High

  predicate HasId(pack: seq<Frame>, id: nat) {
    exists i :: 0 <= i < |pack| && pack[i].id == id
  }

  // ---- one priority of a round, on sequences ---------------------------------------

  datatype Scanned = Scanned(pack: seq<Frame>, skipped: seq<Frame>, rest: seq<Frame>)

  // Takes frames off the front until the pack is full or the queue is empty.
  function Scan(q: seq<Frame>, pack: seq<Frame>): Scanned
    decreases |q|
  {
    if q == [] || |pack| >= PACK_SIZE then Scanned(pack, [], q)
    else if HasId(pack, q[0].id) then
      var r := Scan(q[1..], pack);
      r.(skipped := [q[0]] + r.skipped)
    else Scan(q[1..], pack + [q[0]])
  }

  function Reversed(s: seq<Frame>): (r: seq<Frame>)
    ensures |r| == |s|
  {
    if s == [] then [] else Reversed(s[1..]) + [s[0]]
  }

  // The queue after the round: the newest skipped frames, latest first, then what
  // the scan did not reach.
  function After(r: Scanned): seq<Frame> {
    Reversed(Newest(r.skipped, SKIP_SIZE)) + r.rest
  }

  // The skipped frames the 16-slot ring had to drop: the oldest ones.
  function Lost(r: Scanned): seq<Frame> {
    if |r.skipped| <= SKIP_SIZE then [] else r.skipped[..|r.skipped| - SKIP_SIZE]
  }

  datatype Queues = Queues(high: seq<Frame>, normal: seq<Frame>)

  function HighScan(q: Queues): Scanned {
    Scan(q.high, [])
  }

  function NormalScan(q: Queues): Scanned {
    Scan(q.normal, HighScan(q).pack)
  }

  // One round: the pack it sends and the queues it leaves.
  function PackOf(q: Queues): seq<Frame> {
    NormalScan(q).pack
  }

  function Next(q: Queues): Queues {
    Queues(After(HighScan(q)), After(NormalScan(q)))
  }

  lemma ScanSizes(q: seq<Frame>, pack: seq<Frame>)
    ensures var r := Scan(q, pack);
      |r.pack| + |r.skipped| + |r.rest| == |pack| + |q| && pack <= r.pack
      && |r.pack| <= if |pack| > PACK_SIZE then |pack| else PACK_SIZE
    decreases |q|
  {
  }

  // Putting the skipped frames back one at a time with the ring's own operation.
  function PutBack(q: seq<Frame>, skipped: seq<Frame>): seq<Frame>
    decreases |skipped|
  {
    if skipped == [] then q else PutBack(AddedFront(q, skipped[0], QUEUE_SIZE), skipped[1..])
  }

  // There is always room: the branch that drops the front of a full ring is not
  // taken, and nothing is lost on the way back.
  lemma {:induction false} PutBackFits(q: seq<Frame>, skipped: seq<Frame>)
    requires |q| + |skipped| <= QUEUE_SIZE
    ensures PutBack(q, skipped) == Reversed(skipped) + q
    decreases |skipped|
  {
    if skipped == [] {
      assert Reversed(skipped) + q == q;
    } else {
      PutBackFits([skipped[0]] + q, skipped[1..]);
      assert Reversed(skipped) + q == Reversed(skipped[1..]) + ([skipped[0]] + q);
    }
  }

  // A scan that has already put `skipped` aside.
  function Behind(skipped: seq<Frame>, s: Scanned): Scanned {
    s.(skipped := skipped + s.skipped)
  }

  lemma ScanStep(q: seq<Frame>, pack: seq<Frame>, skipped: seq<Frame>)
    requires q != [] && |pack| < PACK_SIZE
    ensures Behind(skipped, Scan(q, pack)) ==
      if HasId(pack, q[0].id) then Behind(skipped + [q[0]], Scan(q[1..], pack))
      else Behind(skipped, Scan(q[1..], pack + [q[0]]))
  {
    var t := Scan(q[1..], pack);
    assert skipped + ([q[0]] + t.skipped) == (skipped + [q[0]]) + t.skipped;
  }
}
