/** The sender thread of one gateway, in place on its ring queues. */
module CanTxSender {
  import opened RingQueue
  import opened CanTx

  ghost predicate Apart(a: Queue<Frame>, b: Queue<Frame>) {
    a != b && a.ring != b.ring
  }

  // The loop over send_pack.data.
  method Taken(pack: array<Frame>, counter: nat, id: nat) returns (taken: bool)
    requires counter <= pack.Length
    ensures taken <==> HasId(pack[..counter], id)
  {
    var i := 0;
    while i < counter
      invariant 0 <= i <= counter
      invariant !HasId(pack[..i], id)
    {
      if id == pack[i].id {
        assert pack[..counter][i].id == id;
        return true;
      }
      i := i + 1;
    }
    return false;
  }

  // Scans one queue while it has frames and the pack has room.
  method Fill(queue: Queue<Frame>, skip: Queue<Frame>, pack: array<Frame>, start: nat) returns (counter: nat)
    requires queue.Valid() && skip.Valid() && Apart(queue, skip) && pack != queue.ring && pack != skip.ring
    requires skip.maxCount == SKIP_SIZE && skip.Contents() == [] && pack.Length == PACK_SIZE && start <= PACK_SIZE
    modifies queue, skip, skip.ring, pack
    ensures queue.Valid() && skip.Valid() && counter <= PACK_SIZE
    ensures var r := Scan(old(queue.Contents()), old(pack[..start]));
      pack[..counter] == r.pack && queue.Contents() == r.rest && skip.Contents() == Newest(r.skipped, SKIP_SIZE)
  {
    counter := start;
    ghost var r := Scan(queue.Contents(), pack[..start]);
    ghost var skipped: seq<Frame> := [];
    assert [] + r.skipped == r.skipped;
    while 0 < queue.count && counter < PACK_SIZE
      invariant queue.Valid() && skip.Valid() && counter <= PACK_SIZE
      invariant r == Behind(skipped, Scan(queue.Contents(), pack[..counter]))
      invariant skip.Contents() == Newest(skipped, SKIP_SIZE)
      decreases queue.count
    {
      ghost var q := queue.Contents();
      ScanStep(q, pack[..counter], skipped);
      var ok, frame := queue.Get();
      assert q[0] == frame && q[1..] == queue.Contents();
      var taken := Taken(pack, counter, frame.id);
      if taken {
        NewestAdd(skipped, frame, SKIP_SIZE);
        skip.Add(frame);
        skipped := skipped + [frame];
      } else {
        ghost var before := pack[..counter];
        pack[counter] := frame;
        counter := counter + 1;
        assert pack[..counter] == before + [frame];
      }
    }
    assert skipped + [] == skipped;
  }

  // Puts the skipped frames back to the front, one at a time, then clears the skip ring.
  method Return(queue: Queue<Frame>, skip: Queue<Frame>)
    requires queue.Valid() && skip.Valid() && Apart(queue, skip) && queue.maxCount == QUEUE_SIZE
    modifies queue, queue.ring, skip, skip.ring
    ensures queue.Valid() && skip.Valid() && skip.Contents() == []
    ensures queue.Contents() == PutBack(old(queue.Contents()), old(skip.Contents()))
  {
    ghost var r := PutBack(queue.Contents(), skip.Contents());
    while 0 < skip.count
      invariant queue.Valid() && skip.Valid()
      invariant r == PutBack(queue.Contents(), skip.Contents())
      decreases skip.count
    {
      ghost var s := skip.Contents();
      var ok, frame := skip.Get();
      assert s[0] == frame && s[1..] == skip.Contents();
      queue.AddFront(frame);
    }
    skip.Clear();
  }

  // g_obj.queue[gw_id] and the locals of CSTx_sendThread.
  class Sender {
    const low: Queue<Frame>
    const normal: Queue<Frame>
    const high: Queue<Frame>
    const skip: Queue<Frame>
    const sendPack: array<Frame>

    ghost predicate Valid()
      reads low, normal, high, skip
    {
      && Apart(low, normal) && Apart(low, high) && Apart(low, skip)
      && Apart(normal, high) && Apart(normal, skip) && Apart(high, skip)
      && sendPack != low.ring && sendPack != normal.ring && sendPack != high.ring && sendPack != skip.ring
      && low.Valid() && normal.Valid() && high.Valid() && skip.Valid()
      && low.maxCount == normal.maxCount == high.maxCount == QUEUE_SIZE && skip.maxCount == SKIP_SIZE
      && sendPack.Length == PACK_SIZE && skip.count == 0
    }

    ghost function State(): Queues
      reads normal, high, normal.ring, high.ring
      requires normal.Valid() && high.Valid()
    {
      Queues(high.Contents(), normal.Contents())
    }

    constructor ()
      ensures Valid() && State() == Queues([], []) && low.Contents() == []
    {
      low := new Queue<Frame>(QUEUE_SIZE, NO_FRAME);
      normal := new Queue<Frame>(QUEUE_SIZE, NO_FRAME);
      high := new Queue<Frame>(QUEUE_SIZE, NO_FRAME);
      skip := new Queue<Frame>(SKIP_SIZE, NO_FRAME);
      sendPack := new Frame[PACK_SIZE](_ => NO_FRAME);
    }

    // One pass of the priority loop.
    method Level(queue: Queue<Frame>, start: nat) returns (counter: nat)
      requires Valid() && queue in {normal, high} && start <= PACK_SIZE
      modifies queue, queue.ring, skip, skip.ring, sendPack
      ensures Valid() && counter <= PACK_SIZE
      ensures var r := Scan(old(queue.Contents()), old(sendPack[..start]));
        sendPack[..counter] == r.pack && queue.Contents() == After(r)
    {
      ghost var r := Scan(queue.Contents(), sendPack[..start]);
      counter := Fill(queue, skip, sendPack, start);
      ScanSizes(old(queue.Contents()), old(sendPack[..start]));
      PutBackFits(r.rest, Newest(r.skipped, SKIP_SIZE));
      Return(queue, skip);
    }

    // The locked part of one iteration: priorities 2 and 1; the Low queue, index 0,
    // is not reached by the loop.
    method Round() returns (pack: seq<Frame>)
      requires Valid()
      modifies normal, normal.ring, high, high.ring, skip, skip.ring, sendPack
      ensures Valid() && low.Contents() == old(low.Contents())
      ensures pack == PackOf(old(State())) && State() == Next(old(State()))
    {
      ghost var q := State();
      assert sendPack[..0] == [];
      var counter := Level(high, 0);
      assert normal.Contents() == q.normal;
      counter := Level(normal, counter);
      pack := sendPack[..counter];
    }

    // CSTx_sendFrame, between lock and unlock.
    method SendFrame(frame: Frame, priority: Priority)
      requires Valid()
      modifies low, low.ring, normal, normal.ring, high, high.ring
      ensures Valid()
      ensures low.Contents() == if priority == Low then Added(old(low.Contents()), frame, 32) else old(low.Contents())
      ensures normal.Contents() ==
        if priority == Normal then Added(old(normal.Contents()), frame, 32) else old(normal.Contents())
      ensures high.Contents() ==
        if priority == High then Added(old(high.Contents()), frame, 32) else old(high.Contents())
    {
      var queue := match priority case Low => low case Normal => normal case High => high;
      queue.Add(frame);
    }
  }
}
