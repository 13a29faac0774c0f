/**
 Producers and one gateway's sender thread around the lock and the condition
 variable, one atomic step at a time, in every interleaving. A sleeping sender with
 frames waiting is always about to be signalled.
 */
module CanTxWakeup {
  import opened RingQueue
  import opened CanTx
  import opened CanTxRounds

  // Program points of CSTx_sendFrame.
  datatype ProducerAt =
    | Idle
    | Locking(frame: Frame, priority: Priority)
    | Locked(frame: Frame, priority: Priority)
    | Unlocking
    | Signalling

  // Program points of the loop of CSTx_sendThread.
  datatype SenderAt = AtLock | Counting | Waiting | Woken | Building | Built | Sending

  datatype Owner = Free | Sender | Producer(id: nat)

  // What has become of the frames so far: enqueued by producers, packed by the sender, overwritten in
  // a full queue or lost from the skip ring.
  datatype Book = Book(
    enqueued: multiset<Frame>, packed: multiset<Frame>, overwritten: multiset<Frame>, lost: multiset<Frame>)

  datatype State = State(
    lock: Owner, sender: SenderAt, producers: map<nat, ProducerAt>, low: seq<Frame>, q: Queues, book: Book)

  predicate QueuesEmpty(s: State) {
    |s.low| + |s.q.normal| + |s.q.high| == 0
  }

  predicate Init(s: State) {
    s.lock == Free && s.sender == AtLock && QueuesEmpty(s)
    && s.book == Book(multiset{}, multiset{}, multiset{}, multiset{})
    && forall i | i in s.producers :: s.producers[i] == Idle
  }

  // The front frame a full queue drops for a new one.
  function Overwritten(q: seq<Frame>): multiset<Frame> {
    if |q| == QUEUE_SIZE then multiset{q[0]} else multiset{}
  }

  function QueueOf(s: State, p: Priority): seq<Frame> {
    match p
    case Low => s.low
    case Normal => s.q.normal
    case High => s.q.high
  }

  function Enqueued(s: State, f: Frame, p: Priority): State {
    var queue := Added(QueueOf(s, p), f, QUEUE_SIZE);
    var book := s.book.(
      enqueued := s.book.enqueued + multiset{f},
      overwritten := s.book.overwritten + Overwritten(QueueOf(s, p)));
    match p
    case Low => s.(low := queue, book := book)
    case Normal => s.(q := s.q.(normal := queue), book := book)
    case High => s.(q := s.q.(high := queue), book := book)
  }

  // A frame goes to the end of its own priority's queue, whose front goes when 32 frames are there.
  lemma EnqueuedGoesTo(s: State, f: Frame, p: Priority)
    ensures
      var t := Enqueued(s, f, p);
      && t.low == (if p == Low then Added(s.low, f, 32) else s.low)
      && t.q.normal == (if p == Normal then Added(s.q.normal, f, 32) else s.q.normal)
      && t.q.high == (if p == High then Added(s.q.high, f, 32) else s.q.high)
  {
  }

  // A round takes its pack and what it loses out of the queues.
  function Packed(s: State): State {
    s.(q := Next(s.q), book := s.book.(
      packed := s.book.packed + multiset(PackOf(s.q)),
      lost := s.book.lost + multiset(LostOf(s.q))))
  }

  // One step of producer i.
  ghost predicate ProducerStep(s: State, t: State, i: nat) {
    i in s.producers &&
    match s.producers[i]
    case Idle => exists f, p :: t == s.(producers := s.producers[i := Locking(f, p)])
    case Locking(f, p) => s.lock == Free && t == s.(lock := Producer(i), producers := s.producers[i := Locked(f, p)])
    case Locked(f, p) => t == Enqueued(s, f, p).(producers := s.producers[i := Unlocking])
    case Unlocking => t == s.(lock := Free, producers := s.producers[i := Signalling])
    case Signalling =>
      t == s.(sender := if s.sender == Waiting then Woken else s.sender, producers := s.producers[i := Idle])
  }

  // One step of the sender. Waiting releases the lock and sleeps in one step; a
  // sleeper may also wake without a signal, and goes on without counting again.
  ghost predicate SenderStep(s: State, t: State) {
    match s.sender
    case AtLock => s.lock == Free && t == s.(lock := Sender, sender := Counting)
    case Counting => t == if QueuesEmpty(s) then s.(lock := Free, sender := Waiting) else s.(sender := Building)
    case Waiting => t == s.(sender := Woken)
    case Woken => s.lock == Free && t == s.(lock := Sender, sender := Building)
    case Building => t == Packed(s).(sender := Built)
    case Built => t == s.(lock := Free, sender := Sending)
    case Sending => t == s.(sender := AtLock)
  }

  ghost predicate Step(s: State, t: State) {
    SenderStep(s, t) || exists i :: ProducerStep(s, t, i)
  }

  ghost predicate Behaviour(b: seq<State>) {
    b != [] && Init(b[0]) && forall k :: 0 <= k < |b| - 1 ==> Step(b[k], b[k + 1])
  }

  // The lock is held by exactly the thread inside its critical section.
  ghost predicate LockOk(s: State) {
    && (s.lock == Sender <==> s.sender in {Counting, Building, Built})
    && forall i | i in s.producers ::
         s.producers[i].Locked? || s.producers[i].Unlocking? <==> s.lock == Producer(i)
  }

  // Some producer has added a frame and not signalled yet.
  ghost predicate SignalPending(s: State) {
    exists i | i in s.producers :: s.producers[i] in {Unlocking, Signalling}
  }

  ghost predicate Inv(s: State) {
    && LockOk(s)
    && (s.sender == Waiting && !QueuesEmpty(s) ==> SignalPending(s))
  }

  lemma SenderKeepsInv(s: State, t: State)
    requires Inv(s) && SenderStep(s, t)
    ensures Inv(t)
  {
    assert t.producers == s.producers;
    if t.sender == Waiting {
      assert QueuesEmpty(t);
    }
  }

  lemma ProducerKeepsInv(s: State, t: State, i: nat)
    requires Inv(s) && ProducerStep(s, t, i)
    ensures Inv(t)
  {
    assert t.producers.Keys == s.producers.Keys;
    assert forall j | j in s.producers && j != i :: t.producers[j] == s.producers[j];
    if t.sender == Waiting && !QueuesEmpty(t) {
      if t.producers[i] in {Unlocking, Signalling} {
      } else {
        assert QueuesEmpty(s) <==> QueuesEmpty(t);
        var j :| j in s.producers && s.producers[j] in {Unlocking, Signalling};
        assert j != i;
        assert t.producers[j] == s.producers[j];
      }
    }
  }

  lemma {:induction false} InvHolds(b: seq<State>, k: nat)
    requires Behaviour(b) && k < |b|
    ensures Inv(b[k])
  {
    if k > 0 {
      InvHolds(b, k - 1);
      assert Step(b[k - 1], b[k - 1 + 1]);
      if SenderStep(b[k - 1], b[k]) {
        SenderKeepsInv(b[k - 1], b[k]);
      } else {
        var i :| ProducerStep(b[k - 1], b[k], i);
        ProducerKeepsInv(b[k - 1], b[k], i);
      }
    }
  }

  // In every state of every interleaving: if the sender sleeps while a queue holds a
  // frame, some producer stands between its add and its signal; that producer can
  // always take its next step, and its signal wakes the sender.
  lemma NoLostWakeup(b: seq<State>, k: nat)
    requires Behaviour(b) && k < |b|
    requires b[k].sender == Waiting && !QueuesEmpty(b[k])
    ensures exists i | i in b[k].producers ::
      && b[k].producers[i] in {Unlocking, Signalling}
      && (exists t :: ProducerStep(b[k], t, i))
      && (b[k].producers[i].Signalling? ==> forall t | ProducerStep(b[k], t, i) :: t.sender == Woken)
  {
    InvHolds(b, k);
    var s := b[k];
    var i :| i in s.producers && s.producers[i] in {Unlocking, Signalling};
    var t := if s.producers[i].Unlocking? then s.(lock := Free, producers := s.producers[i := Signalling])
             else s.(sender := Woken, producers := s.producers[i := Idle]);
    assert ProducerStep(s, t, i);
  }

  // The sender and the producers never hold the lock together.
  lemma MutualExclusion(b: seq<State>, k: nat, i: nat)
    requires Behaviour(b) && k < |b| && i in b[k].producers
    ensures !(b[k].sender in {Counting, Building, Built} && (b[k].producers[i].Locked? || b[k].producers[i].Unlocking?))
  {
    InvHolds(b, k);
  }

  // Every frame enqueued is packed, still queued, overwritten or lost, once.
  ghost predicate Balanced(s: State) {
    s.book.enqueued ==
      s.book.packed + multiset(s.low) + multiset(s.q.normal) + multiset(s.q.high)
      + s.book.overwritten + s.book.lost
    && |s.low| <= QUEUE_SIZE && |s.q.normal| <= QUEUE_SIZE && |s.q.high| <= QUEUE_SIZE
  }

  lemma AddedKeeps(q: seq<Frame>, f: Frame)
    requires |q| <= QUEUE_SIZE
    ensures multiset(Added(q, f, QUEUE_SIZE)) + Overwritten(q) == multiset(q) + multiset{f}
    ensures |Added(q, f, QUEUE_SIZE)| <= QUEUE_SIZE
  {
    if |q| == QUEUE_SIZE {
      assert q == [q[0]] + q[1..];
    }
  }

  lemma EnqueuedBalances(s: State, f: Frame, p: Priority)
    requires Balanced(s)
    ensures Balanced(Enqueued(s, f, p))
  {
    AddedKeeps(QueueOf(s, p), f);
    var m, q, out := multiset(Added(QueueOf(s, p), f, QUEUE_SIZE)), multiset(QueueOf(s, p)), Overwritten(QueueOf(s, p));
    var low, normal, high := multiset(s.low), multiset(s.q.normal), multiset(s.q.high);
    var packed, over, lost := s.book.packed, s.book.overwritten, s.book.lost;
    match p
    case Low => OneIn(s.book.enqueued, q, m, multiset{f}, over, out, packed + normal + high, lost);
    case Normal => OneIn(s.book.enqueued, q, m, multiset{f}, over, out, packed + low + high, lost);
    case High => OneIn(s.book.enqueued, q, m, multiset{f}, over, out, packed + low + normal, lost);
  }

  // One queue changes from q to m and drops out; rest is what the others hold.
  lemma OneIn(all: multiset<Frame>, q: multiset<Frame>, m: multiset<Frame>, x: multiset<Frame>,
              over: multiset<Frame>, out: multiset<Frame>, rest: multiset<Frame>, lost: multiset<Frame>)
    requires all == rest + q + over + lost && m + out == q + x
    ensures all + x == rest + m + (over + out) + lost
  {
    assert all + x == rest + (q + x) + over + lost;
  }

  // A round splits two queues into pack, what stays and what is lost.
  lemma OneRound(all: multiset<Frame>, packed: multiset<Frame>, rest: multiset<Frame>, lost: multiset<Frame>,
                 n: multiset<Frame>, h: multiset<Frame>, pack: multiset<Frame>,
                 n1: multiset<Frame>, h1: multiset<Frame>, out: multiset<Frame>)
    requires all == rest + (h + n) + packed + lost && h + n == pack + h1 + n1 + out
    ensures all == rest + (h1 + n1) + (packed + pack) + (lost + out)
  {
  }

  lemma PackedBalances(s: State)
    requires Balanced(s)
    ensures Balanced(Packed(s))
  {
    RoundConserves(s.q);
    RoundShrinks(s.q);
    var low, normal, high := multiset(s.low), multiset(s.q.normal), multiset(s.q.high);
    assert s.book.enqueued == (low + s.book.overwritten) + (high + normal) + s.book.packed + s.book.lost;
    OneRound(s.book.enqueued, s.book.packed, low + s.book.overwritten, s.book.lost, normal, high,
             multiset(PackOf(s.q)), multiset(Next(s.q).normal), multiset(Next(s.q).high), multiset(LostOf(s.q)));
  }

  lemma RoundShrinks(q: Queues)
    ensures |Next(q).high| <= |q.high| && |Next(q).normal| <= |q.normal|
  {
    ScanSizes(q.high, []);
    ScanSizes(q.normal, HighScan(q).pack);
  }

  lemma StepBalances(s: State, t: State)
    requires Balanced(s) && Step(s, t)
    ensures Balanced(t)
  {
    if SenderStep(s, t) {
      if s.sender == Building { PackedBalances(s); }
    } else {
      var i :| ProducerStep(s, t, i);
      if s.producers[i].Locked? { EnqueuedBalances(s, s.producers[i].frame, s.producers[i].priority); }
    }
  }

  // In every state of every interleaving, no frame is unaccounted for or counted twice.
  lemma {:induction false} NothingVanishes(b: seq<State>, k: nat)
    requires Behaviour(b) && k < |b|
    ensures Balanced(b[k])
  {
    if k > 0 {
      NothingVanishes(b, k - 1);
      assert Step(b[k - 1], b[k - 1 + 1]);
      StepBalances(b[k - 1], b[k]);
    }
  }

  // ---- a run ------------------------------------------------------------------------------

  // The sender finds nothing and sleeps, producer 0 enqueues a High frame and signals, and the sender
  // wakes and packs it: all this is a behaviour.
  lemma OneFrameIsPacked(f: Frame) returns (b: seq<State>)
    ensures Behaviour(b) && b[|b| - 1].book.packed == multiset{f} && QueuesEmpty(b[|b| - 1])
  {
    var s0 := State(Free, AtLock, map[0 := Idle], [], Queues([], []),
                    Book(multiset{}, multiset{}, multiset{}, multiset{}));
    b := FallsAsleep(s0);
    b := IsEnqueued(b, b[|b| - 1], f);
    b := IsSignalled(b, b[|b| - 1]);
    b := WakesAndPacks(b, b[|b| - 1], f);
  }

  lemma FallsAsleep(s: State) returns (b: seq<State>)
    requires Init(s)
    ensures Behaviour(b) && b[|b| - 1] == s.(sender := Waiting)
  {
    var s1 := s.(lock := Sender, sender := Counting);
    assert Step(s, s1) && Step(s1, s.(sender := Waiting));
    b := Extended(Extended([s], s1), s.(sender := Waiting));
  }

  lemma IsEnqueued(b: seq<State>, s: State, f: Frame) returns (c: seq<State>)
    requires Behaviour(b) && b[|b| - 1] == s && s.producers == map[0 := Idle] && s.lock == Free && s.q.high == []
    ensures Behaviour(c) && var t := c[|c| - 1];
      && t == s.(lock := Producer(0), producers := map[0 := Unlocking], q := s.q.(high := [f]), book := t.book)
      && t.book.packed == s.book.packed
  {
    var s1 := s.(producers := s.producers[0 := Locking(f, High)]);
    var s2 := s1.(lock := Producer(0), producers := s1.producers[0 := Locked(f, High)]);
    var s3 := Enqueued(s2, f, High).(producers := s2.producers[0 := Unlocking]);
    assert ProducerStep(s, s1, 0) && ProducerStep(s1, s2, 0) && ProducerStep(s2, s3, 0);
    c := Extended(Extended(Extended(b, s1), s2), s3);
  }

  lemma IsSignalled(b: seq<State>, s: State) returns (c: seq<State>)
    requires Behaviour(b) && b[|b| - 1] == s && s.producers == map[0 := Unlocking] && s.sender == Waiting
    ensures Behaviour(c) && c[|c| - 1] == s.(lock := Free, sender := Woken, producers := map[0 := Idle])
  {
    var s1 := s.(lock := Free, producers := s.producers[0 := Signalling]);
    var s2 := s1.(sender := Woken, producers := s1.producers[0 := Idle]);
    assert ProducerStep(s, s1, 0) && ProducerStep(s1, s2, 0);
    c := Extended(Extended(b, s1), s2);
  }

  lemma WakesAndPacks(b: seq<State>, s: State, f: Frame) returns (c: seq<State>)
    requires Behaviour(b) && b[|b| - 1] == s
    requires s.lock == Free && s.sender == Woken && s.low == [] && s.q == Queues([f], []) && s.book.packed == multiset{}
    ensures Behaviour(c) && c[|c| - 1].book.packed == multiset{f} && QueuesEmpty(c[|c| - 1])
  {
    var s1 := s.(lock := Sender, sender := Building);
    var s2 := Packed(s1).(sender := Built);
    PackOne(s.q, f);
    assert Step(s, s1) && Step(s1, s2);
    c := Extended(Extended(b, s1), s2);
  }

  function Extended(b: seq<State>, t: State): (c: seq<State>)
    requires Behaviour(b) && Step(b[|b| - 1], t)
    ensures Behaviour(c) && c[|c| - 1] == t
  {
    assert forall k :: 0 <= k < |b| ==> (b + [t])[k] == b[k];
    b + [t]
  }

  lemma PackOne(q: Queues, f: Frame)
    requires q == Queues([f], [])
    ensures PackOf(q) == [f] && Next(q) == Queues([], [])
  {
    assert [f][1..] == [] && [] + [f] == [f];
    assert Scan([f], []) == Scanned([f], [], []) && Scan([], [f]) == Scanned([f], [], []);
    assert Reversed([]) + [] == [];
  }
}
