/**
 The per-gateway sequence numbers of the bus socket: the one-byte counter stamped on
 every packet sent, and the four-entry filter that drops repeated packets.
 */
module CanIo {
  import opened Bytes

  const MAP_COUNT := 4

  // The filter as a value: recv_next_map_index and recv_sequence_map.
  datatype Filter = Filter(next: byte, recent: seq<byte>)

  const FreshFilter := Filter(0, [0xff, 0xff, 0xff, 0xff])

  predicate FilterOk(f: Filter) {
    |f.recent| == MAP_COUNT
  }

  predicate Accepts(f: Filter, sequence: byte) {
    sequence !in f.recent
  }

  function Noted(f: Filter, sequence: byte): Filter
    requires FilterOk(f)
  {
    Filter((f.next + 1) % 0x100, f.recent[f.next % MAP_COUNT := sequence])
  }

  // One gateway's slice of CSIo_info_t.
  class Gateway {
    var sendSequence: byte
    var recvNextMapIndex: byte
    const recvSequenceMap: array<byte>

    ghost predicate Valid()
      reads this
    {
      recvSequenceMap.Length == MAP_COUNT
    }

    ghost function State(): (f: Filter)
      reads this, recvSequenceMap
      requires Valid()
      ensures FilterOk(f)
    {
      Filter(recvNextMapIndex, recvSequenceMap[..])
    }

    constructor ()
      ensures Valid() && State() == FreshFilter && sendSequence == 0
    {
      sendSequence, recvNextMapIndex := 0, 0;
      recvSequenceMap := new byte[MAP_COUNT](_ => 0xff);
    }

    // The filter part of CSIo_read.
    method Accept(sequence: byte) returns (isEffective: bool)
      requires Valid()
      modifies this`recvNextMapIndex, recvSequenceMap
      ensures Valid() && (isEffective <==> Accepts(old(State()), sequence))
      ensures State() == if isEffective then Noted(old(State()), sequence) else old(State())
    {
      isEffective := true;
      var i := 0;
      while i < MAP_COUNT && isEffective
        invariant 0 <= i <= MAP_COUNT
        invariant isEffective <==> sequence !in recvSequenceMap[..i]
        decreases MAP_COUNT - i, isEffective
      {
        if recvSequenceMap[i] == sequence {
          isEffective := false;
        }
        i := i + 1;
      }
      if isEffective {
        assert recvSequenceMap[..i] == recvSequenceMap[..];
        recvSequenceMap[recvNextMapIndex % MAP_COUNT] := sequence;
        recvNextMapIndex := (recvNextMapIndex + 1) % 0x100;
      }
    }

    // The numbering of CSIo_send.
    method Stamp() returns (sequence: byte)
      modifies this`sendSequence
      ensures sequence == old(sendSequence) && sendSequence == (old(sendSequence) + 1) % 0x100
    {
      sequence := sendSequence;
      sendSequence := (sendSequence + 1) % 0x100;
    }
  }

  // ---- runs of the filter --------------------------------------------------------------

  // The state after a run of arrivals, and the accepted ones in order.
  function Final(f: Filter, arrivals: seq<byte>): (r: Filter)
    requires FilterOk(f)
    ensures FilterOk(r)
  {
    if arrivals == [] then f
    else
      var n := |arrivals| - 1;
      var g := Final(f, arrivals[..n]);
      if Accepts(g, arrivals[n]) then Noted(g, arrivals[n]) else g
  }

  function Accepted(f: Filter, arrivals: seq<byte>): seq<byte>
    requires FilterOk(f)
  {
    if arrivals == [] then []
    else
      var n := |arrivals| - 1;
      Accepted(f, arrivals[..n]) + if Accepts(Final(f, arrivals[..n]), arrivals[n]) then [arrivals[n]] else []
  }

  // The k-th accepted byte; before the first, what the map is filled with.
  function Entry(accepted: seq<byte>, k: int): byte
    requires k < |accepted|
  {
    if k < 0 then 0xff else accepted[k]
  }

  // The map holds the last four accepted bytes, each in the slot of its position.
  ghost predicate Remembers(f: Filter, accepted: seq<byte>) {
    && FilterOk(f)
    && f.next == |accepted| % 0x100
    && forall k :: |accepted| - MAP_COUNT <= k < |accepted| ==> f.recent[k % MAP_COUNT] == Entry(accepted, k)
  }

  lemma {:induction false} FilterRemembers(arrivals: seq<byte>)
    ensures Remembers(Final(FreshFilter, arrivals), Accepted(FreshFilter, arrivals))
  {
    if arrivals != [] {
      var n := |arrivals| - 1;
      FilterRemembers(arrivals[..n]);
      NotedRemembers(Final(FreshFilter, arrivals[..n]), Accepted(FreshFilter, arrivals[..n]), arrivals[n]);
      assert Accepted(FreshFilter, arrivals[..n]) + [] == Accepted(FreshFilter, arrivals[..n]);
    }
  }

  lemma NotedRemembers(f: Filter, accepted: seq<byte>, b: byte)
    requires Remembers(f, accepted)
    ensures Remembers(Noted(f, b), accepted + [b])
  {
    var g, acc, n := Noted(f, b), accepted + [b], |accepted|;
    SlotOf(n);
    assert (n % 0x100 + 1) % 0x100 == (n + 1) % 0x100;
    forall k | |acc| - MAP_COUNT <= k < |acc|
      ensures g.recent[k % MAP_COUNT] == Entry(acc, k)
    {
      if k < n {
        OtherSlot(n, k);
        assert f.recent[k % MAP_COUNT] == Entry(accepted, k);
      }
    }
  }

  // The wrap of the one-byte index does not disturb the slots.
  lemma SlotOf(n: nat)
    ensures n % 0x100 % MAP_COUNT == n % MAP_COUNT
  {
  }

  lemma OtherSlot(n: nat, k: int)
    requires n - MAP_COUNT < k < n
    ensures k % MAP_COUNT != n % MAP_COUNT
  {
  }

  // What the filter accepts is exactly what the last four accepted bytes (0xff in
  // the places not yet used) do not contain.
  lemma AcceptsExactly(f: Filter, accepted: seq<byte>, b: byte)
    requires Remembers(f, accepted)
    ensures Accepts(f, b) <==>
      forall k :: |accepted| - MAP_COUNT <= k < |accepted| ==> Entry(accepted, k) != b
  {
    var n := |accepted|;
    if !Accepts(f, b) {
      var i :| 0 <= i < MAP_COUNT && f.recent[i] == b;
      var k := n - 1 - (n - 1 - i) % MAP_COUNT;
      assert k % MAP_COUNT == i;
      assert Entry(accepted, k) == b;
    }
  }

  // Any five consecutive accepted packets have distinct sequence bytes, whatever
  // arrives.
  lemma {:induction false} FiveDistinct(arrivals: seq<byte>, i: nat, j: nat)
    requires i < j < |Accepted(FreshFilter, arrivals)| && j - i <= MAP_COUNT
    ensures Accepted(FreshFilter, arrivals)[i] != Accepted(FreshFilter, arrivals)[j]
  {
    var n := |arrivals| - 1;
    var before := Accepted(FreshFilter, arrivals[..n]);
    if j < |before| {
      FiveDistinct(arrivals[..n], i, j);
    } else {
      FilterRemembers(arrivals[..n]);
      AcceptsExactly(Final(FreshFilter, arrivals[..n]), before, arrivals[n]);
      assert Entry(before, i) == before[i];
    }
  }

  // ---- a numbered stream ------------------------------------------------------------------

  // The byte CSIo_send puts on its n-th packet.
  function Stamped(n: nat): byte {
    n % 0x100
  }

  function StampedAll(packets: seq<nat>): (r: seq<byte>)
    ensures |r| == |packets|
  {
    if packets == [] then [] else StampedAll(packets[..|packets| - 1]) + [Stamped(packets[|packets| - 1])]
  }

  // How many distinct packets a lossless in-order stream with repeats has shown.
  function Seen(packets: seq<nat>): nat {
    if packets == [] then 0
    else
      var k := Seen(packets[..|packets| - 1]);
      if packets[|packets| - 1] == k then k + 1 else k
  }

  // Each arrival is the next new packet, or repeats one of the last four new ones.
  ghost predicate InOrderWithRepeats(packets: seq<nat>) {
    packets == [] ||
    (var n := |packets| - 1;
     var k := Seen(packets[..n]);
     InOrderWithRepeats(packets[..n]) && k - MAP_COUNT <= packets[n] <= k)
  }

  function FirstStamps(n: nat): (r: seq<byte>)
    ensures |r| == n && forall i :: 0 <= i < n ==> r[i] == Stamped(i)
  {
    seq(n, i requires 0 <= i < n => Stamped(i))
  }

  lemma RepeatStamps(n: nat, j: nat)
    requires j < n && MAP_COUNT <= n
    ensures (n - 1 - j) % 0x100 >= MAP_COUNT <==> forall k: nat | n - MAP_COUNT <= k < n :: Stamped(k) != Stamped(j)
  {
    var d := (n - 1 - j) % 0x100;
    if d < MAP_COUNT {
      SameStamp(n - 1 - d, j, n);
    } else {
      forall k: nat | n - MAP_COUNT <= k < n
        ensures Stamped(k) != Stamped(j)
      {
        SameStamp(k, j, n);
      }
    }
  }

  lemma SameStamp(k: nat, j: nat, n: nat)
    requires k < n && j < n
    ensures Stamped(k) == Stamped(j) <==> (n - 1 - j) % 0x100 == (n - 1 - k) % 0x100
  {
    Congruent(k, j);
    Congruent(n - 1 - j, n - 1 - k);
    assert n - 1 - j - (n - 1 - k) == k - j;
  }

  lemma Congruent(x: int, y: int)
    ensures x % 0x100 == y % 0x100 <==> (x - y) % 0x100 == 0
  {
    var a, b, r, t := x / 0x100, y / 0x100, x % 0x100, y % 0x100;
    assert x - y == 0x100 * (a - b) + (r - t);
    assert (x - y) % 0x100 == (r - t) % 0x100;
  }

  // Repeats are caught exactly when fewer than four newer packets were accepted, up
  // to the wrap of the byte.
  lemma RepeatCaught(f: Filter, n: nat, j: nat)
    requires Remembers(f, FirstStamps(n)) && j < n && MAP_COUNT <= n
    ensures !Accepts(f, Stamped(j)) <==> (n - 1 - j) % 0x100 < MAP_COUNT
  {
    AcceptsExactly(f, FirstStamps(n), Stamped(j));
    RepeatStamps(n, j);
    assert forall k: nat | n - MAP_COUNT <= k < n :: Entry(FirstStamps(n), k) == Stamped(k);
    if forall k: nat | n - MAP_COUNT <= k < n :: Stamped(k) != Stamped(j) {
      assert forall k | n - MAP_COUNT <= k < n :: Entry(FirstStamps(n), k) != Stamped(j);
    }
  }

  lemma NewAccepted(f: Filter, n: nat)
    requires Remembers(f, FirstStamps(n))
    ensures Accepts(f, Stamped(n))
  {
    AcceptsExactly(f, FirstStamps(n), Stamped(n));
  }

  lemma YoungRepeatCaught(f: Filter, n: nat, j: nat)
    requires Remembers(f, FirstStamps(n)) && n - MAP_COUNT <= j < n
    ensures !Accepts(f, Stamped(j))
  {
    AcceptsExactly(f, FirstStamps(n), Stamped(j));
    assert Entry(FirstStamps(n), j) == Stamped(j);
  }

  // Such a stream is delivered exactly once and in order, across all wraps of the byte.
  lemma {:induction false} DeliveredOnce(packets: seq<nat>)
    requires InOrderWithRepeats(packets)
    ensures Accepted(FreshFilter, StampedAll(packets)) == FirstStamps(Seen(packets))
  {
    if packets != [] {
      var n := |packets| - 1;
      var head, k := packets[..n], Seen(packets[..n]);
      var bytes := StampedAll(packets);
      assert bytes[..n] == StampedAll(head) && bytes[n] == Stamped(packets[n]);
      DeliveredOnce(head);
      FilterRemembers(StampedAll(head));
      var f := Final(FreshFilter, StampedAll(head));
      assert Accepted(FreshFilter, bytes)
          == FirstStamps(k) + if Accepts(f, Stamped(packets[n])) then [Stamped(packets[n])] else [];
      if packets[n] == k {
        NewAccepted(f, k);
        assert FirstStamps(k) + [Stamped(k)] == FirstStamps(k + 1);
      } else {
        YoungRepeatCaught(f, k, packets[n]);
      }
    }
  }

  // The packets, by number, whose arrivals are accepted.
  function Delivered(packets: seq<nat>): seq<nat> {
    if packets == [] then []
    else
      var n := |packets| - 1;
      var isNew := Accepts(Final(FreshFilter, StampedAll(packets[..n])), Stamped(packets[n]));
      Delivered(packets[..n]) + if isNew then [packets[n]] else []
  }

  function FirstNumbers(n: nat): (r: seq<nat>)
    ensures |r| == n && forall i :: 0 <= i < n ==> r[i] == i
  {
    seq(n, i => i)
  }

  // Of such a stream, packets 0, 1, 2 and so on are delivered, once each, and no other: the
  // repetition of stamps every 256 packets confuses none of them.
  lemma {:induction false} NumbersDeliveredOnce(packets: seq<nat>)
    requires InOrderWithRepeats(packets)
    ensures Delivered(packets) == FirstNumbers(Seen(packets))
  {
    if packets != [] {
      var n := |packets| - 1;
      var head, k := packets[..n], Seen(packets[..n]);
      NumbersDeliveredOnce(head);
      DeliveredOnce(head);
      FilterRemembers(StampedAll(head));
      var f := Final(FreshFilter, StampedAll(head));
      if packets[n] == k {
        NewAccepted(f, k);
        assert FirstNumbers(k) + [k] == FirstNumbers(k + 1);
      } else {
        YoungRepeatCaught(f, k, packets[n]);
      }
    }
  }

  // ---- the two ends at work -----------------------------------------------------------------

  // The bytes a gateway stamps on its first n packets.
  method StampFirst(g: Gateway, n: nat) returns (bytes: seq<byte>)
    requires g.sendSequence == 0
    modifies g`sendSequence
    ensures bytes == FirstStamps(n) && g.sendSequence == Stamped(n)
  {
    bytes := [];
    for i := 0 to n
      invariant bytes == FirstStamps(i) && g.sendSequence == Stamped(i)
    {
      var sequence := g.Stamp();
      assert FirstStamps(i) + [Stamped(i)] == FirstStamps(i + 1);
      bytes := bytes + [sequence];
    }
  }

  // What a gateway accepts of a run of arrivals, and the state it is left in.
  method AcceptAll(g: Gateway, arrivals: seq<byte>) returns (accepted: seq<byte>)
    requires g.Valid()
    modifies g`recvNextMapIndex, g.recvSequenceMap
    ensures g.Valid() && g.State() == Final(old(g.State()), arrivals)
    ensures accepted == Accepted(old(g.State()), arrivals)
  {
    accepted := [];
    for i := 0 to |arrivals|
      invariant g.Valid() && g.State() == Final(old(g.State()), arrivals[..i])
      invariant accepted == Accepted(old(g.State()), arrivals[..i])
    {
      assert arrivals[..i + 1][..i] == arrivals[..i];
      var isEffective := g.Accept(arrivals[i]);
      if isEffective {
        accepted := accepted + [arrivals[i]];
      }
    }
    assert arrivals[..|arrivals|] == arrivals;
  }

  // A sender stamps n packets, the network shows them in order with young repeats, and the
  // receiver delivers packets 0, 1, 2 and so on, once each.
  method DeliverStream(sender: Gateway, receiver: Gateway, n: nat, packets: seq<nat>) returns (delivered: seq<nat>)
    requires sender.sendSequence == 0 && receiver.Valid() && receiver.State() == FreshFilter
    requires InOrderWithRepeats(packets) && forall i :: 0 <= i < |packets| ==> packets[i] < n
    modifies sender`sendSequence, receiver`recvNextMapIndex, receiver.recvSequenceMap
    ensures delivered == FirstNumbers(Seen(packets))
  {
    var bytes := StampFirst(sender, n);
    delivered := ReceiveAll(receiver, bytes, packets);
    NumbersDeliveredOnce(packets);
  }

  // The packets a gateway accepts of a run of arrivals, each with its stamp.
  method ReceiveAll(g: Gateway, bytes: seq<byte>, packets: seq<nat>) returns (delivered: seq<nat>)
    requires g.Valid() && g.State() == FreshFilter && bytes == FirstStamps(|bytes|)
    requires forall i :: 0 <= i < |packets| ==> packets[i] < |bytes|
    modifies g`recvNextMapIndex, g.recvSequenceMap
    ensures delivered == Delivered(packets)
  {
    delivered := [];
    for i := 0 to |packets|
      invariant g.Valid() && g.State() == Final(FreshFilter, StampedAll(packets[..i]))
      invariant delivered == Delivered(packets[..i])
    {
      StampedStep(packets, i);
      var isEffective := g.Accept(bytes[packets[i]]);
      if isEffective {
        delivered := delivered + [packets[i]];
      }
    }
    assert packets[..|packets|] == packets;
  }

  lemma StampedStep(packets: seq<nat>, i: nat)
    requires i < |packets|
    ensures packets[..i + 1][..i] == packets[..i] && packets[..i + 1][i] == packets[i]
    ensures StampedAll(packets[..i + 1])[..i] == StampedAll(packets[..i])
    ensures StampedAll(packets[..i + 1])[i] == Stamped(packets[i])
  {
    assert packets[..i + 1][..i] == packets[..i];
  }
}
