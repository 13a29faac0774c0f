/**
 The receive registry: callback lists that grow and shift in place, device records
 created on the first bind and freed with the last close, and dispatch.
 */
module CanRx {

  // A function and its argument; only their identity matters.
  datatype Callback = Callback(func: nat, args: nat)

  // ---- one list ---------------------------------------------------------------------

  // CSRx_callbackListClose on values. Each hit shifts the tail down, so the element
  // after it passes unexamined.
  function Sweep(s: seq<Callback>, cb: Callback): (r: seq<Callback>)
    ensures cb !in s ==> r == s
    ensures |r| <= |s| && (cb in s ==> |r| < |s|)
    decreases |s|
  {
    if s == [] then []
    else if s[0] == cb then
      if |s| == 1 then [] else [s[1]] + Sweep(s[2..], cb)
    else [s[0]] + Sweep(s[1..], cb)
  }

  function Without(s: seq<Callback>, cb: Callback): (r: seq<Callback>)
    ensures cb !in r
    ensures cb !in s ==> r == s
  {
    if s == [] then [] else (if s[0] == cb then [] else [s[0]]) + Without(s[1..], cb)
  }

  ghost predicate Adjacent(s: seq<Callback>, cb: Callback) {
    exists i :: 0 <= i < |s| - 1 && s[i] == cb && s[i + 1] == cb
  }

  // Closing removes every entry of the callback, and nothing else, if and only if no
  // two of them stand side by side.
  lemma {:induction false} SweepExactly(s: seq<Callback>, cb: Callback)
    ensures Sweep(s, cb) == Without(s, cb) <==> !Adjacent(s, cb)
    ensures cb in Sweep(s, cb) <==> Adjacent(s, cb)
    decreases |s|
  {
    if |s| >= 2 {
      if s[0] == cb {
        if s[1] == cb {
          assert s[0 + 1] == cb && cb in Sweep(s, cb);
        } else {
          SweepExactly(s[2..], cb);
          AdjacentTail(s, cb);
          AdjacentTail(s[1..], cb);
          assert s[1..][1..] == s[2..];
          assert s[1..][0] == s[1];
        }
      } else {
        SweepExactly(s[1..], cb);
        AdjacentTail(s, cb);
      }
    }
  }

  lemma AdjacentTail(s: seq<Callback>, cb: Callback)
    requires |s| >= 1
    ensures Adjacent(s, cb) <==> (|s| >= 2 && s[0] == cb && s[1] == cb) || Adjacent(s[1..], cb)
  {
    if Adjacent(s, cb) {
      var i :| 0 <= i < |s| - 1 && s[i] == cb && s[i + 1] == cb;
      if i > 0 { assert s[1..][i - 1] == cb && s[1..][i - 1 + 1] == cb; }
    }
    if Adjacent(s[1..], cb) {
      var i :| 0 <= i < |s[1..]| - 1 && s[1..][i] == cb && s[1..][i + 1] == cb;
      assert s[i + 1] == cb && s[i + 1 + 1] == cb;
    }
    if |s| >= 2 && s[0] == cb && s[1] == cb {
      assert s[0 + 1] == cb;
    }
  }

  // What is left when of each run of copies the first, the third and so on go; `passed` is whether the
  // element before was a copy that went.
  function EveryOther(s: seq<Callback>, cb: Callback, passed: bool): seq<Callback> {
    if s == [] then []
    else if s[0] == cb && !passed then EveryOther(s[1..], cb, true)
    else [s[0]] + EveryOther(s[1..], cb, false)
  }

  lemma {:induction false} SweepLeaves(s: seq<Callback>, cb: Callback)
    ensures Sweep(s, cb) == EveryOther(s, cb, false)
    decreases |s|
  {
    if s != [] {
      if s[0] != cb {
        SweepLeaves(s[1..], cb);
      } else if |s| > 1 {
        SweepLeaves(s[2..], cb);
        assert s[1..][0] == s[1] && s[1..][1..] == s[2..];
      }
    }
  }

  ghost predicate NoDup(s: seq<Callback>) {
    forall i, j :: 0 <= i < j < |s| ==> s[i] != s[j]
  }

  // Where the closing loop stands; a hit on the last element leaves its index past the end.
  function Cut(i: nat, count: nat): nat { if i <= count then i else count }

  // CSRx_callbackList_t
  class CallbackList {
    var count: nat
    var callbacks: array<Callback>

    ghost predicate Valid()
      reads this
    {
      count <= callbacks.Length
    }

    ghost function Contents(): seq<Callback>
      reads this, callbacks
      requires Valid()
    {
      callbacks[..count]
    }

    constructor ()
      ensures Valid() && Contents() == [] && fresh(callbacks)
    {
      count := 0;
      callbacks := new Callback[0];
    }

    // Reallocates to one entry more.
    method Add(cb: Callback)
      requires Valid()
      modifies this
      ensures Valid() && Contents() == old(Contents()) + [cb] && fresh(callbacks)
    {
      var tmp := new Callback[count + 1](_ => cb);
      forall i | 0 <= i < count {
        tmp[i] := callbacks[i];
      }
      assert tmp[..count] == callbacks[..count];
      callbacks := tmp;
      count := count + 1;
    }

    method Close(cb: Callback) returns (isHit: bool)
      requires Valid()
      modifies this`count, callbacks
      ensures Valid() && Contents() == Sweep(old(Contents()), cb)
      ensures isHit <==> cb in old(Contents())
    {
      isHit := false;
      ghost var all, done, rest: seq<Callback> := Contents(), [], Contents();
      ghost var goal := Sweep(all, cb);
      var i := 0;
      SweepEnds(all, [], cb);
      while i < count
        invariant count <= callbacks.Length
        invariant done == callbacks[..Cut(i, count)] && rest == callbacks[Cut(i, count)..count]
        invariant done + Sweep(rest, cb) == goal
        invariant cb in all <==> isHit || cb in rest
        decreases count - i
      {
        var hit;
        hit, done, rest := Examine(i, cb, done, rest);
        isHit := isHit || hit;
        i := i + 1;
      }
      assert rest == [];
      SweepEnds(all, done, cb);
    }

    // One pass of the outer loop: an element moves behind the index, or two do after a hit.
    method Examine(i: nat, cb: Callback, ghost done: seq<Callback>, ghost rest: seq<Callback>)
      returns (hit: bool, ghost done': seq<Callback>, ghost rest': seq<Callback>)
      requires Valid() && i < count && done == callbacks[..i] && rest == callbacks[i..count]
      modifies this`count, callbacks
      ensures Valid() && count <= old(count)
      ensures done' == callbacks[..Cut(i + 1, count)] && rest' == callbacks[Cut(i + 1, count)..count]
      ensures done' + Sweep(rest', cb) == done + Sweep(rest, cb)
      ensures cb in rest <==> hit || cb in rest'
    {
      SweepStep(done, rest, cb);
      done', rest' := NextDone(done, rest, cb), NextRest(rest, cb);
      hit := callbacks[i] == cb;
      if hit {
        Shift(i);
        Pieces(callbacks[..], i, count, done, rest[1..]);
      } else {
        Pieces(callbacks[..], i, count, done, rest);
      }
    }

    // The inner loop: everything after i moves down by one.
    method Shift(i: nat)
      requires Valid() && i < count
      modifies this`count, callbacks
      ensures count == old(count) - 1
      ensures callbacks[..i] == old(callbacks[..i]) && callbacks[i..count] == old(callbacks[i + 1..count])
    {
      var push := i + 1;
      ghost var was := callbacks[..];
      while push < count
        invariant i + 1 <= push <= count == old(count) <= callbacks.Length
        invariant forall k :: 0 <= k < i ==> callbacks[k] == was[k]
        invariant forall k :: i <= k < push - 1 ==> callbacks[k] == was[k + 1]
        invariant forall k :: push <= k < count ==> callbacks[k] == was[k]
      {
        callbacks[push - 1] := callbacks[push];
        push := push + 1;
      }
      assert was[i + 1..count] == old(callbacks[i + 1..count]) && was[..i] == old(callbacks[..i]);
      count := count - 1;
      assert callbacks[i..count] == was[i + 1..count + 1];
      assert callbacks[..i] == was[..i];
    }
  }

  // One pass of the outer loop, with `done` behind it and `rest` ahead.
  function NextDone(done: seq<Callback>, rest: seq<Callback>, cb: Callback): seq<Callback>
    requires rest != []
  {
    if rest[0] != cb then done + [rest[0]] else if |rest| == 1 then done else done + [rest[1]]
  }

  function NextRest(rest: seq<Callback>, cb: Callback): seq<Callback>
    requires rest != []
  {
    if rest[0] != cb then rest[1..] else if |rest| == 1 then [] else rest[2..]
  }

  lemma SweepEnds(all: seq<Callback>, done: seq<Callback>, cb: Callback)
    ensures [] + Sweep(all, cb) == Sweep(all, cb)
    ensures done + Sweep([], cb) == done
  {
  }

  lemma SweepStep(done: seq<Callback>, rest: seq<Callback>, cb: Callback)
    requires rest != []
    ensures done + Sweep(rest, cb) == NextDone(done, rest, cb) + Sweep(NextRest(rest, cb), cb)
    ensures cb in rest <==> rest[0] == cb || cb in NextRest(rest, cb)
  {
    if rest[0] != cb {
      Behind(done, rest[0], Sweep(rest[1..], cb));
    } else if |rest| > 1 {
      Behind(done, rest[1], Sweep(rest[2..], cb));
    }
  }

  lemma Behind(done: seq<Callback>, next: Callback, rest: seq<Callback>)
    ensures done + ([next] + rest) == (done + [next]) + rest
  {
  }

  lemma Pieces(s: seq<Callback>, i: nat, n: nat, done: seq<Callback>, rest: seq<Callback>)
    requires i <= n <= |s| && s[..i] == done && s[i..n] == rest
    ensures rest == [] ==> s[..n] == done
    ensures rest != [] ==> i < n && s[..i + 1] == done + [rest[0]] && s[i + 1..n] == rest[1..]
  {
  }

  // ---- the registry -------------------------------------------------------------------

  datatype Slot = Reg(channel: nat, reg: nat) | RegAck(channel: nat) | ReqAck(channel: nat)

  datatype Address = Address(gateway: nat, driver: nat, device: nat)

  const SLOTS := 36

  // The upper bits of an id, kept to a byte, and its lowest four bits.
  function DriverId(id: nat): nat {
    id / 0x10 % 0x100
  }

  function DeviceId(id: nat): nat {
    id % 0x10
  }

  function AddressOf(gateway: nat, id: nat): Address {
    Address(gateway, DriverId(id), DeviceId(id))
  }

  predicate SlotOk(s: Slot) {
    s.channel < 2 && (s.Reg? ==> s.reg < 16)
  }

  // CSRX_ARG_CHECKER
  predicate Legal(gateway: nat, id: nat, slot: Slot) {
    gateway < 4 && 0x01 <= DriverId(id) <= 0x1F && DeviceId(id) <= 0x0F && SlotOk(slot)
  }

  // The checked arguments name slot t of record a.
  predicate Names(gateway: nat, id: nat, slot: Slot, a: Address, t: Slot) {
    Legal(gateway, id, slot) && a == AddressOf(gateway, id) && t == slot
  }

  // In numbers: gateways 0 to 3, ids 0x010 to 0x1FF of the 12 bits that count, two channels, 16 registers.
  lemma LegalInNumbers(gateway: nat, id: nat, slot: Slot)
    ensures Legal(gateway, id, slot) <==>
      gateway <= 3 && 0x010 <= id % 0x1000 <= 0x1FF && slot.channel <= 1 && (slot.Reg? ==> slot.reg <= 15)
  {
    TwelveBits(id);
  }

  // Two ids name one record exactly when these bits agree.
  lemma SameRecord(g: nat, i: nat, h: nat, j: nat)
    ensures AddressOf(g, i) == AddressOf(h, j) <==> g == h && i % 0x1000 == j % 0x1000
  {
    TwelveBits(i);
    TwelveBits(j);
  }

  lemma TwelveBits(i: nat)
    ensures i % 0x1000 == 0x10 * DriverId(i) + DeviceId(i) && DeviceId(i) < 0x10
  {
  }

  // Where a slot's list is in its record: regs[2][16], reg_acks[2], req_acks[2].
  function Index(s: Slot): (k: nat)
    requires SlotOk(s)
    ensures k < SLOTS
  {
    match s
    case Reg(c, r) => 16 * c + r
    case RegAck(c) => 32 + c
    case ReqAck(c) => 34 + c
  }

  lemma IndexInjective(s: Slot, t: Slot)
    requires SlotOk(s) && SlotOk(t) && Index(s) == Index(t)
    ensures s == t
  {
  }

  type Device = seq<seq<Callback>>

  // A record as it may stand in the table: not all of its lists are empty.
  ghost predicate RecordOk(dev: Device) {
    |dev| == SLOTS && exists k :: 0 <= k < SLOTS && dev[k] != []
  }

  class Registry {
    var devs: map<Address, Device>

    // A record exists only while one of its lists is non-empty.
    ghost predicate Valid()
      reads this
    {
      forall a :: a in devs ==> RecordOk(devs[a])
    }

    // The callbacks bound at a slot.
    ghost function Bound(a: Address, slot: Slot): seq<Callback>
      reads this
      requires Valid() && SlotOk(slot)
    {
      if a in devs then devs[a][Index(slot)] else []
    }

    constructor ()
      ensures Valid() && forall a, slot | SlotOk(slot) :: Bound(a, slot) == []
    {
      devs := map[];
    }

    // CSRx_bindReg, bindRegAck, bindReqAck
    method Bind(gateway: nat, id: nat, slot: Slot, cb: Callback)
      requires Valid()
      modifies this
      ensures Valid()
      ensures forall a, t | SlotOk(t) ::
        Bound(a, t) == if Names(gateway, id, slot, a, t) then old(Bound(a, t)) + [cb] else old(Bound(a, t))
    {
      if !Legal(gateway, id, slot) {
        return;
      }
      var a, k := AddressOf(gateway, id), Index(slot);
      var dev := if a in devs then devs[a] else seq(SLOTS, i => []);
      dev := dev[k := dev[k] + [cb]];
      devs := devs[a := dev];
      assert dev[k] != [];
      forall t | SlotOk(t) && t != slot
        ensures dev[Index(t)] == old(Bound(a, t))
      {
        if Index(t) == k { IndexInjective(t, slot); }
      }
    }

    // CSRx_deviceInfoClose: frees the record when all its lists are empty.
    method DeviceClose(a: Address)
      requires a in devs && |devs[a]| == SLOTS
      requires forall b :: b in devs && b != a ==> RecordOk(devs[b])
      modifies this
      ensures Valid()
      ensures devs == if RecordOk(old(devs)[a]) then old(devs) else old(devs) - {a}
    {
      var allUnusing := true;
      var k := 0;
      while k < SLOTS
        invariant 0 <= k <= SLOTS
        invariant allUnusing <==> forall j :: 0 <= j < k ==> devs[a][j] == []
        invariant devs == old(devs)
      {
        if |devs[a][k]| != 0 {
          allUnusing := false;
        }
        k := k + 1;
      }
      if allUnusing {
        devs := devs - {a};
      }
    }

    // CSRx_closeReg, closeRegAck, closeReqAck
    method Close(gateway: nat, id: nat, slot: Slot, cb: Callback)
      requires Valid()
      modifies this
      ensures Valid()
      ensures forall a, t | SlotOk(t) ::
        Bound(a, t) == if Names(gateway, id, slot, a, t) then Sweep(old(Bound(a, t)), cb) else old(Bound(a, t))
    {
      if !Legal(gateway, id, slot) {
        return;
      }
      var a, k := AddressOf(gateway, id), Index(slot);
      if a in devs && cb in devs[a][k] {
        ghost var before := devs[a];
        var dev := devs[a][k := Sweep(devs[a][k], cb)];
        devs := devs[a := dev];
        forall t | SlotOk(t) && t != slot
          ensures dev[Index(t)] == before[Index(t)]
        {
          if Index(t) == k { IndexInjective(t, slot); }
        }
        DeviceClose(a);
        assert a !in devs ==> forall t | SlotOk(t) :: dev[Index(t)] == [];
      }
    }

    // CSRx_regCallback and CSRx_ackCallback: the callbacks called, in order.
    method Dispatch(gateway: nat, id: nat, slot: Slot) returns (called: seq<Callback>)
      requires Valid()
      ensures called == if Legal(gateway, id, slot) then Bound(AddressOf(gateway, id), slot) else []
    {
      if !Legal(gateway, id, slot) {
        return [];
      }
      var a := AddressOf(gateway, id);
      called := [];
      if a in devs {
        var list := devs[a][Index(slot)];
        var i := 0;
        while i < |list|
          invariant 0 <= i <= |list| && called == list[..i]
        {
          called := called + [list[i]];
          i := i + 1;
        }
      }
    }
  }

  // ---- broadcast --------------------------------------------------------------------------

  const GATEWAYS := 4
  const REGS := 16
  const BROADCAST_ID := 0x201

  // The broadcast entry points check id 0x201, whose driver is out of range.
  lemma BroadcastNeverBinds(gateway: nat, slot: Slot)
    ensures !Legal(gateway, BROADCAST_ID, slot)
  {
    assert DriverId(BROADCAST_ID) == 0x20;
  }

  // brc_callbacks[4][16]
  class Broadcasts {
    var lists: seq<seq<Callback>>

    ghost predicate Valid()
      reads this
    {
      |lists| == GATEWAYS * REGS
    }

    constructor ()
      ensures Valid() && forall k :: 0 <= k < |lists| ==> lists[k] == []
    {
      lists := seq(GATEWAYS * REGS, i => []);
    }

    // A bind under any id the check lets through.
    method BindAs(gateway: nat, id: nat, reg: nat, cb: Callback)
      requires Valid()
      modifies this
      ensures Valid()
      ensures lists ==
        if Legal(gateway, id, Reg(0, reg))
        then old(lists)[REGS * gateway + reg := old(lists)[REGS * gateway + reg] + [cb]]
        else old(lists)
    {
      if Legal(gateway, id, Reg(0, reg)) {
        var k := REGS * gateway + reg;
        lists := lists[k := lists[k] + [cb]];
      }
    }

    method CloseAs(gateway: nat, id: nat, reg: nat, cb: Callback)
      requires Valid()
      modifies this
      ensures Valid()
      ensures lists ==
        if Legal(gateway, id, Reg(0, reg))
        then old(lists)[REGS * gateway + reg := Sweep(old(lists)[REGS * gateway + reg], cb)]
        else old(lists)
    {
      if Legal(gateway, id, Reg(0, reg)) {
        var k := REGS * gateway + reg;
        lists := lists[k := Sweep(lists[k], cb)];
      }
    }

    // CSRx_bindBrc
    method Bind(gateway: nat, reg: nat, cb: Callback)
      requires Valid()
      modifies this
      ensures Valid() && lists == old(lists)
    {
      BroadcastNeverBinds(gateway, Reg(0, reg));
      BindAs(gateway, BROADCAST_ID, reg, cb);
    }

    // CSRx_closeBrc
    method Close(gateway: nat, reg: nat, cb: Callback)
      requires Valid()
      modifies this
      ensures Valid() && lists == old(lists)
    {
      BroadcastNeverBinds(gateway, Reg(0, reg));
      CloseAs(gateway, BROADCAST_ID, reg, cb);
    }

    // CSRx_brcCallback: the callbacks called, in order.
    method Dispatch(gateway: nat, id: nat, reg: nat) returns (called: seq<Callback>)
      requires Valid()
      ensures called == if Legal(gateway, id, Reg(0, reg)) then lists[REGS * gateway + reg] else []
    {
      called := [];
      if Legal(gateway, id, Reg(0, reg)) {
        var list := lists[REGS * gateway + reg];
        for i := 0 to |list|
          invariant called == list[..i]
        {
          called := called + [list[i]];
        }
      }
    }
  }

  // Whatever is bound and closed, a broadcast frame calls nobody.
  method BroadcastHistory(calls: seq<Call>, gateway: nat, id: nat, reg: nat) returns (called: seq<Callback>)
    ensures called == []
  {
    var b := new Broadcasts();
    for i := 0 to |calls|
      invariant b.Valid() && forall k :: 0 <= k < |b.lists| ==> b.lists[k] == []
    {
      var c := calls[i];
      if c.slot.Reg? {
        match c.op {
          case BindOp(cb) => b.Bind(c.gateway, c.slot.reg, cb);
          case CloseOp(cb) => b.Close(c.gateway, c.slot.reg, cb);
        }
      }
    }
    called := b.Dispatch(gateway, id, reg);
  }

  // ---- histories -------------------------------------------------------------------------

  // What a history does to one slot.
  datatype Op = BindOp(cb: Callback) | CloseOp(cb: Callback)

  function After(ops: seq<Op>): seq<Callback> {
    if ops == [] then []
    else
      var s := After(ops[..|ops| - 1]);
      match ops[|ops| - 1]
      case BindOp(cb) => s + [cb]
      case CloseOp(cb) => Sweep(s, cb)
  }

  // Each callback is bound only while it is not bound already.
  ghost predicate BoundOnce(ops: seq<Op>) {
    forall n :: 0 <= n < |ops| && ops[n].BindOp? ==> ops[n].cb !in After(ops[..n])
  }

  ghost predicate ClosedLater(ops: seq<Op>, i: nat) {
    i < |ops| && exists j :: i < j < |ops| && ops[j] == CloseOp(ops[i].cb)
  }

  // The callbacks bound and not closed since, in the order of their binds.
  ghost function Live(ops: seq<Op>, n: nat): seq<Callback>
    requires n <= |ops|
  {
    if n == 0 then []
    else Live(ops, n - 1) + LiveAt(ops, n - 1)
  }

  ghost function LiveAt(ops: seq<Op>, i: nat): seq<Callback>
    requires i < |ops|
  {
    if ops[i].BindOp? && !ClosedLater(ops, i) then [ops[i].cb] else []
  }

  lemma {:induction false} WithoutConcat(s: seq<Callback>, t: seq<Callback>, cb: Callback)
    ensures Without(s + t, cb) == Without(s, cb) + Without(t, cb)
  {
    if s == [] {
      assert s + t == t;
    } else {
      assert (s + t)[0] == s[0] && (s + t)[1..] == s[1..] + t;
      WithoutConcat(s[1..], t, cb);
    }
  }

  lemma LiveAtGrows(ops: seq<Op>, op: Op, i: nat)
    requires i < |ops|
    ensures LiveAt(ops + [op], i) == if op.BindOp? then LiveAt(ops, i) else Without(LiveAt(ops, i), op.cb)
  {
    var all := ops + [op];
    assert all[|ops|] == op && forall j :: 0 <= j < |ops| ==> all[j] == ops[j];
    assert ClosedLater(all, i) <==> ClosedLater(ops, i) || op == CloseOp(ops[i].cb);
    assert [ops[i].cb][1..] == [];
  }

  lemma {:induction false} LiveGrows(ops: seq<Op>, op: Op, n: nat)
    requires n <= |ops|
    ensures Live(ops + [op], n) == if op.BindOp? then Live(ops, n) else Without(Live(ops, n), op.cb)
  {
    if n > 0 {
      LiveGrows(ops, op, n - 1);
      LiveAtGrows(ops, op, n - 1);
      var before, last := Live(ops, n - 1), LiveAt(ops, n - 1);
      assert Live(ops, n) == before + last;
      assert Live(ops + [op], n) == Live(ops + [op], n - 1) + LiveAt(ops + [op], n - 1);
      if op.CloseOp? {
        WithoutConcat(before, last, op.cb);
      }
    }
  }

  lemma {:induction false} WithoutKeepsNoDup(s: seq<Callback>, cb: Callback)
    requires NoDup(s)
    ensures NoDup(Without(s, cb)) && forall x :: x in Without(s, cb) ==> x in s
  {
    if s != [] {
      WithoutKeepsNoDup(s[1..], cb);
      assert forall x :: x in s[1..] ==> x != s[0];
      var w := Without(s[1..], cb);
      forall i, j | 0 <= i < j < 1 + |w|
        ensures ([s[0]] + w)[i] != ([s[0]] + w)[j]
      {
        assert w[j - 1] in w;
      }
    }
  }

  lemma NoDupSweeps(s: seq<Callback>, cb: Callback)
    requires NoDup(s)
    ensures Sweep(s, cb) == Without(s, cb)
  {
    SweepExactly(s, cb);
  }

  // After any history that binds each callback at most once at a time, the list holds
  // exactly the callbacks bound and not closed since, in bind order.
  lemma {:induction false} RegistryIsLive(ops: seq<Op>)
    requires BoundOnce(ops)
    ensures After(ops) == Live(ops, |ops|) && NoDup(After(ops))
  {
    if ops != [] {
      var n := |ops| - 1;
      var head, op := ops[..n], ops[n];
      assert ops == head + [op];
      assert BoundOnce(head) by {
        forall k | 0 <= k < |head| && head[k].BindOp?
          ensures head[k].cb !in After(head[..k])
        {
          assert head[..k] == ops[..k] && head[k] == ops[k];
        }
      }
      RegistryIsLive(head);
      LiveGrows(head, op, n);
      assert !ClosedLater(ops, n);
      if op.CloseOp? {
        NoDupSweeps(After(head), op.cb);
        WithoutKeepsNoDup(After(head), op.cb);
      }
    }
  }

  // No close meets two copies of its callback in a row.
  ghost predicate ClosesApart(ops: seq<Op>) {
    forall n :: 0 <= n < |ops| && ops[n].CloseOp? ==> !Adjacent(After(ops[..n]), ops[n].cb)
  }

  ghost predicate LiveNow(ops: seq<Op>) { After(ops) == Live(ops, |ops|) }

  ghost predicate AlwaysLive(ops: seq<Op>) {
    forall n :: 0 <= n <= |ops| ==> LiveNow(ops[..n])
  }

  lemma AfterGrows(head: seq<Op>, op: Op)
    ensures After(head + [op]) == if op.BindOp? then After(head) + [op.cb] else Sweep(After(head), op.cb)
  {
    assert (head + [op])[..|head|] == head;
  }

  lemma LiveEnds(head: seq<Op>, op: Op)
    ensures Live(head + [op], |head| + 1) ==
      if op.BindOp? then Live(head, |head|) + [op.cb] else Without(Live(head, |head|), op.cb)
  {
    LiveGrows(head, op, |head|);
    assert !ClosedLater(head + [op], |head|);
  }

  lemma LiveStep(head: seq<Op>, op: Op)
    requires LiveNow(head)
    ensures LiveNow(head + [op]) <==> (op.CloseOp? ==> !Adjacent(After(head), op.cb))
  {
    AfterGrows(head, op);
    LiveEnds(head, op);
    if op.CloseOp? { SweepExactly(After(head), op.cb); }
  }

  // At every point of a history the list is the callbacks bound and not closed since if and only if
  // no close meets adjacent copies.
  lemma {:induction false} LiveExactly(ops: seq<Op>)
    ensures AlwaysLive(ops) <==> ClosesApart(ops)
  {
    if ops == [] {
      assert ops[..0] == [] && LiveNow([]);
    } else {
      var head, op := ops[..|ops| - 1], ops[|ops| - 1];
      assert ops == head + [op];
      LiveExactly(head);
      LiveExtends(head, op);
    }
  }

  lemma LiveExtends(head: seq<Op>, op: Op)
    requires AlwaysLive(head) <==> ClosesApart(head)
    ensures AlwaysLive(head + [op]) <==> ClosesApart(head + [op])
  {
    PrefixLive(head, op);
    PrefixApart(head, op);
    if AlwaysLive(head) {
      assert head[..|head|] == head && LiveNow(head[..|head|]);
      LiveStep(head, op);
    }
  }

  lemma Prefix(head: seq<Op>, op: Op, n: nat)
    requires n <= |head|
    ensures (head + [op])[..n] == head[..n]
  {
  }

  lemma PrefixLive(head: seq<Op>, op: Op)
    ensures AlwaysLive(head + [op]) <==> AlwaysLive(head) && LiveNow(head + [op])
  {
    var ops := head + [op];
    assert ops[..|ops|] == ops;
    if AlwaysLive(ops) {
      assert LiveNow(ops[..|ops|]);
      forall n | 0 <= n <= |head| ensures LiveNow(head[..n]) {
        Prefix(head, op, n);
        assert LiveNow(ops[..n]);
      }
    }
    if AlwaysLive(head) && LiveNow(ops) {
      forall n | 0 <= n <= |ops| ensures LiveNow(ops[..n]) {
        if n <= |head| {
          Prefix(head, op, n);
          assert LiveNow(head[..n]);
        }
      }
    }
  }

  lemma PrefixApart(head: seq<Op>, op: Op)
    ensures ClosesApart(head + [op]) <==> ClosesApart(head) && (op.CloseOp? ==> !Adjacent(After(head), op.cb))
  {
    var ops := head + [op];
    forall n | 0 <= n < |head| ensures head[..n] == ops[..n] && head[n] == ops[n] {
      Prefix(head, op, n);
    }
    Prefix(head, op, |head|);
    assert head[..|head|] == head && ops[|head|] == op;
  }

  // A call to the registry: what it does, and where.
  datatype Call = Call(op: Op, gateway: nat, id: nat, slot: Slot)

  // The part of a history that names one slot.
  function Project(calls: seq<Call>, a: Address, t: Slot): seq<Op> {
    if calls == [] then []
    else
      var c := calls[|calls| - 1];
      Project(calls[..|calls| - 1], a, t) + if Names(c.gateway, c.id, c.slot, a, t) then [c.op] else []
  }

  lemma ProjectGrows(calls: seq<Call>, i: nat, a: Address, t: Slot)
    requires i < |calls|
    ensures After(Project(calls[..i + 1], a, t)) ==
      var before := After(Project(calls[..i], a, t));
      if !Names(calls[i].gateway, calls[i].id, calls[i].slot, a, t) then before
      else if calls[i].op.BindOp? then before + [calls[i].op.cb]
      else Sweep(before, calls[i].op.cb)
  {
    assert calls[..i + 1][..i] == calls[..i];
    var head := Project(calls[..i], a, t);
    assert (head + [calls[i].op])[..|head|] == head;
    assert head + [] == head;
  }

  // A whole history on an empty registry leaves at every slot what the slot's own part of
  // the history leaves there.
  method History(calls: seq<Call>) returns (r: Registry)
    ensures fresh(r) && r.Valid()
    ensures forall a, t | SlotOk(t) :: r.Bound(a, t) == After(Project(calls, a, t))
  {
    r := new Registry();
    for i := 0 to |calls|
      invariant fresh(r) && r.Valid()
      invariant forall a, t | SlotOk(t) :: r.Bound(a, t) == After(Project(calls[..i], a, t))
    {
      var c := calls[i];
      match c.op {
        case BindOp(cb) => r.Bind(c.gateway, c.id, c.slot, cb);
        case CloseOp(cb) => r.Close(c.gateway, c.id, c.slot, cb);
      }
      forall a, t | SlotOk(t)
        ensures r.Bound(a, t) == After(Project(calls[..i + 1], a, t))
      {
        ProjectGrows(calls, i, a, t);
      }
    }
    assert calls[..|calls|] == calls;
  }

  // A call that reaches what a frame to this gateway, id and slot reaches.
  predicate Addressed(c: Call, gateway: nat, id: nat, slot: Slot) {
    && c.gateway == gateway <= 3
    && c.id % 0x1000 == id % 0x1000 && 0x010 <= id % 0x1000 <= 0x1FF
    && c.slot == slot && slot.channel <= 1 && (slot.Reg? ==> slot.reg <= 15)
  }

  function Told(calls: seq<Call>, gateway: nat, id: nat, slot: Slot): seq<Op> {
    if calls == [] then []
    else
      var c := calls[|calls| - 1];
      Told(calls[..|calls| - 1], gateway, id, slot) + if Addressed(c, gateway, id, slot) then [c.op] else []
  }

  lemma {:induction false} ProjectIsTold(calls: seq<Call>, gateway: nat, id: nat, slot: Slot)
    ensures Told(calls, gateway, id, slot) ==
      if Legal(gateway, id, slot) then Project(calls, AddressOf(gateway, id), slot) else []
  {
    LegalInNumbers(gateway, id, slot);
    if calls != [] {
      var c := calls[|calls| - 1];
      ProjectIsTold(calls[..|calls| - 1], gateway, id, slot);
      SameRecord(c.gateway, c.id, gateway, id);
      LegalInNumbers(c.gateway, c.id, c.slot);
    }
  }

  // A frame that follows any history calls exactly what the binds and closes addressed like it leave: the
  // callbacks bound and not closed since, in bind order, provided no close there met adjacent copies.
  method DispatchAfter(calls: seq<Call>, gateway: nat, id: nat, slot: Slot) returns (called: seq<Callback>)
    ensures var ops := Told(calls, gateway, id, slot);
      called == After(ops) && (ClosesApart(ops) ==> called == Live(ops, |ops|))
  {
    var r := History(calls);
    called := r.Dispatch(gateway, id, slot);
    ghost var ops := Told(calls, gateway, id, slot);
    ProjectIsTold(calls, gateway, id, slot);
    LiveExactly(ops);
    assert ops[..|ops|] == ops;
  }

  // A callback bound once is called by exactly the frames to the same gateway, id and slot.
  method CalledWhereBound(cb: Callback, bound: Call, gateway: nat, id: nat, slot: Slot) returns (called: seq<Callback>)
    requires bound.op == BindOp(cb)
    ensures called == if Addressed(bound, gateway, id, slot) then [cb] else []
  {
    called := DispatchAfter([bound], gateway, id, slot);
    assert [bound][..0] == [];
    assert [bound.op][..0] == [];
  }
}
