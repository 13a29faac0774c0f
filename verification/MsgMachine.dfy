/**
 The resumable stack machine of the unpacker as a function of its saved state and
 the bytes it is given, and the proof that it is the recursive decoder with a
 32-slot stack, however the bytes arrive.
 */
module MsgMachine {
  import opened Bytes
  import opened MsgPack

  // Parser states: 0 waits for a header byte, 0x04-0x1f are the low five bits of
  // the header just read, and the last three wait for a payload.
  const CS_HEADER := 0x00
  const ACS_STR_VALUE := 0x20
  const ACS_BIN_VALUE := 0x21
  const ACS_EXT_VALUE := 0x22

  datatype Slot = ArrayItem | MapKey | MapValue

  // An open container: what it holds so far, how many items or pairs are still
  // to come, and the key waiting for its value.
  datatype Frame = Frame(slot: Slot, count: nat, cells: seq<Obj>, key: Obj)

  datatype Machine = Machine(cs: nat, trail: nat, stack: seq<Frame>)

  const Fresh := Machine(CS_HEADER, 0, [])

  // What one header byte, or one complete trail, makes the machine do.
  datatype Action = Push(v: Obj) | Again(cs: nat, trail: nat) | Open(isMap: bool, count: nat) | Bad

  function Shl(k: nat): nat
    requires k < 4
  {
    if k == 0 then 1 else if k == 1 then 2 else if k == 2 then 4 else 8
  }

  // again_fixed_trail_if_zero: an empty payload is complete at once, and an ext
  // payload of size zero is refused by its callback.
  function AgainIfZero(cs: nat, trail: nat): Action {
    if trail > 0 then Again(cs, trail)
    else if cs == ACS_STR_VALUE then Push(Str([]))
    else if cs == ACS_BIN_VALUE then Push(Bin([]))
    else Bad
  }

  // The header switch.
  function Dispatch(b: byte): Action {
    if b <= 0x7f then Push(Pos(b))
    else if 0xe0 <= b then Push(Int(ToSigned(b, 1)))
    else if 0xc0 <= b then
      if b == 0xc0 then Push(Nil)
      else if b == 0xc2 then Push(Bool(false))
      else if b == 0xc3 then Push(Bool(true))
      else if 0xc4 <= b <= 0xc6 then Again(b % 0x20, Shl(b % 4))
      else if 0xc7 <= b <= 0xc9 then Again(b % 0x20, Shl((b + 1) % 4))
      else if 0xca <= b <= 0xd3 then Again(b % 0x20, Shl(b % 4))
      else if 0xd4 <= b <= 0xd7 then AgainIfZero(ACS_EXT_VALUE, Shl(b % 4) + 1)
      else if b == 0xd8 then AgainIfZero(ACS_EXT_VALUE, 16 + 1)
      else if 0xd9 <= b <= 0xdb then Again(b % 0x20, Shl(b % 4 - 1))
      else if 0xdc <= b <= 0xdf then Again(b % 0x20, 2 * Shl(b % 2))
      else Bad
    else if 0xa0 <= b <= 0xbf then AgainIfZero(ACS_STR_VALUE, b % 0x20)
    else if 0x90 <= b <= 0x9f then Open(false, b % 0x10)
    else Open(true, b % 0x10)
  }

  // The trail switch: n is the complete trail of state cs.
  function Trailed(cs: nat, n: seq<byte>): Action
    requires n != []
  {
    var u := Load(n);
    var i := Int(ToSigned(u, |n|));
    if cs == 0x0a then Push(F32(u))
    else if cs == 0x0b then Push(F64(u))
    else if 0x0c <= cs <= 0x0f then Push(Pos(u))
    else if 0x10 <= cs <= 0x13 then Push(i)
    else if 0x14 <= cs <= 0x17 then AgainIfZero(ACS_EXT_VALUE, Shl(cs - 0x14) + 1)
    else if cs == 0x18 then AgainIfZero(ACS_EXT_VALUE, 16 + 1)
    else if 0x19 <= cs <= 0x1b then AgainIfZero(ACS_STR_VALUE, u)
    else if 0x04 <= cs <= 0x06 then AgainIfZero(ACS_BIN_VALUE, u)
    else if 0x07 <= cs <= 0x09 then AgainIfZero(ACS_EXT_VALUE, (u + 1) % WORD)
    else if cs == ACS_STR_VALUE then Push(Str(n))
    else if cs == ACS_BIN_VALUE then Push(Bin(n))
    else if cs == ACS_EXT_VALUE then Push(Ext(ToSigned(n[0], 1), n[1..]))
    else if 0x1c <= cs <= 0x1d then Open(false, u)
    else if 0x1e <= cs <= 0x1f then Open(true, u)
    else Bad
  }

  // ---- the stack -------------------------------------------------------------

  function NewFrame(isMap: bool, count: nat): Frame {
    Frame(if isMap then MapKey else ArrayItem, count, [], Nil)
  }

  function Close(f: Frame): Obj {
    if f.slot.ArrayItem? then Arr(f.cells) else Map(f.cells)
  }

  // One pass through `_push`: the frame after receiving v.
  function Receive(f: Frame, v: Obj): Frame
    requires f.count > 0
  {
    match f.slot
    case ArrayItem => f.(cells := f.cells + [v], count := f.count - 1)
    case MapKey => f.(key := v, slot := MapValue)
    case MapValue => f.(cells := f.cells + [f.key, v], count := f.count - 1, slot := MapKey)
  }

  predicate StackOk(stack: seq<Frame>) {
    forall i :: 0 <= i < |stack| ==> stack[i].count > 0
  }

  // States the machine can be suspended in.
  predicate Ok(m: Machine) {
    |m.stack| <= MAX_DEPTH && Saved(m)
  }

  // ---- runs --------------------------------------------------------------------

  // Finish: an object and the bytes it took. Failed: the bytes looked at,
  // including the one the fault is reported at. Out: the input is used up, with `n` bytes
  // consumed and the state saved for the next call.
  datatype Run = Finish(v: Obj, n: nat) | Out(m: Machine, n: nat) | Failed(e: Fault, n: nat)

  function Shift(k: nat, r: Run): Run {
    match r
    case Finish(v, n) => Finish(v, k + n)
    case Out(m, n) => Out(m, k + n)
    case Failed(e, n) => Failed(e, k + n)
  }

  // At `_header_again`.
  function At(stack: seq<Frame>): Machine {
    Machine(CS_HEADER, 0, stack)
  }

  predicate Saved(m: Machine) {
    StackOk(m.stack) && (m.cs == CS_HEADER <==> m.trail == 0)
  }

  // One call of template_execute on the bytes s.
  function Resume(m: Machine, s: seq<byte>): (r: Run)
    requires Saved(m)
    ensures !r.Out? ==> 1 <= r.n
    ensures r.n <= |s|
    ensures r.Out? && |m.stack| <= MAX_DEPTH ==> Ok(r.m)
    decreases |s|, if m.cs == CS_HEADER then 0 else 3, 0
  {
    if m.cs != CS_HEADER then Act(Again(m.cs, m.trail), m.stack, s)
    else if s == [] then Out(m, 0)
    else Shift(1, Act(Dispatch(s[0]), m.stack, s[1..]))
  }

  // After the element that calls for the action; s is what follows it.
  function Act(a: Action, stack: seq<Frame>, s: seq<byte>): (r: Run)
    requires StackOk(stack)
    requires a.Again? ==> a.trail > 0 && a.cs > 0
    ensures r.n <= |s|
    ensures a.Again? && !r.Out? ==> 1 <= r.n
    ensures r.Out? && |stack| <= MAX_DEPTH ==> Ok(r.m)
    decreases |s|, 2, 0
  {
    match a
    case Push(v) => Deliver(stack, v, s)
    case Again(cs, trail) =>
      if |s| < trail then Out(Machine(cs, trail, stack), 0)
      else Shift(trail, Act(Trailed(cs, s[..trail]), stack, s[trail..]))
    case Open(isMap, count) =>
      if |stack| >= MAX_DEPTH then Failed(TooDeep, 0)
      else if count == 0 then Deliver(stack, Close(NewFrame(isMap, 0)), s)
      else Resume(At(stack + [NewFrame(isMap, count)]), s)
    case Bad => Failed(ParseError, 0)
  }

  // At `_push` with a finished object.
  function Deliver(stack: seq<Frame>, v: Obj, s: seq<byte>): (r: Run)
    requires StackOk(stack)
    ensures r.n <= |s|
    ensures r.Out? && |stack| <= MAX_DEPTH ==> Ok(r.m)
    decreases |s|, 1, |stack|
  {
    if stack == [] then Finish(v, 0)
    else
      var below, f := stack[..|stack| - 1], Receive(stack[|stack| - 1], v);
      if f.count == 0 then Deliver(below, Close(f), s) else Resume(At(below + [f]), s)
  }

  // ---- the machine is the decoder ----------------------------------------------

  ghost predicate Same(r: Run, d: Outcome<Obj>, stack: seq<Frame>, s: seq<byte>)
    requires StackOk(stack) && (d.Done? ==> d.n <= |s|)
  {
    match d
    case Done(v, n) => r == Shift(n, Deliver(stack, v, s[n..]))
    case More => r.Out?
    case Fail(e, n) => r == Failed(e, n)
  }

  // What the machine makes of a header byte and of the word n after it, in the
  // terms of the format table.
  lemma ImmAgrees(b: byte)
    requires FormatOf(b).Imm? || FormatOf(b).Reserved?
    ensures Dispatch(b) == match FormatOf(b) case Imm(v) => Push(v) case _ => Bad
  {
  }

  lemma NumAgrees(b: byte, n: seq<byte>)
    requires FormatOf(b).Num?
    ensures var w := FormatOf(b).width;
      && w > 0 && b % 0x20 > 0
      && Dispatch(b) == Again(b % 0x20, w)
      && (|n| == w ==> Trailed(b % 0x20, n) == Push(Number(FormatOf(b).num, n)))
  {
  }

  lemma BlobDispatched(b: byte)
    requires FormatOf(b).Blob?
    ensures var Blob(blob, w, len) := FormatOf(b);
      if w == 0 then Dispatch(b) == AgainIfZero(PayloadState(blob), PayloadSize(blob, len))
      else b % 0x20 > 0 && Dispatch(b) == Again(b % 0x20, w)
  {
  }

  lemma BlobTrailed(b: byte, n: seq<byte>)
    requires FormatOf(b).Blob? && FormatOf(b).width > 0 && |n| == FormatOf(b).width
    ensures Trailed(b % 0x20, n) == AgainIfZero(PayloadState(FormatOf(b).blob), PayloadSize(FormatOf(b).blob, Load(n)))
  {
    assert 0xc4 <= b <= 0xdb && b % 0x20 == b - 0xc0;
  }

  lemma GroupAgrees(b: byte, n: seq<byte>)
    requires FormatOf(b).Group?
    ensures var Group(isMap, w, len) := FormatOf(b);
      if w == 0 then Dispatch(b) == Open(isMap, len)
      else
        && b % 0x20 > 0
        && Dispatch(b) == Again(b % 0x20, w)
        && (|n| == w ==> Trailed(b % 0x20, n) == Open(isMap, Load(n)))
  {
    if FormatOf(b).width > 0 {
      assert 0xdc <= b <= 0xdf && b % 0x20 == b - 0xc0;
    }
  }

  function PayloadState(blob: BlobKind): nat {
    match blob
    case StrBlob => ACS_STR_VALUE
    case BinBlob => ACS_BIN_VALUE
    case ExtBlob => ACS_EXT_VALUE
  }

  lemma ShiftShift(j: nat, k: nat, r: Run)
    ensures Shift(j, Shift(k, r)) == Shift(j + k, r)
  {
  }

  lemma PayloadTrailed(blob: BlobKind, n: seq<byte>)
    requires n != []
    ensures Trailed(PayloadState(blob), n) == Push(BlobObj(blob, n))
  {
  }

  lemma PayloadIsBlob(blob: BlobKind, len: nat, stack: seq<Frame>, s: seq<byte>, used: nat)
    requires StackOk(stack) && 1 <= used <= |s|
    ensures Same(Shift(used, Act(AgainIfZero(PayloadState(blob), PayloadSize(blob, len)), stack, s[used..])),
                 DecodeBlob(blob, len, s, used), stack, s)
  {
    var size := PayloadSize(blob, len);
    var rest := s[used..];
    if size == 0 {
      assert s[used..used] == [];
    } else if size <= |rest| {
      assert rest[..size] == s[used..used + size];
      assert rest[size..] == s[used + size..];
      PayloadTrailed(blob, rest[..size]);
      ShiftShift(used, size, Deliver(stack, BlobObj(blob, rest[..size]), rest[size..]));
    }
  }

  // Two-phase headers: the word after the header byte, then what it announces.
  lemma AfterWord(cs: nat, width: nat, stack: seq<Frame>, s: seq<byte>)
    requires s != [] && StackOk(stack) && cs > 0 && width > 0
    ensures |s| < 1 + width ==> Act(Again(cs, width), stack, s[1..]).Out?
    ensures |s| >= 1 + width ==>
      Shift(1, Act(Again(cs, width), stack, s[1..])) ==
      Shift(1 + width, Act(Trailed(cs, s[1..1 + width]), stack, s[1 + width..]))
  {
    if |s| >= 1 + width {
      assert s[1..][..width] == s[1..1 + width];
      assert s[1..][width..] == s[1 + width..];
      ShiftShift(1, width, Act(Trailed(cs, s[1..1 + width]), stack, s[1 + width..]));
    }
  }

  // From any header position with |stack| open containers the machine does what
  // the recursive decoder does at that depth, and hands the object to the stack.
  lemma {:induction false} HeaderIsDecode(stack: seq<Frame>, s: seq<byte>)
    requires StackOk(stack)
    ensures Same(Resume(At(stack), s), Decode(s, |stack|), stack, s)
    decreases |s|, 0
  {
    if s != [] {
      match FormatOf(s[0])
      case Imm(v) => ImmAgrees(s[0]);
      case Reserved => ImmAgrees(s[0]);
      case Num(num, width) =>
        NumAgrees(s[0], s[1..]);
        AfterWord(s[0] % 0x20, width, stack, s);
        if |s| >= 1 + width { NumAgrees(s[0], s[1..1 + width]); }
      case Blob(_, _, _) => HeaderIsBlob(stack, s);
      case Group(_, _, _) => HeaderIsGroup(stack, s);
    }
  }

  lemma HeaderRun(stack: seq<Frame>, s: seq<byte>)
    requires StackOk(stack) && s != []
    ensures Dispatch(s[0]).Again? ==> Dispatch(s[0]).trail > 0 && Dispatch(s[0]).cs > 0
    ensures Resume(At(stack), s) == Shift(1, Act(Dispatch(s[0]), stack, s[1..]))
  {
  }

  lemma BlobDecoded(s: seq<byte>, d: nat)
    requires s != [] && FormatOf(s[0]).Blob?
    ensures var Blob(blob, width, len) := FormatOf(s[0]);
      Decode(s, d) == if |s| < 1 + width then More else DecodeBlob(blob, LengthOf(s, width, len), s, 1 + width)
  {
  }

  // A header that holds its own length, and one with a word of it behind.
  lemma BlobAtOnce(stack: seq<Frame>, s: seq<byte>)
    requires StackOk(stack) && s != [] && FormatOf(s[0]).Blob? && FormatOf(s[0]).width == 0
    ensures Same(Resume(At(stack), s), Decode(s, |stack|), stack, s)
  {
    HeaderRun(stack, s);
    BlobDecoded(s, |stack|);
    BlobDispatched(s[0]);
    PayloadIsBlob(FormatOf(s[0]).blob, FormatOf(s[0]).len, stack, s, 1);
  }

  lemma BlobBehindWord(stack: seq<Frame>, s: seq<byte>)
    requires StackOk(stack) && s != [] && FormatOf(s[0]).Blob? && FormatOf(s[0]).width > 0
    ensures Same(Resume(At(stack), s), Decode(s, |stack|), stack, s)
  {
    var Blob(blob, width, len) := FormatOf(s[0]);
    HeaderRun(stack, s);
    BlobDecoded(s, |stack|);
    BlobDispatched(s[0]);
    AfterWord(s[0] % 0x20, width, stack, s);
    if |s| >= 1 + width {
      BlobTrailed(s[0], s[1..1 + width]);
      PayloadIsBlob(blob, Load(s[1..1 + width]), stack, s, 1 + width);
    }
  }

  lemma HeaderIsBlob(stack: seq<Frame>, s: seq<byte>)
    requires StackOk(stack) && s != [] && FormatOf(s[0]).Blob?
    ensures Same(Resume(At(stack), s), Decode(s, |stack|), stack, s)
  {
    if FormatOf(s[0]).width == 0 { BlobAtOnce(stack, s); } else { BlobBehindWord(stack, s); }
  }

  lemma GroupDecoded(s: seq<byte>, d: nat)
    requires s != [] && FormatOf(s[0]).Group?
    ensures var Group(isMap, width, len) := FormatOf(s[0]);
      Decode(s, d) == if |s| < 1 + width then More else DecodeGroup(isMap, LengthOf(s, width, len), s, 1 + width, d)
  {
  }

  lemma {:induction false} HeaderIsGroup(stack: seq<Frame>, s: seq<byte>)
    requires StackOk(stack) && s != [] && FormatOf(s[0]).Group?
    ensures Same(Resume(At(stack), s), Decode(s, |stack|), stack, s)
    decreases |s|, 0, 1
  {
    var Group(isMap, width, len) := FormatOf(s[0]);
    HeaderRun(stack, s);
    GroupDecoded(s, |stack|);
    if width == 0 {
      GroupAgrees(s[0], []);
      OpenIsGroup(isMap, len, stack, s, 1);
    } else {
      GroupAgrees(s[0], []);
      AfterWord(s[0] % 0x20, width, stack, s);
      if |s| >= 1 + width {
        GroupAgrees(s[0], s[1..1 + width]);
        OpenIsGroup(isMap, Load(s[1..1 + width]), stack, s, 1 + width);
      }
    }
  }

  lemma {:induction false} OpenIsGroup(isMap: bool, n: nat, stack: seq<Frame>, s: seq<byte>, used: nat)
    requires StackOk(stack) && 1 <= used <= |s|
    ensures Same(Shift(used, Act(Open(isMap, n), stack, s[used..])), DecodeGroup(isMap, n, s, used, |stack|), stack, s)
    decreases |s|, 0, 0
  {
    var rest, f := s[used..], NewFrame(isMap, n);
    if |stack| < MAX_DEPTH {
      var items := DecodeAll(rest, if isMap then 2 * n else n, |stack| + 1);
      if n > 0 {
        FillIsDecodeAll(stack, f, rest);
        WrappedSame(Resume(At(stack + [f]), rest), items, isMap, n, stack, s, used);
      } else {
        FillEmpty(stack, f, rest);
        WrappedSame(Deliver(stack, Close(f), rest), items, isMap, n, stack, s, used);
      }
    }
  }

  lemma WrappedSame(r: Run, items: Outcome<seq<Obj>>, isMap: bool, n: nat, stack: seq<Frame>, s: seq<byte>, used: nat)
    requires StackOk(stack) && 1 <= used <= |s| && (items.Done? ==> items.n <= |s| - used)
    requires SameFill(r, items, stack, NewFrame(isMap, n), s[used..])
    ensures Same(Shift(used, r), Wrapped(isMap, used, items), stack, s)
  {
    if items.Done? {
      assert s[used..][items.n..] == s[used + items.n..];
      assert [] + items.v == items.v;
    }
  }

  function Remaining(f: Frame): nat
    requires f.count > 0
  {
    match f.slot
    case ArrayItem => f.count
    case MapKey => 2 * f.count
    case MapValue => 2 * f.count - 1
  }

  // The container when its remaining objects are vs.
  function CloseWith(f: Frame, vs: seq<Obj>): Obj {
    match f.slot
    case ArrayItem => Arr(f.cells + vs)
    case MapKey => Map(f.cells + vs)
    case MapValue => Map(f.cells + ([f.key] + vs))
  }

  lemma ReceiveCloses(f: Frame, v: Obj, vs: seq<Obj>)
    requires f.count > 0
    ensures CloseWith(Receive(f, v), vs) == CloseWith(f, [v] + vs)
  {
    assert f.cells + [v] + vs == f.cells + ([v] + vs);
    assert f.cells + [f.key, v] + vs == f.cells + ([f.key] + ([v] + vs));
  }

  ghost predicate SameFill(r: Run, d: Outcome<seq<Obj>>, stack: seq<Frame>, f: Frame, s: seq<byte>)
    requires StackOk(stack) && (d.Done? ==> d.n <= |s|)
  {
    match d
    case Done(vs, k) => r == Shift(k, Deliver(stack, CloseWith(f, vs), s[k..]))
    case More => r.Out?
    case Fail(e, k) => r == Failed(e, k)
  }

  lemma FillMore(r: Run, items: Outcome<seq<Obj>>, stack: seq<Frame>, f: Frame, v: Obj, n: nat, s: seq<byte>)
    requires StackOk(stack) && f.count > 0 && n <= |s| && (items.Done? ==> items.n <= |s| - n)
    requires SameFill(r, items, stack, Receive(f, v), s[n..])
    ensures SameFill(Shift(n, r), Cons(v, n, items), stack, f, s)
  {
    if items.Done? {
      assert s[n..][items.n..] == s[n + items.n..];
      ReceiveCloses(f, v, items.v);
    }
  }

  lemma FillEmpty(stack: seq<Frame>, f: Frame, s: seq<byte>)
    requires StackOk(stack) && !f.slot.MapValue?
    ensures SameFill(Deliver(stack, Close(f), s), Outcome<seq<Obj>>.Done([], 0), stack, f, s)
  {
    assert f.cells + [] == f.cells;
    assert s[0..] == s;
  }

  lemma RemainingAfter(f: Frame, v: Obj)
    requires f.count > 0
    ensures var g := Receive(f, v); if g.count == 0 then Remaining(f) == 1 else Remaining(f) == 1 + Remaining(g)
    ensures Receive(f, v).count == 0 ==> !Receive(f, v).slot.MapValue?
  {
  }

  lemma {:induction false} FillIsDecodeAll(stack: seq<Frame>, f: Frame, s: seq<byte>)
    requires StackOk(stack) && f.count > 0
    ensures SameFill(Resume(At(stack + [f]), s), DecodeAll(s, Remaining(f), |stack| + 1), stack, f, s)
    decreases |s|, 1
  {
    HeaderIsDecode(stack + [f], s);
    DecodeAllStep(s, Remaining(f), |stack| + 1);
    var d := Decode(s, |stack| + 1);
    if d.Done? {
      AfterFirst(stack, f, d.v, d.n, s);
    }
  }

  // The container's next object is there; the rest of them follow.
  lemma {:induction false} AfterFirst(stack: seq<Frame>, f: Frame, v: Obj, n: nat, s: seq<byte>)
    requires StackOk(stack) && f.count > 0 && 1 <= n <= |s|
    ensures StackOk(stack + [f])
    ensures SameFill(Shift(n, Deliver(stack + [f], v, s[n..])),
                     Cons(v, n, DecodeAll(s[n..], Remaining(f) - 1, |stack| + 1)), stack, f, s)
    decreases |s|, 0
  {
    var g, rest := Receive(f, v), s[n..];
    DeliverTop(stack, f, v, rest);
    RemainingAfter(f, v);
    if g.count == 0 {
      FillEmpty(stack, g, rest);
      FillMore(Deliver(stack, Close(g), rest), Outcome<seq<Obj>>.Done([], 0), stack, f, v, n, s);
    } else {
      FillIsDecodeAll(stack, g, rest);
      FillMore(Resume(At(stack + [g]), rest), DecodeAll(rest, Remaining(g), |stack| + 1), stack, f, v, n, s);
    }
  }

  lemma DeliverTop(stack: seq<Frame>, f: Frame, v: Obj, s: seq<byte>)
    requires StackOk(stack) && f.count > 0
    ensures StackOk(stack + [f])
    ensures var g := Receive(f, v);
      Deliver(stack + [f], v, s) == if g.count == 0 then Deliver(stack, Close(g), s) else Resume(At(stack + [g]), s)
  {
    assert (stack + [f])[..|stack|] == stack;
  }

  // Started fresh, the machine finishes, stops for more input or fails exactly as
  // the recursive decoder does, with the same object and the same byte count.
  lemma MachineIsDecoder(s: seq<byte>)
    ensures match Decode(s, 0)
      case Done(v, n) => Resume(Fresh, s) == Finish(v, n)
      case More => Resume(Fresh, s).Out?
      case Fail(e, n) => Resume(Fresh, s) == Failed(e, n)
  {
    HeaderIsDecode([], s);
  }

  // ---- the bytes may come in pieces ------------------------------------------------

  // Cutting the input changes nothing: a finished or failed run ignores what
  // follows, and a suspended one goes on from its saved state with the bytes it
  // left over and the new ones.
  ghost predicate Continues(whole: Run, part: Run, a: seq<byte>, b: seq<byte>)
    requires part.Out? ==> Ok(part.m) && part.n <= |a|
  {
    whole == if part.Out? then Shift(part.n, Resume(part.m, a[part.n..] + b)) else part
  }

  lemma {:induction false} HeaderContinues(stack: seq<Frame>, a: seq<byte>, b: seq<byte>)
    requires StackOk(stack) && |stack| <= MAX_DEPTH
    ensures Continues(Resume(At(stack), a + b), Resume(At(stack), a), a, b)
    decreases |a|, 0, 0
  {
    if a == [] {
      assert a[0..] + b == a + b;
    } else {
      assert (a + b)[1..] == a[1..] + b;
      ActContinues(Dispatch(a[0]), stack, a[1..], b);
      ContinuesShifted(Act(Dispatch(a[0]), stack, a[1..] + b), Act(Dispatch(a[0]), stack, a[1..]), 1, a, b);
    }
  }

  lemma ContinuesShifted(whole: Run, part: Run, k: nat, a: seq<byte>, b: seq<byte>)
    requires k <= |a| && (part.Out? ==> Ok(part.m) && part.n <= |a| - k)
    requires Continues(whole, part, a[k..], b)
    ensures Continues(Shift(k, whole), Shift(k, part), a, b)
  {
    if part.Out? {
      assert a[k..][part.n..] == a[k + part.n..];
    }
  }

  lemma {:induction false} ActContinues(x: Action, stack: seq<Frame>, a: seq<byte>, b: seq<byte>)
    requires StackOk(stack) && |stack| <= MAX_DEPTH
    requires x.Again? ==> x.trail > 0 && x.cs > 0
    ensures Continues(Act(x, stack, a + b), Act(x, stack, a), a, b)
    decreases |a|, 2, 0
  {
    match x
    case Push(v) => DeliverContinues(stack, v, a, b);
    case Again(cs, trail) =>
      if |a| < trail {
        assert a[0..] + b == a + b;
      } else {
        assert (a + b)[..trail] == a[..trail];
        assert (a + b)[trail..] == a[trail..] + b;
        var y := Trailed(cs, a[..trail]);
        ActContinues(y, stack, a[trail..], b);
        ContinuesShifted(Act(y, stack, a[trail..] + b), Act(y, stack, a[trail..]), trail, a, b);
      }
    case Open(isMap, count) =>
      if |stack| < MAX_DEPTH {
        if count == 0 {
          DeliverContinues(stack, Close(NewFrame(isMap, 0)), a, b);
        } else {
          HeaderContinues(stack + [NewFrame(isMap, count)], a, b);
        }
      }
    case Bad =>
  }

  lemma {:induction false} DeliverContinues(stack: seq<Frame>, v: Obj, a: seq<byte>, b: seq<byte>)
    requires StackOk(stack) && |stack| <= MAX_DEPTH
    ensures Continues(Deliver(stack, v, a + b), Deliver(stack, v, a), a, b)
    decreases |a|, 1, |stack|
  {
    if stack != [] {
      var below, f := stack[..|stack| - 1], Receive(stack[|stack| - 1], v);
      if f.count == 0 {
        DeliverContinues(below, Close(f), a, b);
      } else {
        HeaderContinues(below + [f], a, b);
      }
    }
  }

  lemma ResumeContinues(m: Machine, a: seq<byte>, b: seq<byte>)
    requires Ok(m)
    ensures Continues(Resume(m, a + b), Resume(m, a), a, b)
  {
    if m.cs == CS_HEADER {
      assert m == At(m.stack);
      HeaderContinues(m.stack, a, b);
    } else {
      ActContinues(Again(m.cs, m.trail), m.stack, a, b);
    }
  }
}
