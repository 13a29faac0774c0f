/**
 The unpacker: the template context with its in-place 32-slot stack, the streaming
 buffer around it, and the one-shot entry point.
 */
module MsgUnpack {
  import opened Bytes
  import opened MsgPack
  import opened MsgMachine

  // msgpack_unpack_return
  const SUCCESS := 2
  const EXTRA_BYTES := 1
  const CONTINUE := 0
  const PARSE_ERROR := -1
  const NOMEM_ERROR := -2

  function Code(e: Fault): int {
    match e case ParseError => PARSE_ERROR case TooDeep => NOMEM_ERROR
  }

  // A run that refuses the first byte it looks at.
  predicate Refused(r: Run, ret: int) {
    r.Failed? && r.n == 1 && ret == Code(r.e)
  }

  class Context {
    var cs: nat
    var trail: nat
    var top: nat
    const stack: array<Frame>
    // stack[0].obj once a run has finished
    var result: Obj

    ghost predicate Valid()
      reads this, stack
    {
      stack.Length == MAX_DEPTH && top <= MAX_DEPTH && Ok(State())
    }

    ghost function State(): Machine
      reads this, stack
      requires top <= stack.Length
    {
      Machine(cs, if cs == CS_HEADER then 0 else trail, stack[..top])
    }

    constructor ()
      ensures Valid() && State() == Fresh && fresh(stack)
    {
      stack := new Frame[MAX_DEPTH](_ => NewFrame(false, 0));
      cs, trail, top, result := CS_HEADER, 0, 0, Nil;
    }

    method Init()
      requires stack.Length == MAX_DEPTH
      modifies this
      ensures Valid() && State() == Fresh && result == Nil
    {
      cs, trail, top, result := CS_HEADER, 0, 0, Nil;
    }

    // The `_push` loop: hands v to the innermost open container, closing every
    // container this fills. `s` stands for the bytes still to come.
    method Push(v: Obj, ghost s: seq<byte>) returns (finished: bool)
      requires stack.Length == MAX_DEPTH && top <= MAX_DEPTH && StackOk(stack[..top])
      modifies this`top, this`result, stack
      ensures top <= old(top) && StackOk(stack[..top])
      ensures finished ==> top == 0 && Deliver(old(stack[..top]), v, s) == Finish(result, 0)
      ensures !finished ==> Deliver(old(stack[..top]), v, s) == Resume(At(stack[..top]), s)
    {
      var obj := v;
      while top > 0
        invariant top <= old(top) && StackOk(stack[..top])
        invariant Deliver(old(stack[..top]), v, s) == Deliver(stack[..top], obj, s)
      {
        ghost var before := stack[..top];
        var f := Receive(stack[top - 1], obj);
        stack[top - 1] := f;
        assert before[..top - 1] == stack[..top - 1];
        assert stack[..top] == stack[..top - 1] + [f];
        if f.count > 0 {
          return false;
        }
        obj := Close(f);
        top := top - 1;
      }
      result := obj;
      return true;
    }

    // start_container: the frame for a non-empty container goes on the stack.
    method Start(isMap: bool, count: nat) returns (deep: bool, empty: bool)
      requires stack.Length == MAX_DEPTH && top <= MAX_DEPTH && StackOk(stack[..top])
      modifies this`top, stack
      ensures deep <==> old(top) == MAX_DEPTH
      ensures top <= MAX_DEPTH && StackOk(stack[..top])
      ensures !deep ==> (empty <==> count == 0)
      ensures stack[..top] == old(stack[..top]) + if deep || empty then [] else [NewFrame(isMap, count)]
    {
      ghost var before := stack[..top];
      if top >= MAX_DEPTH {
        return true, false;
      }
      stack[top] := NewFrame(isMap, count);
      assert stack[..top] == before;
      if count == 0 {
        return false, true;
      }
      top := top + 1;
      return false, false;
    }

    // Everything a complete element calls for. `next` means `_header_again`.
    method Apply(a: Action, ghost s: seq<byte>) returns (ret: int, next: bool)
      requires stack.Length == MAX_DEPTH && top <= MAX_DEPTH && StackOk(stack[..top]) && !a.Again?
      modifies this`top, this`result, stack
      ensures next ==>
        ret == 0 && top <= MAX_DEPTH && StackOk(stack[..top])
        && Act(a, old(stack[..top]), s) == Resume(At(stack[..top]), s)
      ensures !next ==>
        match Act(a, old(stack[..top]), s)
        case Finish(v, n) => ret == 1 && n == 0 && result == v
        case Out(_, _) => false
        case Failed(e, n) => ret == Code(e) && n == 0
      ensures ret < 0 ==> top <= MAX_DEPTH && stack[..top] == old(stack[..top])
    {
      ghost var st := stack[..top];
      var obj := Nil;
      match a {
        case Bad => return PARSE_ERROR, false;
        case Open(isMap, count) =>
          var deep, empty := Start(isMap, count);
          if deep {
            return NOMEM_ERROR, false;
          }
          if !empty {
            return 0, true;
          }
          obj := Close(NewFrame(isMap, 0));
        case Push(v) => obj := v;
      }
      assert stack[..top] == st && Act(a, st, s) == Deliver(st, obj, s);
      var finished := Push(obj, s);
      return if finished then 1 else 0, !finished;
    }

    // One complete trail: what it calls for, which may be another trail.
    method TakeTrail(data: array<byte>, len: nat, from: nat, ghost st: seq<Frame>) returns (a: Action, p: nat)
      requires cs > 0 && trail > 0 && from + trail <= len <= data.Length && StackOk(st)
      modifies this`cs, this`trail
      ensures p == from + old(trail) && cs > 0
      ensures a.Again? ==> a == Again(cs, trail) && trail > 0
      ensures Act(Again(old(cs), old(trail)), st, data[from..len]) == Shift(p - from, Act(a, st, data[p..len]))
    {
      p := from + trail;
      var n := data[from..p];
      a := Trailed(cs, n);
      TrailTaken(cs, trail, st, data[from..len], n, data[p..len]);
      if a.Again? {
        TrailedStates(cs, a);
        cs, trail := a.cs, a.trail;
      }
    }

    // Reads trails while there are any: `_fixed_trail_again` and the state switch.
    // On return p is just past the element that calls for action a, unless out.
    method Trails(data: array<byte>, len: nat, from: nat, ghost st: seq<Frame>) returns (out: bool, a: Action, p: nat)
      requires cs > 0 && trail > 0 && from <= len <= data.Length && StackOk(st)
      modifies this`cs, this`trail
      ensures from <= p <= len
      ensures var r := Act(Again(old(cs), old(trail)), st, data[from..len]);
        if out then cs > 0 && trail > 0 && r == Out(Machine(cs, trail, st), p - from)
        else cs > 0 && from < p && !a.Again? && r == Shift(p - from, Act(a, st, data[p..len]))
    {
      p := from;
      a := Again(cs, trail);
      ghost var r := Act(a, st, data[from..len]);
      while a.Again?
        invariant from <= p <= len
        invariant cs > 0 && (a.Again? ==> a == Again(cs, trail) && trail > 0)
        invariant !a.Again? ==> from < p
        invariant r == Shift(p - from, Act(a, st, data[p..len]))
        decreases len - p, a.Again?
      {
        if len - p < trail {
          return true, a, p;
        }
        ghost var start := p;
        a, p := TakeTrail(data, len, p, st);
        ShiftShift(start - from, p - start, Act(a, st, data[p..len]));
      }
      return false, a, p;
    }

    // One element: a header byte with its trails, or the trail a suspended run
    // was waiting for.
    method Element(data: array<byte>, len: nat, from: nat) returns (out: bool, a: Action, p: nat)
      requires Valid() && from < len <= data.Length
      modifies this`cs, this`trail
      ensures from <= p <= len
      ensures var r := Resume(old(State()), data[from..len]);
        if out then Valid() && r == Out(State(), p - from)
        else from < p && !a.Again? && r == Shift(p - from, Act(a, stack[..top], data[p..len]))
      ensures !out ==> (cs == CS_HEADER <==> old(cs) == CS_HEADER && p == from + 1)
    {
      ghost var st := stack[..top];
      p := from;
      if cs == CS_HEADER {
        a := Dispatch(data[p]);
        p := p + 1;
        assert data[from..len][1..] == data[p..len];
        if !a.Again? {
          return false, a, p;
        }
        DispatchedStates(data[from], a);
        cs, trail := a.cs, a.trail;
      }
      ghost var mid := p;
      out, a, p := Trails(data, len, p, st);
      if !out {
        ShiftShift(mid - from, p - mid, Act(a, st, data[p..len]));
      }
    }

    // Once around the loop: an element and what it calls for.
    method Turn(data: array<byte>, len: nat, from: nat) returns (more: bool, ret: int, p: nat)
      requires Valid() && from < len <= data.Length
      modifies this, stack
      ensures more ==>
        Valid() && from < p <= len
        && Resume(old(State()), data[from..len]) == Shift(p - from, Resume(State(), data[p..len]))
      ensures !more ==> Stopped(Resume(old(State()), data[from..len]), ret, from, p)
      ensures !more && ret < 0 ==> (cs == CS_HEADER <==> old(cs) == CS_HEADER && p == from)
      ensures !more && ret < 0 && cs == CS_HEADER ==> Valid() && State() == old(State())
    {
      var out, a;
      out, a, p := Element(data, len, from);
      if out {
        return false, 0, p;
      }
      ghost var rest := data[p..len];
      ret, more := Apply(a, rest);
      if !more {
        return false, ret, if ret < 0 then p - 1 else p;
      }
      cs := CS_HEADER;
    }

    // The code and the end offset say how the run from `off` ended.
    ghost predicate Stopped(r: Run, ret: int, off: nat, end: nat)
      reads this, stack
    {
      match r
      case Finish(v, n) => ret == 1 && end == off + n && result == v
      case Out(m, n) => ret == 0 && end == off + n && Valid() && State() == m
      case Failed(e, n) => ret == Code(e) && end == off + n - 1
    }

    // template_execute. Runs over data[off..len] from the saved state.
    method Execute(data: array<byte>, len: nat, off: nat) returns (ret: int, end: nat)
      requires Valid() && off <= len <= data.Length
      modifies this, stack
      ensures match Resume(old(State()), data[off..len])
        case Finish(v, n) => ret == 1 && end == off + n && result == v
        case Out(m, n) => ret == 0 && end == off + n && Valid() && State() == m
        case Failed(e, n) => ret == Code(e) && end == off + n - 1
      ensures ret < 0 && cs == CS_HEADER ==> Valid() && end <= len && Refused(Resume(State(), data[end..len]), ret)
      ensures ret < 0 && old(cs) == CS_HEADER && end == off ==> cs == CS_HEADER
    {
      var p := off;
      ghost var r := Resume(State(), data[off..len]);
      while p != len
        invariant off <= p <= len && Valid()
        invariant r == Shift(p - off, Resume(State(), data[p..len]))
        invariant p == off ==> cs == old(cs)
        decreases len - p
      {
        ghost var start := p;
        var more;
        more, ret, p := Turn(data, len, p);
        if !more {
          return ret, p;
        }
        ShiftShift(start - off, p - start, Resume(State(), data[p..len]));
      }
      assert data[p..len] == [];
      return 0, p;
    }
  }

  // msgpack_unpack: one object from data[off..len] with a context of its own. The
  // offset moves past what was taken in, except on a fault.
  method Unpack(data: array<byte>, len: nat, off: nat) returns (ret: int, end: nat, v: Obj)
    requires len <= data.Length
    ensures len <= off ==> ret == CONTINUE && end == off
    ensures off < len ==>
      match Decode(data[off..len], 0)
      case Done(o, n) => v == o && end == off + n && ret == if end < len then EXTRA_BYTES else SUCCESS
      case More => ret == CONTINUE && end == off + Resume(Fresh, data[off..len]).n
      case Fail(e, _) => ret == Code(e) && end == off
  {
    v := Nil;
    if len <= off {
      return CONTINUE, off, v;
    }
    MachineIsDecoder(data[off..len]);
    var ctx := new Context();
    ret, end := ctx.Execute(data, len, off);
    if ret < 0 {
      return ret, off, v;
    }
    if ret == 0 {
      return CONTINUE, end, v;
    }
    v := ctx.result;
    ret := if end < len then EXTRA_BYTES else SUCCESS;
  }

  // A complete trail is taken and acted on.
  lemma TrailTaken(cs: nat, trail: nat, st: seq<Frame>, s: seq<byte>, n: seq<byte>, rest: seq<byte>)
    requires cs > 0 && trail > 0 && StackOk(st) && trail <= |s| && n == s[..trail] && rest == s[trail..]
    ensures Act(Again(cs, trail), st, s) == Shift(trail, Act(Trailed(cs, n), st, rest))
  {
  }

  lemma TrailedStates(cs: nat, a: Action)
    requires a.Again? && exists n: seq<byte> :: n != [] && Trailed(cs, n) == a
    ensures a.cs > 0 && a.trail > 0
  {
  }

  lemma DispatchedStates(b: byte, a: Action)
    requires a.Again? && a == Dispatch(b)
    ensures a.cs > 0 && a.trail > 0
  {
  }
}
