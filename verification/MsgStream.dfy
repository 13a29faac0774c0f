/**
 The streaming unpacker: a growing buffer in front of the resumable machine. Fed
 in any pieces, with any buffer growth in between, it delivers the objects and
 sizes of decoding the whole stream at once.
 */
module MsgStream {
  import opened Bytes
  import opened MsgPack
  import opened MsgMachine
  import opened MsgUnpack
  import opened Sizes

  datatype Ending = Waiting | Faulted(e: Fault)
  datatype Stream = Stream(objs: seq<(Obj, nat)>, end: Ending)

  // A byte stream decoded at once: its objects with their sizes, up to the first
  // fault or to the end of the input.
  function DecodeStream(s: seq<byte>): Stream {
    match Decode(s, 0)
    case Done(v, n) =>
      var rest := DecodeStream(s[n..]);
      Stream([(v, n)] + rest.objs, rest.end)
    case More => Stream([], Waiting)
    case Fail(e, _) => Stream([], Faulted(e))
  }

  // s is exactly the given objects, one after the other.
  ghost predicate Whole(s: seq<byte>, objs: seq<(Obj, nat)>) {
    if objs == [] then s == []
    else
      var (v, n) := objs[0];
      Decode(s, 0) == Done(v, n) && Whole(s[n..], objs[1..])
  }

  lemma StreamStep(s: seq<byte>, v: Obj, n: nat)
    requires Decode(s, 0) == Done(v, n)
    ensures var rest := DecodeStream(s[n..]); DecodeStream(s) == Stream([(v, n)] + rest.objs, rest.end)
  {
  }

  lemma {:induction false} WholeThen(s: seq<byte>, objs: seq<(Obj, nat)>, t: seq<byte>)
    requires Whole(s, objs)
    ensures DecodeStream(s + t) == Stream(objs + DecodeStream(t).objs, DecodeStream(t).end)
  {
    if objs == [] {
      assert s + t == t;
      assert objs + DecodeStream(t).objs == DecodeStream(t).objs;
    } else {
      var n := objs[0].1;
      DecodeStable(s, t, 0);
      assert (s + t)[n..] == s[n..] + t;
      WholeThen(s[n..], objs[1..], t);
      StreamStep(s + t, objs[0].0, n);
      assert objs + DecodeStream(t).objs == [objs[0]] + (objs[1..] + DecodeStream(t).objs);
    }
  }

  // Bytes behind a fault change nothing.
  lemma {:induction false} FaultStays(s: seq<byte>, x: seq<byte>)
    requires DecodeStream(s).end.Faulted?
    ensures DecodeStream(s + x) == DecodeStream(s)
    decreases |s|
  {
    DecodeStable(s, x, 0);
    var d := Decode(s, 0);
    if d.Done? {
      assert (s + x)[d.n..] == s[d.n..] + x;
      FaultStays(s[d.n..], x);
      StreamStep(s, d.v, d.n);
      StreamStep(s + x, d.v, d.n);
    }
  }

  lemma WholeOne(x: seq<byte>, v: Obj)
    requires Decode(x, 0) == Done(v, |x|)
    ensures Whole(x, [(v, |x|)])
  {
    assert [(v, |x|)][1..] == [] && x[|x|..] == [];
  }

  lemma {:induction false} WholeAppend(s: seq<byte>, objs: seq<(Obj, nat)>, x: seq<byte>, v: Obj)
    requires Whole(s, objs) && Decode(x, 0) == Done(v, |x|)
    ensures Whole(s + x, objs + [(v, |x|)])
  {
    var last := (v, |x|);
    if objs == [] {
      assert s + x == x && objs + [last] == [last];
      WholeOne(x, v);
    } else {
      var n := objs[0].1;
      DecodeStable(s, x, 0);
      assert (s + x)[n..] == s[n..] + x;
      WholeAppend(s[n..], objs[1..], x, v);
      assert (objs + [last])[1..] == objs[1..] + [last] && (objs + [last])[0] == objs[0];
    }
  }

  // The machine m has taken in `current`, `pending` is in the buffer, and if u is
  // what comes next it will do what a fresh machine does on all of it.
  ghost predicate TracksTo(current: seq<byte>, m: Machine, pending: seq<byte>, u: seq<byte>)
    requires Ok(m)
  {
    Resume(Fresh, (current + pending) + u) == Shift(|current|, Resume(m, pending + u))
  }

  ghost predicate Tracks(current: seq<byte>, m: Machine, pending: seq<byte>) {
    Ok(m) && forall u: seq<byte> :: TracksTo(current, m, pending, u)
  }

  lemma TracksFresh(pending: seq<byte>)
    ensures Tracks([], Fresh, pending)
  {
    assert [] + pending == pending;
  }

  lemma TracksFeed(current: seq<byte>, m: Machine, pending: seq<byte>, x: seq<byte>)
    requires Tracks(current, m, pending)
    ensures Tracks(current, m, pending + x)
  {
    forall u: seq<byte>
      ensures TracksTo(current, m, pending + x, u)
    {
      assert TracksTo(current, m, pending, x + u);
      assert (current + (pending + x)) + u == (current + pending) + (x + u);
      assert (pending + x) + u == pending + (x + u);
    }
  }

  lemma TracksRun(current: seq<byte>, m: Machine, pending: seq<byte>)
    requires Tracks(current, m, pending) && Resume(m, pending).Out?
    ensures var r := Resume(m, pending);
      Tracks(current + pending[..r.n], r.m, pending[r.n..])
  {
    var r := Resume(m, pending);
    forall u: seq<byte>
      ensures TracksTo(current + pending[..r.n], r.m, pending[r.n..], u)
    {
      assert TracksTo(current, m, pending, u);
      ResumeContinues(m, pending, u);
      TracksStep(current, m, pending, u, r);
    }
  }

  lemma TracksStep(current: seq<byte>, m: Machine, pending: seq<byte>, u: seq<byte>, r: Run)
    requires Ok(m) && r.Out? && Ok(r.m) && r.n <= |pending|
    requires TracksTo(current, m, pending, u) && Continues(Resume(m, pending + u), r, pending, u)
    ensures TracksTo(current + pending[..r.n], r.m, pending[r.n..], u)
  {
    Reassemble(current, pending, r.n);
    ShiftShift(|current|, r.n, Resume(r.m, pending[r.n..] + u));
  }

  lemma Reassemble(current: seq<byte>, pending: seq<byte>, n: nat)
    requires n <= |pending|
    ensures (current + pending[..n]) + pending[n..] == current + pending
    ensures |current + pending[..n]| == |current| + n
  {
  }

  lemma StreamKept(past: seq<byte>, current: seq<byte>, pending: seq<byte>, n: nat)
    requires n <= |pending|
    ensures past + ((current + pending[..n]) + pending[n..]) == past + (current + pending)
    ensures |current + pending[..n]| == |current| + n
  {
    Reassemble(current, pending, n);
  }

  lemma TracksDecode(current: seq<byte>, m: Machine, pending: seq<byte>)
    requires Tracks(current, m, pending)
    ensures var r := Shift(|current|, Resume(m, pending));
      match Decode(current + pending, 0)
      case Done(v, n) => r == Finish(v, n)
      case More => r.Out?
      case Fail(e, n) => r == Failed(e, n)
  {
    MachineIsDecoder(current + pending);
    assert TracksTo(current, m, pending, []);
    assert (current + pending) + [] == current + pending && pending + [] == pending;
  }

  // The machine refuses the next byte, and that is where the stream has its fault.
  ghost predicate Stuck(past: seq<byte>, out: seq<(Obj, nat)>, current: seq<byte>, m: Machine, pending: seq<byte>) {
    Ok(m)
    && var r := Resume(m, pending);
       r.Failed? && r.n == 1 && DecodeStream(past + (current + pending)) == Stream(out, Faulted(r.e))
  }

  lemma StuckFeed(past: seq<byte>, out: seq<(Obj, nat)>, current: seq<byte>, m: Machine, pending: seq<byte>,
                  x: seq<byte>)
    requires Stuck(past, out, current, m, pending)
    ensures Stuck(past, out, current, m, pending + x)
  {
    ResumeContinues(m, pending, x);
    FaultStays(past + (current + pending), x);
    assert past + (current + pending) + x == past + (current + (pending + x));
  }

  // Where the machine stops says where the stream is: at its next object, at its
  // end, or at its fault.
  lemma NextObject(past: seq<byte>, out: seq<(Obj, nat)>, current: seq<byte>, m: Machine, pending: seq<byte>)
    requires Whole(past, out) && Tracks(current, m, pending) && Resume(m, pending).Finish?
    ensures var r := Resume(m, pending); var x := current + pending[..r.n];
      && Whole(past + x, out + [(r.v, |x|)])
      && var all := DecodeStream(past + (current + pending)).objs;
         |out| < |all| && all[|out|] == (r.v, |x|)
  {
    var r, s := Resume(m, pending), current + pending;
    TracksDecode(current, m, pending);
    WholeThen(past, out, s);
    assert s[..|current| + r.n] == current + pending[..r.n];
    DecodeExact(s, 0);
    WholeAppend(past, out, current + pending[..r.n], r.v);
  }

  lemma NextNone(past: seq<byte>, out: seq<(Obj, nat)>, current: seq<byte>, m: Machine, pending: seq<byte>)
    requires Whole(past, out) && Tracks(current, m, pending) && !Resume(m, pending).Finish?
    ensures DecodeStream(past + (current + pending)) ==
      Stream(out, if Resume(m, pending).Out? then Waiting else Faulted(Resume(m, pending).e))
  {
    TracksDecode(current, m, pending);
    WholeThen(past, out, current + pending);
    assert out + [] == out;
  }

  // The reference count kept in front of the buffer's data.
  const COUNTER_SIZE := 4

  // memcpy between two buffers
  method CopyBytes(to: array<byte>, at: nat, src: array<byte>, start: nat, n: nat)
    requires at + n <= to.Length && start + n <= src.Length && to != src
    modifies to
    ensures to[at..at + n] == src[start..start + n]
  {
    forall j | at <= j < at + n {
      to[j] := src[start + (j - at)];
    }
  }

  class Unpacker {
    var buffer: array<byte>
    var used: nat
    var free: nat
    var off: nat
    var parsed: nat
    const initialBufferSize: nat
    const ctx: Context

    // The bytes of the objects delivered so far, those objects with their sizes,
    // the bytes taken in of the object being read, and whether a fault was reported.
    ghost var past: seq<byte>
    ghost var out: seq<(Obj, nat)>
    ghost var current: seq<byte>
    ghost var failed: bool

    // The buffer: counter, bytes already taken in, pending bytes, free space.
    ghost predicate BufferOk()
      reads this, buffer
    {
      && COUNTER_SIZE <= off <= used && buffer.Length == used + free < SIZE_MOD
      && COUNTER_SIZE <= initialBufferSize < SIZE_MOD
    }

    ghost predicate Valid()
      reads this, buffer, ctx, ctx.stack
    {
      && BufferOk()
      && Whole(past, out)
      && (!failed ==> ctx.Valid() && Tracks(current, ctx.State(), Pending()) && parsed == |current|)
      && (failed && ctx.cs == CS_HEADER ==>
            ctx.Valid() && Stuck(past, out, current, ctx.State(), Pending()) && parsed == |current|)
    }

    // Whether another call may be made: after a fault only one found at a header byte.
    ghost predicate Callable()
      reads this, ctx
    {
      failed ==> ctx.cs == CS_HEADER
    }

    // Bytes in the buffer the machine has not taken in.
    ghost function Pending(): seq<byte>
      reads this, buffer
      requires off <= used <= buffer.Length
    {
      buffer[off..used]
    }

    // Every byte handed to the unpacker so far.
    ghost function Fed(): seq<byte>
      reads this, buffer
      requires off <= used <= buffer.Length
    {
      past + (current + Pending())
    }

    // msgpack_unpacker_init
    constructor (initialSize: nat)
      requires initialSize < SIZE_MOD
      ensures Valid() && !failed && out == [] && Fed() == []
      ensures fresh(buffer) && fresh(ctx) && fresh(ctx.stack)
    {
      var size := if initialSize < COUNTER_SIZE then COUNTER_SIZE else initialSize;
      buffer := new byte[size](_ => 0);
      used, free, off, parsed := COUNTER_SIZE, size - COUNTER_SIZE, COUNTER_SIZE, 0;
      initialBufferSize := size;
      ctx := new Context();
      past, out, current, failed := [], [], [], false;
      new;
      TracksFresh([]);
      assert Pending() == [];
    }

    // Whether `extra` free bytes fit a size_t together with the `kept` ones in front of them. Where
    // they do not, the sum wraps and too small a buffer is made.
    static predicate Sums(extra: nat, kept: nat) {
      extra + kept < SIZE_MOD
    }

    // Whether an expansion by `size` makes the room, as a caller can tell beforehand. A buffer that is
    // done with and not shared is used again from its start.
    predicate Expands(size: nat, shared: bool)
      reads this
      requires COUNTER_SIZE <= off <= used
    {
      if used == off && !shared then size <= free + used - COUNTER_SIZE || Sums(size, COUNTER_SIZE)
      else if off == COUNTER_SIZE then Sums(size, used)
      else Sums(size, used - off + COUNTER_SIZE)
    }

    // realloc to at least twice the size, keeping what fits.
    method Enlarge(size: nat)
      requires BufferOk() && size < SIZE_MOD
      modifies this`buffer, this`free
      ensures fresh(buffer) && (used + size <= buffer.Length <==> Sums(size, used))
      ensures Sums(size, used) ==> BufferOk() && free >= size && Pending() == old(Pending())
    {
      WrapOnce(size + used);
      var next := Doubled(Wrap((used + free) * 2), Wrap(size + used));
      var tmp := new byte[next](_ => 0);
      var kept := if next < used then next else used;
      CopyBytes(tmp, 0, buffer, 0, kept);
      if kept == used {
        assert tmp[off..used] == tmp[0..used][off..] && buffer[off..used] == buffer[0..used][off..];
      }
      buffer := tmp;
      WrapOnce(next + SIZE_MOD - used);
      free := Wrap(next + SIZE_MOD - used);
    }

    // A new buffer that starts with the pending bytes, as far as they fit.
    method Relocate(size: nat)
      requires BufferOk() && size < SIZE_MOD && off > COUNTER_SIZE
      modifies this`buffer, this`used, this`free, this`off
      ensures fresh(buffer) && (used + size <= buffer.Length <==> Sums(size, old(used - off) + COUNTER_SIZE))
      ensures Sums(size, old(used - off) + COUNTER_SIZE) ==>
        BufferOk() && free >= size && Pending() == old(Pending())
    {
      var notParsed := used - off;
      WrapOnce(size + notParsed + COUNTER_SIZE);
      var next := Doubled(initialBufferSize, Wrap(size + notParsed + COUNTER_SIZE));
      var tmp := new byte[next](_ => 0);
      var moved := if next < COUNTER_SIZE + notParsed then next - COUNTER_SIZE else notParsed;
      CopyBytes(tmp, COUNTER_SIZE, buffer, off, moved);
      buffer := tmp;
      used := notParsed + COUNTER_SIZE;
      WrapOnce(next + SIZE_MOD - used);
      free := Wrap(next + SIZE_MOD - used);
      off := COUNTER_SIZE;
    }

    // msgpack_unpacker_expand_buffer. `shared` is whether decoded strings or an
    // older result still refer to the buffer.
    method ExpandBuffer(size: nat, shared: bool)
      requires BufferOk() && size < SIZE_MOD
      modifies this`buffer, this`used, this`free, this`off
      ensures buffer == old(buffer) || fresh(buffer)
      ensures used + size <= buffer.Length <==> old(Expands(size, shared))
      ensures old(Expands(size, shared)) ==> BufferOk() && free >= size && Pending() == old(Pending())
    {
      if used == off && !shared {
        free := free + used - COUNTER_SIZE;
        used := COUNTER_SIZE;
        off := COUNTER_SIZE;
        if free >= size {
          return;
        }
      }
      if off == COUNTER_SIZE {
        Enlarge(size);
      } else {
        Relocate(size);
      }
    }

    // msgpack_unpacker_reserve_buffer
    method ReserveBuffer(size: nat, shared: bool)
      requires BufferOk() && size < SIZE_MOD
      modifies this`buffer, this`used, this`free, this`off
      ensures buffer == old(buffer) || fresh(buffer)
      ensures used + size <= buffer.Length <==> old(size <= free || Expands(size, shared))
      ensures old(size <= free || Expands(size, shared)) ==>
        BufferOk() && free >= size && Pending() == old(Pending())
    {
      if free >= size {
        return;
      }
      ExpandBuffer(size, shared);
    }

    // msgpack_unpacker_buffer_consumed: the caller has put `size` bytes at `used`.
    method BufferConsumed(size: nat)
      requires Valid() && size <= free
      modifies this`used, this`free
      ensures Valid()
      ensures Fed() == old(Fed()) + buffer[old(used)..old(used) + size]
    {
      ghost var pending, x := Pending(), buffer[used..used + size];
      used := used + size;
      free := free - size;
      assert Pending() == pending + x;
      assert past + (current + (pending + x)) == past + (current + pending) + x;
      if !failed {
        TracksFeed(current, ctx.State(), pending, x);
      } else if ctx.cs == CS_HEADER {
        StuckFeed(past, out, current, ctx.State(), pending, x);
      }
    }

    // The caller's copy into msgpack_unpacker_buffer().
    method Write(chunk: seq<byte>)
      requires BufferOk() && |chunk| <= free
      modifies buffer
      ensures Pending() == old(Pending()) && buffer[used..used + |chunk|] == chunk
    {
      forall i | 0 <= i < |chunk| {
        buffer[used + i] := chunk[i];
      }
    }

    // What a caller does with a chunk of input: reserve, copy, announce.
    method Feed(chunk: seq<byte>, shared: bool)
      requires Valid() && |chunk| < SIZE_MOD && (|chunk| <= free || Expands(|chunk|, shared))
      modifies this`buffer, this`used, this`free, this`off, buffer
      ensures Valid() && Fed() == old(Fed()) + chunk
      ensures buffer == old(buffer) || fresh(buffer)
    {
      ReserveBuffer(|chunk|, shared);
      assert Valid() && Fed() == old(Fed());
      Fill(chunk);
    }

    method Fill(chunk: seq<byte>)
      requires Valid() && |chunk| <= free
      modifies this`used, this`free, buffer
      ensures Valid() && Fed() == old(Fed()) + chunk
    {
      Write(chunk);
      assert Valid() && Fed() == old(Fed());
      BufferConsumed(|chunk|);
    }

    // msgpack_unpacker_execute: one run over the pending bytes.
    method Run() returns (ret: int)
      requires BufferOk() && ctx.Valid()
      modifies this`off, this`parsed, ctx, ctx.stack
      ensures BufferOk() && old(off) <= off <= old(used) && parsed == old(parsed) + (off - old(off))
      ensures Pending() == old(Pending())[off - old(off)..]
      ensures match Resume(old(ctx.State()), old(Pending()))
        case Finish(v, n) => ret == 1 && off == old(off) + n && ctx.result == v
        case Out(m, n) => ret == 0 && off == old(off) + n && ctx.Valid() && ctx.State() == m
        case Failed(e, n) => ret == Code(e) && off == old(off) + n - 1
      ensures ret < 0 && ctx.cs == CS_HEADER ==> ctx.Valid() && Refused(Resume(ctx.State(), Pending()), ret)
      ensures ret < 0 && old(ctx.cs) == CS_HEADER && off == old(off) ==> ctx.cs == CS_HEADER
    {
      var begin := off;
      ret, off := ctx.Execute(buffer, used, off);
      parsed := parsed + (off - begin);
      PendingAfter(begin);
    }

    // The run, seen from the stream: it ends with the stream's next object in
    // `current`, or there is none.
    method Step() returns (ret: int)
      requires Valid() && Callable()
      modifies this`off, this`parsed, this`current, this`failed, ctx, ctx.stack
      ensures BufferOk() && Fed() == old(Fed())
      ensures ret == 1 ==> !failed && ctx.stack.Length == MAX_DEPTH && Found(DecodeStream(Fed()))
      ensures ret != 1 ==> Valid() && parsed == |current| && Ended(DecodeStream(Fed()), ret)
      ensures old(failed) ==> failed && Callable()
    {
      ghost var begin, pending, m := off, Pending(), ctx.State();
      ret := Run();
      Account(ret, begin, pending, m);
    }

    // What the run from machine m over the pending bytes means for the stream.
    ghost method Account(ret: int, begin: nat, pending: seq<byte>, m: Machine)
      requires BufferOk() && Whole(past, out) && Ok(m)
      requires begin <= off <= begin + |pending| && Pending() == pending[off - begin..]
      requires if failed
        then Stuck(past, out, current, m, pending) && parsed == |current|
        else Tracks(current, m, pending) && parsed == |current| + (off - begin)
      requires match Resume(m, pending)
        case Finish(v, n) => ret == 1 && n == off - begin && ctx.result == v
        case Out(m', n) => ret == 0 && ctx.Valid() && ctx.State() == m' && n == off - begin
        case Failed(e, n) => ret == Code(e) && off == begin + n - 1
      requires failed ==> ctx.cs == CS_HEADER
      requires ret < 0 && ctx.cs == CS_HEADER ==> ctx.Valid() && Refused(Resume(ctx.State(), Pending()), ret)
      modifies this`current, this`failed
      ensures Fed() == past + (old(current) + pending)
      ensures ret == 1 ==> !failed && Found(DecodeStream(Fed()))
      ensures ret != 1 ==> Valid() && parsed == |current| && Ended(DecodeStream(Fed()), ret)
      ensures old(failed) ==> failed
    {
      if ret == 1 {
        Took(begin, pending, m);
      } else if !failed {
        Stop(ret, begin, pending, m);
      } else {
        Stay(ret, begin, pending, m);
      }
    }

    // What was taken in is the next object of the stream.
    ghost predicate Found(all: Stream)
      reads this, ctx
    {
      && Whole(past + current, out + [(ctx.result, parsed)])
      && |out| < |all.objs| && all.objs[|out|] == (ctx.result, parsed)
    }

    // The stream has no further object, and ends as the code says.
    ghost predicate Ended(all: Stream, ret: int)
      reads this
    {
      && all.objs == out
      && if failed then all.end.Faulted? && ret == Code(all.end.e) else all.end == Waiting && ret == CONTINUE
    }

    // The run ended with an object.
    ghost method Took(begin: nat, pending: seq<byte>, m: Machine)
      requires BufferOk() && Whole(past, out) && !failed && Tracks(current, m, pending)
      requires begin <= off <= begin + |pending| && Pending() == pending[off - begin..]
      requires Resume(m, pending) == Finish(ctx.result, off - begin) && parsed == |current| + (off - begin)
      modifies this`current
      ensures Fed() == past + (old(current) + pending) && Found(DecodeStream(Fed()))
    {
      ghost var taken := current + pending[..off - begin];
      ghost var one := (ctx.result, parsed);
      StreamKept(past, current, pending, off - begin);
      NextObject(past, out, current, m, pending);
      assert one == (Resume(m, pending).v, |taken|);
      assert Whole(past + taken, out + [one]);
      current := taken;
      assert Fed() == past + (taken + pending[off - begin..]);
    }

    // The run ended without one.
    ghost method Stop(ret: int, begin: nat, pending: seq<byte>, m: Machine)
      requires BufferOk() && Whole(past, out) && !failed && Tracks(current, m, pending)
      requires begin <= off <= begin + |pending| && Pending() == pending[off - begin..]
      requires parsed == |current| + (off - begin)
      requires match Resume(m, pending)
        case Finish(_, _) => false
        case Out(m', n) => ret == 0 && ctx.Valid() && ctx.State() == m' && n == off - begin
        case Failed(e, _) => ret == Code(e)
      requires ret < 0 && ctx.cs == CS_HEADER ==> ctx.Valid() && Refused(Resume(ctx.State(), Pending()), ret)
      modifies this`current, this`failed
      ensures Valid() && parsed == |current|
      ensures Fed() == past + (old(current) + pending) && Ended(DecodeStream(Fed()), ret)
    {
      if ret == 0 {
        Rest(begin, pending, m);
      } else {
        Fail(ret, begin, pending, m);
      }
    }

    // The run used up its input.
    ghost method Rest(begin: nat, pending: seq<byte>, m: Machine)
      requires BufferOk() && Whole(past, out) && !failed && Tracks(current, m, pending)
      requires begin <= off <= begin + |pending| && Pending() == pending[off - begin..]
      requires parsed == |current| + (off - begin) && ctx.Valid()
      requires Resume(m, pending) == Out(ctx.State(), off - begin)
      modifies this`current
      ensures Valid() && parsed == |current|
      ensures Fed() == past + (old(current) + pending) && Ended(DecodeStream(Fed()), CONTINUE)
    {
      ghost var taken, rest := current + pending[..off - begin], pending[off - begin..];
      StreamKept(past, current, pending, off - begin);
      NextNone(past, out, current, m, pending);
      TracksRun(current, m, pending);
      assert Tracks(taken, ctx.State(), rest);
      current := taken;
      assert Pending() == rest && Fed() == past + (taken + rest);
    }

    // The run met a fault.
    ghost method Fail(ret: int, begin: nat, pending: seq<byte>, m: Machine)
      requires BufferOk() && Whole(past, out) && !failed && Tracks(current, m, pending)
      requires begin <= off <= begin + |pending| && Pending() == pending[off - begin..]
      requires parsed == |current| + (off - begin)
      requires Resume(m, pending).Failed? && ret == Code(Resume(m, pending).e)
      requires ctx.cs == CS_HEADER ==> ctx.Valid() && Refused(Resume(ctx.State(), Pending()), ret)
      modifies this`current, this`failed
      ensures failed && Valid() && parsed == |current|
      ensures Fed() == past + (old(current) + pending) && Ended(DecodeStream(Fed()), ret)
    {
      ghost var taken, rest := current + pending[..off - begin], pending[off - begin..];
      StreamKept(past, current, pending, off - begin);
      NextNone(past, out, current, m, pending);
      failed := true;
      current := taken;
      assert Pending() == rest && Fed() == past + (taken + rest);
    }

    // The run met the fault of an earlier one.
    lemma Stay(ret: int, begin: nat, pending: seq<byte>, m: Machine)
      requires BufferOk() && Whole(past, out) && failed && Stuck(past, out, current, m, pending) && parsed == |current|
      requires off == begin && Pending() == pending[off - begin..] && ret == Code(Resume(m, pending).e)
      requires ctx.cs == CS_HEADER && ctx.Valid() && Refused(Resume(ctx.State(), Pending()), ret)
      ensures Valid() && Fed() == past + (current + pending) && Ended(DecodeStream(Fed()), ret)
    {
      assert pending[0..] == pending;
    }

    lemma PendingAfter(begin: nat)
      requires begin <= off <= used <= buffer.Length
      ensures Pending() == buffer[begin..used][off - begin..]
    {
    }

    // msgpack_unpacker_next_with_size. In terms of the stream fed so far, whatever
    // its pieces were: the next of its objects with its size, or that the stream
    // ends inside an object, or its fault.
    method Next() returns (ret: int, data: Obj, bytes: nat)
      requires Valid() && Callable()
      modifies this`off, this`parsed, this`past, this`out, this`current, this`failed, ctx, ctx.stack
      ensures Valid() && Fed() == old(Fed())
      ensures var whole := DecodeStream(Fed()); var k := old(|out|);
        if k < |whole.objs| then
          ret == SUCCESS && (data, bytes) == whole.objs[k] && out == old(out) + [(data, bytes)] && !failed
        else if whole.end == Waiting then
          ret == CONTINUE && whole.objs == out == old(out) && bytes == |current| && !failed
        else
          ret == Code(whole.end.e) && whole.objs == out == old(out) && failed
      ensures old(failed) ==> failed && Callable()
    {
      ret := Step();
      data, bytes := Nil, 0;
      if ret == 1 {
        data, bytes := ctx.result, parsed;
        assert past + (current + Pending()) == (past + current) + ([] + Pending());
        Reset();
        return SUCCESS, data, bytes;
      }
      if ret == 0 {
        bytes := parsed;
      }
    }

    // msgpack_unpacker_reset, after an object made of the bytes in `current`.
    method Reset()
      requires BufferOk() && ctx.stack.Length == MAX_DEPTH && !failed
      requires Whole(past + current, out + [(ctx.result, parsed)])
      modifies this`parsed, this`past, this`out, this`current, ctx
      ensures Valid() && current == []
      ensures past == old(past + current) && out == old(out + [(ctx.result, parsed)])
    {
      past, out, current := past + current, out + [(ctx.result, parsed)], [];
      ctx.Init();
      parsed := 0;
      TracksFresh(Pending());
    }
  }

  // A fresh unpacker of four bytes asked for all but four of the addresses makes a buffer of eight.
  method HugeExpansion() returns (u: Unpacker)
    ensures u.used + (SIZE_MOD - 4) > u.buffer.Length
  {
    u := new Unpacker(4);
    u.ExpandBuffer(SIZE_MOD - 4, false);
  }
}
