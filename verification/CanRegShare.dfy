/**
 The lock-free double buffer of a shared register: the receive callback fills the
 half that is not current and then flips; a reader copies the whole struct, field by
 field in its order, without a lock.
 */
module CanRegShare {
  import opened Bytes

  // One received value: its length and its four data bytes.
  datatype Message = Message(len: byte, data: seq<byte>)

  predicate MessageOk(m: Message) {
    |m.data| == 4
  }

  // CSRegShare_callbackArg_t. isRevers is 0 or 1 and names the current half.
  datatype Arg = Arg(isRevers: nat, len: seq<byte>, buff: seq<seq<byte>>)

  predicate ArgOk(a: Arg) {
    a.isRevers < 2 && |a.len| == 2 && |a.buff| == 2 && |a.buff[0]| == 4 && |a.buff[1]| == 4
  }

  // What CSRegShare_get returns from a copy.
  function Current(a: Arg): Message
    requires ArgOk(a)
  {
    Message(a.len[a.isRevers], a.buff[a.isRevers])
  }

  // SABOOL_NOT
  function Not(x: nat): nat
    requires x < 2
  {
    1 - x
  }

  // ---- the two parties, one access at a time ------------------------------------------

  // Step number k of a callback run with message m, counted from 0: compute the
  // other half, store the length, store four bytes, flip.
  const WRITES := 7

  // Step number k of the struct copy: is_revers, len[0], len[1], then eight bytes.
  const READS := 11

  datatype State = State(arg: Arg, at: nat, next: nat, copied: nat, copy: Arg)

  predicate StateOk(s: State) {
    ArgOk(s.arg) && ArgOk(s.copy) && s.at <= WRITES && s.next < 2 && s.copied <= READS
  }

  function Write(s: State, m: Message): (t: State)
    requires StateOk(s) && MessageOk(m)
    ensures StateOk(t) && t.copied == s.copied && t.copy == s.copy
  {
    var a := s.arg;
    if s.at == 0 then s.(next := Not(a.isRevers), at := 1)
    else if s.at == 1 then s.(arg := a.(len := a.len[s.next := m.len]), at := 2)
    else if s.at < 6 then
      var i := s.at - 2;
      s.(arg := a.(buff := a.buff[s.next := a.buff[s.next][i := m.data[i]]]), at := s.at + 1)
    else if s.at == 6 then s.(arg := a.(isRevers := s.next), at := 7)
    else s
  }

  function Read(s: State): (t: State)
    requires StateOk(s)
    ensures StateOk(t) && t.arg == s.arg && t.at == s.at && t.next == s.next
  {
    var a, c := s.arg, s.copy;
    if s.copied == 0 then s.(copy := c.(isRevers := a.isRevers), copied := 1)
    else if s.copied < 3 then
      var h := s.copied - 1;
      s.(copy := c.(len := c.len[h := a.len[h]]), copied := s.copied + 1)
    else if s.copied < READS then
      var h, i := (s.copied - 3) / 4, (s.copied - 3) % 4;
      s.(copy := c.(buff := c.buff[h := c.buff[h][i := a.buff[h][i]]]), copied := s.copied + 1)
    else s
  }

  // An interleaving: true lets the callback take its next step, false the reader.
  function Run(s: State, m: Message, schedule: seq<bool>): (t: State)
    requires StateOk(s) && MessageOk(m)
    ensures StateOk(t)
    decreases |schedule|
  {
    if schedule == [] then s
    else Run(if schedule[0] then Write(s, m) else Read(s), m, schedule[1..])
  }

  // ---- one overlapping run ---------------------------------------------------------------

  // The callback's side: the half it found current is untouched; the other half
  // holds as much of m as it has stored; it has flipped iff it has finished.
  ghost predicate WriterInv(s: State, r0: nat, m: Message, old_: Message)
    requires MessageOk(m)
  {
    && StateOk(s) && r0 < 2
    && s.arg.len[r0] == old_.len && s.arg.buff[r0] == old_.data
    && (s.at > 0 ==> s.next == Not(r0))
    && s.arg.isRevers == (if s.at == WRITES then Not(r0) else r0)
    && (s.at >= 2 ==> s.arg.len[Not(r0)] == m.len)
    && forall i | 0 <= i < 4 && i < s.at - 2 :: s.arg.buff[Not(r0)][i] == m.data[i]
  }

  // The reader's side: what it has copied of the half it chose is one message's.
  ghost predicate ReaderInv(s: State, r0: nat, m: Message, old_: Message)
    requires StateOk(s) && MessageOk(m) && MessageOk(old_)
  {
    s.copied > 0 ==>
      var h := s.copy.isRevers;
      var got := if h == r0 then old_ else m;
      && (h != r0 ==> s.at == WRITES)
      && (s.copied > 1 + h ==> s.copy.len[h] == got.len)
      && forall i | 0 <= i < 4 && 3 + 4 * h + i < s.copied :: s.copy.buff[h][i] == got.data[i]
  }

  lemma WriteKeepsInv(s: State, r0: nat, m: Message, old_: Message)
    requires MessageOk(m) && MessageOk(old_) && WriterInv(s, r0, m, old_) && ReaderInv(s, r0, m, old_)
    ensures WriterInv(Write(s, m), r0, m, old_) && ReaderInv(Write(s, m), r0, m, old_)
  {
  }

  lemma ReadKeepsInv(s: State, r0: nat, m: Message, old_: Message)
    requires MessageOk(m) && MessageOk(old_) && WriterInv(s, r0, m, old_) && ReaderInv(s, r0, m, old_)
    ensures WriterInv(Read(s), r0, m, old_) && ReaderInv(Read(s), r0, m, old_)
  {
  }

  lemma {:induction false} RunKeepsInv(s: State, r0: nat, m: Message, old_: Message, schedule: seq<bool>)
    requires MessageOk(m) && MessageOk(old_) && WriterInv(s, r0, m, old_) && ReaderInv(s, r0, m, old_)
    ensures var t := Run(s, m, schedule);
      WriterInv(t, r0, m, old_) && ReaderInv(t, r0, m, old_)
    decreases |schedule|
  {
    if schedule != [] {
      if schedule[0] {
        WriteKeepsInv(s, r0, m, old_);
        RunKeepsInv(Write(s, m), r0, m, old_, schedule[1..]);
      } else {
        ReadKeepsInv(s, r0, m, old_);
        RunKeepsInv(Read(s), r0, m, old_, schedule[1..]);
      }
    }
  }

  // A copy overlapped by at most one callback run, however the two interleave and
  // however far the run had come when the copy began, is never torn: it holds the
  // value before the run, or the run's, and the latter only once the run has finished.
  lemma SnapshotIsWhole(a: Arg, m: Message, junk: Arg, early: seq<bool>, schedule: seq<bool>)
    requires ArgOk(a) && ArgOk(junk) && MessageOk(m)
    requires forall k :: 0 <= k < |early| ==> early[k]
    requires Run(Run(State(a, 0, 0, 0, junk), m, early), m, schedule).copied == READS
    ensures var t := Run(Run(State(a, 0, 0, 0, junk), m, early), m, schedule);
      Current(t.copy) == Current(a) || (Current(t.copy) == m && t.at == WRITES)
  {
    var s0 := State(a, 0, 0, 0, junk);
    var old_ := Current(a);
    RunKeepsInv(s0, a.isRevers, m, old_, early);
    RunKeepsInv(Run(s0, m, early), a.isRevers, m, old_, schedule);
    var t := Run(Run(s0, m, early), m, schedule);
    var h := t.copy.isRevers;
    assert t.copy.buff[h] == if h == a.isRevers then old_.data else m.data;
  }

  // ---- two overlapping runs can tear it ------------------------------------------------------

  // All the steps of one callback run.
  function Callback(s: State, m: Message): State
    requires StateOk(s) && MessageOk(m)
  {
    Run(s.(at := 0), m, [true, true, true, true, true, true, true])
  }

  // After the reader has copied is_revers and the first length, two whole callback
  // runs give it the length of the first value with the data of the third.
  lemma TwoRunsTear(first: Message, second: Message, third: Message, junk: Arg)
    requires MessageOk(first) && MessageOk(second) && MessageOk(third) && ArgOk(junk)
    ensures var a := Arg(0, [first.len, 0], [first.data, [0, 0, 0, 0]]);
      var s1 := Read(Read(State(a, 0, 0, 0, junk)));
      var s2 := Callback(Callback(s1, second), third);
      var t := Run(s2, third, seq(9, i => false));
      t.copied == READS && Current(t.copy) == Message(first.len, third.data)
  {
    var a := Arg(0, [first.len, 0], [first.data, [0, 0, 0, 0]]);
    var s1 := Read(Read(State(a, 0, 0, 0, junk)));
    CallbackStores(s1, second);
    var b := Callback(s1, second);
    CallbackStores(b, third);
    var s2 := Callback(b, third);
    RestOfCopy(s2, third);
  }

  lemma CallbackStores(s: State, m: Message)
    requires StateOk(s) && MessageOk(m)
    ensures var t := Callback(s, m); var n := Not(s.arg.isRevers);
      && StateOk(t) && t.copied == s.copied && t.copy == s.copy
      && t.arg == Arg(n, s.arg.len[n := m.len], s.arg.buff[n := m.data])
  {
    var s0 := s.(at := 0);
    var s1 := Write(s0, m);
    var s2 := Write(s1, m);
    var s3 := Write(s2, m);
    var s4 := Write(s3, m);
    var s5 := Write(s4, m);
    var s6 := Write(s5, m);
    var s7 := Write(s6, m);
    RunTrue(s0, m, 7);
    RunTrue(s1, m, 6);
    RunTrue(s2, m, 5);
    RunTrue(s3, m, 4);
    RunTrue(s4, m, 3);
    RunTrue(s5, m, 2);
    RunTrue(s6, m, 1);
    assert [true, true, true, true, true, true, true] == seq(7, i => true);
    assert seq(0, i => true) == [];
    assert s6.arg.buff[s1.next] == m.data;
    assert s7.arg.buff == s.arg.buff[s1.next := m.data];
  }

  lemma RunTrue(s: State, m: Message, k: nat)
    requires StateOk(s) && MessageOk(m) && k > 0
    ensures Run(s, m, seq(k, i => true)) == Run(Write(s, m), m, seq(k - 1, i => true))
  {
    assert seq(k, i => true)[1..] == seq(k - 1, i => true);
  }

  lemma RestOfCopy(s: State, m: Message)
    requires StateOk(s) && MessageOk(m) && s.copied == 2
    ensures var t := Run(s, m, seq(9, i => false));
      && t.copied == READS && t.copy.isRevers == s.copy.isRevers && t.copy.len[0] == s.copy.len[0]
      && t.copy.buff[0] == s.arg.buff[0]
  {
    var s1 := Read(s);
    var s2 := Read(s1);
    var s3 := Read(s2);
    var s4 := Read(s3);
    var s5 := Read(s4);
    CopyRest(s, m, 9);
    CopyRest(s1, m, 8);
    CopyRest(s2, m, 7);
    CopyRest(s3, m, 6);
    CopyRest(s4, m, 5);
    assert s5.copy.buff[0] == s.arg.buff[0];
    var s6 := Read(s5);
    var s7 := Read(s6);
    var s8 := Read(s7);
    CopyRest(s5, m, 4);
    CopyRest(s6, m, 3);
    CopyRest(s7, m, 2);
    CopyRest(s8, m, 1);
    assert seq(0, i => false) == [];
  }

  lemma CopyRest(s: State, m: Message, k: nat)
    requires StateOk(s) && MessageOk(m) && k > 0
    ensures Run(s, m, seq(k, i => false)) == Run(Read(s), m, seq(k - 1, i => false))
  {
    assert seq(k, i => false)[1..] == seq(k - 1, i => false);
  }

  // ---- exactly how many runs a snapshot stands --------------------------------------------

  predicate MessagesOk(ms: seq<Message>) {
    forall i :: 0 <= i < |ms| ==> MessageOk(ms[i])
  }

  // Callback runs one after another, the first of `ms` under way or about to start: a run that is
  // over is followed by the next message's.
  function RunMany(s: State, ms: seq<Message>, schedule: seq<bool>): (t: State)
    requires StateOk(s) && MessagesOk(ms)
    ensures StateOk(t)
    decreases |schedule|
  {
    if schedule == [] then s
    else if !schedule[0] then RunMany(Read(s), ms, schedule[1..])
    else if s.at == WRITES && |ms| > 1 then RunMany(Write(s.(at := 0), ms[1]), ms[1..], schedule[1..])
    else if s.at < WRITES && ms != [] then RunMany(Write(s, ms[0]), ms, schedule[1..])
    else RunMany(s, ms, schedule[1..])
  }

  lemma {:induction false} OneOfMany(s: State, m: Message, schedule: seq<bool>)
    requires StateOk(s) && MessageOk(m)
    ensures RunMany(s, [m], schedule) == Run(s, m, schedule)
    decreases |schedule|
  {
    if schedule != [] {
      OneOfMany(if schedule[0] then Write(s, m) else Read(s), m, schedule[1..]);
    }
  }

  lemma {:induction false} NoneOfMany(s: State, r0: nat, m: Message, schedule: seq<bool>)
    requires MessageOk(m) && s.at == 0 && WriterInv(s, r0, m, m) && ReaderInv(s, r0, m, m)
    ensures var t := RunMany(s, [], schedule);
      t.at == 0 && WriterInv(t, r0, m, m) && ReaderInv(t, r0, m, m)
    decreases |schedule|
  {
    if schedule != [] {
      if schedule[0] {
        NoneOfMany(s, r0, m, schedule[1..]);
      } else {
        ReadKeepsInv(s, r0, m, m);
        NoneOfMany(Read(s), r0, m, schedule[1..]);
      }
    }
  }

  // Every complete copy made while the runs of `ms` take steps in any interleaving
  // is one message, the one before them or one of theirs.
  ghost predicate AlwaysWhole(k: nat) {
    forall a, junk, ms, schedule :: ArgOk(a) && ArgOk(junk) && MessagesOk(ms) && |ms| == k
      && RunMany(State(a, 0, 0, 0, junk), ms, schedule).copied == READS
      ==> Current(RunMany(State(a, 0, 0, 0, junk), ms, schedule).copy) in [Current(a)] + ms
  }

  lemma FewAreWhole(k: nat)
    requires k <= 1
    ensures AlwaysWhole(k)
  {
    forall a, junk, ms, schedule | ArgOk(a) && ArgOk(junk) && MessagesOk(ms) && |ms| == k
        && RunMany(State(a, 0, 0, 0, junk), ms, schedule).copied == READS
      ensures Current(RunMany(State(a, 0, 0, 0, junk), ms, schedule).copy) in [Current(a)] + ms
    {
      if k == 1 {
        assert ms == [ms[0]];
        WholeAtOne(a, ms[0], junk, schedule);
      } else {
        assert ms == [];
        WholeAtNone(a, junk, schedule);
      }
    }
  }

  lemma WholeAtOne(a: Arg, m: Message, junk: Arg, schedule: seq<bool>)
    requires ArgOk(a) && ArgOk(junk) && MessageOk(m)
    requires RunMany(State(a, 0, 0, 0, junk), [m], schedule).copied == READS
    ensures Current(RunMany(State(a, 0, 0, 0, junk), [m], schedule).copy) in [Current(a)] + [m]
  {
    OneOfMany(State(a, 0, 0, 0, junk), m, schedule);
    assert Run(State(a, 0, 0, 0, junk), m, []) == State(a, 0, 0, 0, junk);
    SnapshotIsWhole(a, m, junk, [], schedule);
  }

  lemma WholeAtNone(a: Arg, junk: Arg, schedule: seq<bool>)
    requires ArgOk(a) && ArgOk(junk)
    requires RunMany(State(a, 0, 0, 0, junk), [], schedule).copied == READS
    ensures Current(RunMany(State(a, 0, 0, 0, junk), [], schedule).copy) == Current(a)
  {
    var m, t := Current(a), RunMany(State(a, 0, 0, 0, junk), [], schedule);
    NoneOfMany(State(a, 0, 0, 0, junk), a.isRevers, m, schedule);
    assert t.copy.buff[t.copy.isRevers] == m.data;
  }

  function Times(k: nat, step: bool): (r: seq<bool>)
    ensures |r| == k && forall i :: 0 <= i < k ==> r[i] == step
  {
    seq(k, i => step)
  }

  lemma {:induction false} ManyWrites(s: State, ms: seq<Message>, k: nat, rest: seq<bool>)
    requires StateOk(s) && MessagesOk(ms) && ms != [] && s.at + k <= WRITES
    ensures RunMany(s, ms, Times(k, true) + rest) == RunMany(Run(s, ms[0], Times(k, true)), ms, rest)
    decreases k
  {
    if k == 0 {
      assert Times(k, true) + rest == rest && Times(k, true) == [];
    } else {
      var steps := Times(k, true) + rest;
      assert steps[0] && steps[1..] == Times(k - 1, true) + rest && Times(k, true)[1..] == Times(k - 1, true);
      ManyWrites(Write(s, ms[0]), ms, k - 1, rest);
    }
  }

  lemma {:induction false} ManyReads(s: State, ms: seq<Message>, m: Message, k: nat)
    requires StateOk(s) && MessagesOk(ms) && MessageOk(m)
    ensures RunMany(s, ms, Times(k, false)) == Run(s, m, Times(k, false))
    decreases k
  {
    if k > 0 {
      assert Times(k, false)[1..] == Times(k - 1, false);
      ManyReads(Read(s), ms, m, k - 1);
    }
  }

  // A whole run from its first step on.
  lemma WholeRun(s: State, ms: seq<Message>, rest: seq<bool>)
    requires StateOk(s) && MessagesOk(ms) && ms != [] && s.at == 0
    ensures RunMany(s, ms, Times(WRITES, true) + rest) == RunMany(Callback(s, ms[0]), ms, rest)
  {
    ManyWrites(s, ms, WRITES, rest);
    assert Times(WRITES, true) == [true, true, true, true, true, true, true] && s.(at := 0) == s;
  }

  lemma NextStarts(s: State, ms: seq<Message>, rest: seq<bool>)
    requires StateOk(s) && MessagesOk(ms) && |ms| > 1 && s.at == WRITES
    ensures RunMany(s, ms, [true] + rest) == RunMany(Write(s.(at := 0), ms[1]), ms[1..], rest)
  {
    assert ([true] + rest)[1..] == rest;
  }

  lemma CallbackStarts(s: State, m: Message)
    requires StateOk(s) && MessageOk(m)
    ensures Callback(s, m) == Run(Write(s.(at := 0), m), m, Times(6, true))
  {
    var run := [true, true, true, true, true, true, true];
    assert run[1..] == Times(6, true);
  }

  // A run that follows a finished one.
  lemma NextRun(s: State, ms: seq<Message>, rest: seq<bool>)
    requires StateOk(s) && MessagesOk(ms) && |ms| > 1 && s.at == WRITES
    ensures RunMany(s, ms, Times(WRITES, true) + rest) == RunMany(Callback(s, ms[1]), ms[1..], rest)
  {
    var s1 := Write(s.(at := 0), ms[1]);
    assert Times(WRITES, true) + rest == [true] + (Times(6, true) + rest);
    NextStarts(s, ms, Times(6, true) + rest);
    FirstWrite(s.(at := 0), ms[1]);
    ManyWrites(s1, ms[1..], 6, rest);
    CallbackStarts(s, ms[1]);
  }

  lemma FirstWrite(s: State, m: Message)
    requires StateOk(s) && MessageOk(m) && s.at == 0
    ensures Write(s, m).at == 1
  {
  }

  // Two whole runs in the middle of the copy.
  function Tearing(): seq<bool> {
    [false, false] + (Times(WRITES, true) + (Times(WRITES, true) + Times(9, false)))
  }

  lemma TwoReads(s: State, ms: seq<Message>, rest: seq<bool>)
    requires StateOk(s) && MessagesOk(ms)
    ensures RunMany(s, ms, [false, false] + rest) == RunMany(Read(Read(s)), ms, rest)
  {
    var steps := [false, false] + rest;
    assert steps[1..] == [false] + rest && steps[1..][1..] == rest;
  }

  lemma TearingTears(first: Message, ms: seq<Message>, junk: Arg)
    requires MessageOk(first) && MessagesOk(ms) && |ms| >= 2 && ArgOk(junk)
    ensures var t := RunMany(State(Arg(0, [first.len, 0], [first.data, [0, 0, 0, 0]]), 0, 0, 0, junk), ms, Tearing());
      t.copied == READS && Current(t.copy) == Message(first.len, ms[1].data)
  {
    var s := State(Arg(0, [first.len, 0], [first.data, [0, 0, 0, 0]]), 0, 0, 0, junk);
    var copying := Times(9, false);
    var late := Times(WRITES, true) + copying;
    var early := Times(WRITES, true) + late;
    var s1 := Read(Read(s));
    TwoReads(s, ms, early);
    WholeRun(s1, ms, late);
    var s2 := Callback(s1, ms[0]);
    CallbackEnds(s1, ms[0]);
    NextRun(s2, ms, copying);
    var s3 := Callback(s2, ms[1]);
    ManyReads(s3, ms[1..], ms[1], 9);
    TwoRunsTear(first, ms[0], ms[1], junk);
    assert copying == seq(9, i => false);
  }

  lemma CallbackEnds(s: State, m: Message)
    requires StateOk(s) && MessageOk(m)
    ensures Callback(s, m).at == WRITES
  {
    WritesCount(s.(at := 0), m, WRITES);
    assert Times(WRITES, true) == [true, true, true, true, true, true, true];
  }

  lemma {:induction false} WritesCount(s: State, m: Message, k: nat)
    requires StateOk(s) && MessageOk(m) && s.at + k <= WRITES
    ensures Run(s, m, Times(k, true)).at == s.at + k
    decreases k
  {
    if k > 0 {
      assert Times(k, true)[1..] == Times(k - 1, true);
      WritesCount(Write(s, m), m, k - 1);
    }
  }

  // Snapshots are whole in every interleaving if and only if at most one callback run overlaps them.
  lemma WholeExactly(k: nat)
    ensures AlwaysWhole(k) <==> k <= 1
  {
    if k <= 1 {
      FewAreWhole(k);
    } else {
      var first, new_ := Message(1, [1, 1, 1, 1]), Message(2, [2, 2, 2, 2]);
      var ms: seq<Message> := seq(k, i => new_);
      var junk := Arg(0, [0, 0], [[0, 0, 0, 0], [0, 0, 0, 0]]);
      TearingTears(first, ms, junk);
      var a := Arg(0, [first.len, 0], [first.data, [0, 0, 0, 0]]);
      var t := RunMany(State(a, 0, 0, 0, junk), ms, Tearing());
      assert Current(t.copy) == Message(1, [2, 2, 2, 2]) && Current(a) == first;
      assert Current(t.copy) !in [Current(a)] + ms;
    }
  }
}
