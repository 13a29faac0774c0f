/**
 What the transmit rounds guarantee: nothing lost but the oldest skipped frames
 beyond sixteen, the largest pack there is, high priority first, and queues that
 drain.
 */
module CanTxRounds {
  import opened RingQueue
  import opened CanTx

  // ---- conservation -----------------------------------------------------------------

  lemma {:induction false} ScanConserves(q: seq<Frame>, pack: seq<Frame>)
    ensures var r := Scan(q, pack);
      multiset(pack) + multiset(q) == multiset(r.pack) + multiset(r.skipped) + multiset(r.rest)
    decreases |q|
  {
    if q != [] && |pack| < PACK_SIZE {
      assert q == [q[0]] + q[1..];
      if HasId(pack, q[0].id) {
        ScanConserves(q[1..], pack);
        var t, x := Scan(q[1..], pack), multiset{q[0]};
        assert multiset(q) == multiset(q[1..]) + x && multiset(Scan(q, pack).skipped) == multiset(t.skipped) + x;
        assert multiset(pack) + multiset(q) == multiset(pack) + multiset(q[1..]) + x;
        assert multiset(t.pack) + (multiset(t.skipped) + x) + multiset(t.rest) ==
               multiset(t.pack) + multiset(t.skipped) + multiset(t.rest) + x;
      } else {
        ScanConserves(q[1..], pack + [q[0]]);
      }
    }
  }

  lemma {:induction false} ReversedKeeps(s: seq<Frame>)
    ensures multiset(Reversed(s)) == multiset(s)
  {
    if s != [] {
      ReversedKeeps(s[1..]);
      assert s == [s[0]] + s[1..];
    }
  }

  lemma LevelConserves(q: seq<Frame>, pack: seq<Frame>)
    ensures var r := Scan(q, pack);
      multiset(pack) + multiset(q) == multiset(r.pack) + multiset(After(r)) + multiset(Lost(r))
  {
    ScanConserves(q, pack);
    var r := Scan(q, pack);
    var kept := Newest(r.skipped, SKIP_SIZE);
    ReversedKeeps(kept);
    assert Lost(r) + kept == r.skipped;
    assert multiset(After(r)) == multiset(kept) + multiset(r.rest);
    assert multiset(r.skipped) == multiset(Lost(r)) + multiset(kept);
  }

  function LostOf(q: Queues): seq<Frame> {
    Lost(HighScan(q)) + Lost(NormalScan(q))
  }

  // Every frame of the round is sent, still queued, or one of the oldest skipped
  // frames its skip ring had no slot for.
  lemma RoundConserves(q: Queues)
    ensures multiset(q.high) + multiset(q.normal) ==
      multiset(PackOf(q)) + multiset(Next(q).high) + multiset(Next(q).normal) + multiset(LostOf(q))
  {
    LevelConserves(q.high, []);
    LevelConserves(q.normal, HighScan(q).pack);
    assert multiset(LostOf(q)) == multiset(Lost(HighScan(q))) + multiset(Lost(NormalScan(q)));
    Balance(multiset(q.high), multiset(q.normal), multiset(HighScan(q).pack), multiset(PackOf(q)),
            multiset(Next(q).high), multiset(Next(q).normal),
            multiset(Lost(HighScan(q))), multiset(Lost(NormalScan(q))));
  }

  lemma Balance(h: multiset<Frame>, n: multiset<Frame>, ph: multiset<Frame>, p: multiset<Frame>,
                h1: multiset<Frame>, n1: multiset<Frame>, lh: multiset<Frame>, ln: multiset<Frame>)
    requires h == ph + h1 + lh && ph + n == p + n1 + ln
    ensures h + n == p + h1 + n1 + (lh + ln)
  {
    assert h + n == (ph + n) + (h1 + lh);
    assert (p + n1 + ln) + (h1 + lh) == p + h1 + n1 + (lh + ln);
  }

  // A round is lossless if and only if no skip ring overflows.
  lemma LosslessIsUnlost(q: Queues)
    ensures multiset(q.high) + multiset(q.normal) ==
        multiset(PackOf(q)) + multiset(Next(q).high) + multiset(Next(q).normal)
      <==> LostOf(q) == []
    ensures Size(q) == |PackOf(q)| + Size(Next(q)) + |LostOf(q)|
  {
    RoundConserves(q);
    var all := multiset(q.high) + multiset(q.normal);
    var kept := multiset(PackOf(q)) + multiset(Next(q).high) + multiset(Next(q).normal);
    assert |all| == |kept| + |LostOf(q)|;
    if LostOf(q) == [] {
      assert all == kept;
    }
  }

  // Eighteen frames to one driver in the High queue lose one.
  lemma EighteenLoseOne(f: Frame)
    ensures var q := Queues(seq(18, i => f), []);
      LostOf(q) == [f] && PackOf(q) == [f] && |Next(q).high| == 16
  {
    var all := seq(18, i => f);
    assert [] + [all[0]] == [f] && all[0] == f;
    SameIdSkips(all[1..], [f]);
    assert Scan(all, []) == Scanned([f], all[1..], []);
    assert Scan([], [f]).pack == [f];
  }

  lemma {:induction false} SameIdSkips(q: seq<Frame>, pack: seq<Frame>)
    requires 0 < |pack| < PACK_SIZE && forall i :: 0 <= i < |q| ==> q[i].id == pack[0].id
    ensures Scan(q, pack) == Scanned(pack, q, [])
    decreases |q|
  {
    if q != [] {
      SameIdSkips(q[1..], pack);
    }
  }

  // ---- the pack ------------------------------------------------------------------------

  function Ids(s: seq<Frame>): set<nat> {
    set i | 0 <= i < |s| :: s[i].id
  }

  ghost predicate Distinct(pack: seq<Frame>) {
    forall i, j :: 0 <= i < j < |pack| ==> pack[i].id != pack[j].id
  }

  lemma IdsCons(s: seq<Frame>)
    requires s != []
    ensures Ids(s) == {s[0].id} + Ids(s[1..])
  {
    forall x | x in Ids(s)
      ensures x in {s[0].id} + Ids(s[1..])
    {
      var i :| 0 <= i < |s| && s[i].id == x;
      if i > 0 { assert s[1..][i - 1].id == x; }
    }
    forall x | x in Ids(s[1..])
      ensures x in Ids(s)
    {
      var i :| 0 <= i < |s| - 1 && s[1..][i].id == x;
      assert s[i + 1].id == x;
    }
  }

  lemma IdsSnoc(s: seq<Frame>, f: Frame)
    ensures Ids(s + [f]) == Ids(s) + {f.id}
  {
    var t := s + [f];
    assert t[|s|].id == f.id;
    assert forall i :: 0 <= i < |s| ==> t[i] == s[i];
  }

  lemma HasIdIsIn(pack: seq<Frame>, id: nat)
    ensures HasId(pack, id) <==> id in Ids(pack)
  {
  }

  // A scan keeps the pack's ids distinct, takes ids only from the pack and the
  // queue, and stops with all of them unless the pack is full.
  lemma {:induction false} ScanPack(q: seq<Frame>, pack: seq<Frame>)
    requires Distinct(pack) && |pack| <= PACK_SIZE
    ensures var r := Scan(q, pack);
      && Distinct(r.pack) && pack <= r.pack && |r.pack| <= PACK_SIZE
      && Ids(r.pack) <= Ids(pack) + Ids(q)
      && (|r.pack| < PACK_SIZE ==> r.rest == [] && Ids(r.pack) == Ids(pack) + Ids(q))
    decreases |q|
  {
    if q != [] && |pack| < PACK_SIZE {
      IdsCons(q);
      HasIdIsIn(pack, q[0].id);
      if HasId(pack, q[0].id) {
        ScanPack(q[1..], pack);
      } else {
        IdsSnoc(pack, q[0]);
        ScanPack(q[1..], pack + [q[0]]);
      }
    }
  }

  lemma {:induction false} DistinctCount(pack: seq<Frame>)
    requires Distinct(pack)
    ensures |Ids(pack)| == |pack|
  {
    if pack != [] {
      var n := |pack| - 1;
      var front := pack[..n];
      DistinctCount(front);
      assert pack == front + [pack[n]];
      IdsSnoc(front, pack[n]);
      HasIdIsIn(front, pack[n].id);
    }
  }

  lemma SubsetCount(a: set<nat>, b: set<nat>)
    requires a <= b
    ensures |a| <= |b|
  {
    assert b == a + (b - a);
  }

  // The pack has distinct ids and is as large as can be: four frames, or one for
  // every id waiting in the two queues.
  lemma PackIsLargest(q: Queues)
    ensures var pack := PackOf(q); var ids := Ids(q.high) + Ids(q.normal);
      && Distinct(pack)
      && Ids(pack) <= ids
      && |pack| == if |ids| < 4 then |ids| else 4
  {
    ScanPack(q.high, []);
    ScanPack(q.normal, HighScan(q).pack);
    var pack, ids := PackOf(q), Ids(q.high) + Ids(q.normal);
    assert Ids([]) == {};
    DistinctCount(pack);
    SubsetCount(Ids(pack), ids);
  }

  // A Normal frame is in the pack only when every High frame is sent or waits for an
  // id the pack already has; the High frames come first.
  lemma HighGoesFirst(q: Queues)
    ensures HighScan(q).pack <= PackOf(q)
    ensures |PackOf(q)| > |HighScan(q).pack| ==> Ids(q.high) == Ids(HighScan(q).pack) && HighScan(q).rest == []
  {
    ScanPack(q.high, []);
    ScanPack(q.normal, HighScan(q).pack);
    assert Ids([]) == {};
  }

  // ---- which frames a level takes ---------------------------------------------------------

  // The i-th frame is the first of its id, and the id is not taken yet.
  predicate IsNew(p: seq<Frame>, i: nat, taken: set<nat>)
    requires i < |p|
  {
    p[i].id !in taken && forall j :: 0 <= j < i ==> p[j].id != p[i].id
  }

  function News(p: seq<Frame>, taken: set<nat>): seq<Frame> {
    if p == [] then []
    else News(p[..|p| - 1], taken) + if IsNew(p, |p| - 1, taken) then [p[|p| - 1]] else []
  }

  function Others(p: seq<Frame>, taken: set<nat>): seq<Frame> {
    if p == [] then []
    else Others(p[..|p| - 1], taken) + if IsNew(p, |p| - 1, taken) then [] else [p[|p| - 1]]
  }

  lemma IsNewBehind(x: Frame, p: seq<Frame>, i: nat, taken: set<nat>)
    requires i < |p|
    ensures IsNew([x] + p, i + 1, taken) <==> IsNew(p, i, taken + {x.id})
  {
    if IsNew([x] + p, i + 1, taken) {
      assert ([x] + p)[0] == x;
      forall j | 0 <= j < i ensures p[j].id != p[i].id {
        assert ([x] + p)[j + 1] == p[j];
      }
    }
  }

  lemma {:induction false} FirstFrame(x: Frame, p: seq<Frame>, taken: set<nat>)
    ensures News([x] + p, taken) == (if x.id in taken then [] else [x]) + News(p, taken + {x.id})
    ensures Others([x] + p, taken) == (if x.id in taken then [x] else []) + Others(p, taken + {x.id})
    decreases |p|
  {
    var s := [x] + p;
    if p == [] {
      assert s[..0] == [] && News(s[..0], taken) == [] && Others(s[..0], taken) == [];
    } else {
      var n := |p| - 1;
      assert s[..|s| - 1] == [x] + p[..n] && s[|s| - 1] == p[n];
      FirstFrame(x, p[..n], taken);
      IsNewBehind(x, p, n, taken);
      var now := taken + {x.id};
      Regroup(if x.id in taken then [] else [x], News(p[..n], now), if IsNew(p, n, now) then [p[n]] else []);
      Regroup(if x.id in taken then [x] else [], Others(p[..n], now), if IsNew(p, n, now) then [] else [p[n]]);
    }
  }

  lemma Regroup(a: seq<Frame>, b: seq<Frame>, c: seq<Frame>)
    ensures a + b + c == a + (b + c)
  {
  }

  // Of q, a level has looked at all but r.rest: the first frame of every id not in the pack before is
  // packed, in order of arrival, and the others are parked.
  ghost predicate Levelled(q: seq<Frame>, pack: seq<Frame>, r: Scanned) {
    && |r.rest| <= |q|
    && var p := q[..|q| - |r.rest|];
       && q == p + r.rest
       && r.pack == pack + News(p, Ids(pack)) && r.skipped == Others(p, Ids(pack))
  }

  lemma LevelledStep(x: Frame, q: seq<Frame>, pack: seq<Frame>, next: seq<Frame>, t: Scanned, r: Scanned)
    requires next == (if x.id in Ids(pack) then pack else pack + [x]) && Levelled(q, next, t)
    requires r == Scanned(t.pack, (if x.id in Ids(pack) then [x] else []) + t.skipped, t.rest)
    ensures Levelled([x] + q, pack, r)
  {
    var p := q[..|q| - |t.rest|];
    IdsSnoc(pack, x);
    assert Ids(next) == Ids(pack) + {x.id};
    FirstFrame(x, p, Ids(pack));
    Cut(x, q, p, r.rest);
    Regroup(pack, if x.id in Ids(pack) then [] else [x], News(p, Ids(next)));
    assert pack + [] == pack;
  }

  lemma Cut(x: Frame, q: seq<Frame>, p: seq<Frame>, rest: seq<Frame>)
    requires q == p + rest
    ensures ([x] + q)[..|[x] + q| - |rest|] == [x] + p && [x] + q == ([x] + p) + rest
  {
  }

  // A level goes on until four frames are packed or the queue is empty.
  lemma {:induction false} ScanExactly(q: seq<Frame>, pack: seq<Frame>)
    requires |pack| <= 4
    ensures var r := Scan(q, pack);
      Levelled(q, pack, r) && |r.pack| <= 4 && (r.rest != [] ==> |r.pack| == 4)
    decreases |q|
  {
    if q == [] || |pack| >= PACK_SIZE {
      assert q[..|q| - |q|] == [] && q == [] + q;
    } else {
      var x := q[0];
      var next := if HasId(pack, x.id) then pack else pack + [x];
      assert q == [x] + q[1..];
      HasIdIsIn(pack, x.id);
      ScanExactly(q[1..], next);
      LevelledStep(x, q[1..], pack, next, Scan(q[1..], next), Scan(q, pack));
    }
  }

  // Behind the round stand the newest sixteen parked frames, latest first, then the frames not looked at.
  lemma AfterExactly(r: Scanned)
    ensures var n := if |r.skipped| < 16 then |r.skipped| else 16;
      && |After(r)| == n + |r.rest| && After(r)[n..] == r.rest
      && forall i :: 0 <= i < n ==> After(r)[i] == r.skipped[|r.skipped| - 1 - i]
  {
    var kept := Newest(r.skipped, SKIP_SIZE);
    forall i | 0 <= i < |kept| ensures Reversed(kept)[i] == kept[|kept| - 1 - i] {
      ReversedAt(kept, i);
    }
  }

  lemma {:induction false} ReversedAt(s: seq<Frame>, i: nat)
    requires i < |s|
    ensures Reversed(s)[i] == s[|s| - 1 - i]
  {
    if i < |s| - 1 { ReversedAt(s[1..], i); }
  }

  // ---- when a round loses frames --------------------------------------------------------

  // With the ids `taken` in the pack, the first n frames of a queue leave it unfilled.
  predicate Unfilled(q: seq<Frame>, taken: set<nat>, n: nat)
    requires n <= |q|
  {
    |taken + Ids(q[..n])| < PACK_SIZE
  }

  // How many of the first n frames repeat an id taken or seen before.
  function Repeats(q: seq<Frame>, taken: set<nat>, n: nat): int
    requires n <= |q|
  {
    n - |Ids(q[..n]) - taken|
  }

  // Before its ids fill the pack, the queue has at most m repeats.
  ghost predicate FewRepeats(q: seq<Frame>, taken: set<nat>, m: nat) {
    forall n: nat :: n <= |q| && Unfilled(q, taken, n) ==> Repeats(q, taken, n) <= m
  }

  lemma RepeatsHit(q: seq<Frame>, taken: set<nat>, n: nat)
    requires q != [] && q[0].id in taken && n < |q|
    ensures Unfilled(q, taken, n + 1) <==> Unfilled(q[1..], taken, n)
    ensures Repeats(q, taken, n + 1) == Repeats(q[1..], taken, n) + 1
  {
    PrefixIds(q, n);
    assert taken + Ids(q[..n + 1]) == taken + Ids(q[1..][..n]);
    assert Ids(q[..n + 1]) - taken == Ids(q[1..][..n]) - taken;
  }

  lemma RepeatsMiss(q: seq<Frame>, taken: set<nat>, n: nat)
    requires q != [] && q[0].id !in taken && n < |q|
    ensures var more := taken + {q[0].id};
      && (Unfilled(q, taken, n + 1) <==> Unfilled(q[1..], more, n))
      && Repeats(q, taken, n + 1) == Repeats(q[1..], more, n)
  {
    PrefixIds(q, n);
    var more, rest := taken + {q[0].id}, Ids(q[1..][..n]);
    assert taken + Ids(q[..n + 1]) == more + rest;
    assert Ids(q[..n + 1]) - taken == {q[0].id} + (rest - more);
  }

  lemma PrefixIds(q: seq<Frame>, n: nat)
    requires n < |q|
    ensures Ids(q[..n + 1]) == {q[0].id} + Ids(q[1..][..n])
  {
    IdsCons(q[..n + 1]);
    assert q[..n + 1][1..] == q[1..][..n];
  }

  // A scan skips at most m frames exactly when the queue has at most m repeats.
  lemma {:induction false} SkippedAreRepeats(q: seq<Frame>, pack: seq<Frame>, m: nat)
    requires Distinct(pack) && |pack| <= PACK_SIZE
    ensures |Scan(q, pack).skipped| <= m <==> FewRepeats(q, Ids(pack), m)
    decreases |q|
  {
    var taken := Ids(pack);
    DistinctCount(pack);
    assert Ids(q[..0]) == {} && taken + {} == taken;
    if |pack| == PACK_SIZE {
      forall n: nat | n <= |q| ensures !Unfilled(q, taken, n) {
        SubsetCount(taken, taken + Ids(q[..n]));
      }
    } else if q != [] {
      HasIdIsIn(pack, q[0].id);
      if q[0].id in taken {
        HitAreRepeats(q, pack, m);
      } else {
        MissAreRepeats(q, pack, m);
      }
    }
  }

  lemma {:induction false} HitAreRepeats(q: seq<Frame>, pack: seq<Frame>, m: nat)
    requires Distinct(pack) && |pack| < PACK_SIZE && q != [] && HasId(pack, q[0].id) && q[0].id in Ids(pack)
    requires |Ids(pack)| == |pack|
    ensures |Scan(q, pack).skipped| <= m <==> FewRepeats(q, Ids(pack), m)
    decreases |q|, 0
  {
    var taken := Ids(pack);
    assert Ids(q[..0]) == {} && Ids(q[1..][..0]) == {} && taken + {} == taken;
    RepeatsHit(q, taken, 0);
    if m > 0 {
      SkippedAreRepeats(q[1..], pack, m - 1);
      if FewRepeats(q[1..], taken, m - 1) {
        forall n: nat | n <= |q| && Unfilled(q, taken, n) ensures Repeats(q, taken, n) <= m {
          if n > 0 { RepeatsHit(q, taken, n - 1); }
        }
      }
      if FewRepeats(q, taken, m) {
        forall n: nat | n <= |q[1..]| && Unfilled(q[1..], taken, n) ensures Repeats(q[1..], taken, n) <= m - 1 {
          RepeatsHit(q, taken, n);
          assert Unfilled(q, taken, n + 1);
        }
      }
    } else {
      assert Unfilled(q, taken, 1) && Repeats(q, taken, 1) == 1;
    }
  }

  lemma {:induction false} MissAreRepeats(q: seq<Frame>, pack: seq<Frame>, m: nat)
    requires Distinct(pack) && |pack| < PACK_SIZE && q != [] && !HasId(pack, q[0].id) && q[0].id !in Ids(pack)
    ensures |Scan(q, pack).skipped| <= m <==> FewRepeats(q, Ids(pack), m)
    decreases |q|, 0
  {
    var taken, more := Ids(pack), Ids(pack) + {q[0].id};
    assert Ids(q[..0]) == {};
    IdsSnoc(pack, q[0]);
    SkippedAreRepeats(q[1..], pack + [q[0]], m);
    if FewRepeats(q[1..], more, m) {
      forall n: nat | n <= |q| && Unfilled(q, taken, n) ensures Repeats(q, taken, n) <= m {
        if n > 0 { RepeatsMiss(q, taken, n - 1); }
      }
    }
    if FewRepeats(q, taken, m) {
      forall n: nat | n <= |q[1..]| && Unfilled(q[1..], more, n) ensures Repeats(q[1..], more, n) <= m {
        RepeatsMiss(q, taken, n);
        assert Unfilled(q, taken, n + 1);
      }
    }
  }

  // What the waiting queues must be like for a round to lose nothing: few repeats in the High queue,
  // and, unless its ids alone fill the pack, in the Normal queue on top of them.
  ghost predicate FewWaiting(q: Queues) {
    FewRepeats(q.high, {}, SKIP_SIZE)
    && (|Ids(q.high)| < PACK_SIZE ==> FewRepeats(q.normal, Ids(q.high), SKIP_SIZE))
  }

  // A round is lossless if and only if neither queue has more than sixteen frames
  // that repeat an id before the pack is full.
  lemma LosslessExactly(q: Queues)
    ensures multiset(q.high) + multiset(q.normal) ==
        multiset(PackOf(q)) + multiset(Next(q).high) + multiset(Next(q).normal)
      <==> FewWaiting(q)
  {
    LosslessIsUnlost(q);
    assert Ids([]) == {} && {} + Ids(q.high) == Ids(q.high);
    SkippedAreRepeats(q.high, [], SKIP_SIZE);
    ScanPack(q.high, []);
    var pack := HighScan(q).pack;
    DistinctCount(pack);
    if |Ids(q.high)| < PACK_SIZE {
      SubsetCount(Ids(pack), Ids(q.high));
      SkippedAreRepeats(q.normal, pack, SKIP_SIZE);
    } else {
      assert |pack| == PACK_SIZE;
    }
  }

  // ---- draining --------------------------------------------------------------------------

  function Size(q: Queues): nat {
    |q.high| + |q.normal|
  }

  // Rounds with no new arrivals, until the queues are empty; the packs sent.
  function Drain(q: Queues): (packs: seq<seq<Frame>>)
    decreases Size(q)
  {
    if Size(q) == 0 then []
    else
      NextIsSmaller(q);
      [PackOf(q)] + Drain(Next(q))
  }

  function Flat(packs: seq<seq<Frame>>): seq<Frame> {
    if packs == [] then [] else packs[0] + Flat(packs[1..])
  }

  // A round of non-empty queues sends something.
  lemma NextIsSmaller(q: Queues)
    requires Size(q) > 0
    ensures |PackOf(q)| > 0 && Size(Next(q)) <= Size(q) - |PackOf(q)|
    ensures |Next(q).high| <= |q.high| && |Next(q).normal| <= |q.normal|
  {
    ScanSizes(q.high, []);
    ScanSizes(q.normal, HighScan(q).pack);
    FirstIsTaken(q);
  }

  lemma FirstIsTaken(q: Queues)
    requires Size(q) > 0
    ensures |PackOf(q)| > 0
    ensures q.high != [] ==> |HighScan(q).pack| > 0
  {
    if q.high != [] {
      ScanSizes(q.high[1..], [] + [q.high[0]]);
      ScanSizes(q.normal, HighScan(q).pack);
    } else {
      ScanSizes(q.normal[1..], [] + [q.normal[0]]);
    }
  }

  // Whatever the queues, every round sends at least one frame.
  lemma {:induction false} DrainIsShort(q: Queues)
    ensures |Drain(q)| <= Size(q)
    decreases Size(q)
  {
    if Size(q) > 0 {
      NextIsSmaller(q);
      DrainIsShort(Next(q));
    }
  }

  // Queue sizes from which no round can lose a frame.
  predicate SizesOk(high: nat, normal: nat) {
    high <= SKIP_SIZE + 1 && (normal <= SKIP_SIZE || (high == 0 && normal <= SKIP_SIZE + 1))
  }

  lemma SmallIsLossless(q: Queues)
    requires SizesOk(|q.high|, |q.normal|)
    ensures LostOf(q) == []
  {
    ScanSizes(q.high, []);
    ScanSizes(q.normal, HighScan(q).pack);
    if Size(q) > 0 { FirstIsTaken(q); }
  }

  // The rounds send every frame exactly once.
  ghost predicate DrainsWhole(q: Queues) {
    multiset(Flat(Drain(q))) == multiset(q.high) + multiset(q.normal)
  }

  lemma {:induction false} DrainSendsAll(q: Queues)
    requires SizesOk(|q.high|, |q.normal|)
    ensures DrainsWhole(q)
    decreases Size(q)
  {
    if Size(q) > 0 {
      NextIsSmaller(q);
      DrainSendsAll(Next(q));
      RoundConserves(q);
      SmallIsLossless(q);
      var packs := Drain(q);
      assert packs[0] == PackOf(q) && packs[1..] == Drain(Next(q));
      assert multiset(LostOf(q)) == multiset{};
    }
  }

  lemma {:induction false} DrainSendsAtMost(q: Queues)
    ensures |Flat(Drain(q))| <= Size(q)
    ensures Size(q) > 0 ==> |Flat(Drain(q))| <= Size(q) - |LostOf(q)|
    decreases Size(q)
  {
    if Size(q) > 0 {
      NextIsSmaller(q);
      DrainSendsAtMost(Next(q));
      LosslessIsUnlost(q);
      var packs := Drain(q);
      assert packs[0] == PackOf(q) && packs[1..] == Drain(Next(q));
    }
  }

  function Copies(n: nat): (r: seq<Frame>)
    ensures |r| == n && forall i :: 0 <= i < n ==> r[i] == NO_FRAME
  {
    seq(n, i => NO_FRAME)
  }

  // Queues of frames with one id lose some from any larger sizes.
  lemma LargeLose(high: nat, normal: nat)
    requires !SizesOk(high, normal)
    ensures Size(Queues(Copies(high), Copies(normal))) > 0 && LostOf(Queues(Copies(high), Copies(normal))) != []
  {
    var q := Queues(Copies(high), Copies(normal));
    if high == 0 {
      OneIdScan(normal);
    } else {
      OneIdScan(high);
      SameIdSkips(q.normal, [NO_FRAME]);
    }
  }

  lemma OneIdScan(n: nat)
    requires n > 0
    ensures Scan(Copies(n), []) == Scanned([NO_FRAME], Copies(n - 1), [])
  {
    assert Copies(n)[1..] == Copies(n - 1) && [] + [Copies(n)[0]] == [NO_FRAME];
    SameIdSkips(Copies(n - 1), [NO_FRAME]);
  }

  // Without arrivals, all queues of given sizes are sent completely, each frame exactly once,
  // if and only if there are at most 17 High and 16 Normal frames, or 17 Normal ones alone.
  lemma DrainSendsAllExactly(high: nat, normal: nat)
    ensures (forall q: Queues :: |q.high| == high && |q.normal| == normal ==> DrainsWhole(q)) <==>
      high <= 17 && (normal <= 16 || (high == 0 && normal <= 17))
  {
    if SizesOk(high, normal) {
      forall q: Queues | |q.high| == high && |q.normal| == normal ensures DrainsWhole(q) {
        DrainSendsAll(q);
      }
    } else {
      var q := Queues(Copies(high), Copies(normal));
      LargeLose(high, normal);
      DrainSendsAtMost(q);
      assert |multiset(Flat(Drain(q)))| < |multiset(q.high) + multiset(q.normal)|;
      assert !DrainsWhole(q);
    }
  }
}
