/**
 Encoding then decoding, for every object the C structs can hold: exactly which
 objects come back, what the others turn into, and that the encoder's form is
 the shortest one.
 */
module MsgRoundTrip {
  import opened Bytes
  import opened MsgPack
  import opened Wrappers

  // ---- header forms --------------------------------------------------------

  // s starts with a blob header of the given kind and length; `head` bytes long.
  ghost predicate BlobHead(s: seq<byte>, blob: BlobKind, n: nat, head: nat) {
    && 1 <= head <= |s|
    && var f := FormatOf(s[0]);
       f.Blob? && f.blob == blob && head == 1 + f.width && LengthOf(s, f.width, f.len) == n
  }

  ghost predicate GroupHead(s: seq<byte>, isMap: bool, n: nat, head: nat) {
    && 1 <= head <= |s|
    && var f := FormatOf(s[0]);
       f.Group? && f.isMap == isMap && head == 1 + f.width && LengthOf(s, f.width, f.len) == n
  }

  // A stored word behind a one-byte header reads back.
  lemma WordBack(h: byte, n: nat, width: nat, rest: seq<byte>)
    requires n < Range(width)
    ensures var s := [h] + Store(n, width) + rest;
      |s| >= 1 + width && s[0] == h && s[1..1 + width] == Store(n, width) && Load(s[1..1 + width]) == n
  {
    LoadStore(n, width);
    var s := [h] + Store(n, width) + rest;
    assert s[1..1 + width] == Store(n, width);
  }

  lemma StrHeadBack(n: nat, rest: seq<byte>)
    requires n < WORD
    ensures BlobHead(PackStrHead(n) + rest, StrBlob, n, |PackStrHead(n)|)
  {
    Ranges();
    if n >= 0x1_0000 { WordBack(0xdb, n, 4, rest); }
    else if n >= 0x100 { WordBack(0xda, n, 2, rest); }
    else if n >= 32 { WordBack(0xd9, n, 1, rest); }
  }

  lemma BinHeadBack(n: nat, rest: seq<byte>)
    requires n < WORD
    ensures BlobHead(PackBinHead(n) + rest, BinBlob, n, |PackBinHead(n)|)
  {
    Ranges();
    if n >= 0x1_0000 { WordBack(0xc6, n, 4, rest); }
    else if n >= 0x100 { WordBack(0xc5, n, 2, rest); }
    else { WordBack(0xc4, n, 1, rest); }
  }

  lemma ExtSizeBack(n: nat, rest: seq<byte>)
    requires n < WORD
    ensures BlobHead(PackExtSize(n) + rest, ExtBlob, n, |PackExtSize(n)|)
  {
    Ranges();
    if n !in {1, 2, 4, 8, 16} {
      if n >= 0x1_0000 { WordBack(0xc9, n, 4, rest); }
      else if n >= 0x100 { WordBack(0xc8, n, 2, rest); }
      else { WordBack(0xc7, n, 1, rest); }
    }
  }

  lemma GroupHeadBack(isMap: bool, n: nat, rest: seq<byte>)
    requires n < WORD
    ensures var h := if isMap then PackMapHead(n) else PackArrHead(n);
      GroupHead(h + rest, isMap, n, |h|)
  {
    Ranges();
    if n >= 0x1_0000 { WordBack(if isMap then 0xdf else 0xdd, n, 4, rest); }
    else if n >= 16 { WordBack(if isMap then 0xde else 0xdc, n, 2, rest); }
  }

  lemma IntBack(i: int, rest: seq<byte>, d: nat)
    requires -(LONG / 2) <= i < LONG
    ensures Decode(PackInt(i) + rest, d) == Done(Int(i), |PackInt(i)|)
  {
    Ranges();
    if -0x20 <= i < 0x80 {
    } else if i >= 0 {
      if i < 0x100 { WordBack(0xcc, i, 1, rest); }
      else if i < 0x1_0000 { WordBack(0xcd, i, 2, rest); }
      else if i < WORD { WordBack(0xce, i, 4, rest); }
      else { WordBack(0xcf, i, 8, rest); }
    } else {
      NegBack(i, rest, d);
    }
  }

  lemma NegBack(i: int, rest: seq<byte>, d: nat)
    requires -(LONG / 2) <= i < -0x20
    ensures Decode(PackInt(i) + rest, d) == Done(Neg(i), |PackInt(i)|)
  {
    Ranges();
    var w := if -0x80 <= i then 1 else if -0x8000 <= i then 2 else if -0x8000_0000 <= i then 4 else 8;
    var h := if w == 1 then 0xd0 else if w == 2 then 0xd1 else if w == 4 then 0xd2 else 0xd3;
    SignedRoundTrip(i, w);
    WordBack(h, Pattern(i, w), w, rest);
    assert PackInt(i) == [h] + Store(Pattern(i, w), w);
  }

  // ---- what a packed object decodes to ---------------------------------------

  // A non-negative value carried under the negative-integer tag comes back positive.
  function Canon(o: Obj): Obj {
    match o
    case Neg(i) => Int(i)
    case Arr(items) => Arr(CanonAll(items))
    case Map(cells) => Map(CanonAll(cells))
    case _ => o
  }

  function CanonAll(items: seq<Obj>): (r: seq<Obj>)
    ensures |r| == |items|
  {
    if items == [] then [] else [Canon(items[0])] + CanonAll(items[1..])
  }

  // The first object, in encoding order, that the decoder rejects.
  function FirstFault(o: Obj, d: nat): Option<Fault> {
    match o
    case Ext(_, data) => if |data| == WORD - 1 then Some(ParseError) else None
    case Arr(items) => if d >= MAX_DEPTH then Some(TooDeep) else FirstFaultIn(items, d + 1)
    case Map(cells) => if d >= MAX_DEPTH then Some(TooDeep) else FirstFaultIn(cells, d + 1)
    case _ => None
  }

  function FirstFaultIn(items: seq<Obj>, d: nat): Option<Fault> {
    if items == [] then None
    else if FirstFault(items[0], d).Some? then FirstFault(items[0], d)
    else FirstFaultIn(items[1..], d)
  }

  ghost predicate Matches<T>(r: Outcome<T>, fault: Option<Fault>, v: T, n: nat) {
    match fault
    case None => r == Done(v, n)
    case Some(e) => r.Fail? && r.e == e
  }

  lemma DecodePackStr(text: seq<byte>, rest: seq<byte>, d: nat)
    requires |text| < WORD
    ensures var s := PackStrHead(|text|) + text;
      Decode(s + rest, d) == Done(Str(text), |s|)
  {
    var head := PackStrHead(|text|);
    StrHeadBack(|text|, text + rest);
    BlobBack(head, StrBlob, |text|, text, rest, d);
    assert BlobObj(StrBlob, text) == Str(text) && |head + text| == |head| + |text|;
  }

  lemma DecodePackBin(data: seq<byte>, rest: seq<byte>, d: nat)
    requires |data| < WORD
    ensures var s := PackBinHead(|data|) + data;
      Decode(s + rest, d) == Done(Bin(data), |s|)
  {
    var head := PackBinHead(|data|);
    BinHeadBack(|data|, data + rest);
    BlobBack(head, BinBlob, |data|, data, rest, d);
    assert BlobObj(BinBlob, data) == Bin(data) && |head + data| == |head| + |data|;
  }

  lemma DecodePackExt(kind: int, data: seq<byte>, rest: seq<byte>, d: nat)
    requires -128 <= kind < 128 && |data| < WORD
    ensures Pattern(kind, 1) < 0x100
    ensures var s := PackExtSize(|data|) + [Pattern(kind, 1)] + data;
      var r := Decode(s + rest, d);
      if |data| == WORD - 1 then r.Fail? && r.e == ParseError else r == Done(Ext(kind, data), |s|)
  {
    Ranges();
    SignedRoundTrip(kind, 1);
    var head, body := PackExtSize(|data|), [Pattern(kind, 1)] + data;
    assert body[0] == Pattern(kind, 1) && body[1..] == data;
    assert head + [Pattern(kind, 1)] + data == head + body;
    ExtSizeBack(|data|, body + rest);
    BlobBack(head, ExtBlob, |data|, body, rest, d);
    assert BlobObj(ExtBlob, body) == Ext(kind, data);
  }

  lemma DecodePackFloat(o: Obj, rest: seq<byte>, d: nat)
    requires Fits(o) && (o.F32? || o.F64?)
    ensures Decode(Pack(o) + rest, d) == Done(o, |Pack(o)|)
  {
    Ranges();
    if o.F32? { WordBack(0xca, o.bits, 4, rest); } else { WordBack(0xcb, o.bits, 8, rest); }
  }

  // The decoder's answer on every encoded object, whatever follows it.
  lemma {:induction false} DecodePack(o: Obj, rest: seq<byte>, d: nat)
    requires Fits(o)
    ensures Matches(Decode(Pack(o) + rest, d), FirstFault(o, d), Canon(o), |Pack(o)|)
    decreases o, 1
  {
    match o
    case Pos(u) => IntBack(u, rest, d);
    case Neg(i) => IntBack(i, rest, d);
    case F32(_) => DecodePackFloat(o, rest, d);
    case F64(_) => DecodePackFloat(o, rest, d);
    case Str(text) => DecodePackStr(text, rest, d);
    case Bin(data) => DecodePackBin(data, rest, d);
    case Ext(kind, data) => DecodePackExt(kind, data, rest, d);
    case Arr(items) =>
      GroupBack(items, false, |items|, rest, d);
    case Map(cells) =>
      GroupBack(cells, true, |cells| / 2, rest, d);
    case _ =>
  }

  // What the decoder does after a blob header, and after a container header.
  lemma AfterBlobHead(s: seq<byte>, blob: BlobKind, n: nat, head: nat, d: nat)
    requires BlobHead(s, blob, n, head)
    ensures Decode(s, d) == DecodeBlob(blob, n, s, head)
  {
  }

  lemma AfterGroupHead(s: seq<byte>, isMap: bool, n: nat, head: nat, d: nat)
    requires GroupHead(s, isMap, n, head)
    ensures Decode(s, d) == DecodeGroup(isMap, n, s, head, d)
  {
  }

  lemma BlobBack(head: seq<byte>, blob: BlobKind, n: nat, body: seq<byte>, rest: seq<byte>, d: nat)
    requires n < WORD && |body| == (if blob == ExtBlob then n + 1 else n)
    requires BlobHead(head + (body + rest), blob, n, |head|)
    ensures var r := Decode(head + body + rest, d);
      if blob == ExtBlob && n == WORD - 1 then r.Fail? && r.e == ParseError
      else r == Done(BlobObj(blob, body), |head| + |body|)
  {
    var s := head + (body + rest);
    assert head + body + rest == s;
    AfterBlobHead(s, blob, n, |head|, d);
    assert s[|head|..|head| + |body|] == body;
  }

  lemma {:induction false} GroupBack(items: seq<Obj>, isMap: bool, n: nat, rest: seq<byte>, d: nat)
    requires AllFit(items) && n < WORD && |items| == (if isMap then 2 * n else n)
    ensures var head := if isMap then PackMapHead(n) else PackArrHead(n);
      Matches(Decode(head + PackAll(items) + rest, d),
              if d >= MAX_DEPTH then Some(TooDeep) else FirstFaultIn(items, d + 1),
              if isMap then Map(CanonAll(items)) else Arr(CanonAll(items)),
              |head| + |PackAll(items)|)
    decreases items, 2
  {
    var head := if isMap then PackMapHead(n) else PackArrHead(n);
    var s := head + (PackAll(items) + rest);
    assert head + PackAll(items) + rest == s;
    GroupHeadBack(isMap, n, PackAll(items) + rest);
    AfterGroupHead(s, isMap, n, |head|, d);
    assert s[|head|..] == PackAll(items) + rest;
    if d < MAX_DEPTH {
      DecodePackAll(items, rest, d + 1);
    }
  }

  lemma {:induction false} DecodePackAll(items: seq<Obj>, rest: seq<byte>, d: nat)
    requires AllFit(items)
    ensures Matches(
      DecodeAll(PackAll(items) + rest, |items|, d), FirstFaultIn(items, d), CanonAll(items), |PackAll(items)|)
    decreases items, 0
  {
    if items != [] {
      var head, tail := Pack(items[0]), PackAll(items[1..]);
      var s := head + (tail + rest);
      assert PackAll(items) + rest == s;
      DecodePack(items[0], tail + rest, d);
      if FirstFault(items[0], d).None? {
        assert s[|head|..] == tail + rest;
        DecodePackAll(items[1..], rest, d);
      }
    }
  }

  // ---- the round trip, exactly -----------------------------------------------

  // No tag contradicts its value, and no ext payload has the one length whose
  // successor is not a 32-bit number.
  predicate Plain(o: Obj) {
    match o
    case Neg(i) => i < 0
    case Ext(_, data) => |data| != WORD - 1
    case Arr(items) => AllPlain(items)
    case Map(cells) => AllPlain(cells)
    case _ => true
  }

  predicate AllPlain(items: seq<Obj>) {
    items == [] || (Plain(items[0]) && AllPlain(items[1..]))
  }

  lemma {:induction false} PlainIsFaultFree(o: Obj, d: nat)
    requires d <= MAX_DEPTH
    ensures FirstFault(o, d).None? && Canon(o) == o <==> Plain(o) && Depth(o) + d <= MAX_DEPTH
    decreases o, 1
  {
    match o
    case Arr(items) => if d < MAX_DEPTH { AllPlainIsFaultFree(items, d + 1); }
    case Map(cells) => if d < MAX_DEPTH { AllPlainIsFaultFree(cells, d + 1); }
    case _ =>
  }

  lemma {:induction false} AllPlainIsFaultFree(items: seq<Obj>, d: nat)
    requires d <= MAX_DEPTH
    ensures FirstFaultIn(items, d).None? && CanonAll(items) == items <==>
            AllPlain(items) && MaxDepth(items) + d <= MAX_DEPTH
    decreases items, 0
  {
    if items != [] {
      PlainIsFaultFree(items[0], d);
      AllPlainIsFaultFree(items[1..], d);
      var c := CanonAll(items);
      assert c == [Canon(items[0])] + CanonAll(items[1..]);
      assert c[0] == Canon(items[0]) && c[1..] == CanonAll(items[1..]);
      assert items == [items[0]] + items[1..];
    }
  }

  // Of a plain object nothing is refused but too deep a container.
  lemma {:induction false} PlainFault(o: Obj, d: nat)
    requires Plain(o)
    ensures Canon(o) == o && (FirstFault(o, d) == None || FirstFault(o, d) == Some(TooDeep))
    decreases o, 1
  {
    match o
    case Arr(items) => AllPlainFault(items, d + 1);
    case Map(cells) => AllPlainFault(cells, d + 1);
    case _ =>
  }

  lemma {:induction false} AllPlainFault(items: seq<Obj>, d: nat)
    requires AllPlain(items)
    ensures CanonAll(items) == items && (FirstFaultIn(items, d) == None || FirstFaultIn(items, d) == Some(TooDeep))
    decreases items, 0
  {
    if items != [] {
      PlainFault(items[0], d);
      AllPlainFault(items[1..], d);
      assert items == [items[0]] + items[1..];
    }
  }

  // A plain object nested too deep is refused as such.
  lemma TooDeepFaults(o: Obj, rest: seq<byte>)
    requires Fits(o) && Plain(o) && Depth(o) > 32
    ensures var r := Decode(Pack(o) + rest, 0); r.Fail? && r.e == TooDeep
  {
    DecodePack(o, rest, 0);
    PlainFault(o, 0);
    PlainIsFaultFree(o, 0);
  }

  // An object comes back from its encoding, with exactly its bytes consumed and
  // whatever follows untouched, if and only if it is plain and at most 32 deep.
  lemma RoundTrip(o: Obj, rest: seq<byte>)
    requires Fits(o)
    ensures Decode(Pack(o) + rest, 0) == Done(o, |Pack(o)|) <==> Plain(o) && Depth(o) <= 32
  {
    DecodePack(o, rest, 0);
    PlainIsFaultFree(o, 0);
  }

  // Every proper prefix of an encoding asks for more input.
  lemma PackPrefix(o: Obj, k: nat)
    requires Fits(o) && Plain(o) && Depth(o) <= MAX_DEPTH
    requires k < |Pack(o)|
    ensures Decode(Pack(o)[..k], 0) == More
  {
    RoundTrip(o, []);
    assert Pack(o) + [] == Pack(o);
    DecodePrefix(Pack(o), 0, k);
  }

  // ---- canonical form ----------------------------------------------------------

  lemma NumberIsGood(num: NumKind, s: seq<byte>)
    requires |s| in {1, 2, 4, 8} && (num == Float ==> |s| >= 4)
    ensures var o := Number(num, s); Fits(o) && Plain(o) && Depth(o) == 0 && |Pack(o)| <= 1 + |s|
  {
    Ranges();
    StoreLoad(s);
    SignedBounds(Load(s), |s|);
  }

  lemma BlobIsGood(blob: BlobKind, n: nat, s: seq<byte>)
    requires n < WORD && |s| == PayloadSize(blob, n) && (blob == ExtBlob ==> s != [])
    ensures var o := BlobObj(blob, s);
      Fits(o) && Plain(o) && Depth(o) == 0 && |Pack(o)| == |BlobHeadBytes(blob, n)| + |s|
  {
    Ranges();
    if blob == ExtBlob {
      SignedBounds(s[0], 1);
    }
  }

  // Whatever decodes is an object the round trip covers, and its own encoding is
  // no longer than the bytes it was read from.
  lemma {:induction false} DecodedIsGood(s: seq<byte>, d: nat)
    requires d <= MAX_DEPTH && Decode(s, d).Done?
    ensures var r := Decode(s, d);
      Fits(r.v) && Plain(r.v) && Depth(r.v) + d <= MAX_DEPTH && |Pack(r.v)| <= r.n
    decreases |s|, 0, 1
  {
    match FormatOf(s[0])
    case Imm(v) =>
    case Num(num, width) => NumberIsGood(num, s[1..1 + width]);
    case Blob(blob, width, len) =>
      BlobDecodedIsGood(s, d);
    case Group(isMap, width, len) => GroupDecodedIsGood(s, d);
  }

  // A container header is never shorter than the encoder's.
  lemma GroupHeadShortest(s: seq<byte>, isMap: bool, n: nat, head: nat)
    requires GroupHead(s, isMap, n, head)
    ensures n < WORD
    ensures |if isMap then PackMapHead(n) else PackArrHead(n)| <= head
  {
    Ranges();
    StoreLoad(s[1..head]);
    GroupWidths(s[0]);
    var f := FormatOf(s[0]);
    assert n < if f.width == 0 then 16 else Range(f.width);
  }

  lemma GroupWidths(b: byte)
    requires FormatOf(b).Group?
    ensures var f := FormatOf(b); f.width in {0, 2, 4} && (f.width == 0 ==> f.len < 16)
  {
  }

  lemma {:induction false} GroupDecodedIsGood(s: seq<byte>, d: nat)
    requires d <= MAX_DEPTH && Decode(s, d).Done? && FormatOf(s[0]).Group?
    ensures var r := Decode(s, d);
      Fits(r.v) && Plain(r.v) && Depth(r.v) + d <= MAX_DEPTH && |Pack(r.v)| <= r.n
    decreases |s|, 0, 0
  {
    var f := FormatOf(s[0]);
    var head := 1 + f.width;
    var n := LengthOf(s, f.width, f.len);
    AfterGroupHead(s, f.isMap, n, head, d);
    GroupHeadShortest(s, f.isMap, n, head);
    DecodedAllIsGood(s[head..], if f.isMap then 2 * n else n, d + 1);
    GroupIsGood(f.isMap, n, Decode(s, d).v);
  }

  lemma GroupIsGood(isMap: bool, n: nat, o: Obj)
    requires n < WORD && (if isMap then o.Map? && |o.cells| == 2 * n else o.Arr? && |o.items| == n)
    requires var vs := if isMap then o.cells else o.items; AllFit(vs) && AllPlain(vs)
    ensures var vs := if isMap then o.cells else o.items;
      && Fits(o) && Plain(o) && Depth(o) == 1 + MaxDepth(vs)
      && |Pack(o)| == |if isMap then PackMapHead(n) else PackArrHead(n)| + |PackAll(vs)|
  {
  }

  function BlobHeadBytes(blob: BlobKind, n: nat): seq<byte> {
    match blob
    case StrBlob => PackStrHead(n)
    case BinBlob => PackBinHead(n)
    case ExtBlob => PackExtSize(n)
  }

  lemma BlobWidths(b: byte)
    requires FormatOf(b).Blob?
    ensures var f := FormatOf(b);
      && f.width in {0, 1, 2, 4}
      && (f.width == 0 ==> match f.blob
                           case StrBlob => f.len < 32
                           case BinBlob => false
                           case ExtBlob => f.len in {1, 2, 4, 8, 16})
  {
  }

  lemma BlobHeadLength(blob: BlobKind, n: nat)
    requires n < WORD
    ensures var k := |BlobHeadBytes(blob, n)|;
      k <= if n < 0x100 then 2 else if n < 0x1_0000 then 3 else 5
    ensures (blob.StrBlob? && n < 32) || (blob.ExtBlob? && n in {1, 2, 4, 8, 16}) ==> |BlobHeadBytes(blob, n)| == 1
  {
  }

  // A blob header is never shorter than the encoder's.
  lemma BlobHeadShortest(s: seq<byte>, blob: BlobKind, n: nat, head: nat)
    requires BlobHead(s, blob, n, head)
    ensures n < WORD
    ensures |BlobHeadBytes(blob, n)| <= head
  {
    Ranges();
    BlobWidths(s[0]);
    if head > 1 { StoreLoad(s[1..head]); }
    BlobHeadLength(blob, n);
  }

  lemma BlobDecodedIsGood(s: seq<byte>, d: nat)
    requires s != [] && FormatOf(s[0]).Blob? && Decode(s, d).Done?
    ensures var r := Decode(s, d);
      Fits(r.v) && Plain(r.v) && Depth(r.v) == 0 && |Pack(r.v)| <= r.n
  {
    var f := FormatOf(s[0]);
    var used := 1 + f.width;
    var n := LengthOf(s, f.width, f.len);
    AfterBlobHead(s, f.blob, n, used, d);
    BlobHeadShortest(s, f.blob, n, used);
    BlobIsGood(f.blob, n, s[used..used + PayloadSize(f.blob, n)]);
  }

  lemma {:induction false} DecodedAllIsGood(s: seq<byte>, count: nat, d: nat)
    requires d <= MAX_DEPTH && DecodeAll(s, count, d).Done?
    ensures var r := DecodeAll(s, count, d);
      AllFit(r.v) && AllPlain(r.v) && MaxDepth(r.v) + d <= MAX_DEPTH && |PackAll(r.v)| <= r.n
    decreases |s|, 1
  {
    if count > 0 {
      DecodedIsGood(s, d);
      var v, n := Decode(s, d).v, Decode(s, d).n;
      DecodedAllIsGood(s[n..], count - 1, d);
      var r := DecodeAll(s, count, d);
      var r1 := DecodeAll(s[n..], count - 1, d);
      assert r.v[0] == v && r.v[1..] == r1.v;
    }
  }

  // The encoder writes the shortest form: no bytes that decode to the object are
  // fewer than its encoding. Decoding, encoding and decoding again is decoding.
  lemma Canonical(s: seq<byte>)
    requires Decode(s, 0).Done?
    ensures var r := Decode(s, 0);
      && Fits(r.v)
      && |Pack(r.v)| <= r.n
      && Decode(Pack(r.v), 0) == Done(r.v, |Pack(r.v)|)
  {
    DecodedIsGood(s, 0);
    var o := Decode(s, 0).v;
    RoundTrip(o, []);
    assert Pack(o) + [] == Pack(o);
  }
}
