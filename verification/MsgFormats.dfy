/**
 The formats of the MessagePack specification, each with its header bytes, as a
 relation between bytes and objects, and the proof that the decoder reads exactly these.
 */
module MsgFormats {
  import opened Bytes
  import opened MsgPack
  import opened MsgRoundTrip

  // A header byte and `n` in the `width` bytes behind it, most significant first.
  predicate Headed(s: seq<byte>, h: byte, width: nat, n: nat) {
    n < Range(width) && s == [h] + Store(n, width)
  }

  // The same for a number in two's complement.
  predicate HeadedSigned(s: seq<byte>, h: byte, width: nat, i: int) {
    && 0 <= 2 * i + Range(width) < 2 * Range(width)
    && Headed(s, h, width, if i < 0 then i + Range(width) else i)
  }

  // positive fixint, uint 8 to uint 64
  predicate UnsignedForm(s: seq<byte>, u: int) {
    && 0 <= u
    && (|| (u < 0x80 && s == [u])
        || Headed(s, 0xcc, 1, u) || Headed(s, 0xcd, 2, u) || Headed(s, 0xce, 4, u) || Headed(s, 0xcf, 8, u))
  }

  // negative fixint, int 8 to int 64
  predicate SignedForm(s: seq<byte>, i: int) {
    || (-0x20 <= i < 0 && s == [0x100 + i])
    || HeadedSigned(s, 0xd0, 1, i) || HeadedSigned(s, 0xd1, 2, i)
    || HeadedSigned(s, 0xd2, 4, i) || HeadedSigned(s, 0xd3, 8, i)
  }

  // fixstr, str 8, str 16, str 32
  predicate StrForm(head: seq<byte>, n: nat) {
    (n < 32 && head == [0xa0 + n]) || Headed(head, 0xd9, 1, n) || Headed(head, 0xda, 2, n) || Headed(head, 0xdb, 4, n)
  }

  // bin 8, bin 16, bin 32
  predicate BinForm(head: seq<byte>, n: nat) {
    Headed(head, 0xc4, 1, n) || Headed(head, 0xc5, 2, n) || Headed(head, 0xc6, 4, n)
  }

  // fixext 1 to 16, ext 8, ext 16, ext 32. The largest ext length is not read: with the type byte
  // it does not fit the decoder's 32-bit sum.
  predicate ExtForm(head: seq<byte>, n: nat) {
    || (n == 1 && head == [0xd4]) || (n == 2 && head == [0xd5]) || (n == 4 && head == [0xd6])
    || (n == 8 && head == [0xd7]) || (n == 16 && head == [0xd8])
    || Headed(head, 0xc7, 1, n) || Headed(head, 0xc8, 2, n) || (Headed(head, 0xc9, 4, n) && n != 0xffff_ffff)
  }

  // fixarray, array 16, array 32
  predicate ArrForm(head: seq<byte>, n: nat) {
    (n < 16 && head == [0x90 + n]) || Headed(head, 0xdc, 2, n) || Headed(head, 0xdd, 4, n)
  }

  // fixmap, map 16, map 32
  predicate MapForm(head: seq<byte>, n: nat) {
    (n < 16 && head == [0x80 + n]) || Headed(head, 0xde, 2, n) || Headed(head, 0xdf, 4, n)
  }

  ghost predicate StrSpells(s: seq<byte>, text: seq<byte>) {
    exists k: nat | k <= |s| :: StrForm(s[..k], |text|) && s[k..] == text
  }

  ghost predicate BinSpells(s: seq<byte>, data: seq<byte>) {
    exists k: nat | k <= |s| :: BinForm(s[..k], |data|) && s[k..] == data
  }

  // The type byte of an ext, in two's complement, comes before its data.
  ghost predicate ExtSpells(s: seq<byte>, kind: int, data: seq<byte>) {
    -128 <= kind < 128 && exists k: nat | k <= |s| :: ExtForm(s[..k], |data|) && s[k..] == [TypeByte(kind)] + data
  }

  function TypeByte(kind: int): int { if kind < 0 then kind + 256 else kind }

  predicate GroupForm(head: seq<byte>, isMap: bool, n: nat) {
    if isMap then MapForm(head, n) else ArrForm(head, n)
  }

  // s is a representation of o, inside d open containers of at most 32.
  ghost predicate Spells(s: seq<byte>, o: Obj, d: nat)
    decreases o, 2
  {
    match o
    case Nil => s == [0xc0]
    case Bool(b) => s == [if b then 0xc3 else 0xc2]
    case Pos(u) => UnsignedForm(s, u) || SignedForm(s, u)
    case Neg(i) => i < 0 && SignedForm(s, i)
    case F32(bits) => Headed(s, 0xca, 4, bits)
    case F64(bits) => Headed(s, 0xcb, 8, bits)
    case Str(text) => StrSpells(s, text)
    case Bin(data) => BinSpells(s, data)
    case Ext(kind, data) => ExtSpells(s, kind, data)
    case Arr(items) => d < 32 && GroupSpells(s, false, |items|, items, d + 1)
    case Map(cells) => d < 32 && |cells| % 2 == 0 && GroupSpells(s, true, |cells| / 2, cells, d + 1)
  }

  ghost predicate GroupSpells(s: seq<byte>, isMap: bool, n: nat, items: seq<Obj>, d: nat)
    decreases items, 1
  {
    exists k: nat | k <= |s| :: GroupForm(s[..k], isMap, n) && SpellsAll(s[k..], items, d)
  }

  // Representations of the items, one behind the other.
  ghost predicate SpellsAll(s: seq<byte>, items: seq<Obj>, d: nat)
    decreases items, 0
  {
    if items == [] then s == []
    else exists n: nat | n <= |s| :: Spells(s[..n], items[0], d) && SpellsAll(s[n..], items[1..], d)
  }

  // ---- headers -----------------------------------------------------------------------

  lemma HeadedReads(s: seq<byte>, k: nat, h: byte, width: nat, n: nat)
    requires k <= |s| && Headed(s[..k], h, width, n)
    ensures k == 1 + width && s[0] == h && Load(s[1..1 + width]) == n
  {
    LoadStore(n, width);
    ModUnique(n, Range(width), 0, n);
    assert s[0] == s[..k][0] && s[1..1 + width] == s[..k][1..];
  }

  lemma ReadsHeaded(s: seq<byte>, width: nat)
    requires 1 + width <= |s|
    ensures Headed(s[..1 + width], s[0], width, Load(s[1..1 + width]))
  {
    StoreLoad(s[1..1 + width]);
    assert s[..1 + width] == [s[0]] + s[1..1 + width];
  }

  lemma StrFormReads(s: seq<byte>, k: nat, n: nat)
    requires k <= |s| && StrForm(s[..k], n)
    ensures n < WORD && BlobHead(s, StrBlob, n, k)
  {
    Ranges();
    assert s[0] == s[..k][0];
    if k > 1 { HeadedReads(s, k, s[0], k - 1, n); }
  }

  lemma BinFormReads(s: seq<byte>, k: nat, n: nat)
    requires k <= |s| && BinForm(s[..k], n)
    ensures n < WORD && BlobHead(s, BinBlob, n, k)
  {
    Ranges();
    assert s[0] == s[..k][0];
    HeadedReads(s, k, s[0], k - 1, n);
  }

  lemma ExtFormReads(s: seq<byte>, k: nat, n: nat)
    requires k <= |s| && ExtForm(s[..k], n)
    ensures n < WORD - 1 && BlobHead(s, ExtBlob, n, k)
  {
    Ranges();
    assert s[0] == s[..k][0];
    if k > 1 { ExtWordReads(s, k, s[0], n); }
  }

  lemma ExtWordReads(s: seq<byte>, k: nat, h: byte, n: nat)
    requires k <= |s| && (h, k) in {(0xc7, 2), (0xc8, 3), (0xc9, 5)} && Headed(s[..k], h, k - 1, n)
    ensures BlobHead(s, ExtBlob, n, k)
  {
    HeadedReads(s, k, h, k - 1, n);
  }

  lemma BlobTable(b: byte)
    requires FormatOf(b).Blob?
    ensures var Blob(blob, w, len) := FormatOf(b);
      match blob
      case StrBlob => (w == 0 && len < 32 && b == 0xa0 + len) || (b, w) in {(0xd9, 1), (0xda, 2), (0xdb, 4)}
      case BinBlob => (b, w) in {(0xc4, 1), (0xc5, 2), (0xc6, 4)}
      case ExtBlob =>
        || (w == 0 && (b, len) in {(0xd4, 1), (0xd5, 2), (0xd6, 4), (0xd7, 8), (0xd8, 16)})
        || (b, w) in {(0xc7, 1), (0xc8, 2), (0xc9, 4)}
  {
  }

  lemma StrReadsForm(s: seq<byte>, n: nat, k: nat)
    requires BlobHead(s, StrBlob, n, k)
    ensures StrForm(s[..k], n)
  {
    BlobTable(s[0]);
    if k == 1 { assert s[..1] == [s[0]]; } else { HeadedAs(s, n, k); }
  }

  lemma BinReadsForm(s: seq<byte>, n: nat, k: nat)
    requires BlobHead(s, BinBlob, n, k)
    ensures BinForm(s[..k], n)
  {
    BlobTable(s[0]);
    HeadedAs(s, n, k);
  }

  lemma ExtReadsForm(s: seq<byte>, n: nat, k: nat)
    requires BlobHead(s, ExtBlob, n, k)
    ensures ExtForm(s[..k], n) || n == WORD - 1
  {
    BlobTable(s[0]);
    if k == 1 { assert s[..1] == [s[0]]; } else { HeadedAs(s, n, k); }
  }

  lemma HeadedAs(s: seq<byte>, n: nat, k: nat)
    requires k in {2, 3, 5} && k <= |s| && Load(s[1..k]) == n
    ensures k == 2 ==> Headed(s[..k], s[0], 1, n)
    ensures k == 3 ==> Headed(s[..k], s[0], 2, n)
    ensures k == 5 ==> Headed(s[..k], s[0], 4, n)
  {
    ReadsHeaded(s, k - 1);
  }

  lemma GroupFormReads(s: seq<byte>, k: nat, isMap: bool, n: nat)
    requires k <= |s| && GroupForm(s[..k], isMap, n)
    ensures GroupHead(s, isMap, n, k)
  {
    assert s[0] == s[..k][0];
    if k > 1 { HeadedReads(s, k, s[0], k - 1, n); }
  }

  lemma GroupReadsForm(s: seq<byte>, isMap: bool, n: nat, k: nat)
    requires GroupHead(s, isMap, n, k)
    ensures GroupForm(s[..k], isMap, n)
  {
    ReadsHeaded(s, k - 1);
    assert s[..1] == [s[0]];
  }

  // ---- numbers -----------------------------------------------------------------------

  lemma NumberTable(b: byte)
    requires FormatOf(b).Num?
    ensures var Num(num, w) := FormatOf(b);
      match num
      case Unsigned => (b, w) in {(0xcc, 1), (0xcd, 2), (0xce, 4), (0xcf, 8)}
      case Signed => (b, w) in {(0xd0, 1), (0xd1, 2), (0xd2, 4), (0xd3, 8)}
      case Float => (b, w) in {(0xca, 4), (0xcb, 8)}
  {
  }

  lemma ReadsNumber(s: seq<byte>, d: nat)
    requires s != [] && FormatOf(s[0]).Num? && |s| == 1 + FormatOf(s[0]).width
    ensures Decode(s, d) == Done(Number(FormatOf(s[0]).num, s[1..]), |s|)
  {
    assert s[1..1 + FormatOf(s[0]).width] == s[1..];
  }

  lemma UnsignedWordReads(s: seq<byte>, h: byte, w: nat, u: nat, d: nat)
    requires (h, w) in {(0xcc, 1), (0xcd, 2), (0xce, 4), (0xcf, 8)} && Headed(s, h, w, u)
    ensures Decode(s, d) == Done(Pos(u), |s|)
  {
    assert s[..|s|] == s && s[1..1 + w] == s[1..];
    HeadedReads(s, |s|, h, w, u);
    ReadsNumber(s, d);
  }

  lemma UnsignedReads(s: seq<byte>, u: int, d: nat)
    requires UnsignedForm(s, u)
    ensures Decode(s, d) == Done(Pos(u), |s|)
  {
    if Headed(s, 0xcc, 1, u) { UnsignedWordReads(s, 0xcc, 1, u, d); }
    else if Headed(s, 0xcd, 2, u) { UnsignedWordReads(s, 0xcd, 2, u, d); }
    else if Headed(s, 0xce, 4, u) { UnsignedWordReads(s, 0xce, 4, u, d); }
    else if Headed(s, 0xcf, 8, u) { UnsignedWordReads(s, 0xcf, 8, u, d); }
  }

  lemma TwosComplement(i: int, w: nat)
    requires 0 <= 2 * i + Range(w) < 2 * Range(w)
    ensures ToSigned(if i < 0 then i + Range(w) else i, w) == i
  {
  }

  lemma WordReads(s: seq<byte>, h: byte, w: nat, i: int, d: nat)
    requires (h, w) in {(0xd0, 1), (0xd1, 2), (0xd2, 4), (0xd3, 8)} && HeadedSigned(s, h, w, i)
    ensures Decode(s, d) == Done(if i < 0 then Neg(i) else Pos(i), |s|)
  {
    assert s[..|s|] == s && s[1..1 + w] == s[1..];
    HeadedReads(s, |s|, h, w, if i < 0 then i + Range(w) else i);
    TwosComplement(i, w);
    ReadsNumber(s, d);
  }

  lemma SignedReads(s: seq<byte>, i: int, d: nat)
    requires SignedForm(s, i)
    ensures Decode(s, d) == Done(if i < 0 then Neg(i) else Pos(i), |s|)
  {
    if HeadedSigned(s, 0xd0, 1, i) { WordReads(s, 0xd0, 1, i, d); }
    else if HeadedSigned(s, 0xd1, 2, i) { WordReads(s, 0xd1, 2, i, d); }
    else if HeadedSigned(s, 0xd2, 4, i) { WordReads(s, 0xd2, 4, i, d); }
    else if HeadedSigned(s, 0xd3, 8, i) { WordReads(s, 0xd3, 8, i, d); }
  }

  lemma FloatReads(s: seq<byte>, bits: nat, d: nat)
    ensures Headed(s, 0xca, 4, bits) ==> Decode(s, d) == Done(F32(bits), |s|)
    ensures Headed(s, 0xcb, 8, bits) ==> Decode(s, d) == Done(F64(bits), |s|)
  {
    if Headed(s, 0xca, 4, bits) || Headed(s, 0xcb, 8, bits) {
      assert s[..|s|] == s && s[1..|s|] == s[1..];
      HeadedReads(s, |s|, s[0], |s| - 1, bits);
      ReadsNumber(s, d);
    }
  }

  lemma SignedSpelled(s: seq<byte>, h: byte, w: nat)
    requires (h, w) in {(0xd0, 1), (0xd1, 2), (0xd2, 4), (0xd3, 8)}
    requires |s| == 1 + w && Headed(s, h, w, Load(s[1..]))
    ensures SignedForm(s, ToSigned(Load(s[1..]), w))
  {
    SignedBounds(Load(s[1..]), w);
    assert HeadedSigned(s, h, w, ToSigned(Load(s[1..]), w));
  }

  lemma NumberSpelled(s: seq<byte>, d: nat)
    requires s != [] && FormatOf(s[0]).Num? && |s| == 1 + FormatOf(s[0]).width
    ensures Decode(s, d).Done? && Spells(s, Decode(s, d).v, d)
  {
    var w := |s| - 1;
    NumberTable(s[0]);
    ReadsNumber(s, d);
    ReadsHeaded(s, w);
    assert s[..|s|] == s && s[1..|s|] == s[1..];
    if FormatOf(s[0]).num.Signed? { SignedSpelled(s, s[0], w); }
  }

  // ---- strings, binaries, exts -----------------------------------------------------------

  // A header whose payload is the rest of s.
  lemma PayloadReads(s: seq<byte>, blob: BlobKind, n: nat, k: nat, d: nat)
    requires BlobHead(s, blob, n, k) && |s| - k == if blob.ExtBlob? then n + 1 else n
    requires n < WORD - if blob.ExtBlob? then 1 else 0
    ensures Decode(s, d) == Done(BlobObj(blob, s[k..]), |s|)
  {
    AfterBlobHead(s, blob, n, k, d);
    assert s[k..|s|] == s[k..];
  }

  lemma StrReads(s: seq<byte>, text: seq<byte>, d: nat)
    requires StrSpells(s, text)
    ensures Decode(s, d) == Done(Str(text), |s|)
  {
    var k: nat :| k <= |s| && StrForm(s[..k], |text|) && s[k..] == text;
    StrFormReads(s, k, |text|);
    PayloadReads(s, StrBlob, |text|, k, d);
  }

  lemma BinReads(s: seq<byte>, data: seq<byte>, d: nat)
    requires BinSpells(s, data)
    ensures Decode(s, d) == Done(Bin(data), |s|)
  {
    var k: nat :| k <= |s| && BinForm(s[..k], |data|) && s[k..] == data;
    BinFormReads(s, k, |data|);
    PayloadReads(s, BinBlob, |data|, k, d);
  }

  lemma ExtObj(kind: int, data: seq<byte>, body: seq<byte>)
    requires -128 <= kind < 128 && body == [TypeByte(kind)] + data
    ensures |body| == |data| + 1 && BlobObj(ExtBlob, body) == Ext(kind, data)
  {
    Ranges();
    TwosComplement(kind, 1);
    assert body[0] == TypeByte(kind) && body[1..] == data;
  }

  lemma ExtReads(s: seq<byte>, kind: int, data: seq<byte>, d: nat)
    requires ExtSpells(s, kind, data)
    ensures Decode(s, d) == Done(Ext(kind, data), |s|)
  {
    var k: nat :| k <= |s| && ExtForm(s[..k], |data|) && s[k..] == [TypeByte(kind)] + data;
    ExtFormReads(s, k, |data|);
    ExtObj(kind, data, s[k..]);
    PayloadReads(s, ExtBlob, |data|, k, d);
  }

  lemma BlobSpelled(s: seq<byte>, d: nat)
    requires s != [] && FormatOf(s[0]).Blob? && Decode(s, d).Done? && Decode(s, d).n == |s|
    ensures Spells(s, Decode(s, d).v, d)
  {
    var Blob(blob, w, len) := FormatOf(s[0]);
    var k, n := 1 + w, LengthOf(s, w, len);
    AfterBlobHead(s, blob, n, k, d);
    PayloadRead(s, blob, n, k);
    match blob
    case StrBlob => StrReadsForm(s, n, k);
    case BinBlob => BinReadsForm(s, n, k);
    case ExtBlob => ExtSpelled(s, n, k, d);
  }

  // All of s behind the header is the payload.
  lemma PayloadRead(s: seq<byte>, blob: BlobKind, n: nat, k: nat)
    requires 1 <= k <= |s| && DecodeBlob(blob, n, s, k).Done? && DecodeBlob(blob, n, s, k).n == |s|
    ensures |s[k..]| == PayloadSize(blob, n) && s[k..|s|] == s[k..] && (blob.ExtBlob? ==> s[k..] != [])
    ensures DecodeBlob(blob, n, s, k).v == BlobObj(blob, s[k..])
  {
  }

  lemma ExtSpelled(s: seq<byte>, n: nat, k: nat, d: nat)
    requires BlobHead(s, ExtBlob, n, k) && |s| - k == PayloadSize(ExtBlob, n) && s[k..] != []
    ensures Spells(s, BlobObj(ExtBlob, s[k..]), d)
  {
    BlobHeadShortest(s, ExtBlob, n, k);
    ExtReadsForm(s, n, k);
    assert |s[k + 1..]| == n;
    var kind := TypeOf(s[k]);
    ExtWitness(s, k, kind, s[k + 1..]);
    ExtObj(kind, s[k + 1..], s[k..]);
  }

  lemma ExtWitness(s: seq<byte>, k: nat, kind: int, data: seq<byte>)
    requires k < |s| && -128 <= kind < 128 && TypeByte(kind) == s[k] && data == s[k + 1..] && ExtForm(s[..k], |data|)
    ensures s[k..] == [TypeByte(kind)] + data && ExtSpells(s, kind, data)
  {
    assert s[k..] == [TypeByte(kind)] + data;
  }

  lemma TypeOf(b: byte) returns (kind: int)
    ensures -128 <= kind < 128 && TypeByte(kind) == b
  {
    kind := if b < 128 then b else b - 256;
  }

  // ---- arrays and maps -------------------------------------------------------------------

  lemma {:induction false} SpelledReads(s: seq<byte>, o: Obj, d: nat)
    requires Spells(s, o, d)
    ensures Decode(s, d) == Done(o, |s|)
    decreases o, 2
  {
    match o
    case Pos(u) => if UnsignedForm(s, u) { UnsignedReads(s, u, d); } else { SignedReads(s, u, d); }
    case Neg(i) => SignedReads(s, i, d);
    case F32(bits) => FloatReads(s, bits, d);
    case F64(bits) => FloatReads(s, bits, d);
    case Str(text) => StrReads(s, text, d);
    case Bin(data) => BinReads(s, data, d);
    case Ext(kind, data) => ExtReads(s, kind, data, d);
    case Arr(items) => SpelledGroupReads(s, false, |items|, items, d);
    case Map(cells) => SpelledGroupReads(s, true, |cells| / 2, cells, d);
    case _ =>
  }

  lemma {:induction false} SpelledGroupReads(s: seq<byte>, isMap: bool, n: nat, items: seq<Obj>, d: nat)
    requires d < 32 && |items| == (if isMap then 2 * n else n) && GroupSpells(s, isMap, n, items, d + 1)
    ensures Decode(s, d) == Done(if isMap then Map(items) else Arr(items), |s|)
    decreases items, 1
  {
    var k: nat :| k <= |s| && GroupForm(s[..k], isMap, n) && SpellsAll(s[k..], items, d + 1);
    SpelledAllReads(s[k..], items, d + 1);
    GroupReads(s, isMap, n, k, items, d);
  }

  lemma GroupReads(s: seq<byte>, isMap: bool, n: nat, k: nat, items: seq<Obj>, d: nat)
    requires k <= |s| && GroupForm(s[..k], isMap, n) && d < 32 && |items| == (if isMap then 2 * n else n)
    requires DecodeAll(s[k..], |items|, d + 1) == Done(items, |s| - k)
    ensures Decode(s, d) == Done(if isMap then Map(items) else Arr(items), |s|)
  {
    GroupFormReads(s, k, isMap, n);
    AfterGroupHead(s, isMap, n, k, d);
  }

  lemma {:induction false} SpelledAllReads(s: seq<byte>, items: seq<Obj>, d: nat)
    requires SpellsAll(s, items, d)
    ensures DecodeAll(s, |items|, d) == Done(items, |s|)
    decreases items, 0
  {
    if items != [] {
      var n: nat :| n <= |s| && Spells(s[..n], items[0], d) && SpellsAll(s[n..], items[1..], d);
      SpelledReads(s[..n], items[0], d);
      SpelledAllReads(s[n..], items[1..], d);
      FirstThenRest(s, items, d, n);
    }
  }

  lemma FirstThenRest(s: seq<byte>, items: seq<Obj>, d: nat, n: nat)
    requires items != [] && n <= |s| && Decode(s[..n], d) == Done(items[0], n)
    requires DecodeAll(s[n..], |items| - 1, d) == Done(items[1..], |s| - n)
    ensures DecodeAll(s, |items|, d) == Done(items, |s|)
  {
    DecodeStable(s[..n], s[n..], d);
    assert s[..n] + s[n..] == s;
    DecodeAllStep(s, |items|, d);
    assert [items[0]] + items[1..] == items;
  }

  lemma {:induction false} ReadsSpelled(s: seq<byte>, d: nat)
    requires Decode(s, d).Done? && Decode(s, d).n == |s|
    ensures Spells(s, Decode(s, d).v, d)
    decreases |s|, 1
  {
    match FormatOf(s[0])
    case Imm(v) => assert s == [s[0]];
    case Reserved =>
    case Num(_, _) => NumberSpelled(s, d);
    case Blob(_, _, _) => BlobSpelled(s, d);
    case Group(isMap, w, len) =>
      AfterGroupHead(s, isMap, LengthOf(s, w, len), 1 + w, d);
      ReadsGroupSpelled(s, isMap, LengthOf(s, w, len), 1 + w, d);
  }

  lemma {:induction false} ReadsGroupSpelled(s: seq<byte>, isMap: bool, n: nat, k: nat, d: nat)
    requires GroupHead(s, isMap, n, k)
    requires DecodeGroup(isMap, n, s, k, d).Done? && DecodeGroup(isMap, n, s, k, d).n == |s|
    ensures Spells(s, DecodeGroup(isMap, n, s, k, d).v, d)
    decreases |s|, 0
  {
    ReadsSpelledAll(s[k..], if isMap then 2 * n else n, d + 1);
    GroupReadsForm(s, isMap, n, k);
    GroupWitness(s, isMap, n, k, DecodeAll(s[k..], if isMap then 2 * n else n, d + 1).v, d);
  }

  lemma GroupWitness(s: seq<byte>, isMap: bool, n: nat, k: nat, items: seq<Obj>, d: nat)
    requires d < 32 && k <= |s| && GroupForm(s[..k], isMap, n) && |items| == (if isMap then 2 * n else n)
    requires SpellsAll(s[k..], items, d + 1)
    ensures Spells(s, if isMap then Map(items) else Arr(items), d)
  {
    GroupAt(s, isMap, n, k, items, d + 1);
    assert isMap ==> |items| % 2 == 0 && |items| / 2 == n;
  }

  lemma GroupAt(s: seq<byte>, isMap: bool, n: nat, k: nat, items: seq<Obj>, d: nat)
    requires k <= |s| && GroupForm(s[..k], isMap, n) && SpellsAll(s[k..], items, d)
    ensures GroupSpells(s, isMap, n, items, d)
  {
  }

  lemma {:induction false} ReadsSpelledAll(s: seq<byte>, count: nat, d: nat)
    requires DecodeAll(s, count, d).Done? && DecodeAll(s, count, d).n == |s|
    ensures SpellsAll(s, DecodeAll(s, count, d).v, d)
    decreases |s|, 2
  {
    DecodeAllStepOrEmpty(s, count, d);
    if count > 0 {
      var v, n := Decode(s, d).v, Decode(s, d).n;
      DecodeExact(s, d);
      ReadsSpelled(s[..n], d);
      ReadsSpelledAll(s[n..], count - 1, d);
      assert ([v] + DecodeAll(s[n..], count - 1, d).v)[1..] == DecodeAll(s[n..], count - 1, d).v;
    }
  }

  lemma DecodeAllStepOrEmpty(s: seq<byte>, count: nat, d: nat)
    requires DecodeAll(s, count, d).Done?
    ensures count == 0 ==> DecodeAll(s, count, d) == Done([], 0)
    ensures count > 0 ==>
      var r := Decode(s, d);
      r.Done? && DecodeAll(s, count, d) == Cons(r.v, r.n, DecodeAll(s[r.n..], count - 1, d))
  {
  }

  // On every byte string the decoder reads an object, using all of it, if and only if the bytes
  // are one of the object's representations.
  lemma DecodesExactly(s: seq<byte>, o: Obj, d: nat)
    ensures Decode(s, d) == Done(o, |s|) <==> Spells(s, o, d)
  {
    if Spells(s, o, d) { SpelledReads(s, o, d); }
    if Decode(s, d) == Done(o, |s|) { ReadsSpelled(s, d); }
  }

  // What else follows the representation changes nothing.
  lemma SpelledInFront(s: seq<byte>, o: Obj, d: nat, rest: seq<byte>)
    requires Spells(s, o, d)
    ensures Decode(s + rest, d) == Done(o, |s|)
  {
    DecodesExactly(s, o, d);
    DecodeStable(s, rest, d);
  }

  // ---- faults ---------------------------------------------------------------------------

  // The headers the decoder refuses, with the fault and how far it has looked.
  lemma HeaderFaults(s: seq<byte>, k: nat, isMap: bool, n: nat, d: nat)
    requires k <= |s|
    ensures s[..k] == [0xc1] ==> Decode(s, d) == Fail(ParseError, 1)
    ensures Headed(s[..k], 0xc9, 4, 0xffff_ffff) ==> Decode(s, d) == Fail(ParseError, 5)
    ensures d >= 32 && GroupForm(s[..k], isMap, n) ==> Decode(s, d) == Fail(TooDeep, k)
  {
    if s[..k] == [0xc1] { assert s[0] == s[..k][0]; }
    if Headed(s[..k], 0xc9, 4, 0xffff_ffff) { HeadedReads(s, k, 0xc9, 4, 0xffff_ffff); }
    if d >= 32 && GroupForm(s[..k], isMap, n) {
      GroupFormReads(s, k, isMap, n);
      AfterGroupHead(s, isMap, n, k, d);
    }
  }

  // ---- the encoder's choice -----------------------------------------------------------------

  // The encoder's bytes represent the object, and no representation is shorter.
  lemma PackIsShortest(s: seq<byte>, o: Obj)
    requires Spells(s, o, 0)
    ensures Fits(o) && Spells(Pack(o), o, 0) && |Pack(o)| <= |s|
  {
    DecodesExactly(s, o, 0);
    Canonical(s);
    DecodesExactly(Pack(o), o, 0);
  }

  // Where an unsigned and a signed form are equally short, it takes the unsigned one.
  lemma PackIsUnsigned(u: nat)
    requires u < LONG
    ensures UnsignedForm(PackInt(u), u)
  {
    Ranges();
  }
}
