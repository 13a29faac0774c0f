/**
 MessagePack values, the bytes the encoder gives each of them, and a small
 recursive-descent decoder written from the format table. The stack machine and
 the packers are proved against these functions.
 */
module MsgPack {
  import opened Bytes

  // Decoded objects. Floats are opaque bit patterns. The cells of a map are
  // key, value, key, value, ... as msgpack_object_kv lays them out.
  datatype Obj =
    | Nil
    | Bool(b: bool)
    | Pos(u: nat)
    | Neg(i: int)
    | F32(bits: nat)
    | F64(bits: nat)
    | Str(text: seq<byte>)
    | Bin(data: seq<byte>)
    | Ext(kind: int, data: seq<byte>)
    | Arr(items: seq<Obj>)
    | Map(cells: seq<Obj>)

  const WORD := 0x1_0000_0000
  const LONG := 0x1_0000_0000_0000_0000
  const MAX_DEPTH := 32

  // What the C structs can hold: 32-bit sizes, 64-bit integers, an int8_t ext type.
  predicate Fits(o: Obj) {
    match o
    case Nil => true
    case Bool(_) => true
    case Pos(u) => u < LONG
    case Neg(i) => -(LONG / 2) <= i < LONG / 2
    case F32(bits) => bits < WORD
    case F64(bits) => bits < LONG
    case Str(text) => |text| < WORD
    case Bin(data) => |data| < WORD
    case Ext(kind, data) => -128 <= kind < 128 && |data| < WORD
    case Arr(items) => |items| < WORD && AllFit(items)
    case Map(cells) => |cells| % 2 == 0 && |cells| / 2 < WORD && AllFit(cells)
  }

  lemma FitsInNumbers(b: bool, i: int, u: nat, s: seq<byte>)
    ensures Fits(Nil) && Fits(Bool(b))
    ensures Fits(Neg(i)) <==> -0x8000_0000_0000_0000 <= i <= 0x7fff_ffff_ffff_ffff
    ensures Fits(Pos(u)) <==> u <= 0xffff_ffff_ffff_ffff
    ensures Fits(F32(u)) <==> u <= 0xffff_ffff
    ensures Fits(F64(u)) <==> u <= 0xffff_ffff_ffff_ffff
    ensures Fits(Str(s)) && Fits(Bin(s)) <==> |s| <= 0xffff_ffff
    ensures Fits(Ext(i, s)) <==> -128 <= i <= 127 && |s| <= 0xffff_ffff
  {
  }

  predicate AllFit(items: seq<Obj>) {
    items == [] || (Fits(items[0]) && AllFit(items[1..]))
  }

  // Number of nested containers; an empty container counts as one.
  function Depth(o: Obj): nat {
    match o
    case Arr(items) => 1 + MaxDepth(items)
    case Map(cells) => 1 + MaxDepth(cells)
    case _ => 0
  }

  function MaxDepth(items: seq<Obj>): nat {
    if items == [] then 0
    else
      var d, m := Depth(items[0]), MaxDepth(items[1..]);
      if d > m then d else m
  }

  // ---- encoder -----------------------------------------------------------

  // The shortest integer form holding i.
  function PackInt(i: int): seq<byte>
    requires -(LONG / 2) <= i < LONG
  {
    if 0 <= i < 0x80 then [i]
    else if -0x20 <= i < 0 then [0x100 + i]
    else if 0 <= i < 0x100 then [0xcc] + Store(i, 1)
    else if 0 <= i < 0x1_0000 then [0xcd] + Store(i, 2)
    else if 0 <= i < WORD then [0xce] + Store(i, 4)
    else if 0 <= i then [0xcf] + Store(i, 8)
    else if -0x80 <= i then [0xd0] + Store(Pattern(i, 1), 1)
    else if -0x8000 <= i then [0xd1] + Store(Pattern(i, 2), 2)
    else if -0x8000_0000 <= i then [0xd2] + Store(Pattern(i, 4), 4)
    else [0xd3] + Store(Pattern(i, 8), 8)
  }

  function PackStrHead(n: nat): seq<byte> {
    if n < 32 then [0xa0 + n]
    else if n < 0x100 then [0xd9] + Store(n, 1)
    else if n < 0x1_0000 then [0xda] + Store(n, 2)
    else [0xdb] + Store(n, 4)
  }

  function PackBinHead(n: nat): seq<byte> {
    if n < 0x100 then [0xc4] + Store(n, 1)
    else if n < 0x1_0000 then [0xc5] + Store(n, 2)
    else [0xc6] + Store(n, 4)
  }

  // Ext header without the type byte that follows it.
  function PackExtSize(n: nat): seq<byte> {
    if n == 1 then [0xd4]
    else if n == 2 then [0xd5]
    else if n == 4 then [0xd6]
    else if n == 8 then [0xd7]
    else if n == 16 then [0xd8]
    else if n < 0x100 then [0xc7] + Store(n, 1)
    else if n < 0x1_0000 then [0xc8] + Store(n, 2)
    else [0xc9] + Store(n, 4)
  }

  function PackArrHead(n: nat): seq<byte> {
    if n < 16 then [0x90 + n]
    else if n < 0x1_0000 then [0xdc] + Store(n, 2)
    else [0xdd] + Store(n, 4)
  }

  function PackMapHead(n: nat): seq<byte> {
    if n < 16 then [0x80 + n]
    else if n < 0x1_0000 then [0xde] + Store(n, 2)
    else [0xdf] + Store(n, 4)
  }

  function Pack(o: Obj): (s: seq<byte>)
    requires Fits(o)
    ensures |s| > 0
  {
    match o
    case Nil => [0xc0]
    case Bool(b) => [if b then 0xc3 else 0xc2]
    case Pos(u) => PackInt(u)
    case Neg(i) => PackInt(i)
    case F32(bits) => [0xca] + Store(bits, 4)
    case F64(bits) => [0xcb] + Store(bits, 8)
    case Str(text) => PackStrHead(|text|) + text
    case Bin(data) => PackBinHead(|data|) + data
    case Ext(kind, data) => PackExtSize(|data|) + [Pattern(kind, 1)] + data
    case Arr(items) => PackArrHead(|items|) + PackAll(items)
    case Map(cells) => PackMapHead(|cells| / 2) + PackAll(cells)
  }

  function PackAll(items: seq<Obj>): seq<byte>
    requires AllFit(items)
  {
    if items == [] then [] else Pack(items[0]) + PackAll(items[1..])
  }

  // ---- decoder -----------------------------------------------------------

  datatype Fault = ParseError | TooDeep

  // Done: the value and the bytes it took. Fail: the bytes looked at, including
  // the one the fault is reported at. More: the input ends inside an object.
  datatype Outcome<T> = Done(v: T, n: nat) | More | Fail(e: Fault, n: nat)

  datatype NumKind = Unsigned | Signed | Float
  datatype BlobKind = StrBlob | BinBlob | ExtBlob

  // The format families. `width` bytes follow the header byte: the number itself,
  // or the length; with width 0 the length is in the header byte.
  datatype Format =
    | Imm(v: Obj)
    | Num(num: NumKind, width: nat)
    | Blob(blob: BlobKind, width: nat, len: nat)
    | Group(isMap: bool, width: nat, len: nat)
    | Reserved

  function FormatOf(b: byte): Format {
    if b < 0x80 then Imm(Pos(b))
    else if b < 0x90 then Group(true, 0, b - 0x80)
    else if b < 0xa0 then Group(false, 0, b - 0x90)
    else if b < 0xc0 then Blob(StrBlob, 0, b - 0xa0)
    else if b >= 0xe0 then Imm(Neg(b - 0x100))
    else if b == 0xc0 then Imm(Nil)
    else if b == 0xc2 then Imm(Bool(false))
    else if b == 0xc3 then Imm(Bool(true))
    else if 0xc4 <= b <= 0xc6 then Blob(BinBlob, Width(b - 0xc4), 0)
    else if 0xc7 <= b <= 0xc9 then Blob(ExtBlob, Width(b - 0xc7), 0)
    else if 0xca <= b <= 0xcb then Num(Float, Width(b - 0xca + 2))
    else if 0xcc <= b <= 0xcf then Num(Unsigned, Width(b - 0xcc))
    else if 0xd0 <= b <= 0xd3 then Num(Signed, Width(b - 0xd0))
    else if 0xd4 <= b <= 0xd8 then Blob(ExtBlob, 0, Width(b - 0xd4))
    else if 0xd9 <= b <= 0xdb then Blob(StrBlob, Width(b - 0xd9), 0)
    else if 0xdc <= b <= 0xdd then Group(false, Width(b - 0xdc + 1), 0)
    else if 0xde <= b <= 0xdf then Group(true, Width(b - 0xde + 1), 0)
    else Reserved
  }

  // The k-th size in a family: 1, 2, 4, 8, 16 bytes.
  function Width(k: nat): nat {
    if k == 0 then 1 else if k == 1 then 2 else if k == 2 then 4 else if k == 3 then 8 else 16
  }

  function Int(i: int): Obj {
    if i < 0 then Neg(i) else Pos(i)
  }

  function Number(num: NumKind, s: seq<byte>): Obj {
    match num
    case Unsigned => Pos(Load(s))
    case Signed => Int(ToSigned(Load(s), |s|))
    case Float => if |s| == 4 then F32(Load(s)) else F64(Load(s))
  }

  // Payload bytes of a blob of the given length. An ext payload starts with its
  // type byte; the sum is a 32-bit one, so the largest ext length wraps to zero.
  function PayloadSize(blob: BlobKind, len: nat): nat {
    if blob == ExtBlob then (len + 1) % WORD else len
  }

  function BlobObj(blob: BlobKind, s: seq<byte>): Obj
    requires blob == ExtBlob ==> s != []
  {
    match blob
    case StrBlob => Str(s)
    case BinBlob => Bin(s)
    case ExtBlob => Ext(ToSigned(s[0], 1), s[1..])
  }

  function DecodeBlob(blob: BlobKind, len: nat, s: seq<byte>, used: nat): (r: Outcome<Obj>)
    requires 1 <= used <= |s|
    ensures r.Done? ==> used <= r.n <= |s|
    ensures r.Fail? ==> r.n == used
  {
    var size := PayloadSize(blob, len);
    if blob == ExtBlob && size == 0 then Fail(ParseError, used)
    else if |s| < used + size then More
    else Done(BlobObj(blob, s[used..used + size]), used + size)
  }

  // The length of a Blob or Group: in the header byte, or in the bytes after it.
  function LengthOf(s: seq<byte>, width: nat, len: nat): nat
    requires 1 + width <= |s|
  {
    if width == 0 then len else Load(s[1..1 + width])
  }

  // One object from the front of s, inside `d` open containers.
  function Decode(s: seq<byte>, d: nat): (r: Outcome<Obj>)
    ensures r.Done? ==> 1 <= r.n <= |s|
    ensures r.Fail? ==> 1 <= r.n <= |s|
    decreases |s|, 1
  {
    if s == [] then More
    else
      match FormatOf(s[0])
      case Imm(v) => Done(v, 1)
      case Reserved => Fail(ParseError, 1)
      case Num(num, width) =>
        if |s| < 1 + width then More else Done(Number(num, s[1..1 + width]), 1 + width)
      case Blob(blob, width, len) =>
        if |s| < 1 + width then More
        else DecodeBlob(blob, LengthOf(s, width, len), s, 1 + width)
      case Group(isMap, width, len) =>
        if |s| < 1 + width then More
        else DecodeGroup(isMap, LengthOf(s, width, len), s, 1 + width, d)
  }

  // The container announced by the first `used` bytes of s.
  function DecodeGroup(isMap: bool, len: nat, s: seq<byte>, used: nat, d: nat): (r: Outcome<Obj>)
    requires 1 <= used <= |s|
    ensures r.Done? ==> used <= r.n <= |s|
    ensures r.Fail? ==> used <= r.n <= |s|
    decreases |s|, 0
  {
    if d >= MAX_DEPTH then Fail(TooDeep, used)
    else
      Wrapped(isMap, used, DecodeAll(s[used..], if isMap then 2 * len else len, d + 1))
  }

  // The container of those objects, behind a header of `used` bytes.
  function Wrapped(isMap: bool, used: nat, items: Outcome<seq<Obj>>): Outcome<Obj> {
    match items
    case Done(vs, k) => Done(if isMap then Map(vs) else Arr(vs), used + k)
    case More => More
    case Fail(e, k) => Fail(e, used + k)
  }

  function DecodeAll(s: seq<byte>, count: nat, d: nat): (r: Outcome<seq<Obj>>)
    ensures r.Done? ==> r.n <= |s| && |r.v| == count
    ensures r.Fail? ==> 1 <= r.n <= |s|
    decreases |s|, 2
  {
    if count == 0 then Done([], 0)
    else
      match Decode(s, d)
      case More => More
      case Fail(e, k) => Fail(e, k)
      case Done(v, n) => Cons(v, n, DecodeAll(s[n..], count - 1, d))
  }

  // The objects after v, whose n bytes came first.
  function Cons(v: Obj, n: nat, rest: Outcome<seq<Obj>>): Outcome<seq<Obj>> {
    match rest
    case Done(vs, k) => Done([v] + vs, n + k)
    case More => More
    case Fail(e, k) => Fail(e, n + k)
  }

  // ---- an answer depends only on the bytes it counts ----------------------------

  ghost predicate Agree(s: seq<byte>, t: seq<byte>, n: nat) {
    n <= |s| && n <= |t| && s[..n] == t[..n]
  }

  lemma AgreeSlice(s: seq<byte>, t: seq<byte>, n: nat, i: nat, j: nat)
    requires Agree(s, t, n) && i <= j <= n
    ensures s[i..j] == t[i..j]
    ensures Agree(s[i..], t[i..], n - i)
    ensures n > 0 ==> s[0] == t[0]
  {
    assert s[i..j] == s[..n][i..j] && t[i..j] == t[..n][i..j];
    assert s[i..][..n - i] == s[..n][i..] && t[i..][..n - i] == t[..n][i..];
    assert n > 0 ==> s[0] == s[..n][0] && t[0] == t[..n][0];
  }

  lemma AgreeLess(s: seq<byte>, t: seq<byte>, n: nat, k: nat)
    requires Agree(s, t, n) && k <= n
    ensures Agree(s, t, k)
  {
    assert s[..k] == s[..n][..k] && t[..k] == t[..n][..k];
  }

  lemma AgreeRest(s: seq<byte>, t: seq<byte>, n: nat, k: nat)
    requires Agree(s, t, n) && k <= n
    ensures Agree(s[k..], t[k..], n - k)
  {
    AgreeSlice(s, t, n, k, k);
  }

  lemma {:induction false} DecodeLocal(s: seq<byte>, t: seq<byte>, d: nat)
    requires var r := Decode(s, d); !r.More? && Agree(s, t, r.n)
    ensures Decode(t, d) == Decode(s, d)
    decreases |s|, 1
  {
    var r := Decode(s, d);
    AgreeSlice(s, t, r.n, 0, 0);
    match FormatOf(s[0])
    case Imm(v) =>
    case Reserved =>
    case Num(num, width) => AgreeSlice(s, t, r.n, 1, 1 + width);
    case Blob(_, _, _) => BlobLocal(s, t, d);
    case Group(isMap, width, len) =>
      AgreeSlice(s, t, r.n, 1, 1 + width);
      GroupLocal(isMap, LengthOf(s, width, len), s, t, 1 + width, d);
  }

  lemma BlobLocal(s: seq<byte>, t: seq<byte>, d: nat)
    requires s != [] && FormatOf(s[0]).Blob?
    requires var r := Decode(s, d); !r.More? && Agree(s, t, r.n)
    ensures Decode(t, d) == Decode(s, d)
  {
    var f, r := FormatOf(s[0]), Decode(s, d);
    AgreeSlice(s, t, r.n, 1, 1 + f.width);
    assert LengthOf(s, f.width, f.len) == LengthOf(t, f.width, f.len);
    if r.Done? {
      AgreeSlice(s, t, r.n, 1 + f.width, r.n);
    }
  }

  lemma {:induction false} GroupLocal(isMap: bool, len: nat, s: seq<byte>, t: seq<byte>, used: nat, d: nat)
    requires 1 <= used <= |s|
    requires var r := DecodeGroup(isMap, len, s, used, d); !r.More? && Agree(s, t, r.n)
    ensures DecodeGroup(isMap, len, t, used, d) == DecodeGroup(isMap, len, s, used, d)
    decreases |s|, 0
  {
    if d < MAX_DEPTH {
      AgreeSlice(s, t, DecodeGroup(isMap, len, s, used, d).n, used, used);
      DecodeAllLocal(s[used..], t[used..], if isMap then 2 * len else len, d + 1);
    }
  }

  lemma DecodeAllStep(s: seq<byte>, count: nat, d: nat)
    requires count > 0
    ensures match Decode(s, d)
      case More => DecodeAll(s, count, d) == More
      case Fail(e, k) => DecodeAll(s, count, d) == Fail(e, k)
      case Done(v, n) => DecodeAll(s, count, d) == Cons(v, n, DecodeAll(s[n..], count - 1, d))
  {
  }

  lemma {:induction false} DecodeAllLocal(s: seq<byte>, t: seq<byte>, count: nat, d: nat)
    requires var r := DecodeAll(s, count, d); !r.More? && Agree(s, t, r.n)
    ensures DecodeAll(t, count, d) == DecodeAll(s, count, d)
    decreases |s|, 2
  {
    if count > 0 {
      var n, first := DecodeAll(s, count, d).n, Decode(s, d);
      DecodeAllStep(s, count, d);
      AgreeLess(s, t, n, first.n);
      DecodeLocal(s, t, d);
      if first.Done? {
        AgreeRest(s, t, n, first.n);
        DecodeAllLocal(s[first.n..], t[first.n..], count - 1, d);
      }
      DecodeAllStep(t, count, d);
    }
  }

  // More input does not change an answer, and an object decodes from its own bytes.
  lemma DecodeStable(s: seq<byte>, t: seq<byte>, d: nat)
    requires !Decode(s, d).More?
    ensures Decode(s + t, d) == Decode(s, d)
  {
    var n := Decode(s, d).n;
    assert (s + t)[..n] == s[..n];
    DecodeLocal(s, s + t, d);
  }

  lemma DecodeExact(s: seq<byte>, d: nat)
    requires Decode(s, d).Done?
    ensures Decode(s[..Decode(s, d).n], d) == Decode(s, d)
  {
    var n := Decode(s, d).n;
    assert s[..n][..n] == s[..n];
    DecodeLocal(s, s[..n], d);
  }

  // Every proper prefix of a decoded object needs more input: the code is
  // prefix-free and the decoder never reads past the object.
  lemma DecodePrefix(s: seq<byte>, d: nat, k: nat)
    requires Decode(s, d).Done? && k < Decode(s, d).n
    ensures Decode(s[..k], d) == More
  {
    assert s[..k] + s[k..] == s;
    if !Decode(s[..k], d).More? {
      DecodeStable(s[..k], s[k..], d);
    }
  }
}
