/**
 The MessagePack loader's typed getters, and what they return on a loaded dump: the
 document that was described to the dumper, part by part.
 */
module MsgLoader {
  import opened Bytes
  import opened MsgPack
  import opened MsgEvents
  import opened MsgUnpack
  import opened MsgDumper
  import opened Sizes
  import opened Wrappers

  // OPType_objectType
  datatype Kind = NullKind | BoolKind | IntKind | RealKind | StrKind | BinKind | ArrKind | DictKind

  datatype RealValue = Single(bits: nat) | Double(bits: nat)

  function GetType(o: Obj): Kind {
    match o
    case Arr(_) => ArrKind
    case Map(_) => DictKind
    case Bool(_) => BoolKind
    case F32(_) => RealKind
    case F64(_) => RealKind
    case Pos(_) => IntKind
    case Neg(_) => IntKind
    case Bin(_) => BinKind
    case Str(_) => StrKind
    case _ => NullKind
  }

  function GetBool(o: Obj): Option<bool> {
    if o.Bool? then Some(o.b) else None
  }

  // Both integer getters cast the 64 bits that are there.
  function GetSigned(o: Obj): Option<int> {
    if o.Pos? then Some(ToSigned(Pattern(o.u, 8), 8)) else if o.Neg? then Some(o.i) else None
  }

  function GetUnsigned(o: Obj): Option<nat> {
    if o.Pos? then Some(o.u) else if o.Neg? then Some(Pattern(o.i, 8)) else None
  }

  function GetReal(o: Obj): Option<RealValue> {
    if o.F32? then Some(Single(o.bits)) else if o.F64? then Some(Double(o.bits)) else None
  }

  // At most `room` bytes, of which the NUL behind a string takes one.
  function GetString(o: Obj, room: nat): Option<seq<byte>>
    requires room > 0
  {
    if !o.Str? then None else Some(if room <= |o.text| then o.text[..room - 1] else o.text)
  }

  function GetBinary(o: Obj, room: nat): Option<seq<byte>> {
    if !o.Bin? then None else Some(if room <= |o.data| then o.data[..room] else o.data)
  }

  // It asks for the type of a string.
  function GetBinaryRaw(o: Obj): Option<seq<byte>> {
    if o.Str? then Some(o.text) else None
  }

  function ArrayCount(o: Obj): Option<nat> {
    if o.Arr? then Some(|o.items|) else None
  }

  function ArrayGet(o: Obj, k: nat): Option<Obj> {
    if o.Arr? && k < |o.items| then Some(o.items[k]) else None
  }

  function DictCount(o: Obj): Option<nat> {
    if o.Map? then Some(|o.cells| / 2) else None
  }

  // Keys are copied to a buffer of 128 bytes.
  function KeyCopy(key: seq<byte>): seq<byte> {
    if 128 <= |key| then key[..127] else key
  }

  // The copy of the k-th key and its value. Keys are taken for strings.
  function DictAt(o: Obj, k: nat): Option<(seq<byte>, Obj)>
    requires o.Map? && k < |o.cells| / 2 ==> o.cells[2 * k].Str?
  {
    if o.Map? && k < |o.cells| / 2 then Some((KeyCopy(o.cells[2 * k].text), o.cells[2 * k + 1])) else None
  }

  // ---- a document, seen through the getters ----------------------------------------------

  function KindOf(d: Doc): Kind {
    match d
    case DNull => NullKind
    case DBool(_) => BoolKind
    case DInt(_) => IntKind
    case DUint(_) => IntKind
    case DFloat(_) => RealKind
    case DDouble(_) => RealKind
    case DStr(_) => StrKind
    case DBin(_) => BinKind
    case DArr(_) => ArrKind
    case DDict(_) => DictKind
  }

  // All of s, or its first n bytes.
  function FirstOf(s: seq<byte>, n: nat): (r: seq<byte>)
    ensures r <= s && (|r| == n || r == s) && |r| <= n
  {
    if n < |s| then s[..n] else s
  }

  // The getters of the document's kind, applied to o, return the document.
  ghost predicate Reads(o: Obj, d: Doc)
    decreases d, 0
  {
    GetType(o) == KindOf(d)
    && match d
       case DNull => true
       case DBool(b) => GetBool(o) == Some(b)
       case DInt(i) => GetSigned(o) == Some(i)
       case DUint(u) => GetUnsigned(o) == Some(u)
       case DFloat(bits) => GetReal(o) == Some(Single(bits))
       case DDouble(bits) => GetReal(o) == Some(Double(bits))
       case DStr(text) => forall room | room > 0 :: GetString(o, room) == Some(FirstOf(text, room - 1))
       case DBin(data) => forall room | room >= 0 :: GetBinary(o, room) == Some(FirstOf(data, room))
       case DArr(items) => ArrayCount(o) == Some(|items|) && forall k | 0 <= k < |items| :: ItemReads(o, items[k], k)
       case DDict(members) =>
         DictCount(o) == Some(|members|) && forall k | 0 <= k < |members| :: MemberReads(o, members[k], k)
  }

  ghost predicate ItemReads(o: Obj, d: Doc, k: nat)
    decreases d, 1
  {
    ArrayGet(o, k).Some? && Reads(ArrayGet(o, k).value, d)
  }

  ghost predicate MemberReads(o: Obj, m: Member, k: nat)
    decreases m
  {
    && o.Map? && k < |o.cells| / 2 && o.cells[2 * k].Str?
    && DictAt(o, k).Some?
    && DictAt(o, k).value.0 == FirstOf(m.key, 127)
    && Reads(DictAt(o, k).value.1, m.value)
  }

  lemma {:induction false} TreesAt(items: seq<Doc>, k: nat)
    requires k < |items|
    ensures Trees(items)[k] == Tree(items[k])
  {
    if k > 0 { TreesAt(items[1..], k - 1); }
  }

  lemma {:induction false} CellsAt(members: seq<Member>, k: nat)
    requires k < |members|
    ensures Cells(members)[2 * k] == Str(members[k].key) && Cells(members)[2 * k + 1] == Tree(members[k].value)
  {
    if k > 0 {
      CellsAt(members[1..], k - 1);
      assert Cells(members)[2 * k] == Cells(members[1..])[2 * (k - 1)];
      assert Cells(members)[2 * k + 1] == Cells(members[1..])[2 * (k - 1) + 1];
    }
  }

  lemma {:induction false} ItemsOk(items: seq<Doc>, k: nat)
    requires DocsOk(items) && k < |items|
    ensures DocOk(items[k])
  {
    if k > 0 { ItemsOk(items[1..], k - 1); }
  }

  lemma {:induction false} MembersAreOk(members: seq<Member>, k: nat)
    requires MembersOk(members) && k < |members|
    ensures DocOk(members[k].value)
  {
    if k > 0 { MembersAreOk(members[1..], k - 1); }
  }

  lemma ScalarReads(d: Doc)
    requires DocOk(d) && !d.DArr? && !d.DDict?
    ensures Reads(Tree(d), d)
  {
    match d
    case DInt(i) =>
      Ranges();
      if i >= 0 { SignedRoundTrip(i, 8); }
    case DBin(data) => assert data[..|data|] == data;
    case _ =>
  }

  lemma {:induction false} TreeReads(d: Doc)
    requires DocOk(d)
    ensures Reads(Tree(d), d)
    decreases d
  {
    match d
    case DArr(items) =>
      forall k | 0 <= k < |items| ensures ItemReads(Tree(d), items[k], k) {
        ItemsOk(items, k);
        TreesAt(items, k);
        TreeReads(items[k]);
      }
    case DDict(members) =>
      forall k | 0 <= k < |members| ensures MemberReads(Tree(d), members[k], k) {
        MembersAreOk(members, k);
        CellsAt(members, k);
        TreeReads(members[k].value);
      }
    case _ => ScalarReads(d);
  }

  // Dumping a document of at most 32 nested containers and loading what was dumped gives an object
  // whose getters return the document.
  lemma DumpedReads(d: Doc)
    requires DocOk(d) && DocDepth(d) <= 32
    ensures EventsOk(Events(d))
    ensures
      var s := EmitsAll(Events(d));
      var r := Decode(s, 0);
      r.Done? && r.n == |s| && Reads(r.v, d)
  {
    DumpedLoads(d);
    TreeReads(d);
  }

  // ---- reading a number as the other kind -------------------------------------------------

  // An unsigned value reads back signed as itself exactly below 2^63, a signed one unsigned exactly
  // from zero on; else the result is 2^64 off.
  lemma NumbersCross(i: int, u: nat)
    requires -(LONG / 2) <= i < LONG / 2 && u < LONG
    ensures GetSigned(Tree(DUint(u))) == Some(if u < 0x8000_0000_0000_0000 then u else u - 0x1_0000_0000_0000_0000)
    ensures GetUnsigned(Tree(DInt(i))) == Some(if i >= 0 then i else i + 0x1_0000_0000_0000_0000)
  {
    Ranges();
  }

  // The raw getter for binaries finds no dumped binary, only strings.
  lemma NoRawBinary(d: Doc)
    requires DocOk(d)
    ensures d.DBin? ==> GetBinaryRaw(Tree(d)) == None
    ensures GetBinaryRaw(Tree(d)).Some? <==> d.DStr?
  {
  }

  // ---- loading -------------------------------------------------------------------------

  // load: one object that uses the whole stream.
  method Load(stream: array<byte>, len: nat) returns (ok: bool, root: Obj)
    requires len <= stream.Length
    ensures ok <==> Decode(stream[..len], 0).Done? && Decode(stream[..len], 0).n == len
    ensures ok ==> root == Decode(stream[..len], 0).v
  {
    assert stream[0..len] == stream[..len];
    var ret, end;
    ret, end, root := Unpack(stream, len, 0);
    ok := ret == SUCCESS;
  }

  // A client describes a document to a dumper, and a loader gets what was dumped.
  method DumpThenLoad(d: Doc) returns (ok: bool, root: Obj)
    requires DocOk(d) && EventsOk(Events(d)) && |EmitsAll(Events(d))| + 9 < SIZE_MOD
    ensures ok <==> DocDepth(d) <= 32
    ensures ok ==> Reads(root, d)
  {
    var dumper := new Dumper();
    dumper.HandleAll(Events(d));
    var sink := dumper.sbuf;
    ok, root := Load(sink.data, sink.size);
    assert sink.data[..sink.size] == EmitsAll(Events(d));
    DumpedLoads(d);
    if ok { TreeReads(d); }
  }
}
