/**
 The dumper's event interface over MessagePack: dictionary and array brackets, keys
 and values, each appended as it comes. A well-bracketed event sequence leaves the
 bytes of the encoder on the tree it spells out.
 */
module MsgEvents {
  import opened Bytes
  import opened MsgPack
  import MsgRoundTrip

  // What a client describes through the interface.
  datatype Doc =
    | DNull
    | DBool(b: bool)
    | DInt(i: int)
    | DUint(u: nat)
    | DFloat(bits: nat)
    | DDouble(bits: nat)
    | DStr(text: seq<byte>)
    | DBin(data: seq<byte>)
    | DArr(items: seq<Doc>)
    | DDict(members: seq<Member>)

  datatype Member = Member(key: seq<byte>, value: Doc)

  datatype Event =
    | DictStart(count: nat)
    | DictEnd
    | SetKey(key: seq<byte>)
    | ArrStart(count: nat)
    | ArrEnd
    | SetValue(v: Doc)

  // Arguments in the range of their C types.
  predicate DocOk(d: Doc) {
    match d
    case DInt(i) => -(LONG / 2) <= i < LONG / 2
    case DUint(u) => u < LONG
    case DFloat(bits) => bits < WORD
    case DDouble(bits) => bits < LONG
    case DStr(text) => |text| < WORD
    case DBin(data) => |data| < WORD
    case DArr(items) => |items| < WORD && DocsOk(items)
    case DDict(members) => |members| < WORD && MembersOk(members)
    case _ => true
  }

  // In numbers: every null and boolean, 64-bit integers, float patterns, lengths below 2^32.
  lemma DocOkInNumbers(b: bool, i: int, u: nat, text: seq<byte>)
    ensures DocOk(DNull) && DocOk(DBool(b))
    ensures DocOk(DInt(i)) <==> -0x8000_0000_0000_0000 <= i <= 0x7fff_ffff_ffff_ffff
    ensures DocOk(DUint(u)) <==> u <= 0xffff_ffff_ffff_ffff
    ensures DocOk(DFloat(u)) <==> u <= 0xffff_ffff
    ensures DocOk(DDouble(u)) <==> u <= 0xffff_ffff_ffff_ffff
    ensures DocOk(DStr(text)) && DocOk(DBin(text)) <==> |text| <= 0xffff_ffff
  {
  }

  predicate DocsOk(items: seq<Doc>) {
    items == [] || (DocOk(items[0]) && DocsOk(items[1..]))
  }

  predicate MembersOk(members: seq<Member>) {
    members == [] || (|members[0].key| < WORD && DocOk(members[0].value) && MembersOk(members[1..]))
  }

  // The object a document stands for.
  function Tree(d: Doc): Obj {
    match d
    case DNull => Nil
    case DBool(b) => Bool(b)
    case DInt(i) => Int(i)
    case DUint(u) => Pos(u)
    case DFloat(bits) => F32(bits)
    case DDouble(bits) => F64(bits)
    case DStr(text) => Str(text)
    case DBin(data) => Bin(data)
    case DArr(items) => Arr(Trees(items))
    case DDict(members) => Map(Cells(members))
  }

  function Trees(items: seq<Doc>): (r: seq<Obj>)
    ensures |r| == |items|
  {
    if items == [] then [] else [Tree(items[0])] + Trees(items[1..])
  }

  function Cells(members: seq<Member>): (r: seq<Obj>)
    ensures |r| == 2 * |members|
  {
    if members == [] then []
    else [Str(members[0].key), Tree(members[0].value)] + Cells(members[1..])
  }

  // The calls that describe a document.
  function Events(d: Doc): seq<Event> {
    match d
    case DArr(items) => [ArrStart(|items|)] + ItemEvents(items) + [ArrEnd]
    case DDict(members) => [DictStart(|members|)] + MemberEvents(members) + [DictEnd]
    case _ => [SetValue(d)]
  }

  function ItemEvents(items: seq<Doc>): seq<Event> {
    if items == [] then [] else Events(items[0]) + ItemEvents(items[1..])
  }

  function MemberEvents(members: seq<Member>): seq<Event> {
    if members == [] then []
    else [SetKey(members[0].key)] + (Events(members[0].value) + MemberEvents(members[1..]))
  }

  // Calls a client can make: values are scalars in range, keys fit their size field.
  predicate EventOk(e: Event) {
    match e
    case SetKey(key) => |key| < WORD
    case SetValue(v) => DocOk(v) && !v.DArr? && !v.DDict?
    case _ => true
  }

  predicate EventsOk(es: seq<Event>) {
    es == [] || (EventOk(es[0]) && EventsOk(es[1..]))
  }

  lemma TreeFits(d: Doc)
    requires DocOk(d) && !d.DArr? && !d.DDict?
    ensures Fits(Tree(d))
  {
  }

  function Emits(e: Event): seq<byte>
    requires EventOk(e)
  {
    match e
    case DictStart(count) => PackMapHead(count)
    case ArrStart(count) => PackArrHead(count)
    case DictEnd => []
    case ArrEnd => []
    case SetKey(key) => PackStrHead(|key|) + key
    case SetValue(v) => TreeFits(v); Pack(Tree(v))
  }

  function EmitsAll(es: seq<Event>): seq<byte>
    requires EventsOk(es)
  {
    if es == [] then [] else Emits(es[0]) + EmitsAll(es[1..])
  }

  lemma EmitsStep(es: seq<Event>, i: nat)
    requires i < |es| && EventsOk(es[i..])
    ensures EventOk(es[i]) && EventsOk(es[i + 1..])
    ensures EmitsAll(es[i..]) == Emits(es[i]) + EmitsAll(es[i + 1..])
  {
    assert es[i..][1..] == es[i + 1..];
  }

  lemma Assoc(a: seq<byte>, b: seq<byte>, c: seq<byte>)
    ensures (a + b) + c == a + (b + c)
  {
  }

  // ---- the events of a document emit its encoding -----------------------------------

  lemma {:induction false} EmitsConcat(a: seq<Event>, b: seq<Event>)
    requires EventsOk(a) && EventsOk(b)
    ensures EventsOk(a + b) && EmitsAll(a + b) == EmitsAll(a) + EmitsAll(b)
  {
    if a == [] {
      assert a + b == b;
    } else {
      assert (a + b)[0] == a[0] && (a + b)[1..] == a[1..] + b;
      EmitsConcat(a[1..], b);
    }
  }

  lemma EmitsOne(e: Event)
    requires EventOk(e)
    ensures EventsOk([e]) && EmitsAll([e]) == Emits(e)
  {
    assert [e][1..] == [];
  }

  // Start bracket, contents, end bracket.
  lemma EmitsBracketed(open: Event, es: seq<Event>, close: Event)
    requires EventOk(open) && EventsOk(es) && EventOk(close) && Emits(close) == []
    ensures EventsOk([open] + es + [close])
    ensures EmitsAll([open] + es + [close]) == Emits(open) + EmitsAll(es)
  {
    EmitsOne(open);
    EmitsOne(close);
    EmitsConcat([open], es);
    EmitsConcat([open] + es, [close]);
  }

  lemma {:induction false} EventsAreEncoding(d: Doc)
    requires DocOk(d)
    ensures Fits(Tree(d)) && EventsOk(Events(d)) && EmitsAll(Events(d)) == Pack(Tree(d))
    decreases d, 1
  {
    match d
    case DArr(items) =>
      ItemEventsAreEncoding(items);
      EmitsBracketed(ArrStart(|items|), ItemEvents(items), ArrEnd);
    case DDict(members) =>
      MemberEventsAreEncoding(members);
      EmitsBracketed(DictStart(|members|), MemberEvents(members), DictEnd);
    case _ => ValueEvent(d);
  }

  lemma ValueEvent(d: Doc)
    requires DocOk(d) && !d.DArr? && !d.DDict?
    ensures Fits(Tree(d)) && EventsOk(Events(d)) && EmitsAll(Events(d)) == Pack(Tree(d))
  {
    TreeFits(d);
    EmitsOne(Event.SetValue(d));
  }

  lemma {:induction false} ItemEventsAreEncoding(items: seq<Doc>)
    requires DocsOk(items)
    ensures AllFit(Trees(items)) && EventsOk(ItemEvents(items))
    ensures EmitsAll(ItemEvents(items)) == PackAll(Trees(items))
    decreases items, 0
  {
    if items != [] {
      EventsAreEncoding(items[0]);
      ItemEventsAreEncoding(items[1..]);
      EmitsConcat(Events(items[0]), ItemEvents(items[1..]));
      assert Trees(items)[1..] == Trees(items[1..]);
    }
  }

  lemma {:induction false} MemberEventsAreEncoding(members: seq<Member>)
    requires MembersOk(members)
    ensures AllFit(Cells(members)) && EventsOk(MemberEvents(members))
    ensures EmitsAll(MemberEvents(members)) == PackAll(Cells(members))
    decreases members, 0
  {
    if members != [] {
      var key, v, rest := members[0].key, members[0].value, members[1..];
      EventsAreEncoding(v);
      MemberEventsAreEncoding(rest);
      EmitsConcat(Events(v), MemberEvents(rest));
      EmitsOne(SetKey(key));
      EmitsConcat([SetKey(key)], Events(v) + MemberEvents(rest));
      PackPair(Str(key), Tree(v), Cells(rest));
    }
  }

  lemma PackPair(k: Obj, v: Obj, rest: seq<Obj>)
    requires Fits(k) && Fits(v) && AllFit(rest)
    ensures AllFit([k, v] + rest) && PackAll([k, v] + rest) == Pack(k) + (Pack(v) + PackAll(rest))
  {
    var cells := [k, v] + rest;
    assert cells[1..] == [v] + rest && cells[1..][1..] == rest;
  }

  // ---- dumped, then loaded -------------------------------------------------------------

  function DocDepth(d: Doc): nat {
    match d
    case DArr(items) => 1 + DocsDepth(items)
    case DDict(members) => 1 + MembersDepth(members)
    case _ => 0
  }

  function DocsDepth(items: seq<Doc>): nat {
    if items == [] then 0 else
      var a, b := DocDepth(items[0]), DocsDepth(items[1..]);
      if a > b then a else b
  }

  function MembersDepth(members: seq<Member>): nat {
    if members == [] then 0 else
      var a, b := DocDepth(members[0].value), MembersDepth(members[1..]);
      if a > b then a else b
  }

  lemma {:induction false} TreeIsPlain(d: Doc)
    ensures MsgRoundTrip.Plain(Tree(d)) && Depth(Tree(d)) == DocDepth(d)
    decreases d, 1
  {
    match d
    case DArr(items) => TreesArePlain(items);
    case DDict(members) => CellsArePlain(members);
    case _ =>
  }

  lemma {:induction false} TreesArePlain(items: seq<Doc>)
    ensures MsgRoundTrip.AllPlain(Trees(items)) && MaxDepth(Trees(items)) == DocsDepth(items)
    decreases items, 0
  {
    if items != [] {
      TreeIsPlain(items[0]);
      TreesArePlain(items[1..]);
      assert Trees(items)[1..] == Trees(items[1..]);
    }
  }

  lemma {:induction false} CellsArePlain(members: seq<Member>)
    ensures MsgRoundTrip.AllPlain(Cells(members)) && MaxDepth(Cells(members)) == MembersDepth(members)
    decreases members, 0
  {
    if members != [] {
      TreeIsPlain(members[0].value);
      CellsArePlain(members[1..]);
      PlainPair(members[0].key, Tree(members[0].value), Cells(members[1..]));
    }
  }

  lemma PlainPair(key: seq<byte>, v: Obj, rest: seq<Obj>)
    requires MsgRoundTrip.Plain(v) && MsgRoundTrip.AllPlain(rest)
    ensures MsgRoundTrip.AllPlain([Str(key), v] + rest)
    ensures MaxDepth([Str(key), v] + rest) == if Depth(v) > MaxDepth(rest) then Depth(v) else MaxDepth(rest)
  {
    var cells := [Str(key), v] + rest;
    assert cells[1..] == [v] + rest && cells[1..][1..] == rest;
    assert cells[1..][0] == v;
    assert MsgRoundTrip.AllPlain(cells[1..]);
  }

  // What a document's events leave in the sink decodes to the document's tree, using
  // all of it, if the document is at most 32 containers deep; if not, it is too deep.
  lemma DumpedLoads(d: Doc)
    requires DocOk(d)
    ensures EventsOk(Events(d)) && Fits(Tree(d))
    ensures
      var s := EmitsAll(Events(d));
      var r := Decode(s, 0);
      if DocDepth(d) <= 32 then r == Done(Tree(d), |s|) else r.Fail? && r.e == TooDeep
  {
    EventsAreEncoding(d);
    TreeIsPlain(d);
    var s := EmitsAll(Events(d));
    assert s + [] == s;
    if DocDepth(d) <= 32 { MsgRoundTrip.RoundTrip(Tree(d), []); } else { MsgRoundTrip.TooDeepFaults(Tree(d), []); }
  }
}
