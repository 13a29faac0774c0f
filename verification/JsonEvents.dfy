/**
 The events of the dumper's interface and what the JSON writer's text becomes under each. Every
 value is followed at once by the comma and indentation of a next entry; a closing bracket
 takes the last of these back. On the events of a tree the result is the tree's
 serialization.
 */
module JsonEvents {
  import opened JsonText

  datatype Event =
    | Start(dict: bool, count: nat)
    | End(dict: bool)
    | SetKey(key: string)
    | SetValue(v: Json)

  // The calls that describe a tree.
  function Events(j: Json): seq<Event>
    decreases j
  {
    match j
    case Node(dict, entries) => [Start(dict, |entries|)] + EntryEvents(dict, entries) + [End(dict)]
    case _ => [SetValue(j)]
  }

  function EntryEvents(dict: bool, entries: seq<Entry>): seq<Event>
    decreases entries
  {
    if entries == [] then []
    else KeyEvent(dict, entries[0].key) + Events(entries[0].value) + EntryEvents(dict, entries[1..])
  }

  function KeyEvent(dict: bool, key: string): seq<Event> {
    if dict then [SetKey(key)] else []
  }

  // Brackets close only what is open, and values are scalars.
  predicate Allowed(e: Event, depth: nat) {
    (e.End? ==> depth > 0) && (e.SetValue? ==> !e.v.Node?)
  }

  function DepthAfter(e: Event, depth: nat): nat
    requires Allowed(e, depth)
  {
    match e
    case Start(_, _) => depth + 1
    case End(_) => depth - 1
    case _ => depth
  }

  predicate Legal(es: seq<Event>, depth: nat) {
    es == [] || (Allowed(es[0], depth) && Legal(es[1..], DepthAfter(es[0], depth)))
  }

  datatype State = State(text: string, depth: nat)

  // What vars_termination appends.
  function Trailer(readable: bool, depth: nat): string {
    if depth == 0 then "" else "," + Sep(readable, depth)
  }

  // The text inside a container ends with something for its closing bracket to take back.
  predicate Ready(s: State, readable: bool) {
    s.depth > 0 ==> |s.text| >= 1 + |Sep(readable, s.depth)|
  }

  function Put(s: State, value: string, readable: bool): State {
    State(s.text + (value + Trailer(readable, s.depth)), s.depth)
  }

  function Apply(e: Event, s: State, readable: bool): (r: State)
    requires Allowed(e, s.depth) && Ready(s, readable)
    ensures Ready(r, readable) && r.depth == DepthAfter(e, s.depth)
  {
    match e
    case Start(dict, count) =>
      State(s.text + (Open(dict) + Sep(readable, s.depth + 1) + if count == 0 then " " else ""), s.depth + 1)
    case End(dict) =>
      var kept := s.text[..|s.text| - 1 - |Sep(readable, s.depth)|];
      Put(State(kept, s.depth - 1), Sep(readable, s.depth - 1) + Close(dict), readable)
    case SetKey(key) => State(s.text + Lead(true, key, readable), s.depth)
    case SetValue(v) => Put(s, Scalar(v), readable)
  }

  function ApplyAll(es: seq<Event>, s: State, readable: bool): State
    requires Legal(es, s.depth) && Ready(s, readable)
  {
    if es == [] then s else ApplyAll(es[1..], Apply(es[0], s, readable), readable)
  }

  // --- The events of a tree write its serialization

  // Every entry with the separator that follows it.
  function Elements(dict: bool, entries: seq<Entry>, readable: bool, depth: nat): string {
    if entries == [] then ""
    else
      EntryText(dict, entries[0], readable, depth) + ("," + Sep(readable, depth))
      + Elements(dict, entries[1..], readable, depth)
  }

  lemma Rejoin(first: string, sep: string, rest: string)
    ensures first + sep + (rest + sep) == first + (sep + rest) + sep
  {
  }

  lemma {:induction false} ElementsAreJoined(dict: bool, entries: seq<Entry>, readable: bool, depth: nat)
    requires entries != []
    ensures Elements(dict, entries, readable, depth)
         == Join(dict, entries, readable, depth) + ("," + Sep(readable, depth))
  {
    var sep := "," + Sep(readable, depth);
    if |entries| > 1 {
      ElementsAreJoined(dict, entries[1..], readable, depth);
      JoinText(dict, entries, readable, depth);
      Rejoin(EntryText(dict, entries[0], readable, depth), sep, Join(dict, entries[1..], readable, depth));
    } else {
      assert Elements(dict, entries[1..], readable, depth) == "";
    }
  }

  // What precedes the separator a closing bracket takes back.
  lemma InnerText(
      dict: bool, entries: seq<Entry>, readable: bool, depth: nat, before: string, start: string, sep: string)
    requires sep == Sep(readable, depth)
    requires start == before + (Open(dict) + sep + if |entries| == 0 then " " else "")
    ensures
      var text := start + Elements(dict, entries, readable, depth);
      |text| >= 1 + |sep| && text[..|text| - 1 - |sep|] == before + (Open(dict) + Inner(dict, entries, readable, depth))
  {
    if entries == [] {
      assert Elements(dict, entries, readable, depth) == "";
      Split(before, Open(dict), sep, "", " ");
    } else {
      ElementsAreJoined(dict, entries, readable, depth);
      Split(before, Open(dict), sep, Join(dict, entries, readable, depth), ",");
    }
  }

  lemma StartText(dict: bool, count: nat, s: State, readable: bool)
    requires Ready(s, readable)
    ensures Apply(Start(dict, count), s, readable)
         == State(s.text + (Open(dict) + Sep(readable, s.depth + 1) + if count == 0 then " " else ""), s.depth + 1)
  {
  }

  lemma InnerLeft(dict: bool, entries: seq<Entry>, s: State, readable: bool)
    requires Ready(s, readable)
    ensures
      var s1 := Apply(Start(dict, |entries|), s, readable);
      var text, sep := s1.text + Elements(dict, entries, readable, s1.depth), Sep(readable, s1.depth);
      |text| >= 1 + |sep|
      && text[..|text| - 1 - |sep|] == s.text + (Open(dict) + Inner(dict, entries, readable, s1.depth))
  {
    var s1 := Apply(Start(dict, |entries|), s, readable);
    StartText(dict, |entries|, s, readable);
    InnerText(dict, entries, readable, s1.depth, s.text, s1.text, Sep(readable, s1.depth));
  }

  lemma Split(before: string, open: string, sep: string, inner: string, mark: string)
    requires |mark| == 1
    ensures
      var text := before + (open + sep + "") + (inner + (mark + sep));
      |text| >= 1 + |sep| && text[..|text| - 1 - |sep|] == before + (open + (sep + inner))
    ensures
      var text := before + (open + sep + mark) + "";
      |text| >= 1 + |sep| && text[..|text| - 1 - |sep|] == before + (open + "")
  {
    var text := before + (open + sep + "") + (inner + (mark + sep));
    assert text == (before + (open + (sep + inner))) + (mark + sep);
    var empty := before + (open + sep + mark) + "";
    assert empty == (before + (open + "")) + (sep + mark);
  }

  lemma Cons(e: Event, es: seq<Event>)
    ensures ([e] + es)[0] == e && ([e] + es)[1..] == es
  {
  }

  lemma ApplyCons(e: Event, es: seq<Event>, s: State, readable: bool)
    requires Allowed(e, s.depth) && Ready(s, readable) && Legal(es, Apply(e, s, readable).depth)
    ensures Legal([e] + es, s.depth)
    ensures ApplyAll([e] + es, s, readable) == ApplyAll(es, Apply(e, s, readable), readable)
  {
    Cons(e, es);
  }

  lemma {:induction false} WriterIsText(j: Json, es: seq<Event>, s: State, readable: bool)
    requires Ready(s, readable) && Legal(es, s.depth)
    ensures Legal(Events(j) + es, s.depth)
    ensures ApplyAll(Events(j) + es, s, readable)
         == ApplyAll(es, Put(s, Text(j, readable, s.depth), readable), readable)
    decreases j
  {
    if j.Node? {
      assert j == Node(j.dict, j.entries);
      NodeIsWritten(j.dict, j.entries, es, s, readable);
    } else {
      ApplyCons(SetValue(j), es, s, readable);
    }
  }

  lemma {:induction false} NodeIsWritten(dict: bool, entries: seq<Entry>, es: seq<Event>, s: State, readable: bool)
    requires Ready(s, readable) && Legal(es, s.depth)
    ensures Legal(Events(Node(dict, entries)) + es, s.depth)
    ensures ApplyAll(Events(Node(dict, entries)) + es, s, readable)
         == ApplyAll(es, Put(s, Text(Node(dict, entries), readable, s.depth), readable), readable)
    decreases entries, 1
  {
    var open, close, inside := Start(dict, |entries|), End(dict), EntryEvents(dict, entries);
    var s1 := Apply(open, s, readable);
    var s2 := State(s1.text + Elements(dict, entries, readable, s1.depth), s1.depth);
    NodeEnds(dict, entries, s, readable);
    ApplyCons(close, es, s2, readable);
    EntriesAreWritten(dict, entries, [close] + es, s1, readable);
    ApplyCons(open, inside + ([close] + es), s, readable);
    NodeEvents(dict, entries, es);
  }

  lemma NodeEvents(dict: bool, entries: seq<Entry>, es: seq<Event>)
    ensures Events(Node(dict, entries)) + es
         == [Start(dict, |entries|)] + (EntryEvents(dict, entries) + ([End(dict)] + es))
  {
    Nested(Start(dict, |entries|), EntryEvents(dict, entries), End(dict), es);
  }

  // The closing bracket finds what it takes back, and the whole container stands there.
  lemma NodeEnds(dict: bool, entries: seq<Entry>, s: State, readable: bool)
    requires Ready(s, readable)
    ensures
      var s1 := Apply(Start(dict, |entries|), s, readable);
      var s2 := State(s1.text + Elements(dict, entries, readable, s1.depth), s1.depth);
      Ready(s2, readable)
      && Apply(End(dict), s2, readable) == Put(s, Text(Node(dict, entries), readable, s.depth), readable)
  {
    InnerLeft(dict, entries, s, readable);
    NodeClosed(dict, |entries|, Elements(dict, entries, readable, s.depth + 1),
      Inner(dict, entries, readable, s.depth + 1), s, readable);
  }

  lemma Nested(open: Event, inside: seq<Event>, close: Event, es: seq<Event>)
    ensures [open] + inside + [close] + es == [open] + (inside + ([close] + es))
  {
  }

  lemma Regroup(before: string, open: string, inner: string, close: string, trailer: string)
    ensures before + (open + inner) + (close + trailer) == before + (open + inner + close + trailer)
  {
  }

  // Opening, writing what ends in a separator, closing.
  lemma NodeClosed(dict: bool, count: nat, elements: string, inner: string, s: State, readable: bool)
    requires Ready(s, readable)
    requires
      var s1 := Apply(Start(dict, count), s, readable);
      var text, sep := s1.text + elements, Sep(readable, s1.depth);
      |text| >= 1 + |sep| && text[..|text| - 1 - |sep|] == s.text + (Open(dict) + inner)
    ensures
      var s1 := Apply(Start(dict, count), s, readable);
      var s2 := State(s1.text + elements, s1.depth);
      Ready(s2, readable)
      && Apply(End(dict), s2, readable) == Put(s, Open(dict) + inner + (Sep(readable, s.depth) + Close(dict)), readable)
  {
    var s2 := State(Apply(Start(dict, count), s, readable).text + elements, s.depth + 1);
    assert s2.text[..|s2.text| - 1 - |Sep(readable, s2.depth)|] == s.text + (Open(dict) + inner);
    Regroup(s.text, Open(dict), inner, Sep(readable, s.depth) + Close(dict), Trailer(readable, s.depth));
  }

  lemma {:induction false} EntriesAreWritten(dict: bool, entries: seq<Entry>, es: seq<Event>, s: State, readable: bool)
    requires s.depth > 0 && Ready(s, readable) && Legal(es, s.depth)
    ensures Legal(EntryEvents(dict, entries) + es, s.depth)
    ensures ApplyAll(EntryEvents(dict, entries) + es, s, readable)
         == ApplyAll(es, State(s.text + Elements(dict, entries, readable, s.depth), s.depth), readable)
    decreases entries, 0
  {
    if entries == [] {
      assert EntryEvents(dict, entries) + es == es && s.text + "" == s.text;
    } else {
      var e, rest := entries[0], entries[1..];
      var s1 := State(s.text + Lead(dict, e.key, readable), s.depth);
      var text, after := Text(e.value, readable, s.depth), Elements(dict, rest, readable, s.depth);
      var s2 := Put(s1, text, readable);
      EntriesAreWritten(dict, rest, es, s2, readable);
      WriterIsText(e.value, EntryEvents(dict, rest) + es, s1, readable);
      KeyIsWritten(dict, e.key, Events(e.value) + (EntryEvents(dict, rest) + es), s, readable);
      Listed(KeyEvent(dict, e.key), Events(e.value), EntryEvents(dict, rest), es);
      Laid(s.text, Lead(dict, e.key, readable), text, "," + Sep(readable, s.depth), after);
    }
  }

  lemma KeyIsWritten(dict: bool, key: string, es: seq<Event>, s: State, readable: bool)
    requires Ready(s, readable) && Legal(es, s.depth)
    ensures Legal(KeyEvent(dict, key) + es, s.depth)
    ensures
      var s1 := State(s.text + Lead(dict, key, readable), s.depth);
      Ready(s1, readable) && ApplyAll(KeyEvent(dict, key) + es, s, readable) == ApplyAll(es, s1, readable)
  {
    if dict {
      ApplyCons(SetKey(key), es, s, readable);
    } else {
      assert s.text + "" == s.text && [] + es == es;
    }
  }

  lemma Listed(key: seq<Event>, value: seq<Event>, rest: seq<Event>, es: seq<Event>)
    ensures key + value + rest + es == key + (value + (rest + es))
  {
  }

  lemma Laid(before: string, lead: string, text: string, sep: string, after: string)
    ensures before + lead + (text + sep) + after == before + (lead + text + sep + after)
  {
  }

  // A tree written to an empty dumper leaves exactly its serialization.
  lemma DumpIsText(j: Json, readable: bool)
    ensures Legal(Events(j), 0)
    ensures ApplyAll(Events(j), State("", 0), readable) == State(Text(j, readable, 0), 0)
  {
    WriterIsText(j, [], State("", 0), readable);
    assert Events(j) + [] == Events(j);
  }
}
