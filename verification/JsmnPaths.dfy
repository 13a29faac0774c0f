/**
 Paths of lookups through a parsed dump reach the tree's own parts, and the scalars found there
 read back as written.
 */
module JsmnPaths {
  import opened JsonText
  import opened Jsmn
  import opened JsmnRoundTrip
  import opened JsmnLookup
  import opened Wrappers
  import JsonEvents

  datatype PathStep = Item(index: nat) | Member(key: string)

  // --- Selecting in the tree

  function IndexOf(entries: seq<Entry>, key: string): (r: Option<nat>)
    ensures r.Some? ==> r.value < |entries| && entries[r.value].key == key
    ensures r.Some? ==> forall k :: 0 <= k < r.value ==> entries[k].key != key
    ensures r.None? ==> forall k :: 0 <= k < |entries| ==> entries[k].key != key
  {
    if entries == [] then None
    else if entries[0].key == key then Some(0)
    else
      match IndexOf(entries[1..], key)
      case None => None
      case Some(k) => Some(k + 1)
  }

  function ChildOf(j: Json, step: PathStep): Option<Json> {
    if !j.Node? then None
    else
      match step
      case Item(i) => if j.dict || i >= |j.entries| then None else Some(j.entries[i].value)
      case Member(key) =>
        if !j.dict then None
        else
          match IndexOf(j.entries, key)
          case None => None
          case Some(k) => Some(j.entries[k].value)
  }

  function Select(j: Json, path: seq<PathStep>): Option<Json>
    decreases |path|
  {
    if path == [] then Some(j)
    else
      match ChildOf(j, path[0])
      case None => None
      case Some(c) => Select(c, path[1..])
  }

  // --- Looking up in the tokens

  predicate Usable(toks: seq<Token>, r: Range) { InArray(toks, r) && KeysLead(toks, r) }

  function Lookup(js: string, toks: seq<Token>, r: Range, step: PathStep): Option<Range>
    requires Usable(toks, r)
  {
    match step
    case Item(i) => ArrayItem(toks, r, i)
    case Member(key) => DictMember(js, toks, r, key)
  }

  function Find(js: string, toks: seq<Token>, r: Range, path: seq<PathStep>): Option<Range>
    decreases |path|
  {
    if path == [] then Some(r)
    else if !Usable(toks, r) then None
    else
      match Lookup(js, toks, r, path[0])
      case None => None
      case Some(c) => Find(js, toks, c, path[1..])
  }

  // The range holds `j`, wherever and however deep it was written.
  ghost predicate Reaches(js: string, toks: seq<Token>, r: Range, j: Json, readable: bool) {
    exists depth: nat, at: nat :: Embeds(js, toks, r, j, readable, depth, at)
  }

  lemma {:induction false} FirstKey(js: string, toks: seq<Token>, members: seq<Entry>, base: nat, key: string)
    requires var b := Bases(true, members, base);
      forall k :: 0 <= k < |members| ==> b[k] < |toks| && Spells(js, toks[b[k]], members[k].key)
    ensures var b := Bases(true, members, base);
      match IndexOf(members, key)
      case None => FindKey(js, toks, b, key) == None
      case Some(k) => FindKey(js, toks, b, key) == Some(b[k])
    decreases members
  {
    if members != [] {
      var b, next := Bases(true, members, base), base + EntrySize(true, members[0]);
      var rest := Bases(true, members[1..], next);
      assert b[1..] == rest;
      assert Spells(js, toks[b[0]], members[0].key);
      forall k | 0 <= k < |members[1..]| ensures rest[k] < |toks| && Spells(js, toks[rest[k]], members[1..][k].key) {
        assert rest[k] == b[k + 1] && members[1..][k] == members[k + 1];
      }
      FirstKey(js, toks, members[1..], next, key);
    }
  }

  lemma ScalarAlone(js: string, toks: seq<Token>, r: Range, j: Json, readable: bool, depth: nat, at: nat)
    requires Embeds(js, toks, r, j, readable, depth, at) && !j.Node?
    ensures InArray(toks, r) && r.count == 1 && toks[r.start] == ScalarToken(j, toks[r.start].parent, at)
    ensures Usable(toks, r)
  {
    var part := Tokens(j, readable, depth, toks[r.start].parent, at, r.start);
    assert toks[r.start + 0] == part[0];
    NoChildren(toks, r.start, r.start, r.start + 1);
  }

  lemma KeysHaveValues(js: string, toks: seq<Token>, r: Range, j: Json, readable: bool, depth: nat, at: nat)
    requires Embeds(js, toks, r, j, readable, depth, at) && j.Node? && j.dict
    ensures Usable(toks, r)
  {
    ChildrenAreEntries(js, toks, r, true, j.entries, readable, depth, at);
    forall k | 0 <= k < |j.entries| ensures ChildrenOf(toks, r)[k] + 1 < |toks| {
      MemberFound(js, toks, r, j.entries, readable, depth, at, k);
    }
  }

  lemma ItemIsChild(js: string, toks: seq<Token>, r: Range, j: Json, readable: bool, depth: nat, at: nat, index: nat)
    requires Embeds(js, toks, r, j, readable, depth, at) && InArray(toks, r)
    ensures
      match ChildOf(j, Item(index))
      case None => ArrayItem(toks, r, index) == None
      case Some(c) => ArrayItem(toks, r, index).Some? && Reaches(js, toks, ArrayItem(toks, r, index).value, c, readable)
  {
    if !j.Node? {
      ScalarAlone(js, toks, r, j, readable, depth, at);
    } else {
      ChildrenAreEntries(js, toks, r, j.dict, j.entries, readable, depth, at);
      if !j.dict && index < |j.entries| { ItemFound(js, toks, r, j.entries, readable, depth, at, index); }
    }
  }

  lemma KeyFound(
      js: string, toks: seq<Token>, r: Range, members: seq<Entry>, readable: bool, depth: nat, at: nat, key: string)
    requires Embeds(js, toks, r, Node(true, members), readable, depth, at)
    ensures InArray(toks, r)
    ensures
      match IndexOf(members, key)
      case None => FindKey(js, toks, ChildrenOf(toks, r), key) == None
      case Some(k) => FindKey(js, toks, ChildrenOf(toks, r), key) == Some(Bases(true, members, r.start + 1)[k])
  {
    ChildrenAreEntries(js, toks, r, true, members, readable, depth, at);
    var b := Bases(true, members, r.start + 1);
    forall k | 0 <= k < |members| ensures b[k] < |toks| && Spells(js, toks[b[k]], members[k].key) {
      MemberFound(js, toks, r, members, readable, depth, at, k);
    }
    FirstKey(js, toks, members, r.start + 1, key);
  }

  lemma DictMemberIs(
      js: string, toks: seq<Token>, r: Range, members: seq<Entry>, readable: bool, depth: nat, at: nat, key: string)
    requires Embeds(js, toks, r, Node(true, members), readable, depth, at) && Usable(toks, r)
    ensures
      match IndexOf(members, key)
      case None => DictMember(js, toks, r, key) == None
      case Some(k) =>
        DictMember(js, toks, r, key).Some?
        && Reaches(js, toks, DictMember(js, toks, r, key).value, members[k].value, readable)
  {
    KeyFound(js, toks, r, members, readable, depth, at, key);
    assert toks[r.start].kind == Object by { ChildrenAreEntries(js, toks, r, true, members, readable, depth, at); }
    var i := IndexOf(members, key);
    if i.Some? { ValueReached(js, toks, r, members, readable, depth, at, i.value); }
  }

  lemma ValueReached(
      js: string, toks: seq<Token>, r: Range, members: seq<Entry>, readable: bool, depth: nat, at: nat, k: nat)
    requires Embeds(js, toks, r, Node(true, members), readable, depth, at) && k < |members|
    ensures
      var b := Bases(true, members, r.start + 1)[k];
      b + 1 < |toks| && Reaches(js, toks, RangeOf(toks, b + 1), members[k].value, readable)
  {
    MemberFound(js, toks, r, members, readable, depth, at, k);
  }

  // By index: the key's own token and the range of its value.
  lemma DictAtIs(js: string, toks: seq<Token>, r: Range, j: Json, readable: bool, k: nat)
    requires Reaches(js, toks, r, j, readable) && j.Node? && j.dict
    ensures Usable(toks, r) && (DictAt(toks, r, k).Some? <==> k < |j.entries|)
    ensures k < |j.entries| ==>
      var (c, v) := DictAt(toks, r, k).value;
      && c < |toks| && Reaches(js, toks, v, j.entries[k].value, readable)
      && forall key :: Spells(js, toks[c], key) <==> key == j.entries[k].key
  {
    var depth: nat, at: nat :| Embeds(js, toks, r, j, readable, depth, at);
    assert j == Node(true, j.entries);
    KeysHaveValues(js, toks, r, j, readable, depth, at);
    ChildrenAreEntries(js, toks, r, true, j.entries, readable, depth, at);
    if k < |j.entries| {
      MemberFound(js, toks, r, j.entries, readable, depth, at, k);
      ValueReached(js, toks, r, j.entries, readable, depth, at, k);
    }
  }

  // A container has as many children as entries.
  lemma CountIs(js: string, toks: seq<Token>, r: Range, j: Json, readable: bool)
    requires Reaches(js, toks, r, j, readable) && j.Node?
    ensures Usable(toks, r) && toks[r.start].kind == NodeKind(j.dict) && |ChildrenOf(toks, r)| == |j.entries|
  {
    var depth: nat, at: nat :| Embeds(js, toks, r, j, readable, depth, at);
    AllUsable(js, toks, r, j, readable, depth, at);
    ChildrenAreEntries(js, toks, r, j.dict, j.entries, readable, depth, at);
  }

  lemma MemberIsChild(js: string, toks: seq<Token>, r: Range, j: Json, readable: bool, depth: nat, at: nat, key: string)
    requires Embeds(js, toks, r, j, readable, depth, at) && Usable(toks, r)
    ensures
      match ChildOf(j, Member(key))
      case None => DictMember(js, toks, r, key) == None
      case Some(c) =>
        DictMember(js, toks, r, key).Some? && Reaches(js, toks, DictMember(js, toks, r, key).value, c, readable)
  {
    if !j.Node? {
      ScalarAlone(js, toks, r, j, readable, depth, at);
    } else if j.dict {
      DictMemberIs(js, toks, r, j.entries, readable, depth, at, key);
    } else {
      ChildrenAreEntries(js, toks, r, false, j.entries, readable, depth, at);
    }
  }

  lemma AllUsable(js: string, toks: seq<Token>, r: Range, j: Json, readable: bool, depth: nat, at: nat)
    requires Embeds(js, toks, r, j, readable, depth, at)
    ensures Usable(toks, r)
  {
    if !j.Node? {
      ScalarAlone(js, toks, r, j, readable, depth, at);
    } else if j.dict {
      KeysHaveValues(js, toks, r, j, readable, depth, at);
    } else {
      ChildrenAreEntries(js, toks, r, false, j.entries, readable, depth, at);
    }
  }

  lemma StepIsChild(js: string, toks: seq<Token>, r: Range, j: Json, readable: bool, step: PathStep)
    requires Reaches(js, toks, r, j, readable)
    ensures Usable(toks, r)
    ensures
      match ChildOf(j, step)
      case None => Lookup(js, toks, r, step) == None
      case Some(c) => Lookup(js, toks, r, step).Some? && Reaches(js, toks, Lookup(js, toks, r, step).value, c, readable)
  {
    var depth: nat, at: nat :| Embeds(js, toks, r, j, readable, depth, at);
    AllUsable(js, toks, r, j, readable, depth, at);
    match step {
      case Item(i) => ItemIsChild(js, toks, r, j, readable, depth, at, i);
      case Member(key) => MemberIsChild(js, toks, r, j, readable, depth, at, key);
    }
  }

  // A path of lookups fails exactly when the tree has nothing there, and otherwise reaches it.
  lemma {:induction false} FindIsSelect(
      js: string, toks: seq<Token>, r: Range, j: Json, readable: bool, path: seq<PathStep>)
    requires Reaches(js, toks, r, j, readable)
    ensures
      match Select(j, path)
      case None => Find(js, toks, r, path) == None
      case Some(c) => Find(js, toks, r, path).Some? && Reaches(js, toks, Find(js, toks, r, path).value, c, readable)
    decreases |path|
  {
    if path != [] {
      StepIsChild(js, toks, r, j, readable, path[0]);
      var c := ChildOf(j, path[0]);
      if c.Some? {
        FindIsSelect(js, toks, Lookup(js, toks, r, path[0]).value, c.value, readable, path[1..]);
      }
    }
  }

  // The whole token array of a dump is the range of its tree.
  lemma RootReaches(j: Json, readable: bool)
    ensures
      var js, toks := Text(j, readable, 0), Tokens(j, readable, 0, -1, 0, 0);
      Reaches(js, toks, Range(0, |toks|), j, readable)
  {
    var js, toks := Text(j, readable, 0), Tokens(j, readable, 0, -1, 0, 0);
    TokensGrafted(j, readable, 0, -1, 0, 0);
    TokensSize(j, readable, 0, -1, 0, 0);
    assert Embeds(js, toks, Range(0, |toks|), j, readable, 0, 0);
  }

  // Writing a tree's events, tokenizing the text and following any path finds the tree's own part.
  lemma DumpParseFind(j: Json, readable: bool, path: seq<PathStep>)
    requires Legible(j)
    ensures JsonEvents.Legal(JsonEvents.Events(j), 0)
    ensures
      var js := JsonEvents.ApplyAll(JsonEvents.Events(j), JsonEvents.State("", 0), readable).text;
      var (s, n) := Run(js, Initial);
      n == |s.toks|
      && match Select(j, path)
         case None => Find(js, s.toks, Range(0, n), path) == None
         case Some(c) =>
           Find(js, s.toks, Range(0, n), path).Some?
           && Reaches(js, s.toks, Find(js, s.toks, Range(0, n), path).value, c, readable)
  {
    JsonEvents.DumpIsText(j, readable);
    RoundTrip(j, readable);
    RootReaches(j, readable);
    var js, toks := Text(j, readable, 0), Tokens(j, readable, 0, -1, 0, 0);
    FindIsSelect(js, toks, Range(0, |toks|), j, readable, path);
  }

  // --- Scalars read back

  predicate IsDigit(c: char) { '0' <= c <= '9' }

  function DigitValue(c: char): nat
    requires IsDigit(c)
  {
    (c as int) - ('0' as int)
  }

  function DigitsValue(s: string, acc: nat): nat {
    if s == "" || !IsDigit(s[0]) then acc else DigitsValue(s[1..], 10 * acc + DigitValue(s[0]))
  }

  // The decimal reader, on text that starts with no white space.
  function ReadDecimal(s: string): int {
    if s != "" && s[0] == '-' then (-1) * DigitsValue(s[1..], 0)
    else if s != "" && s[0] == '+' then DigitsValue(s[1..], 0)
    else DigitsValue(s, 0)
  }

  lemma {:induction false} DigitsValueAppend(s: string, d: char, acc: nat)
    requires IsDigit(d) && forall i :: 0 <= i < |s| ==> IsDigit(s[i])
    ensures DigitsValue(s + [d], acc) == 10 * DigitsValue(s, acc) + DigitValue(d)
    decreases |s|
  {
    if s == "" {
      assert s + [d] == [d] && [d][1..] == "";
    } else {
      assert (s + [d])[1..] == s[1..] + [d];
      DigitsValueAppend(s[1..], d, 10 * acc + DigitValue(s[0]));
    }
  }

  lemma {:induction false} DigitsRead(n: nat)
    ensures DigitsValue(Digits(n), 0) == n
  {
    var d := "0123456789"[n % 10];
    assert DigitValue(d) == n % 10;
    if n < 10 {
      DigitsValueAppend("", d, 0);
      assert "" + [d] == [d] == Digits(n);
    } else {
      DigitsRead(n / 10);
      DigitsValueAppend(Digits(n / 10), d, 0);
    }
  }

  lemma DecimalReads(i: int)
    ensures ReadDecimal(Decimal(i)) == i
  {
    DigitsRead(if i < 0 then -i else i);
    if i < 0 {
      assert Decimal(i)[1..] == Digits(-i);
    } else {
      assert IsDigit(Decimal(i)[0]);
    }
  }

  lemma {:induction false} DigitsValueStops(s: string, rest: string, acc: nat)
    requires forall i :: 0 <= i < |s| ==> IsDigit(s[i])
    requires rest == "" || !IsDigit(rest[0])
    ensures DigitsValue(s + rest, acc) == DigitsValue(s, acc)
    decreases |s|
  {
    if s == "" {
      assert s + rest == rest;
    } else {
      assert (s + rest)[1..] == s[1..] + rest;
      DigitsValueStops(s[1..], rest, 10 * acc + DigitValue(s[0]));
    }
  }

  // It reads up to the first character that is no digit, and takes a plus sign.
  lemma NumeralReads(n: nat, rest: string)
    requires rest == "" || !('0' <= rest[0] <= '9')
    ensures ReadDecimal(Digits(n) + rest) == n
    ensures ReadDecimal("-" + (Digits(n) + rest)) == (-1) * n
    ensures ReadDecimal("+" + (Digits(n) + rest)) == n
  {
    DigitsRead(n);
    DigitsValueStops(Digits(n), rest, 0);
    var text := Digits(n) + rest;
    assert text[0] == Digits(n)[0] && ("-" + text)[1..] == text && ("+" + text)[1..] == text;
  }

  function TokenText(js: string, t: Token): string
    requires 0 <= t.start <= t.end <= |js|
  {
    js[t.start..t.end]
  }

  // A range that holds a scalar is one token of the right kind that spans the scalar's text.
  lemma ScalarReads(js: string, toks: seq<Token>, r: Range, j: Json, readable: bool)
    requires Reaches(js, toks, r, j, readable) && !j.Node?
    ensures r.count == 1 && r.start < |toks| && toks[r.start].kind == ScalarKind(j)
    ensures
      var t := toks[r.start];
      0 <= t.start <= t.end <= |js|
      && (if j.Str? then TokenText(js, t) == j.s else TokenText(js, t) == Scalar(j))
      && (j.Num? ==> ReadDecimal(TokenText(js, t)) == j.i)
  {
    var depth: nat, at: nat :| Embeds(js, toks, r, j, readable, depth, at);
    ScalarAlone(js, toks, r, j, readable, depth, at);
    ScalarText(js, toks[r.start].parent, at, j);
  }

  lemma ScalarText(js: string, parent: int, at: nat, j: Json)
    requires !j.Node? && Has(js, at, Scalar(j))
    ensures
      var t := ScalarToken(j, parent, at);
      0 <= t.start <= t.end <= |js|
      && (if j.Str? then TokenText(js, t) == j.s else TokenText(js, t) == Scalar(j))
      && (j.Num? ==> ReadDecimal(TokenText(js, t)) == j.i)
  {
    if j.Str? {
      assert Scalar(j) == "\"" + (j.s + "\"");
      HasConcat(js, at, "\"", j.s + "\"");
      HasConcat(js, at + 1, j.s, "\"");
    } else {
      assert js[at..at + |Scalar(j)|] == Scalar(j);
      if j.Num? { DecimalReads(j.i); }
    }
  }

  // Whatever a range holds, its one token is a boolean's exactly when it holds a boolean.
  lemma BooleanReads(js: string, toks: seq<Token>, r: Range, j: Json, readable: bool)
    requires Reaches(js, toks, r, j, readable)
    ensures InArray(toks, r)
    ensures r.count == 1 && (toks[r.start].kind == True || toks[r.start].kind == False) <==> j.Flag?
    ensures j.Flag? ==> (toks[r.start].kind == True <==> j.b)
  {
    var depth: nat, at: nat :| Embeds(js, toks, r, j, readable, depth, at);
    AllUsable(js, toks, r, j, readable, depth, at);
    if j.Node? {
      ChildrenAreEntries(js, toks, r, j.dict, j.entries, readable, depth, at);
    } else {
      ScalarReads(js, toks, r, j, readable);
    }
  }

  // The range of all tokens of a parsed dump holds the tree that was dumped.
  lemma ParsedRoot(js: string, j: Json, readable: bool)
    requires Legible(j) && js == Text(j, readable, 0)
    ensures var toks := Run(js, Initial).0.toks;
      Reaches(js, toks, Range(0, |toks|), j, readable)
  {
    RoundTrip(j, readable);
    RootReaches(j, readable);
  }
}
