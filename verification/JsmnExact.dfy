/**
 Exactly which trees come back from the tokenizer: those whose strings and keys are escaped. An
 unescaped one halts the walk or gets a token with another end, and nothing mends that later.
 */
module JsmnExact {
  import opened JsonText
  import opened Jsmn
  import opened JsmnRoundTrip

  // The texts of real values look like numbers; nothing is said of strings and keys.
  predicate Numerals(j: Json)
    decreases j
  {
    match j
    case Real(text) => Numeral(text)
    case Node(_, entries) => NumeralsAll(entries)
    case _ => true
  }

  predicate NumeralsAll(entries: seq<Entry>)
    decreases entries
  {
    entries == [] || (Numerals(entries[0].value) && NumeralsAll(entries[1..]))
  }

  // A result is an error or ends some token of `part`, which is due from token `n` on, elsewhere.
  predicate Amiss(r: (State, int), n: nat, part: seq<Token>) {
    r.1 < 0 || exists i :: 0 <= i < |part| && n + i < |r.0.toks| && r.0.toks[n + i].end != part[i].end
  }

  // The walk from `s` never gets the tokens `part` right.
  ghost predicate Spoiled(js: string, s: State, part: seq<Token>) {
    Wf(s) && forall r {:trigger Ends(js, s, r)} :: Ends(js, s, r) ==> Amiss(r, |s.toks|, part)
  }

  lemma AmissMore(r: (State, int), n: nat, a: seq<Token>, b: seq<Token>)
    ensures Amiss(r, n, a) ==> Amiss(r, n, a + b)
    ensures Amiss(r, n + |a|, b) ==> Amiss(r, n, a + b)
  {
    if r.1 >= 0 && Amiss(r, n, a) {
      var i :| 0 <= i < |a| && n + i < |r.0.toks| && r.0.toks[n + i].end != a[i].end;
      assert (a + b)[i] == a[i];
    }
    if r.1 >= 0 && Amiss(r, n + |a|, b) {
      var i :| 0 <= i < |b| && n + |a| + i < |r.0.toks| && r.0.toks[n + |a| + i].end != b[i].end;
      assert (a + b)[|a| + i] == b[i];
      assert r.0.toks[n + (|a| + i)].end != (a + b)[|a| + i].end;
    }
  }

  lemma SpoiledMore(js: string, s: State, a: seq<Token>, b: seq<Token>)
    requires Spoiled(js, s, a)
    ensures Spoiled(js, s, a + b)
  {
    forall r | Ends(js, s, r) ensures Amiss(r, |s.toks|, a + b) {
      AmissMore(r, |s.toks|, a, b);
    }
  }

  lemma SpoiledLater(js: string, s: State, t: State, a: seq<Token>, b: seq<Token>)
    requires Leads(js, s, t) && |t.toks| == |s.toks| + |a| && Spoiled(js, t, b)
    ensures Spoiled(js, s, a + b)
  {
    LeadsRuns(js, s, t);
    forall r | Ends(js, s, r) ensures Amiss(r, |s.toks|, a + b) {
      assert Ends(js, t, r);
      AmissMore(r, |s.toks|, a, b);
    }
  }

  // The scan of an unescaped string does not stop at the quote the writer put.
  lemma ScanUnescaped(js: string, at: nat, text: string)
    requires Has(js, at, "\"" + text + "\"")
    ensures !Done(js, at) && js[at] == '"'
    ensures !Escaped(text) ==> StringEnd(js, at + 1) != At(at + 1 + |text|)
  {
    QuotedPieces(js, at, text);
    ScanString(js, at + 1, text);
  }

  // Its token stays wrong, if there is one at all.
  lemma StringSpoiled(js: string, s: State, token: Token, due: nat)
    requires Wf(s) && !Done(js, s.pos) && js[s.pos] == '"'
    requires token.end == due && StringEnd(js, s.pos + 1) != At(due)
    ensures Spoiled(js, s, [token])
  {
    var end := StringEnd(js, s.pos + 1);
    if end.At? {
      var t := Leaf(s, StringKind(s), s.pos + 1, end.pos, end.pos + 1);
      assert Run(js, s) == Run(js, t) && t.toks[|s.toks|].end == end.pos;
      ClosedForGood(js, t, |s.toks|);
      assert Run(js, s).0.toks[|s.toks| + 0].end != [token][0].end;
    }
  }

  lemma {:induction false} ValueSpoiled(js: string, s: State, j: Json, readable: bool, depth: nat)
    requires Wf(s) && (s.super == -1 || s.toks[s.super].kind != Object) && Numerals(j) && !Legible(j)
    requires Has(js, s.pos, Text(j, readable, depth))
    ensures Spoiled(js, s, Tokens(j, readable, depth, s.super, s.pos, |s.toks|))
    decreases j
  {
    if j.Node? {
      assert j == Node(j.dict, j.entries);
      NodeSpoiled(js, s, j.dict, j.entries, readable, depth);
    } else {
      ScanUnescaped(js, s.pos, j.s);
      StringSpoiled(js, s, ScalarToken(j, s.super, s.pos), s.pos + 1 + |j.s|);
    }
  }

  lemma {:induction false} NodeSpoiled(
      js: string, s: State, dict: bool, entries: seq<Entry>, readable: bool, depth: nat)
    requires Wf(s) && NumeralsAll(entries) && !LegibleEntries(dict, entries)
    requires Has(js, s.pos, Text(Node(dict, entries), readable, depth))
    ensures Spoiled(js, s, Tokens(Node(dict, entries), readable, depth, s.super, s.pos, |s.toks|))
    decreases entries, 3
  {
    var at := s.pos + 1 + |Sep(readable, depth + 1)|;
    var end := s.pos + |Text(Node(dict, entries), readable, depth)|;
    var t := NodeEntered(js, s, dict, entries, readable, depth, at);
    EntriesSpoiled(js, t, dict, entries, readable, depth + 1, |s.toks|);
    NodeTokens(s, dict, entries, readable, depth, at, end);
    SpoiledLater(js, s, t, [Own(s, dict, entries).(end := end)],
      EntriesTokens(dict, entries, readable, depth + 1, |s.toks|, at, |s.toks| + 1));
  }

  lemma NodeTokens(s: State, dict: bool, entries: seq<Entry>, readable: bool, depth: nat, at: nat, end: nat)
    requires Wf(s) && at == s.pos + 1 + |Sep(readable, depth + 1)|
    requires end == s.pos + |Text(Node(dict, entries), readable, depth)|
    ensures Tokens(Node(dict, entries), readable, depth, s.super, s.pos, |s.toks|)
         == [Own(s, dict, entries).(end := end)]
            + EntriesTokens(dict, entries, readable, depth + 1, |s.toks|, at, |s.toks| + 1)
  {
  }

  // Past the opening bracket and the separator behind it.
  lemma NodeOpened(js: string, s: State, dict: bool, sep: string, at: nat) returns (t: State)
    requires Wf(s) && Has(js, s.pos, JsonText.Open(dict)) && Has(js, s.pos + 1, sep) && at == s.pos + 1 + |sep|
    requires forall i :: 0 <= i < |sep| ==> White(sep[i])
    ensures Leads(js, s, t) && t.pos == at && |t.toks| == |s.toks| + 1 && Within(t, |s.toks|)
    ensures t.super == |s.toks| && t.toks[|s.toks|].kind == NodeKind(dict)
  {
    OpenScanned(js, s, dict);
    OpenedParts(s, NodeKind(dict));
    var s1 := Opened(s, NodeKind(dict));
    SkipWhite(js, s1, sep);
    t := s1.(pos := at);
    LeadsThen(js, s, s1, t);
  }

  lemma NodeEntered(
    js: string, s: State, dict: bool, entries: seq<Entry>, readable: bool, depth: nat, at: nat) returns (t: State)
    requires Wf(s) && entries != [] && at == s.pos + 1 + |Sep(readable, depth + 1)|
    requires Has(js, s.pos, Text(Node(dict, entries), readable, depth))
    ensures Leads(js, s, t) && t.pos == at && |t.toks| == |s.toks| + 1 && Within(t, |s.toks|)
    ensures t.super == |s.toks| && t.toks[|s.toks|].kind == NodeKind(dict)
    ensures Has(js, at, Join(dict, entries, readable, depth + 1))
  {
    NodeStarts(js, s.pos, dict, entries, readable, depth, Sep(readable, depth + 1), at);
    t := NodeOpened(js, s, dict, Sep(readable, depth + 1), at);
  }

  lemma {:induction false} EntriesSpoiled(
      js: string, s: State, dict: bool, entries: seq<Entry>, readable: bool, depth: nat, base: nat)
    requires entries != [] && NumeralsAll(entries) && !LegibleEntries(dict, entries)
    requires Within(s, base) && s.super == base && s.toks[base].kind == NodeKind(dict)
    requires Has(js, s.pos, Join(dict, entries, readable, depth))
    ensures Spoiled(js, s, EntriesTokens(dict, entries, readable, depth, base, s.pos, |s.toks|))
    decreases entries, 2
  {
    var e := entries[0];
    FirstWritten(js, s.pos, dict, entries, readable, depth);
    if (dict ==> Escaped(e.key)) && Legible(e.value) {
      RestSpoiled(js, s, dict, entries, readable, depth, base);
    } else {
      EntrySpoiled(js, s, dict, e, readable, depth, base);
      var next := s.pos + |EntryText(dict, e, readable, depth)| + 1 + |Sep(readable, depth)|;
      var first := EntryTokens(dict, e, readable, depth, base, s.pos, |s.toks|);
      TokensSplit(dict, entries, readable, depth, base, s.pos, |s.toks|, next, |s.toks| + |first|);
      SpoiledMore(js, s, first, EntriesTokens(dict, entries[1..], readable, depth, base, next, |s.toks| + |first|));
    }
  }

  lemma FirstWritten(js: string, at: nat, dict: bool, entries: seq<Entry>, readable: bool, depth: nat)
    requires entries != [] && Has(js, at, Join(dict, entries, readable, depth))
    ensures Has(js, at, EntryText(dict, entries[0], readable, depth))
  {
    if |entries| > 1 {
      var comma := at + |EntryText(dict, entries[0], readable, depth)|;
      JoinHas(js, at, dict, entries, readable, depth, comma, comma + 1 + |Sep(readable, depth)|,
        at + |Join(dict, entries, readable, depth)|);
    }
  }

  // The first entry is legible, so a later one is not.
  lemma {:induction false} RestSpoiled(
      js: string, s: State, dict: bool, entries: seq<Entry>, readable: bool, depth: nat, base: nat)
    requires entries != [] && NumeralsAll(entries) && !LegibleEntries(dict, entries)
    requires (dict ==> Escaped(entries[0].key)) && Legible(entries[0].value)
    requires Within(s, base) && s.super == base && s.toks[base].kind == NodeKind(dict)
    requires Has(js, s.pos, Join(dict, entries, readable, depth))
    ensures Spoiled(js, s, EntriesTokens(dict, entries, readable, depth, base, s.pos, |s.toks|))
    decreases entries, 1
  {
    var comma := s.pos + |EntryText(dict, entries[0], readable, depth)|;
    var next := comma + 1 + |Sep(readable, depth)|;
    assert |entries| > 1;
    JoinHas(js, s.pos, dict, entries, readable, depth, comma, next, s.pos + |Join(dict, entries, readable, depth)|);
    var t := FirstScanned(js, s, dict, entries[0], readable, depth, base, comma, next);
    EntriesSpoiled(js, t, dict, entries[1..], readable, depth, base);
    TokensSplit(dict, entries, readable, depth, base, s.pos, |s.toks|, t.pos, |t.toks|);
    SpoiledLater(js, s, t, EntryTokens(dict, entries[0], readable, depth, base, s.pos, |s.toks|),
      EntriesTokens(dict, entries[1..], readable, depth, base, t.pos, |t.toks|));
  }

  lemma {:induction false} EntrySpoiled(
      js: string, s: State, dict: bool, e: Entry, readable: bool, depth: nat, base: nat)
    requires Numerals(e.value) && !((dict ==> Escaped(e.key)) && Legible(e.value))
    requires Within(s, base) && s.super == base && s.toks[base].kind == NodeKind(dict)
    requires Has(js, s.pos, EntryText(dict, e, readable, depth))
    ensures Spoiled(js, s, EntryTokens(dict, e, readable, depth, base, s.pos, |s.toks|))
    decreases e, 2
  {
    HasConcat(js, s.pos, Lead(dict, e.key, readable), Text(e.value, readable, depth));
    if dict {
      MemberSpoiled(js, s, e, readable, depth, base, s.pos + |Lead(true, e.key, readable)|);
    } else {
      ValueSpoiled(js, s, e.value, readable, depth);
    }
  }

  lemma {:induction false} MemberSpoiled(js: string, s: State, e: Entry, readable: bool, depth: nat, base: nat, at: nat)
    requires Numerals(e.value) && !(Escaped(e.key) && Legible(e.value))
    requires Within(s, base) && s.super == base && s.toks[base].kind == Object
    requires Has(js, s.pos, Lead(true, e.key, readable)) && at == s.pos + |Lead(true, e.key, readable)|
    requires Has(js, at, Text(e.value, readable, depth))
    ensures Spoiled(js, s, EntryTokens(true, e, readable, depth, base, s.pos, |s.toks|))
    decreases e, 1
  {
    var key := Token(Key, s.pos + 1, s.pos + 1 + |e.key|, 1, base);
    MemberTokens(e, readable, depth, base, s.pos, |s.toks|, at);
    if Escaped(e.key) {
      BehindKeySpoiled(js, s, e, readable, depth, base, at, key);
    } else {
      KeySpoiled(js, s, e.key, readable, key);
      SpoiledMore(js, s, [key], Tokens(e.value, readable, depth, |s.toks|, at, |s.toks| + 1));
    }
  }

  lemma {:induction false} BehindKeySpoiled(
      js: string, s: State, e: Entry, readable: bool, depth: nat, base: nat, at: nat, key: Token)
    requires Numerals(e.value) && Escaped(e.key) && !Legible(e.value)
    requires Within(s, base) && s.super == base && s.toks[base].kind == Object
    requires Has(js, s.pos, Lead(true, e.key, readable)) && at == s.pos + |Lead(true, e.key, readable)|
    requires Has(js, at, Text(e.value, readable, depth))
    ensures Spoiled(js, s, [key] + Tokens(e.value, readable, depth, |s.toks|, at, |s.toks| + 1))
    decreases e, 0
  {
    var t := KeyScanned(js, s, e.key, readable, base);
    assert |t.toks| == |s.toks| + 1 && t.toks[|s.toks|].kind == Key;
    ValueSpoiled(js, t, e.value, readable, depth);
    SpoiledLater(js, s, t, [key], Tokens(e.value, readable, depth, |s.toks|, at, |s.toks| + 1));
  }

  lemma KeySpoiled(js: string, s: State, text: string, readable: bool, key: Token)
    requires Wf(s) && Has(js, s.pos, Lead(true, text, readable)) && key.end == s.pos + 1 + |text| && !Escaped(text)
    ensures Spoiled(js, s, [key])
  {
    KeyQuoted(js, s.pos, text, readable);
    ScanUnescaped(js, s.pos, text);
    StringSpoiled(js, s, key, s.pos + 1 + |text|);
  }

  lemma KeyQuoted(js: string, at: nat, key: string, readable: bool)
    requires Has(js, at, Lead(true, key, readable))
    ensures Has(js, at, "\"" + key + "\"")
  {
    var colon := if readable then ": " else ":";
    assert Lead(true, key, readable) == ("\"" + key + "\"") + colon;
    HasConcat(js, at, "\"" + key + "\"", colon);
  }

  // Tokenizing the dump of a tree of numerals and any strings gives exactly its tokens if and
  // only if every string and every key in it is escaped.
  lemma RoundTripExactly(j: Json, readable: bool)
    requires Numerals(j)
    ensures
      var js, toks := Text(j, readable, 0), Tokens(j, readable, 0, -1, 0, 0);
      Run(js, Initial) == (State(|js|, toks, -1), |toks|) <==> Legible(j)
  {
    if Legible(j) {
      RoundTrip(j, readable);
    } else {
      var js := Text(j, readable, 0);
      ValueSpoiled(js, Initial, j, readable, 0);
      assert Ends(js, Initial, Run(js, Initial));
    }
  }
}
