/**
 Tokenizing what the JSON writer produced, in either form, gives the tree's tokens in preorder:
 a container spans its whole text, a key is the parent of its value.
 */
module JsmnRoundTrip {
  import opened JsonText
  import opened Jsmn

  // The characters section 7 of RFC 8259 lets stand behind a backslash, and its hexadecimal digits.
  const SHORT_ESCAPES := "\"\\/bfnrt"
  const HEX_DIGITS := "0123456789ABCDEFabcdef"

  // Without bare quotes or NUL, and every backslash starts an escape of that grammar.
  predicate Escaped(s: string)
    decreases |s|
  {
    if s == "" then true
    else if s[0] == '\\' then
      || (|s| >= 2 && s[1] in SHORT_ESCAPES && Escaped(s[2..]))
      || (|s| >= 6 && s[1] == 'u' && FourDigits(s[2..6]) && Escaped(s[6..]))
    else s[0] != '"' && s[0] != '\0' && Escaped(s[1..])
  }

  predicate FourDigits(s: string) { |s| == 4 && forall i :: 0 <= i < 4 ==> s[i] in HEX_DIGITS }

  // The tokenizer's tests are those of the grammar.
  lemma EscapesExactly(c: char)
    ensures Escapes(c) <==> c in SHORT_ESCAPES
    ensures IsHex(c) <==> c in HEX_DIGITS
  {
    if Escapes(c) {
      var i := if c == '"' then 0 else if c == '\\' then 1 else if c == '/' then 2 else if c == 'b' then 3
               else if c == 'f' then 4 else if c == 'n' then 5 else if c == 'r' then 6 else 7;
      assert SHORT_ESCAPES[i] == c;
    }
    if IsHex(c) {
      var i := if c <= '9' then (c as int) - ('0' as int)
               else if c <= 'F' then 10 + (c as int) - ('A' as int) else 16 + (c as int) - ('a' as int);
      assert HEX_DIGITS[i] == c;
    }
  }

  lemma FourDigitsExactly(s: string)
    requires |s| >= 6
    ensures HexStart(s[2..], 4) <==> FourDigits(s[2..6])
  {
    forall i | 0 <= i < 4 ensures IsHex(s[2..][i]) <==> s[2..6][i] in HEX_DIGITS {
      EscapesExactly(s[2 + i]);
    }
  }

  predicate Numeral(s: string) { WordText(s) && s[0] != 'f' && s[0] != 't' }

  predicate Legible(j: Json)
    decreases j
  {
    match j
    case Real(text) => Numeral(text)
    case Str(s) => Escaped(s)
    case Node(dict, entries) => LegibleEntries(dict, entries)
    case _ => true
  }

  predicate LegibleEntries(dict: bool, entries: seq<Entry>)
    decreases entries
  {
    entries == []
    || ((dict ==> Escaped(entries[0].key)) && Legible(entries[0].value) && LegibleEntries(dict, entries[1..]))
  }

  // --- The expected tokens

  // A null, a binary mark and a numeral without a point all read as integers.
  function ScalarKind(j: Json): Kind
    requires !j.Node?
  {
    match j
    case Real(text) => if '.' in text then Double else Int
    case Flag(b) => if b then True else False
    case Str(_) => String
    case _ => Int
  }

  function ScalarToken(j: Json, parent: int, at: nat): Token
    requires !j.Node?
  {
    if j.Str? then Token(String, at + 1, at + 1 + |j.s|, 0, parent)
    else Token(ScalarKind(j), at, at + |Scalar(j)|, 0, parent)
  }

  function NodeKind(dict: bool): Kind { if dict then Object else Array }

  // The tokens of `j` written at `at`, the first of them with index `base`.
  function Tokens(j: Json, readable: bool, depth: nat, parent: int, at: nat, base: nat): seq<Token>
    decreases j
  {
    if j.Node? then
      [Token(NodeKind(j.dict), at, at + |Text(j, readable, depth)|, |j.entries|, parent)]
      + EntriesTokens(j.dict, j.entries, readable, depth + 1, base, at + 1 + |Sep(readable, depth + 1)|, base + 1)
    else [ScalarToken(j, parent, at)]
  }

  function EntriesTokens(
      dict: bool, entries: seq<Entry>, readable: bool, depth: nat, parent: nat, at: nat, base: nat): seq<Token>
    decreases entries
  {
    if entries == [] then []
    else
      var first := EntryTokens(dict, entries[0], readable, depth, parent, at, base);
      var skip := |EntryText(dict, entries[0], readable, depth)| + 1 + |Sep(readable, depth)|;
      first + EntriesTokens(dict, entries[1..], readable, depth, parent, at + skip, base + |first|)
  }

  function EntryTokens(dict: bool, e: Entry, readable: bool, depth: nat, parent: nat, at: nat, base: nat): seq<Token>
    decreases e
  {
    if dict then
      [Token(Key, at + 1, at + 1 + |e.key|, 1, parent)]
      + Tokens(e.value, readable, depth, base, at + |Lead(true, e.key, readable)|, base + 1)
    else Tokens(e.value, readable, depth, parent, at, base)
  }

  // Closed, and linked to `parent` or to one another.
  predicate Grafted(toks: seq<Token>, parent: int, base: nat) {
    forall i :: 0 <= i < |toks| ==> toks[i].end != -1 && parent <= toks[i].parent < base + i
  }

  lemma GraftedConcat(a: seq<Token>, b: seq<Token>, parent: int, other: int, base: nat)
    requires Grafted(a, parent, base) && Grafted(b, other, base + |a|) && parent <= other
    ensures Grafted(a + b, parent, base)
  {
  }

  lemma GraftedBelow(own: Token, inside: seq<Token>, parent: int, base: nat)
    requires own.end != -1 && own.parent == parent < base && Grafted(inside, base, base + 1)
    ensures Grafted([own] + inside, parent, base) && ([own] + inside)[1..] == inside
  {
  }

  lemma {:induction false} TokensGrafted(j: Json, readable: bool, depth: nat, parent: int, at: nat, base: nat)
    requires -1 <= parent < base
    ensures var r := Tokens(j, readable, depth, parent, at, base);
      |r| > 0 && r[0].parent == parent && Grafted(r, parent, base) && Grafted(r[1..], base, base + 1)
    decreases j
  {
    if j.Node? {
      var inside := EntriesTokens(j.dict, j.entries, readable, depth + 1, base, at + 1 + |Sep(readable, depth + 1)|,
        base + 1);
      var own := Token(NodeKind(j.dict), at, at + |Text(j, readable, depth)|, |j.entries|, parent);
      EntriesGrafted(j.dict, j.entries, readable, depth + 1, base, at + 1 + |Sep(readable, depth + 1)|, base + 1);
      GraftedBelow(own, inside, parent, base);
    }
  }

  lemma {:induction false} EntryGrafted(
      dict: bool, e: Entry, readable: bool, depth: nat, parent: nat, at: nat, base: nat)
    requires parent < base
    ensures var r := EntryTokens(dict, e, readable, depth, parent, at, base);
      |r| > 0 && r[0].parent == parent && Grafted(r, parent, base) && Grafted(r[1..], base, base + 1)
    decreases e
  {
    if dict {
      var own := Token(Key, at + 1, at + 1 + |e.key|, 1, parent);
      var value := Tokens(e.value, readable, depth, base, at + |Lead(true, e.key, readable)|, base + 1);
      TokensGrafted(e.value, readable, depth, base, at + |Lead(true, e.key, readable)|, base + 1);
      GraftedBelow(own, value, parent, base);
    } else {
      TokensGrafted(e.value, readable, depth, parent, at, base);
    }
  }

  lemma {:induction false} EntriesGrafted(
      dict: bool, entries: seq<Entry>, readable: bool, depth: nat, parent: nat, at: nat, base: nat)
    requires parent < base
    ensures Grafted(EntriesTokens(dict, entries, readable, depth, parent, at, base), parent, base)
    decreases entries
  {
    if entries != [] {
      var first := EntryTokens(dict, entries[0], readable, depth, parent, at, base);
      var skip := |EntryText(dict, entries[0], readable, depth)| + 1 + |Sep(readable, depth)|;
      EntryGrafted(dict, entries[0], readable, depth, parent, at, base);
      EntriesGrafted(dict, entries[1..], readable, depth, parent, at + skip, base + |first|);
      GraftedConcat(first, EntriesTokens(dict, entries[1..], readable, depth, parent, at + skip, base + |first|),
        parent, parent, base);
    }
  }

  // --- Reading a piece of text

  predicate Has(js: string, at: nat, s: string) {
    at + |s| <= |js| && forall i :: 0 <= i < |s| ==> js[at + i] == s[i]
  }

  lemma HasConcat(js: string, at: nat, a: string, b: string)
    ensures Has(js, at, a + b) <==> Has(js, at, a) && Has(js, at + |a|, b)
  {
    if Has(js, at, a + b) {
      forall i | 0 <= i < |a| ensures js[at + i] == a[i] {
        assert (a + b)[i] == a[i];
      }
      forall i | 0 <= i < |b| ensures js[at + |a| + i] == b[i] {
        assert (a + b)[|a| + i] == b[i];
      }
    }
  }

  lemma HasAt(js: string, at: nat, s: string, i: nat)
    requires Has(js, at, s) && i < |s|
    ensures at + i < |js| && js[at + i] == s[i]
  {
  }

  predicate EndsWord(js: string, at: nat) { Done(js, at) || Delimits(js[at]) }

  lemma HasTail(js: string, at: nat, s: string, n: nat)
    requires Has(js, at, s + "\"") && n <= |s|
    ensures Has(js, at + n, s[n..] + "\"")
  {
    assert s + "\"" == s[..n] + (s[n..] + "\"");
    HasConcat(js, at, s[..n], s[n..] + "\"");
  }

  // The string scan stops at the quote the writer put exactly when the string is escaped.
  lemma {:induction false} ScanString(js: string, at: nat, s: string)
    requires Has(js, at, s + "\"")
    ensures StringEnd(js, at) == At(at + |s|) <==> Escaped(s)
    decreases |s|, 1
  {
    HasAt(js, at, s + "\"", 0);
    if s != "" && s[0] == '\\' {
      HasAt(js, at, s + "\"", 1);
      EscapedEnd(js, at);
      if |s| >= 2 { EscapesExactly(s[1]); }
      if |s| >= 2 && Escapes(s[1]) {
        HasTail(js, at, s, 2);
        ScanString(js, at + 2, s[2..]);
      } else if |s| >= 2 && s[1] == 'u' {
        ScanUnicode(js, at, s);
      }
    } else if s != "" && s[0] != '"' && s[0] != '\0' {
      PlainEnd(js, at);
      HasTail(js, at, s, 1);
      ScanString(js, at + 1, s[1..]);
    }
  }

  lemma {:induction false} ScanUnicode(js: string, at: nat, s: string)
    requires Has(js, at, s + "\"") && |s| >= 2 && s[0] == '\\' && s[1] == 'u'
    ensures StringEnd(js, at) == At(at + |s|) <==> Escaped(s)
    decreases |s|, 0
  {
    HasAt(js, at, s + "\"", 0);
    HasAt(js, at, s + "\"", 1);
    EscapedEnd(js, at);
    HasTail(js, at, s, 2);
    ScanHex(js, at + 2, s[2..], 4);
    EscapesExactly('u');
    if |s| >= 6 {
      FourDigitsExactly(s);
      HasTail(js, at, s, 6);
      ScanString(js, at + 6, s[6..]);
    }
  }

  lemma ScanEscaped(js: string, at: nat, s: string)
    requires Has(js, at, s + "\"")
    ensures Escaped(s) ==> StringEnd(js, at) == At(at + |s|)
  {
    ScanString(js, at, s);
  }

  predicate HexStart(s: string, n: nat) {
    |s| >= n && forall i :: 0 <= i < n ==> IsHex(s[i])
  }

  // Short of `n` hexadecimal digits, the scan fails or meets a NUL.
  lemma {:induction false} ScanHex(js: string, at: nat, s: string, n: nat)
    requires Has(js, at, s + "\"")
    ensures HexStart(s, n) ==> HexEnd(js, at, n) == At(at + n)
    ensures !HexStart(s, n) ==>
      HexEnd(js, at, n) == Invalid || (HexEnd(js, at, n).At? && Done(js, HexEnd(js, at, n).pos))
    decreases n
  {
    HasAt(js, at, s + "\"", 0);
    if n > 0 && s != "" {
      HasTail(js, at, s, 1);
      ScanHex(js, at + 1, s[1..], n - 1);
      assert HexStart(s, n) <==> IsHex(s[0]) && HexStart(s[1..], n - 1);
    }
  }

  lemma {:induction false} ScanWord(js: string, at: nat, s: string)
    requires Has(js, at, s) && EndsWord(js, at + |s|)
    requires forall i :: 0 <= i < |s| ==> WordChar(s[i])
    ensures PrimitiveEnd(js, at) == At(at + |s|)
    decreases |s|
  {
    if s != "" {
      HasAt(js, at, s, 0);
      assert s == s[..1] + s[1..];
      HasConcat(js, at, s[..1], s[1..]);
      ScanWord(js, at + 1, s[1..]);
    }
  }

  lemma KindOfScalar(js: string, at: nat, j: Json)
    requires !j.Node? && !j.Str? && Legible(j) && Has(js, at, Scalar(j))
    ensures |Scalar(j)| > 0 && PrimitiveKind(js, at, at + |Scalar(j)|) == ScalarKind(j)
  {
    var s := Scalar(j);
    HasAt(js, at, s, 0);
    if j.Flag? {
      HasAt(js, at, s, 1);
      HasAt(js, at, s, 2);
      HasAt(js, at, s, 3);
      if !j.b { HasAt(js, at, s, 4); }
    } else if j.Real? {
      assert js[at..at + |s|] == s;
    } else {
      assert js[at..at + |s|] == s && '.' !in s;
    }
  }

  predicate Ends(js: string, s: State, r: (State, int))
    requires Wf(s)
  {
    Run(js, s) == r
  }

  // The walk goes through `s` and then `t`.
  ghost predicate Leads(js: string, s: State, t: State) {
    Wf(s) && Wf(t) && forall r {:trigger Ends(js, t, r)} :: Ends(js, t, r) ==> Ends(js, s, r)
  }

  lemma LeadsNowhere(js: string, s: State)
    requires Wf(s)
    ensures Leads(js, s, s)
  {
  }

  lemma LeadsStep(js: string, s: State, t: State)
    requires Wf(s) && !Done(js, s.pos) && Next(js, s) == Go(t)
    ensures Leads(js, s, t)
  {
  }

  lemma LeadsThen(js: string, s: State, t: State, u: State)
    requires Leads(js, s, t) && Leads(js, t, u)
    ensures Leads(js, s, u)
  {
    forall r | Ends(js, u, r) ensures Ends(js, s, r) {
      assert Ends(js, t, r);
    }
  }

  lemma LeadsRuns(js: string, s: State, t: State)
    requires Leads(js, s, t)
    ensures Run(js, s) == Run(js, t)
  {
    assert Ends(js, t, Run(js, t));
  }

  lemma {:induction false} SkipWhite(js: string, s: State, w: string)
    requires Wf(s) && Has(js, s.pos, w) && forall i :: 0 <= i < |w| ==> White(w[i])
    ensures Leads(js, s, s.(pos := s.pos + |w|))
    decreases |w|
  {
    if w == "" {
      assert s.(pos := s.pos + |w|) == s;
      LeadsNowhere(js, s);
    } else {
      HasAt(js, s.pos, w, 0);
      assert w == w[..1] + w[1..];
      HasConcat(js, s.pos, w[..1], w[1..]);
      var t := s.(pos := s.pos + 1);
      LeadsStep(js, s, t);
      SkipWhite(js, t, w[1..]);
      LeadsThen(js, s, t, t.(pos := t.pos + |w| - 1));
    }
  }

  // The state once `j` has been read from `s`.
  function After(s: State, j: Json, readable: bool, depth: nat): State
    requires Wf(s)
  {
    State(s.pos + |Text(j, readable, depth)|,
      Bump(s.toks, s.super) + Tokens(j, readable, depth, s.super, s.pos, |s.toks|),
      s.super)
  }

  lemma StringStep(js: string, s: State, end: nat)
    requires Wf(s) && !Done(js, s.pos) && js[s.pos] == '"' && StringEnd(js, s.pos + 1) == At(end)
    ensures Leads(js, s, Leaf(s, StringKind(s), s.pos + 1, end, end + 1))
  {
    LeadsStep(js, s, Leaf(s, StringKind(s), s.pos + 1, end, end + 1));
  }

  lemma QuotedPieces(js: string, at: nat, text: string)
    requires Has(js, at, "\"" + text + "\"")
    ensures !Done(js, at) && js[at] == '"' && Has(js, at + 1, text + "\"")
  {
    assert "\"" + text + "\"" == "\"" + (text + "\"");
    HasConcat(js, at, "\"", text + "\"");
    HasAt(js, at, "\"", 0);
  }

  lemma ScanQuoted(js: string, at: nat, text: string)
    requires Has(js, at, "\"" + text + "\"")
    ensures !Done(js, at) && js[at] == '"'
    ensures Escaped(text) ==> StringEnd(js, at + 1) == At(at + 1 + |text|)
  {
    QuotedPieces(js, at, text);
    ScanEscaped(js, at + 1, text);
  }

  lemma WordScanned(js: string, s: State, word: string)
    requires Wf(s) && Has(js, s.pos, word) && WordText(word) && EndsWord(js, s.pos + |word|)
    ensures s.pos + |word| <= |js|
    ensures Leads(js, s, Leaf(s, PrimitiveKind(js, s.pos, s.pos + |word|), s.pos, s.pos + |word|, s.pos + |word|))
  {
    HasAt(js, s.pos, word, 0);
    ScanWord(js, s.pos, word);
    LeadsStep(js, s, Leaf(s, PrimitiveKind(js, s.pos, s.pos + |word|), s.pos, s.pos + |word|, s.pos + |word|));
  }

  lemma OpenScanned(js: string, s: State, dict: bool)
    requires Wf(s) && Has(js, s.pos, JsonText.Open(dict))
    ensures Leads(js, s, Opened(s, NodeKind(dict)))
  {
    HasAt(js, s.pos, JsonText.Open(dict), 0);
    LeadsStep(js, s, Opened(s, NodeKind(dict)));
  }

  // Every token after `base` is closed and linked to `base` or a later one.
  lemma {:induction false} ClimbsTo(toks: seq<Token>, base: nat, i: nat)
    requires Linked(toks) && base <= i < |toks| && IsOpen(toks[base]) && Grafted(toks[base + 1..], base, base + 1)
    ensures Climb(toks, i) == base
  {
    if i > base {
      assert toks[i] == toks[base + 1..][i - base - 1];
      ClimbsTo(toks, base, toks[i].parent);
    }
  }

  lemma CloseScanned(js: string, s: State, dict: bool, base: nat)
    requires Wf(s) && Has(js, s.pos, Close(dict))
    requires base < |s.toks| && IsOpen(s.toks[base]) && s.toks[base].kind == NodeKind(dict)
    requires Grafted(s.toks[base + 1..], base, base + 1)
    ensures
      var t := State(s.pos + 1, s.toks[base := s.toks[base].(end := s.pos + 1)], s.toks[base].parent);
      Wf(t) && Leads(js, s, t)
  {
    HasAt(js, s.pos, Close(dict), 0);
    ClimbsTo(s.toks, base, |s.toks| - 1);
    LeadsStep(js, s, State(s.pos + 1, s.toks[base := s.toks[base].(end := s.pos + 1)], s.toks[base].parent));
  }

  // After an entry the super token is the container or the entry's key.
  predicate Within(s: State, base: nat) {
    Wf(s) && base < |s.toks| && IsOpen(s.toks[base]) && s.super >= base
    && (s.super > base ==> s.toks[s.super].kind == Key && s.toks[s.super].parent == base)
  }

  lemma ScalarScanned(js: string, s: State, j: Json)
    requires Wf(s) && !j.Node? && (s.super == -1 || s.toks[s.super].kind != Object) && Legible(j)
    requires Has(js, s.pos, Scalar(j)) && EndsWord(js, s.pos + |Scalar(j)|)
    ensures Leads(js, s, State(s.pos + |Scalar(j)|, Bump(s.toks, s.super) + [ScalarToken(j, s.super, s.pos)], s.super))
  {
    if j.Str? {
      ScanQuoted(js, s.pos, j.s);
      StrScanned(js, s, s.pos + 1 + |j.s|);
    } else {
      LegibleWord(j);
      WordScanned(js, s, Scalar(j));
      KindOfScalar(js, s.pos, j);
    }
  }

  lemma StrScanned(js: string, s: State, end: nat)
    requires Wf(s) && (s.super == -1 || s.toks[s.super].kind != Object)
    requires !Done(js, s.pos) && js[s.pos] == '"' && StringEnd(js, s.pos + 1) == At(end)
    ensures Leads(js, s, State(end + 1, Bump(s.toks, s.super) + [Token(String, s.pos + 1, end, 0, s.super)], s.super))
  {
    StringStep(js, s, end);
  }

  lemma LegibleWord(j: Json)
    requires !j.Node? && !j.Str? && Legible(j)
    ensures WordText(Scalar(j))
  {
    ScalarIsWord(j);
  }

  lemma {:induction false} ValueScanned(js: string, s: State, j: Json, readable: bool, depth: nat)
    requires Wf(s) && (s.super == -1 || s.toks[s.super].kind != Object) && Legible(j)
    requires Has(js, s.pos, Text(j, readable, depth)) && EndsWord(js, s.pos + |Text(j, readable, depth)|)
    ensures Leads(js, s, After(s, j, readable, depth))
    decreases j, 0
  {
    if j.Node? {
      assert j == Node(j.dict, j.entries);
      var end := s.pos + |Inner(j.dict, j.entries, readable, depth + 1)| + |Sep(readable, depth)| + 2;
      NodeScanned(js, s, j.dict, j.entries, readable, depth, end);
      AfterNode(s, j.dict, j.entries, readable, depth, end);
    } else {
      ScalarScanned(js, s, j);
      AfterScalar(s, j, readable, depth);
    }
  }

  lemma AfterScalar(s: State, j: Json, readable: bool, depth: nat)
    requires Wf(s) && !j.Node?
    ensures After(s, j, readable, depth)
         == State(s.pos + |Scalar(j)|, Bump(s.toks, s.super) + [ScalarToken(j, s.super, s.pos)], s.super)
  {
  }

  lemma NodeText(dict: bool, entries: seq<Entry>, readable: bool, depth: nat)
    ensures Text(Node(dict, entries), readable, depth)
         == JsonText.Open(dict) + Inner(dict, entries, readable, depth + 1) + (Sep(readable, depth) + Close(dict))
  {
  }

  lemma NodeHas(js: string, at: nat, text: string, dict: bool, inner: string, readable: bool, depth: nat)
    requires Has(js, at, text) && text == JsonText.Open(dict) + inner + (Sep(readable, depth) + Close(dict))
    ensures Has(js, at, JsonText.Open(dict)) && Has(js, at + 1, inner) && EndsWord(js, at + 1 + |inner|)
    ensures Has(js, at + 1 + |inner|, Sep(readable, depth) + Close(dict))
  {
    var tail := Sep(readable, depth) + Close(dict);
    HasConcat(js, at, JsonText.Open(dict) + inner, tail);
    HasConcat(js, at, JsonText.Open(dict), inner);
    HasAt(js, at + 1 + |inner|, tail, 0);
  }

  // A container's own token while it is open, and the tokens inside it.
  function Own(s: State, dict: bool, entries: seq<Entry>): Token {
    Token(NodeKind(dict), s.pos, -1, |entries|, s.super)
  }

  function Inside(s: State, dict: bool, entries: seq<Entry>, readable: bool, depth: nat): seq<Token> {
    EntriesTokens(dict, entries, readable, depth + 1, |s.toks|, s.pos + 1 + |Sep(readable, depth + 1)|, |s.toks| + 1)
  }

  lemma NodeParts(js: string, at: nat, dict: bool, entries: seq<Entry>, readable: bool, depth: nat, inner: string)
    requires inner == Inner(dict, entries, readable, depth + 1)
    requires Has(js, at, Text(Node(dict, entries), readable, depth))
    ensures Has(js, at, JsonText.Open(dict)) && Has(js, at + 1, inner) && EndsWord(js, at + 1 + |inner|)
    ensures Has(js, at + 1 + |inner|, Sep(readable, depth) + Close(dict))
  {
    NodeText(dict, entries, readable, depth);
    NodeHas(js, at, Text(Node(dict, entries), readable, depth), dict, inner, readable, depth);
  }

  lemma InnerHas(js: string, at: nat, dict: bool, entries: seq<Entry>, readable: bool, depth: nat, next: nat)
    requires entries != [] && Has(js, at, Inner(dict, entries, readable, depth)) && next == at + |Sep(readable, depth)|
    ensures Has(js, at, Sep(readable, depth)) && Has(js, next, Join(dict, entries, readable, depth))
  {
    InnerText(dict, entries, readable, depth);
    HasConcat(js, at, Sep(readable, depth), Join(dict, entries, readable, depth));
  }

  lemma InnerText(dict: bool, entries: seq<Entry>, readable: bool, depth: nat)
    requires entries != []
    ensures Inner(dict, entries, readable, depth) == Sep(readable, depth) + Join(dict, entries, readable, depth)
  {
  }

  lemma NodeStarts(
      js: string, at: nat, dict: bool, entries: seq<Entry>, readable: bool, depth: nat, sep: string, first: nat)
    requires entries != [] && Has(js, at, Text(Node(dict, entries), readable, depth))
    requires sep == Sep(readable, depth + 1) && first == at + 1 + |sep|
    ensures Has(js, at, JsonText.Open(dict)) && Has(js, at + 1, sep)
    ensures Has(js, first, Join(dict, entries, readable, depth + 1))
  {
    NodeParts(js, at, dict, entries, readable, depth, Inner(dict, entries, readable, depth + 1));
    InnerHas(js, at + 1, dict, entries, readable, depth + 1, first);
  }

  lemma {:induction false} NodeScanned(
      js: string, s: State, dict: bool, entries: seq<Entry>, readable: bool, depth: nat, end: nat)
    requires Wf(s) && LegibleEntries(dict, entries) && Has(js, s.pos, Text(Node(dict, entries), readable, depth))
    requires end == s.pos + |Inner(dict, entries, readable, depth + 1)| + |Sep(readable, depth)| + 2
    ensures Leads(js, s, NodeDone(s, dict, entries, readable, depth, end))
    decreases entries, 6
  {
    var inner, inside := Inner(dict, entries, readable, depth + 1), Inside(s, dict, entries, readable, depth);
    NodeText(dict, entries, readable, depth);
    NodeRead(js, s, dict, entries, readable, depth, Text(Node(dict, entries), readable, depth), inner, inside,
      Sep(readable, depth), end);
  }

  // The state once a container that ends at `end` has been read from `s`.
  function NodeDone(s: State, dict: bool, entries: seq<Entry>, readable: bool, depth: nat, end: nat): State
    requires Wf(s)
  {
    var own := Own(s, dict, entries).(end := end);
    State(end, Bump(s.toks, s.super) + ([own] + Inside(s, dict, entries, readable, depth)), s.super)
  }

  lemma {:induction false} NodeRead(
      js: string, s: State, dict: bool, entries: seq<Entry>, readable: bool, depth: nat, text: string, inner: string,
      inside: seq<Token>, sep: string, end: nat)
    requires Wf(s) && LegibleEntries(dict, entries)
    requires Has(js, s.pos, text) && text == JsonText.Open(dict) + inner + (sep + Close(dict))
    requires inner == Inner(dict, entries, readable, depth + 1) && inside == Inside(s, dict, entries, readable, depth)
    requires sep == Sep(readable, depth) && end == s.pos + |inner| + |sep| + 2
    ensures Leads(js, s,
      State(end, Bump(s.toks, s.super) + ([Own(s, dict, entries).(end := end)] + inside), s.super))
    decreases entries, 5
  {
    NodeHas(js, s.pos, text, dict, inner, readable, depth);
    var t := NodeInside(js, s, dict, entries, readable, depth, inner, inside);
    InsideGrafted(s, dict, entries, readable, depth);
    NodeClosed(js, s, dict, Own(s, dict, entries), inside, t, sep, end);
  }

  lemma InsideGrafted(s: State, dict: bool, entries: seq<Entry>, readable: bool, depth: nat)
    ensures Grafted(Inside(s, dict, entries, readable, depth), |s.toks|, |s.toks| + 1)
  {
    EntriesGrafted(dict, entries, readable, depth + 1, |s.toks|, s.pos + 1 + |Sep(readable, depth + 1)|, |s.toks| + 1);
  }

  lemma OpenedParts(s: State, kind: Kind)
    requires Wf(s)
    ensures
      var s1, base := Opened(s, kind), |s.toks|;
      |s1.toks| == base + 1 && s1.toks[..base] == Bump(s.toks, s.super)
      && s1.toks[base] == Token(kind, s.pos, -1, 0, s.super)
  {
  }

  // The opening bracket and the entries.
  lemma {:induction false} NodeInside(
      js: string, s: State, dict: bool, entries: seq<Entry>, readable: bool, depth: nat, inner: string,
      inside: seq<Token>) returns (t: State)
    requires Wf(s) && LegibleEntries(dict, entries) && Has(js, s.pos, JsonText.Open(dict))
    requires inner == Inner(dict, entries, readable, depth + 1) && inside == Inside(s, dict, entries, readable, depth)
    requires Has(js, s.pos + 1, inner) && EndsWord(js, s.pos + 1 + |inner|)
    ensures Leads(js, s, t) && t.pos == s.pos + 1 + |inner|
    ensures t.toks == Bump(s.toks, s.super) + [Own(s, dict, entries)] + inside
    decreases entries, 4
  {
    OpenScanned(js, s, dict);
    var s1 := Opened(s, NodeKind(dict));
    OpenedParts(s, NodeKind(dict));
    t := InnerScanned(js, s1, dict, entries, readable, depth + 1);
    LeadsThen(js, s, s1, t);
  }

  lemma AfterNode(s: State, dict: bool, entries: seq<Entry>, readable: bool, depth: nat, end: nat)
    requires Wf(s) && end == s.pos + |Inner(dict, entries, readable, depth + 1)| + |Sep(readable, depth)| + 2
    ensures After(s, Node(dict, entries), readable, depth) == NodeDone(s, dict, entries, readable, depth, end)
  {
  }

  // White space and the closing bracket complete the container's own token.
  lemma NodeClosed(js: string, s: State, dict: bool, own: Token, inside: seq<Token>, s2: State, sep: string, end: nat)
    requires end == s2.pos + |sep| + 1
    requires Wf(s) && Leads(js, s, s2) && Has(js, s2.pos, sep + Close(dict))
    requires forall i :: 0 <= i < |sep| ==> White(sep[i])
    requires IsOpen(own) && own.kind == NodeKind(dict) && own.parent == s.super
    requires s2.toks == Bump(s.toks, s.super) + [own] + inside && Grafted(inside, |s.toks|, |s.toks| + 1)
    ensures Leads(js, s, State(end, Bump(s.toks, s.super) + ([own.(end := end)] + inside), s.super))
  {
    var base := |s.toks|;
    HasConcat(js, s2.pos, sep, Close(dict));
    SkipWhite(js, s2, sep);
    var s3 := s2.(pos := s2.pos + |sep|);
    LeadsThen(js, s, s2, s3);
    Around(Bump(s.toks, s.super), own, inside);
    CloseScanned(js, s3, dict, base);
    UpdateAround(Bump(s.toks, s.super), own, inside, own.(end := s3.pos + 1));
    LeadsThen(js, s, s3, State(s3.pos + 1, s3.toks[base := own.(end := s3.pos + 1)], s.super));
  }

  lemma Around<T>(a: seq<T>, x: T, b: seq<T>)
    ensures (a + [x] + b)[|a|] == x && (a + [x] + b)[|a| + 1..] == b && |a + [x] + b| == |a| + 1 + |b|
  {
  }

  lemma UpdateAround<T>(a: seq<T>, x: T, b: seq<T>, y: T)
    ensures |a| < |a + [x] + b| && (a + [x] + b)[|a| := y] == a + ([y] + b)
  {
  }

  lemma {:induction false} InnerScanned(
      js: string, s: State, dict: bool, entries: seq<Entry>, readable: bool, depth: nat) returns (t: State)
    requires Wf(s) && LegibleEntries(dict, entries) && s.toks != []
    requires
      var base := |s.toks| - 1;
      s.super == base && IsOpen(s.toks[base]) && s.toks[base].kind == NodeKind(dict) && s.toks[base].size == 0
    requires Has(js, s.pos, Inner(dict, entries, readable, depth))
    requires EndsWord(js, s.pos + |Inner(dict, entries, readable, depth)|)
    ensures
      var base := |s.toks| - 1;
      Wf(t) && t.pos == s.pos + |Inner(dict, entries, readable, depth)| && Leads(js, s, t)
      && t.toks == s.toks[..base] + [s.toks[base].(size := |entries|)]
           + EntriesTokens(dict, entries, readable, depth, base, s.pos + |Sep(readable, depth)|, base + 1)
    decreases entries, 3
  {
    var base := |s.toks| - 1;
    if entries == [] {
      t := s;
      LeadsNowhere(js, s);
    } else {
      var sep := Sep(readable, depth);
      HasConcat(js, s.pos, sep, Join(dict, entries, readable, depth));
      SkipWhite(js, s, sep);
      var s1 := s.(pos := s.pos + |sep|);
      t := EntriesScanned(js, s1, dict, entries, readable, depth, base,
        s.pos + |Inner(dict, entries, readable, depth)|);
      LeadsThen(js, s, s1, t);
      assert s.toks[base := s.toks[base].(size := |entries|)] == s.toks[..base] + [s.toks[base].(size := |entries|)];
    }
  }

  // The entries and the separators between them, up to `end`.
  lemma {:induction false} EntriesScanned(
      js: string, s: State, dict: bool, entries: seq<Entry>, readable: bool, depth: nat, base: nat,
      end: nat) returns (t: State)
    requires entries != [] && LegibleEntries(dict, entries)
    requires Within(s, base) && s.super == base && s.toks[base].kind == NodeKind(dict)
    requires Has(js, s.pos, Join(dict, entries, readable, depth))
    requires end == s.pos + |Join(dict, entries, readable, depth)|
    requires EndsWord(js, end)
    ensures Within(t, base) && t.pos == end && Leads(js, s, t)
    ensures t.toks == s.toks[base := s.toks[base].(size := s.toks[base].size + |entries|)]
              + EntriesTokens(dict, entries, readable, depth, base, s.pos, |s.toks|)
    decreases entries, 2
  {
    if |entries| == 1 {
      t := EntryScanned(js, s, dict, entries[0], readable, depth, base, end);
      SingleTokens(dict, entries, readable, depth, base, s.pos, |s.toks|);
    } else {
      t := ManyScanned(js, s, dict, entries, readable, depth, base, end);
    }
  }

  lemma {:induction false} ManyScanned(
      js: string, s: State, dict: bool, entries: seq<Entry>, readable: bool, depth: nat, base: nat,
      end: nat) returns (t: State)
    requires |entries| > 1 && LegibleEntries(dict, entries)
    requires Within(s, base) && s.super == base && s.toks[base].kind == NodeKind(dict)
    requires Has(js, s.pos, Join(dict, entries, readable, depth))
    requires end == s.pos + |Join(dict, entries, readable, depth)|
    requires EndsWord(js, end)
    ensures Within(t, base) && t.pos == end && Leads(js, s, t)
    ensures t.toks == s.toks[base := s.toks[base].(size := s.toks[base].size + |entries|)]
              + EntriesTokens(dict, entries, readable, depth, base, s.pos, |s.toks|)
    decreases entries, 1
  {
    var comma := s.pos + |EntryText(dict, entries[0], readable, depth)|;
    var next := comma + 1 + |Sep(readable, depth)|;
    JoinHas(js, s.pos, dict, entries, readable, depth, comma, next, end);
    var s3 := FirstScanned(js, s, dict, entries[0], readable, depth, base, comma, next);
    t := MoreScanned(js, s, s3, dict, entries, readable, depth, base, end);
  }

  lemma JoinHas(
      js: string, at: nat, dict: bool, entries: seq<Entry>, readable: bool, depth: nat, comma: nat, next: nat,
      end: nat)
    requires |entries| > 1 && Has(js, at, Join(dict, entries, readable, depth))
    requires comma == at + |EntryText(dict, entries[0], readable, depth)| && next == comma + 1 + |Sep(readable, depth)|
    requires end == at + |Join(dict, entries, readable, depth)|
    ensures Has(js, at, EntryText(dict, entries[0], readable, depth)) && EndsWord(js, comma) && Has(js, comma, ",")
    ensures Has(js, comma + 1, Sep(readable, depth)) && Has(js, next, Join(dict, entries[1..], readable, depth))
    ensures end == next + |Join(dict, entries[1..], readable, depth)|
  {
    JoinText(dict, entries, readable, depth);
    JoinPieces(js, at, Join(dict, entries, readable, depth), EntryText(dict, entries[0], readable, depth),
      Sep(readable, depth), Join(dict, entries[1..], readable, depth), comma, next);
  }

  lemma SingleTokens(dict: bool, entries: seq<Entry>, readable: bool, depth: nat, parent: nat, at: nat, base: nat)
    requires |entries| == 1
    ensures EntriesTokens(dict, entries, readable, depth, parent, at, base)
         == EntryTokens(dict, entries[0], readable, depth, parent, at, base)
  {
  }

  // All entries but the first.
  lemma {:induction false} MoreScanned(
      js: string, s: State, s3: State, dict: bool, entries: seq<Entry>, readable: bool, depth: nat, base: nat,
      end: nat) returns (t: State)
    requires |entries| > 1 && LegibleEntries(dict, entries) && base < |s.toks| && Leads(js, s, s3)
    requires Within(s3, base) && s3.super == base && s3.toks[base].kind == NodeKind(dict)
    requires Has(js, s3.pos, Join(dict, entries[1..], readable, depth))
    requires end == s3.pos + |Join(dict, entries[1..], readable, depth)|
    requires EndsWord(js, end)
    requires s3.pos == s.pos + |EntryText(dict, entries[0], readable, depth)| + 1 + |Sep(readable, depth)|
    requires s3.toks == Bump(s.toks, base) + EntryTokens(dict, entries[0], readable, depth, base, s.pos, |s.toks|)
    ensures Within(t, base) && t.pos == end && Leads(js, s, t)
    ensures t.toks == s.toks[base := s.toks[base].(size := s.toks[base].size + |entries|)]
              + EntriesTokens(dict, entries, readable, depth, base, s.pos, |s.toks|)
    decreases entries, 0
  {
    var first := EntryTokens(dict, entries[0], readable, depth, base, s.pos, |s.toks|);
    var rest := EntriesTokens(dict, entries[1..], readable, depth, base, s3.pos, |s3.toks|);
    t := EntriesScanned(js, s3, dict, entries[1..], readable, depth, base, end);
    LeadsThen(js, s, s3, t);
    Grown(s.toks, s3.toks, t.toks, base, first, rest, |entries| - 1);
    TokensSplit(dict, entries, readable, depth, base, s.pos, |s.toks|, s3.pos, |s3.toks|);
  }

  lemma TokensSplit(
      dict: bool, entries: seq<Entry>, readable: bool, depth: nat, parent: nat, at: nat, base: nat, nextAt: nat,
      nextBase: nat)
    requires entries != []
    requires nextAt == at + |EntryText(dict, entries[0], readable, depth)| + 1 + |Sep(readable, depth)|
    requires nextBase == base + |EntryTokens(dict, entries[0], readable, depth, parent, at, base)|
    ensures EntriesTokens(dict, entries, readable, depth, parent, at, base)
         == EntryTokens(dict, entries[0], readable, depth, parent, at, base)
            + EntriesTokens(dict, entries[1..], readable, depth, parent, nextAt, nextBase)
  {
  }

  // The comma behind an entry and the white space behind the comma.
  lemma SepScanned(js: string, s: State, dict: bool, base: nat, sep: string) returns (t: State)
    requires Within(s, base) && s.toks[base].kind == NodeKind(dict) && Has(js, s.pos, ",") && Has(js, s.pos + 1, sep)
    requires forall i :: 0 <= i < |sep| ==> White(sep[i])
    ensures t == State(s.pos + 1 + |sep|, s.toks, base) && Within(t, base) && Leads(js, s, t)
  {
    var s1 := CommaScanned(js, s, dict, base);
    SkipWhite(js, s1, sep);
    t := s1.(pos := s1.pos + |sep|);
    LeadsThen(js, s, s1, t);
  }

  // An entry and the separator behind it; `comma` is where the entry's text ends.
  lemma {:induction false} FirstScanned(
      js: string, s: State, dict: bool, e: Entry, readable: bool, depth: nat, base: nat, comma: nat,
      next: nat) returns (t: State)
    requires (dict ==> Escaped(e.key)) && Legible(e.value)
    requires Within(s, base) && s.super == base && s.toks[base].kind == NodeKind(dict)
    requires Has(js, s.pos, EntryText(dict, e, readable, depth))
    requires comma == s.pos + |EntryText(dict, e, readable, depth)|
    requires EndsWord(js, comma) && Has(js, comma, ",") && Has(js, comma + 1, Sep(readable, depth))
    requires next == comma + 1 + |Sep(readable, depth)|
    ensures Within(t, base) && t.super == base && Leads(js, s, t) && t.pos == next
    ensures t.toks == Bump(s.toks, base) + EntryTokens(dict, e, readable, depth, base, s.pos, |s.toks|)
    decreases e, 3
  {
    var s1 := EntryScanned(js, s, dict, e, readable, depth, base, comma);
    t := SepScanned(js, s1, dict, base, Sep(readable, depth));
    LeadsThen(js, s, s1, t);
  }

  lemma JoinPieces(js: string, at: nat, text: string, first: string, sep: string, rest: string, comma: nat, next: nat)
    requires Has(js, at, text) && text == first + ("," + sep + rest)
    requires comma == at + |first| && next == comma + 1 + |sep|
    ensures Has(js, at, first) && EndsWord(js, comma) && Has(js, comma, ",")
    ensures Has(js, comma + 1, sep) && Has(js, next, rest)
  {
    HasConcat(js, at, first, "," + sep + rest);
    HasConcat(js, comma, "," + sep, rest);
    HasConcat(js, comma, ",", sep);
    HasAt(js, comma, ",", 0);
  }

  // Children added in two goes.
  lemma Grown(
      toks: seq<Token>, toks1: seq<Token>, toks2: seq<Token>, base: nat, first: seq<Token>, rest: seq<Token>,
      n: nat)
    requires base < |toks| && toks1 == Bump(toks, base) + first
    requires toks2 == toks1[base := toks1[base].(size := toks1[base].size + n)] + rest
    ensures |toks1| == |toks| + |first|
    ensures toks2 == toks[base := toks[base].(size := toks[base].size + (n + 1))] + (first + rest)
  {
  }

  lemma CommaScanned(js: string, s: State, dict: bool, base: nat) returns (t: State)
    requires Within(s, base) && s.toks[base].kind == NodeKind(dict) && Has(js, s.pos, ",")
    ensures t == State(s.pos + 1, s.toks, base) && Within(t, base) && Leads(js, s, t)
  {
    HasAt(js, s.pos, ",", 0);
    t := State(s.pos + 1, s.toks, base);
    LeadsStep(js, s, t);
  }

  lemma {:induction false} EntryScanned(
      js: string, s: State, dict: bool, e: Entry, readable: bool, depth: nat, base: nat,
      end: nat) returns (t: State)
    requires (dict ==> Escaped(e.key)) && Legible(e.value)
    requires Within(s, base) && s.super == base && s.toks[base].kind == NodeKind(dict)
    requires Has(js, s.pos, EntryText(dict, e, readable, depth)) && end == s.pos + |EntryText(dict, e, readable, depth)|
    requires EndsWord(js, end)
    ensures Within(t, base) && t.pos == end && Leads(js, s, t)
    ensures t.toks == Bump(s.toks, base) + EntryTokens(dict, e, readable, depth, base, s.pos, |s.toks|)
    decreases e, 2
  {
    var at := s.pos + |Lead(dict, e.key, readable)|;
    HasConcat(js, s.pos, Lead(dict, e.key, readable), Text(e.value, readable, depth));
    if dict {
      t := MemberScanned(js, s, e, readable, depth, base, at, end);
    } else {
      t := ItemScanned(js, s, e.value, readable, depth, base, end);
    }
  }

  lemma {:induction false} ItemScanned(
      js: string, s: State, j: Json, readable: bool, depth: nat, base: nat, end: nat) returns (t: State)
    requires Legible(j)
    requires Within(s, base) && s.super == base && s.toks[base].kind == Array
    requires Has(js, s.pos, Text(j, readable, depth)) && end == s.pos + |Text(j, readable, depth)| && EndsWord(js, end)
    ensures Within(t, base) && t.pos == end && Leads(js, s, t)
    ensures t.toks == Bump(s.toks, base) + Tokens(j, readable, depth, base, s.pos, |s.toks|)
    decreases j, 1
  {
    ValueScanned(js, s, j, readable, depth);
    t := After(s, j, readable, depth);
  }

  lemma {:induction false} MemberScanned(
      js: string, s: State, e: Entry, readable: bool, depth: nat, base: nat, at: nat, end: nat) returns (t: State)
    requires Escaped(e.key) && Legible(e.value)
    requires Within(s, base) && s.super == base && s.toks[base].kind == Object
    requires Has(js, s.pos, Lead(true, e.key, readable)) && at == s.pos + |Lead(true, e.key, readable)|
    requires Has(js, at, Text(e.value, readable, depth))
    requires end == at + |Text(e.value, readable, depth)| && EndsWord(js, end)
    ensures Within(t, base) && t.pos == end && Leads(js, s, t)
    ensures t.toks == Bump(s.toks, base) + EntryTokens(true, e, readable, depth, base, s.pos, |s.toks|)
    decreases e, 1
  {
    var key := Token(Key, s.pos + 1, s.pos + 1 + |e.key|, 0, base);
    var s1 := KeyScanned(js, s, e.key, readable, base);
    assert |s1.toks| == |s.toks| + 1 && s1.pos == at;
    var value := ValueRead(js, s1, e.value, readable, depth, end);
    MemberTokens(e, readable, depth, base, s.pos, |s.toks|, at);
    assert [key.(size := 1)] + value == EntryTokens(true, e, readable, depth, base, s.pos, |s.toks|);
    t := MemberRead(js, s, base, key, s1, value, end);
  }

  lemma MemberTokens(e: Entry, readable: bool, depth: nat, parent: nat, start: nat, base: nat, at: nat)
    requires at == start + |Lead(true, e.key, readable)|
    ensures EntryTokens(true, e, readable, depth, parent, start, base)
         == [Token(Key, start + 1, start + 1 + |e.key|, 1, parent)]
            + Tokens(e.value, readable, depth, base, at, base + 1)
  {
  }

  // The key counts its value as a child.
  lemma KeyGrown(toks: seq<Token>, key: Token, value: seq<Token>)
    ensures |toks + [key]| == |toks| + 1
    ensures Bump(toks + [key], |toks|) + value == toks + ([key.(size := key.size + 1)] + value)
  {
  }

  lemma AfterIs(s: State, j: Json, readable: bool, depth: nat, end: nat) returns (value: seq<Token>)
    requires Wf(s) && end == s.pos + |Text(j, readable, depth)|
    ensures value == Tokens(j, readable, depth, s.super, s.pos, |s.toks|)
    ensures After(s, j, readable, depth) == State(end, Bump(s.toks, s.super) + value, s.super)
  {
    value := Tokens(j, readable, depth, s.super, s.pos, |s.toks|);
  }

  lemma {:induction false} ValueRead(js: string, s: State, j: Json, readable: bool, depth: nat, end: nat)
    returns (value: seq<Token>)
    requires Wf(s) && (s.super == -1 || s.toks[s.super].kind != Object) && Legible(j)
    requires Has(js, s.pos, Text(j, readable, depth)) && end == s.pos + |Text(j, readable, depth)| && EndsWord(js, end)
    ensures value == Tokens(j, readable, depth, s.super, s.pos, |s.toks|)
    ensures Leads(js, s, State(end, Bump(s.toks, s.super) + value, s.super))
    decreases j, 1
  {
    ValueScanned(js, s, j, readable, depth);
    value := AfterIs(s, j, readable, depth, end);
  }

  // A key and the value below it.
  lemma MemberRead(js: string, s: State, base: nat, key: Token, s1: State, value: seq<Token>, end: nat)
    returns (t: State)
    requires Within(s, base) && key.kind == Key && key.parent == base && key.size == 0
    requires s1.toks == Bump(s.toks, base) + [key] && s1.super == |s.toks|
    requires Wf(s1) && Leads(js, s, s1)
    requires Leads(js, s1, State(end, Bump(s1.toks, s1.super) + value, s1.super))
    ensures Within(t, base) && t.pos == end && Leads(js, s, t)
    ensures t.toks == Bump(s.toks, base) + ([key.(size := 1)] + value)
  {
    t := State(end, Bump(s1.toks, s1.super) + value, s1.super);
    LeadsThen(js, s, s1, t);
    KeyGrown(Bump(s.toks, base), key, value);
  }

  lemma KeyScanned(js: string, s: State, key: string, readable: bool, base: nat) returns (t: State)
    requires Escaped(key) && Within(s, base) && s.super == base && s.toks[base].kind == Object
    requires Has(js, s.pos, Lead(true, key, readable))
    ensures Wf(t) && Leads(js, s, t)
    ensures t == State(s.pos + |Lead(true, key, readable)|,
                   Bump(s.toks, base) + [Token(Key, s.pos + 1, s.pos + 1 + |key|, 0, base)], |s.toks|)
  {
    var gap := if readable then " " else "";
    var quoted := "\"" + key + "\"";
    assert Lead(true, key, readable) == quoted + (":" + gap);
    HasConcat(js, s.pos, quoted, ":" + gap);
    ScanQuoted(js, s.pos, key);
    StringStep(js, s, s.pos + 1 + |key|);
    var s1 := Leaf(s, Key, s.pos + 1, s.pos + 1 + |key|, s.pos + 1 + |key| + 1);
    t := ColonScanned(js, s1, gap);
    LeadsThen(js, s, s1, t);
  }

  lemma ColonScanned(js: string, s: State, gap: string) returns (t: State)
    requires Wf(s) && Has(js, s.pos, ":" + gap) && forall i :: 0 <= i < |gap| ==> White(gap[i])
    ensures t == State(s.pos + 1 + |gap|, s.toks, |s.toks| - 1) && Leads(js, s, t)
  {
    HasConcat(js, s.pos, ":", gap);
    HasAt(js, s.pos, ":", 0);
    var s1 := State(s.pos + 1, s.toks, |s.toks| - 1);
    LeadsStep(js, s, s1);
    SkipWhite(js, s1, gap);
    t := s1.(pos := s1.pos + |gap|);
    LeadsThen(js, s, s1, t);
  }

  // Tokenizing the dump of a tree gives exactly its tokens.
  lemma RoundTrip(j: Json, readable: bool)
    requires Legible(j)
    ensures
      var js, toks := Text(j, readable, 0), Tokens(j, readable, 0, -1, 0, 0);
      Run(js, Initial) == (State(|js|, toks, -1), |toks|)
  {
    var js := Text(j, readable, 0);
    ValueScanned(js, Initial, j, readable, 0);
    LeadsRuns(js, Initial, After(Initial, j, readable, 0));
    AllClosed(js, j, readable);
  }

  lemma AllClosed(js: string, j: Json, readable: bool)
    requires js == Text(j, readable, 0)
    ensures
      var toks := Tokens(j, readable, 0, -1, 0, 0);
      Wf(After(Initial, j, readable, 0)) && After(Initial, j, readable, 0) == State(|js|, toks, -1) && !AnyOpen(toks)
      && Run(js, After(Initial, j, readable, 0)) == (State(|js|, toks, -1), |toks|)
  {
    TokensGrafted(j, readable, 0, -1, 0, 0);
    assert [] + Tokens(j, readable, 0, -1, 0, 0) == Tokens(j, readable, 0, -1, 0, 0);
  }

  // --- A closed token keeps its end

  lemma ClosedStays(js: string, s: State, i: nat)
    requires Wf(s) && !Done(js, s.pos) && i < |s.toks| && s.toks[i].end != -1
    ensures Next(js, s).Go? ==> Next(js, s).s.toks[i].end == s.toks[i].end
  {
  }

  lemma {:induction false} ClosedForGood(js: string, s: State, i: nat)
    requires Wf(s) && i < |s.toks| && s.toks[i].end != -1
    ensures i < |Run(js, s).0.toks| && Run(js, s).0.toks[i].end == s.toks[i].end
    decreases |js| - s.pos
  {
    if !Done(js, s.pos) {
      ClosedStays(js, s, i);
      var r := Next(js, s);
      if r.Go? { ClosedForGood(js, r.s, i); }
    }
  }
}
