/**
 The grammar of RFC 8259 as relations between texts and trees: what the writer writes
 is a JSON text for its tree, and the strings of the grammar are those the tokenizer reads.
 */
module JsonGrammar {
  import opened Bytes
  import opened JsonText
  import opened JsmnRoundTrip

  // ---- strings, section 7 --------------------------------------------------------------

  // One character of a string: unescaped, a short escape, or four hexadecimal digits.
  predicate StringChar(c: string) {
    || (|c| == 1 && c[0] >= ' ' && c[0] != '"' && c[0] != '\\')
    || (|c| == 2 && c[0] == '\\' && c[1] in "\"\\/bfnrt")
    || (|c| == 6 && c[0] == '\\' && c[1] == 'u' && forall i :: 2 <= i < 6 ==> c[i] in "0123456789ABCDEFabcdef")
  }

  ghost predicate StringText(s: string)
    decreases |s|
  {
    s == "" || exists n | 1 <= n <= |s| :: StringChar(s[..n]) && StringText(s[n..])
  }

  predicate NoControls(s: string) { forall i :: 0 <= i < |s| ==> s[i] >= ' ' }

  lemma {:induction false} StringIsEscaped(s: string)
    requires StringText(s)
    ensures Escaped(s) && NoControls(s)
    decreases |s|
  {
    if s != "" {
      var n :| 1 <= n <= |s| && StringChar(s[..n]) && StringText(s[n..]);
      StringIsEscaped(s[n..]);
      assert forall i :: 0 <= i < n ==> s[i] == s[..n][i];
      assert forall i :: n <= i < |s| ==> s[i] == s[n..][i - n];
      if n == 6 { assert forall i :: 0 <= i < 4 ==> s[2..6][i] == s[..n][i + 2]; }
      DigitsAreNoControls(s[..n]);
    }
  }

  lemma DigitsAreNoControls(c: string)
    requires StringChar(c)
    ensures NoControls(c)
  {
  }

  lemma {:induction false} EscapedIsString(s: string)
    requires Escaped(s) && NoControls(s)
    ensures StringText(s)
    decreases |s|
  {
    if s != "" {
      var n := if s[0] != '\\' then 1 else if s[1] in SHORT_ESCAPES && Escaped(s[2..]) then 2 else 6;
      if n == 6 { assert forall i :: 2 <= i < 6 ==> s[..n][i] == s[2..6][i - 2]; }
      assert StringChar(s[..n]);
      assert forall i :: 0 <= i < |s[n..]| ==> s[n..][i] == s[n + i];
      EscapedIsString(s[n..]);
    }
  }

  // The strings the tokenizer reads to their end are those of the grammar and those that differ from
  // them by bare control characters.
  lemma StringsExactly(s: string)
    ensures StringText(s) <==> Escaped(s) && NoControls(s)
  {
    if StringText(s) { StringIsEscaped(s); }
    if Escaped(s) && NoControls(s) { EscapedIsString(s); }
  }

  // ---- numbers, section 6 ---------------------------------------------------------------

  function Value(s: string): int {
    if s == "" then 0 else 10 * Value(s[..|s| - 1]) + ((s[|s| - 1] as int) - ('0' as int))
  }

  predicate NatText(s: string, n: int) {
    s != "" && (forall i :: 0 <= i < |s| ==> '0' <= s[i] <= '9') && (|s| > 1 ==> s[0] != '0') && Value(s) == n
  }

  predicate IntText(s: string, i: int) {
    if i < 0 then s != "" && s[0] == '-' && NatText(s[1..], -i) else NatText(s, i)
  }

  lemma DigitChar(k: nat)
    requires k < 10
    ensures ("0123456789"[k] as int) - ('0' as int) == k
  {
  }

  lemma ValueOfLast(s: string, c: char)
    ensures Value(s + [c]) == 10 * Value(s) + ((c as int) - ('0' as int))
  {
    assert (s + [c])[..|s|] == s;
  }

  lemma NatLonger(s: string, n: nat, d: char, k: nat)
    requires NatText(s, n) && s[0] != '0' && k < 10 && (d as int) - ('0' as int) == k
    ensures NatText(s + [d], 10 * n + k) && (s + [d])[0] != '0'
  {
    ValueOfLast(s, d);
  }

  lemma {:induction false} DigitsAreText(n: nat)
    ensures NatText(Digits(n), n) && (n > 0 ==> Digits(n)[0] != '0')
  {
    var d := "0123456789"[n % 10];
    DigitChar(n % 10);
    if n >= 10 {
      DigitsAreText(n / 10);
      NatLonger(Digits(n / 10), n / 10, d, n % 10);
    } else {
      assert Digits(n) == "" + [d];
      ValueOfLast("", d);
    }
  }

  lemma DecimalIsText(i: int)
    ensures IntText(Decimal(i), i)
  {
    DigitsAreText(if i < 0 then -i else i);
    if i < 0 { assert Decimal(i)[1..] == Digits(-i); }
  }

  // ---- values, sections 2 to 5 -----------------------------------------------------------

  predicate Ws(s: string) { forall i :: 0 <= i < |s| ==> s[i] in " \t\n\r" }

  // s is core with white space around it.
  ghost predicate Padded(s: string, core: string) {
    exists before: string, behind: string :: s == before + core + behind && Ws(before) && Ws(behind)
  }

  ghost predicate QuotedText(s: string, text: string) {
    StringText(text) && Padded(s, "\"" + text + "\"")
  }

  // The text of a real value is the tree's own.
  ghost predicate Denotes(s: string, j: Json)
    decreases j, 0
  {
    match j
    case Num(i) => IntText(s, i)
    case Uns(u) => IntText(s, u)
    case Real(text) => s == text
    case Flag(b) => s == if b then "true" else "false"
    case Null => s == "null"
    case Binary(_) => false
    case Str(text) => StringText(text) && s == "\"" + text + "\""
    case Node(dict, entries) => exists body: string | BodyText(body, dict, entries) ::
      s == if dict then "{" + body + "}" else "[" + body + "]"
  }

  ghost predicate BodyText(s: string, dict: bool, entries: seq<Entry>)
    decreases entries, 2
  {
    if entries == [] then Ws(s) else ItemsText(s, dict, entries)
  }

  ghost predicate ItemsText(s: string, dict: bool, entries: seq<Entry>)
    requires entries != []
    decreases entries, 1
  {
    if |entries| == 1 then MemberText(s, dict, entries[0])
    else exists c: nat | c < |s| ::
      s[c] == ',' && MemberText(s[..c], dict, entries[0]) && ItemsText(s[c + 1..], dict, entries[1..])
  }

  ghost predicate MemberText(s: string, dict: bool, e: Entry)
    decreases e
  {
    if !dict then ElementText(s, e.value)
    else exists c: nat | c < |s| :: s[c] == ':' && QuotedText(s[..c], e.key) && ElementText(s[c + 1..], e.value)
  }

  ghost predicate ElementText(s: string, j: Json)
    decreases j, 1
  {
    exists core: string | Padded(s, core) :: Denotes(core, j)
  }

  // Trees JSON can express: no binaries, unsigned values the writer prints as such, strings of the grammar.
  ghost predicate Expressible(j: Json)
    decreases j
  {
    match j
    case Uns(u) => u < 0x8000_0000_0000_0000
    case Binary(_) => false
    case Str(text) => StringText(text)
    case Node(dict, entries) => forall k :: 0 <= k < |entries| ==> ExpressibleEntry(dict, entries[k])
    case _ => true
  }

  ghost predicate ExpressibleEntry(dict: bool, e: Entry)
    decreases e
  {
    (dict ==> StringText(e.key)) && Expressible(e.value)
  }

  lemma SepIsWs(readable: bool, depth: nat)
    ensures Ws(Sep(readable, depth))
  {
  }

  lemma PaddedBy(before: string, core: string, behind: string)
    requires Ws(before) && Ws(behind)
    ensures Padded(before + core + behind, core)
  {
  }

  // What the writer writes for a tree is a JSON text of the tree, in both forms and at every depth.
  lemma {:induction false} WriterIsJson(j: Json, readable: bool, depth: nat)
    requires Expressible(j)
    ensures Denotes(Text(j, readable, depth), j)
    decreases j, 0
  {
    match j
    case Num(i) => DecimalIsText(i);
    case Uns(u) => UnsignedText(u);
    case Node(dict, entries) => NodeIsJson(dict, entries, readable, depth);
    case _ =>
  }

  lemma UnsignedText(u: nat)
    requires u < 0x8000_0000_0000_0000
    ensures IntText(Scalar(Uns(u)), u)
  {
    Ranges();
    ModUnique(u, Range(8), 0, u);
    DecimalIsText(u);
  }

  lemma {:induction false} NodeIsJson(dict: bool, entries: seq<Entry>, readable: bool, depth: nat)
    requires Expressible(Node(dict, entries))
    ensures Denotes(Text(Node(dict, entries), readable, depth), Node(dict, entries))
    decreases entries, 2
  {
    var sep, inner := Sep(readable, depth), Inner(dict, entries, readable, depth + 1);
    SepIsWs(readable, depth);
    SepIsWs(readable, depth + 1);
    if entries != [] { JoinIsJson(dict, entries, readable, depth + 1, Sep(readable, depth + 1), sep); }
    NodeText(dict, entries, readable, depth);
    NodeMade(dict, entries, inner, sep);
  }

  lemma NodeMade(dict: bool, entries: seq<Entry>, inner: string, sep: string)
    requires BodyText(inner + sep, dict, entries)
    ensures Denotes(JsonText.Open(dict) + inner + (sep + Close(dict)), Node(dict, entries))
  {
    var body := inner + sep;
    assert JsonText.Open(dict) + inner + (sep + Close(dict)) == JsonText.Open(dict) + body + Close(dict);
  }

  lemma {:induction false} JoinIsJson(
      dict: bool, entries: seq<Entry>, readable: bool, depth: nat, before: string, behind: string)
    requires entries != [] && forall k :: 0 <= k < |entries| ==> ExpressibleEntry(dict, entries[k])
    requires Ws(before) && Ws(behind)
    ensures ItemsText(before + Join(dict, entries, readable, depth) + behind, dict, entries)
    decreases entries, 1
  {
    var first, sep := EntryText(dict, entries[0], readable, depth), Sep(readable, depth);
    if |entries| == 1 {
      EntryIsJson(dict, entries[0], readable, depth, before, behind);
    } else {
      var rest := Join(dict, entries[1..], readable, depth);
      SepIsWs(readable, depth);
      JoinText(dict, entries, readable, depth);
      EntryIsJson(dict, entries[0], readable, depth, before, "");
      JoinIsJson(dict, entries[1..], readable, depth, sep, behind);
      ItemsMade(dict, entries, before, first, sep, rest, behind);
    }
  }

  lemma ItemsMade(
      dict: bool, entries: seq<Entry>, before: string, first: string, sep: string, rest: string, behind: string)
    requires |entries| > 1 && MemberText(before + first + "", dict, entries[0])
    requires ItemsText(sep + rest + behind, dict, entries[1..])
    ensures ItemsText(before + (first + ("," + sep + rest)) + behind, dict, entries)
  {
    SplitAtComma(before, first, sep, rest, behind, before + (first + ("," + sep + rest)) + behind);
  }

  lemma SplitAtComma(before: string, first: string, sep: string, rest: string, behind: string, s: string)
    requires s == before + (first + ("," + sep + rest)) + behind
    ensures var c := |before + first|;
      c < |s| && s[c] == ',' && s[..c] == before + first + "" && s[c + 1..] == sep + rest + behind
  {
    assert s == (before + first) + ("," + (sep + rest + behind));
  }

  lemma {:induction false} EntryIsJson(
      dict: bool, e: Entry, readable: bool, depth: nat, before: string, behind: string)
    requires ExpressibleEntry(dict, e) && Ws(before) && Ws(behind)
    ensures MemberText(before + EntryText(dict, e, readable, depth) + behind, dict, e)
    decreases e, 1
  {
    var text := Text(e.value, readable, depth);
    WriterIsJson(e.value, readable, depth);
    if dict {
      var gap := if readable then " " else "";
      KeyText(e.key, readable, gap);
      KeyMade(before, e.key, "\"" + e.key + "\"");
      ElementMade(gap, text, behind, e.value);
      MemberMade(e, before, "\"" + e.key + "\"", gap, text, behind);
    } else {
      assert "" + text == text;
      ElementMade(before, text, behind, e.value);
    }
  }

  lemma KeyText(key: string, readable: bool, gap: string)
    requires gap == if readable then " " else ""
    ensures Lead(true, key, readable) == ("\"" + key + "\"") + (":" + gap)
  {
  }

  lemma KeyMade(before: string, key: string, quoted: string)
    requires Ws(before) && StringText(key) && quoted == "\"" + key + "\""
    ensures QuotedText(before + quoted + "", key)
  {
    PaddedBy(before, quoted, "");
  }

  lemma ElementMade(before: string, text: string, behind: string, j: Json)
    requires Ws(before) && Ws(behind) && Denotes(text, j)
    ensures ElementText(before + text + behind, j)
  {
    PaddedBy(before, text, behind);
  }

  lemma MemberMade(e: Entry, before: string, quoted: string, gap: string, text: string, behind: string)
    requires QuotedText(before + quoted + "", e.key) && ElementText(gap + text + behind, e.value)
    ensures MemberText(before + ((quoted + (":" + gap)) + text) + behind, true, e)
  {
    var s := before + ((quoted + (":" + gap)) + text) + behind;
    SplitAtColon(before, quoted, gap, text, behind, s);
    MemberAt(s, |before + quoted|, before + quoted + "", gap + text + behind, e);
  }

  lemma MemberAt(s: string, c: nat, key: string, value: string, e: Entry)
    requires c < |s| && s[c] == ':' && s[..c] == key && s[c + 1..] == value
    requires QuotedText(key, e.key) && ElementText(value, e.value)
    ensures MemberText(s, true, e)
  {
  }

  lemma SplitAtColon(before: string, quoted: string, gap: string, text: string, behind: string, s: string)
    requires s == before + ((quoted + (":" + gap)) + text) + behind
    ensures var c := |before + quoted|;
      c < |s| && s[c] == ':' && s[..c] == before + quoted + "" && s[c + 1..] == gap + text + behind
  {
    assert s == (before + quoted) + (":" + (gap + text + behind));
  }

  // The mark left for a binary is no JSON text of any tree whose real values are numerals.
  lemma BinaryIsNoJson(data: string, j: Json, readable: bool, depth: nat)
    requires j.Real? ==> j.text != "" && (j.text[0] == '-' || '0' <= j.text[0] <= '9')
    ensures Text(Binary(data), readable, depth) == "binary" && !Denotes("binary", j)
  {
    var s := "binary";
    assert s[0] == 'b' && s[|s| - 1] == 'y';
  }
}
