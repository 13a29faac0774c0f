/**
 The readable form differs from the compact one in white space outside strings only. A
 backslash in a string takes the next character with it, so that a quote behind one does
 not end the string.
 */
module JsonForms {
  import opened JsonText
  import opened Jsmn
  import JsmnRoundTrip

  // Where in the text a character stands.
  datatype Mode = Outside | Inside | Quoting

  function Shift(c: char, mode: Mode): Mode {
    match mode
    case Outside => if c == '"' then Inside else Outside
    case Inside => if c == '"' then Outside else if c == '\\' then Quoting else Inside
    case Quoting => Inside
  }

  function Kept(c: char, mode: Mode): string { if mode == Outside && White(c) then "" else [c] }

  // Deleting white space outside strings.
  function Strip(s: string, mode: Mode): string {
    if s == "" then "" else Kept(s[0], mode) + Strip(s[1..], Shift(s[0], mode))
  }

  function End(s: string, mode: Mode): Mode {
    if s == "" then mode else End(s[1..], Shift(s[0], mode))
  }

  // `s` opens and closes its strings and strips to `bare`.
  predicate Strips(s: string, bare: string) {
    Strip(s, Outside) == bare && End(s, Outside) == Outside
  }

  lemma {:induction false} StripConcat(a: string, b: string, mode: Mode)
    ensures Strip(a + b, mode) == Strip(a, mode) + Strip(b, End(a, mode))
    ensures End(a + b, mode) == End(b, End(a, mode))
  {
    if a == "" {
      assert a + b == b;
    } else {
      var m := Shift(a[0], mode);
      assert (a + b)[1..] == a[1..] + b;
      StripConcat(a[1..], b, m);
      Assoc(Kept(a[0], mode), Strip(a[1..], m), Strip(b, End(a[1..], m)));
    }
  }

  lemma StripsConcat(a: string, bareA: string, b: string, bareB: string)
    requires Strips(a, bareA) && Strips(b, bareB)
    ensures Strips(a + b, bareA + bareB)
  {
    StripConcat(a, b, Outside);
  }

  lemma {:induction false} StripsWhite(s: string)
    requires forall i :: 0 <= i < |s| ==> White(s[i])
    ensures Strips(s, "")
  {
    if s != "" { StripsWhite(s[1..]); }
  }

  // Neither quotes nor white space.
  lemma {:induction false} StripsWord(s: string)
    requires forall i :: 0 <= i < |s| ==> s[i] != '"' && !White(s[i])
    ensures Strips(s, s)
  {
    if s != "" { StripsWord(s[1..]); }
  }

  // Every quote in it stands behind a backslash, and so does no end.
  predicate Enclosed(s: string)
    decreases |s|
  {
    if s == "" then true
    else if s[0] == '"' then false
    else if s[0] == '\\' then |s| >= 2 && Enclosed(s[2..])
    else Enclosed(s[1..])
  }

  lemma {:induction false} EnclosedStays(s: string)
    requires Enclosed(s)
    ensures Strip(s, Inside) == s && End(s, Inside) == Inside
    decreases |s|
  {
    if s != "" {
      if s[0] == '\\' {
        EnclosedStays(s[2..]);
        StripPair(s);
      } else {
        EnclosedStays(s[1..]);
      }
    }
  }

  lemma StripPair(s: string)
    requires |s| >= 2 && s[0] == '\\'
    ensures Strip(s, Inside) == s[..2] + Strip(s[2..], Inside) && End(s, Inside) == End(s[2..], Inside)
  {
    assert s[1..][1..] == s[2..] && s[1..][0] == s[1];
    assert Strip(s, Inside) == [s[0]] + Strip(s[1..], Quoting);
    assert Strip(s[1..], Quoting) == [s[1]] + Strip(s[2..], Inside);
    assert s[..2] == [s[0]] + [s[1]];
    Assoc([s[0]], [s[1]], Strip(s[2..], Inside));
  }

  lemma StripsQuoted(s: string)
    requires Enclosed(s)
    ensures Strips("\"" + s + "\"", "\"" + s + "\"")
  {
    EnclosedStays(s);
    StripConcat(s, "\"", Inside);
    StripConcat("\"", s + "\"", Outside);
    assert "\"" + s + "\"" == "\"" + (s + "\"");
  }

  // Trees whose strings and keys are enclosed and whose real values are words.
  predicate Tidy(j: Json)
    decreases j
  {
    match j
    case Real(text) => WordText(text)
    case Str(s) => Enclosed(s)
    case Node(dict, entries) => TidyEntries(dict, entries)
    case _ => true
  }

  predicate TidyEntries(dict: bool, entries: seq<Entry>)
    decreases entries
  {
    entries == []
    || ((dict ==> Enclosed(entries[0].key)) && Tidy(entries[0].value) && TidyEntries(dict, entries[1..]))
  }

  lemma {:induction false} EscapedIsEnclosed(s: string)
    requires JsmnRoundTrip.Escaped(s)
    ensures Enclosed(s)
    decreases |s|
  {
    if s != "" {
      if s[0] != '\\' {
        EscapedIsEnclosed(s[1..]);
      } else if s[1] in JsmnRoundTrip.SHORT_ESCAPES && JsmnRoundTrip.Escaped(s[2..]) {
        EscapedIsEnclosed(s[2..]);
      } else {
        EscapedIsEnclosed(s[6..]);
        forall i | 2 <= i < 6 ensures IsHex(s[i]) {
          assert s[2..6][i - 2] == s[i];
          JsmnRoundTrip.EscapesExactly(s[i]);
        }
        HexIsEnclosed(s[2..]);
      }
    }
  }

  // Four digits do not matter.
  lemma HexIsEnclosed(s: string)
    requires |s| >= 4 && IsHex(s[0]) && IsHex(s[1]) && IsHex(s[2]) && IsHex(s[3])
    ensures Enclosed(s) <==> Enclosed(s[4..])
  {
    assert s[1..][1..] == s[2..] && s[2..][1..] == s[3..] && s[3..][1..] == s[4..];
    assert Enclosed(s) <==> Enclosed(s[1..]);
    assert Enclosed(s[1..]) <==> Enclosed(s[2..]);
    assert Enclosed(s[2..]) <==> Enclosed(s[3..]);
  }

  // Every tree the tokenizer reads back is among these.
  lemma {:induction false} LegibleIsTidy(j: Json)
    requires JsmnRoundTrip.Legible(j)
    ensures Tidy(j)
    decreases j
  {
    match j
    case Str(s) => EscapedIsEnclosed(s);
    case Node(dict, entries) => LegibleEntriesAreTidy(dict, entries);
    case _ =>
  }

  lemma {:induction false} LegibleEntriesAreTidy(dict: bool, entries: seq<Entry>)
    requires JsmnRoundTrip.LegibleEntries(dict, entries)
    ensures TidyEntries(dict, entries)
    decreases entries
  {
    if entries != [] {
      if dict { EscapedIsEnclosed(entries[0].key); }
      LegibleIsTidy(entries[0].value);
      LegibleEntriesAreTidy(dict, entries[1..]);
    }
  }

  lemma LeadText(key: string, readable: bool, gap: string)
    requires gap == if readable then " " else ""
    ensures Lead(true, key, readable) == ("\"" + key + "\"") + (":" + gap)
  {
    assert Colon(readable) == "\"" + (":" + gap);
  }

  lemma LeadStrips(dict: bool, key: string, readable: bool)
    requires dict ==> Enclosed(key)
    ensures Strips(Lead(dict, key, readable), Lead(dict, key, false))
  {
    if dict {
      var quoted, gap := "\"" + key + "\"", if readable then " " else "";
      StripsQuoted(key);
      StripsWord(":");
      StripsWhite(gap);
      StripsConcat(":", ":", gap, "");
      StripsConcat(quoted, quoted, ":" + gap, ":" + "");
      LeadText(key, readable, gap);
      LeadText(key, false, "");
    }
  }

  // With white space outside strings deleted, either form at any depth is the compact one.
  lemma {:induction false} FormsAgree(j: Json, readable: bool, depth: nat)
    requires Tidy(j)
    ensures Strips(Text(j, readable, depth), Text(j, false, 0))
    decreases j
  {
    if j.Node? {
      InnerAgrees(j.dict, j.entries, readable, depth + 1);
      Bracketed(j.dict, Inner(j.dict, j.entries, readable, depth + 1), Inner(j.dict, j.entries, false, 1),
        readable, depth);
    } else if j.Str? {
      StripsQuoted(j.s);
    } else {
      ScalarIsWord(j);
      StripsWord(Scalar(j));
    }
  }

  lemma Bracketed(dict: bool, inner: string, bare: string, readable: bool, depth: nat)
    requires Strips(inner, bare)
    ensures Strips(
      Open(dict) + inner + (Sep(readable, depth) + Close(dict)),
      Open(dict) + bare + (Sep(false, 0) + Close(dict)))
  {
    StripsWhite(Sep(readable, depth));
    StripsWord(Close(dict));
    StripsWord(Open(dict));
    StripsConcat(Sep(readable, depth), "", Close(dict), Close(dict));
    StripsConcat(Open(dict), Open(dict), inner, bare);
    StripsConcat(Open(dict) + inner, Open(dict) + bare, Sep(readable, depth) + Close(dict), "" + Close(dict));
  }

  lemma {:induction false} InnerAgrees(dict: bool, entries: seq<Entry>, readable: bool, depth: nat)
    requires TidyEntries(dict, entries)
    ensures Strips(Inner(dict, entries, readable, depth), Inner(dict, entries, false, 1))
    decreases entries, 1
  {
    if entries != [] {
      JoinAgrees(dict, entries, readable, depth);
      StripsWhite(Sep(readable, depth));
      StripsConcat(Sep(readable, depth), "", Join(dict, entries, readable, depth), Join(dict, entries, false, 1));
    }
  }

  lemma {:induction false} JoinAgrees(dict: bool, entries: seq<Entry>, readable: bool, depth: nat)
    requires entries != [] && TidyEntries(dict, entries)
    ensures Strips(Join(dict, entries, readable, depth), Join(dict, entries, false, 1))
    decreases entries, 0
  {
    var e := entries[0];
    LeadStrips(dict, e.key, readable);
    FormsAgree(e.value, readable, depth);
    FormsAgree(e.value, false, 1);
    assert Text(e.value, false, 1) == Text(e.value, false, 0) by { CompactFlat(e.value, 1); }
    var first, bare := EntryText(dict, e, readable, depth), EntryText(dict, e, false, 1);
    StripsConcat(
      Lead(dict, e.key, readable), Lead(dict, e.key, false), Text(e.value, readable, depth), Text(e.value, false, 1));
    if |entries| > 1 {
      JoinAgrees(dict, entries[1..], readable, depth);
      var rest, bareRest := Join(dict, entries[1..], readable, depth), Join(dict, entries[1..], false, 1);
      StripsWhite(Sep(readable, depth));
      StripsWord(",");
      StripsConcat(",", ",", Sep(readable, depth), "");
      StripsConcat("," + Sep(readable, depth), "," + "", rest, bareRest);
      StripsConcat(first, bare, "," + Sep(readable, depth) + rest, "," + "" + bareRest);
    }
  }

  // The compact form does not depend on the depth.
  lemma {:induction false} CompactFlat(j: Json, depth: nat)
    ensures Text(j, false, depth) == Text(j, false, 0)
    decreases j
  {
    if j.Node? && j.entries != [] { JoinFlat(j.dict, j.entries, depth + 1); }
  }

  lemma {:induction false} JoinFlat(dict: bool, entries: seq<Entry>, depth: nat)
    requires entries != []
    ensures Join(dict, entries, false, depth) == Join(dict, entries, false, 1)
    decreases entries
  {
    CompactFlat(entries[0].value, depth);
    CompactFlat(entries[0].value, 1);
    if |entries| > 1 { JoinFlat(dict, entries[1..], depth); }
  }

  // A bare quote leaves the strip inside a string that is over, and the forms apart.
  lemma BareQuoteDisagrees()
    ensures var j := Node(false, [Entry("", Str("\"")), Entry("", Num(1))]);
      Strip(Text(j, true, 0), Outside) != Text(j, false, 0)
  {
    var j := Node(false, [Entry("", Str("\"")), Entry("", Num(1))]);
    BareTexts(j, true);
    BareTexts(j, false);
    StripOpened(Sep(true, 1), BareRest(true));
    assert |BareRest(true)| == 9 && |BareRest(false)| == 3;
  }

  // What follows the bare string.
  function BareRest(readable: bool): string {
    "," + Sep(readable, 1) + "1" + Sep(readable, 0) + "]"
  }

  lemma StripOpened(gap: string, rest: string)
    requires forall i :: 0 <= i < |gap| ==> White(gap[i])
    requires forall i :: 0 <= i < |rest| ==> rest[i] != '"' && rest[i] != '\\'
    ensures Strip("[" + gap + ("\"\"\"" + rest), Outside) == "[" + "" + ("\"\"\"" + rest)
  {
    StripsWord("[");
    StripsWhite(gap);
    StripsConcat("[", "[", gap, "");
    ThreeQuotes();
    StaysInside(rest);
    StripConcat("\"\"\"", rest, Outside);
    StripConcat("[" + gap, "\"\"\"" + rest, Outside);
  }

  lemma ThreeQuotes()
    ensures Strip("\"\"\"", Outside) == "\"\"\"" && End("\"\"\"", Outside) == Inside
  {
    var q := "\"\"\"";
    assert q[1..] == "\"\"" && q[1..][1..] == "\"" && q[1..][1..][1..] == "";
  }

  lemma {:induction false} StaysInside(s: string)
    requires forall i :: 0 <= i < |s| ==> s[i] != '"' && s[i] != '\\'
    ensures Strip(s, Inside) == s
  {
    if s != "" { StaysInside(s[1..]); }
  }

  lemma BareTexts(j: Json, readable: bool)
    requires j == Node(false, [Entry("", Str("\"")), Entry("", Num(1))])
    ensures Text(j, readable, 0) == "[" + Sep(readable, 1) + ("\"\"\"" + BareRest(readable))
  {
    var rest := j.entries[1..];
    assert rest == [Entry("", Num(1))] && Join(false, rest, readable, 1) == "1" by {
      assert Digits(1) == "1";
    }
    assert EntryText(false, j.entries[0], readable, 1) == "\"\"\"";
    JoinText(false, j.entries, readable, 1);
    BareLaid("[", Sep(readable, 1), "\"\"\"", Sep(readable, 0));
  }

  lemma BareLaid(open: string, gap: string, quoted: string, last: string)
    ensures open + (gap + (quoted + ("," + gap + "1"))) + (last + "]")
         == open + gap + (quoted + ("," + gap + "1" + last + "]"))
  {
  }
}
