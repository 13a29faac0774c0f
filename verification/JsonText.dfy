/**
 The documents of the JSON writer and their serialization: compact, or readable with one
 entry a line, indented by four spaces a level.
 */
module JsonText {
  import opened Bytes

  datatype Json =
    | Num(i: int)
    | Uns(u: nat)
    | Real(text: string)
    | Flag(b: bool)
    | Null
    | Binary(data: string)
    | Str(s: string)
    | Node(dict: bool, entries: seq<Entry>)

  // A dictionary's member; in an array the key is not used.
  datatype Entry = Entry(key: string, value: Json)

  function Digits(n: nat): (r: string)
    ensures |r| > 0 && forall i :: 0 <= i < |r| ==> '0' <= r[i] <= '9'
  {
    var last := ["0123456789"[n % 10]];
    if n < 10 then last else Digits(n / 10) + last
  }

  function Decimal(i: int): string {
    if i < 0 then "-" + Digits(-i) else Digits(i)
  }

  // A value that is not a container. An unsigned one goes through a signed conversion,
  // a binary one leaves a mark only, and a real one is the numeral `text`.
  function Scalar(j: Json): string
    requires !j.Node?
  {
    match j
    case Num(i) => Decimal(i)
    case Uns(u) => Decimal(ToSigned(Pattern(u, 8), 8))
    case Real(text) => text
    case Flag(b) => if b then "true" else "false"
    case Null => "null"
    case Binary(_) => "binary"
    case Str(s) => "\"" + s + "\""
  }

  // An unsigned value prints as itself exactly below 2^63; above, it prints negative.
  lemma UnsignedExactly(u: nat)
    requires u < Range(8)
    ensures Scalar(Uns(u)) == Decimal(u) <==> 2 * u < Range(8)
  {
    var r := Range(8);
    ModUnique(u, r, 0, u);
    var printed := ToSigned(Pattern(u, 8), 8);
    DecimalSign(printed);
    DecimalSign(u);
  }

  lemma DecimalSign(i: int)
    ensures Decimal(i)[0] == '-' <==> i < 0
  {
  }

  function Spaces(n: nat): (r: string)
    ensures |r| == n && forall i :: 0 <= i < |r| ==> r[i] == ' '
  {
    seq(n, i => ' ')
  }

  // What stands between a comma or bracket and the next entry at `depth`.
  function Sep(readable: bool, depth: nat): (r: string)
    ensures |r| == if readable then 1 + 4 * depth else 0
    ensures forall i :: 0 <= i < |r| ==> r[i] == ' ' || r[i] == '\n'
  {
    if readable then "\n" + Spaces(4 * depth) else ""
  }

  function Open(dict: bool): string { if dict then "{" else "[" }

  function Close(dict: bool): string { if dict then "}" else "]" }

  function Colon(readable: bool): string { if readable then "\": " else "\":" }

  function Lead(dict: bool, key: string, readable: bool): string {
    if dict then "\"" + key + Colon(readable) else ""
  }

  function Text(j: Json, readable: bool, depth: nat): (r: string)
    decreases j
  {
    if j.Node? then
      Open(j.dict) + Inner(j.dict, j.entries, readable, depth + 1) + (Sep(readable, depth) + Close(j.dict))
    else Scalar(j)
  }

  function Inner(dict: bool, entries: seq<Entry>, readable: bool, depth: nat): string
    decreases entries, 1
  {
    if entries == [] then "" else Sep(readable, depth) + Join(dict, entries, readable, depth)
  }

  function Join(dict: bool, entries: seq<Entry>, readable: bool, depth: nat): string
    requires entries != []
    decreases entries, 0
  {
    var first := EntryText(dict, entries[0], readable, depth);
    if |entries| == 1 then first
    else first + ("," + Sep(readable, depth) + Join(dict, entries[1..], readable, depth))
  }

  function EntryText(dict: bool, e: Entry, readable: bool, depth: nat): string
    decreases e
  {
    Lead(dict, e.key, readable) + Text(e.value, readable, depth)
  }

  lemma JoinText(dict: bool, entries: seq<Entry>, readable: bool, depth: nat)
    requires |entries| > 1
    ensures Join(dict, entries, readable, depth)
         == EntryText(dict, entries[0], readable, depth)
            + ("," + Sep(readable, depth) + Join(dict, entries[1..], readable, depth))
  {
  }

  // --- The readable layout

  function Blanks(n: nat): string { seq(n, i => ' ') }

  // Each entry on a line of its own, four blanks a level; a comma behind all but the last.
  function Lines(dict: bool, entries: seq<Entry>, depth: nat): string
    decreases entries
  {
    if entries == [] then ""
    else
      "\n" + Blanks(4 * depth)
      + (if dict then "\"" + entries[0].key + "\": " else "") + Text(entries[0].value, true, depth)
      + (if |entries| > 1 then "," else "")
      + Lines(dict, entries[1..], depth)
  }

  // A readable container is its opening bracket, its entries' lines one level deeper, and a line with
  // its closing bracket.
  lemma ReadableLayout(dict: bool, entries: seq<Entry>, depth: nat)
    ensures Text(Node(dict, entries), true, depth)
         == (if dict then "{" else "[") + Lines(dict, entries, depth + 1)
            + ("\n" + Blanks(4 * depth) + if dict then "}" else "]")
  {
    if entries != [] { InnerIsLines(dict, entries, depth + 1); }
  }

  lemma {:induction false} InnerIsLines(dict: bool, entries: seq<Entry>, depth: nat)
    requires entries != []
    ensures Sep(true, depth) + Join(dict, entries, true, depth) == Lines(dict, entries, depth)
    decreases entries
  {
    assert Sep(true, depth) == "\n" + Blanks(4 * depth);
    var lead := if dict then "\"" + entries[0].key + "\": " else "";
    assert Lead(dict, entries[0].key, true) == lead;
    if |entries| == 1 {
      assert Lines(dict, entries[1..], depth) == "";
      LastLine(Sep(true, depth), lead, Text(entries[0].value, true, depth));
    } else {
      InnerIsLines(dict, entries[1..], depth);
      JoinText(dict, entries, true, depth);
      OneLine(Sep(true, depth), lead, Text(entries[0].value, true, depth), Join(dict, entries[1..], true, depth));
    }
  }

  lemma LastLine(sep: string, lead: string, text: string)
    ensures sep + (lead + text) == sep + lead + text + "" + ""
  {
  }

  lemma OneLine(sep: string, lead: string, text: string, rest: string)
    ensures sep + ((lead + text) + ("," + sep + rest)) == sep + lead + text + "," + (sep + rest)
  {
  }

  predicate White(c: char) { c == ' ' || c == '\n' || c == '\t' || c == '\r' }

  // The characters of a numeral or a literal name.
  predicate WordChar(c: char) {
    ' ' < c <= '~' && c != '"' && c != ':' && c != ',' && c != ']' && c != '}' && c != '{' && c != '['
  }

  predicate WordText(s: string) { s != "" && forall i :: 0 <= i < |s| ==> WordChar(s[i]) }

  lemma ScalarIsWord(j: Json)
    requires !j.Node? && !j.Str? && (j.Real? ==> WordText(j.text))
    ensures WordText(Scalar(j))
  {
  }

  lemma Assoc<T>(a: seq<T>, b: seq<T>, c: seq<T>)
    ensures a + b + c == a + (b + c)
  {
  }
}
