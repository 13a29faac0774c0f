/**
 The lookup layer over the tokenizer: it owns a copy of the text and the parsed tokens, and
 its counting and searching loops are proved to compute the lookup functions.
 */
module JsmnInterface {
  import opened Jsmn
  import opened JsmnLookup
  import opened Wrappers
  import opened JsmnPaths
  import JsmnRoundTrip
  import JsonText
  import JsmnShape

  lemma SliceOfPrefix(s: string, n: nat, lo: nat, hi: nat)
    requires lo <= hi <= n <= |s|
    ensures s[..n][lo..hi] == s[lo..hi]
  {
  }

  class Interface {
    // The text with a NUL behind it.
    var js: array<char>
    var parser: Parser

    ghost predicate Valid()
      reads this, js, parser, parser.tokens
    {
      js.Length > 0 && parser.Valid()
      && forall i :: 0 <= i < parser.toknext ==> 0 <= parser.tokens[i].start <= parser.tokens[i].end < js.Length
    }

    ghost function Text(): string
      reads this, js
      requires js.Length > 0
    {
      js[..js.Length - 1]
    }

    ghost function Toks(): seq<Token>
      reads this, parser, parser.tokens
      requires parser.Valid()
    {
      parser.tokens[..parser.toknext]
    }

    constructor ()
      ensures fresh(js) && fresh(parser) && fresh(parser.tokens)
    {
      js := new char[1];
      parser := new Parser();
    }

    // JsmnInterface_parse
    method Parse(text: string) returns (ok: bool)
      modifies this
      ensures ok == (Run(text, Initial).1 >= 0)
      ensures parser.Valid() && js.Length == |text| + 1 && Text() == text && Toks() == Run(text, Initial).0.toks
      ensures ok ==> Valid()
    {
      js := new char[|text| + 1];
      forall i | 0 <= i < |text| {
        js[i] := text[i];
      }
      js[|text|] := '\0';
      assert js[..|text|] == text;
      parser := new Parser();
      var r := parser.Parse(js[..|text|]);
      ok := r >= 0;
      JsmnShape.ParseIsSafe(text);
      assert forall i :: 0 <= i < parser.toknext ==> parser.tokens[i] == Toks()[i];
    }

    // The whole array; of a parsed dump it holds the tree that was dumped.
    method GetRoot() returns (r: Range)
      requires Valid()
      ensures r == Range(0, |Toks()|)
      ensures forall j, readable ::
        JsmnRoundTrip.Legible(j) && Text() == JsonText.Text(j, readable, 0) && Toks() == Run(Text(), Initial).0.toks
        ==> Reaches(Text(), Toks(), r, j, readable)
    {
      r := Range(0, parser.toknext);
      forall j, readable | JsmnRoundTrip.Legible(j) && Text() == JsonText.Text(j, readable, 0)
        && Toks() == Run(Text(), Initial).0.toks
        ensures Reaches(Text(), Toks(), r, j, readable)
      {
        ParsedRoot(Text(), j, readable);
      }
    }

    method SearchRange(index: nat) returns (r: Range)
      requires Valid() && index < |Toks()|
      ensures r == RangeOf(Toks(), index)
    {
      var parent := parser.tokens[index].parent;
      var i := 1;
      while i < parser.toknext - index && parser.tokens[index + i].parent > parent
        invariant 1 <= i <= parser.toknext - index
        invariant RangeEnd(Toks(), parent, index + 1) == RangeEnd(Toks(), parent, index + i)
      {
        i := i + 1;
      }
      r := Range(index, i);
    }

    // A token's characters.
    method Copy(i: nat) returns (s: string)
      requires Valid() && i < |Toks()|
      ensures s == TokenText(Text(), Toks()[i])
    {
      var t := parser.tokens[i];
      s := js[t.start..t.end];
      SliceOfPrefix(js[..], js.Length - 1, t.start, t.end);
      assert s == js[..][t.start..t.end] && Text() == js[..][..js.Length - 1];
    }

    // arrayCount and dictionaryCount
    method Count(token: Range, kind: Kind) returns (ok: bool, n: nat)
      requires Valid() && InArray(Toks(), token)
      ensures ok == (Toks()[token.start].kind == kind)
      ensures n == if ok then |ChildrenOf(Toks(), token)| else 0
      ensures forall j, readable | Reaches(Text(), Toks(), token, j, readable) && j.Node? ::
        ok == (kind == if j.dict then Object else Array) && (ok ==> n == |j.entries|)
    {
      n := 0;
      ok := parser.tokens[token.start].kind == kind;
      if ok {
        for i := 0 to token.count
          invariant n + |Children(Toks(), token.start, token.start + i, token.start + token.count)|
                 == |ChildrenOf(Toks(), token)|
        {
          if parser.tokens[token.start + i].parent == token.start {
            n := n + 1;
          }
        }
      }
      forall j, readable | Reaches(Text(), Toks(), token, j, readable) && j.Node?
        ensures ok == (kind == if j.dict then Object else Array) && (ok ==> n == |j.entries|)
      {
        CountIs(Text(), Toks(), token, j, readable);
      }
    }

    // The token of the child with a given index.
    method NthChild(token: Range, index: nat) returns (found: bool, at: nat)
      requires Valid() && InArray(Toks(), token)
      ensures found == (index < |ChildrenOf(Toks(), token)|)
      ensures found ==> at == ChildrenOf(Toks(), token)[index] && at < |Toks()|
    {
      var count := 0;
      ghost var toks, end := Toks(), token.start + token.count;
      ghost var kids := ChildrenOf(toks, token);
      for i := 0 to token.count
        invariant count <= index && count <= |kids|
        invariant kids[count..] == Children(toks, token.start, token.start + i, end)
      {
        var k := token.start + i;
        ghost var rest := Children(toks, token.start, k + 1, end);
        assert token.start + (i + 1) == k + 1;
        if parser.tokens[k].parent == token.start {
          assert kids[count..] == [k] + rest;
          assert kids[count] == kids[count..][0] && kids[count + 1..] == kids[count..][1..];
          if count == index {
            return true, k;
          }
          count := count + 1;
        } else {
          assert kids[count..] == rest;
        }
      }
      return false, 0;
    }

    method GetArray(token: Range, index: nat) returns (found: bool, result: Range)
      requires Valid() && InArray(Toks(), token)
      ensures match ArrayItem(Toks(), token, index)
              case None => !found && result == Range(0, 0)
              case Some(r) => found && result == r
      ensures forall j, readable | Reaches(Text(), Toks(), token, j, readable) ::
        (found <==> j.Node? && !j.dict && index < |j.entries|)
        && (found ==> Reaches(Text(), Toks(), result, j.entries[index].value, readable))
    {
      found, result := false, Range(0, 0);
      if parser.tokens[token.start].kind == Array {
        var at;
        found, at := NthChild(token, index);
        if found {
          result := SearchRange(at);
        }
      }
      forall j, readable | Reaches(Text(), Toks(), token, j, readable)
        ensures (found <==> j.Node? && !j.dict && index < |j.entries|)
        ensures found ==> Reaches(Text(), Toks(), result, j.entries[index].value, readable)
      {
        StepIsChild(Text(), Toks(), token, j, readable, Item(index));
      }
    }

    // The key is copied out with the value's range.
    method GetDictionaryAtIndex(token: Range, index: nat) returns (found: bool, key: string, result: Range)
      requires Valid() && InArray(Toks(), token) && KeysLead(Toks(), token)
      ensures match DictAt(Toks(), token, index)
              case None => !found && result == Range(0, 0)
              case Some(p) => found && Spells(Text(), Toks()[p.0], key) && result == p.1
      ensures forall j, readable | Reaches(Text(), Toks(), token, j, readable) && j.Node? && j.dict ::
        (found <==> index < |j.entries|)
        && (found ==> key == j.entries[index].key
                      && Reaches(Text(), Toks(), result, j.entries[index].value, readable))
    {
      found, key, result := KeyAndRange(token, index);
      forall j, readable | Reaches(Text(), Toks(), token, j, readable) && j.Node? && j.dict
        ensures found <==> index < |j.entries|
        ensures found ==> key == j.entries[index].key
        ensures found ==> Reaches(Text(), Toks(), result, j.entries[index].value, readable)
      {
        DictAtIs(Text(), Toks(), token, j, readable, index);
      }
    }

    method KeyAndRange(token: Range, index: nat) returns (found: bool, key: string, result: Range)
      requires Valid() && InArray(Toks(), token) && KeysLead(Toks(), token)
      ensures match DictAt(Toks(), token, index)
              case None => !found && result == Range(0, 0)
              case Some(p) => found && Spells(Text(), Toks()[p.0], key) && result == p.1
    {
      found, key, result := false, "", Range(0, 0);
      if parser.tokens[token.start].kind == Object {
        var at;
        found, at := NthChild(token, index);
        if found {
          key := Copy(at);
          result := SearchRange(at + 1);
        }
      }
    }

    method GetDictionary(token: Range, key: string) returns (found: bool, result: Range)
      requires Valid() && InArray(Toks(), token) && KeysLead(Toks(), token)
      ensures match DictMember(Text(), Toks(), token, key)
              case None => !found && result == Range(0, 0)
              case Some(r) => found && result == r
      ensures forall j, readable | Reaches(Text(), Toks(), token, j, readable) ::
        (found <==> j.Node? && j.dict && IndexOf(j.entries, key).Some?)
        && (found ==> Reaches(Text(), Toks(), result, j.entries[IndexOf(j.entries, key).value].value, readable))
    {
      found, result := false, Range(0, 0);
      if parser.tokens[token.start].kind == Object {
        var at;
        found, at := KeyToken(token, key);
        MemberBySearch(Text(), Toks(), token, key);
        if found {
          result := SearchRange(at + 1);
        }
      }
      forall j, readable | Reaches(Text(), Toks(), token, j, readable)
        ensures found <==> j.Node? && j.dict && IndexOf(j.entries, key).Some?
        ensures found ==> Reaches(Text(), Toks(), result, j.entries[IndexOf(j.entries, key).value].value, readable)
      {
        StepIsChild(Text(), Toks(), token, j, readable, Member(key));
      }
    }

    method Matches(i: nat, key: string) returns (same: bool)
      requires Valid() && i < |Toks()|
      ensures same == Spells(Text(), Toks()[i], key)
    {
      var text := Copy(i);
      same := |key| == |text| && text == key;
    }

    // The first child that spells `key`.
    method KeyToken(token: Range, key: string) returns (found: bool, at: nat)
      requires Valid() && InArray(Toks(), token)
      ensures match FirstSpelled(Text(), Toks(), token.start, token.start, token.start + token.count, key)
              case None => !found
              case Some(c) => found && at == c
    {
      ghost var text, toks, end := Text(), Toks(), token.start + token.count;
      for i := 0 to token.count
        invariant FirstSpelled(text, toks, token.start, token.start, end, key)
               == FirstSpelled(text, toks, token.start, token.start + i, end, key)
      {
        var k := token.start + i;
        if parser.tokens[k].parent == token.start {
          var same := Matches(k, key);
          if same {
            return true, k;
          }
        }
        assert token.start + (i + 1) == k + 1;
      }
      return false, 0;
    }

    // A NUL is put behind the numeral while it is read, then taken back. A written integer reads as itself.
    method ParseAsLong(token: Range) returns (ok: bool, value: int)
      requires Valid() && InArray(Toks(), token)
      modifies js
      ensures js[..] == old(js[..])
      ensures ok == (token.count == 1 && Toks()[token.start].kind == Int)
      ensures ok ==> value == ReadDecimal(TokenText(Text(), Toks()[token.start]))
      ensures forall j, readable | Reaches(Text(), Toks(), token, j, readable) && j.Num? :: ok && value == j.i
    {
      ok, value := false, 0;
      var t := parser.tokens[token.start];
      if token.count == 1 && t.kind == Int {
        ghost var was := js[..];
        var c := js[t.end];
        js[t.end] := '\0';
        SliceOfPrefix(was, js.Length - 1, t.start, t.end);
        assert js[t.start..t.end] == was[t.start..t.end];
        value := ReadDecimal(js[t.start..t.end]);
        js[t.end] := c;
        assert js[..] == was;
        ok := true;
      }
      forall j, readable | Reaches(Text(), Toks(), token, j, readable) && j.Num? ensures ok && value == j.i {
        ScalarReads(Text(), Toks(), token, j, readable);
      }
    }

    // Succeeds on exactly the written booleans, with their value.
    method ParseAsBoolean(token: Range) returns (ok: bool, value: bool)
      requires Valid() && InArray(Toks(), token)
      ensures ok == (token.count == 1 && (Toks()[token.start].kind == True || Toks()[token.start].kind == False))
      ensures ok ==> value == (Toks()[token.start].kind == True)
      ensures forall j, readable | Reaches(Text(), Toks(), token, j, readable) ::
        (ok <==> j.Flag?) && (ok ==> value == j.b)
    {
      ok, value := false, false;
      if token.count == 1 {
        if parser.tokens[token.start].kind == True {
          ok, value := true, true;
        } else if parser.tokens[token.start].kind == False {
          ok := true;
        }
      }
      forall j, readable | Reaches(Text(), Toks(), token, j, readable)
        ensures (ok <==> j.Flag?) && (ok ==> value == j.b)
      {
        BooleanReads(Text(), Toks(), token, j, readable);
      }
    }

    // Where a string's characters start, and how many there are; a written string's are its own.
    method GetStringRaw(token: Range) returns (ok: bool, start: nat, len: nat)
      requires Valid() && InArray(Toks(), token)
      ensures ok == (token.count == 1 && Toks()[token.start].kind == String)
      ensures ok ==> start + len < js.Length && Text()[start..start + len] == TokenText(Text(), Toks()[token.start])
      ensures forall j, readable | Reaches(Text(), Toks(), token, j, readable) && j.Str? ::
        ok && Text()[start..start + len] == j.s
    {
      ok, start, len := false, 0, 0;
      var t := parser.tokens[token.start];
      if token.count == 1 && t.kind == String {
        ok, start, len := true, t.start, t.end - t.start;
      }
      forall j, readable | Reaches(Text(), Toks(), token, j, readable) && j.Str?
        ensures ok && Text()[start..start + len] == j.s
      {
        ScalarReads(Text(), Toks(), token, j, readable);
      }
    }
  }
}
