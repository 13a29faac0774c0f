/**
 The JSON tokenizer. It walks a text once and fills a flat array of tokens linked by
 parent indices; `Run` is the walk as a function, `Parser` the walk in place.
 */
module Jsmn {

  const TOKEN_BLOCK := 64
  const INVAL := -2
  const PART := -3

  datatype Kind = Undefined | Object | Array | String | Int | Double | False | True | Key

  // `end` is -1 while a container is open, `parent` is -1 at the top.
  datatype Token = Token(kind: Kind, start: int, end: int, size: int, parent: int)

  datatype State = State(pos: nat, toks: seq<Token>, super: int)

  datatype Step = Go(s: State) | Halt(code: int)

  // Where a scan inside the text ends.
  datatype Found = At(pos: nat) | Invalid | Unended

  // The text is followed by a NUL.
  function CharAt(js: string, i: nat): char {
    if i < |js| then js[i] else '\0'
  }

  predicate Done(js: string, i: nat) { CharAt(js, i) == '\0' }

  predicate Linked(toks: seq<Token>) {
    forall i :: 0 <= i < |toks| ==> -1 <= toks[i].parent < i
  }

  predicate Wf(s: State) {
    Linked(s.toks) && -1 <= s.super < |s.toks|
  }

  predicate IsOpen(t: Token) { t.start != -1 && t.end == -1 }

  function Bump(toks: seq<Token>, super: int): (r: seq<Token>)
    requires -1 <= super < |toks|
    ensures |r| == |toks|
  {
    if super == -1 then toks else toks[super := toks[super].(size := toks[super].size + 1)]
  }

  // --- Primitives

  predicate Delimits(c: char) {
    c == ':' || c == '\t' || c == '\r' || c == '\n' || c == ' ' || c == ',' || c == ']' || c == '}'
  }

  predicate Printable(c: char) { ' ' <= c <= '~' }

  function PrimitiveEnd(js: string, i: nat): (r: Found)
    ensures !r.Unended?
    ensures r.At? && i <= |js| ==> i <= r.pos <= |js|
    decreases |js| - i
  {
    if Done(js, i) || Delimits(js[i]) then At(i)
    else if !Printable(js[i]) then Invalid
    else PrimitiveEnd(js, i + 1)
  }

  function PrimitiveKind(js: string, start: nat, end: nat): Kind
    requires start <= end <= |js|
  {
    var c := CharAt(js, start);
    if c == 'f' then
      if CharAt(js, start + 1) == 'a' && CharAt(js, start + 2) == 'l'
         && CharAt(js, start + 3) == 's' && CharAt(js, start + 4) == 'e'
      then False else Undefined
    else if c == 't' then
      if CharAt(js, start + 1) == 'r' && CharAt(js, start + 2) == 'u' && CharAt(js, start + 3) == 'e'
      then True else Undefined
    else if '.' in js[start..end] then Double else Int
  }

  // --- Strings

  predicate IsHex(c: char) { '0' <= c <= '9' || 'A' <= c <= 'F' || 'a' <= c <= 'f' }

  predicate Escapes(c: char) {
    c == '"' || c == '/' || c == '\\' || c == 'b' || c == 'f' || c == 'r' || c == 'n' || c == 't'
  }

  function HexEnd(js: string, i: nat, left: nat): (r: Found)
    ensures !r.Unended?
    ensures r.At? && i <= |js| ==> i <= r.pos <= |js|
    decreases left
  {
    if left == 0 || Done(js, i) then At(i)
    else if !IsHex(js[i]) then Invalid
    else HexEnd(js, i + 1, left - 1)
  }

  // The closing quote of a string whose text is read from `i` on.
  function StringEnd(js: string, i: nat): (r: Found)
    ensures r.At? ==> i <= r.pos < |js| && js[r.pos] == '"'
    decreases |js| - i
  {
    if Done(js, i) then Unended
    else if js[i] == '"' then At(i)
    else if js[i] == '\\' && i + 1 < |js| then
      if Escapes(js[i + 1]) then StringEnd(js, i + 2)
      else if js[i + 1] == 'u' then
        var hex := HexEnd(js, i + 2, 4);
        if hex.At? then StringEnd(js, hex.pos) else Invalid
      else Invalid
    else StringEnd(js, i + 1)
  }

  lemma EscapedEnd(js: string, i: nat)
    requires i + 1 < |js| && js[i] == '\\'
    ensures StringEnd(js, i) ==
      if Escapes(js[i + 1]) then StringEnd(js, i + 2)
      else if js[i + 1] != 'u' then Invalid
      else if HexEnd(js, i + 2, 4).At? then StringEnd(js, HexEnd(js, i + 2, 4).pos)
      else Invalid
  {
  }

  lemma PlainEnd(js: string, i: nat)
    requires !Done(js, i) && js[i] != '"' && (js[i] != '\\' || i + 1 == |js|)
    ensures StringEnd(js, i) == StringEnd(js, i + 1)
  {
  }

  // --- The walk

  // From token `i` up the parent links to one that is open or has no parent.
  function Climb(toks: seq<Token>, i: nat): (r: nat)
    requires Linked(toks) && i < |toks|
    ensures r <= i && (IsOpen(toks[r]) || toks[r].parent == -1)
  {
    if IsOpen(toks[i]) || toks[i].parent == -1 then i else Climb(toks, toks[i].parent)
  }

  function CloseToken(s: State, kind: Kind): (r: Step)
    requires Wf(s)
    ensures r.Go? ==> Wf(r.s) && r.s.pos == s.pos + 1 && |r.s.toks| == |s.toks|
  {
    if s.toks == [] then Halt(INVAL)
    else
      var i := Climb(s.toks, |s.toks| - 1);
      var t := s.toks[i];
      if t.kind != kind then Halt(INVAL)
      else if IsOpen(t) then Go(State(s.pos + 1, s.toks[i := t.(end := s.pos + 1)], t.parent))
      else if s.super == -1 then Halt(INVAL)
      else Go(s.(pos := s.pos + 1))
  }

  function Opened(s: State, kind: Kind): (r: State)
    requires Wf(s)
    ensures Wf(r)
  {
    State(s.pos + 1, Bump(s.toks, s.super) + [Token(kind, s.pos, -1, 0, s.super)], |s.toks|)
  }

  function StringKind(s: State): Kind
    requires Wf(s)
  {
    if s.super >= 0 && s.toks[s.super].kind == Object then Key else String
  }

  function Leaf(s: State, kind: Kind, start: nat, end: nat, next: nat): (r: State)
    requires Wf(s)
    ensures Wf(r)
  {
    State(next, Bump(s.toks, s.super) + [Token(kind, start, end, 0, s.super)], s.super)
  }

  function AfterComma(s: State): (r: int)
    requires Wf(s)
    ensures -1 <= r < |s.toks|
  {
    if s.super != -1 && s.toks[s.super].kind != Array && s.toks[s.super].kind != Object
    then s.toks[s.super].parent
    else s.super
  }

  function Next(js: string, s: State): (r: Step)
    requires Wf(s) && !Done(js, s.pos)
    ensures r.Go? ==> Wf(r.s) && s.pos < r.s.pos <= |js| && |r.s.toks| >= |s.toks|
    ensures r.Halt? ==> r.code == INVAL || r.code == PART
  {
    var c := js[s.pos];
    if c == '{' then Go(Opened(s, Object))
    else if c == '[' then Go(Opened(s, Array))
    else if c == '}' then CloseToken(s, Object)
    else if c == ']' then CloseToken(s, Array)
    else if c == '"' then
      match StringEnd(js, s.pos + 1)
      case At(end) => Go(Leaf(s, StringKind(s), s.pos + 1, end, end + 1))
      case Invalid => Halt(INVAL)
      case Unended => Halt(PART)
    else if c == '\t' || c == '\r' || c == '\n' || c == ' ' then Go(s.(pos := s.pos + 1))
    else if c == ':' then Go(s.(pos := s.pos + 1, super := |s.toks| - 1))
    else if c == ',' then Go(s.(pos := s.pos + 1, super := AfterComma(s)))
    else
      var end := PrimitiveEnd(js, s.pos);
      if end.At? then Go(Leaf(s, PrimitiveKind(js, s.pos, end.pos), s.pos, end.pos, end.pos)) else Halt(INVAL)
  }

  predicate AnyOpen(toks: seq<Token>) { exists i :: 0 <= i < |toks| && IsOpen(toks[i]) }

  // The final state and the returned code: the number of tokens, or an error.
  function Run(js: string, s: State): (r: (State, int))
    requires Wf(s)
    ensures Wf(r.0)
    decreases |js| - s.pos
  {
    if Done(js, s.pos) then (s, if AnyOpen(s.toks) then PART else |s.toks|)
    else
      match Next(js, s)
      case Halt(code) => (s, code)
      case Go(t) => Run(js, t)
  }

  lemma RunStep(js: string, s: State)
    requires Wf(s) && !Done(js, s.pos)
    ensures var n := Next(js, s); Run(js, s) == if n.Go? then Run(js, n.s) else (s, n.code)
  {
  }

  const Initial := State(0, [], -1)

  class Parser {
    var pos: nat
    var toknext: nat
    var toksuper: int
    var tokens: array<Token>

    ghost predicate Valid()
      reads this, tokens
    {
      toknext <= tokens.Length && Wf(Abs())
    }

    ghost function Abs(): State
      reads this, tokens
      requires toknext <= tokens.Length
    {
      State(pos, tokens[..toknext], toksuper)
    }

    constructor ()
      ensures Valid() && Abs() == Initial && fresh(tokens)
    {
      pos, toknext, toksuper := 0, 0, -1;
      tokens := new Token[TOKEN_BLOCK](_ => Token(Undefined, -1, -1, 0, -1));
      new;
      assert tokens[..0] == [];
    }

    method Alloc() returns (i: nat)
      requires Valid()
      modifies this`toknext, this`tokens, tokens
      ensures Valid() && (tokens == old(tokens) || fresh(tokens))
      ensures i == old(toknext) && toknext == i + 1 <= tokens.Length
      ensures tokens[..i] == old(tokens[..toknext]) && tokens[i] == Token(Undefined, -1, -1, 0, -1)
    {
      if toknext >= tokens.Length {
        var grown := new Token[tokens.Length + TOKEN_BLOCK](_ => Token(Undefined, -1, -1, 0, -1));
        forall k | 0 <= k < toknext {
          grown[k] := tokens[k];
        }
        assert grown[..toknext] == tokens[..toknext];
        tokens := grown;
      }
      i := toknext;
      tokens[i] := Token(Undefined, -1, -1, 0, -1);
      toknext := toknext + 1;
      assert tokens[..toknext] == tokens[..i] + [tokens[i]];
    }

    method BumpSuper()
      requires Valid()
      modifies tokens
      ensures Valid() && tokens[..toknext] == Bump(old(tokens[..toknext]), toksuper)
    {
      if toksuper != -1 {
        var t := tokens[toksuper];
        tokens[toksuper] := t.(size := t.size + 1);
      }
    }

    // Allocates and fills a token below the current super token.
    method AddToken(kind: Kind, start: nat, end: int)
      requires Valid() && -1 <= end
      modifies this`toknext, this`tokens, tokens
      ensures Valid() && (tokens == old(tokens) || fresh(tokens))
      ensures tokens[..toknext] == old(tokens[..toknext]) + [Token(kind, start, end, 0, toksuper)]
    {
      var i := Alloc();
      tokens[i] := Token(kind, start, end, 0, toksuper);
      assert tokens[..toknext] == tokens[..i] + [tokens[i]];
    }

    method AddLeaf(kind: Kind, start: nat, end: nat)
      requires Valid()
      modifies this`toknext, this`tokens, tokens
      ensures Valid() && (tokens == old(tokens) || fresh(tokens))
      ensures Abs() == Leaf(old(Abs()), kind, start, end, pos)
    {
      ghost var was := Abs();
      AddToken(kind, start, end);
      BumpSuper();
      assert tokens[..toknext] == Bump(was.toks, toksuper) + [Token(kind, start, end, 0, toksuper)];
    }

    // From a backslash to the last character it quotes.
    method SkipEscape(js: string) returns (ok: bool)
      requires Valid() && pos + 1 < |js| && js[pos] == '\\'
      modifies this`pos
      ensures Abs() == old(Abs()).(pos := pos)
      ensures StringEnd(js, old(pos)) == if ok then StringEnd(js, pos + 1) else Invalid
      ensures ok ==> old(pos) < pos < |js|
    {
      ghost var start := pos;
      EscapedEnd(js, start);
      pos := pos + 1;
      if js[pos] == 'u' {
        pos := pos + 1;
        var i := 0;
        while i < 4 && pos < |js| && js[pos] != '\0'
          invariant 0 <= i <= 4 && pos == start + 2 + i <= |js|
          invariant HexEnd(js, start + 2, 4) == HexEnd(js, pos, 4 - i)
        {
          if !IsHex(js[pos]) {
            return false;
          }
          pos := pos + 1;
          i := i + 1;
        }
        pos := pos - 1;
        return true;
      }
      return Escapes(js[pos]);
    }

    // jsmn_parse_primitive, and the count of its parent.
    method ParsePrimitive(js: string) returns (r: int)
      requires Valid() && !Done(js, pos) && !Delimits(js[pos])
      modifies this`pos, this`toknext, this`tokens, tokens
      ensures Valid() && (tokens == old(tokens) || fresh(tokens))
      ensures
        var end, was := PrimitiveEnd(js, old(pos)), old(Abs());
        if end.At? then
          r == 0 && Abs() == Leaf(was, PrimitiveKind(js, was.pos, end.pos), was.pos, end.pos, end.pos - 1)
        else r == INVAL && Abs() == was
    {
      ghost var was := Abs();
      var start := pos;
      while pos < |js| && js[pos] != '\0' && !Delimits(js[pos])
        invariant start <= pos <= |js| && tokens == old(tokens) && Valid() && Abs() == was.(pos := pos)
        invariant PrimitiveEnd(js, start) == PrimitiveEnd(js, pos)
        decreases |js| - pos
      {
        if !Printable(js[pos]) {
          pos := start;
          return INVAL;
        }
        pos := pos + 1;
      }
      var kind := Classify(js, start, pos);
      AddLeaf(kind, start, pos);
      pos := pos - 1;
      return 0;
    }

    method ParseString(js: string) returns (r: int)
      requires Valid() && !Done(js, pos)
      modifies this`pos, this`toknext, this`tokens, tokens
      ensures Valid() && (tokens == old(tokens) || fresh(tokens))
      ensures
        var end, was := StringEnd(js, old(pos) + 1), old(Abs());
        match end
        case At(e) => r == 0 && Abs() == Leaf(was, StringKind(was), was.pos + 1, e, e)
        case Invalid => r == INVAL && Abs() == was
        case Unended => r == PART && Abs() == was
    {
      ghost var was := Abs();
      var start := pos;
      pos := pos + 1;
      while pos < |js| && js[pos] != '\0'
        invariant start < pos <= |js| && tokens == old(tokens) && Valid() && Abs() == was.(pos := pos)
        invariant StringEnd(js, start + 1) == StringEnd(js, pos)
        decreases |js| - pos
      {
        if js[pos] == '"' {
          var kind := String;
          if 0 <= toksuper && tokens[toksuper].kind == Object {
            kind := Key;
          }
          AddLeaf(kind, start + 1, pos);
          return 0;
        }
        if js[pos] == '\\' && pos + 1 < |js| {
          var ok := SkipEscape(js);
          if !ok {
            pos := start;
            return INVAL;
          }
        } else {
          PlainEnd(js, pos);
        }
        pos := pos + 1;
      }
      pos := start;
      return PART;
    }

    // The walk up from the last token when a bracket closes.
    method CloseBracket(kind: Kind) returns (r: int)
      requires Valid()
      modifies this`toksuper, tokens
      ensures Valid() && (r == 0 || r == INVAL)
      ensures
        var was := old(Abs());
        match CloseToken(was, kind)
        case Go(t) => r == 0 && Abs() == t.(pos := was.pos)
        case Halt(code) => r == code && Abs() == was
    {
      if toknext < 1 {
        return INVAL;
      }
      var i := toknext - 1;
      while true
        invariant 0 <= i < toknext
        invariant Climb(tokens[..toknext], toknext - 1) == Climb(tokens[..toknext], i)
        decreases i
      {
        var t := tokens[i];
        if IsOpen(t) {
          if t.kind != kind {
            return INVAL;
          }
          tokens[i] := t.(end := pos + 1);
          toksuper := t.parent;
          return 0;
        }
        if t.parent == -1 {
          if t.kind != kind || toksuper == -1 {
            return INVAL;
          }
          return 0;
        }
        i := t.parent;
      }
    }

    // One turn of the outer loop. On success `pos` is the last character taken.
    method Turn(js: string) returns (r: int)
      requires Valid() && !Done(js, pos)
      modifies this, tokens
      ensures Valid() && (tokens == old(tokens) || fresh(tokens))
      ensures
        var was := old(Abs());
        match Next(js, was)
        case Go(t) => r == 0 && Abs() == t.(pos := t.pos - 1)
        case Halt(code) => r == code && Abs() == was
    {
      ghost var was := Abs();
      r := 0;
      match js[pos] {
        case '{' => Open(Object);
        case '[' => Open(Array);
        case '}' => r := CloseBracket(Object);
        case ']' => r := CloseBracket(Array);
        case '"' => r := ParseString(js);
        case '\t' =>
        case '\r' =>
        case '\n' =>
        case ' ' =>
        case ':' => toksuper := toknext - 1;
        case ',' =>
          if toksuper != -1 && tokens[toksuper].kind != Array && tokens[toksuper].kind != Object {
            toksuper := tokens[toksuper].parent;
          }
        case _ => r := ParsePrimitive(js);
      }
    }

    method Open(kind: Kind)
      requires Valid()
      modifies this, tokens
      ensures Valid() && (tokens == old(tokens) || fresh(tokens))
      ensures Abs() == Opened(old(Abs()), kind).(pos := old(pos))
    {
      ghost var was := Abs();
      AddToken(kind, pos, -1);
      BumpSuper();
      assert tokens[..toknext] == Bump(was.toks, toksuper) + [Token(kind, pos, -1, 0, toksuper)];
      toksuper := toknext - 1;
    }

    // jsmn_parse
    method Parse(js: string) returns (r: int)
      requires Valid()
      modifies this, tokens
      ensures Valid() && (Abs(), r) == Run(js, old(Abs()))
    {
      ghost var goal := Run(js, Abs());
      while pos < |js| && js[pos] != '\0'
        invariant Valid() && (tokens == old(tokens) || fresh(tokens))
        invariant Run(js, Abs()) == goal
        decreases |js| - pos
      {
        ghost var was := Abs();
        RunStep(js, was);
        var code := Turn(js);
        if code < 0 {
          return code;
        }
        pos := pos + 1;
        assert Next(js, was) == Go(Abs());
      }
      assert goal == (Abs(), if AnyOpen(Abs().toks) then PART else toknext);
      var unclosed := Unclosed();
      return if unclosed then PART else toknext;
    }

    method Unclosed() returns (b: bool)
      requires Valid()
      ensures b == AnyOpen(Abs().toks)
    {
      var i := toknext - 1;
      while i >= 0
        invariant -1 <= i < toknext
        invariant forall k :: i < k < toknext ==> !IsOpen(tokens[k])
      {
        if IsOpen(tokens[i]) {
          assert IsOpen(Abs().toks[i]);
          return true;
        }
        i := i - 1;
      }
      return false;
    }
  }

  method Classify(js: string, start: nat, end: nat) returns (kind: Kind)
    requires start < end <= |js| && (Done(js, end) || Delimits(js[end]))
    ensures kind == PrimitiveKind(js, start, end)
  {
    kind := Int;
    if js[start] == 'f' {
      if CharAt(js, start + 1) == 'a' && CharAt(js, start + 2) == 'l'
         && CharAt(js, start + 3) == 's' && CharAt(js, start + 4) == 'e' {
        kind := False;
      } else {
        kind := Undefined;
      }
    } else if js[start] == 't' {
      if CharAt(js, start + 1) == 'r' && CharAt(js, start + 2) == 'u' && CharAt(js, start + 3) == 'e' {
        kind := True;
      } else {
        kind := Undefined;
      }
    } else {
      for i := start to end + 1
        invariant '.' !in js[start..if i <= end then i else end]
      {
        if CharAt(js, i) == '.' {
          assert js[start..end][i - start] == '.';
          kind := Double;
          break;
        }
      }
    }
  }
}
