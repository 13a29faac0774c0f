/** What the tokenizer keeps on every text, well-formed or not. */
module JsmnShape {
  import opened Jsmn

  // How many tokens name `i` as their parent.
  function Kids(toks: seq<Token>, i: int): nat {
    if toks == [] then 0
    else Kids(toks[..|toks| - 1], i) + (if toks[|toks| - 1].parent == i then 1 else 0)
  }

  // Inside the text read so far; only a bracket's token may still be open.
  predicate Placed(t: Token, pos: nat) {
    0 <= t.start < pos
    && if t.end == -1 then t.kind == Object || t.kind == Array else t.start <= t.end <= pos
  }

  predicate Ordered(toks: seq<Token>) {
    forall i, j :: 0 <= i < j < |toks| ==> toks[i].start < toks[j].start
  }

  predicate AllPlaced(toks: seq<Token>, pos: nat) {
    forall i :: 0 <= i < |toks| ==> Placed(toks[i], pos)
  }

  predicate Counted(toks: seq<Token>) {
    forall i :: 0 <= i < |toks| ==> toks[i].size == Kids(toks, i)
  }

  predicate Sound(s: State) {
    Wf(s) && AllPlaced(s.toks, s.pos) && Ordered(s.toks) && Counted(s.toks)
  }

  lemma {:induction false} KidsSame(a: seq<Token>, b: seq<Token>, i: int)
    requires |a| == |b| && forall k :: 0 <= k < |a| ==> a[k].parent == b[k].parent
    ensures Kids(a, i) == Kids(b, i)
  {
    if a != [] { KidsSame(a[..|a| - 1], b[..|b| - 1], i); }
  }

  lemma {:induction false} NoKidsAbove(toks: seq<Token>, i: int)
    requires Linked(toks) && i >= |toks|
    ensures Kids(toks, i) == 0
  {
    if toks != [] { NoKidsAbove(toks[..|toks| - 1], i); }
  }

  lemma AddKeeps(s: State, t: Token)
    requires Wf(s) && Counted(s.toks) && t.parent == s.super && t.size == 0
    ensures Counted(Bump(s.toks, s.super) + [t])
  {
    var bumped := Bump(s.toks, s.super);
    var r := bumped + [t];
    assert r[..|r| - 1] == bumped;
    forall i | 0 <= i < |r| ensures r[i].size == Kids(r, i) {
      KidsSame(bumped, s.toks, i);
      if i == |s.toks| { NoKidsAbove(s.toks, i); }
    }
  }

  lemma AddSound(s: State, t: Token, next: nat)
    requires Sound(s) && t.parent == s.super && t.size == 0 && next > s.pos
    requires Placed(t, next) && s.pos <= t.start
    ensures Sound(State(next, Bump(s.toks, s.super) + [t], s.super))
  {
    AddKeeps(s, t);
  }

  lemma OpenedSound(s: State, kind: Kind)
    requires Sound(s) && (kind == Object || kind == Array)
    ensures Sound(Opened(s, kind))
  {
    AddSound(s, Token(kind, s.pos, -1, 0, s.super), s.pos + 1);
  }

  lemma CloseSound(s: State, kind: Kind)
    requires Sound(s)
    ensures CloseToken(s, kind).Go? ==> Sound(CloseToken(s, kind).s)
  {
    var r := CloseToken(s, kind);
    if r.Go? {
      forall i | 0 <= i < |s.toks| ensures r.s.toks[i].size == Kids(r.s.toks, i) {
        KidsSame(s.toks, r.s.toks, i);
      }
    }
  }

  lemma {:induction false} PrimitiveAdvances(js: string, i: nat)
    requires !Done(js, i) && !Delimits(js[i])
    ensures PrimitiveEnd(js, i).At? ==> i < PrimitiveEnd(js, i).pos <= |js|
  {
  }

  lemma LeafSound(s: State, kind: Kind, start: nat, end: nat, next: nat)
    requires Sound(s) && s.pos <= start <= end <= next && start < next && s.pos < next
    ensures Sound(Leaf(s, kind, start, end, next))
  {
    AddSound(s, Token(kind, start, end, 0, s.super), next);
  }

  lemma MoveSound(s: State, next: nat, super: int)
    requires Sound(s) && next > s.pos && -1 <= super < |s.toks|
    ensures Sound(State(next, s.toks, super))
  {
  }

  lemma NextOfString(js: string, s: State)
    requires Wf(s) && !Done(js, s.pos) && js[s.pos] == '"'
    ensures var e := StringEnd(js, s.pos + 1);
      if e.At? then Next(js, s) == Go(Leaf(s, StringKind(s), s.pos + 1, e.pos, e.pos + 1)) else Next(js, s).Halt?
  {
  }

  lemma StringSound(js: string, s: State)
    requires Sound(s) && !Done(js, s.pos) && js[s.pos] == '"'
    ensures Next(js, s).Go? ==> Sound(Next(js, s).s)
  {
    NextOfString(js, s);
    var e := StringEnd(js, s.pos + 1);
    if e.At? { LeafSound(s, StringKind(s), s.pos + 1, e.pos, e.pos + 1); }
  }

  lemma NextOfPrimitive(js: string, s: State)
    requires Wf(s) && !Done(js, s.pos) && !Delimits(js[s.pos])
    requires js[s.pos] != '"' && js[s.pos] != '{' && js[s.pos] != '['
    ensures var e := PrimitiveEnd(js, s.pos);
      if e.At? then Next(js, s) == Go(Leaf(s, PrimitiveKind(js, s.pos, e.pos), s.pos, e.pos, e.pos))
      else Next(js, s).Halt?
  {
  }

  lemma PrimitiveSound(js: string, s: State)
    requires Sound(s) && !Done(js, s.pos) && !Delimits(js[s.pos])
    requires js[s.pos] != '"' && js[s.pos] != '{' && js[s.pos] != '['
    ensures Next(js, s).Go? ==> Sound(Next(js, s).s)
  {
    NextOfPrimitive(js, s);
    PrimitiveAdvances(js, s.pos);
    var e := PrimitiveEnd(js, s.pos);
    if e.At? { LeafSound(s, PrimitiveKind(js, s.pos, e.pos), s.pos, e.pos, e.pos); }
  }

  lemma BracketSound(js: string, s: State)
    requires Sound(s) && !Done(js, s.pos)
    requires js[s.pos] == '{' || js[s.pos] == '[' || js[s.pos] == '}' || js[s.pos] == ']'
    ensures Next(js, s).Go? ==> Sound(Next(js, s).s)
  {
    OpenedSound(s, Object);
    OpenedSound(s, Array);
    CloseSound(s, Object);
    CloseSound(s, Array);
  }

  lemma NextSound(js: string, s: State)
    requires Sound(s) && !Done(js, s.pos)
    ensures Next(js, s).Go? ==> Sound(Next(js, s).s)
  {
    var c := js[s.pos];
    if c == '{' || c == '[' || c == '}' || c == ']' { BracketSound(js, s); }
    else if c == '"' { StringSound(js, s); }
    else if !Delimits(c) { PrimitiveSound(js, s); }
    else {
      MoveSound(s, s.pos + 1, if c == ':' then |s.toks| - 1 else if c == ',' then AfterComma(s) else s.super);
    }
  }

  // On every text: parents come before their children, positions lie in the text and grow,
  // sizes count children, and a successful parse leaves every token closed.
  lemma {:induction false} RunSound(js: string, s: State)
    requires Sound(s) && s.pos <= |js|
    ensures Sound(Run(js, s).0) && Run(js, s).0.pos <= |js|
    ensures Run(js, s).1 >= 0 ==> Run(js, s).1 == |Run(js, s).0.toks| && !AnyOpen(Run(js, s).0.toks)
    ensures Run(js, s).1 < 0 ==> Run(js, s).1 == INVAL || Run(js, s).1 == PART
    decreases |js| - s.pos
  {
    if !Done(js, s.pos) {
      NextSound(js, s);
      var r := Next(js, s);
      if r.Go? { RunSound(js, r.s); }
    }
  }

  lemma ParseIsSafe(js: string)
    ensures
      var (s, code) := Run(js, Initial);
      Linked(s.toks) && Counted(s.toks) && Ordered(s.toks)
      && (code >= 0 ==>
            code == |s.toks|
            && forall i :: 0 <= i < |s.toks| ==> 0 <= s.toks[i].start <= s.toks[i].end <= |js|)
  {
    RunSound(js, Initial);
    var (s, code) := Run(js, Initial);
    forall i | 0 <= i < |s.toks| && code >= 0
      ensures 0 <= s.toks[i].start <= s.toks[i].end <= |js|
    {
      assert Placed(s.toks[i], s.pos) && !IsOpen(s.toks[i]);
    }
  }

  // --- The characters

  lemma SpaceIsSkipped(js: string, s: State)
    requires Wf(s) && !Done(js, s.pos) && js[s.pos] in " \t\r\n"
    ensures Next(js, s) == Go(s.(pos := s.pos + 1))
  {
  }

  // A word goes on up to one of nine characters or the end, and fails at any other outside 32 to 126.
  lemma WordEnds(js: string, i: nat)
    ensures PrimitiveEnd(js, i) == At(i) <==> i >= |js| || js[i] in "\0:\t\r\n ,]}"
    ensures i < |js| && js[i] !in "\0:\t\r\n ,]}" ==>
      PrimitiveEnd(js, i) == if 32 <= js[i] as int <= 126 then PrimitiveEnd(js, i + 1) else Invalid
  {
    if i < |js| && !Done(js, i) && !Delimits(js[i]) { assert js[i] !in "\0:\t\r\n ,]}"; }
    if i < |js| { DelimiterExactly(js[i]); }
  }

  lemma DelimiterExactly(c: char)
    ensures c == '\0' || Delimits(c) <==> c in "\0:\t\r\n ,]}"
  {
    var all := "\0:\t\r\n ,]}";
    if c == '\0' || Delimits(c) {
      var i := if c == '\0' then 0 else if c == ':' then 1 else if c == '\t' then 2 else if c == '\r' then 3
               else if c == '\n' then 4 else if c == ' ' then 5 else if c == ',' then 6 else if c == ']' then 7 else 8;
      assert all[i] == c;
    }
  }

  // A word's kind: the literal names by their letters, else by whether there is a point in it.
  lemma KindExactly(js: string, start: nat, end: nat)
    requires start < end <= |js|
    ensures
      var kind, rest, c := PrimitiveKind(js, start, end), js[start..], js[start];
      && (kind == True <==> "true" <= rest) && (kind == False <==> "false" <= rest)
      && (kind == Undefined <==> (c == 't' && !("true" <= rest)) || (c == 'f' && !("false" <= rest)))
      && (kind == Double <==> c != 't' && c != 'f' && '.' in js[start..end])
      && (kind == Int <==> c != 't' && c != 'f' && '.' !in js[start..end])
  {
    StartsWith(js, start, "true");
    StartsWith(js, start, "false");
  }

  lemma StartsWith(js: string, start: nat, word: string)
    requires start <= |js| && '\0' !in word
    ensures word <= js[start..] <==> forall i :: 0 <= i < |word| ==> CharAt(js, start + i) == word[i]
  {
    if forall i :: 0 <= i < |word| ==> CharAt(js, start + i) == word[i] {
      if |word| > 0 { assert CharAt(js, start + (|word| - 1)) == word[|word| - 1]; }
      assert word == js[start..][..|word|];
    }
    if word <= js[start..] {
      forall i | 0 <= i < |word| ensures CharAt(js, start + i) == word[i] {
        assert js[start..][i] == word[i];
      }
    }
  }

  // --- Brackets too many

  // With no container open, a closing bracket is refused, unless a colon has left a super token.
  lemma ExtraBracket(js: string, s: State)
    requires Wf(s) && !Done(js, s.pos) && (js[s.pos] == '}' || js[s.pos] == ']') && !AnyOpen(s.toks)
    ensures s.super == -1 ==> Next(js, s) == Halt(INVAL)
    ensures Next(js, s).Go? ==> Next(js, s) == Go(s.(pos := s.pos + 1))
  {
  }

  // So brackets need not balance: the tokenizer refuses `[]]` and accepts `[]:]`.
  lemma BracketsUnbalanced()
    ensures Run("[]]", Initial).1 == INVAL
    ensures Run("[]:]", Initial) == (State(4, [Token(Array, 0, 2, 0, -1)], 0), 1)
  {
    var closed := Token(Array, 0, 2, 0, -1);
    PairRead("[]]");
    PairRead("[]:]");
    RunStep("[]]", State(2, [closed], -1));
    ColonThenBracket(closed);
  }

  lemma PairRead(js: string)
    requires |js| >= 2 && js[0] == '[' && js[1] == ']'
    ensures Run(js, Initial) == Run(js, State(2, [Token(Array, 0, 2, 0, -1)], -1))
  {
    var open, closed := Token(Array, 0, -1, 0, -1), Token(Array, 0, 2, 0, -1);
    assert Opened(Initial, Array) == State(1, [open], 0);
    assert [open][0 := closed] == [closed];
    RunStep(js, Initial);
    RunStep(js, State(1, [open], 0));
  }

  lemma ColonThenBracket(closed: Token)
    requires closed == Token(Array, 0, 2, 0, -1)
    ensures Run("[]:]", State(2, [closed], -1)) == (State(4, [closed], 0), 1)
  {
    RunStep("[]:]", State(2, [closed], -1));
    RunStep("[]:]", State(3, [closed], 0));
  }
}
