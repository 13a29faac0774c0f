/**
 Finding values in the flat token array. A value's tokens are recovered by comparing parent
 indices only; on the tokens of a dumped tree this finds exactly the right subtree.
 */
module JsmnLookup {
  import opened JsonText
  import opened Jsmn
  import opened JsmnRoundTrip
  import opened Wrappers

  // JsmnInterface_token_t
  datatype Range = Range(start: nat, count: nat)

  // The first token from `k` on that is not below `parent`'s children.
  function RangeEnd(toks: seq<Token>, parent: int, k: nat): (r: nat)
    requires k <= |toks|
    ensures k <= r <= |toks|
    decreases |toks| - k
  {
    if k == |toks| || toks[k].parent <= parent then k else RangeEnd(toks, parent, k + 1)
  }

  // JsmnInterface_searchTokCurRange
  function RangeOf(toks: seq<Token>, i: nat): Range
    requires i < |toks|
  {
    Range(i, RangeEnd(toks, toks[i].parent, i + 1) - i)
  }

  // The tokens of [lo, hi) whose parent is `parent`.
  function Children(toks: seq<Token>, parent: nat, lo: nat, hi: nat): (r: seq<nat>)
    requires lo <= hi <= |toks|
    ensures forall k :: 0 <= k < |r| ==> lo <= r[k] < hi && toks[r[k]].parent == parent
    decreases hi - lo
  {
    if lo == hi then []
    else if toks[lo].parent == parent then [lo] + Children(toks, parent, lo + 1, hi)
    else Children(toks, parent, lo + 1, hi)
  }

  predicate InArray(toks: seq<Token>, r: Range) {
    r.count > 0 && r.start + r.count <= |toks|
  }

  function ChildrenOf(toks: seq<Token>, r: Range): seq<nat>
    requires InArray(toks, r)
  {
    Children(toks, r.start, r.start, r.start + r.count)
  }

  // Every key of an object is followed by a token, as it is when it has a value.
  predicate KeysLead(toks: seq<Token>, r: Range)
    requires InArray(toks, r)
  {
    var kids := ChildrenOf(toks, r);
    toks[r.start].kind == Object ==> forall k :: 0 <= k < |kids| ==> kids[k] + 1 < |toks|
  }

  predicate Spells(js: string, t: Token, key: string) {
    0 <= t.start <= t.end <= |js| && js[t.start..t.end] == key
  }

  // The first of the tokens `kids` that spells `key`.
  function FindKey(js: string, toks: seq<Token>, kids: seq<nat>, key: string): (r: Option<nat>)
    requires forall k :: 0 <= k < |kids| ==> kids[k] < |toks|
    ensures r.Some? ==> r.value in kids
  {
    if kids == [] then None
    else if Spells(js, toks[kids[0]], key) then Some(kids[0])
    else FindKey(js, toks, kids[1..], key)
  }

  lemma FindKeyCons(js: string, toks: seq<Token>, c: nat, rest: seq<nat>, key: string)
    requires c < |toks| && forall k :: 0 <= k < |rest| ==> rest[k] < |toks|
    ensures FindKey(js, toks, [c] + rest, key)
         == if Spells(js, toks[c], key) then Some(c) else FindKey(js, toks, rest, key)
  {
    assert ([c] + rest)[1..] == rest;
  }

  // The same search over the tokens of [lo, hi) themselves.
  function FirstSpelled(js: string, toks: seq<Token>, parent: nat, lo: nat, hi: nat, key: string): Option<nat>
    requires lo <= hi <= |toks|
    decreases hi - lo
  {
    if lo == hi then None
    else if toks[lo].parent == parent && Spells(js, toks[lo], key) then Some(lo)
    else FirstSpelled(js, toks, parent, lo + 1, hi, key)
  }

  lemma {:induction false} FirstSpelledIsFindKey(
      js: string, toks: seq<Token>, parent: nat, lo: nat, hi: nat, key: string)
    requires lo <= hi <= |toks|
    ensures FirstSpelled(js, toks, parent, lo, hi, key) == FindKey(js, toks, Children(toks, parent, lo, hi), key)
    decreases hi - lo
  {
    if lo < hi {
      FirstSpelledIsFindKey(js, toks, parent, lo + 1, hi, key);
      FindKeyCons(js, toks, lo, Children(toks, parent, lo + 1, hi), key);
    }
  }

  function ArrayItem(toks: seq<Token>, r: Range, index: nat): Option<Range>
    requires InArray(toks, r)
  {
    var kids := ChildrenOf(toks, r);
    if toks[r.start].kind != Array || index >= |kids| then None else Some(RangeOf(toks, kids[index]))
  }

  function DictMember(js: string, toks: seq<Token>, r: Range, key: string): Option<Range>
    requires InArray(toks, r) && KeysLead(toks, r)
  {
    if toks[r.start].kind != Object then None
    else
      match FindKey(js, toks, ChildrenOf(toks, r), key)
      case None => None
      case Some(c) => Some(RangeOf(toks, c + 1))
  }

  lemma MemberBySearch(js: string, toks: seq<Token>, r: Range, key: string)
    requires InArray(toks, r) && KeysLead(toks, r) && toks[r.start].kind == Object
    ensures
      match FirstSpelled(js, toks, r.start, r.start, r.start + r.count, key)
      case None => DictMember(js, toks, r, key) == None
      case Some(c) => c + 1 < |toks| && DictMember(js, toks, r, key) == Some(RangeOf(toks, c + 1))
  {
    FirstSpelledIsFindKey(js, toks, r.start, r.start, r.start + r.count, key);
  }

  // The token of the key with a given index and its value's range.
  function DictAt(toks: seq<Token>, r: Range, index: nat): Option<(nat, Range)>
    requires InArray(toks, r) && KeysLead(toks, r)
  {
    var kids := ChildrenOf(toks, r);
    if toks[r.start].kind != Object || index >= |kids| then None
    else Some((kids[index], RangeOf(toks, kids[index] + 1)))
  }

  // --- Where a tree's parts lie

  function Size(j: Json): (n: nat)
    ensures n > 0
    decreases j
  {
    if j.Node? then 1 + SizeAll(j.dict, j.entries) else 1
  }

  function SizeAll(dict: bool, entries: seq<Entry>): nat
    decreases entries
  {
    if entries == [] then 0 else EntrySize(dict, entries[0]) + SizeAll(dict, entries[1..])
  }

  function EntrySize(dict: bool, e: Entry): (n: nat)
    ensures n > 0
    decreases e
  {
    (if dict then 1 else 0) + Size(e.value)
  }

  lemma {:induction false} TokensSize(j: Json, readable: bool, depth: nat, parent: int, at: nat, base: nat)
    ensures |Tokens(j, readable, depth, parent, at, base)| == Size(j)
    decreases j
  {
    if j.Node? {
      EntriesSize(j.dict, j.entries, readable, depth + 1, base, at + 1 + |Sep(readable, depth + 1)|, base + 1);
    }
  }

  lemma EntryTokensSize(dict: bool, e: Entry, readable: bool, depth: nat, parent: nat, at: nat, base: nat)
    ensures |EntryTokens(dict, e, readable, depth, parent, at, base)| == EntrySize(dict, e)
    decreases e
  {
    if dict {
      TokensSize(e.value, readable, depth, base, at + |Lead(true, e.key, readable)|, base + 1);
    } else {
      TokensSize(e.value, readable, depth, parent, at, base);
    }
  }

  lemma {:induction false} EntriesSize(
      dict: bool, entries: seq<Entry>, readable: bool, depth: nat, parent: nat, at: nat, base: nat)
    ensures |EntriesTokens(dict, entries, readable, depth, parent, at, base)| == SizeAll(dict, entries)
    decreases entries
  {
    if entries != [] {
      var next, mid := NextAt(dict, entries, readable, depth, at), base + EntrySize(dict, entries[0]);
      EntryTokensSize(dict, entries[0], readable, depth, parent, at, base);
      EntriesSize(dict, entries[1..], readable, depth, parent, next, mid);
      TokensSplit(dict, entries, readable, depth, parent, at, base, next, mid);
    }
  }

  // A run of tokens that starts at index `base`.
  predicate Holds(toks: seq<Token>, base: nat, part: seq<Token>) {
    base + |part| <= |toks| && forall i :: 0 <= i < |part| ==> toks[base + i] == part[i]
  }

  lemma HeldAt(toks: seq<Token>, base: nat, part: seq<Token>, i: nat)
    requires Holds(toks, base, part) && i < |part|
    ensures base + i < |toks| && toks[base + i] == part[i]
  {
  }

  lemma HoldsConcat(toks: seq<Token>, base: nat, a: seq<Token>, b: seq<Token>)
    requires Holds(toks, base, a + b)
    ensures Holds(toks, base, a) && Holds(toks, base + |a|, b)
  {
    forall i | 0 <= i < |a| ensures toks[base + i] == a[i] {
      assert (a + b)[i] == a[i];
    }
    forall i | 0 <= i < |b| ensures toks[base + |a| + i] == b[i] {
      assert (a + b)[|a| + i] == b[i];
    }
  }

  // At `end` the tokens stop or leave the subtree of a token whose parent is `parent`.
  predicate Leaves(toks: seq<Token>, end: nat, parent: int) {
    end == |toks| || (end < |toks| && toks[end].parent <= parent)
  }

  // The range holds exactly the tokens of `j`, whose text stands at `at`.
  predicate Embeds(js: string, toks: seq<Token>, r: Range, j: Json, readable: bool, depth: nat, at: nat) {
    r.count == Size(j) && r.start + r.count <= |toks|
    && Holds(toks, r.start, Tokens(j, readable, depth, toks[r.start].parent, at, r.start))
    && -1 <= toks[r.start].parent < r.start
    && Leaves(toks, r.start + r.count, toks[r.start].parent)
    && Has(js, at, Text(j, readable, depth))
  }

  lemma {:induction false} RangeEndIs(toks: seq<Token>, parent: int, k: nat, end: nat)
    requires k <= end <= |toks| && Leaves(toks, end, parent)
    requires forall i :: k <= i < end ==> toks[i].parent > parent
    ensures RangeEnd(toks, parent, k) == end
    decreases end - k
  {
    if k < end { RangeEndIs(toks, parent, k + 1, end); }
  }

  // A value's tokens, followed by a token outside, are what the range search finds.
  lemma ValueRange(toks: seq<Token>, v: nat, j: Json, readable: bool, depth: nat, parent: int, at: nat)
    requires -1 <= parent < v
    requires Holds(toks, v, Tokens(j, readable, depth, parent, at, v)) && Leaves(toks, v + Size(j), parent)
    ensures v < |toks| && toks[v].parent == parent && RangeOf(toks, v) == Range(v, Size(j))
  {
    var part := Tokens(j, readable, depth, parent, at, v);
    TokensSize(j, readable, depth, parent, at, v);
    TokensGrafted(j, readable, depth, parent, at, v);
    assert toks[v] == part[0];
    forall i | v + 1 <= i < v + |part| ensures toks[i].parent > parent {
      assert toks[i] == part[i - v] == part[1..][i - v - 1];
    }
    RangeEndIs(toks, parent, v + 1, v + |part|);
  }

  // --- The children of a container

  // The index of each entry's first token.
  function Bases(dict: bool, entries: seq<Entry>, base: nat): (r: seq<nat>)
    ensures |r| == |entries|
  {
    if entries == [] then [] else [base] + Bases(dict, entries[1..], base + EntrySize(dict, entries[0]))
  }

  lemma BasesCons(dict: bool, entries: seq<Entry>, base: nat, mid: nat)
    requires entries != [] && mid == base + EntrySize(dict, entries[0])
    ensures Bases(dict, entries, base) == [base] + Bases(dict, entries[1..], mid)
    ensures base + SizeAll(dict, entries) == mid + SizeAll(dict, entries[1..])
  {
  }

  lemma {:induction false} NoChildren(toks: seq<Token>, parent: nat, lo: nat, hi: nat)
    requires lo <= hi <= |toks| && forall i :: lo <= i < hi ==> toks[i].parent != parent
    ensures Children(toks, parent, lo, hi) == []
    decreases hi - lo
  {
    if lo < hi { NoChildren(toks, parent, lo + 1, hi); }
  }

  lemma {:induction false} ChildrenSplit(toks: seq<Token>, parent: nat, lo: nat, mid: nat, hi: nat)
    requires lo <= mid <= hi <= |toks|
    ensures Children(toks, parent, lo, hi) == Children(toks, parent, lo, mid) + Children(toks, parent, mid, hi)
    decreases mid - lo
  {
    if lo < mid { ChildrenSplit(toks, parent, lo + 1, mid, hi); }
  }

  // Of a part grafted below its first token, only that token is a child of `parent`.
  lemma OnlyFirst(toks: seq<Token>, parent: nat, base: nat, part: seq<Token>, mid: nat)
    requires parent < base && Holds(toks, base, part) && mid == base + |part|
    requires part != [] && part[0].parent == parent && Grafted(part[1..], base, base + 1)
    ensures Children(toks, parent, base, mid) == [base]
  {
    forall i | base + 1 <= i < mid ensures toks[i].parent != parent {
      assert toks[base + (i - base)] == part[i - base] == part[1..][i - base - 1];
    }
    assert toks[base + 0] == part[0];
    NoChildren(toks, parent, base + 1, mid);
  }

  lemma EntryChild(
      toks: seq<Token>, dict: bool, e: Entry, readable: bool, depth: nat, parent: nat, at: nat, base: nat, mid: nat)
    requires parent < base && mid == base + EntrySize(dict, e)
    requires Holds(toks, base, EntryTokens(dict, e, readable, depth, parent, at, base))
    ensures mid <= |toks| && Children(toks, parent, base, mid) == [base]
  {
    EntryTokensSize(dict, e, readable, depth, parent, at, base);
    EntryGrafted(dict, e, readable, depth, parent, at, base);
    OnlyFirst(toks, parent, base, EntryTokens(dict, e, readable, depth, parent, at, base), mid);
  }

  lemma FirstChild(
      toks: seq<Token>, dict: bool, entries: seq<Entry>, readable: bool, depth: nat, parent: nat, at: nat,
      base: nat, mid: nat)
    requires entries != [] && parent < base && mid == base + EntrySize(dict, entries[0])
    requires Holds(toks, base, EntriesTokens(dict, entries, readable, depth, parent, at, base))
    ensures mid <= |toks| && Children(toks, parent, base, mid) == [base]
    ensures Holds(toks, mid,
      EntriesTokens(dict, entries[1..], readable, depth, parent, NextAt(dict, entries, readable, depth, at), mid))
  {
    FirstHeld(toks, dict, entries, readable, depth, parent, at, base, mid);
    EntryChild(toks, dict, entries[0], readable, depth, parent, at, base, mid);
  }

  lemma {:induction false} EntriesChildren(
      toks: seq<Token>, dict: bool, entries: seq<Entry>, readable: bool, depth: nat, parent: nat, at: nat,
      base: nat, hi: nat)
    requires parent < base && hi == base + SizeAll(dict, entries)
    requires Holds(toks, base, EntriesTokens(dict, entries, readable, depth, parent, at, base))
    ensures hi <= |toks| && Children(toks, parent, base, hi) == Bases(dict, entries, base)
    decreases entries
  {
    EntriesSize(dict, entries, readable, depth, parent, at, base);
    if entries != [] {
      var next, mid := NextAt(dict, entries, readable, depth, at), base + EntrySize(dict, entries[0]);
      FirstChild(toks, dict, entries, readable, depth, parent, at, base, mid);
      BasesCons(dict, entries, base, mid);
      EntriesChildren(toks, dict, entries[1..], readable, depth, parent, next, mid, hi);
      ChildrenSplit(toks, parent, base, mid, hi);
    }
  }

  // Where the second entry's text starts.
  function NextAt(dict: bool, entries: seq<Entry>, readable: bool, depth: nat, at: nat): nat
    requires entries != []
  {
    at + |EntryText(dict, entries[0], readable, depth)| + 1 + |Sep(readable, depth)|
  }

  lemma FirstHeld(
      toks: seq<Token>, dict: bool, entries: seq<Entry>, readable: bool, depth: nat, parent: nat, at: nat,
      base: nat, mid: nat)
    requires entries != [] && mid == base + EntrySize(dict, entries[0])
    requires Holds(toks, base, EntriesTokens(dict, entries, readable, depth, parent, at, base))
    ensures Holds(toks, base, EntryTokens(dict, entries[0], readable, depth, parent, at, base))
    ensures Holds(toks, mid,
      EntriesTokens(dict, entries[1..], readable, depth, parent, NextAt(dict, entries, readable, depth, at), mid))
  {
    EntryTokensSize(dict, entries[0], readable, depth, parent, at, base);
    TokensSplit(dict, entries, readable, depth, parent, at, base, NextAt(dict, entries, readable, depth, at), mid);
    HoldsConcat(toks, base, EntryTokens(dict, entries[0], readable, depth, parent, at, base),
      EntriesTokens(dict, entries[1..], readable, depth, parent, NextAt(dict, entries, readable, depth, at), mid));
  }

  lemma RestWritten(js: string, dict: bool, entries: seq<Entry>, readable: bool, depth: nat, at: nat)
    requires |entries| > 1 && Has(js, at, Join(dict, entries, readable, depth))
    ensures Has(js, at, EntryText(dict, entries[0], readable, depth))
    ensures Has(js, NextAt(dict, entries, readable, depth, at), Join(dict, entries[1..], readable, depth))
  {
    JoinHas(js, at, dict, entries, readable, depth, at + |EntryText(dict, entries[0], readable, depth)|,
      NextAt(dict, entries, readable, depth, at), at + |Join(dict, entries, readable, depth)|);
  }

  // The text of entry `k`, given where the first one stands.
  function EntryAt(dict: bool, entries: seq<Entry>, readable: bool, depth: nat, at: nat, k: nat): nat
    requires k < |entries|
  {
    if k == 0 then at
    else EntryAt(dict, entries[1..], readable, depth, NextAt(dict, entries, readable, depth, at), k - 1)
  }

  // Behind an entry stands a sibling or whatever follows the container.
  lemma FirstLeaves(
      toks: seq<Token>, dict: bool, entries: seq<Entry>, readable: bool, depth: nat, parent: nat, at: nat,
      base: nat)
    requires entries != [] && parent < base && Leaves(toks, base + SizeAll(dict, entries), parent)
    requires Holds(toks, base, EntriesTokens(dict, entries, readable, depth, parent, at, base))
    ensures Leaves(toks, base + EntrySize(dict, entries[0]), parent)
  {
    if |entries| > 1 {
      var next, mid := NextAt(dict, entries, readable, depth, at), base + EntrySize(dict, entries[0]);
      FirstHeld(toks, dict, entries, readable, depth, parent, at, base, mid);
      FirstGrafted(toks, dict, entries[1..], readable, depth, parent, next, mid);
    } else {
      assert SizeAll(dict, entries[1..]) == 0;
    }
  }

  lemma FirstGrafted(
      toks: seq<Token>, dict: bool, entries: seq<Entry>, readable: bool, depth: nat, parent: nat, at: nat,
      base: nat)
    requires entries != [] && parent < base
    requires Holds(toks, base, EntriesTokens(dict, entries, readable, depth, parent, at, base))
    ensures base < |toks| && toks[base].parent == parent
  {
    FirstHeld(toks, dict, entries, readable, depth, parent, at, base, base + EntrySize(dict, entries[0]));
    EntryGrafted(dict, entries[0], readable, depth, parent, at, base);
    HeldAt(toks, base, EntryTokens(dict, entries[0], readable, depth, parent, at, base), 0);
  }

  // Entry `e` stands at token `b` with its text at `p`.
  predicate Stands(
      js: string, toks: seq<Token>, dict: bool, e: Entry, readable: bool, depth: nat, parent: nat, p: nat, b: nat) {
    parent < b && Holds(toks, b, EntryTokens(dict, e, readable, depth, parent, p, b))
    && Leaves(toks, b + EntrySize(dict, e), parent) && Has(js, p, EntryText(dict, e, readable, depth))
  }

  lemma {:induction false} EntryStands(
      js: string, toks: seq<Token>, dict: bool, entries: seq<Entry>, readable: bool, depth: nat, parent: nat,
      at: nat, base: nat, hi: nat, k: nat)
    requires k < |entries| && parent < base && hi == base + SizeAll(dict, entries) && Leaves(toks, hi, parent)
    requires Holds(toks, base, EntriesTokens(dict, entries, readable, depth, parent, at, base))
    requires Has(js, at, Join(dict, entries, readable, depth))
    ensures Stands(js, toks, dict, entries[k], readable, depth, parent,
      EntryAt(dict, entries, readable, depth, at, k), Bases(dict, entries, base)[k])
    decreases entries
  {
    if k == 0 {
      FirstStands(js, toks, dict, entries, readable, depth, parent, at, base);
    } else {
      var next, mid := NextAt(dict, entries, readable, depth, at), base + EntrySize(dict, entries[0]);
      FirstHeld(toks, dict, entries, readable, depth, parent, at, base, mid);
      RestWritten(js, dict, entries, readable, depth, at);
      EntryStands(js, toks, dict, entries[1..], readable, depth, parent, next, mid, hi, k - 1);
      assert entries[1..][k - 1] == entries[k];
    }
  }

  lemma FirstStands(
      js: string, toks: seq<Token>, dict: bool, entries: seq<Entry>, readable: bool, depth: nat, parent: nat,
      at: nat, base: nat)
    requires entries != [] && parent < base && Leaves(toks, base + SizeAll(dict, entries), parent)
    requires Holds(toks, base, EntriesTokens(dict, entries, readable, depth, parent, at, base))
    requires Has(js, at, Join(dict, entries, readable, depth))
    ensures Stands(js, toks, dict, entries[0], readable, depth, parent, at, base)
  {
    FirstHeld(toks, dict, entries, readable, depth, parent, at, base, base + EntrySize(dict, entries[0]));
    if |entries| > 1 { RestWritten(js, dict, entries, readable, depth, at); }
    FirstLeaves(toks, dict, entries, readable, depth, parent, at, base);
  }

  // --- From a container's range to its children's

  // Where the text of the first entry stands.
  function InnerAt(readable: bool, depth: nat, at: nat): nat {
    at + 1 + |Sep(readable, depth + 1)|
  }

  lemma Inside(
      js: string, toks: seq<Token>, r: Range, dict: bool, entries: seq<Entry>, readable: bool, depth: nat, at: nat)
    requires Embeds(js, toks, r, Node(dict, entries), readable, depth, at)
    ensures InArray(toks, r) && toks[r.start].kind == NodeKind(dict)
    ensures Holds(toks, r.start + 1,
      EntriesTokens(dict, entries, readable, depth + 1, r.start, InnerAt(readable, depth, at), r.start + 1))
    ensures Leaves(toks, r.start + 1 + SizeAll(dict, entries), r.start)
  {
    var parent := toks[r.start].parent;
    var own := [Token(NodeKind(dict), at, at + |Text(Node(dict, entries), readable, depth)|, |entries|, parent)];
    var inside := EntriesTokens(dict, entries, readable, depth + 1, r.start, InnerAt(readable, depth, at), r.start + 1);
    assert Tokens(Node(dict, entries), readable, depth, parent, at, r.start) == own + inside;
    HoldsConcat(toks, r.start, own, inside);
    assert toks[r.start + 0] == own[0];
  }

  lemma InnerWritten(js: string, dict: bool, entries: seq<Entry>, readable: bool, depth: nat, at: nat)
    requires entries != [] && Has(js, at, Text(Node(dict, entries), readable, depth))
    ensures Has(js, InnerAt(readable, depth, at), Join(dict, entries, readable, depth + 1))
  {
    NodeStarts(js, at, dict, entries, readable, depth, Sep(readable, depth + 1), InnerAt(readable, depth, at));
  }

  // The children found by their parent index are the entries' first tokens.
  lemma ChildrenAreEntries(
      js: string, toks: seq<Token>, r: Range, dict: bool, entries: seq<Entry>, readable: bool, depth: nat, at: nat)
    requires Embeds(js, toks, r, Node(dict, entries), readable, depth, at)
    ensures InArray(toks, r) && toks[r.start].kind == NodeKind(dict)
    ensures ChildrenOf(toks, r) == Bases(dict, entries, r.start + 1)
  {
    Inside(js, toks, r, dict, entries, readable, depth, at);
    ChildrenInside(toks, r, dict, entries, readable, depth + 1, InnerAt(readable, depth, at));
  }

  lemma ChildrenInside(
      toks: seq<Token>, r: Range, dict: bool, entries: seq<Entry>, readable: bool, depth: nat, first: nat)
    requires InArray(toks, r) && toks[r.start].parent < r.start && r.count == 1 + SizeAll(dict, entries)
    requires Holds(toks, r.start + 1, EntriesTokens(dict, entries, readable, depth, r.start, first, r.start + 1))
    ensures ChildrenOf(toks, r) == Bases(dict, entries, r.start + 1)
  {
    EntriesChildren(toks, dict, entries, readable, depth, r.start, first, r.start + 1, r.start + r.count);
  }

  // Where entry `k` of a container written at `at` stands.
  function ChildAt(dict: bool, entries: seq<Entry>, readable: bool, depth: nat, at: nat, k: nat): nat
    requires k < |entries|
  {
    EntryAt(dict, entries, readable, depth + 1, InnerAt(readable, depth, at), k)
  }

  lemma EntryPlaced(
      js: string, toks: seq<Token>, r: Range, dict: bool, entries: seq<Entry>, readable: bool, depth: nat, at: nat,
      k: nat)
    requires Embeds(js, toks, r, Node(dict, entries), readable, depth, at) && k < |entries|
    ensures Stands(js, toks, dict, entries[k], readable, depth + 1, r.start,
      ChildAt(dict, entries, readable, depth, at, k), Bases(dict, entries, r.start + 1)[k])
  {
    var first := InnerAt(readable, depth, at);
    assert Has(js, first, Join(dict, entries, readable, depth + 1)) by {
      InnerWritten(js, dict, entries, readable, depth, at);
    }
    Inside(js, toks, r, dict, entries, readable, depth, at);
    EntryStands(js, toks, dict, entries, readable, depth + 1, r.start, first, r.start + 1,
      r.start + 1 + SizeAll(dict, entries), k);
  }

  // The range found at an item is the item; the range found behind a key is its value.
  lemma ItemFound(
      js: string, toks: seq<Token>, r: Range, items: seq<Entry>, readable: bool, depth: nat, at: nat, k: nat)
    requires Embeds(js, toks, r, Node(false, items), readable, depth, at) && k < |items|
    ensures
      var b := Bases(false, items, r.start + 1)[k];
      b < |toks|
      && Embeds(js, toks, RangeOf(toks, b), items[k].value, readable, depth + 1,
           ChildAt(false, items, readable, depth, at, k))
  {
    EntryPlaced(js, toks, r, false, items, readable, depth, at, k);
    ItemEmbeds(js, toks, items[k], readable, depth + 1, r.start,
      ChildAt(false, items, readable, depth, at, k), Bases(false, items, r.start + 1)[k]);
  }

  lemma MemberFound(
      js: string, toks: seq<Token>, r: Range, members: seq<Entry>, readable: bool, depth: nat, at: nat, k: nat)
    requires Embeds(js, toks, r, Node(true, members), readable, depth, at) && k < |members|
    ensures
      var b, p := Bases(true, members, r.start + 1)[k], ChildAt(true, members, readable, depth, at, k);
      b + 1 < |toks| && Spells(js, toks[b], members[k].key)
      && Embeds(js, toks, RangeOf(toks, b + 1), members[k].value, readable, depth + 1,
           p + |Lead(true, members[k].key, readable)|)
  {
    EntryPlaced(js, toks, r, true, members, readable, depth, at, k);
    MemberEmbeds(js, toks, members[k], readable, depth + 1, r.start,
      ChildAt(true, members, readable, depth, at, k), Bases(true, members, r.start + 1)[k]);
  }

  lemma ItemEmbeds(js: string, toks: seq<Token>, e: Entry, readable: bool, depth: nat, parent: nat, p: nat, b: nat)
    requires Stands(js, toks, false, e, readable, depth, parent, p, b)
    ensures b < |toks| && Embeds(js, toks, RangeOf(toks, b), e.value, readable, depth, p)
  {
    assert "" + Text(e.value, readable, depth) == Text(e.value, readable, depth);
    ValueRange(toks, b, e.value, readable, depth, parent, p);
  }

  lemma MemberEmbeds(js: string, toks: seq<Token>, e: Entry, readable: bool, depth: nat, parent: nat, p: nat, b: nat)
    requires Stands(js, toks, true, e, readable, depth, parent, p, b)
    ensures b + 1 < |toks| && Spells(js, toks[b], e.key)
    ensures Embeds(js, toks, RangeOf(toks, b + 1), e.value, readable, depth, p + |Lead(true, e.key, readable)|)
  {
    var own := [Token(Key, p + 1, p + 1 + |e.key|, 1, parent)];
    var at := p + |Lead(true, e.key, readable)|;
    MemberTokens(e, readable, depth, parent, p, b, at);
    HoldsConcat(toks, b, own, Tokens(e.value, readable, depth, b, at, b + 1));
    HeldAt(toks, b, own, 0);
    ValueRange(toks, b + 1, e.value, readable, depth, b, at);
    HasConcat(js, p, Lead(true, e.key, readable), Text(e.value, readable, depth));
    KeyWritten(js, p, e.key, readable);
  }

  lemma KeyWritten(js: string, p: nat, key: string, readable: bool)
    requires Has(js, p, Lead(true, key, readable))
    ensures p + 1 + |key| <= |js| && js[p + 1..p + 1 + |key|] == key
  {
    assert Lead(true, key, readable) == "\"" + (key + Colon(readable));
    HasConcat(js, p, "\"", key + Colon(readable));
    HasConcat(js, p + 1, key, Colon(readable));
  }
}
