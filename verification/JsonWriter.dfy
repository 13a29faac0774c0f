/** The JSON dumper in place, over the block-grown array. */
module JsonWriter {
  import opened JsonText
  import opened JsonEvents
  import opened SaBuffer

  lemma TailDropped(s: string, index: nat, count: nat)
    requires index + count == |s|
    ensures s[..index] + s[index + count..] == s[..index]
  {
  }

  lemma LastReplaced(s: string, last: string)
    requires |last| == 1 && s != ""
    ensures s[..|s| - 1] + last + s[|s| - 1 + |last|..] == s[..|s| - 1] + last
  {
  }

  lemma EndApplied(s: State, dict: bool, readable: bool, kept: string, text: string)
    requires Ready(s, readable) && s.depth > 0 && kept == s.text[..|s.text| - 1 - |Sep(readable, s.depth)|]
    requires text == kept + (Sep(readable, s.depth - 1) + Close(dict) + Trailer(readable, s.depth - 1))
    ensures Apply(End(dict), s, readable) == State(text, s.depth - 1) && Ready(State(text, s.depth - 1), readable)
  {
  }

  class JsonDumper {
    const readable: bool
    var depth: nat
    const buffer: Buffer<char>

    ghost predicate Valid()
      reads this, buffer, buffer.buffer
    {
      buffer.Valid() && Ready(State(buffer.Contents(), depth), readable)
    }

    ghost function Written(): State
      reads this, buffer, buffer.buffer
      requires buffer.Valid()
    {
      State(buffer.Contents(), depth)
    }

    constructor (readable: bool)
      ensures Valid() && this.readable == readable && Written() == State("", 0)
      ensures fresh(buffer) && fresh(buffer.buffer)
    {
      this.readable, depth := readable, 0;
      buffer := new Buffer<char>(1);
    }

    // The loop over cur_depth that indents.
    method Indent(n: nat)
      requires buffer.Valid()
      modifies buffer, buffer.buffer
      ensures buffer.Valid() && (buffer.buffer == old(buffer.buffer) || fresh(buffer.buffer))
      ensures buffer.Contents() == old(buffer.Contents()) + Spaces(4 * n)
    {
      assert buffer.Contents() == old(buffer.Contents()) + Spaces(0);
      for i := 0 to n
        invariant buffer.Valid() && (buffer.buffer == old(buffer.buffer) || fresh(buffer.buffer))
        invariant buffer.Contents() == old(buffer.Contents()) + Spaces(4 * i)
      {
        buffer.Add("    ");
        assert Spaces(4 * i) + "    " == Spaces(4 * (i + 1));
      }
    }

    // A string, then the line break and indentation of `n` levels when readable.
    method AddSeparated(s: string, n: nat)
      requires buffer.Valid()
      modifies buffer, buffer.buffer
      ensures buffer.Valid() && (buffer.buffer == old(buffer.buffer) || fresh(buffer.buffer))
      ensures buffer.Contents() == old(buffer.Contents()) + (s + Sep(readable, n))
    {
      if readable {
        buffer.Add(s + "\n");
        Indent(n);
      } else {
        buffer.Add(s);
      }
    }

    method Terminate()
      requires buffer.Valid()
      modifies buffer, buffer.buffer
      ensures buffer.Valid() && (buffer.buffer == old(buffer.buffer) || fresh(buffer.buffer))
      ensures buffer.Contents() == old(buffer.Contents()) + Trailer(readable, depth)
    {
      if depth != 0 {
        AddSeparated(",", depth);
      }
    }

    method HandleStart(dict: bool, count: nat)
      requires Valid()
      modifies this, buffer, buffer.buffer
      ensures Valid() && (buffer.buffer == old(buffer.buffer) || fresh(buffer.buffer))
      ensures Written() == Apply(Start(dict, count), old(Written()), readable)
    {
      ghost var was := Written();
      depth := depth + 1;
      AddSeparated(Open(dict), depth);
      if count == 0 {
        buffer.Add(" ");
        Assoc(was.text, Open(dict) + Sep(readable, depth), " ");
      } else {
        assert Open(dict) + Sep(readable, depth) + "" == Open(dict) + Sep(readable, depth);
      }
      StartText(dict, count, was, readable);
    }

    method TakeBack(removeCount: nat)
      requires buffer.Valid() && removeCount <= buffer.dataCount
      modifies buffer, buffer.buffer
      ensures buffer.Valid() && (buffer.buffer == old(buffer.buffer) || fresh(buffer.buffer))
      ensures var was := old(buffer.Contents()); buffer.Contents() == was[..|was| - removeCount]
    {
      ghost var was := buffer.Contents();
      var removeIndex := buffer.dataCount - removeCount;
      buffer.RemoveStream(removeIndex, removeCount);
      TailDropped(was, removeIndex, removeCount);
    }

    // Takes the separator of the entry that did not come back, and closes.
    method CloseBracket(dict: bool)
      requires Valid() && depth > 0
      modifies buffer, buffer.buffer
      ensures buffer.Valid() && (buffer.buffer == old(buffer.buffer) || fresh(buffer.buffer))
      ensures
        var was := old(buffer.Contents());
        buffer.Contents() == was[..|was| - 1 - |Sep(readable, depth)|] + (Sep(readable, depth - 1) + Close(dict))
    {
      if readable {
        TakeBack(2 + 4 * depth);
        CloseLine(dict);
      } else {
        ghost var was := buffer.Contents();
        buffer.ReplaceStream(buffer.dataCount - 1, Close(dict));
        LastReplaced(was, Close(dict));
        assert Sep(readable, depth - 1) + Close(dict) == Close(dict);
      }
    }

    method CloseLine(dict: bool)
      requires buffer.Valid() && depth > 0
      modifies buffer, buffer.buffer
      ensures buffer.Valid() && (buffer.buffer == old(buffer.buffer) || fresh(buffer.buffer))
      ensures buffer.Contents() == old(buffer.Contents()) + (Sep(readable, depth - 1) + Close(dict))
    {
      ghost var was := buffer.Contents();
      AddSeparated("", depth - 1);
      assert "" + Sep(readable, depth - 1) == Sep(readable, depth - 1);
      buffer.Add(Close(dict));
      Assoc(was, Sep(readable, depth - 1), Close(dict));
    }

    method HandleEnd(dict: bool)
      requires Valid() && depth > 0
      modifies this, buffer, buffer.buffer
      ensures Valid() && (buffer.buffer == old(buffer.buffer) || fresh(buffer.buffer))
      ensures Written() == Apply(End(dict), old(Written()), readable)
    {
      ghost var was := Written();
      ghost var kept := was.text[..|was.text| - 1 - |Sep(readable, depth)|];
      CloseBracket(dict);
      depth := depth - 1;
      ghost var bracket := Sep(readable, depth) + Close(dict);
      assert buffer.Contents() == kept + bracket;
      Terminate();
      Assoc(kept, bracket, Trailer(readable, depth));
      EndApplied(was, dict, readable, kept, buffer.Contents());
    }

    method AddThree(a: string, b: string, c: string)
      requires buffer.Valid()
      modifies buffer, buffer.buffer
      ensures buffer.Valid() && (buffer.buffer == old(buffer.buffer) || fresh(buffer.buffer))
      ensures buffer.Contents() == old(buffer.Contents()) + (a + b + c)
    {
      ghost var was := buffer.Contents();
      buffer.Add(a);
      buffer.Add(b);
      Assoc(was, a, b);
      buffer.Add(c);
      Assoc(was, a + b, c);
    }

    method HandleKey(key: string)
      requires Valid()
      modifies buffer, buffer.buffer
      ensures Valid() && (buffer.buffer == old(buffer.buffer) || fresh(buffer.buffer))
      ensures Written() == Apply(SetKey(key), old(Written()), readable)
    {
      AddThree("\"", key, Colon(readable));
    }

    method HandleValue(v: Json)
      requires Valid() && !v.Node?
      modifies buffer, buffer.buffer
      ensures Valid() && (buffer.buffer == old(buffer.buffer) || fresh(buffer.buffer))
      ensures Written() == Apply(SetValue(v), old(Written()), readable)
    {
      ghost var was := buffer.Contents();
      if v.Str? {
        AddThree("\"", v.s, "\"");
      } else {
        buffer.Add(Scalar(v));
      }
      assert buffer.Contents() == was + Scalar(v);
      Terminate();
      Assoc(was, Scalar(v), Trailer(readable, depth));
    }

    method Handle(e: Event)
      requires Valid() && Allowed(e, depth)
      modifies this, buffer, buffer.buffer
      ensures Valid() && (buffer.buffer == old(buffer.buffer) || fresh(buffer.buffer))
      ensures Written() == Apply(e, old(Written()), readable)
    {
      match e {
        case Start(dict, count) => HandleStart(dict, count);
        case End(dict) => HandleEnd(dict);
        case SetKey(key) => HandleKey(key);
        case SetValue(v) => HandleValue(v);
      }
    }

    // Both views of the dump close the text with a NUL, once; the length leaves it out.
    method DumpLength() returns (n: nat)
      requires buffer.Valid()
      modifies buffer, buffer.buffer
      ensures buffer.Valid() && (buffer.buffer == old(buffer.buffer) || fresh(buffer.buffer))
      ensures
        var was := old(buffer.Contents());
        buffer.Contents() == (if was != "" && was[|was| - 1] == '\0' then was else was + "\0")
        && n == |buffer.Contents()| - 1
    {
      if buffer.dataCount == 0 || buffer.buffer[buffer.dataCount - 1] != '\0' {
        buffer.Add("\0");
      }
      n := buffer.dataCount - 1;
    }
  }

  // A run of events from the first one on.
  method HandleAll(d: JsonDumper, es: seq<Event>)
    requires d.Valid() && Legal(es, d.depth)
    modifies d, d.buffer, d.buffer.buffer
    ensures d.Valid() && d.Written() == ApplyAll(es, old(d.Written()), d.readable)
  {
    for i := 0 to |es|
      invariant d.Valid() && (d.buffer.buffer == old(d.buffer.buffer) || fresh(d.buffer.buffer))
      invariant Legal(es[i..], d.depth)
      invariant ApplyAll(es[i..], d.Written(), d.readable) == ApplyAll(es, old(d.Written()), d.readable)
    {
      assert es[i..][1..] == es[i + 1..] && es[i..][0] == es[i];
      d.Handle(es[i]);
    }
  }
}
