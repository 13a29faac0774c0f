/** The MessagePack dumper: each event appended to its sink as it comes. */
module MsgDumper {
  import opened Bytes
  import opened MsgPack
  import opened MsgPacker
  import opened MsgEvents

  // C conversions to a signed and to an unsigned type of `width` bytes.
  function CInt(i: int, width: nat): int {
    ToSigned(Pattern(i, width), width)
  }

  function CUint(i: int, width: nat): nat {
    Pattern(i, width)
  }

  lemma CIntId(i: int, width: nat)
    requires IsInt(i, width)
    ensures CInt(i, width) == i
    ensures 0 <= i ==> CUint(i, width) == i
  {
    SignedRoundTrip(i, width);
  }

  class Dumper {
    const sbuf: SBuffer

    constructor ()
      ensures sbuf.Valid() && sbuf.Contents() == [] && fresh(sbuf) && fresh(sbuf.data)
    {
      sbuf := new SBuffer();
    }

    // int_setSigned: narrows to the smallest packer by strict bounds.
    method SetSigned(value: int)
      requires -(LONG / 2) <= value < LONG / 2 && Room(sbuf, 9)
      modifies sbuf, sbuf.data
      ensures sbuf.Valid() && sbuf.Contents() == old(sbuf.Contents()) + PackInt(value)
      ensures sbuf.data == old(sbuf.data) || fresh(sbuf.data)
    {
      Ranges();
      if value < 0 {
        if -0x8000 < value {
          if -0x80 < value {
            CIntId(value, 1);
            PackInt8(sbuf, CInt(value, 1));
          } else {
            CIntId(value, 2);
            PackInt16(sbuf, CInt(value, 2));
          }
        } else if -0x8000_0000 < value {
          CIntId(value, 4);
          PackInt32(sbuf, CInt(value, 4));
        } else {
          PackInt64(sbuf, value);
        }
      } else {
        if value < 0x7fff {
          if value < 0x7f {
            CIntId(value, 1);
            PackInt8(sbuf, CInt(value, 1));
          } else {
            CIntId(value, 2);
            PackInt16(sbuf, CInt(value, 2));
          }
        } else if value < 0x7fff_ffff {
          CIntId(value, 4);
          PackInt32(sbuf, CInt(value, 4));
        } else {
          PackInt64(sbuf, value);
        }
      }
    }

    // int_setUnsigned: the same with a signed cast in front of each unsigned packer.
    method SetUnsigned(value: nat)
      requires value < LONG && Room(sbuf, 9)
      modifies sbuf, sbuf.data
      ensures sbuf.Valid() && sbuf.Contents() == old(sbuf.Contents()) + PackInt(value)
      ensures sbuf.data == old(sbuf.data) || fresh(sbuf.data)
    {
      Ranges();
      if value < 0x7fff {
        if value < 0x7f {
          CIntId(value, 1);
          PackUint8(sbuf, CUint(CInt(value, 1), 1));
        } else {
          CIntId(value, 2);
          PackUint16(sbuf, CUint(CInt(value, 2), 2));
        }
      } else if value < 0x7fff_ffff {
        CIntId(value, 4);
        PackUint32(sbuf, CUint(CInt(value, 4), 4));
      } else {
        SignedBounds(value, 8);
        PackUint64(sbuf, CUint(CInt(value, 8), 8));
      }
    }

    // setKeyWithLength and string_setWithLength
    method SetString(text: seq<byte>)
      requires Room(sbuf, |text| + 9)
      modifies sbuf, sbuf.data
      ensures sbuf.Valid() && sbuf.Contents() == old(sbuf.Contents()) + (PackStrHead(|text|) + text)
      ensures sbuf.data == old(sbuf.data) || fresh(sbuf.data)
    {
      ghost var before := sbuf.Contents();
      PackStr(sbuf, |text|);
      sbuf.Write(text);
      assert sbuf.Contents() == before + (PackStrHead(|text|) + text);
    }

    method SetValue(v: Doc)
      requires DocOk(v) && !v.DArr? && !v.DDict? && Fits(Tree(v)) && Room(sbuf, |Pack(Tree(v))| + 9)
      modifies sbuf, sbuf.data
      ensures sbuf.Valid() && sbuf.Contents() == old(sbuf.Contents()) + Pack(Tree(v))
      ensures sbuf.data == old(sbuf.data) || fresh(sbuf.data)
    {
      ghost var before := sbuf.Contents();
      match v {
        case DNull => sbuf.Write([0xc0]);
        case DBool(b) => sbuf.Write([if b then 0xc3 else 0xc2]);
        case DInt(i) => SetSigned(i);
        case DUint(u) => SetUnsigned(u);
        case DFloat(bits) => sbuf.Write([0xca] + Store(bits, 4));
        case DDouble(bits) => sbuf.Write([0xcb] + Store(bits, 8));
        case DStr(text) => SetString(text);
        case DBin(data) =>
          PackBin(sbuf, |data|);
          sbuf.Write(data);
          assert sbuf.Contents() == before + (PackBinHead(|data|) + data);
      }
    }

    // One call of the interface; the end brackets append nothing.
    method Handle(e: Event)
      requires EventOk(e) && Room(sbuf, |Emits(e)| + 9)
      modifies sbuf, sbuf.data
      ensures sbuf.Valid() && sbuf.Contents() == old(sbuf.Contents()) + Emits(e)
      ensures sbuf.data == old(sbuf.data) || fresh(sbuf.data)
    {
      match e {
        case DictStart(count) => PackMap(sbuf, count);
        case ArrStart(count) => PackArray(sbuf, count);
        case DictEnd => assert sbuf.Contents() == sbuf.Contents() + [];
        case ArrEnd => assert sbuf.Contents() == sbuf.Contents() + [];
        case SetKey(key) => SetString(key);
        case SetValue(v) => TreeFits(v); SetValue(v);
      }
    }

    // A client's whole sequence of calls.
    method HandleAll(es: seq<Event>)
      requires EventsOk(es) && Room(sbuf, |EmitsAll(es)| + 9)
      modifies sbuf, sbuf.data
      ensures sbuf.Valid() && sbuf.Contents() == old(sbuf.Contents()) + EmitsAll(es)
    {
      ghost var goal := sbuf.Contents() + EmitsAll(es);
      var i := 0;
      assert es[0..] == es;
      while i < |es|
        invariant 0 <= i <= |es| && EventsOk(es[i..])
        invariant Room(sbuf, |EmitsAll(es[i..])| + 9) && sbuf.Contents() + EmitsAll(es[i..]) == goal
        invariant sbuf.data == old(sbuf.data) || fresh(sbuf.data)
      {
        HandleNext(es, i);
        i := i + 1;
      }
      assert es[i..] == [] && sbuf.Contents() + [] == sbuf.Contents();
    }

    method HandleNext(es: seq<Event>, i: nat)
      requires i < |es| && EventsOk(es[i..]) && Room(sbuf, |EmitsAll(es[i..])| + 9)
      modifies sbuf, sbuf.data
      ensures EventsOk(es[i + 1..]) && Room(sbuf, |EmitsAll(es[i + 1..])| + 9)
      ensures sbuf.Contents() + EmitsAll(es[i + 1..]) == old(sbuf.Contents()) + EmitsAll(es[i..])
      ensures sbuf.data == old(sbuf.data) || fresh(sbuf.data)
    {
      ghost var before := sbuf.Contents();
      EmitsStep(es, i);
      Handle(es[i]);
      Assoc(before, Emits(es[i]), EmitsAll(es[i + 1..]));
    }
  }
}
