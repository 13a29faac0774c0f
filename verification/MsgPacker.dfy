/**
 The encoder as it runs: packers that pick a form by range tests and append it to
 a doubling buffer, and msgpack_pack_object over them.
 */
module MsgPacker {
  import opened Bytes
  import opened MsgPack
  import opened Sizes

  const SBUFFER_INIT_SIZE := 8192

  // msgpack_sbuffer
  class SBuffer {
    var size: nat
    var alloc: nat
    var data: array<byte>

    ghost predicate Valid()
      reads this
    {
      size <= alloc == data.Length < SIZE_MOD
    }

    ghost function Contents(): seq<byte>
      reads this, data
      requires Valid()
    {
      data[..size]
    }

    constructor ()
      ensures Valid() && Contents() == [] && fresh(data)
    {
      data := new byte[0];
      size, alloc := 0, 0;
    }

    method Grow(len: nat)
      requires Valid() && size + len < SIZE_MOD
      modifies this`data, this`alloc
      ensures Valid() && alloc - size >= len && Contents() == old(Contents()) && fresh(data)
    {
      var nsize := Doubled(if alloc != 0 then Wrap(alloc * 2) else SBUFFER_INIT_SIZE, size + len);
      var tmp := new byte[nsize](_ => 0);
      forall i | 0 <= i < size {
        tmp[i] := data[i];
      }
      assert forall i | 0 <= i < size :: tmp[i] == data[i];
      data, alloc := tmp, nsize;
    }

    // msgpack_sbuffer_write
    method Write(buf: seq<byte>)
      requires Valid() && size + |buf| < SIZE_MOD
      modifies this, data
      ensures Valid() && Contents() == old(Contents()) + buf
      ensures data == old(data) || fresh(data)
    {
      if alloc - size < |buf| {
        Grow(|buf|);
      }
      Copy(buf);
      size := size + |buf|;
    }

    // memcpy behind the contents.
    method Copy(buf: seq<byte>)
      requires Valid() && size + |buf| <= alloc
      modifies data
      ensures data[..size + |buf|] == old(Contents()) + buf
    {
      ghost var before := Contents();
      forall i | 0 <= i < |buf| {
        data[size + i] := buf[i];
      }
      assert data[..size] == before && data[size..size + |buf|] == buf;
      assert data[..size + |buf|] == data[..size] + data[size..size + |buf|];
    }
  }

  // Room for n more bytes below the end of the address space; allocation succeeds.
  ghost predicate Room(sink: SBuffer, n: nat)
    reads sink
  {
    sink.Valid() && sink.size + n < SIZE_MOD
  }

  // A value of an unsigned or signed C integer type of `width` bytes.
  predicate IsUint(d: int, width: nat) {
    0 <= d < Range(width)
  }

  predicate IsInt(d: int, width: nat) {
    0 <= 2 * d + Range(width) < 2 * Range(width)
  }

  // ---- the integer ladders ------------------------------------------------------
  // Each packs exactly the shortest form, whatever type the value came in.

  // TAKE8_n(d): the low byte of the value's pattern.
  function Take8(d: int): byte {
    d % 0x100
  }

  method PackUint8(sink: SBuffer, d: int)
    requires IsUint(d, 1) && Room(sink, 2)
    modifies sink, sink.data
    ensures sink.Valid() && sink.Contents() == old(sink.Contents()) + PackInt(d)
    ensures sink.data == old(sink.data) || fresh(sink.data)
  {
    if d < 0x80 {
      sink.Write([Take8(d)]);
    } else {
      sink.Write([0xcc, Take8(d)]);
    }
  }

  method PackUint16(sink: SBuffer, d: int)
    requires IsUint(d, 2) && Room(sink, 3)
    modifies sink, sink.data
    ensures sink.Valid() && sink.Contents() == old(sink.Contents()) + PackInt(d)
    ensures sink.data == old(sink.data) || fresh(sink.data)
  {
    if d < 0x80 {
      sink.Write([Take8(d)]);
    } else if d < 0x100 {
      sink.Write([0xcc, Take8(d)]);
    } else {
      sink.Write([0xcd] + Store(d, 2));
    }
  }

  method PackUint32(sink: SBuffer, d: int)
    requires IsUint(d, 4) && Room(sink, 5)
    modifies sink, sink.data
    ensures sink.Valid() && sink.Contents() == old(sink.Contents()) + PackInt(d)
    ensures sink.data == old(sink.data) || fresh(sink.data)
  {
    Ranges();
    if d < 0x100 {
      if d < 0x80 {
        sink.Write([Take8(d)]);
      } else {
        sink.Write([0xcc, Take8(d)]);
      }
    } else {
      if d < 0x1_0000 {
        sink.Write([0xcd] + Store(d, 2));
      } else {
        sink.Write([0xce] + Store(d, 4));
      }
    }
  }

  method PackUint64(sink: SBuffer, d: int)
    requires 0 <= d < LONG && Room(sink, 9)
    modifies sink, sink.data
    ensures sink.Valid() && sink.Contents() == old(sink.Contents()) + PackInt(d)
    ensures sink.data == old(sink.data) || fresh(sink.data)
  {
    Ranges();
    if d < 0x100 {
      if d < 0x80 {
        sink.Write([Take8(d)]);
      } else {
        sink.Write([0xcc, Take8(d)]);
      }
    } else {
      if d < 0x1_0000 {
        sink.Write([0xcd] + Store(d, 2));
      } else if d < 0x1_0000_0000 {
        sink.Write([0xce] + Store(d, 4));
      } else {
        sink.Write([0xcf] + Store(d, 8));
      }
    }
  }

  method PackInt8(sink: SBuffer, d: int)
    requires IsInt(d, 1) && Room(sink, 2)
    modifies sink, sink.data
    ensures sink.Valid() && sink.Contents() == old(sink.Contents()) + PackInt(d)
    ensures sink.data == old(sink.data) || fresh(sink.data)
  {
    if d < -0x20 {
      sink.Write([0xd0, Take8(d)]);
    } else {
      sink.Write([Take8(d)]);
    }
  }

  method PackInt16(sink: SBuffer, d: int)
    requires IsInt(d, 2) && Room(sink, 3)
    modifies sink, sink.data
    ensures sink.Valid() && sink.Contents() == old(sink.Contents()) + PackInt(d)
    ensures sink.data == old(sink.data) || fresh(sink.data)
  {
    if d < -0x20 {
      if d < -0x80 {
        sink.Write([0xd1] + Store(Pattern(d, 2), 2));
      } else {
        sink.Write([0xd0, Take8(d)]);
      }
    } else if d < 0x80 {
      sink.Write([Take8(d)]);
    } else {
      if d < 0x100 {
        sink.Write([0xcc, Take8(d)]);
      } else {
        sink.Write([0xcd] + Store(d, 2));
      }
    }
  }

  method PackInt32(sink: SBuffer, d: int)
    requires IsInt(d, 4) && Room(sink, 5)
    modifies sink, sink.data
    ensures sink.Valid() && sink.Contents() == old(sink.Contents()) + PackInt(d)
    ensures sink.data == old(sink.data) || fresh(sink.data)
  {
    Ranges();
    if d < -0x20 {
      if d < -0x8000 {
        sink.Write([0xd2] + Store(Pattern(d, 4), 4));
      } else if d < -0x80 {
        sink.Write([0xd1] + Store(Pattern(d, 2), 2));
      } else {
        sink.Write([0xd0, Take8(d)]);
      }
    } else if d < 0x80 {
      sink.Write([Take8(d)]);
    } else {
      if d < 0x100 {
        sink.Write([0xcc, Take8(d)]);
      } else if d < 0x1_0000 {
        sink.Write([0xcd] + Store(d, 2));
      } else {
        sink.Write([0xce] + Store(d, 4));
      }
    }
  }

  method PackInt64(sink: SBuffer, d: int)
    requires -(LONG / 2) <= d < LONG / 2 && Room(sink, 9)
    modifies sink, sink.data
    ensures sink.Valid() && sink.Contents() == old(sink.Contents()) + PackInt(d)
    ensures sink.data == old(sink.data) || fresh(sink.data)
  {
    Ranges();
    if d < -0x20 {
      if d < -0x8000 {
        if d < -0x8000_0000 {
          sink.Write([0xd3] + Store(Pattern(d, 8), 8));
        } else {
          sink.Write([0xd2] + Store(Pattern(d, 4), 4));
        }
      } else {
        if d < -0x80 {
          sink.Write([0xd1] + Store(Pattern(d, 2), 2));
        } else {
          sink.Write([0xd0, Take8(d)]);
        }
      }
    } else if d < 0x80 {
      sink.Write([Take8(d)]);
    } else {
      if d < 0x1_0000 {
        if d < 0x100 {
          sink.Write([0xcc, Take8(d)]);
        } else {
          sink.Write([0xcd] + Store(d, 2));
        }
      } else {
        if d < 0x1_0000_0000 {
          sink.Write([0xce] + Store(d, 4));
        } else {
          sink.Write([0xcf] + Store(d, 8));
        }
      }
    }
  }

  // ---- headers ---------------------------------------------------------------------

  method PackArray(sink: SBuffer, n: nat)
    requires Room(sink, 5)
    modifies sink, sink.data
    ensures sink.Valid() && sink.Contents() == old(sink.Contents()) + PackArrHead(n)
    ensures sink.data == old(sink.data) || fresh(sink.data)
  {
    if n < 16 {
      sink.Write([0x90 + n]);
    } else if n < 65536 {
      sink.Write([0xdc] + Store(n, 2));
    } else {
      sink.Write([0xdd] + Store(n, 4));
    }
  }

  method PackMap(sink: SBuffer, n: nat)
    requires Room(sink, 5)
    modifies sink, sink.data
    ensures sink.Valid() && sink.Contents() == old(sink.Contents()) + PackMapHead(n)
    ensures sink.data == old(sink.data) || fresh(sink.data)
  {
    if n < 16 {
      sink.Write([0x80 + n]);
    } else if n < 65536 {
      sink.Write([0xde] + Store(n, 2));
    } else {
      sink.Write([0xdf] + Store(n, 4));
    }
  }

  method PackStr(sink: SBuffer, l: nat)
    requires Room(sink, 5)
    modifies sink, sink.data
    ensures sink.Valid() && sink.Contents() == old(sink.Contents()) + PackStrHead(l)
    ensures sink.data == old(sink.data) || fresh(sink.data)
    ensures sink.size <= old(sink.size) + 5
  {
    if l < 32 {
      sink.Write([0xa0 + l]);
    } else if l < 256 {
      sink.Write([0xd9, Take8(l)]);
    } else if l < 65536 {
      sink.Write([0xda] + Store(l, 2));
    } else {
      sink.Write([0xdb] + Store(l, 4));
    }
  }

  method PackBin(sink: SBuffer, l: nat)
    requires Room(sink, 5)
    modifies sink, sink.data
    ensures sink.Valid() && sink.Contents() == old(sink.Contents()) + PackBinHead(l)
    ensures sink.data == old(sink.data) || fresh(sink.data)
  {
    if l < 256 {
      sink.Write([0xc4, Take8(l)]);
    } else if l < 65536 {
      sink.Write([0xc5] + Store(l, 2));
    } else {
      sink.Write([0xc6] + Store(l, 4));
    }
  }

  method PackExt(sink: SBuffer, l: nat, kind: int)
    requires -128 <= kind < 128 && Room(sink, 6)
    modifies sink, sink.data
    ensures Pattern(kind, 1) < 0x100
    ensures sink.Valid() && sink.Contents() == old(sink.Contents()) + (PackExtSize(l) + [Pattern(kind, 1)])
    ensures sink.data == old(sink.data) || fresh(sink.data)
  {
    Ranges();
    var t := Take8(kind);
    match l {
      case 1 => sink.Write([0xd4, t]);
      case 2 => sink.Write([0xd5, t]);
      case 4 => sink.Write([0xd6, t]);
      case 8 => sink.Write([0xd7, t]);
      case 16 => sink.Write([0xd8, t]);
      case _ =>
        if l < 256 {
          sink.Write([0xc7, Take8(l), t]);
        } else if l < 65536 {
          sink.Write([0xc8] + Store(l, 2) + [t]);
        } else {
          sink.Write([0xc9] + Store(l, 4) + [t]);
        }
    }
  }

  // ---- msgpack_pack_object -----------------------------------------------------------

  method PackScalar(sink: SBuffer, o: Obj)
    requires Fits(o) && !o.Str? && !o.Bin? && !o.Ext? && !o.Arr? && !o.Map? && Room(sink, |Pack(o)| + 9)
    modifies sink, sink.data
    ensures sink.Valid() && sink.Contents() == old(sink.Contents()) + Pack(o)
    ensures sink.data == old(sink.data) || fresh(sink.data)
  {
    match o {
      case Nil => sink.Write([0xc0]);
      case Bool(b) => sink.Write([if b then 0xc3 else 0xc2]);
      case Pos(u) => PackUint64(sink, u);
      case Neg(i) => PackInt64(sink, i);
      case F32(bits) => sink.Write([0xca] + Store(bits, 4));
      case F64(bits) => sink.Write([0xcb] + Store(bits, 8));
    }
  }

  method PackBlob(sink: SBuffer, o: Obj)
    requires Fits(o) && (o.Str? || o.Bin? || o.Ext?) && Room(sink, |Pack(o)| + 9)
    modifies sink, sink.data
    ensures sink.Valid() && sink.Contents() == old(sink.Contents()) + Pack(o)
    ensures sink.data == old(sink.data) || fresh(sink.data)
  {
    ghost var before := sink.Contents();
    match o {
      case Str(text) =>
        PackStr(sink, |text|);
        sink.Write(text);
        Laid(before, PackStrHead(|text|), text);
      case Bin(data) =>
        PackBin(sink, |data|);
        sink.Write(data);
        Laid(before, PackBinHead(|data|), data);
      case Ext(kind, data) =>
        PackExt(sink, |data|, kind);
        sink.Write(data);
        Laid(before, PackExtSize(|data|) + [Pattern(kind, 1)], data);
    }
  }

  lemma Laid(before: seq<byte>, head: seq<byte>, body: seq<byte>)
    ensures before + head + body == before + (head + body)
  {
  }

  method PackObject(sink: SBuffer, o: Obj)
    requires Fits(o) && Room(sink, |Pack(o)| + 9)
    modifies sink, sink.data
    ensures sink.Valid() && sink.Contents() == old(sink.Contents()) + Pack(o)
    ensures sink.data == old(sink.data) || fresh(sink.data)
    decreases o, 1
  {
    ghost var before := sink.Contents();
    match o {
      case Arr(items) =>
        PackArray(sink, |items|);
        PackItems(sink, items);
        Laid(before, PackArrHead(|items|), PackAll(items));
      case Map(cells) =>
        PackMap(sink, |cells| / 2);
        PackItems(sink, cells);
        Laid(before, PackMapHead(|cells| / 2), PackAll(cells));
      case Str(_) => PackBlob(sink, o);
      case Bin(_) => PackBlob(sink, o);
      case Ext(_, _) => PackBlob(sink, o);
      case _ => PackScalar(sink, o);
    }
  }

  // The element loops; a map's cells are its keys and values in turn.
  method PackItems(sink: SBuffer, items: seq<Obj>)
    requires AllFit(items) && Room(sink, |PackAll(items)| + 9)
    modifies sink, sink.data
    ensures sink.Valid() && sink.Contents() == old(sink.Contents()) + PackAll(items)
    ensures sink.data == old(sink.data) || fresh(sink.data)
    decreases items, 0
  {
    ghost var before := sink.Contents();
    assert items[0..] == items;
    var i := 0;
    while i < |items|
      invariant 0 <= i <= |items| && AllFit(items[i..])
      invariant sink.Valid() && sink.Contents() + PackAll(items[i..]) == before + PackAll(items)
      invariant sink.data == old(sink.data) || fresh(sink.data)
    {
      ghost var done, rest := sink.Contents(), items[i + 1..];
      assert items[i..][0] == items[i] && items[i..][1..] == rest;
      PackObject(sink, items[i]);
      assert done + (Pack(items[i]) + PackAll(rest)) == sink.Contents() + PackAll(rest);
      i := i + 1;
    }
    assert items[i..] == [];
  }
}
