/** The block-grown array under the JSON writer. */
module SaBuffer {
  import Bytes

  // CC_AUTO_BUFFER_ONE_BLOCK_SIZE, in bytes
  const ONE_BLOCK := 1024

  // The block count SABuffer_realloc settles on for `count` elements in blocks of `one`.
  function Blocks(blocks: nat, count: nat, one: nat): nat
    requires one > 0
  {
    var allocating := one * blocks;
    if allocating < count then blocks + (count - allocating) / one + 1
    else
      var detach := (allocating - count) / one;
      if blocks <= detach then 1 else blocks - detach
  }

  // The settled blocks hold the elements.
  lemma BlocksFit(blocks: nat, count: nat, one: nat)
    requires one > 0 && blocks > 0
    ensures var r := Blocks(blocks, count, one);
      r > 0 && count <= one * r
  {
    var allocating := one * blocks;
    var gap := if allocating < count then count - allocating else allocating - count;
    var q := gap / one;
    assert gap == one * q + gap % one;
    if allocating < count {
      assert one * (blocks + q + 1) == allocating + one * q + one;
    } else if q < blocks {
      assert one * (blocks - q) == allocating - one * q;
    } else {
      assert one * q >= one * blocks;
    }
  }

  // Shrinking leaves as many blocks as the elements fill, and one at least; growing may leave one more.
  lemma BlocksExactly(blocks: nat, count: nat, one: nat)
    requires one > 0
    ensures var r := Blocks(blocks, count, one);
      if one * blocks < count then r == count / one + 1
      else if count == 0 then r == 1
      else one * (r - 1) < count <= one * r
  {
    if one * blocks < count {
      BlocksGrow(blocks, count, one, count - one * blocks);
    } else if count == 0 {
      Bytes.ModUnique(one * blocks, one, blocks, 0);
    } else {
      BlocksShrink(blocks, count, one, one * blocks - count);
    }
  }

  lemma BlocksGrow(blocks: nat, count: nat, one: nat, gap: nat)
    requires one > 0 && count == one * blocks + gap
    ensures count / one == blocks + gap / one
  {
    var q := gap / one;
    assert gap == one * q + gap % one;
    assert one * (blocks + q) == one * blocks + one * q;
    Bytes.ModUnique(count, one, blocks + q, gap % one);
  }

  lemma BlocksShrink(blocks: nat, count: nat, one: nat, gap: nat)
    requires one > 0 && 0 < count && count + gap == one * blocks
    ensures var q := gap / one;
      q < blocks && one * (blocks - q - 1) < count <= one * (blocks - q)
  {
    var q := gap / one;
    assert gap == one * q + gap % one;
    assert q >= blocks ==> one * q >= one * blocks;
    assert one * (blocks - q) == one * blocks - one * q;
    assert one * (blocks - q - 1) == one * (blocks - q) - one;
  }

  // memmove inside one block
  method Move<T>(a: array<T>, to: nat, from: nat, n: nat)
    requires to + n <= a.Length && from + n <= a.Length
    modifies a
    ensures a[..] == old(a[..])[..to] + old(a[..])[from..from + n] + old(a[..])[to + n..]
  {
    forall i | 0 <= i < n {
      a[to + i] := a[from + i];
    }
  }

  // memcpy into a block
  method Copy<T>(a: array<T>, at: nat, data: seq<T>)
    requires at + |data| <= a.Length
    modifies a
    ensures a[..] == old(a[..])[..at] + data + old(a[..])[at + |data|..]
  {
    forall i | 0 <= i < |data| {
      a[at + i] := data[i];
    }
  }

  // Opening a gap of |data| at `index` and filling it is an insertion.
  lemma GapFilled<T>(block: seq<T>, count: nat, index: nat, data: seq<T>)
    requires index <= count && count + |data| <= |block|
    ensures
      var moved := block[..index + |data|] + block[index..count] + block[count + |data|..];
      |moved| == |block|
      && (moved[..index] + data + moved[index + |data|..])[..count + |data|]
         == block[..count][..index] + data + block[..count][index..]
  {
  }

  method Insert<T>(a: array<T>, count: nat, index: nat, data: seq<T>)
    requires index <= count && count + |data| <= a.Length
    modifies a
    ensures a[..count + |data|] == old(a[..count])[..index] + data + old(a[..count])[index..]
  {
    ghost var block := a[..];
    GapFilled(block, count, index, data);
    Move(a, index + |data|, index, count - index);
    Copy(a, index, data);
    assert a[..count + |data|] == a[..][..count + |data|];
    assert block[..count] == old(a[..count]);
  }

  lemma GapClosed<T>(block: seq<T>, count: nat, index: nat, n: nat)
    requires index + n <= count <= |block|
    ensures
      var moved := block[..index] + block[index + n..count] + block[count - n..];
      |moved| == |block| && moved[..count - n] == block[..count][..index] + block[..count][index + n..]
  {
  }

  lemma Overwritten<T>(block: seq<T>, count: nat, index: nat, data: seq<T>)
    requires index + |data| <= count <= |block|
    ensures
      (block[..index] + data + block[index + |data|..])[..count]
      == block[..count][..index] + data + block[..count][index + |data|..]
  {
  }

  // Elements of any size; a block holds as many as fit in its bytes.
  class Buffer<T(0)> {
    const oneBlockCount: nat
    var dataCount: nat
    var blockCount: nat
    var buffer: array<T>

    ghost predicate Valid()
      reads this
    {
      oneBlockCount > 0 && blockCount > 0 && buffer.Length == oneBlockCount * blockCount && dataCount <= buffer.Length
    }

    ghost function Contents(): (s: seq<T>)
      reads this, buffer
      requires Valid()
      ensures |s| == dataCount
    {
      buffer[..dataCount]
    }

    constructor (oneDataSize: nat)
      requires 0 < oneDataSize <= ONE_BLOCK
      ensures Valid() && Contents() == [] && fresh(buffer)
    {
      dataCount, blockCount, oneBlockCount := 0, 1, ONE_BLOCK / oneDataSize;
      buffer := new T[ONE_BLOCK / oneDataSize];
    }

    // SABuffer_realloc, with `live` elements of the old block worth keeping.
    method Realloc(ghost live: nat)
      requires oneBlockCount > 0 && blockCount > 0 && buffer.Length == oneBlockCount * blockCount
      requires live <= buffer.Length && live <= dataCount
      modifies this`blockCount, this`buffer
      ensures Valid() && buffer[..live] == old(buffer[..live])
      ensures buffer == old(buffer) || fresh(buffer)
    {
      var next := Blocks(blockCount, dataCount, oneBlockCount);
      BlocksFit(blockCount, dataCount, oneBlockCount);
      if next != blockCount {
        var tmp := new T[oneBlockCount * next];
        var n := if tmp.Length < buffer.Length then tmp.Length else buffer.Length;
        forall i | 0 <= i < n {
          tmp[i] := buffer[i];
        }
        assert tmp[..live] == buffer[..live];
        buffer := tmp;
        blockCount := next;
      }
    }

    method InsertStream(index: nat, data: seq<T>)
      requires Valid()
      modifies this, buffer
      ensures Valid() && (buffer == old(buffer) || fresh(buffer))
      ensures Contents() ==
        if old(dataCount) < index then old(Contents()) else old(Contents())[..index] + data + old(Contents())[index..]
    {
      if dataCount < index {
        return;
      }
      var befoCount := dataCount;
      dataCount := dataCount + |data|;
      Realloc(befoCount);
      Insert(buffer, befoCount, index, data);
    }

    // SABuffer_add and SABuffer_add_stream
    method Add(data: seq<T>)
      requires Valid()
      modifies this, buffer
      ensures Valid() && (buffer == old(buffer) || fresh(buffer))
      ensures Contents() == old(Contents()) + data
    {
      ghost var was := Contents();
      InsertStream(dataCount, data);
      assert was[..|was|] + data + was[|was|..] == was + data;
    }

    method ReplaceStream(index: nat, data: seq<T>)
      requires Valid()
      modifies buffer
      ensures Valid()
      ensures Contents() ==
        if dataCount < index + |data| then old(Contents())
        else old(Contents())[..index] + data + old(Contents())[index + |data|..]
    {
      if dataCount < index + |data| {
        return;
      }
      ghost var block := buffer[..];
      Overwritten(block, dataCount, index, data);
      Copy(buffer, index, data);
      assert old(Contents()) == block[..dataCount] && Contents() == buffer[..][..dataCount];
    }

    method RemoveStream(index: nat, count: nat)
      requires Valid()
      modifies this, buffer
      ensures Valid() && (buffer == old(buffer) || fresh(buffer))
      ensures Contents() ==
        if old(dataCount) < index + count then old(Contents())
        else old(Contents())[..index] + old(Contents())[index + count..]
    {
      if dataCount < index + count {
        return;
      }
      var befoCount := dataCount;
      dataCount := dataCount - count;
      ghost var block := buffer[..];
      assert block[..befoCount] == old(Contents());
      GapClosed(block, befoCount, index, count);
      Move(buffer, index, index + count, befoCount - (index + count));
      assert buffer[..dataCount] == buffer[..][..dataCount];
      Realloc(dataCount);
    }
  }
}
