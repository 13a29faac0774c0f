/**
 The zone: a list of chunks, allocation by bumping a pointer in the newest one, and
 clearing back to the first. Addresses are numbers; where malloc puts a new chunk is
 a parameter.
 */
module MsgZone {
  import opened Sizes

  const ALIGN := 8
  // sizeof(msgpack_zone_chunk): the link in front of a chunk's data.
  const LINK := 8

  // The data of a chunk: `size` bytes from `start`, behind its link.
  datatype Chunk = Chunk(start: nat, size: nat)

  datatype Block = Block(addr: nat, size: nat, home: Chunk)

  predicate Separate(a: Chunk, b: Chunk) {
    a.start + a.size + LINK <= b.start || b.start + b.size + LINK <= a.start
  }

  predicate Disjoint(a: Block, b: Block) {
    a.addr + a.size <= b.addr || b.addr + b.size <= a.addr
  }

  // A block inside a chunk's data.
  predicate Holds(c: Chunk, addr: nat, size: nat) {
    c.start <= addr && addr + size <= c.start + c.size
  }

  // What malloc hands out for a link and `size` bytes: the sum is a size_t, so that for
  // the largest sizes it is less than a link.
  function Backed(size: nat): (r: nat)
    requires size < SIZE_MOD
    ensures LINK + size < SIZE_MOD ==> r == size
    ensures LINK + size >= SIZE_MOD ==> r == 0
  {
    var bytes := Wrap(LINK + size);
    if bytes < LINK then 0 else bytes - LINK
  }

  // The chunk malloc makes at `place` for a request of `size` bytes.
  function NewChunk(place: nat, chunkSize: nat, size: nat): Chunk
    requires chunkSize < SIZE_MOD && size < SIZE_MOD
  {
    Chunk(place + LINK, Backed(DoubledSize(chunkSize, size)))
  }

  // A request of `size` bytes gets a chunk that holds them.
  predicate Expands(chunkSize: nat, size: nat)
    requires chunkSize < SIZE_MOD && size < SIZE_MOD
  {
    LINK + DoubledSize(chunkSize, size) < SIZE_MOD
  }

  // The next and the last multiple of ALIGN.
  function AlignUp(p: nat): (r: nat)
    ensures r % ALIGN == 0 && p <= r < p + ALIGN
  {
    (p + (ALIGN - 1)) / ALIGN * ALIGN
  }

  function AlignDown(p: nat): (r: nat)
    ensures r % ALIGN == 0 && r <= p < r + ALIGN
  {
    p / ALIGN * ALIGN
  }

  // Rounding an expanded chunk's data down stays at its start, clear of the link, if
  // and only if malloc's address is aligned.
  lemma ExpandedIsAligned(place: nat)
    ensures AlignDown(place + LINK) == place + LINK <==> place % ALIGN == 0
  {
  }

  class Zone {
    // Newest chunk first.
    var chunks: seq<Chunk>
    var free: nat
    var ptr: nat
    const chunkSize: nat
    // The allocations made since the zone was made or cleared.
    ghost var live: seq<Block>

    ghost predicate ChunksOk()
      reads this
    {
      && chunks != [] && LINK + chunkSize < SIZE_MOD
      && chunks[|chunks| - 1].size == chunkSize && LINK + chunks[0].size < SIZE_MOD
      && (forall i, j :: 0 <= i < j < |chunks| ==> Separate(chunks[i], chunks[j]))
      && chunks[0].start <= ptr && ptr + free == chunks[0].start + chunks[0].size
    }

    // Every live block is inside its chunk, before `limit` if that chunk is the
    // newest, and no two overlap.
    ghost predicate LiveBelow(limit: nat)
      reads this
    {
      && (forall b :: b in live ==> b.home in chunks)
      && (forall b :: b in live ==> b.home.start <= b.addr && b.addr + b.size <= b.home.start + b.home.size)
      && (forall b :: b in live && chunks != [] && b.home == chunks[0] ==> b.addr + b.size <= limit)
      && (forall i, j :: 0 <= i < j < |live| ==> Disjoint(live[i], live[j]))
    }

    ghost predicate Valid()
      reads this
    {
      ChunksOk() && LiveBelow(ptr)
    }

    // A place malloc may choose for a chunk of `size` bytes.
    ghost predicate Vacant(place: nat, size: nat)
      reads this
      requires chunkSize < SIZE_MOD && size < SIZE_MOD
    {
      forall c :: c in chunks ==> Separate(NewChunk(place, chunkSize, size), c)
    }

    // msgpack_zone_init
    constructor (chunkSize: nat, place: nat)
      requires LINK + chunkSize < SIZE_MOD
      ensures Valid() && chunks == [Chunk(place + LINK, chunkSize)] && ptr == place + LINK
      ensures live == [] && this.chunkSize == chunkSize
    {
      this.chunkSize := chunkSize;
      chunks := [Chunk(place + LINK, chunkSize)];
      free := chunkSize;
      ptr := place + LINK;
      live := [];
    }

    // msgpack_zone_malloc_expand: a new chunk, its first `size` bytes taken.
    method Expand(size: nat, place: nat) returns (p: nat)
      requires Valid() && size < SIZE_MOD && Vacant(place, size)
      modifies this`chunks, this`free, this`ptr
      ensures p == place + LINK && live == old(live)
      ensures chunks == [NewChunk(place, chunkSize, size)] + old(chunks)
      ensures ptr == p + size
      ensures Expands(chunkSize, size) ==> Valid()
    {
      ghost var before := chunks;
      var sz := Doubled(chunkSize, size);
      var chunk := Chunk(place + LINK, Backed(sz));
      chunks := [chunk] + chunks;
      free := sz - size;
      ptr := chunk.start + size;
      p := chunk.start;
      forall i, j | 0 <= i < j < |chunks|
        ensures Separate(chunks[i], chunks[j])
      {
        assert chunks[j] == before[j - 1] && before[j - 1] in before;
        if i > 0 { assert chunks[i] == before[i - 1]; }
      }
      assert forall b :: b in live ==> b.home != chunk;
    }

    // Records an allocation in the newest chunk at or above the old bump pointer.
    ghost method Record(b: Block, from: nat)
      requires ChunksOk() && LiveBelow(from) && b.home == chunks[0]
      requires from <= b.addr && b.addr + b.size <= ptr && from <= ptr && chunks[0].start <= b.addr
      modifies this`live
      ensures Valid() && live == old(live) + [b]
    {
      forall c | c in live
        ensures Disjoint(c, b)
      {
        if c.home != chunks[0] {
          var k :| 0 <= k < |chunks| && chunks[k] == c.home;
          assert Separate(chunks[0], chunks[k]);
        }
      }
      live := live + [b];
    }

    // Whether the newest chunk or a new one has room for a request, aligned or not.
    predicate Serves(size: nat)
      reads this
      requires ChunksOk()
    {
      size + (AlignUp(ptr) - ptr) <= free || (size + (ALIGN - 1) < SIZE_MOD && Expands(chunkSize, size + (ALIGN - 1)))
    }

    predicate ServesUnaligned(size: nat)
      reads this
      requires ChunksOk() && size < SIZE_MOD
    {
      size <= free || Expands(chunkSize, size)
    }

    // msgpack_zone_malloc. malloc's addresses are aligned. The two sums are size_t, so the largest
    // requests get a pointer to less than they asked for.
    method Malloc(size: nat, place: nat) returns (p: nat)
      requires Valid() && size < SIZE_MOD
      requires place % ALIGN == 0 && Vacant(place, Wrap(size + (ALIGN - 1)))
      modifies this
      ensures p % ALIGN == 0 && chunks != []
      ensures Holds(chunks[0], p, size) <==> old(Serves(size))
      ensures old(Serves(size)) ==> Valid() && live == old(live) + [Block(p, size, chunks[0])]
      ensures !old(Serves(size)) ==> live == old(live)
    {
      var aligned := AlignUp(ptr);
      var adjusted := Wrap(size + (aligned - ptr));
      WrapOnce(size + (aligned - ptr));
      if free >= adjusted {
        p := Bump(size, aligned, adjusted);
      } else {
        p := ExpandAligned(size, place);
      }
    }

    // Takes the block from the newest chunk.
    method Bump(size: nat, aligned: nat, adjusted: nat) returns (p: nat)
      requires Valid() && size < SIZE_MOD && aligned == AlignUp(ptr) && adjusted <= free
      requires adjusted == size + (aligned - ptr) || adjusted == size + (aligned - ptr) - SIZE_MOD
      modifies this
      ensures p == aligned && chunks == old(chunks)
      ensures Holds(chunks[0], p, size) <==> adjusted == size + (aligned - old(ptr))
      ensures Holds(chunks[0], p, size) ==> Valid() && live == old(live) + [Block(p, size, chunks[0])]
      ensures !Holds(chunks[0], p, size) ==> live == old(live)
    {
      ghost var from := ptr;
      free := free - adjusted;
      ptr := ptr + adjusted;
      p := aligned;
      if adjusted == size + (aligned - from) {
        Record(Block(p, size, chunks[0]), from);
      }
    }

    // Takes the block from a new chunk.
    method ExpandAligned(size: nat, place: nat) returns (p: nat)
      requires Valid() && size < SIZE_MOD
      requires place % ALIGN == 0 && Vacant(place, Wrap(size + (ALIGN - 1)))
      modifies this
      ensures p % ALIGN == 0 && chunks != []
      ensures Holds(chunks[0], p, size) <==> size + (ALIGN - 1) < SIZE_MOD && Expands(chunkSize, size + (ALIGN - 1))
      ensures Holds(chunks[0], p, size) ==> Valid() && live == old(live) + [Block(p, size, chunks[0])]
      ensures !Holds(chunks[0], p, size) ==> live == old(live)
    {
      UnservedIsExpanded(chunkSize, size);
      p := Expand(Wrap(size + (ALIGN - 1)), place);
      ExpandedIsAligned(place);
      p := AlignDown(p);
      if size + (ALIGN - 1) < SIZE_MOD && Expands(chunkSize, size + (ALIGN - 1)) {
        WrapOnce(size + (ALIGN - 1));
        assert LiveBelow(p);
        Record(Block(p, size, chunks[0]), p);
      }
    }

    // msgpack_zone_malloc_no_align
    method MallocNoAlign(size: nat, place: nat) returns (p: nat)
      requires Valid() && size < SIZE_MOD && Vacant(place, size)
      modifies this
      ensures chunks != []
      ensures Holds(chunks[0], p, size) <==> old(ServesUnaligned(size))
      ensures old(ServesUnaligned(size)) ==> Valid() && live == old(live) + [Block(p, size, chunks[0])]
      ensures !old(ServesUnaligned(size)) ==> live == old(live)
    {
      ghost var serves := ServesUnaligned(size);
      if free < size {
        p := Expand(size, place);
        if serves {
          assert LiveBelow(p);
          Record(Block(p, size, chunks[0]), p);
        }
        return;
      }
      p := ptr;
      free := free - size;
      ptr := ptr + size;
      Record(Block(p, size, chunks[0]), p);
    }

    // clear_chunk_list: frees every chunk but the last, which is the first one made
    // and has the size the free count is set to.
    method Clear()
      requires Valid()
      modifies this
      ensures Valid() && live == [] && chunks == [old(chunks)[|old(chunks)| - 1]]
      ensures ptr == chunks[0].start && free == chunks[0].size == chunkSize
    {
      var c := 0;
      while c + 1 < |chunks|
        invariant 0 <= c < |chunks|
      {
        c := c + 1;
      }
      chunks := [chunks[c]];
      free := chunkSize;
      ptr := chunks[0].start;
      live := [];
    }
  }

  // For an aligned request the wrapped size of the new chunk is enough exactly when nothing wraps.
  lemma UnservedIsExpanded(chunkSize: nat, size: nat)
    requires LINK + chunkSize < SIZE_MOD && size < SIZE_MOD
    ensures
      var chunk := Backed(DoubledSize(chunkSize, Wrap(size + (ALIGN - 1))));
      size <= chunk <==> size + (ALIGN - 1) < SIZE_MOD && Expands(chunkSize, size + (ALIGN - 1))
  {
    WrapOnce(size + (ALIGN - 1));
  }

  // A request for all but one of the addresses comes back as a block its chunk does not hold.
  method HugeMalloc(place: nat, next: nat) returns (z: Zone, p: nat)
    requires next % ALIGN == 0 && place + 8192 + LINK < next
    ensures z.chunks != [] && !Holds(z.chunks[0], p, SIZE_MOD - 1)
  {
    z := new Zone(8192, place);
    p := z.Malloc(SIZE_MOD - 1, next);
  }
}
