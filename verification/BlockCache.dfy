/** The write-back block cache of common/block.c. */
module BlockCache {
  import opened Bytes
  import opened Seqs
  import opened BlockModel
  import opened FlatMemory
  import opened WorkingSet

  const ENXIO: int := -6
  const EINVAL: int := -22
  const EOPNOTSUPP: int := -95

  /** Number of chunk buffers of a block device. */
  const CHUNKS: nat := 8

  /** An erasure the driver was asked for: which blocks, and what they held afterwards. */
  datatype Erasure = Erasure(start: nat, count: nat, left: seq<Block>)

  /**
   The driver below the cache.  An unreliable device may fail any request, leaving anything in the requested range.
   */
  class Device {
    const g: Geometry
    const reliable: bool
    const canErase: bool
    var blocks: seq<Block>
    /** The windows read and the erasures done so far. */
    ghost var log: seq<nat>
    ghost var erasures: seq<Erasure>
    /** What the last successful flush has made safe. */
    ghost var safe: seq<Block>

    constructor (g: Geometry, reliable: bool, canErase: bool, blocks: seq<Block>)
      ensures this.g == g && this.reliable == reliable && this.canErase == canErase
      ensures this.blocks == blocks && log == [] && erasures == []
    {
      this.g, this.reliable, this.canErase, this.blocks := g, reliable, canErase, blocks;
      log, erasures, safe := [], [], blocks;
    }

    ghost predicate Valid()
      reads this
    {
      Sized(blocks, g.numBlocks, g.blockSize)
    }

    method Read(buf: array<Block>, start: nat, len: nat) returns (ret: int)
      requires Valid() && start + len <= g.numBlocks && len <= buf.Length
      requires Sized(buf[..], buf.Length, g.blockSize)
      modifies buf, this`log
      ensures ret <= 0 && (reliable ==> ret == 0)
      ensures Sized(buf[..], buf.Length, g.blockSize)
      ensures ret == 0 ==> log == old(log) + [start]
      ensures ret == 0 ==> forall k :: 0 <= k < len ==> buf[k] == blocks[start + k]
    {
      ret := Outcome();
      if ret == 0 {
        forall k | 0 <= k < len {
          buf[k] := blocks[start + k];
        }
        log := log + [start];
      } else {
        var junk: seq<Block> := *;
        if Sized(junk, len, g.blockSize) {
          forall k | 0 <= k < len {
            buf[k] := junk[k];
          }
        }
      }
    }

    method Write(buf: array<Block>, start: nat, len: nat) returns (ret: int)
      requires Valid() && start + len <= g.numBlocks && len <= buf.Length
      requires Sized(buf[..], buf.Length, g.blockSize)
      modifies this`blocks
      ensures Valid()
      ensures ret <= 0 && (reliable ==> ret == 0)
      ensures forall b :: 0 <= b < g.numBlocks && !(start <= b < start + len) ==> blocks[b] == old(blocks[b])
      ensures ret == 0 ==> forall b :: start <= b < start + len ==> blocks[b] == buf[b - start]
    {
      ret := Outcome();
      if ret == 0 {
        blocks := blocks[..start] + buf[..len] + blocks[start + len..];
      } else {
        Scribble(start, len);
      }
    }

    /** Erases blocks, with any result in them, or refuses a range that is not on the device. */
    method Erase(start: nat, count: nat) returns (ret: int)
      requires Valid()
      modifies this`blocks, this`erasures
      ensures Valid()
      ensures ret <= 0 && (reliable && start + count <= g.numBlocks ==> ret == 0)
      ensures forall b :: 0 <= b < g.numBlocks && !(start <= b < start + count) ==> blocks[b] == old(blocks[b])
      ensures if start + count <= g.numBlocks
              then erasures == old(erasures) + [Erasure(start, count, blocks[start..start + count])]
              else erasures == old(erasures) && blocks == old(blocks) && ret < 0
    {
      if g.numBlocks < start + count {
        return EINVAL;
      }
      ret := Outcome();
      Scribble(start, count);
      erasures := erasures + [Erasure(start, count, blocks[start..start + count])];
    }

    method Flush() returns (ret: int)
      modifies this`safe
      ensures ret <= 0 && (reliable ==> ret == 0)
      ensures safe == if ret == 0 then blocks else old(safe)
    {
      ret := Outcome();
      if ret == 0 {
        safe := blocks;
      }
    }

    method Outcome() returns (ret: int)
      ensures ret <= 0 && (reliable ==> ret == 0)
    {
      ret := *;
      if reliable || ret > 0 {
        ret := 0;
      }
    }

    /** Leaves arbitrary contents in a range. */
    method Scribble(start: nat, len: nat)
      requires Valid() && start + len <= g.numBlocks
      modifies this`blocks
      ensures Valid()
      ensures forall b :: 0 <= b < g.numBlocks && !(start <= b < start + len) ==> blocks[b] == old(blocks[b])
    {
      var junk: seq<Block> := *;
      if Sized(junk, len, g.blockSize) {
        blocks := blocks[..start] + junk + blocks[start + len..];
      }
    }
  }

  /** The part of a chunk that lies on the device is zeros. */
  predicate AllZero(g: Geometry, c: Buf) {
    && c.start <= g.numBlocks
    && IoBlocks(g, c.start) <= |c.data|
    && forall k :: 0 <= k < IoBlocks(g, c.start) ==> c.data[k] == ZeroBytes(g.blockSize)
  }

  class Chunk {
    const data: array<Block>
    var blockStart: nat
    var dirty: bool

    constructor (g: Geometry)
      ensures fresh(data) && data.Length == g.rdbufsize && !dirty
      ensures Sized(data[..], g.rdbufsize, g.blockSize)
    {
      data := new Block[g.rdbufsize](_ => ZeroBytes(g.blockSize));
      blockStart, dirty := 0, false;
    }

    ghost function Snap(): Buf
      reads this, data
    {
      Buf(blockStart, dirty, data[..])
    }
  }

  /** The eight chunk buffers of blockdevice_register. */
  method AllocChunks(g: Geometry) returns (pool: seq<Chunk>)
    ensures |pool| == CHUNKS && Distinct(pool)
    ensures forall c :: c in pool ==> fresh(c) && fresh(c.data) && !c.dirty && c.data.Length == g.rdbufsize
    ensures forall c :: c in pool ==> Sized(c.data[..], g.rdbufsize, g.blockSize)
    ensures forall c, d :: c in pool && d in pool && c != d ==> c.data != d.data
  {
    pool := [];
    for i := 0 to CHUNKS
      invariant |pool| == i && Distinct(pool)
      invariant forall c :: c in pool ==> fresh(c) && fresh(c.data) && !c.dirty && c.data.Length == g.rdbufsize
      invariant forall c :: c in pool ==> Sized(c.data[..], g.rdbufsize, g.blockSize)
      invariant forall c, d :: c in pool && d in pool && c != d ==> c.data != d.data
    {
      var chunk := new Chunk(g);
      pool := pool + [chunk];
    }
  }

  function Starts(bufs: seq<Buf>): (r: seq<nat>)
    ensures |r| == |bufs|
  {
    seq(|bufs|, i requires 0 <= i < |bufs| => bufs[i].start)
  }

  class BlockDevice {
    const g: Geometry
    const dev: Device
    var buffered: seq<Chunk>
    var idle: seq<Chunk>
    var discardStart: nat
    var discardSize: nat

    /** The eight chunks. */
    ghost const chunks: set<Chunk>
    ghost const Repr: set<object>
    /** The values of the buffered chunks. */
    ghost var bufs: seq<Buf>
    /** The flat memory this device stands for. */
    ghost var mem: Memory
    /** The erasures the driver was asked for. */
    ghost var erasures: seq<Erasure>

    constructor (dev: Device)
      requires dev.Valid() && dev.g.Ok()
      ensures Valid() && fresh(Repr - {dev})
      ensures g == dev.g && this.dev == dev
      ensures buffered == [] && discardStart == discardSize == 0
      ensures mem == Exactly(dev.blocks) && erasures == dev.erasures
    {
      var pool := AllocChunks(dev.g);
      this.dev, g := dev, dev.g;
      buffered, idle, bufs := [], pool, [];
      discardStart, discardSize := 0, 0;
      mem, erasures := Exactly(dev.blocks), dev.erasures;
      chunks := set c | c in pool;
      Repr := {this, dev} + (set c | c in pool) + (set c | c in pool :: c.data);
    }

    /** All eight chunks are there, each in exactly one place; chunks outside the cache are clean. */
    ghost predicate Pool(hand: seq<Chunk>)
      reads this, Repr
    {
      && g.Ok() && dev.g == g
      && this in Repr && dev in Repr && dev.erasures == erasures
      && (forall c :: c in chunks ==> c in Repr && c.data in Repr && c.data.Length == g.rdbufsize)
      && (forall c, d :: c in chunks && d in chunks && c != d ==> c.data != d.data)
      && (forall c :: c in chunks ==> Sized(c.data[..], g.rdbufsize, g.blockSize))
      && (forall c :: c in buffered ==> c in chunks && c !in idle && c !in hand)
      && (forall c :: c in idle ==> c in chunks && c !in hand && !c.dirty)
      && (forall c :: c in hand ==> c in chunks && !c.dirty)
      && Distinct(buffered) && Distinct(idle) && Distinct(hand)
      && |buffered| + |idle| + |hand| == CHUNKS
      && |bufs| == |buffered| && forall i :: 0 <= i < |buffered| ==> bufs[i] == buffered[i].Snap()
    }

    ghost predicate Good(hand: seq<Chunk>)
      reads this, Repr
    {
      Pool(hand) && Agrees(g, bufs, dev.blocks, mem)
    }

    ghost predicate Valid()
      reads this, Repr
    {
      Good([])
    }

    ghost function Lists(): Lru
      reads this, dev
    {
      Lru(Starts(bufs), |idle|, dev.log)
    }

    ghost predicate Has(block: nat)
      reads this
    {
      Cached(g, bufs, block)
    }

    /** The chunk of window w heads the list and is zeros. */
    ghost predicate Zeroed(w: nat)
      reads this
    {
      |bufs| > 0 && bufs[0].start == w && AllZero(g, bufs[0])
    }

    /** What the state tells a client without a look inside. */
    lemma {:induction false} Facts()
      requires Valid()
      ensures g.Ok() && this in Repr && dev in Repr
      ensures Now().mem == mem && Sized(mem, g.numBlocks, g.blockSize) && |mem| == g.numBlocks
      ensures Now().lists == Lists() && |Now().lists.windows| + Now().lists.free > 0
      ensures Now().discardStart == discardStart && Now().discardSize == discardSize
    {
    }

    lemma {:induction false} Listing()
      requires Valid()
      ensures g.Ok() && |buffered| == |bufs| && Shape(g, bufs) && Distinct(Starts(bufs))
      ensures |Lists().windows| + Lists().free == CHUNKS && Lists().windows == Starts(bufs)
    {
      assert forall i :: 0 <= i < |bufs| ==> Starts(bufs)[i] == bufs[i].start;
    }

    method ChunkFlush(chunk: Chunk, ghost i: nat) returns (ret: int)
      requires Valid() && i < |buffered| && buffered[i] == chunk
      modifies dev`blocks, chunk`dirty, this`bufs
      ensures Valid()
      ensures ret <= 0 && (dev.reliable ==> ret == 0)
      ensures bufs == old(bufs)[i := old(bufs[i]).(dirty := ret < 0 && old(bufs[i].dirty))]
    {
      if !chunk.dirty {
        return 0;
      }
      ghost var before := dev.blocks;
      var len := IoBlocks(g, chunk.blockStart);
      ret := dev.Write(chunk.data, chunk.blockStart, len);
      WriteBackAgrees(g, bufs, i, before, dev.blocks, mem);
      if ret < 0 {
        return;
      }
      CleanAgrees(g, bufs, i, dev.blocks, mem);
      chunk.dirty := false;
      bufs := bufs[i := bufs[i].(dirty := false)];
    }

    method WritebufferFlush() returns (ret: int)
      requires Valid()
      modifies dev`blocks, dev`safe, buffered, this`bufs
      ensures Valid()
      ensures ret <= 0 && (dev.reliable ==> ret == 0)
      ensures ret == 0 ==> dev.safe == dev.blocks && forall i :: 0 <= i < |bufs| ==> !bufs[i].dirty
      ensures Lists() == old(Lists())
    {
      for i := 0 to |buffered|
        invariant Valid()
        invariant Starts(bufs) == old(Starts(bufs))
        invariant forall k :: 0 <= k < i ==> !bufs[k].dirty
      {
        ret := ChunkFlush(buffered[i], i);
        assert Starts(bufs) == old(Starts(bufs));
        if ret < 0 {
          return;
        }
      }
      ret := dev.Flush();
    }

    /** list_move to the head of the buffered list. */
    method Touch(i: nat)
      requires Valid() && i < |buffered|
      modifies this`buffered, this`bufs
      ensures Valid()
      ensures buffered == MoveToFront(old(buffered), i) && bufs == MoveToFront(old(bufs), i)
    {
      hide Agrees, MoveToFront, Distinct;
      TouchAgrees(g, bufs, i, dev.blocks, mem);
      TouchFront(buffered, i);
      FrontIs(bufs, i);
      buffered, bufs := MoveToFront(buffered, i), MoveToFront(bufs, i);
      assert forall j :: 0 <= j < |bufs| ==> bufs[j] == old(bufs)[FrontSource(i, j)];
    }

    /** The position of the buffered chunk holding the block, or the length of the list. */
    method Find(block: nat) returns (i: nat)
      requires Valid()
      ensures i <= |bufs|
      ensures i < |bufs| ==> bufs[i].start == Window(g, block)
      ensures forall k :: 0 <= k < i ==> bufs[k].start != Window(g, block)
      ensures i == |bufs| <==> !Has(block)
    {
      i := 0;
      while i < |buffered|
        invariant i <= |bufs|
        invariant forall k :: 0 <= k < i ==> !Covers(g, bufs[k].start, block) && bufs[k].start != Window(g, block)
      {
        CoversIffWindow(g, bufs[i].start, block);
        if buffered[i].blockStart <= block && block < buffered[i].blockStart + g.rdbufsize {
          return;
        }
        i := i + 1;
      }
    }

    method ChunkGetCached(block: nat) returns (chunk: Chunk?)
      requires Valid()
      modifies this`buffered, this`bufs
      ensures Valid()
      ensures chunk == null <==> !old(Has(block))
      ensures chunk == null ==> buffered == old(buffered) && bufs == old(bufs)
      ensures chunk != null ==> |buffered| > 0 && buffered[0] == chunk && bufs[0].start == Window(g, block)
      ensures chunk != null ==> Lists() == Access(old(Lists()), Window(g, block))
      ensures old(|bufs|) > 0 && old(bufs[0].start) == Window(g, block) ==>
                chunk == old(buffered[0]) && buffered == old(buffered) && bufs == old(bufs)
    {
      hide Valid, Access, Distinct, Shape;
      Listing();
      var i := Find(block);
      if i == |buffered| {
        return null;
      }
      TouchIsAccess(bufs, i, Lists());
      Touch(i);
      chunk := buffered[0];
    }

    /** list_del of a clean chunk from the buffered list; the caller holds it afterwards. */
    method Unlist(i: nat)
      requires Valid() && i < |buffered| && !bufs[i].dirty
      modifies this`buffered, this`bufs
      ensures Good([old(buffered[i])])
      ensures buffered == RemoveAt(old(buffered), i) && bufs == RemoveAt(old(bufs), i)
    {
      hide Agrees;
      DropAgrees(g, bufs, i, dev.blocks, mem);
      buffered, bufs := RemoveAt(buffered, i), RemoveAt(bufs, i);
    }

    method GetChunk() returns (ret: int, chunk: Chunk?)
      requires Valid()
      modifies this`buffered, this`idle, this`bufs, dev`blocks, buffered
      ensures ret <= 0 && (dev.reliable ==> ret == 0)
      ensures ret < 0 ==> Valid() && Lists() == old(Lists())
      ensures ret == 0 ==> chunk != null && Good([chunk]) && chunk in old(buffered + idle)
      ensures ret == 0 ==> Lists() == MakeRoom(old(Lists()))
    {
      if |idle| == 0 {
        var last := |buffered| - 1;
        chunk := buffered[last];
        ret := ChunkFlush(chunk, last);
        assert Starts(bufs) == old(Starts(bufs));
        if ret < 0 {
          return;
        }
        Unlist(last);
        assert Starts(bufs) == old(Starts(bufs)[..CHUNKS - 1]);
      } else {
        chunk := idle[0];
        idle := idle[1..];
        ret := 0;
      }
    }

    /** What a chunk in hand must satisfy before it is listed. */
    ghost predicate Filled(chunk: Chunk)
      reads this, Repr
      requires Good([chunk])
    {
      forall b :: 0 <= b < g.numBlocks && Covers(g, chunk.blockStart, b) ==>
                    Holds(chunk.data[b - chunk.blockStart], mem[b])
    }

    /** list_add of a freshly filled chunk at the head of the buffered list. */
    method Enlist(chunk: Chunk)
      requires Good([chunk]) && Filled(chunk)
      requires AlignedStart(g, chunk.blockStart)
      requires chunk.blockStart !in Starts(bufs)
      modifies this`buffered, this`bufs
      ensures Valid()
      ensures buffered == [chunk] + old(buffered) && bufs == [chunk.Snap()] + old(bufs)
      ensures Starts(bufs) == [chunk.blockStart] + old(Starts(bufs))
    {
      hide Agrees;
      assert forall i :: 0 <= i < |bufs| ==> Starts(bufs)[i] == bufs[i].start;
      LoadAgrees(g, bufs, chunk.Snap(), dev.blocks, mem);
      assert chunk in [chunk];
      buffered, bufs := [chunk] + buffered, [chunk.Snap()] + bufs;
    }

    /** list_add_tail of a clean chunk to the idle list. */
    method Release(chunk: Chunk)
      requires Good([chunk])
      modifies this`idle
      ensures Valid()
      ensures idle == old(idle) + [chunk]
    {
      assert chunk in [chunk];
      assert forall k :: 0 <= k < |idle| ==> idle[k] in idle;
      idle := idle + [chunk];
    }

    /** Loads a chunk of a discarded range as zeros; what was known about its window is forgotten. */
    method ZeroFill(chunk: Chunk, len: nat)
      requires Good([chunk]) && AlignedStart(g, chunk.blockStart)
      requires len == IoBlocks(g, chunk.blockStart)
      modifies chunk.data, this`mem
      ensures Good([chunk]) && Filled(chunk)
      ensures mem == Forget(old(mem), chunk.blockStart, g.rdbufsize)
      ensures len <= chunk.data.Length && forall k :: 0 <= k < len ==> chunk.data[k] == ZeroBytes(g.blockSize)
    {
      assert chunk in [chunk];
      forall k | 0 <= k < len {
        chunk.data[k] := ZeroBytes(g.blockSize);
      }
      mem := Forget(mem, chunk.blockStart, g.rdbufsize);
      WeakenAgrees(g, bufs, dev.blocks, old(mem), mem);
    }

    method ReadFill(chunk: Chunk, len: nat) returns (ret: int)
      requires Good([chunk]) && AlignedStart(g, chunk.blockStart)
      requires len == IoBlocks(g, chunk.blockStart)
      requires chunk.blockStart !in Starts(bufs)
      modifies chunk.data, dev`log
      ensures Good([chunk]) && ret <= 0 && (dev.reliable ==> ret == 0)
      ensures ret == 0 ==> Filled(chunk) && dev.log == old(dev.log) + [chunk.blockStart]
    {
      hide Agrees, Holds, Window;
      assert chunk in [chunk];
      UncachedHolds(g, bufs, dev.blocks, mem, chunk.blockStart);
      ret := dev.Read(chunk.data, chunk.blockStart, len);
    }

    /** The part of block_cache after a chunk buffer has been found. */
    method LoadChunk(chunk: Chunk) returns (ret: int)
      requires Good([chunk]) && AlignedStart(g, chunk.blockStart)
      requires chunk.blockStart !in Starts(bufs)
      modifies this`buffered, this`idle, this`bufs, this`mem, dev`log, chunk.data
      ensures Valid()
      ensures ret <= 0 && (dev.reliable ==> ret == 0)
      ensures ret == 0 ==> |bufs| > 0 && bufs[0].start == chunk.blockStart
      ensures ret < 0 ==> bufs == old(bufs)
      ensures mem == if ret == 0
                     then Fetched(g, discardStart, discardSize, old(mem), false, chunk.blockStart) else old(mem)
      ensures ret == 0 ==>
                var l := Load(old(Lists()), chunk.blockStart);
                Lists() == if Discarded(g, discardStart, discardSize, chunk.blockStart)
                           then l.(loads := old(dev.log)) else l
      ensures ret == 0 && Discarded(g, discardStart, discardSize, chunk.blockStart) ==> AllZero(g, bufs[0])
    {
      hide Good, Valid, Filled, IoBlocks, Forget;
      var len := IoBlocks(g, chunk.blockStart);
      if Discarded(g, discardStart, discardSize, chunk.blockStart) {
        ZeroFill(chunk, len);
        Enlist(chunk);
        return 0;
      }
      ret := ReadFill(chunk, len);
      if ret != 0 {
        Release(chunk);
        return;
      }
      Enlist(chunk);
    }

    /** Gives a chunk in hand its new window. */
    method Retarget(chunk: Chunk, start: nat)
      requires Good([chunk])
      modifies chunk`blockStart
      ensures Good([chunk]) && chunk.blockStart == start
    {
      assert chunk in [chunk];
      chunk.blockStart := start;
    }

    method BlockCache(block: nat) returns (ret: int)
      requires Valid() && block < g.numBlocks && !Has(block)
      modifies Repr - {this}, this`buffered, this`idle, this`bufs, this`mem
      ensures Valid()
      ensures ret <= 0 && (dev.reliable ==> ret == 0)
      ensures ret == 0 ==> |bufs| > 0 && bufs[0].start == Window(g, block)
      ensures ret < 0 && old(|bufs|) > 0 ==> |bufs| > 0 && bufs[0].start == old(bufs[0].start)
      ensures mem == if ret == 0
                     then Fetched(g, discardStart, discardSize, old(mem), false, Window(g, block)) else old(mem)
      ensures ret == 0 ==>
                var w := Window(g, block);
                Lists() == Visit(old(Lists()), w, !Discarded(g, discardStart, discardSize, w))
      ensures ret == 0 && Discarded(g, discardStart, discardSize, Window(g, block)) ==> AllZero(g, bufs[0])
    {
      Listing();
      hide Agrees, Fetched;
      WindowAligned(g, block);
      UncachedWindow(g, bufs, block);
      ghost var windows := Lists().windows;
      var chunk: Chunk?;
      ret, chunk := GetChunk();
      assert |windows| > 0 ==> Lists().windows[0] == windows[0];
      if ret < 0 {
        return;
      }
      Retarget(chunk, block - block % g.rdbufsize);
      ret := LoadChunk(chunk);
    }

    method BlockGet(block: nat) returns (ret: int, chunk: Chunk?)
      requires Valid()
      modifies Repr - {this}, this`buffered, this`idle, this`bufs, this`mem
      ensures Valid()
      ensures ret <= 0 && (ret == 0 <==> chunk != null)
      ensures block >= g.numBlocks ==> ret == ENXIO
      ensures block < g.numBlocks && (dev.reliable || old(Has(block))) ==> ret == 0
      ensures ret == 0 ==> |buffered| > 0 && buffered[0] == chunk && bufs[0].start == Window(g, block)
      ensures ret < 0 && old(|bufs|) > 0 ==> |bufs| > 0 && bufs[0].start == old(bufs[0].start)
      ensures mem == if ret == 0 then Fetched(g, discardStart, discardSize, old(mem), old(Has(block)), Window(g, block))
                     else old(mem)
      ensures ret == 0 ==>
                var w := Window(g, block);
                Lists() == Visit(old(Lists()), w, !Discarded(g, discardStart, discardSize, w))
      ensures ret == 0 && !old(Has(block)) && Discarded(g, discardStart, discardSize, Window(g, block)) ==>
                Zeroed(Window(g, block))
      ensures ret == 0 && old(Zeroed(Window(g, block))) ==> Zeroed(Window(g, block))
    {
      if block >= g.numBlocks {
        return ENXIO, null;
      }
      chunk := ChunkGetCached(block);
      if chunk != null {
        return 0, chunk;
      }
      ret := BlockCache(block);
      if ret != 0 {
        return;
      }
      chunk := ChunkGetCached(block);
      if chunk == null {
        assert false; // BUG()
      }
    }

    /** Overwrites one block of the chunk at the head of the list and marks the chunk dirty. */
    method Store(chunk: Chunk, block: nat, blk: Block, ghost cells: seq<Cell>)
      requires Valid() && block < g.numBlocks
      requires |buffered| > 0 && buffered[0] == chunk && bufs[0].start == Window(g, block)
      requires |cells| == g.blockSize && Holds(blk, cells)
      modifies chunk`dirty, chunk.data, this`bufs, this`mem
      ensures Valid()
      ensures mem == old(mem)[block := cells]
      ensures Starts(bufs) == old(Starts(bufs))
    {
      hide Agrees, Window;
      Facts();
      WindowAligned(g, block);
      PutAgrees(g, bufs, 0, block, blk, cells, dev.blocks, mem);
      chunk.data[block - chunk.blockStart] := blk;
      chunk.dirty := true;
      bufs := bufs[0 := chunk.Snap()];
      mem := mem[block := cells];
      assert bufs[0] == Buf(old(bufs[0].start), true, old(bufs[0].data)[block - old(bufs[0].start) := blk]);
      assert Starts(bufs) == old(Starts(bufs));
    }

    /**
     block_put.  The new contents are copied in after the second lookup, which does not look at
     them; until then the chunk is not marked dirty.
     */
    method BlockPut(blk: Block, block: nat, ghost cells: seq<Cell>) returns (ret: int)
      requires Valid()
      requires |cells| == g.blockSize && Holds(blk, cells)
      modifies Repr - {this}, this`buffered, this`idle, this`bufs, this`mem
      ensures Valid()
      ensures ret <= 0
      ensures block >= g.numBlocks ==> ret == EINVAL
      ensures block < g.numBlocks && (dev.reliable || old(Has(block))) ==> ret == 0
      ensures ret == 0 ==> |bufs| > 0 && bufs[0].start == Window(g, block)
      ensures ret < 0 && old(|bufs|) > 0 ==> |bufs| > 0 && bufs[0].start == old(bufs[0].start)
      ensures mem == if ret == 0
              then Fetched(g, discardStart, discardSize, old(mem), old(Has(block)), Window(g, block))[block := cells]
                     else old(mem)
      ensures ret == 0 ==>
                var w := Window(g, block);
                Lists() == Visit(old(Lists()), w, !Discarded(g, discardStart, discardSize, w))
    {
      hide Access, Fetched, Holds, Agrees;
      if block >= g.numBlocks {
        return EINVAL;
      }
      var chunk: Chunk?;
      ret, chunk := BlockGet(block);
      if ret < 0 {
        return;
      }
      chunk := ChunkGetCached(block);
      Store(chunk, block, blk, cells);
    }

    /** The chunk at the head of the list holds the memory of its window. */
    lemma {:induction false} HeadHolds(block: nat)
      requires Valid() && block < g.numBlocks && |buffered| > 0 && |bufs| > 0 && Covers(g, bufs[0].start, block)
      ensures var c := buffered[0];
              && c.blockStart == bufs[0].start && block - c.blockStart < c.data.Length
              && |c.data[block - c.blockStart]| == g.blockSize && Holds(c.data[block - c.blockStart], mem[block])
              && (AllZero(g, bufs[0]) ==> c.data[block - c.blockStart] == ZeroBytes(g.blockSize))
    {
      assert BufAgrees(g, bufs[0], dev.blocks, mem);
      assert buffered[0] in buffered && bufs[0] == buffered[0].Snap();
      assert Sized(buffered[0].data[..], g.rdbufsize, g.blockSize);
    }

    /** block_get and the bytes it points to. */
    method BlockRead(block: nat) returns (ret: int, iobuf: Block)
      requires Valid()
      modifies Repr - {this}, this`buffered, this`idle, this`bufs, this`mem
      ensures Valid()
      ensures ret <= 0
      ensures block < g.numBlocks && dev.reliable ==> ret == 0
      ensures ret == 0 ==> PieceRead(g, old(Now()), Now(), block, iobuf)
      ensures ret == 0 && (Cold(g, old(Now()), block) || old(Zeroed(Window(g, block)))) ==>
                Zeroed(Window(g, block)) && iobuf == ZeroBytes(g.blockSize)
      ensures ret == 0 ==> Has(block)
      ensures ret < 0 ==> Unwritten(old(Now()), Now())
    {
      hide Access, Fetched, Valid, Shape, Distinct, Window;
      Listing();
      UncachedWindow(g, bufs, block);
      var chunk: Chunk?;
      ret, chunk := BlockGet(block);
      Listing();
      if ret < 0 {
        return ret, [];
      }
      WindowAligned(g, block);
      HeadHolds(block);
      iobuf := chunk.data[block - chunk.blockStart];
    }

    ghost function Now(): Status
      reads this, dev
    {
      Status(discardStart, discardSize, mem, Lists())
    }

    /** Copies what the request wants out of one block. */
    method ReadPart(offset: nat, count: nat, buf: seq<byte>, block: nat, at: nat, ghost first: nat, ghost s0: Status)
      returns (ret: int, buf': seq<byte>)
      requires Valid() && |s0.lists.windows| + s0.lists.free > 0
      requires LookedUp(g, s0, Now(), first, block) && Reading(g, s0, Now(), offset, buf)
      requires at < g.blockSize && |buf| <= count && Cursor(g, offset, count, |buf|, block, at)
      requires More(g, offset, count, |buf|, block, at)
      modifies Repr - {this}, this`buffered, this`idle, this`bufs, this`mem
      ensures Valid()
      ensures Reading(g, s0, Now(), offset, buf')
      ensures ret <= 0 && (dev.reliable && InRange(g, offset, count) ==> ret == 0)
      ensures ret < 0 ==> buf' == buf
      ensures ret == 0 ==> LookedUp(g, s0, Now(), first, block + 1)
      ensures ret == 0 ==>
                |buf'| == |buf| + PieceSize(g, count - |buf|, at) && Cursor(g, offset, count, |buf'|, block + 1, 0)
      ensures ret == 0 && count == 0 ==> InRange(g, offset, count)
      ensures ret == 0 ==> buf <= buf' && Now() == Lookup(g, old(Now()), Window(g, block))
      ensures ret == 0 && (Cold(g, old(Now()), block) || old(Zeroed(Window(g, block)))) ==>
                Zeroed(Window(g, block)) && (Zeros(buf) ==> Zeros(buf'))
    {
      hide *;
      ghost var s := Now();
      Facts();
      var k := PieceSize(g, count - |buf|, at);
      CursorNext(g, offset, count, |buf|, block, at);
      var iobuf: Block;
      ret, iobuf := BlockRead(block);
      if ret < 0 {
        ReadingKept(g, s0, s, Now(), offset, buf);
        return ret, buf;
      }
      PartRead(g, s0, s, Now(), offset, buf, first, block, at, k, iobuf);
      buf' := buf + iobuf[at..at + k];
      MoreZeros(g, buf, iobuf, at, k);
    }

    method Read(count: nat, offset: nat) returns (ret: int, buf: seq<byte>, ghost end: nat)
      requires Valid()
      modifies Repr - {this}, this`buffered, this`idle, this`bufs, this`mem
      ensures Valid()
      ensures Reading(g, old(Now()), Now(), offset, buf)
      ensures |buf| <= count && (ret >= 0 ==> ret == |buf| == count && InRange(g, offset, count))
      ensures dev.reliable && InRange(g, offset, count) ==> ret >= 0
      ensures ret >= 0 ==>
                LookedUp(g, old(Now()), Now(), BlockOf(g, offset), end) && end <= LastBlock(g, offset, count) + 1
      ensures ret >= 0 && count > 0 ==> end == LastBlock(g, offset, count) + 1
      ensures ret >= 0 ==> LookedOnly(g, old(Now()), Now(), BlockOf(g, offset), end)
      ensures ret >= 0 && ColdRange(g, old(Now()), offset, count) ==> Zeros(buf)
    {
      hide *;
      Facts();
      ghost var s0, first := Now(), BlockOf(g, offset);
      RequestStart(g, s0, offset, first);
      OnlyStart(g, s0, first);
      var block, at := BlockOf(g, offset), ByteOf(g, offset);
      ghost var cold, w := ColdRange(g, s0, offset, count), Window(g, first);
      CursorStart(g, offset, count);
      buf, end := [], block;
      NoZeros();
      ColdStart(g, s0, offset, count);
      if at != 0 {
        ret, buf := ReadPart(offset, count, buf, block, at, first, s0);
        if ret < 0 {
          return;
        }
        OnlyNext(g, s0, s0, Now(), first, block);
        block := block + 1;
      }
      var blocks := BlockOf(g, count - |buf|);
      while blocks > 0
        invariant first <= block && LookedOnly(g, s0, Now(), first, block)
        invariant cold ==> Zeros(buf) && (first < block ==> Zeroed(w))
        invariant Valid() && LookedUp(g, s0, Now(), first, block) && Reading(g, s0, Now(), offset, buf)
        invariant |buf| <= count && Cursor(g, offset, count, |buf|, block, 0)
        invariant blocks == BlockOf(g, count - |buf|)
        invariant count == 0 ==> InRange(g, offset, count)
      {
        WholeBlock(g, count - |buf|);
        MoreBytes(g, offset, count, |buf|, block);
        Facts();
        ghost var s := Now();
        InColdRange(g, s0, s, offset, count, |buf|, block);
        ret, buf := ReadPart(offset, count, buf, block, 0, first, s0);
        if ret < 0 {
          return;
        }
        OnlyNext(g, s0, s, Now(), first, block);
        blocks, block := blocks - 1, block + 1;
      }
      if |buf| < count {
        WholeBlock(g, count - |buf|);
        MoreBytes(g, offset, count, |buf|, block);
        Facts();
        ghost var s := Now();
        InColdRange(g, s0, s, offset, count, |buf|, block);
        ret, buf := ReadPart(offset, count, buf, block, 0, first, s0);
        if ret < 0 {
          return;
        }
        OnlyNext(g, s0, s, Now(), first, block);
        block := block + 1;
      }
      CursorEnd(g, offset, count, block, 0);
      ret, end := count, block;
    }

    /** block_put of a whole block. */
    method PutBlock(blk: Block, block: nat) returns (ret: int)
      requires Valid() && |blk| == g.blockSize
      modifies Repr - {this}, this`buffered, this`idle, this`bufs, this`mem
      ensures Valid() && ret <= 0
      ensures dev.reliable && block < g.numBlocks ==> ret == 0
      ensures ret == 0 ==> PieceWritten(g, old(Now()), Now(), block, 0, blk)
      ensures ret < 0 ==> Unwritten(old(Now()), Now())
    {
      UncachedWindow(g, bufs, block);
      ret := BlockPut(blk, block, KnownCells(blk));
      if ret == 0 {
        ghost var fetched := Fetched(g, discardStart, discardSize, old(mem), old(Has(block)), Window(g, block));
        WriteWholeBlock(g, fetched, block, blk);
      }
    }

    /** block_put of a cached block into which part has been copied: it cannot fail. */
    method PutPatched(iobuf: Block, part: seq<byte>, block: nat, at: nat) returns (ret: int)
      requires Valid() && at + |part| <= g.blockSize
      requires block < g.numBlocks && Has(block) && Holds(iobuf, mem[block])
      modifies Repr - {this}, this`buffered, this`idle, this`bufs, this`mem
      ensures Valid() && ret == 0
      ensures PieceWritten(g, old(Now()), Now(), block, at, part)
    {
      hide Valid, PatchBytes, PatchCells, WriteMem, Holds, Access, Shape, Distinct, Window, Sized;
      Facts();
      Listing();
      UncachedWindow(g, bufs, block);
      PatchSize(g, mem, block, at, part);
      PatchHolds(iobuf, mem[block], at, part);
      WriteInBlock(g, mem, block, at, part);
      ret := BlockPut(PatchBytes(iobuf, at, part), block, PatchCells(mem[block], at, part));
    }

    /** block_get, copy part into the block, block_put. */
    method PatchBlock(part: seq<byte>, block: nat, at: nat) returns (ret: int)
      requires Valid() && at + |part| <= g.blockSize
      modifies Repr - {this}, this`buffered, this`idle, this`bufs, this`mem
      ensures Valid() && ret <= 0
      ensures dev.reliable && block < g.numBlocks ==> ret == 0
      ensures ret == 0 ==> PieceWritten(g, old(Now()), Now(), block, at, part)
      ensures ret < 0 ==> Unwritten(old(Now()), Now())
    {
      ghost var s := Now();
      var iobuf: Block;
      ret, iobuf := BlockRead(block);
      if ret < 0 {
        return;
      }
      ghost var mid := Now();
      ret := PutPatched(iobuf, part, block, at);
      ReadThenPut(g, s, mid, Now(), block, iobuf, at, part);
    }

    /** A whole block is put directly, a part of one into the block read before. */
    method PutPiece(part: seq<byte>, block: nat, at: nat) returns (ret: int)
      requires Valid() && at + |part| <= g.blockSize
      modifies Repr - {this}, this`buffered, this`idle, this`bufs, this`mem
      ensures Valid() && ret <= 0
      ensures dev.reliable && block < g.numBlocks ==> ret == 0
      ensures ret == 0 ==> PieceWritten(g, old(Now()), Now(), block, at, part)
      ensures ret < 0 ==> Unwritten(old(Now()), Now())
    {
      hide *;
      if |part| == g.blockSize {
        ret := PutBlock(part, block);
      } else {
        ret := PatchBlock(part, block, at);
      }
    }

    /** Puts what the request has for one block. */
    method WritePart(buf: seq<byte>, offset: nat, got: nat, block: nat, at: nat,
                     ghost first: nat, ghost s0: Status, ghost ascends: bool, ghost f: nat)
      returns (ret: int, got': nat)
      requires Valid() && |s0.lists.windows| + s0.lists.free > 0 && |s0.mem| == g.numBlocks
      requires LookedUp(g, s0, Now(), first, block)
      requires at < g.blockSize && got <= |buf| && Cursor(g, offset, |buf|, got, block, at)
      requires More(g, offset, |buf|, got, block, at)
      requires Progress(g, s0, Now(), offset, buf[..got], ascends, f)
      requires ascends ==> f <= Window(g, block)
      modifies Repr - {this}, this`buffered, this`idle, this`bufs, this`mem
      ensures Valid()
      ensures ret <= 0 && (dev.reliable && InRange(g, offset, |buf|) ==> ret == 0)
      ensures ret < 0 ==> got' == got && Progress(g, s0, Now(), offset, buf[..got], ascends, f)
      ensures got' == 0 || InRange(g, offset, got')
      ensures ret == 0 ==> got' == got + PieceSize(g, |buf| - got, at) && Cursor(g, offset, |buf|, got', block + 1, 0)
      ensures ret == 0 ==> LookedUp(g, s0, Now(), first, block + 1)
      ensures ret == 0 ==> Progress(g, s0, Now(), offset, buf[..got'], ascends, Window(g, block))
      ensures ret == 0 && |buf| == 0 ==> InRange(g, offset, |buf|)
    {
      hide *;
      ghost var s := Now();
      Facts();
      var k := PieceSize(g, |buf| - got, at);
      var part := buf[got..got + k];
      CursorNext(g, offset, |buf|, got, block, at);
      ret := PutPiece(part, block, at);
      if ret < 0 {
        ProgressKept(g, s0, s, Now(), offset, buf[..got], ascends, f);
        CursorGot(g, offset, |buf|, got, block, at);
        return ret, got;
      }
      got' := got + k;
      PartNext(g, s0, s, Now(), buf, offset, got, k, first, block, at, ascends, f);
      CursorGot(g, offset, |buf|, got', block + 1, 0);
    }

    /**
     block_op_write.  done is how much of buf was put.  Up to forgotten cells of discarded windows the
     flat memory was written with exactly that prefix; a write from a frontier f on forgets nothing
     and leaves a new frontier no later than its end.
     */
    method Write(buf: seq<byte>, offset: nat, ghost f: nat)
      returns (ret: int, ghost done: nat, ghost end: nat, ghost f': nat)
      requires Valid()
      modifies Repr - {this}, this`buffered, this`idle, this`bufs, this`mem
      ensures Valid()
      ensures done <= |buf| && (ret >= 0 ==> ret == done == |buf| && InRange(g, offset, |buf|))
      ensures dev.reliable && InRange(g, offset, |buf|) ==> ret >= 0
      ensures done == 0 || InRange(g, offset, done)
      ensures Progress(g, old(Now()), Now(), offset, buf[..done],
                       Ascending(g, old(Now()), f) && f <= Window(g, BlockOf(g, offset)), f')
      ensures f <= Window(g, BlockOf(g, offset)) ==> f' <= Window(g, LastBlock(g, offset, |buf|))
      ensures ret >= 0 ==>
                LookedUp(g, old(Now()), Now(), BlockOf(g, offset), end) && end <= LastBlock(g, offset, |buf|) + 1
      ensures ret >= 0 && |buf| > 0 ==> end == LastBlock(g, offset, |buf|) + 1
    {
      hide *;
      Facts();
      ghost var s0, first := Now(), BlockOf(g, offset);
      ghost var ascends := Ascending(g, s0, f) && f <= Window(g, first);
      RequestStart(g, s0, offset, first);
      ProgressStart(g, s0, offset, ascends, f);
      var block, at := BlockOf(g, offset), ByteOf(g, offset);
      CursorStart(g, offset, |buf|);
      var got := 0;
      assert buf[..0] == [];
      done, end, f' := 0, block, f;
      FrontierBound(g, offset, |buf|, 0, block, at);
      if at != 0 {
        ret, got := WritePart(buf, offset, got, block, at, first, s0, ascends, f');
        done := got;
        if ret < 0 {
          return;
        }
        f' := Window(g, block);
        block := block + 1;
      }
      var blocks := BlockOf(g, |buf| - got);
      while blocks > 0
        invariant Valid() && LookedUp(g, s0, Now(), first, block)
        invariant done == 0 || InRange(g, offset, done)
        invariant got <= |buf| && done == got && Cursor(g, offset, |buf|, got, block, 0)
        invariant Progress(g, s0, Now(), offset, buf[..got], ascends, f')
        invariant f <= Window(g, first) ==> f' <= Window(g, block) && f' <= Window(g, LastBlock(g, offset, |buf|))
        invariant blocks == BlockOf(g, |buf| - got)
        invariant |buf| == 0 ==> InRange(g, offset, |buf|)
      {
        WholeBlock(g, |buf| - got);
        MoreBytes(g, offset, |buf|, got, block);
        FrontierBound(g, offset, |buf|, got, block, 0);
        ret, got := WritePart(buf, offset, got, block, 0, first, s0, ascends, f');
        done := got;
        if ret < 0 {
          return;
        }
        f' := Window(g, block);
        blocks, block := blocks - 1, block + 1;
      }
      if got < |buf| {
        WholeBlock(g, |buf| - got);
        MoreBytes(g, offset, |buf|, got, block);
        FrontierBound(g, offset, |buf|, got, block, 0);
        ret, got := WritePart(buf, offset, got, block, 0, first, s0, ascends, f');
        done := got;
        if ret < 0 {
          return;
        }
        f' := Window(g, block);
        block := block + 1;
      }
      CursorEnd(g, offset, |buf|, block, 0);
      ret, end := |buf|, block;
    }

    /** block_op_flush: ends the discarded range and writes everything back. */
    method Flush() returns (ret: int)
      requires Valid()
      modifies Repr - {this}, this`bufs, this`discardStart, this`discardSize
      ensures Valid() && Now().Quiet()
      ensures ret <= 0 && (dev.reliable ==> ret == 0)
      ensures Lists() == old(Lists())
      ensures ret == 0 ==> forall b :: 0 <= b < g.numBlocks ==> Holds(dev.blocks[b], mem[b])
      ensures ret == 0 ==> dev.safe == dev.blocks
    {
      discardStart, discardSize := 0, 0;
      ret := WritebufferFlush();
      if ret == 0 {
        AllWrittenBack(g, bufs, dev.blocks, mem);
      }
    }

    /** block_op_discard_range.  From here on the fully discarded windows are unspecified. */
    method DiscardRange(count: nat, offset: nat)
      requires Valid()
      modifies this`discardStart, this`discardSize, this`mem
      ensures Valid()
      ensures discardStart == offset && discardSize == count
      ensures mem == DiscardMem(g, offset, count, old(mem))
      ensures Ascending(g, Now(), 0)
    {
      discardStart, discardSize := offset, count;
      DiscardIsFrontier(g, offset, count, mem, Lists().windows);
      mem := DiscardMem(g, offset, count, mem);
      WeakenAgrees(g, bufs, dev.blocks, old(mem), mem);
    }

    /** Moves every chunk that shares a block with the range to the idle list, written back first. */
    method DropRange(offset: nat, count: nat) returns (ret: int)
      requires Valid()
      modifies Repr - {this}, this`buffered, this`idle, this`bufs
      ensures Valid()
      ensures ret <= 0 && (dev.reliable ==> ret == 0)
      ensures ret == 0 ==> forall i :: 0 <= i < |bufs| ==> !Overlaps(offset, count, bufs[i].start, g.rdbufsize)
    {
      var i := 0;
      while i < |buffered|
        invariant Valid() && i <= |buffered|
        invariant forall k :: 0 <= k < i ==> !Overlaps(offset, count, bufs[k].start, g.rdbufsize)
        decreases |buffered| - i
      {
        if Overlaps(offset, count, buffered[i].blockStart, g.rdbufsize) {
          ret := DropChunk(i);
          if ret < 0 {
            return;
          }
        } else {
          i := i + 1;
        }
      }
      ret := 0;
    }

    method DropChunk(i: nat) returns (ret: int)
      requires Valid() && i < |buffered|
      modifies Repr - {this}, this`buffered, this`idle, this`bufs
      ensures Valid()
      ensures ret <= 0 && (dev.reliable ==> ret == 0)
      ensures ret == 0 ==> bufs == RemoveAt(old(bufs), i)
    {
      var chunk := buffered[i];
      ret := ChunkFlush(chunk, i);
      if ret < 0 {
        return;
      }
      Unlist(i);
      assert RemoveAt(old(bufs)[i := old(bufs[i]).(dirty := false)], i) == RemoveAt(old(bufs), i);
      AddIdle(chunk);
    }

    /** list_move to the head of the idle list. */
    method AddIdle(chunk: Chunk)
      requires Good([chunk])
      modifies this`idle
      ensures Valid()
      ensures idle == [chunk] + old(idle)
    {
      assert chunk in [chunk];
      assert forall k :: 0 <= k < |idle| ==> idle[k] in idle;
      idle := [chunk] + idle;
    }

    /** block_op_erase: the erased blocks hold whatever the device left there, everything else is kept. */
    method Erase(count: nat, offset: nat) returns (ret: int)
      requires Valid()
      modifies Repr - {this}, this`buffered, this`idle, this`bufs, this`mem, this`erasures
      ensures Valid() && ret <= 0
      ensures !dev.canErase ==> ret == EOPNOTSUPP && mem == old(mem) && erasures == old(erasures)
      ensures dev.canErase && dev.reliable && BlockOf(g, offset) + BlockOf(g, count) <= g.numBlocks ==> ret == 0
      ensures erasures == old(erasures) ==> ret < 0 && mem == old(mem)
      ensures erasures != old(erasures) ==>
                var first, blocks := BlockOf(g, offset), BlockOf(g, count);
                && first + blocks <= g.numBlocks
                && erasures == old(erasures) + [Erasure(first, blocks, dev.blocks[first..first + blocks])]
                && mem == Refresh(old(mem), dev.blocks, first, blocks)
                && forall i :: 0 <= i < |bufs| ==> !Overlaps(first, blocks, bufs[i].start, g.rdbufsize)
    {
      if !dev.canErase {
        return EOPNOTSUPP;
      }
      var blocks, first := BlockOf(g, count), BlockOf(g, offset);
      ret := DropRange(first, blocks);
      if ret < 0 {
        return;
      }
      ghost var before := dev.blocks;
      ret := dev.Erase(first, blocks);
      erasures := dev.erasures;
      if first + blocks <= g.numBlocks {
        EraseAgrees(g, bufs, before, dev.blocks, mem, first, blocks);
        mem := Refresh(mem, dev.blocks, first, blocks);
      }
    }
  }

  /** region_overlap_size */
  predicate Overlaps(startA: nat, lenA: nat, startB: nat, lenB: nat) {
    lenA > 0 && lenB > 0 && !(startA + lenA - 1 < startB) && !(startB + lenB - 1 < startA)
  }

  lemma {:induction false} AllWrittenBack(g: Geometry, bufs: seq<Buf>, dev: seq<Block>, mem: Memory)
    requires Agrees(g, bufs, dev, mem)
    requires forall i :: 0 <= i < |bufs| ==> !bufs[i].dirty
    ensures forall b :: 0 <= b < g.numBlocks ==> Holds(dev[b], mem[b])
  {
    forall b | 0 <= b < g.numBlocks
      ensures Holds(dev[b], mem[b])
    {
      if Cached(g, bufs, b) {
        var i :| 0 <= i < |bufs| && Covers(g, bufs[i].start, b);
        assert BufAgrees(g, bufs[i], dev, mem);
      }
    }
  }

  /** The window of the block at the cursor is neither before that of the next block nor behind the last one. */
  lemma {:induction false} FrontierBound(g: Geometry, offset: nat, count: nat, got: nat, block: nat, at: nat)
    requires g.Ok() && Cursor(g, offset, count, got, block, at) && (got < count || block == BlockOf(g, offset))
    ensures Window(g, block) <= Window(g, block + 1)
    ensures Window(g, block) <= Window(g, LastBlock(g, offset, count))
    ensures Window(g, BlockOf(g, offset)) <= Window(g, LastBlock(g, offset, count))
  {
    hide *;
    CursorBehind(g, offset, count, got, block, at);
    FirstBehind(g, offset, count);
    WindowMonotone(g, block, block + 1);
    WindowMonotone(g, block, LastBlock(g, offset, count));
    WindowMonotone(g, BlockOf(g, offset), LastBlock(g, offset, count));
  }

  lemma {:induction false} FirstBehind(g: Geometry, offset: nat, count: nat)
    requires g.Ok()
    ensures BlockOf(g, offset) <= LastBlock(g, offset, count)
  {
    if count > 0 {
      assert BlockOf(g, offset) * g.blockSize <= offset;
      NotBehindLast(g, BlockOf(g, offset), offset, count);
    }
  }

  lemma {:induction false} CursorBehind(g: Geometry, offset: nat, count: nat, got: nat, block: nat, at: nat)
    requires g.Ok() && Cursor(g, offset, count, got, block, at) && (got < count || block == BlockOf(g, offset))
    ensures block <= LastBlock(g, offset, count)
  {
    if got < count {
      hide LastBlock;
      NotBehindLast(g, block, offset, count);
    } else {
      FirstBehind(g, offset, count);
    }
  }

  /** Moving chunk i to the front is what the replacement policy does on a hit. */
  lemma {:induction false} TouchIsAccess(bufs: seq<Buf>, i: nat, l: Lru)
    requires i < |bufs| && l.windows == Starts(bufs) && Distinct(Starts(bufs))
    ensures bufs[i].start in l.windows
    ensures Access(l, bufs[i].start) == l.(windows := Starts(MoveToFront(bufs, i)))
  {
    assert Starts(bufs)[i] == bufs[i].start;
    assert Position(l.windows, bufs[i].start) == i;
    assert Starts(MoveToFront(bufs, i)) == MoveToFront(Starts(bufs), i);
  }

  lemma {:induction false} PatchSize(g: Geometry, mem: Memory, b: nat, at: nat, part: seq<byte>)
    requires Sized(mem, g.numBlocks, g.blockSize) && b < g.numBlocks && at + |part| <= g.blockSize
    ensures |mem| == g.numBlocks && |mem[b]| == g.blockSize && |PatchCells(mem[b], at, part)| == g.blockSize
  {
  }

  /** The device holds the memory of a window that is not cached. */
  lemma {:induction false} UncachedHolds(g: Geometry, bufs: seq<Buf>, dev: seq<Block>, mem: Memory, start: nat)
    requires Agrees(g, bufs, dev, mem) && AlignedStart(g, start) && start !in Starts(bufs)
    ensures Sized(dev, g.numBlocks, g.blockSize) && |mem| == g.numBlocks
    ensures forall b :: 0 <= b < g.numBlocks && Covers(g, start, b) ==> Holds(dev[b], mem[b])
  {
    forall b | 0 <= b < g.numBlocks && Covers(g, start, b)
      ensures Holds(dev[b], mem[b])
    {
      CoversIffWindow(g, start, b);
      UncachedWindow(g, bufs, b);
    }
  }

  /** A block is uncached exactly when its window is not in the list. */
  lemma {:induction false} UncachedWindow(g: Geometry, bufs: seq<Buf>, b: nat)
    requires g.Ok() && Shape(g, bufs)
    ensures Cached(g, bufs, b) <==> Window(g, b) in Starts(bufs)
  {
    forall i | 0 <= i < |bufs|
      ensures Covers(g, bufs[i].start, b) <==> Starts(bufs)[i] == Window(g, b)
    {
      CoversIffWindow(g, bufs[i].start, b);
    }
  }

  /** What a client can tell about the cache: discarded range, flat memory, replacement state. */
  datatype Status = Status(discardStart: nat, discardSize: nat, mem: Memory, lists: Lru) {
    predicate Quiet() {
      discardStart == 0 && discardSize == 0
    }
  }

  /** What looking up window w does: the chunk comes to the head of the list, loaded if need be. */
  function Lookup(g: Geometry, s: Status, w: nat): Status
    requires g.Ok() && |s.mem| == g.numBlocks && |s.lists.windows| + s.lists.free > 0
  {
    s.(mem := Fetched(g, s.discardStart, s.discardSize, s.mem, w in s.lists.windows, w),
       lists := Visit(s.lists, w, !Discarded(g, s.discardStart, s.discardSize, w)))
  }

  /** The replacement state after visiting some windows. */
  function VisitAll(g: Geometry, s: Status, ws: seq<nat>): (r: Lru)
    requires g.Ok() && |s.lists.windows| + s.lists.free > 0
    ensures |r.windows| + r.free == |s.lists.windows| + s.lists.free
    decreases |ws|
  {
    if ws == [] then s.lists
    else
      var w := ws[|ws| - 1];
      Visit(VisitAll(g, s, ws[..|ws| - 1]), w, !Discarded(g, s.discardStart, s.discardSize, w))
  }

  lemma {:induction false} VisitNext(g: Geometry, s: Status, ws: seq<nat>, w: nat)
    requires g.Ok() && |s.lists.windows| + s.lists.free > 0
    ensures VisitAll(g, s, []) == s.lists
    ensures VisitAll(g, s, ws + [w]) == Visit(VisitAll(g, s, ws), w, !Discarded(g, s.discardStart, s.discardSize, w))
  {
    assert (ws + [w])[..|ws|] == ws;
  }

  /** The windows are those of the plain policy, and so is the log while nothing is discarded. */
  lemma {:induction false} VisitIsAccess(g: Geometry, s: Status, ws: seq<nat>)
    requires g.Ok() && |s.lists.windows| + s.lists.free > 0
    ensures VisitAll(g, s, ws).windows == AccessAll(s.lists, ws).windows
            && VisitAll(g, s, ws).free == AccessAll(s.lists, ws).free
    ensures s.Quiet() ==> VisitAll(g, s, ws) == AccessAll(s.lists, ws)
    decreases |ws|
  {
    if ws != [] {
      VisitIsAccess(g, s, ws[..|ws| - 1]);
      NothingDiscarded(g, ws[|ws| - 1]);
    }
  }

  /** Blocks of windows not among ws are as they were. */
  predicate Spared(g: Geometry, mem: Memory, mem': Memory, ws: seq<nat>)
    requires g.Ok()
  {
    |mem'| == |mem| && forall b :: 0 <= b < |mem| && Window(g, b) !in ws ==> mem'[b] == mem[b]
  }

  /** From s0, the blocks from first on below block were looked up, and only that. */
  predicate LookedUp(g: Geometry, s0: Status, s: Status, first: nat, block: nat)
    requires g.Ok() && |s0.lists.windows| + s0.lists.free > 0
  {
    && first <= block
    && s.discardStart == s0.discardStart && s.discardSize == s0.discardSize
    && s.lists == VisitAll(g, s0, BlockWindows(g, first, block - first))
    && Spared(g, s0.mem, s.mem, BlockWindows(g, first, block - first))
  }

  lemma {:induction false} RequestStart(g: Geometry, s: Status, offset: nat, first: nat)
    requires g.Ok() && |s.lists.windows| + s.lists.free > 0
    ensures LookedUp(g, s, s, first, first) && Reading(g, s, s, offset, [])
  {
  }

  /** A lookup changes nothing in other windows. */
  lemma {:induction false} FetchSpares(g: Geometry, s: Status, w: nat)
    requires g.Ok() && |s.mem| == g.numBlocks && w % g.rdbufsize == 0
    ensures Spared(g, s.mem, Fetched(g, s.discardStart, s.discardSize, s.mem, w in s.lists.windows, w), [w])
  {
    var r := Fetched(g, s.discardStart, s.discardSize, s.mem, w in s.lists.windows, w);
    forall b | 0 <= b < |s.mem| && Window(g, b) !in [w]
      ensures r[b] == s.mem[b]
    {
      assert [w][0] == w;
      CoversIffWindow(g, w, b);
    }
  }

  lemma {:induction false} LookupNext(g: Geometry, s0: Status, s: Status, s': Status, first: nat, block: nat)
    requires g.Ok() && |s0.lists.windows| + s0.lists.free > 0 && |s.lists.windows| + s.lists.free > 0
    requires LookedUp(g, s0, s, first, block)
    requires s'.discardStart == s.discardStart && s'.discardSize == s.discardSize
    requires s'.lists
          == Visit(s.lists, Window(g, block), !Discarded(g, s.discardStart, s.discardSize, Window(g, block)))
    requires Spared(g, s.mem, s'.mem, [Window(g, block)])
    ensures LookedUp(g, s0, s', first, block + 1)
  {
    hide Visit, Discarded, Window;
    var ws := BlockWindows(g, first, block - first);
    assert BlockWindows(g, first, block + 1 - first) == ws + [Window(g, block)];
    VisitNext(g, s0, ws, Window(g, block));
  }

  /** The window of the block is discarded and not cached. */
  predicate Cold(g: Geometry, s: Status, block: nat)
    requires g.Ok()
  {
    Window(g, block) !in s.lists.windows && Discarded(g, s.discardStart, s.discardSize, Window(g, block))
  }

  /** A read that began in s0 has got buf from offset on so far. */
  predicate Reading(g: Geometry, s0: Status, s: Status, offset: nat, buf: seq<byte>)
    requires g.Ok()
  {
    && s.discardStart == s0.discardStart && s.discardSize == s0.discardSize
    && OnlyForgets(g, s0.discardStart, s0.discardSize, s0.mem, s.mem)
    && ReadOk(g, s.mem, offset, buf)
  }

  /** The status after looking up some windows. */
  function LookAll(g: Geometry, s: Status, ws: seq<nat>): (r: Status)
    requires g.Ok() && |s.mem| == g.numBlocks && |s.lists.windows| + s.lists.free > 0
    ensures |r.mem| == g.numBlocks && |r.lists.windows| + r.lists.free > 0
    decreases |ws|
  {
    if ws == [] then s else Lookup(g, LookAll(g, s, ws[..|ws| - 1]), ws[|ws| - 1])
  }

  /** Exactly the lookups of the blocks from first on below block have happened. */
  predicate LookedOnly(g: Geometry, s0: Status, s: Status, first: nat, block: nat)
    requires g.Ok()
  {
    && first <= block && |s0.mem| == g.numBlocks && |s0.lists.windows| + s0.lists.free > 0
    && s == LookAll(g, s0, BlockWindows(g, first, block - first))
  }

  lemma {:induction false} OnlyStart(g: Geometry, s: Status, first: nat)
    requires g.Ok() && |s.mem| == g.numBlocks && |s.lists.windows| + s.lists.free > 0
    ensures LookedOnly(g, s, s, first, first)
  {
  }

  lemma {:induction false} OnlyNext(g: Geometry, s0: Status, s: Status, s': Status, first: nat, block: nat)
    requires g.Ok() && LookedOnly(g, s0, s, first, block)
    requires |s.mem| == g.numBlocks && |s.lists.windows| + s.lists.free > 0 && s' == Lookup(g, s, Window(g, block))
    ensures LookedOnly(g, s0, s', first, block + 1)
  {
    hide Lookup, Window;
    var ws := BlockWindows(g, first, block - first);
    assert BlockWindows(g, first, block + 1 - first) == ws + [Window(g, block)];
    assert (ws + [Window(g, block)])[..|ws|] == ws;
  }

  predicate Zeros(buf: seq<byte>) {
    forall i :: 0 <= i < |buf| ==> buf[i] == 0
  }

  lemma {:induction false} NoZeros()
    ensures Zeros([])
  {
  }

  lemma {:induction false} MoreZeros(g: Geometry, buf: seq<byte>, iobuf: Block, at: nat, k: nat)
    requires |iobuf| == g.blockSize && at + k <= g.blockSize
    ensures Zeros(buf) && iobuf == ZeroBytes(g.blockSize) ==> Zeros(buf + iobuf[at..at + k])
  {
  }

  /** The range lies inside one window, which is discarded and not cached. */
  predicate ColdRange(g: Geometry, s: Status, offset: nat, count: nat)
    requires g.Ok()
  {
    Cold(g, s, BlockOf(g, offset)) && Window(g, LastBlock(g, offset, count)) == Window(g, BlockOf(g, offset))
  }

  lemma {:induction false} ColdStart(g: Geometry, s0: Status, offset: nat, count: nat)
    requires g.Ok()
    ensures ColdRange(g, s0, offset, count) ==> Cold(g, s0, BlockOf(g, offset))
  {
  }

  /** Inside such a range every block is in the window; before the first lookup it is still not cached. */
  lemma {:induction false} InColdRange(g: Geometry, s0: Status, s: Status, offset: nat, count: nat, got: nat,
                                       block: nat)
    requires g.Ok() && LookedOnly(g, s0, s, BlockOf(g, offset), block)
    requires Cursor(g, offset, count, got, block, 0) && got < count
    ensures ColdRange(g, s0, offset, count) ==> Window(g, block) == Window(g, BlockOf(g, offset))
    ensures ColdRange(g, s0, offset, count) && block == BlockOf(g, offset) ==> Cold(g, s, block)
  {
    NotBehindLast(g, block, offset, count);
    WindowMonotone(g, BlockOf(g, offset), block);
    WindowMonotone(g, block, LastBlock(g, offset, count));
    hide BlockOf, LastBlock, Window;
    assert block == BlockOf(g, offset) ==> BlockWindows(g, block, 0) == [];
  }

  /** block was looked up and holds iobuf. */
  predicate PieceRead(g: Geometry, s: Status, s': Status, block: nat, iobuf: Block)
    requires g.Ok() && |s.mem| == g.numBlocks && |s.lists.windows| + s.lists.free > 0
  {
    var w := Window(g, block);
    && block < g.numBlocks && |iobuf| == g.blockSize && s' == Lookup(g, s, w)
    && Holds(iobuf, s'.mem[block])
    && |s'.lists.windows| > 0 && s'.lists.windows[0] == w
  }

  lemma {:induction false} PieceIs(g: Geometry, s: Status, s': Status, block: nat, iobuf: Block)
    requires g.Ok() && |s.mem| == g.numBlocks && |s.lists.windows| + s.lists.free > 0
    requires PieceRead(g, s, s', block, iobuf)
    ensures block < g.numBlocks == |s'.mem| && |iobuf| == g.blockSize && s' == Lookup(g, s, Window(g, block))
    ensures s'.discardStart == s.discardStart && s'.discardSize == s.discardSize && Holds(iobuf, s'.mem[block])
    ensures var w := Window(g, block);
            && s'.mem == Fetched(g, s.discardStart, s.discardSize, s.mem, w in s.lists.windows, w)
            && s'.lists == Visit(s.lists, w, !Discarded(g, s.discardStart, s.discardSize, w))
    ensures Weaker(s.mem, s'.mem)
  {
    hide Window, Visit, Discarded, Fetched, Holds;
  }

  lemma {:induction false} ReadingNext(g: Geometry, s0: Status, s: Status, s': Status, offset: nat,
                                       buf: seq<byte>, part: seq<byte>)
    requires g.Ok() && Reading(g, s0, s, offset, buf) && Weaker(s.mem, s'.mem)
    requires s'.discardStart == s.discardStart && s'.discardSize == s.discardSize
    requires OnlyForgets(g, s.discardStart, s.discardSize, s.mem, s'.mem) && ReadOk(g, s'.mem, offset + |buf|, part)
    ensures Reading(g, s0, s', offset, buf + part)
  {
    hide ReadOk, OnlyForgets, Weaker;
    ReadWeaker(g, s.mem, s'.mem, offset, buf);
    ReadAppend(g, s'.mem, offset, buf, part);
    ForgetTwice(g, s.discardStart, s.discardSize, s0.mem, s.mem, s'.mem);
  }

  lemma {:induction false} WeakerSized(g: Geometry, mem: Memory, mem': Memory)
    requires Sized(mem, g.numBlocks, g.blockSize)
    ensures |mem| == g.numBlocks && (Weaker(mem, mem') ==> Sized(mem', g.numBlocks, g.blockSize))
  {
  }

  lemma {:induction false} ReadPiece(g: Geometry, mem: Memory, b: nat, at: nat, blk: Block, k: nat, p: nat)
    requires g.Ok() && Sized(mem, g.numBlocks, g.blockSize) && |mem| == g.numBlocks
    requires b < |mem| && Holds(blk, mem[b]) && |blk| == g.blockSize && at + k <= g.blockSize && At(g, b, at, p)
    ensures ReadOk(g, mem, p, blk[at..at + k])
  {
    ReadInBlock(g, mem, b, at, blk, k);
  }

  /** One more piece of a read: bytes at .. at+k of the block go behind buf. */
  lemma {:induction false} PartRead(g: Geometry, s0: Status, s: Status, s': Status, offset: nat, buf: seq<byte>,
                                    first: nat, block: nat, at: nat, k: nat, iobuf: Block)
    requires g.Ok() && Sized(s.mem, g.numBlocks, g.blockSize)
    requires |s.lists.windows| + s.lists.free > 0 && |s0.lists.windows| + s0.lists.free > 0
    requires LookedUp(g, s0, s, first, block) && Reading(g, s0, s, offset, buf)
    requires PieceRead(g, s, s', block, iobuf)
    requires at + k <= g.blockSize && At(g, block, at, offset + |buf|)
    ensures block < g.numBlocks && |iobuf| == g.blockSize
    ensures LookedUp(g, s0, s', first, block + 1)
    ensures Reading(g, s0, s', offset, buf + iobuf[at..at + k])
    ensures s' == Lookup(g, s, Window(g, block))
  {
    hide *;
    var w := Window(g, block);
    WeakerSized(g, s.mem, s.mem);
    WindowAligned(g, block);
    PieceIs(g, s, s', block, iobuf);
    FetchSpares(g, s, w);
    LookupNext(g, s0, s, s', first, block);
    WeakerSized(g, s.mem, s'.mem);
    ReadPiece(g, s'.mem, block, at, iobuf, k, offset + |buf|);
    FetchOnlyForgets(g, s.discardStart, s.discardSize, s.mem, w in s.lists.windows, w);
    ReadingNext(g, s0, s, s', offset, buf, iobuf[at..at + k]);
  }

  lemma {:induction false} ReadingKept(g: Geometry, s0: Status, s: Status, s': Status, offset: nat, buf: seq<byte>)
    requires g.Ok() && Reading(g, s0, s, offset, buf) && Unwritten(s, s')
    ensures Reading(g, s0, s', offset, buf)
  {
  }

  // ---- writing -----------------------------------------------------------------------------

  /** part was put at byte `at` of block: the window was looked up, then the flat memory was written. */
  predicate PieceWritten(g: Geometry, s: Status, s': Status, block: nat, at: nat, part: seq<byte>)
    requires g.Ok() && |s.mem| == g.numBlocks && |s.lists.windows| + s.lists.free > 0
  {
    var w := Window(g, block);
    && block < g.numBlocks
    && s'.discardStart == s.discardStart && s'.discardSize == s.discardSize
    && s'.mem == WriteMem(g, Fetched(g, s.discardStart, s.discardSize, s.mem, w in s.lists.windows, w),
       block * g.blockSize + at, part)
    && |s'.lists.windows| > 0 && s'.lists.windows[0] == w
    && s'.lists == Visit(s.lists, w, !Discarded(g, s.discardStart, s.discardSize, w))
  }

  /** A failed lookup changes neither the memory nor the head of the list. */
  predicate Unwritten(s: Status, s': Status) {
    && s'.discardStart == s.discardStart && s'.discardSize == s.discardSize
    && s'.mem == s.mem
    && (|s.lists.windows| > 0 ==> |s'.lists.windows| > 0 && s'.lists.windows[0] == s.lists.windows[0])
  }

  predicate Ascending(g: Geometry, s: Status, f: nat)
    requires g.Ok()
  {
    Frontier(g, s.discardStart, s.discardSize, s.mem, s.lists.windows, f)
  }

  /** A write that began in s0 has put done at offset and is about to look at block. */
  predicate Writing(g: Geometry, s0: Status, s: Status, offset: nat, done: seq<byte>)
    requires g.Ok()
  {
    && s.discardStart == s0.discardStart && s.discardSize == s0.discardSize
    && |s.mem| == |s0.mem|
    && Wrote(g, s0.discardStart, s0.discardSize, s0.mem, s.mem, offset, done)
  }

  lemma {:induction false} WritingStart(g: Geometry, s: Status, offset: nat)
    requires g.Ok()
    ensures Writing(g, s, s, offset, [])
  {
    WriteNothing(g, s.mem, offset);
  }

  lemma {:induction false} WriteNext(g: Geometry, s0: Status, s: Status, s': Status, offset: nat, done: seq<byte>,
                                     block: nat, at: nat, part: seq<byte>)
    requires g.Ok() && |s0.mem| == g.numBlocks && |s.lists.windows| + s.lists.free > 0
    requires Writing(g, s0, s, offset, done) && PieceWritten(g, s, s', block, at, part)
    requires block * g.blockSize + at == offset + |done|
    ensures Writing(g, s0, s', offset, done + part)
  {
    hide Wrote, WriteMem, Fetched, Discarded, Access, Holds;
    var w := Window(g, block);
    WindowAligned(g, block);
    WroteStep(g, s0.discardStart, s0.discardSize, s0.mem, s.mem, offset, done, part, w in s.lists.windows, w);
  }

  /** An ascending write forgets nothing: the flat memory is exactly the written one. */
  lemma {:induction false} WriteAscending(g: Geometry, s0: Status, s: Status, s': Status, offset: nat, done: seq<byte>,
                                          block: nat, at: nat, part: seq<byte>, f: nat)
    requires g.Ok() && Sized(s.mem, g.numBlocks, g.blockSize) && |s.lists.windows| + s.lists.free > 0
    requires PieceWritten(g, s, s', block, at, part)
    requires at + |part| <= g.blockSize && block * g.blockSize + at == offset + |done|
    requires s.mem == WriteMem(g, s0.mem, offset, done)
    requires Ascending(g, s, f) && f <= Window(g, block)
    ensures s'.mem == WriteMem(g, s0.mem, offset, done + part)
    ensures Ascending(g, s', Window(g, block))
  {
    var w := Window(g, block);
    WindowAligned(g, block);
    FrontierFetch(g, s.discardStart, s.discardSize, s.mem, s.lists.windows, s'.lists.windows, f, w);
    WriteAppend(g, s0.mem, offset, done, part);
    WriteInBlock(g, s.mem, block, at, part);
    FrontierWrite(g, s.discardStart, s.discardSize, s.mem, s'.lists.windows, block, PatchCells(s.mem[block], at, part));
  }

  /** Looking a block up before putting it makes no difference. */
  lemma {:induction false} ReadThenPut(g: Geometry, s: Status, mid: Status, s': Status, block: nat, iobuf: Block,
                                       at: nat, part: seq<byte>)
    requires g.Ok() && |s.mem| == g.numBlocks && |s.lists.windows| + s.lists.free > 0
    requires PieceRead(g, s, mid, block, iobuf)
    requires |mid.mem| == g.numBlocks && PieceWritten(g, mid, s', block, at, part)
    ensures PieceWritten(g, s, s', block, at, part)
  {
    VisitTwice(s.lists, Window(g, block), !Discarded(g, s.discardStart, s.discardSize, Window(g, block)));
  }

  /**
   The state of a write at offset that began in s0 and has put done: up to forgotten cells the
   flat memory was written, and exactly so if the write ascends from a frontier.
   */
  predicate Progress(g: Geometry, s0: Status, s: Status, offset: nat, done: seq<byte>, ascends: bool, f: nat)
    requires g.Ok()
  {
    && Writing(g, s0, s, offset, done)
    && (ascends ==> s.mem == WriteMem(g, s0.mem, offset, done) && Ascending(g, s, f))
  }

  lemma {:induction false} ProgressStart(g: Geometry, s: Status, offset: nat, ascends: bool, f: nat)
    requires g.Ok() && (ascends ==> Ascending(g, s, f))
    ensures Progress(g, s, s, offset, [], ascends, f)
  {
    WritingStart(g, s, offset);
    WriteNothing(g, s.mem, offset);
  }

  lemma {:induction false} ProgressNext(g: Geometry, s0: Status, s: Status, s': Status, offset: nat, done: seq<byte>,
                                        block: nat, at: nat, part: seq<byte>, ascends: bool, f: nat)
    requires g.Ok() && |s0.mem| == g.numBlocks && Sized(s.mem, g.numBlocks, g.blockSize)
    requires |s.lists.windows| + s.lists.free > 0
    requires Progress(g, s0, s, offset, done, ascends, f) && PieceWritten(g, s, s', block, at, part)
    requires at + |part| <= g.blockSize && block * g.blockSize + at == offset + |done|
    requires ascends ==> f <= Window(g, block)
    ensures Progress(g, s0, s', offset, done + part, ascends, Window(g, block))
  {
    WriteNext(g, s0, s, s', offset, done, block, at, part);
    if ascends {
      WriteAscending(g, s0, s, s', offset, done, block, at, part, f);
    }
  }

  /** Putting a part into a block changes nothing in other windows. */
  lemma {:induction false} PutSpares(g: Geometry, s: Status, s': Status, block: nat, at: nat, part: seq<byte>)
    requires g.Ok() && Sized(s.mem, g.numBlocks, g.blockSize) && |s.lists.windows| + s.lists.free > 0
    requires PieceWritten(g, s, s', block, at, part) && at + |part| <= g.blockSize
    ensures Spared(g, s.mem, s'.mem, [Window(g, block)])
  {
    var w := Window(g, block);
    WindowAligned(g, block);
    FetchSpares(g, s, w);
    WriteInBlock(g, Fetched(g, s.discardStart, s.discardSize, s.mem, w in s.lists.windows, w), block, at, part);
    hide Window, WriteMem, Fetched;
    assert w in [w];
  }

  /** Bytes got .. got+k of buf went into one block. */
  lemma {:induction false} PartNext(g: Geometry, s0: Status, s: Status, s': Status, buf: seq<byte>, offset: nat,
                                    got: nat, k: nat, first: nat, block: nat, at: nat, ascends: bool, f: nat)
    requires g.Ok() && |s0.mem| == g.numBlocks && Sized(s.mem, g.numBlocks, g.blockSize)
    requires |s.lists.windows| + s.lists.free > 0 && |s0.lists.windows| + s0.lists.free > 0
    requires got + k <= |buf| && LookedUp(g, s0, s, first, block) && Progress(g, s0, s, offset, buf[..got], ascends, f)
    requires PieceWritten(g, s, s', block, at, buf[got..got + k])
    requires at + k <= g.blockSize && At(g, block, at, offset + got)
    requires ascends ==> f <= Window(g, block)
    ensures block < g.numBlocks
    ensures LookedUp(g, s0, s', first, block + 1)
    ensures Progress(g, s0, s', offset, buf[..got + k], ascends, Window(g, block))
  {
    PutSpares(g, s, s', block, at, buf[got..got + k]);
    LookupNext(g, s0, s, s', first, block);
    ProgressNext(g, s0, s, s', offset, buf[..got], block, at, buf[got..got + k], ascends, f);
    PrefixExtend(buf, got, k);
  }

  lemma {:induction false} ProgressKept(g: Geometry, s0: Status, s: Status, s': Status, offset: nat, done: seq<byte>,
                                        ascends: bool, f: nat)
    requires g.Ok() && Progress(g, s0, s, offset, done, ascends, f) && Unwritten(s, s')
    ensures Progress(g, s0, s', offset, done, ascends, f)
  {
  }
}
