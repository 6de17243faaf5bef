/**
 Value-level model of the block cache: what a list of cached chunks, a device and a
 flat memory have to do with each other.  The flat memory is made of cells; a cell that
 is `Known` must be what every reader sees, a cell that is `Any` is unspecified (erased
 blocks, and blocks of a discarded range that nobody has written yet).
 */
module BlockModel {
  import opened Bytes
  import opened Seqs

  type Block = seq<byte>

  datatype Cell = Any | Known(value: byte)
  type Memory = seq<seq<Cell>>

  /** Bytes per block, blocks per chunk buffer, blocks on the device. */
  datatype Geometry = Geometry(blockSize: nat, rdbufsize: nat, numBlocks: nat) {
    predicate Ok() {
      0 < blockSize && 0 < rdbufsize
    }
  }

  /** The value of one cached chunk. */
  datatype Buf = Buf(start: nat, dirty: bool, data: seq<Block>)

  /** First block of the aligned window holding block b. */
  function Window(g: Geometry, b: nat): nat
    requires g.Ok()
  {
    b - b % g.rdbufsize
  }

  predicate Covers(g: Geometry, start: nat, b: nat) {
    start <= b < start + g.rdbufsize
  }

  /** Number of blocks of the window at start that exist on the device. */
  function IoBlocks(g: Geometry, start: nat): nat
    requires start <= g.numBlocks
  {
    if g.rdbufsize <= g.numBlocks - start then g.rdbufsize else g.numBlocks - start
  }

  predicate Sized<T>(rows: seq<seq<T>>, count: nat, width: nat) {
    |rows| == count && forall b :: 0 <= b < count ==> |rows[b]| == width
  }

  predicate AlignedStart(g: Geometry, start: nat)
    requires g.Ok()
  {
    start % g.rdbufsize == 0 && start < g.numBlocks
  }

  /** Chunk windows are aligned and pairwise different. */
  predicate Shape(g: Geometry, bufs: seq<Buf>)
    requires g.Ok()
  {
    && (forall i :: 0 <= i < |bufs| ==>
          AlignedStart(g, bufs[i].start) && Sized(bufs[i].data, g.rdbufsize, g.blockSize))
    && (forall i, j :: 0 <= i < j < |bufs| ==> bufs[i].start != bufs[j].start)
  }

  predicate Cached(g: Geometry, bufs: seq<Buf>, b: nat) {
    exists i :: 0 <= i < |bufs| && Covers(g, bufs[i].start, b)
  }

  /** The bytes satisfy the cells. */
  predicate Holds(bytes: seq<byte>, cells: seq<Cell>) {
    |bytes| == |cells| && forall r :: 0 <= r < |cells| && cells[r].Known? ==> bytes[r] == cells[r].value
  }

  /** A chunk satisfies the memory on its window, and so does the device below it unless the chunk is dirty. */
  predicate BufAgrees(g: Geometry, c: Buf, dev: seq<Block>, mem: Memory)
    requires g.Ok() && Sized(c.data, g.rdbufsize, g.blockSize)
    requires Sized(dev, g.numBlocks, g.blockSize) && Sized(mem, g.numBlocks, g.blockSize)
  {
    forall b :: 0 <= b < g.numBlocks && Covers(g, c.start, b) ==>
                  Holds(c.data[b - c.start], mem[b]) && (c.dirty || Holds(dev[b], mem[b]))
  }

  /** The refinement relation of the cache: cached bytes shadow device bytes. */
  predicate Agrees(g: Geometry, bufs: seq<Buf>, dev: seq<Block>, mem: Memory) {
    && g.Ok()
    && Shape(g, bufs)
    && Sized(dev, g.numBlocks, g.blockSize)
    && Sized(mem, g.numBlocks, g.blockSize)
    && (forall i :: 0 <= i < |bufs| ==> BufAgrees(g, bufs[i], dev, mem))
    && (forall b :: 0 <= b < g.numBlocks && !Cached(g, bufs, b) ==> Holds(dev[b], mem[b]))
  }

  // ---- windows -----------------------------------------------------------------------

  lemma {:induction false} MulStep(a: nat, b: nat, d: nat)
    requires a < b
    ensures a * d + d <= b * d
  {
    if a + 1 < b {
      MulStep(a, b - 1, d);
      assert (b - 1) * d + d == b * d;
    } else {
      assert b * d == a * d + d;
    }
  }

  lemma {:induction false} DivModUnique(q: nat, r: nat, d: nat)
    requires r < d
    ensures (q * d + r) / d == q && (q * d + r) % d == r
  {
    var x := q * d + r;
    assert x == x / d * d + x % d;
    if x / d < q {
      MulStep(x / d, q, d);
    } else if q < x / d {
      MulStep(q, x / d, d);
    }
  }

  /** An aligned window covers exactly the blocks whose window it is. */
  lemma {:induction false} CoversIffWindow(g: Geometry, start: nat, b: nat)
    requires g.Ok() && start % g.rdbufsize == 0
    ensures Covers(g, start, b) <==> start == Window(g, b)
  {
    var d := g.rdbufsize;
    if Covers(g, start, b) {
      var q := start / d;
      assert start == q * d + 0;
      DivModUnique(q, b - start, d);
    }
  }

  lemma {:induction false} WindowAligned(g: Geometry, b: nat)
    requires g.Ok()
    ensures Window(g, b) % g.rdbufsize == 0 && Window(g, b) <= b && Covers(g, Window(g, b), b)
  {
    var d := g.rdbufsize;
    assert b == b / d * d + b % d;
    DivModUnique(b / d, 0, d);
  }

  /** Two chunks of a well shaped list cover no common block. */
  lemma {:induction false} OneCover(g: Geometry, bufs: seq<Buf>, i: nat, j: nat, b: nat)
    requires g.Ok() && Shape(g, bufs)
    requires i < |bufs| && j < |bufs|
    requires Covers(g, bufs[i].start, b) && Covers(g, bufs[j].start, b)
    ensures i == j
  {
    CoversIffWindow(g, bufs[i].start, b);
    CoversIffWindow(g, bufs[j].start, b);
  }

  // ---- what each step on the list keeps ------------------------------------------------

  function MoveToFront<T>(s: seq<T>, i: nat): (r: seq<T>)
    requires i < |s|
    ensures |r| == |s|
  {
    [s[i]] + s[..i] + s[i + 1..]
  }

  /** Where position k of the reordered list came from. */
  function FrontSource(i: nat, k: nat): nat {
    if k == 0 then i else if k <= i then k - 1 else k
  }

  lemma {:induction false} TouchAgrees(g: Geometry, bufs: seq<Buf>, i: nat, dev: seq<Block>, mem: Memory)
    requires Agrees(g, bufs, dev, mem) && i < |bufs|
    ensures Agrees(g, MoveToFront(bufs, i), dev, mem)
  {
    var r := MoveToFront(bufs, i);
    assert forall k :: 0 <= k < |r| ==> r[k] == bufs[FrontSource(i, k)];
    forall b | 0 <= b < g.numBlocks && !Cached(g, r, b)
      ensures Holds(dev[b], mem[b])
    {
      forall k | 0 <= k < |bufs|
        ensures !Covers(g, bufs[k].start, b)
      {
        var k' := if k == i then 0 else if k < i then k + 1 else k;
        assert r[k'] == bufs[k];
      }
    }
  }

  /** A write-back, complete or failed half way, is invisible: the dirty chunk still shadows its window. */
  lemma {:induction false} WriteBackAgrees(g: Geometry, bufs: seq<Buf>, i: nat, dev: seq<Block>, dev': seq<Block>,
                                           mem: Memory)
    requires Agrees(g, bufs, dev, mem) && i < |bufs| && bufs[i].dirty
    requires Sized(dev', g.numBlocks, g.blockSize)
    requires forall b :: 0 <= b < g.numBlocks && !Covers(g, bufs[i].start, b) ==> dev'[b] == dev[b]
    ensures Agrees(g, bufs, dev', mem)
  {
    forall j | 0 <= j < |bufs|
      ensures BufAgrees(g, bufs[j], dev', mem)
    {
      forall b | 0 <= b < g.numBlocks && Covers(g, bufs[j].start, b)
        ensures Holds(bufs[j].data[b - bufs[j].start], mem[b]) && (bufs[j].dirty || Holds(dev'[b], mem[b]))
      {
        assert BufAgrees(g, bufs[j], dev, mem);
        if j != i && Covers(g, bufs[i].start, b) {
          OneCover(g, bufs, i, j, b);
        }
      }
    }
    forall b | 0 <= b < g.numBlocks && !Cached(g, bufs, b)
      ensures Holds(dev'[b], mem[b])
    {
      assert !Covers(g, bufs[i].start, b);
    }
  }

  /** Clearing the dirty flag is right once the device holds the chunk. */
  lemma {:induction false} CleanAgrees(g: Geometry, bufs: seq<Buf>, i: nat, dev: seq<Block>, mem: Memory)
    requires Agrees(g, bufs, dev, mem) && i < |bufs|
    requires forall b :: 0 <= b < g.numBlocks && Covers(g, bufs[i].start, b) ==>
             dev[b] == bufs[i].data[b - bufs[i].start]
    ensures Agrees(g, bufs[i := bufs[i].(dirty := false)], dev, mem)
  {
    var r := bufs[i := bufs[i].(dirty := false)];
    assert BufAgrees(g, bufs[i], dev, mem);
    forall b | 0 <= b < g.numBlocks && !Cached(g, r, b)
      ensures Holds(dev[b], mem[b])
    {
      forall k | 0 <= k < |bufs|
        ensures !Covers(g, bufs[k].start, b)
      {
        assert r[k].start == bufs[k].start;
      }
    }
  }

  /** A clean chunk may leave the cache. */
  lemma {:induction false} DropAgrees(g: Geometry, bufs: seq<Buf>, i: nat, dev: seq<Block>, mem: Memory)
    requires Agrees(g, bufs, dev, mem) && i < |bufs| && !bufs[i].dirty
    ensures Agrees(g, RemoveAt(bufs, i), dev, mem)
  {
    var r := RemoveAt(bufs, i);
    assert forall k :: 0 <= k < |r| ==> r[k] == bufs[if k < i then k else k + 1];
    forall b | 0 <= b < g.numBlocks && !Cached(g, r, b)
      ensures Holds(dev[b], mem[b])
    {
      if Covers(g, bufs[i].start, b) {
        assert BufAgrees(g, bufs[i], dev, mem);
      } else {
        forall k | 0 <= k < |bufs|
          ensures !Covers(g, bufs[k].start, b)
        {
          if k != i {
            assert r[if k < i then k else k - 1] == bufs[k];
          }
        }
      }
    }
  }

  /** A freshly loaded chunk satisfies the memory when it holds what the device holds or when nothing is known there. */
  lemma {:induction false} LoadAgrees(g: Geometry, bufs: seq<Buf>, c: Buf, dev: seq<Block>, mem: Memory)
    requires Agrees(g, bufs, dev, mem)
    requires AlignedStart(g, c.start) && Sized(c.data, g.rdbufsize, g.blockSize)
    requires forall i :: 0 <= i < |bufs| ==> bufs[i].start != c.start
    requires forall b :: 0 <= b < g.numBlocks && Covers(g, c.start, b) ==> Holds(c.data[b - c.start], mem[b])
    ensures Agrees(g, [c] + bufs, dev, mem)
  {
    var r := [c] + bufs;
    assert forall k :: 1 <= k < |r| ==> r[k] == bufs[k - 1];
    forall b | 0 <= b < g.numBlocks && Covers(g, c.start, b)
      ensures Holds(c.data[b - c.start], mem[b]) && (c.dirty || Holds(dev[b], mem[b]))
    {
      CoversIffWindow(g, c.start, b);
      forall k | 0 <= k < |bufs|
        ensures !Covers(g, bufs[k].start, b)
      {
        CoversIffWindow(g, bufs[k].start, b);
      }
    }
    forall b | 0 <= b < g.numBlocks && !Cached(g, r, b)
      ensures Holds(dev[b], mem[b])
    {
      forall k | 0 <= k < |bufs|
        ensures !Covers(g, bufs[k].start, b)
      {
        assert r[k + 1] == bufs[k];
      }
    }
  }

  /** Overwriting one block in a chunk that becomes dirty. */
  lemma {:induction false} PutAgrees(g: Geometry, bufs: seq<Buf>, i: nat, b: nat, blk: Block, cells: seq<Cell>,
                                     dev: seq<Block>, mem: Memory)
    requires Agrees(g, bufs, dev, mem) && i < |bufs| && b < g.numBlocks && Covers(g, bufs[i].start, b)
    requires |cells| == g.blockSize && Holds(blk, cells)
    ensures Agrees(g, bufs[i := Buf(bufs[i].start, true, bufs[i].data[b - bufs[i].start := blk])], dev, mem[b := cells])
  {
    var c := Buf(bufs[i].start, true, bufs[i].data[b - bufs[i].start := blk]);
    var r := bufs[i := c];
    var mem' := mem[b := cells];
    forall j | 0 <= j < |r|
      ensures BufAgrees(g, r[j], dev, mem')
    {
      assert BufAgrees(g, bufs[j], dev, mem);
      if j != i && Covers(g, bufs[j].start, b) {
        OneCover(g, bufs, i, j, b);
      }
    }
    forall b' | 0 <= b' < g.numBlocks && !Cached(g, r, b')
      ensures Holds(dev[b'], mem'[b'])
    {
      assert !Covers(g, r[i].start, b');
      forall k | 0 <= k < |bufs|
        ensures !Covers(g, bufs[k].start, b')
      {
        assert r[k].start == bufs[k].start;
      }
    }
  }

  /** Knowing less never hurts. */
  predicate Weaker(mem: Memory, mem': Memory) {
    && |mem'| == |mem|
    && (forall b :: 0 <= b < |mem| ==> |mem'[b]| == |mem[b]|)
    && (forall b, r :: 0 <= b < |mem| && 0 <= r < |mem[b]| ==> mem'[b][r] == mem[b][r] || mem'[b][r] == Any)
  }

  lemma {:induction false} WeakerHolds(mem: Memory, mem': Memory, b: nat, bytes: seq<byte>)
    requires Weaker(mem, mem') && b < |mem| && Holds(bytes, mem[b])
    ensures Holds(bytes, mem'[b])
  {
  }

  lemma {:induction false} WeakenAgrees(g: Geometry, bufs: seq<Buf>, dev: seq<Block>, mem: Memory, mem': Memory)
    requires Agrees(g, bufs, dev, mem) && Weaker(mem, mem')
    ensures Agrees(g, bufs, dev, mem')
  {
    forall j | 0 <= j < |bufs|
      ensures BufAgrees(g, bufs[j], dev, mem')
    {
      assert BufAgrees(g, bufs[j], dev, mem);
      forall b | 0 <= b < g.numBlocks && Covers(g, bufs[j].start, b)
        ensures Holds(bufs[j].data[b - bufs[j].start], mem'[b]) && (bufs[j].dirty || Holds(dev[b], mem'[b]))
      {
        WeakerHolds(mem, mem', b, bufs[j].data[b - bufs[j].start]);
        if !bufs[j].dirty {
          WeakerHolds(mem, mem', b, dev[b]);
        }
      }
    }
    forall b | 0 <= b < g.numBlocks && !Cached(g, bufs, b)
      ensures Holds(dev[b], mem'[b])
    {
      WeakerHolds(mem, mem', b, dev[b]);
    }
  }

  /** The memory after an erase: the range holds whatever the device left there. */
  function Refresh(mem: Memory, dev: seq<Block>, lo: nat, count: nat): (r: Memory)
    requires |dev| == |mem|
    ensures |r| == |mem|
    ensures forall b :: 0 <= b < |mem| ==> r[b] == if lo <= b < lo + count then Exactly(dev)[b] else mem[b]
  {
    seq(|mem|, b requires 0 <= b < |mem| => if lo <= b < lo + count then Exactly(dev)[b] else mem[b])
  }

  /** An erase below uncached blocks. */
  lemma {:induction false} EraseAgrees(g: Geometry, bufs: seq<Buf>, dev: seq<Block>, dev': seq<Block>, mem: Memory,
                                       lo: nat, count: nat)
    requires Agrees(g, bufs, dev, mem)
    requires Sized(dev', g.numBlocks, g.blockSize)
    requires forall b :: 0 <= b < g.numBlocks && !(lo <= b < lo + count) ==> dev'[b] == dev[b]
    requires forall i, b: nat :: 0 <= i < |bufs| && Covers(g, bufs[i].start, b) ==> !(lo <= b < lo + count)
    ensures Agrees(g, bufs, dev', Refresh(mem, dev', lo, count))
  {
    var mem' := Refresh(mem, dev', lo, count);
    assert Sized(mem', g.numBlocks, g.blockSize);
    forall j | 0 <= j < |bufs|
      ensures BufAgrees(g, bufs[j], dev', mem')
    {
      assert BufAgrees(g, bufs[j], dev, mem);
    }
  }

  // ---- forgetting ----------------------------------------------------------------------

  function Blank(n: nat): seq<Cell> {
    seq(n, _ => Any)
  }

  /** The memory with blocks lo .. lo+count-1 unspecified. */
  function Forget(mem: Memory, lo: nat, count: nat): (r: Memory)
    ensures Weaker(mem, r)
    ensures forall b :: 0 <= b < |mem| && !(lo <= b < lo + count) ==> r[b] == mem[b]
  {
    seq(|mem|, b requires 0 <= b < |mem| => if lo <= b < lo + count then Blank(|mem[b]|) else mem[b])
  }

  predicate BlankWindow(g: Geometry, mem: Memory, w: nat) {
    forall b :: 0 <= b < |mem| && Covers(g, w, b) ==> mem[b] == Blank(|mem[b]|)
  }

  lemma {:induction false} ForgetBlank(g: Geometry, mem: Memory, w: nat)
    requires BlankWindow(g, mem, w)
    ensures Forget(mem, w, g.rdbufsize) == mem
  {
    var r := Forget(mem, w, g.rdbufsize);
    forall b | 0 <= b < |mem|
      ensures r[b] == mem[b]
    {
      if Covers(g, w, b) {
        assert mem[b] == Blank(|mem[b]|);
      }
    }
  }

  // ---- the discarded range ---------------------------------------------------------------

  /** The existing part of window w lies inside the discarded byte range, so it is loaded as zeros. */
  predicate Discarded(g: Geometry, discardStart: nat, discardSize: nat, w: nat) {
    && w < g.numBlocks
    && w * g.blockSize >= discardStart
    && (w + IoBlocks(g, w)) * g.blockSize <= discardStart + discardSize
  }

  lemma {:induction false} NothingDiscarded(g: Geometry, w: nat)
    requires g.Ok()
    ensures !Discarded(g, 0, 0, w)
  {
    if w < g.numBlocks {
      var e := w + IoBlocks(g, w);
      MulStep(0, e, g.blockSize);
    }
  }

  /** Only cells of fully discarded windows were forgotten. */
  predicate OnlyForgets(g: Geometry, discardStart: nat, discardSize: nat, mem: Memory, mem': Memory)
    requires g.Ok()
  {
    && Weaker(mem, mem')
    && (forall b :: 0 <= b < |mem| && !Discarded(g, discardStart, discardSize, Window(g, b)) ==> mem'[b] == mem[b])
  }

  lemma {:induction false} WindowMonotone(g: Geometry, b: nat, b': nat)
    requires g.Ok() && b <= b'
    ensures Window(g, b) <= Window(g, b')
  {
    WindowAligned(g, b);
    WindowAligned(g, b');
    if Window(g, b') < Window(g, b) {
      CoversIffWindow(g, Window(g, b'), b);
    }
  }

  /** The memory that knows every byte of the blocks. */
  function Exactly(blocks: seq<Block>): (mem: Memory)
    ensures |mem| == |blocks|
    ensures forall b :: 0 <= b < |blocks| ==> |mem[b]| == |blocks[b]| && Holds(blocks[b], mem[b])
  {
    seq(|blocks|, b requires 0 <= b < |blocks| =>
      seq(|blocks[b]|, r requires 0 <= r < |blocks[b]| => Known(blocks[b][r])))
  }

  /**
   Block addresses from f on are untouched since the discard: every discarded window from f
   on is blank, or is f itself and heads the list of cached windows.
   */
  predicate Frontier(g: Geometry, discardStart: nat, discardSize: nat, mem: Memory, windows: seq<nat>, f: nat)
    requires g.Ok()
  {
    forall w :: f <= w < g.numBlocks && Discarded(g, discardStart, discardSize, w) && w % g.rdbufsize == 0 ==>
                  BlankWindow(g, mem, w) || (w == f && |windows| > 0 && windows[0] == f)
  }

  /** What looking up window w does to the memory. */
  function Fetched(g: Geometry, discardStart: nat, discardSize: nat, mem: Memory, hit: bool, w: nat): (r: Memory)
    requires g.Ok() && |mem| == g.numBlocks
    ensures Weaker(mem, r)
  {
    if !hit && Discarded(g, discardStart, discardSize, w) then Forget(mem, w, g.rdbufsize) else mem
  }

  lemma {:induction false} FetchOnlyForgets(g: Geometry, discardStart: nat, discardSize: nat, mem: Memory, hit: bool,
                                            w: nat)
    requires g.Ok() && |mem| == g.numBlocks && w % g.rdbufsize == 0
    ensures OnlyForgets(g, discardStart, discardSize, mem, Fetched(g, discardStart, discardSize, mem, hit, w))
  {
    if !hit && Discarded(g, discardStart, discardSize, w) {
      forall b | 0 <= b < |mem| && !Discarded(g, discardStart, discardSize, Window(g, b))
        ensures Forget(mem, w, g.rdbufsize)[b] == mem[b]
      {
        CoversIffWindow(g, w, b);
      }
    }
  }

  /** Visiting windows in ascending order never forgets anything that matters. */
  lemma {:induction false} FrontierFetch(g: Geometry, discardStart: nat, discardSize: nat, mem: Memory,
                                         windows: seq<nat>, windows': seq<nat>, f: nat, w: nat)
    requires g.Ok() && |mem| == g.numBlocks && w % g.rdbufsize == 0
    requires Frontier(g, discardStart, discardSize, mem, windows, f) && f <= w
    requires |windows'| > 0 && windows'[0] == w
    ensures Fetched(g, discardStart, discardSize, mem, w in windows, w) == mem
    ensures Frontier(g, discardStart, discardSize, mem, windows', w)
  {
    if w !in windows && Discarded(g, discardStart, discardSize, w) {
      ForgetBlank(g, mem, w);
    }
  }

  /** The memory when a discard begins: every fully discarded window is unspecified. */
  function DiscardMem(g: Geometry, discardStart: nat, discardSize: nat, mem: Memory): (r: Memory)
    requires g.Ok()
    ensures Weaker(mem, r)
  {
    seq(|mem|, b requires 0 <= b < |mem| =>
      if Discarded(g, discardStart, discardSize, Window(g, b)) then Blank(|mem[b]|) else mem[b])
  }

  lemma {:induction false} DiscardIsFrontier(g: Geometry, discardStart: nat, discardSize: nat, mem: Memory,
                                             windows: seq<nat>)
    requires g.Ok()
    ensures Frontier(g, discardStart, discardSize, DiscardMem(g, discardStart, discardSize, mem), windows, 0)
  {
    var r := DiscardMem(g, discardStart, discardSize, mem);
    forall w: nat, b: nat | Discarded(g, discardStart, discardSize, w) && w % g.rdbufsize == 0 && b < |r|
      && Covers(g, w, b)
      ensures r[b] == Blank(|r[b]|)
    {
      CoversIffWindow(g, w, b);
    }
  }
}
