/** Coming back to a window of the discarded range: when its bytes are still there, and when they read as zeros. */
module BlockDiscard {
  import opened Bytes
  import opened Seqs
  import opened BlockModel
  import opened FlatMemory
  import opened WorkingSet
  import opened BlockCache
  import opened BlockRuns

  /** A read or write of at least one byte, inside the device. */
  predicate Touching(g: Geometry, op: Op)
    requires g.Ok()
  {
    match op
    case ReadOp(count, offset) => count > 0 && InRange(g, offset, count)
    case WriteOp(buf, offset) => |buf| > 0 && InRange(g, offset, |buf|)
    case _ => false
  }

  /** The windows the operations visit. */
  function Touched(g: Geometry, ops: seq<Op>): set<nat>
    requires g.Ok()
  {
    if ops == [] then {} else Touched(g, ops[..|ops| - 1]) + OpWindows(g, ops[|ops| - 1])
  }

  lemma {:induction false} RangeExact(g: Geometry, offset: nat, count: nat)
    requires g.Ok() && count > 0
    ensures BlockOf(g, offset) <= LastBlock(g, offset, count)
    ensures ToSet(BlockWindows(g, BlockOf(g, offset), LastBlock(g, offset, count) + 1 - BlockOf(g, offset)))
         == RangeWindows(g, offset, count)
  {
    FirstBehind(g, offset, count);
    var first, n := BlockOf(g, offset), LastBlock(g, offset, count) + 1 - BlockOf(g, offset);
    hide BlockOf, LastBlock, Window;
    BlocksExact(g, first, n);
  }

  lemma {:induction false} BlocksExact(g: Geometry, first: nat, n: nat)
    requires g.Ok()
    ensures ToSet(BlockWindows(g, first, n)) == set b: nat | first <= b < first + n :: Window(g, b)
  {
    hide Window;
    if n > 0 {
      BlocksExact(g, first, n - 1);
      var ws, w := BlockWindows(g, first, n - 1), Window(g, first + n - 1);
      assert ToSet(ws + [w]) == ToSet(ws) + {w};
      assert (set b: nat | first <= b < first + n :: Window(g, b))
          == (set b: nat | first <= b < first + n - 1 :: Window(g, b)) + {w};
    }
  }

  lemma {:induction false} VisitAppend(g: Geometry, s0: Status, s: Status, ws: seq<nat>, more: seq<nat>)
    requires g.Ok() && |s0.lists.windows| + s0.lists.free > 0
    requires s.discardStart == s0.discardStart && s.discardSize == s0.discardSize && s.lists == VisitAll(g, s0, ws)
    ensures |s.lists.windows| + s.lists.free > 0 && VisitAll(g, s, more) == VisitAll(g, s0, ws + more)
    decreases |more|
  {
    hide Discarded, Visit;
    if more == [] {
      assert ws + more == ws;
    } else {
      var n := |more| - 1;
      VisitAppend(g, s0, s, ws, more[..n]);
      assert (ws + more)[..|ws + more| - 1] == ws + more[..n];
    }
  }

  /** One operation visits exactly its windows, and leaves the memory of all others alone. */
  method VisitOne(blk: BlockDevice, op: Op) returns (ghost ws: seq<nat>)
    requires blk.Valid() && blk.dev.reliable && Touching(blk.g, op)
    modifies blk.Repr
    ensures blk.Valid() && blk.discardStart == old(blk.discardStart) && blk.discardSize == old(blk.discardSize)
    ensures |old(blk.Lists()).windows| + old(blk.Lists()).free > 0 && blk.Lists() == VisitAll(blk.g, old(blk.Now()), ws)
    ensures Spared(blk.g, old(blk.mem), blk.mem, ws) && ToSet(ws) == OpWindows(blk.g, op)
  {
    hide BlockDevice.Valid, VisitAll, Spared, Reading, Progress, Lookup, LookAll, InRange, BlockOf, LastBlock, ToSet,
         RangeWindows, BlockWindows;
    ghost var g := blk.g;
    blk.Facts();
    match op
    case ReadOp(count, offset) =>
      RangeExact(g, offset, count);
      var ret, _, e := blk.Read(count, offset);
      ws := BlockWindows(g, BlockOf(g, offset), e - BlockOf(g, offset));
    case WriteOp(buf, offset) =>
      RangeExact(g, offset, |buf|);
      var ret, _, e, _ := blk.Write(buf, offset, 0);
      ws := BlockWindows(g, BlockOf(g, offset), e - BlockOf(g, offset));
  }

  method VisitOps(blk: BlockDevice, ops: seq<Op>) returns (ghost ws: seq<nat>)
    requires blk.Valid() && blk.dev.reliable && forall op :: op in ops ==> Touching(blk.g, op)
    modifies blk.Repr
    ensures blk.Valid() && blk.discardStart == old(blk.discardStart) && blk.discardSize == old(blk.discardSize)
    ensures |old(blk.Lists()).windows| + old(blk.Lists()).free > 0 && blk.Lists() == VisitAll(blk.g, old(blk.Now()), ws)
    ensures Spared(blk.g, old(blk.mem), blk.mem, ws) && ToSet(ws) == Touched(blk.g, ops)
  {
    hide BlockDevice.Valid, Touching, OpWindows;
    ghost var g, s0 := blk.g, blk.Now();
    blk.Facts();
    ws := [];
    assert ops[..0] == [];
    for i := 0 to |ops|
      invariant blk.Valid() && blk.discardStart == s0.discardStart && blk.discardSize == s0.discardSize
      invariant blk.Lists() == VisitAll(g, s0, ws) && Spared(g, s0.mem, blk.mem, ws)
                && ToSet(ws) == Touched(g, ops[..i])
    {
      blk.Facts();
      ghost var s := blk.Now();
      var more := VisitOne(blk, ops[i]);
      VisitAppend(g, s0, s, ws, more);
      assert ops[..i + 1][..i] == ops[..i];
      assert ToSet(ws + more) == ToSet(ws) + ToSet(more);
      ws := ws + more;
    }
    assert ops[..|ops|] == ops;
  }

  /** Some byte of the range is known and not zero. */
  predicate Marked(g: Geometry, mem: Memory, offset: nat, count: nat)
    requires g.Ok() && Sized(mem, g.numBlocks, g.blockSize) && offset + count <= g.numBlocks * g.blockSize
  {
    exists p :: offset <= p < offset + count && CellAt(g, mem, p).Known? && CellAt(g, mem, p).value != 0
  }

  lemma {:induction false} ZerosAreWrong(g: Geometry, mem: Memory, offset: nat, count: nat)
    requires g.Ok() && Sized(mem, g.numBlocks, g.blockSize) && offset + count <= g.numBlocks * g.blockSize
    requires Marked(g, mem, offset, count)
    ensures !ReadOk(g, mem, offset, ZeroBytes(count))
  {
    hide CellAt, ReadRowOk, ZeroBytes, Sized;
    var p :| offset <= p < offset + count && CellAt(g, mem, p).Known? && CellAt(g, mem, p).value != 0;
    var b, r := Place(g, mem, p);
    WrongAt(mem[b], b * g.blockSize, offset, count, r);
  }

  lemma {:induction false} Place(g: Geometry, mem: Memory, p: nat) returns (b: nat, r: nat)
    requires g.Ok() && Sized(mem, g.numBlocks, g.blockSize) && p < g.numBlocks * g.blockSize
    ensures b < |mem| && r < |mem[b]| && b * g.blockSize + r == p && mem[b][r] == CellAt(g, mem, p)
  {
    Locate(g, p);
    b, r := p / g.blockSize, p % g.blockSize;
  }

  lemma {:induction false} WrongAt(row: seq<Cell>, base: nat, offset: nat, count: nat, r: nat)
    requires r < |row| && offset <= base + r < offset + count && row[r].Known? && row[r].value != 0
    ensures !ReadRowOk(row, base, offset, ZeroBytes(count))
  {
    assert ZeroBytes(count)[base + r - offset] == 0;
  }

  /** The range lies inside one window. */
  predicate InWindow(g: Geometry, offset: nat, count: nat)
    requires g.Ok()
  {
    count > 0 && Window(g, LastBlock(g, offset, count)) == Window(g, BlockOf(g, offset))
  }

  /** Its blocks are all in that window. */
  lemma {:induction false} WindowOf(g: Geometry, offset: nat, count: nat, b: nat)
    requires g.Ok() && InWindow(g, offset, count) && BlockOf(g, offset) <= b <= LastBlock(g, offset, count)
    ensures Window(g, b) == Window(g, BlockOf(g, offset))
  {
    WindowMonotone(g, BlockOf(g, offset), b);
    WindowMonotone(g, b, LastBlock(g, offset, count));
  }

  /** Only the blocks of a range say what a read of it may give. */
  lemma {:induction false} RangeRows(g: Geometry, mem: Memory, mem': Memory, offset: nat, data: seq<byte>)
    requires g.Ok() && |mem| == |mem'| == g.numBlocks && Sized(mem, g.numBlocks, g.blockSize) && |data| > 0
    requires forall b :: 0 <= b < |mem| && BlockOf(g, offset) <= b <= LastBlock(g, offset, |data|) ==> mem[b] == mem'[b]
    requires ReadOk(g, mem', offset, data)
    ensures ReadOk(g, mem, offset, data)
  {
    var first, last := BlockOf(g, offset), LastBlock(g, offset, |data|);
    assert first * g.blockSize <= offset;
    assert offset + |data| - 1 == last * g.blockSize + (offset + |data| - 1) % g.blockSize;
    hide BlockOf, LastBlock;
    forall b | 0 <= b < |mem|
      ensures ReadRowOk(mem[b], b * g.blockSize, offset, data)
    {
      if first <= b <= last {
        assert ReadRowOk(mem'[b], b * g.blockSize, offset, data);
      } else if b < first {
        BlockOrder(g, b, first);
      } else {
        BlockOrder(g, last, b);
      }
    }
  }

  /** Looking up blocks of a cached window changes nothing in memory. */
  lemma {:induction false} LookHits(g: Geometry, s: Status, w: nat, ws: seq<nat>)
    requires g.Ok() && |s.mem| == g.numBlocks && w in s.lists.windows && forall k :: 0 <= k < |ws| ==> ws[k] == w
    ensures LookAll(g, s, ws).mem == s.mem && w in LookAll(g, s, ws).lists.windows
    decreases |ws|
  {
    if ws != [] {
      var n := |ws| - 1;
      LookHits(g, s, w, ws[..n]);
      HitStays(LookAll(g, s, ws[..n]).lists, w);
      hide Discarded, Access;
    }
  }

  lemma {:induction false} HitStays(l: Lru, w: nat)
    requires w in l.windows
    ensures w in Access(l, w).windows
  {
    assert Access(l, w).windows[0] == w;
  }

  lemma {:induction false} WindowsOf(g: Geometry, offset: nat, count: nat, n: nat)
    requires g.Ok() && InWindow(g, offset, count) && BlockOf(g, offset) + n <= LastBlock(g, offset, count) + 1
    ensures var ws := BlockWindows(g, BlockOf(g, offset), n);
            |ws| == n && forall k :: 0 <= k < n ==> ws[k] == Window(g, BlockOf(g, offset))
  {
    if n > 0 {
      WindowsOf(g, offset, count, n - 1);
      WindowOf(g, offset, count, BlockOf(g, offset) + n - 1);
    }
  }

  /** Reading in a cached window that was spared gives what its memory held. */
  lemma {:induction false} HitKeeps(g: Geometry, s0: Status, s: Status, s': Status, ws: seq<nat>, offset: nat,
                                    data: seq<byte>)
    requires g.Ok() && Sized(s0.mem, g.numBlocks, g.blockSize) && InWindow(g, offset, |data|)
    requires |s.mem| == |s0.mem| == g.numBlocks && Spared(g, s0.mem, s.mem, ws)
    requires Window(g, BlockOf(g, offset)) !in ws && Window(g, BlockOf(g, offset)) in s.lists.windows
    requires LookedOnly(g, s, s', BlockOf(g, offset), LastBlock(g, offset, |data|) + 1)
    requires ReadOk(g, s'.mem, offset, data)
    ensures ReadOk(g, s0.mem, offset, data)
  {
    var first, last := BlockOf(g, offset), LastBlock(g, offset, |data|);
    WindowsOf(g, offset, |data|, last + 1 - first);
    LookHits(g, s, Window(g, first), BlockWindows(g, first, last + 1 - first));
    forall b | 0 <= b < |s0.mem| && first <= b <= last
      ensures s0.mem[b] == s'.mem[b]
    {
      WindowOf(g, offset, |data|, b);
    }
    hide *;
    RangeRows(g, s0.mem, s'.mem, offset, data);
  }

  /** What a read inside one window gives, by whether the window was cached. */
  lemma {:induction false} ReadBack(g: Geometry, s0: Status, s: Status, s': Status, ws: seq<nat>, offset: nat,
                                    data: seq<byte>)
    requires g.Ok() && Sized(s0.mem, g.numBlocks, g.blockSize) && |s0.mem| == g.numBlocks
    requires |s.mem| == g.numBlocks && |s.lists.windows| + s.lists.free > 0 && Spared(g, s0.mem, s.mem, ws)
    requires InWindow(g, offset, |data|) && Window(g, BlockOf(g, offset)) !in ws
    requires Discarded(g, s.discardStart, s.discardSize, Window(g, BlockOf(g, offset)))
    requires LookedOnly(g, s, s', BlockOf(g, offset), LastBlock(g, offset, |data|) + 1)
    requires ReadOk(g, s'.mem, offset, data) && (ColdRange(g, s, offset, |data|) ==> Zeros(data))
    ensures Window(g, BlockOf(g, offset)) in s.lists.windows ==> ReadOk(g, s0.mem, offset, data)
    ensures Window(g, BlockOf(g, offset)) !in s.lists.windows ==> data == ZeroBytes(|data|)
  {
    if Window(g, BlockOf(g, offset)) in s.lists.windows {
      hide *;
      HitKeeps(g, s0, s, s', ws, offset, data);
    }
  }

  /**
   A window of the discarded range that is at the head of the list, some operations on other windows, and a read
   inside it: the read gives what memory held if fewer than eight other windows were visited, and zeros
   otherwise; so with a byte that is not zero it is right exactly in the first case.
   */
  method Revisit(blk: BlockDevice, ops: seq<Op>, count: nat, offset: nat) returns (data: seq<byte>)
    requires blk.Valid() && blk.dev.reliable && InRange(blk.g, offset, count) && InWindow(blk.g, offset, count)
    requires |blk.bufs| > 0 && blk.bufs[0].start == Window(blk.g, BlockOf(blk.g, offset))
    requires Discarded(blk.g, blk.discardStart, blk.discardSize, Window(blk.g, BlockOf(blk.g, offset)))
    requires forall op :: op in ops ==> Touching(blk.g, op)
    requires Window(blk.g, BlockOf(blk.g, offset)) !in Touched(blk.g, ops)
    modifies blk.Repr
    ensures blk.Valid() && |data| == count
    ensures |Touched(blk.g, ops)| < CHUNKS ==> ReadOk(blk.g, old(blk.mem), offset, data)
    ensures |Touched(blk.g, ops)| >= CHUNKS ==> data == ZeroBytes(count)
    ensures Sized(old(blk.mem), blk.g.numBlocks, blk.g.blockSize) && offset + count <= blk.g.numBlocks * blk.g.blockSize
    ensures Marked(blk.g, old(blk.mem), offset, count) ==>
              (ReadOk(blk.g, old(blk.mem), offset, data) <==> |Touched(blk.g, ops)| < CHUNKS)
  {
    hide *;
    blk.Facts();
    ghost var g, s0, w := blk.g, blk.Now(), Window(blk.g, BlockOf(blk.g, offset));
    AtHead(blk, w);
    var ws := VisitOps(blk, ops);
    ghost var s := blk.Now();
    blk.Facts();
    Still(g, s0, s.lists, w, ws);
    Fits(g, offset, count);
    var ret, buf, end := blk.Read(count, offset);
    data := buf;
    ReadIs(g, s, blk.Now(), offset, buf);
    ReadBack(g, s0, s, blk.Now(), ws, offset, data);
    if Marked(g, s0.mem, offset, count) {
      ZerosAreWrong(g, s0.mem, offset, count);
    }
  }

  lemma {:induction false} AtHead(blk: BlockDevice, w: nat)
    requires blk.Valid() && |blk.bufs| > 0 && blk.bufs[0].start == w
    ensures Distinct(blk.Now().lists.windows) && |blk.Now().lists.windows| + blk.Now().lists.free == CHUNKS
    ensures |blk.Now().lists.windows| > 0 && blk.Now().lists.windows[0] == w
  {
    blk.Listing();
    hide BlockDevice.Valid, Distinct;
  }

  lemma {:induction false} Still(g: Geometry, s: Status, l: Lru, w: nat, ws: seq<nat>)
    requires g.Ok() && Distinct(s.lists.windows) && |s.lists.windows| + s.lists.free == CHUNKS
    requires |s.lists.windows| > 0 && s.lists.windows[0] == w && w !in ToSet(ws) && l == VisitAll(g, s, ws)
    ensures w !in ws && (w in l.windows <==> |ToSet(ws)| < CHUNKS)
  {
    assert w in ws ==> w in ToSet(ws);
    hide ToSet, Distinct, AccessAll, VisitAll;
    VisitIsAccess(g, s, ws);
    StaysExactly(s.lists, w, ws, CHUNKS);
  }

  lemma {:induction false} ReadIs(g: Geometry, s: Status, s': Status, offset: nat, buf: seq<byte>)
    requires g.Ok() && Reading(g, s, s', offset, buf)
    ensures ReadOk(g, s'.mem, offset, buf)
  {
  }

  lemma {:induction false} Fits(g: Geometry, offset: nat, count: nat)
    requires g.Ok() && InWindow(g, offset, count) && InRange(g, offset, count)
    ensures count > 0 && offset + count <= g.numBlocks * g.blockSize
    ensures BlockOf(g, offset) <= LastBlock(g, offset, count)
    ensures Window(g, LastBlock(g, offset, count)) == Window(g, BlockOf(g, offset))
  {
    FirstBehind(g, offset, count);
  }

  /** A write inside one discarded window, right after the discard, is in memory and brings the window to the head. */
  method DiscardWrite(blk: BlockDevice, size: nat, start: nat, buf: seq<byte>, offset: nat)
    requires blk.Valid() && blk.dev.reliable && InRange(blk.g, offset, |buf|) && InWindow(blk.g, offset, |buf|)
    modifies blk.Repr
    ensures blk.Valid() && blk.discardStart == start && blk.discardSize == size
    ensures blk.mem == WriteMem(blk.g, DiscardMem(blk.g, start, size, old(blk.mem)), offset, buf)
    ensures |blk.bufs| > 0 && blk.bufs[0].start == Window(blk.g, BlockOf(blk.g, offset))
  {
    hide *;
    blk.Facts();
    blk.DiscardRange(size, start);
    ghost var g, s, w := blk.g, blk.Now(), Window(blk.g, BlockOf(blk.g, offset));
    blk.Facts();
    Fits(g, offset, |buf|);
    var ret, done, end, f := blk.Write(buf, offset, 0);
    assert buf[..done] == buf;
    WrittenIs(g, s, blk.Now(), offset, buf, f);
    HeadIs(g, s, blk.Now(), BlockOf(g, offset), LastBlock(g, offset, |buf|));
    blk.Facts();
    blk.Listing();
    StartsAt(blk.bufs, w);
  }

  lemma {:induction false} WrittenIs(g: Geometry, s: Status, s': Status, offset: nat, buf: seq<byte>, f: nat)
    requires g.Ok() && Progress(g, s, s', offset, buf, true, f)
    ensures s'.mem == WriteMem(g, s.mem, offset, buf)
    ensures s'.discardStart == s.discardStart && s'.discardSize == s.discardSize
  {
    hide WriteMem;
  }

  lemma {:induction false} HeadIs(g: Geometry, s: Status, s': Status, first: nat, last: nat)
    requires g.Ok() && |s.lists.windows| + s.lists.free > 0 && first <= last && LookedUp(g, s, s', first, last + 1)
    ensures |s'.lists.windows| > 0 && s'.lists.windows[0] == Window(g, last)
  {
    hide Window, Discarded, Spared;
    var ws, w := BlockWindows(g, first, last - first), Window(g, last);
    assert BlockWindows(g, first, last + 1 - first) == ws + [w];
    VisitNext(g, s, ws, w);
    assert Access(VisitAll(g, s, ws), w).windows[0] == w;
  }

  lemma {:induction false} StartsAt(bufs: seq<Buf>, w: nat)
    requires |Starts(bufs)| > 0 && Starts(bufs)[0] == w
    ensures |bufs| > 0 && bufs[0].start == w
  {
  }

  lemma {:induction false} DiscardSized(g: Geometry, start: nat, size: nat, mem: Memory)
    requires g.Ok() && Sized(mem, g.numBlocks, g.blockSize)
    ensures Sized(DiscardMem(g, start, size, mem), g.numBlocks, g.blockSize)
  {
    hide Discarded, Window;
  }

  /**
   Discard a range, write into one of its windows, work on other windows, read back: the bytes come back exactly
   if fewer than eight other windows were visited, or if they are all zero.
   */
  method DiscardWriteRead(blk: BlockDevice, size: nat, start: nat, buf: seq<byte>, offset: nat, ops: seq<Op>)
    returns (data: seq<byte>)
    requires blk.Valid() && blk.dev.reliable && InRange(blk.g, offset, |buf|) && InWindow(blk.g, offset, |buf|)
    requires Discarded(blk.g, start, size, Window(blk.g, BlockOf(blk.g, offset)))
    requires forall op :: op in ops ==> Touching(blk.g, op)
    requires Window(blk.g, BlockOf(blk.g, offset)) !in Touched(blk.g, ops)
    modifies blk.Repr
    ensures blk.Valid() && |data| == |buf|
    ensures data == buf <==> |Touched(blk.g, ops)| < CHUNKS || buf == ZeroBytes(|buf|)
    ensures data == buf || data == ZeroBytes(|buf|)
  {
    hide *;
    blk.Facts();
    ghost var g, mem := blk.g, DiscardMem(blk.g, start, size, blk.mem);
    DiscardSized(g, start, size, blk.mem);
    DiscardWrite(blk, size, start, buf, offset);
    blk.Facts();
    data := Revisit(blk, ops, |buf|, offset);
    Fits(g, offset, |buf|);
    if |Touched(g, ops)| < CHUNKS {
      ReadAfterWrite(g, mem, offset, buf, data);
    }
  }

  /** One byte of each of the windows 1 .. n of a device with 512-byte blocks. */
  function Walk(n: nat): (ops: seq<Op>)
    ensures |ops| == n
  {
    if n == 0 then [] else Walk(n - 1) + [ReadOp(1, n * 65536)]
  }

  lemma {:induction false} WalkStep(g: Geometry, n: nat)
    requires g == Geometry(512, 128, 1152) && 1 <= n <= 8
    ensures InRange(g, n * 65536, 1) && RangeWindows(g, n * 65536, 1) == {128 * n}
  {
    var b := 128 * n;
    DivModUnique(b, 0, 512);
    DivModUnique(n, 0, 128);
    assert BlockOf(g, n * 65536) == b == LastBlock(g, n * 65536, 1) && Window(g, b) == b;
    hide BlockOf, LastBlock, Window;
  }

  lemma {:induction false} WalkTouches(g: Geometry, n: nat)
    requires g == Geometry(512, 128, 1152) && n <= 8
    ensures forall op :: op in Walk(n) ==> Touching(g, op)
    ensures forall w :: w in Touched(g, Walk(n)) ==> 0 < w <= 128 * n
    ensures |Touched(g, Walk(n))| == n
  {
    if n > 0 {
      WalkTouches(g, n - 1);
      WalkStep(g, n);
      hide RangeWindows, InRange;
      assert Walk(n)[..n - 1] == Walk(n - 1);
      assert OpWindows(g, Walk(n)[n - 1]) == {128 * n};
    }
  }

  /** A byte is written to window 0 of a discarded device and is read back as zero after eight other windows. */
  method LosesWrite() returns (data: seq<byte>)
    ensures data == [0]
  {
    var g := Geometry(512, 128, 1152);
    var dev := new Device(g, true, false, seq(1152, _ => ZeroBytes(512)));
    var blk := new BlockDevice(dev);
    WalkTouches(g, 8);
    data := DiscardWriteRead(blk, 1152 * 512, 0, [1], 0, Walk(8));
  }
}
