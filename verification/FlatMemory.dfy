/**
 The flat, byte-addressed meaning of the block memory: byte p lives in cell p % blockSize
 of block p / blockSize.  Reads and writes of the block layer are specified here by byte
 address only, with no trace of how they are cut into blocks or chunks.
 */
module FlatMemory {
  import opened Bytes
  import opened BlockModel

  /** The memory after writing bytes at byte offset off. */
  function WriteMem(g: Geometry, mem: Memory, off: nat, bytes: seq<byte>): (r: Memory)
    ensures |r| == |mem| && forall b :: 0 <= b < |mem| ==> |r[b]| == |mem[b]|
  {
    seq(|mem|, b requires 0 <= b < |mem| => WriteRow(mem[b], b * g.blockSize, off, bytes))
  }

  /** One block, starting at byte address base, after the write. */
  function WriteRow(row: seq<Cell>, base: nat, off: nat, bytes: seq<byte>): (r: seq<Cell>)
    ensures |r| == |row|
  {
    seq(|row|, r requires 0 <= r < |row| =>
      if off <= base + r < off + |bytes| then Known(bytes[base + r - off]) else row[r])
  }

  /** buf is what a read at byte offset off may return. */
  predicate ReadOk(g: Geometry, mem: Memory, off: nat, buf: seq<byte>) {
    forall b :: 0 <= b < |mem| ==> ReadRowOk(mem[b], b * g.blockSize, off, buf)
  }

  predicate ReadRowOk(row: seq<Cell>, base: nat, off: nat, buf: seq<byte>) {
    forall r :: 0 <= r < |row| && off <= base + r < off + |buf| && row[r].Known? ==>
                  buf[base + r - off] == row[r].value
  }

  /** Every byte of block b is below every byte of a later block. */
  lemma {:induction false} BlockOrder(g: Geometry, b: nat, b': nat)
    requires b < b'
    ensures b * g.blockSize + g.blockSize <= b' * g.blockSize
  {
    MulStep(b, b', g.blockSize);
  }

  function PatchCells(row: seq<Cell>, at: nat, part: seq<byte>): (r: seq<Cell>)
    requires at + |part| <= |row|
    ensures |r| == |row|
  {
    seq(|row|, r requires 0 <= r < |row| => if at <= r < at + |part| then Known(part[r - at]) else row[r])
  }

  function PatchBytes(blk: Block, at: nat, part: seq<byte>): (r: Block)
    requires at + |part| <= |blk|
    ensures |r| == |blk|
  {
    blk[..at] + part + blk[at + |part|..]
  }

  lemma {:induction false} PatchHolds(blk: Block, row: seq<Cell>, at: nat, part: seq<byte>)
    requires Holds(blk, row) && at + |part| <= |row|
    ensures Holds(PatchBytes(blk, at, part), PatchCells(row, at, part))
  {
  }

  /** A write that stays inside one block changes that block only. */
  lemma {:induction false} WriteInBlock(g: Geometry, mem: Memory, b: nat, at: nat, part: seq<byte>)
    requires g.Ok() && Sized(mem, g.numBlocks, g.blockSize)
    requires b < g.numBlocks && at + |part| <= g.blockSize
    ensures WriteMem(g, mem, b * g.blockSize + at, part) == mem[b := PatchCells(mem[b], at, part)]
  {
    var off := b * g.blockSize + at;
    var r := WriteMem(g, mem, off, part);
    forall b' | 0 <= b' < g.numBlocks
      ensures r[b'] == mem[b := PatchCells(mem[b], at, part)][b']
    {
      if b' < b {
        BlockOrder(g, b', b);
      } else if b < b' {
        BlockOrder(g, b, b');
      }
      assert r[b'] == WriteRow(mem[b'], b' * g.blockSize, off, part);
    }
  }

  /** Writing in two pieces is writing the concatenation. */
  lemma {:induction false} WriteAppend(g: Geometry, mem: Memory, off: nat, x: seq<byte>, y: seq<byte>)
    ensures WriteMem(g, WriteMem(g, mem, off, x), off + |x|, y) == WriteMem(g, mem, off, x + y)
  {
    var one := WriteMem(g, mem, off, x);
    var two := WriteMem(g, one, off + |x|, y);
    var all := WriteMem(g, mem, off, x + y);
    forall b | 0 <= b < |mem|
      ensures two[b] == all[b]
    {
      assert two[b] == WriteRow(WriteRow(mem[b], b * g.blockSize, off, x), b * g.blockSize, off + |x|, y);
      assert all[b] == WriteRow(mem[b], b * g.blockSize, off, x + y);
    }
  }

  lemma {:induction false} WriteNothing(g: Geometry, mem: Memory, off: nat)
    ensures WriteMem(g, mem, off, []) == mem
  {
    var r := WriteMem(g, mem, off, []);
    forall b | 0 <= b < |mem|
      ensures r[b] == mem[b]
    {
      assert r[b] == WriteRow(mem[b], b * g.blockSize, off, []);
    }
  }

  lemma {:induction false} ReadInBlock(g: Geometry, mem: Memory, b: nat, at: nat, blk: Block, k: nat)
    requires g.Ok() && Sized(mem, g.numBlocks, g.blockSize)
    requires b < g.numBlocks && Holds(blk, mem[b]) && at + k <= g.blockSize
    ensures ReadOk(g, mem, b * g.blockSize + at, blk[at..at + k])
  {
    var off := b * g.blockSize + at;
    forall b' | 0 <= b' < |mem|
      ensures ReadRowOk(mem[b'], b' * g.blockSize, off, blk[at..at + k])
    {
      if b' < b {
        BlockOrder(g, b', b);
      } else if b < b' {
        BlockOrder(g, b, b');
      }
    }
  }

  lemma {:induction false} ReadAppend(g: Geometry, mem: Memory, off: nat, x: seq<byte>, y: seq<byte>)
    requires ReadOk(g, mem, off, x) && ReadOk(g, mem, off + |x|, y)
    ensures ReadOk(g, mem, off, x + y)
  {
    forall b | 0 <= b < |mem|
      ensures ReadRowOk(mem[b], b * g.blockSize, off, x + y)
    {
      assert ReadRowOk(mem[b], b * g.blockSize, off, x);
      assert ReadRowOk(mem[b], b * g.blockSize, off + |x|, y);
    }
  }

  lemma {:induction false} ReadWeaker(g: Geometry, mem: Memory, mem': Memory, off: nat, buf: seq<byte>)
    requires Weaker(mem, mem') && ReadOk(g, mem, off, buf)
    ensures ReadOk(g, mem', off, buf)
  {
    forall b | 0 <= b < |mem'|
      ensures ReadRowOk(mem'[b], b * g.blockSize, off, buf)
    {
      assert ReadRowOk(mem[b], b * g.blockSize, off, buf);
    }
  }

  function KnownCells(bytes: seq<byte>): (r: seq<Cell>)
    ensures Holds(bytes, r)
  {
    seq(|bytes|, i requires 0 <= i < |bytes| => Known(bytes[i]))
  }

  /** A whole block written at its own address. */
  lemma {:induction false} WriteWholeBlock(g: Geometry, mem: Memory, b: nat, blk: Block)
    requires g.Ok() && Sized(mem, g.numBlocks, g.blockSize)
    requires b < g.numBlocks && |blk| == g.blockSize
    ensures WriteMem(g, mem, b * g.blockSize, blk) == mem[b := KnownCells(blk)]
  {
    WriteInBlock(g, mem, b, 0, blk);
    assert PatchCells(mem[b], 0, blk) == KnownCells(blk);
  }

  /** Peeling whole blocks off the rest of a request. */
  lemma {:induction false} WholeBlock(g: Geometry, rest: nat)
    requires g.Ok()
    ensures BlockOf(g, rest) > 0 <==> rest >= g.blockSize
    ensures rest >= g.blockSize ==>
            BlockOf(g, rest - g.blockSize) == BlockOf(g, rest) - 1 && PieceSize(g, rest, 0) == g.blockSize
    ensures rest < g.blockSize ==> PieceSize(g, rest, 0) == rest
  {
    var q, r := rest / g.blockSize, rest % g.blockSize;
    assert rest == q * g.blockSize + r;
    if q > 0 {
      MulStep(0, q, g.blockSize);
      assert rest - g.blockSize == (q - 1) * g.blockSize + r;
      DivModUnique(q - 1, r, g.blockSize);
    }
  }

  // ---- writes while a discarded range is active ------------------------------------------

  /** mem is mem0 after writing bytes at off, up to cells of fully discarded windows that were forgotten. */
  predicate Wrote(g: Geometry, discardStart: nat, discardSize: nat, mem0: Memory, mem: Memory, off: nat,
                  bytes: seq<byte>)
    requires g.Ok()
  {
    OnlyForgets(g, discardStart, discardSize, WriteMem(g, mem0, off, bytes), mem)
  }

  lemma {:induction false} WriteKeepsForgetting(g: Geometry, discardStart: nat, discardSize: nat, a: Memory, b: Memory,
                                                off: nat, bytes: seq<byte>)
    requires g.Ok() && OnlyForgets(g, discardStart, discardSize, a, b)
    ensures OnlyForgets(g, discardStart, discardSize, WriteMem(g, a, off, bytes), WriteMem(g, b, off, bytes))
  {
    var a', b' := WriteMem(g, a, off, bytes), WriteMem(g, b, off, bytes);
    forall k | 0 <= k < |a|
      ensures forall r :: 0 <= r < |a'[k]| ==> b'[k][r] == a'[k][r] || b'[k][r] == Any
      ensures !Discarded(g, discardStart, discardSize, Window(g, k)) ==> b'[k] == a'[k]
    {
      assert a'[k] == WriteRow(a[k], k * g.blockSize, off, bytes);
      assert b'[k] == WriteRow(b[k], k * g.blockSize, off, bytes);
    }
  }

  lemma {:induction false} ForgetTwice(g: Geometry, discardStart: nat, discardSize: nat, a: Memory, b: Memory,
                                       c: Memory)
    requires g.Ok() && OnlyForgets(g, discardStart, discardSize, a, b)
             && OnlyForgets(g, discardStart, discardSize, b, c)
    ensures OnlyForgets(g, discardStart, discardSize, a, c)
  {
  }

  /** One more piece of a write: window w is looked up, then y goes behind x. */
  lemma {:induction false} WroteStep(g: Geometry, discardStart: nat, discardSize: nat, mem0: Memory, mem: Memory,
                                     off: nat, x: seq<byte>, y: seq<byte>, hit: bool, w: nat)
    requires g.Ok() && |mem0| == |mem| == g.numBlocks && w % g.rdbufsize == 0
    requires Wrote(g, discardStart, discardSize, mem0, mem, off, x)
    ensures Wrote(g, discardStart, discardSize, mem0,
                  WriteMem(g, Fetched(g, discardStart, discardSize, mem, hit, w), off + |x|, y), off, x + y)
  {
    var mid := Fetched(g, discardStart, discardSize, mem, hit, w);
    FetchOnlyForgets(g, discardStart, discardSize, mem, hit, w);
    ForgetTwice(g, discardStart, discardSize, WriteMem(g, mem0, off, x), mem, mid);
    WriteKeepsForgetting(g, discardStart, discardSize, WriteMem(g, mem0, off, x), mid, off + |x|, y);
    WriteAppend(g, mem0, off, x, y);
  }

  /** A write into the window at the head of the list leaves every later window blank. */
  lemma {:induction false} FrontierWrite(g: Geometry, discardStart: nat, discardSize: nat, mem: Memory,
                                         windows: seq<nat>, b: nat, cells: seq<Cell>)
    requires g.Ok() && b < |mem| && |cells| == |mem[b]|
    requires |windows| > 0 && windows[0] == Window(g, b)
    requires Frontier(g, discardStart, discardSize, mem, windows, Window(g, b))
    ensures Frontier(g, discardStart, discardSize, mem[b := cells], windows, Window(g, b))
  {
    forall w | Window(g, b) < w < g.numBlocks && Discarded(g, discardStart, discardSize, w) && w % g.rdbufsize == 0
      ensures BlankWindow(g, mem[b := cells], w)
    {
      CoversIffWindow(g, w, b);
      assert BlankWindow(g, mem, w);
    }
  }

  // ---- byte ranges and blocks --------------------------------------------------------------

  /** The requests the device can serve: an aligned empty one anywhere, any other one inside the device. */
  predicate InRange(g: Geometry, offset: nat, count: nat)
    requires g.Ok()
  {
    (count == 0 && offset % g.blockSize == 0) || offset + count <= g.numBlocks * g.blockSize
  }

  function LastBlock(g: Geometry, offset: nat, count: nat): nat
    requires g.Ok()
  {
    if count == 0 then offset / g.blockSize else (offset + count - 1) / g.blockSize
  }

  /** A block with a byte below p exists if p is not beyond the device; all of an existing block is on the device. */
  lemma {:induction false} BlockInRange(g: Geometry, b: nat, p: nat)
    requires g.Ok()
    ensures b * g.blockSize < p <= g.numBlocks * g.blockSize ==> b < g.numBlocks
    ensures b < g.numBlocks ==> b * g.blockSize + g.blockSize <= g.numBlocks * g.blockSize
  {
    if b < g.numBlocks {
      BlockOrder(g, b, g.numBlocks);
    } else if g.numBlocks < b {
      BlockOrder(g, g.numBlocks, b);
    }
  }

  /** A block with a byte of the range is not behind its last block. */
  lemma {:induction false} NotBehindLast(g: Geometry, b: nat, offset: nat, count: nat)
    requires g.Ok() && b * g.blockSize < offset + count && count > 0
    ensures b <= LastBlock(g, offset, count)
  {
    var q := (offset + count - 1) / g.blockSize;
    var r := (offset + count - 1) % g.blockSize;
    assert offset + count - 1 == q * g.blockSize + r;
    if q < b {
      BlockOrder(g, q, b);
    }
  }

  /** p is the address of byte `at` of block. */
  predicate At(g: Geometry, block: nat, at: nat, p: nat) {
    block * g.blockSize + at == p
  }

  /** Between two pieces of a request: got bytes are done and the next one is byte `at` of block. */
  predicate Cursor(g: Geometry, offset: nat, count: nat, got: nat, block: nat, at: nat)
    requires g.Ok()
  {
    && got <= count && at < g.blockSize
    && (got < count ==> block * g.blockSize + at == offset + got)
    && BlockOf(g, offset) <= block <= LastBlock(g, offset, count) + 1
    && (got > 0 ==> offset + got <= g.numBlocks * g.blockSize && offset + got <= block * g.blockSize + at)
  }

  /** Another block has to be looked at: bytes are missing, or an empty request starts inside a block. */
  predicate More(g: Geometry, offset: nat, count: nat, got: nat, block: nat, at: nat)
    requires g.Ok()
  {
    got < count || (count == 0 && at == ByteOf(g, offset) > 0 && block == BlockOf(g, offset))
  }

  /** How many bytes the next piece has. */
  function PieceSize(g: Geometry, rest: nat, at: nat): (k: nat)
    requires g.Ok() && at < g.blockSize
    ensures k <= rest && at + k <= g.blockSize
  {
    if rest < g.blockSize - at then rest else g.blockSize - at
  }

  /** The block an offset falls into, and the whole blocks in a number of bytes. */
  function BlockOf(g: Geometry, offset: nat): nat
    requires g.Ok()
  {
    offset / g.blockSize
  }

  function ByteOf(g: Geometry, offset: nat): (at: nat)
    requires g.Ok()
    ensures at < g.blockSize
  {
    offset % g.blockSize
  }

  lemma {:induction false} CursorStart(g: Geometry, offset: nat, count: nat)
    requires g.Ok()
    ensures Cursor(g, offset, count, 0, BlockOf(g, offset), ByteOf(g, offset))
    ensures ByteOf(g, offset) > 0 || count > 0 ==> More(g, offset, count, 0, BlockOf(g, offset), ByteOf(g, offset))
    ensures ByteOf(g, offset) == 0 && count == 0 ==> InRange(g, offset, count)
  {
    var b := offset / g.blockSize;
    assert offset == b * g.blockSize + offset % g.blockSize;
    if count > 0 {
      NotBehindLast(g, b, offset, count);
    }
  }

  lemma {:induction false} MoreBytes(g: Geometry, offset: nat, count: nat, got: nat, block: nat)
    requires g.Ok() && got < count
    ensures More(g, offset, count, got, block, 0)
  {
  }

  lemma {:induction false} CursorGot(g: Geometry, offset: nat, count: nat, got: nat, block: nat, at: nat)
    requires g.Ok() && Cursor(g, offset, count, got, block, at)
    ensures got == 0 || InRange(g, offset, got)
  {
  }

  lemma {:induction false} CursorEnd(g: Geometry, offset: nat, count: nat, block: nat, at: nat)
    requires g.Ok() && Cursor(g, offset, count, count, block, at)
    requires count == 0 ==> InRange(g, offset, count)
    ensures InRange(g, offset, count) && block <= LastBlock(g, offset, count) + 1
    ensures count > 0 && at == 0 ==> block == LastBlock(g, offset, count) + 1
  {
    if count > 0 && at == 0 && block <= LastBlock(g, offset, count) {
      BelowLast(g, offset, count, block);
    }
  }

  lemma {:induction false} BelowLast(g: Geometry, offset: nat, count: nat, block: nat)
    requires g.Ok() && count > 0 && block <= LastBlock(g, offset, count)
    ensures block * g.blockSize < offset + count
  {
    var q := (offset + count - 1) / g.blockSize;
    assert q * g.blockSize <= offset + count - 1;
    if block < q {
      BlockOrder(g, block, q);
    }
  }

  lemma {:induction false} CursorNext(g: Geometry, offset: nat, count: nat, got: nat, block: nat, at: nat)
    requires g.Ok() && Cursor(g, offset, count, got, block, at)
    requires More(g, offset, count, got, block, at)
    ensures At(g, block, at, offset + got)
    ensures InRange(g, offset, count) ==> block < g.numBlocks
    ensures block < g.numBlocks ==> Cursor(g, offset, count, got + PieceSize(g, count - got, at), block + 1, 0)
    ensures block < g.numBlocks && count == 0 ==> InRange(g, offset, count)
  {
    BlockInRange(g, block, offset + count);
    assert count == 0 ==> block * g.blockSize + at == offset;
    assert (block + 1) * g.blockSize == block * g.blockSize + g.blockSize;
    if count > 0 {
      NotBehindLast(g, block, offset, count);
    }
  }

  // ---- what the flat memory promises a client -------------------------------------------

  /** Byte address p is cell p % blockSize of block p / blockSize, which exists below the device size. */
  lemma {:induction false} Locate(g: Geometry, p: nat)
    requires g.Ok() && p < g.numBlocks * g.blockSize
    ensures p / g.blockSize < g.numBlocks && p % g.blockSize < g.blockSize
    ensures p == p / g.blockSize * g.blockSize + p % g.blockSize
  {
    var b := p / g.blockSize;
    assert p == b * g.blockSize + p % g.blockSize;
    if g.numBlocks <= b {
      if g.numBlocks < b {
        MulStep(g.numBlocks, b, g.blockSize);
      }
    }
  }

  /** Reading a range just written gives the bytes back, whatever else the memory knows. */
  lemma {:induction false} ReadAfterWrite(g: Geometry, mem: Memory, off: nat, bytes: seq<byte>, buf: seq<byte>)
    requires g.Ok() && Sized(mem, g.numBlocks, g.blockSize)
    requires off + |bytes| <= g.numBlocks * g.blockSize && |buf| == |bytes|
    requires ReadOk(g, WriteMem(g, mem, off, bytes), off, buf)
    ensures buf == bytes
  {
    var mem' := WriteMem(g, mem, off, bytes);
    forall k | 0 <= k < |bytes|
      ensures buf[k] == bytes[k]
    {
      Locate(g, off + k);
      var b, r := (off + k) / g.blockSize, (off + k) % g.blockSize;
      assert ReadRowOk(mem'[b], b * g.blockSize, off, buf);
      assert mem'[b] == WriteRow(mem[b], b * g.blockSize, off, bytes);
      assert mem'[b][r] == Known(bytes[k]);
    }
  }

  /** Two readings of the same fully known range are equal: a read has only one possible answer. */
  lemma {:induction false} ReadDeterministic(g: Geometry, mem: Memory, off: nat, x: seq<byte>, y: seq<byte>)
    requires g.Ok() && Sized(mem, g.numBlocks, g.blockSize)
    requires forall b, r :: 0 <= b < |mem| && 0 <= r < |mem[b]| ==> mem[b][r].Known?
    requires off + |x| <= g.numBlocks * g.blockSize && |x| == |y|
    requires ReadOk(g, mem, off, x) && ReadOk(g, mem, off, y)
    ensures x == y
  {
    forall k | 0 <= k < |x|
      ensures x[k] == y[k]
    {
      Locate(g, off + k);
      var b, r := (off + k) / g.blockSize, (off + k) % g.blockSize;
      assert ReadRowOk(mem[b], b * g.blockSize, off, x);
      assert ReadRowOk(mem[b], b * g.blockSize, off, y);
      assert mem[b][r].Known?;
    }
  }
}
