/** Whole runs of the block layer against a plain byte array. */
module BlockRuns {
  import opened Bytes
  import opened Seqs
  import opened BlockModel
  import opened FlatMemory
  import opened WorkingSet
  import opened BlockCache

  datatype Op =
    | ReadOp(count: nat, offset: nat)
    | WriteOp(buf: seq<byte>, offset: nat)
    | FlushOp
    | EraseOp(count: nat, offset: nat)

  datatype Reply = Reply(ret: int, data: seq<byte>)

  // ---- the plain byte array ------------------------------------------------------------------

  /** The memory is fully known and holds the same bytes as the array. */
  predicate Same(g: Geometry, mem: Memory, bytes: seq<byte>)
    requires g.Ok()
  {
    && Sized(mem, g.numBlocks, g.blockSize)
    && |bytes| == g.numBlocks * g.blockSize
    && forall b :: 0 <= b < |mem| ==> SameRow(mem[b], b * g.blockSize, bytes)
  }

  predicate SameRow(row: seq<Cell>, base: nat, bytes: seq<byte>) {
    && base + |row| <= |bytes|
    && forall r :: 0 <= r < |row| ==> row[r] == Known(bytes[base + r])
  }

  /** The erased blocks hold what the device left there, all other bytes are as before. */
  predicate ErasedTo(g: Geometry, bytes: seq<byte>, e: Erasure, bytes': seq<byte>)
    requires g.Ok()
  {
    && Sized(e.left, e.count, g.blockSize) && e.start + e.count <= g.numBlocks && |bytes'| == |bytes|
    && forall p :: 0 <= p < |bytes| ==>
                     bytes'[p] == if e.start <= BlockOf(g, p) < e.start + e.count
                                  then e.left[BlockOf(g, p) - e.start][ByteOf(g, p)] else bytes[p]
  }

  /** What one operation may do to a plain array, what it may answer, and what it makes the device erase. */
  ghost predicate ArrayStep(g: Geometry, bytes: seq<byte>, op: Op, reply: Reply, erased: Option<Erasure>,
                            bytes': seq<byte>)
    requires g.Ok()
  {
    && |bytes'| == |bytes| && (erased.Some? ==> op.EraseOp?)
    && match op
       case ReadOp(count, offset) =>
         && bytes' == bytes
         && (reply.ret >= 0 ==> offset + count <= |bytes| || count == 0)
         && (reply.ret >= 0 ==> reply.ret == |reply.data| == count)
         && (reply.ret >= 0 && count > 0 ==> reply.data == bytes[offset..offset + count])
       case WriteOp(buf, offset) =>
         (exists done: nat :: WrotePrefix(bytes, buf, offset, done, bytes')
           && (reply.ret >= 0 ==> reply.ret == done == |buf|))
       case FlushOp => bytes' == bytes
       case EraseOp(count, offset) =>
         if erased.None? then bytes' == bytes && reply.ret < 0
         else
           && erased.value.start == BlockOf(g, offset) && erased.value.count == BlockOf(g, count)
           && ErasedTo(g, bytes, erased.value, bytes')
  }

  /** The first done bytes of buf have replaced the bytes at offset. */
  predicate WrotePrefix(bytes: seq<byte>, buf: seq<byte>, offset: nat, done: nat, bytes': seq<byte>) {
    && done <= |buf|
    && (done > 0 ==> offset + done <= |bytes|)
    && bytes' == if done == 0 then bytes else bytes[..offset] + buf[..done] + bytes[offset + done..]
  }

  ghost predicate ArrayRun(g: Geometry, arrays: seq<seq<byte>>, ops: seq<Op>, replies: seq<Reply>,
                           erased: seq<Option<Erasure>>)
    requires g.Ok()
  {
    && |arrays| == |ops| + 1 && |replies| == |ops| == |erased|
    && forall i :: 0 <= i < |ops| ==> ArrayStep(g, arrays[i], ops[i], replies[i], erased[i], arrays[i + 1])
  }

  /** The erasures of a run, in order. */
  function Erasures(erased: seq<Option<Erasure>>): seq<Erasure> {
    if erased == [] then []
    else
      var last := erased[|erased| - 1];
      Erasures(erased[..|erased| - 1]) + if last.Some? then [last.value] else []
  }

  // ---- the flat memory is that array -----------------------------------------------------------

  lemma {:induction false} ConcatSize(g: Geometry, blocks: seq<Block>, n: nat)
    requires Sized(blocks, n, g.blockSize)
    ensures |Concat(blocks)| == n * g.blockSize
  {
    if n > 0 {
      ConcatSize(g, blocks[..n - 1], n - 1);
      assert n * g.blockSize == (n - 1) * g.blockSize + g.blockSize;
    }
  }

  lemma {:induction false} ConcatRow(g: Geometry, blocks: seq<Block>, n: nat, b: nat)
    requires Sized(blocks, n, g.blockSize) && b < n
    ensures b * g.blockSize + g.blockSize <= |Concat(blocks)|
    ensures Concat(blocks)[b * g.blockSize..b * g.blockSize + g.blockSize] == blocks[b]
  {
    var front, last := Concat(blocks[..n - 1]), blocks[n - 1];
    assert Concat(blocks) == front + last;
    ConcatSize(g, blocks[..n - 1], n - 1);
    hide Concat;
    var from, to := b * g.blockSize, b * g.blockSize + g.blockSize;
    if b < n - 1 {
      ConcatRow(g, blocks[..n - 1], n - 1, b);
      assert (front + last)[from..to] == front[from..to];
    } else {
      assert (front + last)[|front|..|front| + |last|] == last;
    }
  }

  /** A new cache stands for the bytes of its device. */
  lemma {:induction false} ExactlyIsSame(g: Geometry, blocks: seq<Block>)
    requires g.Ok() && Sized(blocks, g.numBlocks, g.blockSize)
    ensures Same(g, Exactly(blocks), Concat(blocks))
  {
    ConcatSize(g, blocks, g.numBlocks);
    forall b | 0 <= b < g.numBlocks
      ensures SameRow(Exactly(blocks)[b], b * g.blockSize, Concat(blocks))
    {
      ConcatRow(g, blocks, g.numBlocks, b);
      var row := Concat(blocks)[b * g.blockSize..b * g.blockSize + g.blockSize];
      assert forall r :: 0 <= r < g.blockSize ==> row[r] == Concat(blocks)[b * g.blockSize + r];
    }
  }

  lemma {:induction false} SameRead(g: Geometry, mem: Memory, bytes: seq<byte>, offset: nat, data: seq<byte>)
    requires g.Ok() && Same(g, mem, bytes) && ReadOk(g, mem, offset, data) && offset + |data| <= |bytes|
    ensures data == bytes[offset..offset + |data|]
  {
    forall k | 0 <= k < |data|
      ensures data[k] == bytes[offset + k]
    {
      Locate(g, offset + k);
      var b, r := (offset + k) / g.blockSize, (offset + k) % g.blockSize;
      assert ReadRowOk(mem[b], b * g.blockSize, offset, data);
      assert SameRow(mem[b], b * g.blockSize, bytes);
      assert mem[b][r].Known?;
    }
  }

  lemma {:induction false} SameWrite(g: Geometry, mem: Memory, bytes: seq<byte>, offset: nat, part: seq<byte>)
    requires g.Ok() && Same(g, mem, bytes) && offset + |part| <= |bytes|
    ensures Same(g, WriteMem(g, mem, offset, part), PatchBytes(bytes, offset, part))
  {
    var mem', bytes' := WriteMem(g, mem, offset, part), PatchBytes(bytes, offset, part);
    forall b | 0 <= b < |mem|
      ensures SameRow(mem'[b], b * g.blockSize, bytes')
    {
      assert mem'[b] == WriteRow(mem[b], b * g.blockSize, offset, part);
      assert SameRow(mem[b], b * g.blockSize, bytes);
    }
  }

  /** The blocks of a memory. */
  function Values(mem: Memory): (r: seq<Block>)
    ensures |r| == |mem|
    ensures forall b :: 0 <= b < |mem| ==> |r[b]| == |mem[b]|
  {
    seq(|mem|, b requires 0 <= b < |mem| =>
      seq(|mem[b]|, r requires 0 <= r < |mem[b]| => if mem[b][r].Known? then mem[b][r].value else 0))
  }

  lemma {:induction false} SameValues(g: Geometry, mem: Memory)
    requires g.Ok() && Sized(mem, g.numBlocks, g.blockSize)
    requires forall b :: 0 <= b < |mem| ==> forall r :: 0 <= r < |mem[b]| ==> mem[b][r].Known?
    ensures Same(g, mem, Concat(Values(mem)))
  {
    ExactlyIsSame(g, Values(mem));
    forall b | 0 <= b < |mem|
      ensures mem[b] == Exactly(Values(mem))[b]
    {
    }
    assert mem == Exactly(Values(mem));
  }

  /** An erase gives an array that differs from the old one at most in the erased blocks. */
  lemma {:induction false} SameErase(g: Geometry, mem: Memory, bytes: seq<byte>, blocks: seq<Block>, lo: nat,
                                     count: nat)
    returns (bytes': seq<byte>)
    requires g.Ok() && Same(g, mem, bytes) && Sized(blocks, g.numBlocks, g.blockSize) && lo + count <= g.numBlocks
    ensures Same(g, Refresh(mem, blocks, lo, count), bytes')
    ensures ErasedTo(g, bytes, Erasure(lo, count, blocks[lo..lo + count]), bytes')
  {
    var mem': Memory := Refresh(mem, blocks, lo, count);
    forall b | 0 <= b < |mem'|
      ensures |mem'[b]| == g.blockSize && forall r :: 0 <= r < |mem'[b]| ==> mem'[b][r].Known?
    {
      assert SameRow(mem[b], b * g.blockSize, bytes);
    }
    SameValues(g, mem');
    bytes' := Concat(Values(mem'));
    forall p | 0 <= p < |bytes|
      ensures bytes'[p] == if lo <= BlockOf(g, p) < lo + count
                           then blocks[lo..lo + count][BlockOf(g, p) - lo][ByteOf(g, p)] else bytes[p]
    {
      Locate(g, p);
      if lo <= BlockOf(g, p) < lo + count {
        ErasedByte(g, mem, blocks, lo, count, bytes', p);
      } else {
        SameByte(g, mem, bytes, mem', bytes', p);
      }
    }
  }

  lemma {:induction false} ErasedByte(g: Geometry, mem: Memory, blocks: seq<Block>, lo: nat, count: nat,
                                      bytes': seq<byte>, p: nat)
    requires g.Ok() && Sized(blocks, g.numBlocks, g.blockSize) && |mem| == g.numBlocks && lo + count <= g.numBlocks
    requires Same(g, Refresh(mem, blocks, lo, count), bytes') && p < |bytes'| && lo <= BlockOf(g, p) < lo + count
    ensures bytes'[p] == blocks[BlockOf(g, p)][ByteOf(g, p)]
  {
    Locate(g, p);
    var b, mem' := p / g.blockSize, Refresh(mem, blocks, lo, count);
    RefreshedRow(mem, blocks, lo, count, b);
    hide Refresh;
    assert SameRow(mem'[b], b * g.blockSize, bytes');
    assert mem'[b][p % g.blockSize] == Known(blocks[b][p % g.blockSize]);
  }

  lemma {:induction false} RefreshedRow(mem: Memory, blocks: seq<Block>, lo: nat, count: nat, b: nat)
    requires |mem| == |blocks| && lo <= b < lo + count <= |blocks|
    ensures var row := Refresh(mem, blocks, lo, count)[b];
            |row| == |blocks[b]| && forall i :: 0 <= i < |row| ==> row[i] == Known(blocks[b][i])
  {
  }

  lemma {:induction false} SameByte(g: Geometry, mem: Memory, bytes: seq<byte>, mem': Memory, bytes': seq<byte>, p: nat)
    requires g.Ok() && Same(g, mem, bytes) && Same(g, mem', bytes') && p < |bytes|
    requires BlockOf(g, p) < |mem| && mem'[BlockOf(g, p)] == mem[BlockOf(g, p)]
    ensures bytes'[p] == bytes[p]
  {
    Locate(g, p);
    var b := p / g.blockSize;
    assert SameRow(mem[b], b * g.blockSize, bytes) && SameRow(mem'[b], b * g.blockSize, bytes');
    assert mem'[b][p % g.blockSize] == mem[b][p % g.blockSize];
  }

  // ---- runs ------------------------------------------------------------------------------------

  lemma {:induction false} QuietForgetsNothing(g: Geometry, mem: Memory, mem': Memory)
    requires g.Ok() && OnlyForgets(g, 0, 0, mem, mem')
    ensures mem' == mem
  {
    forall b | 0 <= b < |mem|
      ensures mem'[b] == mem[b]
    {
      NothingDiscarded(g, Window(g, b));
    }
  }

  lemma {:induction false} SameSize(g: Geometry, mem: Memory, bytes: seq<byte>)
    requires g.Ok() && Same(g, mem, bytes)
    ensures |bytes| == g.numBlocks * g.blockSize
  {
  }

  method ReadStep(blk: BlockDevice, count: nat, offset: nat, ghost bytes: seq<byte>)
    returns (reply: Reply, ghost ws: seq<nat>)
    requires blk.Valid() && blk.Now().Quiet() && Same(blk.g, blk.mem, bytes)
    modifies blk.Repr
    ensures blk.Valid() && blk.Now().Quiet() && Same(blk.g, blk.mem, bytes)
    ensures ArrayStep(blk.g, bytes, ReadOp(count, offset), reply, None, bytes) && blk.erasures == old(blk.erasures)
    ensures blk.dev.reliable && InRange(blk.g, offset, count) ==> reply.ret >= 0
    ensures reply.ret >= 0 ==> blk.Lists() == AccessAll(old(blk.Lists()), ws) && Within(blk.g, ws, offset, count)
  {
    hide BlockDevice.Valid, Same, VisitAll, AccessAll, Spared, OnlyForgets, ReadOk, Window, Lookup, LookAll;
    ghost var g, s0 := blk.g, blk.Now();
    blk.Facts();
    SameSize(g, blk.mem, bytes);
    var ret, data, end := blk.Read(count, offset);
    blk.Facts();
    QuietForgetsNothing(g, old(blk.mem), blk.mem);
    ws := [];
    if ret >= 0 {
      VisitIsAccess(g, s0, BlockWindows(g, BlockOf(g, offset), end - BlockOf(g, offset)));
      ws := BlockWindows(g, BlockOf(g, offset), end - BlockOf(g, offset));
      WithinRange(g, offset, count, end);
      if count > 0 {
        SameRead(g, blk.mem, bytes, offset, data);
      }
    }
    reply := Reply(ret, data);
  }

  method WriteStep(blk: BlockDevice, buf: seq<byte>, offset: nat, ghost bytes: seq<byte>)
    returns (reply: Reply, ghost bytes': seq<byte>, ghost ws: seq<nat>)
    requires blk.Valid() && blk.Now().Quiet() && Same(blk.g, blk.mem, bytes)
    modifies blk.Repr
    ensures blk.Valid() && blk.Now().Quiet() && Same(blk.g, blk.mem, bytes')
    ensures ArrayStep(blk.g, bytes, WriteOp(buf, offset), reply, None, bytes') && blk.erasures == old(blk.erasures)
    ensures blk.dev.reliable && InRange(blk.g, offset, |buf|) ==> reply.ret >= 0
    ensures reply.ret >= 0 ==> blk.Lists() == AccessAll(old(blk.Lists()), ws) && Within(blk.g, ws, offset, |buf|)
  {
    hide BlockDevice.Valid, Same, VisitAll, AccessAll, Spared, OnlyForgets, Window, WriteMem, Ascending;
    ghost var g, s0 := blk.g, blk.Now();
    blk.Facts();
    SameSize(g, blk.mem, bytes);
    var ret, done, end, f' := blk.Write(buf, offset, 0);
    blk.Facts();
    QuietForgetsNothing(g, WriteMem(g, old(blk.mem), offset, buf[..done]), blk.mem);
    if done == 0 {
      assert buf[..done] == [];
      WriteNothing(g, old(blk.mem), offset);
      bytes' := bytes;
    } else {
      SameWrite(g, old(blk.mem), bytes, offset, buf[..done]);
      bytes' := PatchBytes(bytes, offset, buf[..done]);
    }
    assert WrotePrefix(bytes, buf, offset, done, bytes');
    ws := [];
    if ret >= 0 {
      VisitIsAccess(g, s0, BlockWindows(g, BlockOf(g, offset), end - BlockOf(g, offset)));
      ws := BlockWindows(g, BlockOf(g, offset), end - BlockOf(g, offset));
      WithinRange(g, offset, |buf|, end);
    }
    reply := Reply(ret, []);
  }

  /** The windows an operation may look at. */
  function OpWindows(g: Geometry, op: Op): set<nat>
    requires g.Ok()
  {
    match op
    case ReadOp(count, offset) => RangeWindows(g, offset, count)
    case WriteOp(buf, offset) => RangeWindows(g, offset, |buf|)
    case _ => {}
  }

  predicate Servable(g: Geometry, op: Op)
    requires g.Ok()
  {
    match op
    case ReadOp(count, offset) => InRange(g, offset, count)
    case WriteOp(buf, offset) => InRange(g, offset, |buf|)
    case FlushOp => true
    case EraseOp(_, _) => false
  }

  predicate Erasable(g: Geometry, op: Op)
    requires g.Ok()
  {
    op.EraseOp? && BlockOf(g, op.offset) + BlockOf(g, op.count) <= g.numBlocks
  }

  method EraseStep(blk: BlockDevice, count: nat, offset: nat, ghost bytes: seq<byte>)
    returns (reply: Reply, ghost bytes': seq<byte>, ghost erased: Option<Erasure>)
    requires blk.Valid() && blk.Now().Quiet() && Same(blk.g, blk.mem, bytes)
    modifies blk.Repr
    ensures blk.Valid() && blk.Now().Quiet() && Same(blk.g, blk.mem, bytes')
    ensures ArrayStep(blk.g, bytes, EraseOp(count, offset), reply, erased, bytes')
    ensures blk.erasures == old(blk.erasures) + if erased.Some? then [erased.value] else []
    ensures blk.dev.reliable && blk.dev.canErase && Erasable(blk.g, EraseOp(count, offset)) ==> reply.ret >= 0
  {
    hide Same, ErasedTo;
    ghost var first, blocks := BlockOf(blk.g, offset), BlockOf(blk.g, count);
    hide BlockOf;
    var ret := blk.Erase(count, offset);
    reply, bytes', erased := Reply(ret, []), bytes, None;
    if blk.erasures != old(blk.erasures) {
      erased := Some(Erasure(first, blocks, blk.dev.blocks[first..first + blocks]));
      bytes' := SameErase(blk.g, old(blk.mem), bytes, blk.dev.blocks, first, blocks);
      EqualSize(blk.g, bytes, erased.value, bytes');
    }
  }

  lemma {:induction false} EqualSize(g: Geometry, bytes: seq<byte>, e: Erasure, bytes': seq<byte>)
    requires g.Ok() && ErasedTo(g, bytes, e, bytes')
    ensures |bytes'| == |bytes|
  {
  }

  /** One operation, on the cache and on the array. */
  method Step(blk: BlockDevice, op: Op, ghost bytes: seq<byte>)
    returns (reply: Reply, ghost bytes': seq<byte>, ghost ws: seq<nat>, ghost erased: Option<Erasure>)
    requires blk.Valid() && blk.Now().Quiet() && Same(blk.g, blk.mem, bytes)
    modifies blk.Repr
    ensures blk.Valid() && blk.Now().Quiet() && Same(blk.g, blk.mem, bytes')
    ensures ArrayStep(blk.g, bytes, op, reply, erased, bytes')
    ensures blk.erasures == old(blk.erasures) + if erased.Some? then [erased.value] else []
    ensures blk.dev.reliable && blk.dev.canErase && Erasable(blk.g, op) ==> reply.ret >= 0
    ensures blk.dev.reliable && Servable(blk.g, op) ==>
              && reply.ret >= 0
              && blk.Lists() == AccessAll(old(blk.Lists()), ws)
              && forall k :: 0 <= k < |ws| ==> ws[k] in OpWindows(blk.g, op)
  {
    bytes', ws, erased := bytes, [], None;
    match op
    case ReadOp(count, offset) =>
      reply, ws := ReadStep(blk, count, offset, bytes);
    case WriteOp(buf, offset) =>
      reply, bytes', ws := WriteStep(blk, buf, offset, bytes);
    case FlushOp =>
      var ret := blk.Flush();
      reply := Reply(ret, []);
    case EraseOp(count, offset) =>
      reply, bytes', erased := EraseStep(blk, count, offset, bytes);
  }

  /**
   The cache refines a plain array: for every sequence of operations and whatever the device
   fails to do, the replies are those of the arrays, which change only as the operations say; and the
   device erases exactly what it is asked to, which is then read back as the device left it.
   */
  method Run(blk: BlockDevice, ops: seq<Op>, ghost bytes: seq<byte>)
    returns (replies: seq<Reply>, ghost arrays: seq<seq<byte>>, ghost ws: seq<nat>, ghost erased: seq<Option<Erasure>>)
    requires blk.Valid() && blk.Now().Quiet() && Same(blk.g, blk.mem, bytes)
    modifies blk.Repr
    ensures blk.Valid() && blk.Now().Quiet()
    ensures ArrayRun(blk.g, arrays, ops, replies, erased)
    ensures arrays[0] == bytes && Same(blk.g, blk.mem, arrays[|ops|])
    ensures blk.dev.erasures == old(blk.dev.erasures) + Erasures(erased)
    ensures |replies| == |ops| && (blk.dev.reliable ==> Served(blk.g, blk.dev.canErase, ops, replies))
    ensures blk.dev.reliable && (forall op :: op in ops ==> Servable(blk.g, op)) ==>
              && blk.Lists() == AccessAll(old(blk.Lists()), ws)
              && Visits(blk.g, ops, ws)
  {
    hide *;
    RunStart(blk, bytes, ops);
    replies, arrays, ws, erased := [], [bytes], [], [];
    ErasuresNext([], None);
    for i := 0 to |ops|
      invariant blk.Valid() && blk.Now().Quiet() && blk.g.Ok()
      invariant |blk.Lists().windows| + blk.Lists().free > 0 && |old(blk.Lists()).windows| + old(blk.Lists()).free > 0
      invariant |replies| == i && (blk.dev.reliable ==> Served(blk.g, blk.dev.canErase, ops, replies))
      invariant |arrays| == i + 1 && ArrayRun(blk.g, arrays, ops[..i], replies, erased)
      invariant blk.erasures == old(blk.erasures) + Erasures(erased)
      invariant arrays[0] == bytes && Same(blk.g, blk.mem, arrays[i])
      invariant blk.dev.reliable && (forall op :: op in ops ==> Servable(blk.g, op)) ==>
                  && blk.Lists() == AccessAll(old(blk.Lists()), ws)
                  && Visits(blk.g, ops, ws)
    {
      var reply, next, more, e := Step(blk, ops[i], arrays[i]);
      AccessAllAppend(old(blk.Lists()), ws, more);
      ArrayRunNext(blk.g, arrays, ops, i, replies, reply, erased, e, next);
      ErasuresNext(erased, e);
      RunStart(blk, next, ops);
      VisitsNext(blk.g, ops, i, ws, more);
      ServedNext(blk.g, blk.dev.canErase, ops, replies, reply);
      replies, arrays, ws, erased := replies + [reply], arrays + [next], ws + more, erased + [e];
    }
    assert ops[..|ops|] == ops;
    RunStart(blk, bytes, ops);
  }

  /** So far every operation that can be served has been. */
  predicate Served(g: Geometry, canErase: bool, ops: seq<Op>, replies: seq<Reply>)
    requires g.Ok()
  {
    |replies| <= |ops| && forall i :: 0 <= i < |replies| && CanServe(g, canErase, ops[i]) ==> replies[i].ret >= 0
  }

  predicate CanServe(g: Geometry, canErase: bool, op: Op)
    requires g.Ok()
  {
    Servable(g, op) || (canErase && Erasable(g, op))
  }

  lemma {:induction false} ServedNext(g: Geometry, canErase: bool, ops: seq<Op>, replies: seq<Reply>, reply: Reply)
    requires g.Ok() && |replies| < |ops|
    ensures Served(g, canErase, ops, replies) && (Servable(g, ops[|replies|]) ==> reply.ret >= 0) &&
            (canErase && Erasable(g, ops[|replies|]) ==> reply.ret >= 0) ==>
              Served(g, canErase, ops, replies + [reply])
  {
    hide Servable, Erasable;
  }

  lemma {:induction false} ErasuresNext(erased: seq<Option<Erasure>>, e: Option<Erasure>)
    ensures Erasures([]) == []
    ensures Erasures(erased + [e]) == Erasures(erased) + if e.Some? then [e.value] else []
  {
    assert (erased + [e])[..|erased|] == erased;
  }

  /** Every window looked at belongs to one of the operations. */
  ghost predicate Visits(g: Geometry, ops: seq<Op>, ws: seq<nat>)
    requires g.Ok()
  {
    forall w :: w in ws ==> Visited(g, ops, w)
  }

  ghost predicate Visited(g: Geometry, ops: seq<Op>, w: nat)
    requires g.Ok()
  {
    exists op :: op in ops && w in OpWindows(g, op)
  }

  lemma {:induction false} VisitsNext(g: Geometry, ops: seq<Op>, i: nat, ws: seq<nat>, more: seq<nat>)
    requires g.Ok() && i < |ops|
    ensures Visits(g, ops, ws) && (forall k :: 0 <= k < |more| ==> more[k] in OpWindows(g, ops[i])) ==>
            Visits(g, ops, ws + more)
  {
    if Visits(g, ops, ws) && forall k :: 0 <= k < |more| ==> more[k] in OpWindows(g, ops[i]) {
      forall w | w in more
        ensures Visited(g, ops, w)
      {
        assert ops[i] in ops && w in OpWindows(g, ops[i]);
      }
    }
  }

  lemma {:induction false} RunStart(blk: BlockDevice, bytes: seq<byte>, ops: seq<Op>)
    requires blk.Valid()
    ensures blk.g.Ok() && Visits(blk.g, ops, []) && Served(blk.g, blk.dev.canErase, ops, [])
    ensures blk.erasures == blk.dev.erasures
    ensures |blk.Lists().windows| + blk.Lists().free > 0
    ensures AccessAll(blk.Lists(), []) == blk.Lists()
    ensures ArrayRun(blk.g, [bytes], [], [], [])
  {
  }

  lemma {:induction false} ArrayRunNext(g: Geometry, arrays: seq<seq<byte>>, ops: seq<Op>, i: nat, replies: seq<Reply>,
                                        reply: Reply, erased: seq<Option<Erasure>>, e: Option<Erasure>,
                                        next: seq<byte>)
    requires g.Ok() && i < |ops| && ArrayRun(g, arrays, ops[..i], replies, erased)
    requires |arrays| == i + 1 && ArrayStep(g, arrays[i], ops[i], reply, e, next)
    ensures ArrayRun(g, arrays + [next], ops[..i + 1], replies + [reply], erased + [e])
  {
    hide ArrayStep;
    var arrays', replies', erased' := arrays + [next], replies + [reply], erased + [e];
    forall k | 0 <= k < i + 1
      ensures ArrayStep(g, arrays'[k], ops[..i + 1][k], replies'[k], erased'[k], arrays'[k + 1])
    {
      if k < i {
        assert ArrayStep(g, arrays[k], ops[..i][k], replies[k], erased[k], arrays[k + 1]);
      }
    }
  }

  /** A device that holds what the memory knows holds the array. */
  lemma {:induction false} FlushedIsSame(g: Geometry, mem: Memory, bytes: seq<byte>, blocks: seq<Block>)
    requires g.Ok() && Same(g, mem, bytes) && Sized(blocks, g.numBlocks, g.blockSize)
    requires forall b :: 0 <= b < g.numBlocks ==> Holds(blocks[b], mem[b])
    ensures Concat(blocks) == bytes
  {
    ExactlyIsSame(g, blocks);
    forall p | 0 <= p < |bytes|
      ensures Concat(blocks)[p] == bytes[p]
    {
      Locate(g, p);
      var b := p / g.blockSize;
      assert SameRow(mem[b], b * g.blockSize, bytes);
      assert SameRow(Exactly(blocks)[b], b * g.blockSize, Concat(blocks));
      assert Holds(blocks[b], mem[b]);
      assert mem[b][p % g.blockSize].Known?;
    }
  }

  /**
   A new cache over a device, any operations, then a flush: replies as from arrays starting with
   the contents of the device, and if the flush succeeds the device holds the last array.
   */
  method Session(dev: Device, ops: seq<Op>)
    returns (replies: seq<Reply>, ret: int, ghost arrays: seq<seq<byte>>, ghost erased: seq<Option<Erasure>>)
    requires dev.Valid() && dev.g.Ok()
    modifies dev
    ensures ArrayRun(dev.g, arrays, ops, replies, erased)
    ensures arrays[0] == Concat(old(dev.blocks)) && dev.erasures == old(dev.erasures) + Erasures(erased)
    ensures ret == 0 ==> dev.safe == dev.blocks && Concat(dev.blocks) == arrays[|ops|]
    ensures dev.reliable ==> ret == 0 && Served(dev.g, dev.canErase, ops, replies)
  {
    ghost var bytes := Concat(dev.blocks);
    ExactlyIsSame(dev.g, dev.blocks);
    var blk := new BlockDevice(dev);
    ghost var ws;
    replies, arrays, ws, erased := Run(blk, ops, bytes);
    ret := blk.Flush();
    if ret == 0 {
      FlushedIsSame(dev.g, blk.mem, arrays[|ops|], dev.blocks);
    }
  }

  /**
   The working-set bound on the real cache: operations confined to at most eight windows load
   no window twice, whatever was cached before.
   */
  method RunInWorkingSet(blk: BlockDevice, ops: seq<Op>, ghost bytes: seq<byte>, ghost windows: set<nat>)
    returns (replies: seq<Reply>)
    requires blk.Valid() && blk.Now().Quiet() && Same(blk.g, blk.mem, bytes)
    requires blk.dev.reliable && forall op :: op in ops ==> Servable(blk.g, op)
    requires |windows| <= CHUNKS && forall op :: op in ops ==> OpWindows(blk.g, op) <= windows
    modifies blk.Repr
    ensures blk.Valid()
    ensures |old(blk.dev.log)| <= |blk.dev.log|
    ensures Distinct(blk.dev.log[|old(blk.dev.log)|..])
    ensures forall w :: w in blk.dev.log[|old(blk.dev.log)|..] ==> w in windows
  {
    ghost var l := blk.Lists();
    assert Distinct(l.windows);
    ghost var arrays, ws, erased;
    replies, arrays, ws, erased := Run(blk, ops, bytes);
    assert ToSet(ws) <= windows;
    WorkingSetBound(l, ws, windows, CHUNKS);
  }

  // ---- discard, then write ---------------------------------------------------------------------

  datatype Extent = Extent(offset: nat, buf: seq<byte>)

  /** Later extents begin where earlier ones end, or behind. */
  predicate Ascend(extents: seq<Extent>) {
    forall i, j :: 0 <= i < j < |extents| ==> extents[i].offset + |extents[i].buf| <= extents[j].offset
  }

  /** The memory after the extents were written, each as far as dones says. */
  function WriteAll(g: Geometry, mem: Memory, extents: seq<Extent>, dones: seq<nat>): Memory
    requires |dones| == |extents| && forall i :: 0 <= i < |extents| ==> dones[i] <= |extents[i].buf|
    decreases |extents|
  {
    if extents == [] then mem else
      var last := |extents| - 1;
      WriteMem(g, WriteAll(g, mem, extents[..last], dones[..last]), extents[last].offset,
        extents[last].buf[..dones[last]])
  }

  lemma {:induction false} FrontierReaches(g: Geometry, offset: nat, count: nat, offset': nat)
    requires g.Ok() && offset + count <= offset'
    ensures Window(g, LastBlock(g, offset, count)) <= Window(g, BlockOf(g, offset'))
  {
    DivMonotone(if count == 0 then offset else offset + count - 1, offset', g.blockSize);
    WindowMonotone(g, LastBlock(g, offset, count), BlockOf(g, offset'));
  }

  lemma {:induction false} DivMonotone(a: nat, b: nat, d: nat)
    requires a <= b && d > 0
    ensures a / d <= b / d
  {
    assert a == a / d * d + a % d && b == b / d * d + b % d;
    if b / d < a / d {
      MulStep(b / d, a / d, d);
    }
  }

  /** A write behind everything written since the discard. */
  method WriteBehind(blk: BlockDevice, e: Extent, ghost f: nat) returns (ret: int, ghost done: nat, ghost f': nat)
    requires blk.Valid() && Ascending(blk.g, blk.Now(), f) && f <= Window(blk.g, BlockOf(blk.g, e.offset))
    modifies blk.Repr
    ensures blk.Valid() && done <= |e.buf| && (ret >= 0 ==> done == ret == |e.buf|)
    ensures blk.mem == WriteMem(blk.g, old(blk.mem), e.offset, e.buf[..done])
    ensures Ascending(blk.g, blk.Now(), f') && f' <= Window(blk.g, LastBlock(blk.g, e.offset, |e.buf|))
  {
    hide BlockDevice.Valid, Ascending, Window, LastBlock, WriteMem, Agrees, InRange, LookedUp;
    blk.Facts();
    ghost var end;
    ret, done, end, f' := blk.Write(e.buf, e.offset, f);
    blk.Facts();
  }

  lemma {:induction false} WriteAllNone(g: Geometry, mem: Memory, extents: seq<Extent>)
    ensures WriteAll(g, mem, extents[..0], []) == mem && extents[..|extents|] == extents
  {
  }

  /**
   After a discard, ascending writes and a successful flush leave on the device every byte that was
   written and every byte outside the fully discarded windows.
   */
  method DiscardThenWrite(blk: BlockDevice, count: nat, offset: nat, extents: seq<Extent>)
    returns (rets: seq<int>, ret: int, ghost dones: seq<nat>)
    requires blk.Valid() && Ascend(extents)
    modifies blk.Repr
    ensures blk.Valid() && |rets| == |extents| == |dones|
    ensures forall i :: 0 <= i < |extents| ==>
              dones[i] <= |extents[i].buf| && (rets[i] >= 0 ==> dones[i] == rets[i] == |extents[i].buf|)
    ensures blk.mem == WriteAll(blk.g, DiscardMem(blk.g, offset, count, old(blk.mem)), extents, dones)
    ensures ret == 0 ==>
              && blk.dev.safe == blk.dev.blocks
              && forall b :: 0 <= b < blk.g.numBlocks ==> Holds(blk.dev.blocks[b], blk.mem[b])
  {
    hide BlockDevice.Valid, Ascending, Window, LastBlock, BlockOf, WriteMem, WriteAll, DiscardMem, Holds;
    blk.Facts();
    blk.DiscardRange(count, offset);
    rets, dones := [], [];
    ghost var mem0, f: nat := blk.mem, 0;
    WriteAllNone(blk.g, mem0, extents);
    for i := 0 to |extents|
      invariant blk.Valid() && |rets| == |dones| == i
      invariant forall k :: 0 <= k < i ==>
                  dones[k] <= |extents[k].buf| && (rets[k] >= 0 ==> dones[k] == rets[k] == |extents[k].buf|)
      invariant blk.mem == WriteAll(blk.g, mem0, extents[..i], dones)
      invariant Ascending(blk.g, blk.Now(), f)
      invariant i < |extents| ==> f <= Window(blk.g, BlockOf(blk.g, extents[i].offset))
    {
      var r, done, f' := WriteBehind(blk, extents[i], f);
      if i + 1 < |extents| {
        FrontierReaches(blk.g, extents[i].offset, |extents[i].buf|, extents[i + 1].offset);
      }
      WriteAllNext(blk.g, mem0, extents, i, dones, done);
      rets, dones, f := rets + [r], dones + [done], f';
    }
    blk.Facts();
    ret := blk.Flush();
  }

  /** The cell of byte address p. */
  function CellAt(g: Geometry, mem: Memory, p: nat): Cell
    requires g.Ok() && Sized(mem, g.numBlocks, g.blockSize) && p < g.numBlocks * g.blockSize
  {
    Locate(g, p);
    mem[p / g.blockSize][p % g.blockSize]
  }

  lemma {:induction false} WriteCell(g: Geometry, mem: Memory, offset: nat, part: seq<byte>, p: nat)
    requires g.Ok() && Sized(mem, g.numBlocks, g.blockSize) && p < g.numBlocks * g.blockSize
    ensures CellAt(g, WriteMem(g, mem, offset, part), p)
         == if offset <= p < offset + |part| then Known(part[p - offset]) else CellAt(g, mem, p)
  {
    Locate(g, p);
    var b := p / g.blockSize;
    assert WriteMem(g, mem, offset, part)[b] == WriteRow(mem[b], b * g.blockSize, offset, part);
  }

  /** What WriteAll means byte by byte: the byte of the extent that wrote p, else the old byte. */
  lemma {:induction false} WriteAllCell(g: Geometry, mem: Memory, extents: seq<Extent>, dones: seq<nat>, p: nat)
    requires g.Ok() && Sized(mem, g.numBlocks, g.blockSize) && p < g.numBlocks * g.blockSize
    requires |dones| == |extents| && Ascend(extents) && forall i :: 0 <= i < |extents| ==> dones[i] <= |extents[i].buf|
    ensures Sized(WriteAll(g, mem, extents, dones), g.numBlocks, g.blockSize)
    ensures forall i :: 0 <= i < |extents| && extents[i].offset <= p < extents[i].offset + dones[i] ==>
              CellAt(g, WriteAll(g, mem, extents, dones), p) == Known(extents[i].buf[p - extents[i].offset])
    ensures (forall i :: 0 <= i < |extents| ==> !(extents[i].offset <= p < extents[i].offset + dones[i])) ==>
              CellAt(g, WriteAll(g, mem, extents, dones), p) == CellAt(g, mem, p)
    decreases |extents|
  {
    if extents != [] {
      var last := |extents| - 1;
      var before := WriteAll(g, mem, extents[..last], dones[..last]);
      WriteAllCell(g, mem, extents[..last], dones[..last], p);
      WriteCell(g, before, extents[last].offset, extents[last].buf[..dones[last]], p);
      forall i | 0 <= i < last && extents[i].offset <= p < extents[i].offset + dones[i]
        ensures CellAt(g, WriteAll(g, mem, extents, dones), p) == Known(extents[i].buf[p - extents[i].offset])
      {
        assert extents[..last][i] == extents[i] && dones[..last][i] == dones[i];
      }
    }
  }

  lemma {:induction false} WriteAllNext(g: Geometry, mem: Memory, extents: seq<Extent>, i: nat, dones: seq<nat>,
                                        done: nat)
    requires i < |extents| && |dones| == i && done <= |extents[i].buf|
    requires forall k :: 0 <= k < i ==> dones[k] <= |extents[k].buf|
    ensures WriteAll(g, mem, extents[..i + 1], dones + [done])
         == WriteMem(g, WriteAll(g, mem, extents[..i], dones), extents[i].offset, extents[i].buf[..done])
  {
    assert extents[..i + 1][..i] == extents[..i];
    assert (dones + [done])[..i] == dones;
  }

  /** Only windows of blocks of the byte range. */
  predicate Within(g: Geometry, ws: seq<nat>, offset: nat, count: nat)
    requires g.Ok()
  {
    forall k :: 0 <= k < |ws| ==> ws[k] in RangeWindows(g, offset, count)
  }

  function RangeWindows(g: Geometry, offset: nat, count: nat): set<nat>
    requires g.Ok()
  {
    set b: nat | BlockOf(g, offset) <= b <= LastBlock(g, offset, count) :: Window(g, b)
  }

  lemma {:induction false} WithinRange(g: Geometry, offset: nat, count: nat, end: nat)
    requires g.Ok() && BlockOf(g, offset) <= end <= LastBlock(g, offset, count) + 1
    ensures Within(g, BlockWindows(g, BlockOf(g, offset), end - BlockOf(g, offset)), offset, count)
  {
    if BlockOf(g, offset) < end {
      WithinRange(g, offset, count, end - 1);
      assert Window(g, end - 1) in RangeWindows(g, offset, count);
    }
  }
}
