/** save_serial of commands/loads.c: a memory range as S3 records. */
module Srecord {
  import opened Bytes
  import opened SrecText

  /** The bytes of a memory range. */
  function Image(mem: Memory, a: nat, count: nat): (s: seq<byte>)
    requires forall x :: a <= x < a + count ==> x in mem
    ensures |s| == count
  {
    seq(count, i requires 0 <= i < count => mem[a + i])
  }

  /** write_record: puts a string out; a user who is not quiet may interrupt. */
  method WriteRecord(record: string, before: string, quiet: bool) returns (ok: bool, out: string)
    ensures out == before + record && (quiet ==> ok)
  {
    out := before + record;
    ok := *;
    ok := ok || quiet;
  }

  /** One byte as two hex digits into the data buffer. */
  method PutByte(data: array<char>, reclen: nat, c: byte, ghost bytes: seq<byte>)
    requires data.Length == 2 * BYTES_PER_RECORD + 1 && reclen == |bytes| < BYTES_PER_RECORD
    requires data[..2 * reclen] == HexAll(bytes)
    modifies data
    ensures data[..2 * reclen + 2] == HexAll(bytes + [c]) && data[2 * reclen + 2] == '\0'
  {
    data[2 * reclen] := Digit(c / 16 % 16);
    data[2 * reclen + 1] := Digit(c % 16);
    data[2 * reclen + 2] := '\0';
    HexLast(bytes, c);
    assert data[..2 * reclen + 2] == data[..2 * reclen] + [data[2 * reclen], data[2 * reclen + 1]];
    assert data[..2 * reclen] == HexAll(bytes);
  }

  /** The sum of the n low bytes of v. */
  function ByteSum(v: nat, n: nat): nat {
    if n == 0 then 0 else v % 256 + ByteSum(v / 256, n - 1)
  }

  method AddBytes(checksum: nat, v: nat, n: nat) returns (sum: nat)
    ensures sum == checksum + ByteSum(v, n)
  {
    sum := checksum;
    var rest := v;
    for i := 0 to n
      invariant sum + ByteSum(rest, n - i) == checksum + ByteSum(v, n)
    {
      sum := sum + rest % 256;
      rest := rest / 256;
    }
  }

  lemma {:induction false} LengthSum(length: nat)
    requires length < 256
    ensures ByteSum(length, 2) == length
  {
    assert ByteSum(length, 2) == length % 256 + ByteSum(length / 256, 1);
    assert ByteSum(0, 1) == 0 + ByteSum(0, 0);
  }

  lemma {:induction false} AddressSum(a: nat)
    requires a < ADDRESS_SPACE
    ensures ByteSum(a, 4) == Sum(Address(a))
  {
    Bytes4(a);
    Four(Address(a));
    hide Address, Sum;
    assert ByteSum(a, 4) == a % 256 + ByteSum(a / 256, 3);
    assert ByteSum(a / 256, 3) == a / 256 % 256 + ByteSum(a / 256 / 256, 2);
    assert ByteSum(a / 256 / 256, 2) == a / 256 / 256 % 256 + ByteSum(a / 256 / 256 / 256, 1);
  }

  lemma {:induction false} SumAppend(a: seq<byte>, b: seq<byte>)
    ensures Sum(a + b) == Sum(a) + Sum(b)
    decreases |b|
  {
    if b == [] {
      assert a + b == a;
    } else {
      SumAppend(a, b[..|b| - 1]);
      assert (a + b)[..|a + b| - 1] == a + b[..|b| - 1];
    }
  }

  lemma {:induction false} HexAppend(a: seq<byte>, b: seq<byte>)
    ensures HexAll(a + b) == HexAll(a) + HexAll(b)
    decreases |b|
  {
    hide Hex2;
    if b == [] {
      assert a + b == a;
    } else {
      var n := |b| - 1;
      HexAppend(a, b[..n]);
      assert (a + b)[..|a + b| - 1] == a + b[..n];
      assert HexAll(a) + HexAll(b[..n]) + Hex2(b[n]) == HexAll(a) + (HexAll(b[..n]) + Hex2(b[n]));
    }
  }

  /** What sprintf puts together is the record, and the sum makes its checksum valid. */
  lemma {:induction false} RecordText(a: nat, bytes: seq<byte>, sum: nat)
    requires a < ADDRESS_SPACE && |bytes| <= BYTES_PER_RECORD
    requires sum == Sum(bytes) + ByteSum(5 + |bytes|, 2) + ByteSum(a, 4)
    ensures "S3" + Hex2(5 + |bytes|) + HexAll(Address(a)) + HexAll(bytes) + Hex2(Complement(sum)) + "\n"
            == Record(a, bytes)
  {
    var length: byte := 5 + |bytes|;
    var head := [length] + Address(a);
    assert Fields(a, bytes) == head + bytes;
    hide Hex2, Address, Complement, ByteSum;
    LengthSum(length);
    AddressSum(a);
    SumAppend(head, bytes);
    SumHead(length, Address(a));
    HexAppend(head, bytes);
    HexHead(head);
    assert head[1..] == Address(a);
    assert HexAll(head + bytes) == Hex2(length) + HexAll(Address(a)) + HexAll(bytes);
    assert "S3" == ['S', '3'];
  }

  /** Checksum, sprintf into the record buffer, and output. */
  method DumpRecord(record: array<char>, a: nat, data: array<char>, reclen: nat, collected: nat,
                    ghost bytes: seq<byte>, before: string, quiet: bool)
    returns (ok: bool, out: string)
    requires record.Length == 2 * BYTES_PER_RECORD + 16 && data.Length == 2 * BYTES_PER_RECORD + 1 && record != data
    requires a < ADDRESS_SPACE && reclen == |bytes| <= BYTES_PER_RECORD
    requires data[..2 * reclen] == HexAll(bytes) && collected == Sum(bytes)
    modifies record
    ensures out == before + Record(a, bytes) && (quiet ==> ok)
    ensures var n := |Record(a, bytes)|; n < record.Length && record[..n] == Record(a, bytes) && record[n] == '\0'
  {
    var length: byte := 4 + reclen + 1;
    var checksum := AddBytes(collected, length, 2);
    checksum := AddBytes(checksum, a, 4);
    RecordText(a, bytes, checksum);
    var text := "S3" + Hex2(length) + HexAll(Address(a)) + data[..2 * reclen] + Hex2(Complement(checksum)) + "\n";
    assert text == Record(a, bytes);
    hide Record;
    forall i | 0 <= i < |text| {
      record[i] := text[i];
    }
    record[|text|] := '\0';
    assert record[..|text|] == text;
    ok, out := WriteRecord(record[..|text|], before, quiet);
  }

  /** The rest of the file from a on, after what is out already. */
  predicate Remaining(out: string, a: nat, rest: seq<byte>, file: string) {
    a + |rest| <= ADDRESS_SPACE && out + (Records(a, rest) + END_RECORD) == file
  }

  lemma {:induction false} RecordsNext(a: nat, chunk: seq<byte>, tail: seq<byte>)
    requires a + |chunk + tail| <= ADDRESS_SPACE && chunk != [] && |chunk| <= BYTES_PER_RECORD
    requires |chunk| == BYTES_PER_RECORD || tail == []
    ensures Records(a, chunk + tail) == Record(a, chunk) + Records(a + |chunk|, tail)
  {
    hide Record;
    var rest, n := chunk + tail, |chunk|;
    assert rest[..n] == chunk && rest[n..] == tail;
  }

  lemma {:induction false} RemainingNext(out: string, a: nat, chunk: seq<byte>, tail: seq<byte>, file: string)
    requires Remaining(out, a, chunk + tail, file) && chunk != [] && |chunk| <= BYTES_PER_RECORD
    requires |chunk| == BYTES_PER_RECORD || tail == []
    ensures a < ADDRESS_SPACE && Remaining(out + Record(a, chunk), a + |chunk|, tail, file)
            && out + Record(a, chunk) <= file
  {
    hide Record, Records;
    RecordsNext(a, chunk, tail);
    var r, more := Record(a, chunk), Records(a + |chunk|, tail);
    assert out + ((r + more) + END_RECORD) == out + r + (more + END_RECORD);
  }

  /** The bytes collected for the next record are in the buffer and in the checksum. */
  ghost predicate Collected(data: array<char>, reclen: nat, checksum: nat, chunk: seq<byte>)
    reads data
  {
    && data.Length == 2 * BYTES_PER_RECORD + 1 && reclen == |chunk| <= BYTES_PER_RECORD
    && data[..2 * reclen] == HexAll(chunk) && checksum == Sum(chunk)
  }

  method Collect(data: array<char>, reclen: nat, checksum: nat, c: byte, ghost chunk: seq<byte>) returns (sum: nat)
    requires Collected(data, reclen, checksum, chunk) && reclen < BYTES_PER_RECORD
    modifies data
    ensures Collected(data, reclen + 1, sum, chunk + [c])
  {
    sum := checksum + c;
    SumLast(chunk, c);
    PutByte(data, reclen, c, chunk);
  }

  lemma {:induction false} ImageHead(mem: Memory, a: nat, count: nat)
    requires count > 0 && forall x :: a <= x < a + count ==> x in mem
    ensures Image(mem, a, count) == [mem[a]] + Image(mem, a + 1, count - 1)
  {
  }

  /** save_serial */
  method SaveSerial(mem: Memory, start: nat, size: nat, quiet: bool) returns (ok: bool, out: string)
    requires start + size <= ADDRESS_SPACE && forall x :: start <= x < start + size ==> x in mem
    ensures var file := File(start, Image(mem, start, size)); out <= file && (ok ==> out == file) && (quiet ==> ok)
  {
    hide *;
    ghost var file, chunk, tail := File(start, Image(mem, start, size)), [], Image(mem, start, size);
    Sizes();
    ok, out := WriteRecord(START_RECORD, "", quiet);
    RemainingStart(out, start, tail, file);
    if !ok {
      return;
    }
    var record := new char[2 * BYTES_PER_RECORD + 16];
    var data := new char[2 * BYTES_PER_RECORD + 1];
    var address: nat, count: nat, reclen: nat, checksum: nat := start, size, 0, 0;
    CollectedNothing(data);
    assert chunk + tail == tail;
    var more := true;
    while more
      invariant Remaining(out, address, chunk + tail, file) && |tail| == count && start <= address
                && address + reclen + count == start + size
      invariant tail == Image(mem, address + reclen, count) && Collected(data, reclen, checksum, chunk)
      invariant reclen == |chunk| < BYTES_PER_RECORD && (!more ==> chunk + tail == [])
      decreases more, count
    {
      if count > 0 {
        ImageHead(mem, address + reclen, count);
        var c := mem[address + reclen];
        checksum := Collect(data, reclen, checksum, c, chunk);
        assert (chunk + [c]) + tail[1..] == chunk + tail;
        chunk, tail := chunk + [c], tail[1..];
        reclen, count := reclen + 1, count - 1;
      }
      if reclen == BYTES_PER_RECORD || count == 0 {
        if reclen > 0 {
          RemainingNext(out, address, chunk, tail, file);
          CollectedIs(data, reclen, checksum, chunk);
          ok, out := DumpRecord(record, address, data, reclen, checksum, chunk, out, quiet);
          if !ok {
            return;
          }
        } else {
          assert chunk + tail == tail;
        }
        address := address + reclen;
        chunk := [];
        assert chunk + tail == tail;
        checksum, reclen := 0, 0;
        CollectedNothing(data);
      }
      more := count > 0;
    }
    RemainingDone(out, address, file);
    ok, out := WriteRecord(END_RECORD, out, quiet);
  }

  lemma {:induction false} Sizes()
    ensures BYTES_PER_RECORD == 16 && ADDRESS_SPACE == 0x1_0000_0000
  {
  }

  lemma {:induction false} CollectedNothing(data: array<char>)
    requires data.Length == 2 * BYTES_PER_RECORD + 1
    ensures Collected(data, 0, 0, [])
  {
  }

  lemma {:induction false} CollectedIs(data: array<char>, reclen: nat, checksum: nat, chunk: seq<byte>)
    requires Collected(data, reclen, checksum, chunk)
    ensures data.Length == 2 * BYTES_PER_RECORD + 1 && reclen == |chunk| <= BYTES_PER_RECORD
    ensures data[..2 * reclen] == HexAll(chunk) && checksum == Sum(chunk)
  {
  }

  lemma {:induction false} RemainingStart(out: string, a: nat, bytes: seq<byte>, file: string)
    requires a + |bytes| <= ADDRESS_SPACE && file == File(a, bytes) && out == "" + START_RECORD
    ensures Remaining(out, a, bytes, file) && out <= file
  {
    hide Records;
    assert START_RECORD + Records(a, bytes) + END_RECORD == START_RECORD + (Records(a, bytes) + END_RECORD);
  }

  lemma {:induction false} RemainingDone(out: string, a: nat, file: string)
    requires Remaining(out, a, [], file)
    ensures out + END_RECORD == file
  {
    assert "" + END_RECORD == END_RECORD;
  }

  lemma {:induction false} SumLast(bytes: seq<byte>, c: byte)
    ensures Sum(bytes + [c]) == Sum(bytes) + c
  {
    assert (bytes + [c])[..|bytes|] == bytes;
  }

  /** Reading back what save_serial wrote copies the memory range, shifted by the offset, and changes nothing else. */
  lemma {:induction false} MemoryCopied(mem: Memory, start: nat, size: nat, to: Memory, offset: nat, x: nat)
    requires start + size <= ADDRESS_SPACE && forall y :: start <= y < start + size ==> y in mem
    ensures var r := Load(File(start, Image(mem, start, size)), to, offset);
            && r.addr.Some? && r.addr.value == 0
            && (if start + offset <= x < start + offset + size then x in r.mem && r.mem[x] == mem[x - offset]
                else (x in r.mem <==> x in to) && (x in to ==> r.mem[x] == to[x]))
  {
    hide Load, File, Stored;
    var bytes := Image(mem, start, size);
    RoundTrip(start, bytes, "", to, offset);
    assert File(start, bytes) + "" == File(start, bytes);
    StoredIs(to, start + offset, bytes, x);
  }
}
