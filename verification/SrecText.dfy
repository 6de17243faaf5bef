/** Motorola S-records: the text save_serial writes and what srec_decode and load_serial make of it. */
module SrecText {
  import opened Bytes
  import opened Seqs

  const START_RECORD: string := "S0030000FC\n"
  const END_RECORD: string := "S70500000000FA\n"
  const BYTES_PER_RECORD: nat := 16
  const ADDRESS_SPACE: nat := 0x1_0000_0000
  /** The longest line read_record takes at once. */
  const MAX_LINE: nat := 516

  function Digit(n: nat): char
    requires n < 16
  {
    if n < 10 then '0' + n as char else 'A' + (n - 10) as char
  }

  function Hex2(b: byte): (s: string)
    ensures |s| == 2
  {
    [Digit(b / 16), Digit(b % 16)]
  }

  function HexAll(bytes: seq<byte>): (s: string)
    ensures |s| == 2 * |bytes|
  {
    if bytes == [] then "" else HexAll(bytes[..|bytes| - 1]) + Hex2(bytes[|bytes| - 1])
  }

  function Sum(bytes: seq<byte>): nat {
    if bytes == [] then 0 else Sum(bytes[..|bytes| - 1]) + bytes[|bytes| - 1]
  }

  /** The address field, most significant byte first. */
  function Address(a: nat): (s: seq<byte>)
    requires a < ADDRESS_SPACE
    ensures |s| == 4
  {
    [a / 0x100_0000, a / 0x1_0000 % 0x100, a / 0x100 % 0x100, a % 0x100]
  }

  /** One's complement of the low byte. */
  function Complement(sum: nat): byte {
    255 - sum % 256
  }

  /** A record of some type without its line end; fields are length, address and data. */
  function Typed(kind: char, fields: seq<byte>): (s: string)
    ensures |s| == 4 + 2 * |fields|
  {
    ['S', kind] + HexAll(fields) + Hex2(Complement(Sum(fields)))
  }

  /** Length, address and data of an S3 record. */
  function Fields(a: nat, bytes: seq<byte>): (f: seq<byte>)
    requires a < ADDRESS_SPACE && |bytes| <= BYTES_PER_RECORD
    ensures |f| == 5 + |bytes|
  {
    [5 + |bytes|] + Address(a) + bytes
  }

  function Record(a: nat, bytes: seq<byte>): (s: string)
    requires a < ADDRESS_SPACE && |bytes| <= BYTES_PER_RECORD
    ensures |s| == 15 + 2 * |bytes|
  {
    Typed('3', Fields(a, bytes)) + "\n"
  }

  /** Records of at most sixteen bytes at consecutive addresses. */
  function Records(a: nat, bytes: seq<byte>): string
    requires a + |bytes| <= ADDRESS_SPACE
    decreases |bytes|
  {
    if bytes == [] then ""
    else
      var n := if |bytes| < BYTES_PER_RECORD then |bytes| else BYTES_PER_RECORD;
      Record(a, bytes[..n]) + Records(a + n, bytes[n..])
  }

  function File(a: nat, bytes: seq<byte>): string
    requires a + |bytes| <= ADDRESS_SPACE
  {
    START_RECORD + Records(a, bytes) + END_RECORD
  }

  // ---- reading -----------------------------------------------------------------------------------------

  function Hex1Bin(c: char): (v: int)
    ensures -1 <= v < 16
    ensures v >= 0 ==> c == "0123456789ABCDEF"[v] || c == "0123456789abcdef"[v]
    ensures v < 0 ==> c !in "0123456789ABCDEFabcdef"
  {
    if '0' <= c <= '9' then c as int - '0' as int
    else if 'a' <= c <= 'f' then c as int - 'a' as int + 10
    else if 'A' <= c <= 'F' then c as int - 'A' as int + 10
    else -1
  }

  /** hex2_bin at the start of s; the end of the string is no hex digit. */
  function Hex2Bin(s: string): (v: int)
    ensures -1 <= v < 256
  {
    if |s| < 2 || Hex1Bin(s[0]) < 0 || Hex1Bin(s[1]) < 0 then -1 else 16 * Hex1Bin(s[0]) + Hex1Bin(s[1])
  }

  /** The first n bytes of s, if they are all there. */
  function HexBytes(s: string, n: nat): (r: Option<seq<byte>>)
    ensures r.Some? ==> |r.value| == n && 2 * n <= |s|
  {
    if n == 0 then Some([])
    else
      var v := Hex2Bin(s);
      if v < 0 then None
      else
        var rest := HexBytes(s[2..], n - 1);
        if rest.None? then None else Some([v] + rest.value)
  }

  datatype Decoded =
    | Start | Data(addr: nat, bytes: seq<byte>) | Count | End(addr: nat) | Empty | BadType | NoRecord | BadChecksum

  /** S1, S2 and S3 have addresses of two to four bytes, S9, S8 and S7 too; S0 and S5 have two, others none. */
  function AddressBytes(kind: char): (m: nat)
    ensures '1' <= kind <= '3' ==> m == kind as int - '1' as int + 2
    ensures '7' <= kind <= '9' ==> m == '9' as int - kind as int + 2
    ensures kind == '0' || kind == '5' ==> m == 2
    ensures kind !in "01235789" ==> m == 0
  {
    if kind in "37" then 4 else if kind in "28" then 3 else if kind in "0159" then 2 else 0
  }

  function Value(bytes: seq<byte>): nat {
    if bytes == [] then 0 else 256 * Value(bytes[..|bytes| - 1]) + bytes[|bytes| - 1]
  }

  function Result(kind: char, addr: nat, bytes: seq<byte>): Decoded {
    if kind == '0' then Start
    else if kind == '5' then Count
    else if kind in "789" then End(addr)
    else Data(addr, bytes)
  }

  function SkipToS(s: string): string {
    if s == [] then [] else if s[0] == 'S' then s[1..] else SkipToS(s[1..])
  }

  /** srec_decode of one line. */
  function Decode(line: string): Decoded {
    var s := SkipToS(line);
    if s == [] then Empty
    else
      var kind, length := s[0], Hex2Bin(s[1..]);
      if length < 0 then NoRecord
      else
        var m := AddressBytes(kind);
        if m == 0 then BadType
        else
          var n := if kind == '5' || length < m + 1 then 0 else length - (m + 1);
          var bytes := HexBytes(s[3..], m + n + 1);
          if bytes.None? then NoRecord
          else if bytes.value[m + n] != Complement(length + Sum(bytes.value[..m + n])) then BadChecksum
          else Result(kind, Value(bytes.value[..m]), bytes.value[m..m + n])
  }

  type Memory = map<nat, byte>

  function ByteAt(a: nat, bytes: seq<byte>, x: nat): byte
    requires a <= x < a + |bytes|
  {
    bytes[x - a]
  }

  function Stored(mem: Memory, a: nat, bytes: seq<byte>): Memory {
    mem + map x | a <= x < a + |bytes| :: ByteAt(a, bytes, x)
  }

  /** The first line end or abort character of the stream. */
  function LineEnd(s: string): (k: nat)
    ensures k <= |s|
  {
    if s == [] || s[0] in ['\r', '\n', '\0', 3 as char] then 0 else 1 + LineEnd(s[1..])
  }

  /** What load_serial has done when it returns: the memory, and the address of the end record if there was one. */
  datatype Loaded = Loaded(mem: Memory, addr: Option<nat>)

  /** load_serial; a stream that ends early counts as aborted. */
  function Load(s: string, mem: Memory, offset: nat): Loaded
    decreases |s|, 0
  {
    var k := LineEnd(s);
    if k >= MAX_LINE then Line(s[..MAX_LINE], s[MAX_LINE..], mem, offset)
    else if k == |s| || s[k] in ['\0', 3 as char] then Loaded(mem, None)
    else Line(s[..k], s[k + 1..], mem, offset)
  }

  function Line(line: string, rest: string, mem: Memory, offset: nat): Loaded
    decreases |rest|, 1
  {
    match Decode(line)
    case Data(addr, bytes) => Load(rest, Stored(mem, addr + offset, bytes), offset)
    case End(addr) => Loaded(mem, Some(addr))
    case Start => Load(rest, mem, offset)
    case Count => Load(rest, mem, offset)
    case Empty => Load(rest, mem, offset)
    case _ => Loaded(mem, None)
  }

  // ---- what is written is read back ----------------------------------------------------------------------

  lemma {:induction false} DigitRead(n: nat)
    requires n < 16
    ensures Hex1Bin(Digit(n)) == n
  {
  }

  lemma {:induction false} Hex2Read(b: byte, rest: string)
    ensures Hex2Bin(Hex2(b) + rest) == b && (Hex2(b) + rest)[2..] == rest
  {
    DigitRead(b / 16);
    DigitRead(b % 16);
  }

  lemma {:induction false} HexHead(bytes: seq<byte>)
    requires bytes != []
    ensures HexAll(bytes) == Hex2(bytes[0]) + HexAll(bytes[1..])
  {
    hide Hex2;
    var n := |bytes| - 1;
    if n > 0 {
      HexHead(bytes[..n]);
      assert bytes[..n][1..] == bytes[1..][..n - 1];
      assert Hex2(bytes[0]) + HexAll(bytes[1..][..n - 1]) + Hex2(bytes[n])
             == Hex2(bytes[0]) + (HexAll(bytes[1..][..n - 1]) + Hex2(bytes[n]));
    }
  }

  lemma {:induction false} HexRead(bytes: seq<byte>, rest: string)
    ensures HexBytes(HexAll(bytes) + rest, |bytes|) == Some(bytes)
  {
    hide Hex2, Hex2Bin;
    if bytes != [] {
      var more := HexAll(bytes[1..]) + rest;
      HexHead(bytes);
      assert HexAll(bytes) + rest == Hex2(bytes[0]) + more;
      Hex2Read(bytes[0], more);
      HexRead(bytes[1..], rest);
      assert [bytes[0]] + bytes[1..] == bytes;
    }
  }

  lemma {:induction false} SumHead(b: byte, bytes: seq<byte>)
    ensures Sum([b] + bytes) == b + Sum(bytes)
  {
    if bytes != [] {
      SumHead(b, bytes[..|bytes| - 1]);
      assert ([b] + bytes)[..|bytes|] == [b] + bytes[..|bytes| - 1];
    }
  }

  // ---- the checksum -----------------------------------------------------------------------------------------

  /** A record whose bytes, checksum included, are given one by one. */
  function Text(kind: char, all: seq<byte>): string {
    ['S', kind] + HexAll(all)
  }

  lemma {:induction false} TypedText(kind: char, fields: seq<byte>)
    ensures Typed(kind, fields) == Text(kind, fields + [Complement(Sum(fields))])
  {
    HexLast(fields, Complement(Sum(fields)));
    hide HexAll, Hex2, Complement, Sum;
    var x := Hex2(Complement(Sum(fields)));
    assert ['S', kind] + HexAll(fields) + x == ['S', kind] + (HexAll(fields) + x);
  }

  /** The bytes a record's text spells, checksum included, sum up to 255 in eight bits. */
  lemma {:induction false} RecordSums(kind: char, fields: seq<byte>)
    ensures var all := HexBytes(Typed(kind, fields)[2..], |fields| + 1);
            && all.Some? && all.value[..|fields|] == fields && Sum(all.value) % 256 == 255
  {
    hide *;
    var c := Complement(Sum(fields));
    TypedText(kind, fields);
    TextRead(kind, fields + [c]);
    SumNext(fields, c);
    ComplementSums(Sum(fields), c);
  }

  lemma {:induction false} TextRead(kind: char, all: seq<byte>)
    ensures HexBytes(Text(kind, all)[2..], |all|) == Some(all)
  {
    HexRead(all, "");
    hide HexAll, HexBytes;
    assert Text(kind, all)[2..] == HexAll(all) + "";
  }

  /** The checksum is the one byte that brings the sum to 255. */
  lemma {:induction false} ComplementSums(sum: nat, c: byte)
    ensures c == Complement(sum) <==> (sum + c) % 256 == 255
  {
  }

  lemma {:induction false} SumNext(bytes: seq<byte>, b: byte)
    ensures Sum(bytes + [b]) == Sum(bytes) + b
  {
    assert (bytes + [b])[..|bytes|] == bytes;
  }

  /** What srec_decode finds in a record of the given type. */
  function Meant(kind: char, addr: nat, bytes: seq<byte>): Decoded {
    match kind
    case '0' => Start
    case '1' => Data(addr, bytes)
    case '2' => Data(addr, bytes)
    case '3' => Data(addr, bytes)
    case '5' => Count
    case _ => End(addr)
  }

  /** Length, address, data and checksum of a record, as many bytes as the length says; S5 has no data. */
  predicate Whole(kind: char, all: seq<byte>) {
    && kind in "01235789" && |all| >= AddressBytes(kind) + 2 && all[0] == |all| - 1
    && (kind == '5' ==> |all| == 4)
  }

  /** What srec_decode reads of a whole record before it looks at the checksum. */
  lemma {:induction false} DecodeReads(kind: char, all: seq<byte>)
    requires Whole(kind, all)
    ensures var m, n := AddressBytes(kind), |all| - 1;
            Decode(Text(kind, all))
            == if all[n] != Complement(all[0] + Sum(all[1..n])) then BadChecksum
               else Result(kind, Value(all[1..m + 1]), all[m + 1..n])
  {
    hide Hex2, Hex2Bin, HexAll, HexBytes, Sum, Complement, Value;
    var line, s, rest := Text(kind, all), Text(kind, all)[1..], all[1..];
    assert SkipToS(line) == s;
    HexHead(all);
    assert s[1..] == Hex2(all[0]) + HexAll(rest);
    Hex2Read(all[0], HexAll(rest));
    assert s[3..] == HexAll(rest);
    HexRead(rest, "");
    assert HexAll(rest) + "" == HexAll(rest);
    var m, n := AddressBytes(kind), |all| - 1;
    assert rest[..n - 1] == all[1..n] && rest[..m] == all[1..m + 1] && rest[m..n - 1] == all[m + 1..n];
  }

  lemma {:induction false} ResultMeant(kind: char, addr: nat, bytes: seq<byte>)
    requires kind in "01235789"
    ensures Result(kind, addr, bytes) == Meant(kind, addr, bytes)
  {
  }

  /** A whole record is refused exactly if its bytes do not sum up to 255, and read otherwise. */
  lemma {:induction false} ChecksumDecides(kind: char, all: seq<byte>)
    requires Whole(kind, all)
    ensures var m, n := AddressBytes(kind), |all| - 1;
            Decode(Text(kind, all))
            == if Sum(all) % 256 != 255 then BadChecksum else Meant(kind, Value(all[1..m + 1]), all[m + 1..n])
  {
    var m, n := AddressBytes(kind), |all| - 1;
    hide *;
    WholeSize(kind, all);
    DecodeReads(kind, all);
    ResultMeant(kind, Value(all[1..m + 1]), all[m + 1..n]);
    SumParts(all);
    ComplementSums(all[0] + Sum(all[1..n]), all[n]);
  }

  lemma {:induction false} WholeSize(kind: char, all: seq<byte>)
    requires Whole(kind, all)
    ensures |all| >= AddressBytes(kind) + 2 && kind in "01235789"
  {
  }

  lemma {:induction false} SumParts(all: seq<byte>)
    requires |all| >= 2
    ensures var n := |all| - 1; Sum(all) == all[0] + Sum(all[1..n]) + all[n]
  {
    var n := |all| - 1;
    hide Sum;
    assert [all[0]] + all[1..n] == all[..n] && all[..n] + [all[n]] == all;
    SumHead(all[0], all[1..n]);
    SumNext(all[..n], all[n]);
  }

  /** So a record with one byte changed behind the length is always refused. */
  lemma {:induction false} ChangedByteRefused(kind: char, fields: seq<byte>, k: nat, b: byte)
    requires Whole(kind, fields + [Complement(Sum(fields))])
    requires var all := fields + [Complement(Sum(fields))]; 0 < k < |all| && all[k] != b
    ensures Decode(Text(kind, (fields + [Complement(Sum(fields))])[k := b])) == BadChecksum
  {
    var c := Complement(Sum(fields));
    var all := fields + [c];
    hide *;
    WholeChanged(kind, all, k, b);
    SumNext(fields, c);
    ComplementSums(Sum(fields), c);
    SumChanged(all, k, b);
    SumOff(Sum(all), all[k], b);
    ChecksumDecides(kind, all[k := b]);
  }

  lemma {:induction false} WholeChanged(kind: char, all: seq<byte>, k: nat, b: byte)
    requires Whole(kind, all) && 0 < k < |all|
    ensures Whole(kind, all[k := b])
  {
    hide AddressBytes;
  }

  lemma {:induction false} SumOff(sum: nat, x: byte, b: byte)
    requires sum % 256 == 255 && sum >= x && b != x
    ensures (sum - x + b) % 256 != 255
  {
  }

  lemma {:induction false} SumChanged(bytes: seq<byte>, k: nat, b: byte)
    requires k < |bytes|
    ensures Sum(bytes[k := b]) == Sum(bytes) - bytes[k] + b
  {
    var n := |bytes| - 1;
    if k < n {
      SumChanged(bytes[..n], k, b);
      assert bytes[k := b][..n] == bytes[..n][k := b];
    } else {
      assert bytes[k := b][..n] == bytes[..n];
    }
  }

  /** srec_decode of a record gives its type, address and data back. */
  lemma {:induction false} DecodeTyped(kind: char, fields: seq<byte>)
    requires Whole(kind, fields + [Complement(Sum(fields))])
    ensures var m := AddressBytes(kind);
            Decode(Typed(kind, fields)) == Meant(kind, Value(fields[1..m + 1]), fields[m + 1..])
  {
    var m, all := AddressBytes(kind), fields + [Complement(Sum(fields))];
    TypedText(kind, fields);
    SumNext(fields, Complement(Sum(fields)));
    hide Decode, Typed, Text, Sum, AddressBytes, Value, Meant;
    ChecksumDecides(kind, all);
    assert all[1..m + 1] == fields[1..m + 1] && all[m + 1..|fields|] == fields[m + 1..];
  }

  lemma {:induction false} HexLast(bytes: seq<byte>, b: byte)
    ensures HexAll(bytes + [b]) == HexAll(bytes) + Hex2(b)
  {
    assert (bytes + [b])[..|bytes|] == bytes;
  }

  lemma {:induction false} Four(s: seq<byte>)
    requires |s| == 4
    ensures Sum(s) == s[0] as int + s[1] + s[2] + s[3]
    ensures Value(s) == 256 * (256 * (256 * (s[0] as int) + s[1]) + s[2]) + s[3]
  {
    assert s[..3][..2] == s[..2] && s[..2][..1] == s[..1] && s[..1][..0] == [];
    assert Sum(s[..1]) == s[0] && Value(s[..1]) == s[0];
    assert Sum(s[..2]) == s[0] as int + s[1] && Value(s[..2]) == 256 * (s[0] as int) + s[1];
  }

  lemma {:induction false} Bytes4(a: nat)
    requires a < ADDRESS_SPACE
    ensures var s := Address(a);
            s[3] == a % 256 && s[2] == a / 256 % 256 && s[1] == a / 256 / 256 % 256 && s[0] == a / 256 / 256 / 256
  {
  }

  lemma {:induction false} AddressValue(a: nat)
    requires a < ADDRESS_SPACE
    ensures Value(Address(a)) == a
  {
    Bytes4(a);
    Four(Address(a));
    hide Address, Value;
  }

  const HEX_DIGITS := "0123456789ABCDEF"

  /** The address field is the address in eight hex digits, as "%08X" writes it. */
  lemma {:induction false} AddressText(a: nat)
    requires a < ADDRESS_SPACE
    ensures HexAll(Address(a))
            == [HEX_DIGITS[a / 0x1000_0000], HEX_DIGITS[a / 0x100_0000 % 16],
                HEX_DIGITS[a / 0x10_0000 % 16], HEX_DIGITS[a / 0x1_0000 % 16],
                HEX_DIGITS[a / 0x1000 % 16], HEX_DIGITS[a / 0x100 % 16],
                HEX_DIGITS[a / 0x10 % 16], HEX_DIGITS[a % 16]]
  {
    var s := Address(a);
    HexAt(s, 0);
    HexAt(s, 1);
    HexAt(s, 2);
    HexAt(s, 3);
    AddressDigits(a);
    hide *;
  }

  lemma {:induction false} AddressDigits(a: nat)
    requires a < ADDRESS_SPACE
    ensures var s := Address(a);
            && s[0] / 16 == a / 0x1000_0000 && s[0] % 16 == a / 0x100_0000 % 16
            && s[1] / 16 == a / 0x10_0000 % 16 && s[1] % 16 == a / 0x1_0000 % 16
            && s[2] / 16 == a / 0x1000 % 16 && s[2] % 16 == a / 0x100 % 16
            && s[3] / 16 == a / 0x10 % 16 && s[3] % 16 == a % 16
  {
    Nibbles(a / 0x100_0000);
    Nibbles(a / 0x1_0000);
    Nibbles(a / 0x100);
    Nibbles(a);
    assert a / 0x100_0000 / 16 == a / 0x1000_0000;
    assert a / 0x1_0000 / 16 == a / 0x10_0000;
    assert a / 0x100 / 16 == a / 0x1000;
  }

  lemma {:induction false} Nibbles(q: nat)
    ensures q % 256 / 16 == q / 16 % 16 && q % 256 % 16 == q % 16
  {
  }

  lemma {:induction false} DigitAt(n: nat)
    requires n < 16
    ensures Digit(n) == HEX_DIGITS[n]
  {
  }

  lemma {:induction false} HexAt(bytes: seq<byte>, k: nat)
    requires k < |bytes|
    ensures HexAll(bytes)[2 * k] == HEX_DIGITS[bytes[k] / 16]
    ensures HexAll(bytes)[2 * k + 1] == HEX_DIGITS[bytes[k] % 16]
  {
    DigitAt(bytes[k] / 16);
    DigitAt(bytes[k] % 16);
    hide Digit;
    if k < |bytes| - 1 {
      HexAt(bytes[..|bytes| - 1], k);
    }
  }

  lemma {:induction false} DecodeRecord(a: nat, bytes: seq<byte>)
    requires a < ADDRESS_SPACE && |bytes| <= BYTES_PER_RECORD
    ensures Decode(Typed('3', Fields(a, bytes))) == Data(a, bytes)
  {
    hide Typed, Decode, Address, Value;
    var fields := Fields(a, bytes);
    assert AddressBytes('3') == 4;
    DecodeTyped('3', fields);
    AddressValue(a);
    assert fields[1..5] == Address(a) && fields[5..] == bytes;
  }

  /** Characters that are no line end. */
  predicate Plain(s: string) {
    forall i :: 0 <= i < |s| ==> ' ' < s[i] <= 'z'
  }

  predicate NoEnd(s: string) {
    forall i :: 0 <= i < |s| ==> s[i] !in ['\r', '\n', '\0', 3 as char]
  }

  lemma {:induction false} LineEndAt(s: string, c: char, rest: string)
    requires NoEnd(s) && c in ['\r', '\n', '\0', 3 as char]
    ensures LineEnd(s + [c] + rest) == |s|
  {
    if s != [] {
      LineEndAt(s[1..], c, rest);
      assert (s + [c] + rest)[1..] == s[1..] + [c] + rest;
    }
  }

  lemma {:induction false} HexPlain(bytes: seq<byte>)
    ensures Plain(HexAll(bytes))
  {
    if bytes != [] {
      HexPlain(bytes[..|bytes| - 1]);
    }
  }

  /** load_serial takes a line and goes on behind it. */
  lemma {:induction false} LoadLine(kind: char, fields: seq<byte>, rest: string, mem: Memory, offset: nat)
    requires ' ' < kind <= 'z' && |fields| < 256
    ensures Load(Typed(kind, fields) + "\n" + rest, mem, offset) == Line(Typed(kind, fields), rest, mem, offset)
  {
    hide Line;
    var line := Typed(kind, fields);
    HexPlain(fields);
    LineEndAt(line, '\n', rest);
    var s := line + "\n" + rest;
    assert s[..|line|] == line && s[|line| + 1..] == rest;
  }

  /** The stored bytes are in memory, and nothing else has changed. */
  lemma {:induction false} StoredIs(mem: Memory, a: nat, bytes: seq<byte>, x: nat)
    ensures var r := Stored(mem, a, bytes);
            if a <= x < a + |bytes| then x in r && r[x] == bytes[x - a]
            else (x in r <==> x in mem) && (x in mem ==> r[x] == mem[x])
  {
    if a <= x < a + |bytes| {
      assert ByteAt(a, bytes, x) == bytes[x - a];
    }
  }

  lemma {:induction false} StoredTwice(mem: Memory, a: nat, x: seq<byte>, y: seq<byte>)
    ensures Stored(Stored(mem, a, x), a + |x|, y) == Stored(mem, a, x + y)
  {
  }

  lemma {:induction false} LoadRecords(a: nat, bytes: seq<byte>, rest: string, mem: Memory, offset: nat)
    requires a + |bytes| <= ADDRESS_SPACE
    ensures Load(Records(a, bytes) + rest, mem, offset) == Load(rest, Stored(mem, a + offset, bytes), offset)
    decreases |bytes|
  {
    hide Load, Typed, Fields, Decode, Stored;
    if bytes == [] {
      assert "" + rest == rest;
      StoredNothing(mem, a + offset);
    } else {
      var n := if |bytes| < BYTES_PER_RECORD then |bytes| else BYTES_PER_RECORD;
      var fields, more := Fields(a, bytes[..n]), Records(a + n, bytes[n..]) + rest;
      assert Records(a, bytes) + rest == Typed('3', fields) + "\n" + more;
      LoadLine('3', fields, more, mem, offset);
      DecodeRecord(a, bytes[..n]);
      LoadRecords(a + n, bytes[n..], rest, Stored(mem, a + offset, bytes[..n]), offset);
      StoredTwice(mem, a + offset, bytes[..n], bytes[n..]);
      assert bytes[..n] + bytes[n..] == bytes;
    }
  }

  /** A line that does not fit the buffer is cut there, and the rest of it is the next line. */
  lemma {:induction false} LongLineCut(line: string, rest: string, mem: Memory, offset: nat)
    requires NoEnd(line) && |line| == MAX_LINE
    ensures Load(line + rest, mem, offset) == Line(line, rest, mem, offset)
  {
    LineEndLate(line, rest);
    assert (line + rest)[..MAX_LINE] == line && (line + rest)[MAX_LINE..] == rest;
    hide Line;
  }

  lemma {:induction false} LineEndLate(s: string, rest: string)
    requires NoEnd(s)
    ensures LineEnd(s + rest) >= |s|
  {
    if s != [] {
      LineEndLate(s[1..], rest);
      assert (s + rest)[1..] == s[1..] + rest;
    }
  }

  /** ^C or NUL inside a line ends the load; what was in the records before it is stored, and nothing else. */
  lemma {:induction false} LoadAborted(a: nat, bytes: seq<byte>, part: string, c: char, rest: string, mem: Memory,
                                       offset: nat)
    requires a + |bytes| <= ADDRESS_SPACE && NoEnd(part) && |part| < MAX_LINE && c as int in [0, 3]
    ensures Load(Records(a, bytes) + (part + [c] + rest), mem, offset)
            == Loaded(Stored(mem, a + offset, bytes), None)
  {
    LoadRecords(a, bytes, part + [c] + rest, mem, offset);
    LineEndAt(part, c, rest);
    hide Records, Stored, LineEnd;
  }

  /** So does a line that is no record or has a wrong checksum, whatever comes behind it. */
  lemma {:induction false} LoadStops(a: nat, bytes: seq<byte>, line: string, rest: string, mem: Memory, offset: nat)
    requires a + |bytes| <= ADDRESS_SPACE && NoEnd(line) && |line| < MAX_LINE
    requires Decode(line) in [NoRecord, BadType, BadChecksum]
    ensures Load(Records(a, bytes) + (line + "\n" + rest), mem, offset)
            == Loaded(Stored(mem, a + offset, bytes), None)
  {
    var s := line + ['\n'] + rest;
    LoadRecords(a, bytes, s, mem, offset);
    LineEndAt(line, '\n', rest);
    assert s[..|line|] == line;
    hide Records, Stored, LineEnd, Decode;
  }

  lemma {:induction false} StoredNothing(mem: Memory, a: nat)
    ensures Stored(mem, a, []) == mem
  {
  }

  /** What save_serial writes of a memory range, load_serial puts into memory at the same addresses plus the offset. */
  lemma {:induction false} RoundTrip(a: nat, bytes: seq<byte>, rest: string, mem: Memory, offset: nat)
    requires a + |bytes| <= ADDRESS_SPACE
    ensures Load(File(a, bytes) + rest, mem, offset) == Loaded(Stored(mem, a + offset, bytes), Some(0))
  {
    StartIs();
    EndIs();
    hide Load, Typed, Decode, Stored, Records;
    var tail := Typed('7', [5, 0, 0, 0, 0]) + "\n" + rest;
    var more := Records(a, bytes) + tail;
    assert File(a, bytes) + rest == Typed('0', [3, 0, 0]) + "\n" + more;
    LoadLine('0', [3, 0, 0], more, mem, offset);
    LoadRecords(a, bytes, tail, mem, offset);
    LoadLine('7', [5, 0, 0, 0, 0], rest, Stored(mem, a + offset, bytes), offset);
  }

  lemma {:induction false} StartIs()
    ensures START_RECORD == Typed('0', [3, 0, 0]) + "\n" && Decode(Typed('0', [3, 0, 0])) == Start
  {
    assert ['S', '0'] + ("03" + "0000") + "FC" + "\n" == START_RECORD;
    hide *;
    Zeros();
    FrameDigits();
    FrameRecord('0', 3, 2);
  }

  lemma {:induction false} EndIs()
    ensures END_RECORD == Typed('7', [5, 0, 0, 0, 0]) + "\n" && Decode(Typed('7', [5, 0, 0, 0, 0])) == End(0)
  {
    assert ['S', '7'] + ("05" + "00000000") + "FA" + "\n" == END_RECORD;
    hide *;
    Zeros();
    FrameDigits();
    FrameRecord('7', 5, 4);
  }

  lemma {:induction false} Zeros()
    ensures [3 as byte] + ZeroBytes(2) == [3, 0, 0] && [5 as byte] + ZeroBytes(4) == [5, 0, 0, 0, 0]
    ensures Blank(2) == "0000" && Blank(4) == "00000000"
    ensures Meant('0', 0, []) == Start && Meant('7', 0, []) == End(0)
  {
  }

  lemma {:induction false} FrameDigits()
    ensures Hex2(3) == "03" && Hex2(5) == "05" && Hex2(252) == "FC" && Hex2(250) == "FA"
  {
  }

  function Blank(n: nat): string {
    seq(2 * n, _ => '0')
  }

  lemma {:induction false} ZeroBytesText(n: nat)
    ensures HexAll(ZeroBytes(n)) == Blank(n) && Sum(ZeroBytes(n)) == 0 && Value(ZeroBytes(n)) == 0
  {
    if n > 0 {
      ZeroBytesText(n - 1);
      assert ZeroBytes(n)[..n - 1] == ZeroBytes(n - 1) && Blank(n) == Blank(n - 1) + "00";
    }
  }

  /** A record with a zero address and no data. */
  lemma {:induction false} FrameRecord(kind: char, length: byte, m: nat)
    requires kind in "0123789" && m == AddressBytes(kind) == length - 1
    ensures var fields := [length] + ZeroBytes(m);
            && Typed(kind, fields) == ['S', kind] + (Hex2(length) + Blank(m)) + Hex2(255 - length)
            && Decode(Typed(kind, fields)) == Meant(kind, 0, [])
  {
    hide Decode, HexAll, Hex2, Sum, Value, ZeroBytes, AddressBytes, Blank;
    var fields := [length] + ZeroBytes(m);
    ZeroBytesText(m);
    HexHead(fields);
    SumHead(length, ZeroBytes(m));
    assert fields[1..] == ZeroBytes(m) && fields[1..m + 1] == ZeroBytes(m) && fields[m + 1..] == [];
    DecodeTyped(kind, fields);
  }
}
