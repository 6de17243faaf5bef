/** Kermit packets on the line: what k_recv reads, and what a sender writes. */
module KermitPacket {
  import opened Bytes
  import opened Seqs

  const START_CHAR: byte := 1
  const ETX_CHAR: byte := 3
  const END_CHAR: byte := 13
  const SPACE: byte := 32
  const DATA_TYPE: byte := 68
  const SEND_TYPE: byte := 83
  const BREAK_TYPE: byte := 66

  /** What one reception comes to. */
  datatype Event =
    /** A packet with a correct check; alloc tells whether a data buffer was allocated for it. */
    | Good(n: nat, kind: byte, text: seq<byte>, alloc: bool)
    /** An error behind the sequence number; fed is the text that reached the unquoting. */
    | Corrupt(n: nat, fed: seq<byte>, alloc: bool)
    /** An error in the length or sequence character. */
    | Early
    /** ^C while waiting for a packet. */
    | Interrupted
    /** The line stays silent. */
    | Starved

  /** An event behind the sequence number n. */
  predicate Behind(ev: Event, n: nat) {
    ev.Starved? || ((ev.Good? || ev.Corrupt?) && ev.n == n)
  }

  datatype Parsed = Parsed(ev: Event, rest: seq<byte>)

  function Sum(s: seq<byte>): nat {
    if s == [] then 0 else Sum(s[..|s| - 1]) + s[|s| - 1]
  }

  lemma {:induction false} SumNext(s: seq<byte>, c: byte)
    ensures Sum([]) == 0 && Sum(s + [c]) == Sum(s) + c
  {
    assert (s + [c])[..|s|] == s;
  }

  /** tochar of the one-character block check. */
  function CheckChar(sum: nat): (c: byte)
    ensures SPACE <= c < SPACE + 64
  {
    SPACE + (sum + sum / 64 % 4) % 64
  }

  /** How many of the first count characters are there and printable. */
  function GoodPrefix(s: seq<byte>, count: nat): (k: nat)
    ensures k <= count && k <= |s|
    ensures forall i :: 0 <= i < k ==> s[i] >= SPACE
    ensures k < count && k < |s| ==> s[k] < SPACE
  {
    if count == 0 || s == [] || s[0] < SPACE then 0 else 1 + GoodPrefix(s[1..], count - 1)
  }

  /** text has been read off s without an error, rest is still to come. */
  predicate Scanned(s: seq<byte>, count: nat, text: seq<byte>, rest: seq<byte>) {
    && |text| <= count && s == text + rest
    && GoodPrefix(s, count) == |text| + GoodPrefix(rest, count - |text|)
  }

  lemma {:induction false} ScanStart(s: seq<byte>, count: nat)
    ensures Scanned(s, count, [], s)
  {
  }

  /** Reading goes on at a printable character and ends at any other, or with the line. */
  lemma {:induction false} ScanNext(s: seq<byte>, count: nat, text: seq<byte>, rest: seq<byte>)
    requires Scanned(s, count, text, rest) && |text| < count
    ensures rest == [] ==> GoodPrefix(s, count) == |text| == |s|
    ensures rest != [] && rest[0] < SPACE ==>
            GoodPrefix(s, count) == |text| && rest[1..] == s[|text| + 1..] && |text| < |s|
    ensures rest != [] && rest[0] >= SPACE ==> Scanned(s, count, text + [rest[0]], rest[1..])
    ensures s[..|text|] == text
  {
    if rest != [] {
      assert text + [rest[0]] + rest[1..] == s;
    }
  }

  lemma {:induction false} ScanDone(s: seq<byte>, count: nat, text: seq<byte>, rest: seq<byte>)
    requires Scanned(s, count, text, rest) && |text| == count
    ensures GoodPrefix(s, count) == count && text == s[..count] && rest == s[count..]
  {
  }

  function Fed(kind: byte, text: seq<byte>): seq<byte> {
    if kind == DATA_TYPE then text else []
  }

  function TextCount(length: int): nat {
    if length > 1 then length - 1 else 0
  }

  /** Data field, block check and end character. */
  function ParseBody(s: seq<byte>, n: nat, kind: byte, length: int, sum: nat): (p: Parsed)
    ensures |p.rest| <= |s|
    ensures Behind(p.ev, n)
  {
    var count, alloc := TextCount(length), length > 1;
    var k := GoodPrefix(s, count);
    if k < count then
      if k == |s| then Parsed(Starved, []) else Parsed(Corrupt(n, Fed(kind, s[..k]), alloc), s[k + 1..])
    else
      ParseCheck(s[count..], n, kind, s[..count], alloc, sum + Sum(s[..count]))
  }

  function ParseCheck(s: seq<byte>, n: nat, kind: byte, text: seq<byte>, alloc: bool, sum: nat): (p: Parsed)
    ensures |p.rest| <= |s|
    ensures Behind(p.ev, n)
  {
    if |s| == 0 then Parsed(Starved, [])
    else if s[0] < SPACE || s[0] != CheckChar(sum) then Parsed(Corrupt(n, Fed(kind, text), alloc), s[1..])
    else if |s| == 1 then Parsed(Starved, [])
    else if s[1] != END_CHAR then Parsed(Corrupt(n, Fed(kind, text), alloc), s[2..])
    else Parsed(Good(n, kind, text, alloc), s[2..])
  }

  /** The three characters of an extended length. */
  function ParseExtended(s: seq<byte>, n: nat, kind: byte, sum: nat): (p: Parsed)
    ensures |p.rest| <= |s|
    ensures Behind(p.ev, n)
  {
    if |s| == 0 then Parsed(Starved, [])
    else if s[0] < SPACE then Parsed(Corrupt(n, [], false), s[1..])
    else if |s| == 1 then Parsed(Starved, [])
    else if s[1] < SPACE then Parsed(Corrupt(n, [], false), s[2..])
    else if |s| == 2 then Parsed(Starved, [])
    else if s[2] < SPACE || s[2] != CheckChar(sum + s[0] + s[1]) then Parsed(Corrupt(n, [], false), s[3..])
    else ParseBody(s[3..], n, kind, (s[0] - SPACE) * 95 + (s[1] - SPACE), sum + s[0] + s[1] + s[2])
  }

  function ParseType(s: seq<byte>, n: nat, length: int, sum: nat): (p: Parsed)
    ensures |p.rest| <= |s|
    ensures Behind(p.ev, n)
  {
    if |s| == 0 then Parsed(Starved, [])
    else if s[0] < SPACE then Parsed(Corrupt(n, [], false), s[1..])
    else if length == -1 then ParseExtended(s[1..], n, s[0], sum + s[0])
    else ParseBody(s[1..], n, s[0], length - 1, sum + s[0])
  }

  /** A packet behind its start character. */
  function ParsePacket(s: seq<byte>): (p: Parsed)
    ensures |p.rest| <= |s|
  {
    if |s| == 0 then Parsed(Starved, [])
    else if s[0] < SPACE then Parsed(Early, s[1..])
    else if |s| == 1 then Parsed(Starved, [])
    else if s[1] < SPACE then Parsed(Early, s[2..])
    else ParseType(s[2..], s[1] - SPACE, s[0] - SPACE - 1, s[0] as int + s[1])
  }

  /** Characters before the next start character or ^C are ignored. */
  function Skip(s: seq<byte>): (i: nat)
    ensures i <= |s|
    ensures i < |s| ==> s[i] == START_CHAR || s[i] == ETX_CHAR
  {
    if s == [] || s[0] == START_CHAR || s[0] == ETX_CHAR then 0 else 1 + Skip(s[1..])
  }

  function NextEvent(s: seq<byte>): (p: Parsed)
    ensures |p.rest| <= |s|
    ensures !p.ev.Starved? && !p.ev.Interrupted? ==> |p.rest| < |s|
  {
    var i := Skip(s);
    if i == |s| then Parsed(Starved, [])
    else if s[i] == ETX_CHAR then Parsed(Interrupted, s[i + 1..])
    else ParsePacket(s[i + 1..])
  }

  predicate Last(ev: Event) {
    ev.Starved? || ev.Interrupted? || (ev.Good? && ev.kind == BREAK_TYPE)
  }

  /** Everything k_recv sees on the line until it stops. */
  function Events(s: seq<byte>): (evs: seq<Event>)
    decreases |s|
  {
    var p := NextEvent(s);
    if Last(p.ev) then [p.ev] else [p.ev] + Events(p.rest)
  }

  lemma {:induction false} EventsNext(s: seq<byte>)
    ensures var p := NextEvent(s); Events(s) == (if Last(p.ev) then [p.ev] else [p.ev] + Events(p.rest))
  {
  }

  // ---- the sender ------------------------------------------------------------------------------------

  predicate Sendable(n: nat, kind: byte, text: seq<byte>) {
    n < 64 && kind >= SPACE && |text| < 95 * 95 - 1 && forall i :: 0 <= i < |text| ==> text[i] >= SPACE
  }

  /** The sum of the characters in an eight-bit register. */
  function Register(chars: seq<byte>): byte {
    if chars == [] then 0 else (Register(chars[..|chars| - 1]) + chars[|chars| - 1]) % 256
  }

  /** The protocol's one-character check: the two high bits of the register added to the six low ones, in six bits. */
  function Folded(s: byte): (c: nat)
    ensures c < 64
  {
    var high, low := s / 64, s % 64;
    if low + high < 64 then low + high else low + high - 64
  }

  /** The protocol's check of the given characters, made printable. */
  function BlockCheck(chars: seq<byte>): byte {
    SPACE + Folded(Register(chars))
  }

  lemma {:induction false} RegisterSum(chars: seq<byte>)
    ensures Register(chars) == Sum(chars) % 256
  {
    if chars != [] {
      var n := |chars| - 1;
      RegisterSum(chars[..n]);
      hide Register, Sum;
      RegisterNext(chars);
      Wraps(Sum(chars[..n]), chars[n]);
    }
  }

  lemma {:induction false} RegisterNext(chars: seq<byte>)
    requires chars != []
    ensures var n := |chars| - 1;
            && Register(chars) == (Register(chars[..n]) + chars[n]) % 256
            && Sum(chars) == Sum(chars[..n]) + chars[n]
  {
  }

  lemma {:induction false} Wraps(sum: nat, c: byte)
    ensures (sum % 256 + c) % 256 == (sum + c) % 256
  {
  }

  /** The receiver computes the protocol's check. */
  lemma {:induction false} CheckAgrees(chars: seq<byte>)
    ensures CheckChar(Sum(chars)) == BlockCheck(chars)
  {
    RegisterSum(chars);
    CheckOfRegister(Sum(chars));
    hide Register, Sum, CheckChar;
  }

  lemma {:induction false} CheckOfRegister(sum: nat)
    ensures CheckChar(sum) == SPACE + (sum % 256 + sum % 256 / 64) % 64
  {
    var q, high, low := sum / 256, sum % 256 / 64, sum % 64;
    assert sum == 256 * q + 64 * high + low && sum % 256 == 64 * high + low;
    CheckOfParts(q, high, low);
    WholeBlocks(high, low + high);
  }

  /** The check of a sum, by its two bits above the lower six. */
  lemma {:induction false} CheckOfParts(q: nat, high: nat, low: nat)
    requires high < 4 && low < 64
    ensures CheckChar(256 * q + 64 * high + low) == SPACE + (low + high) % 64
  {
    var sum := 256 * q + 64 * high + low;
    assert sum == 64 * (4 * q + high) + low;
    assert sum / 64 == 4 * q + high && (4 * q + high) % 4 == high;
    WholeBlocks(4 * q + high, low + high);
  }

  lemma {:induction false} WholeBlocks(m: nat, x: nat)
    ensures (64 * m + x) % 64 == x % 64
  {
  }

  /** Characters with their check and the end character. */
  function Checked(chars: seq<byte>): seq<byte> {
    chars + [BlockCheck(chars), END_CHAR]
  }

  /** Length, sequence number, type and data of a packet with a one-character length. */
  function ShortChars(n: nat, kind: byte, text: seq<byte>): seq<byte>
    requires Sendable(n, kind, text) && |text| <= 91
  {
    [SPACE + |text| + 3, SPACE + n, kind] + text
  }

  function ShortPacket(n: nat, kind: byte, text: seq<byte>): seq<byte>
    requires Sendable(n, kind, text) && |text| <= 91
  {
    [START_CHAR] + Checked(ShortChars(n, kind, text))
  }

  /** A blank length, sequence number, type and two digits of length to base 95. */
  function LongHead(n: nat, kind: byte, length: nat): seq<byte>
    requires n < 64 && length < 95 * 95
  {
    [SPACE, SPACE + n, kind, SPACE + length / 95, SPACE + length % 95]
  }

  lemma {:induction false} LongHeadIs(n: nat, kind: byte, length: nat)
    requires n < 64 && kind >= SPACE && length < 95 * 95
    ensures var h := LongHead(n, kind, length);
            && |h| == 5 && Printable(h) && h[0] == SPACE && h[1] == SPACE + n && h[2] == kind
            && (h[3] - SPACE) * 95 + (h[4] - SPACE) == length
  {
  }

  /** The head of a long packet with its own check, and the data. */
  function LongChars(n: nat, kind: byte, text: seq<byte>): seq<byte>
    requires Sendable(n, kind, text)
  {
    var head := LongHead(n, kind, |text| + 1);
    head + [BlockCheck(head)] + text
  }

  function LongPacket(n: nat, kind: byte, text: seq<byte>): seq<byte>
    requires Sendable(n, kind, text)
  {
    [START_CHAR] + Checked(LongChars(n, kind, text))
  }

  // ---- how the receiver reads whole packets, with a good check or a bad one --------------------------------

  predicate Printable(chars: seq<byte>) {
    forall i :: 0 <= i < |chars| ==> chars[i] >= SPACE
  }

  lemma {:induction false} GoodPrefixAll(s: seq<byte>, count: nat)
    requires count <= |s| && Printable(s[..count])
    ensures GoodPrefix(s, count) == count
  {
    if count > 0 {
      assert s[..count][0] == s[0] && s[1..][..count - 1] == s[..count][1..];
      GoodPrefixAll(s[1..], count - 1);
    }
  }

  lemma {:induction false} SumJoin(s: seq<byte>, t: seq<byte>)
    ensures Sum(s + t) == Sum(s) + Sum(t)
  {
    if t == [] {
      assert s + t == s;
    } else {
      SumJoin(s, t[..|t| - 1]);
      assert (s + t)[..|s + t| - 1] == s + t[..|t| - 1];
    }
  }

  /** What a packet comes to whose data end with the check character c, where check is expected. */
  function Judged(n: nat, kind: byte, text: seq<byte>, c: byte, check: byte, rest: seq<byte>): Parsed {
    if c == check then Parsed(Good(n, kind, text, text != []), rest)
    else Parsed(Corrupt(n, Fed(kind, text), text != []), [END_CHAR] + rest)
  }

  lemma {:induction false} BodyRead(n: nat, kind: byte, text: seq<byte>, c: byte, sum: nat, rest: seq<byte>)
    requires Printable(text) && c >= SPACE
    ensures ParseBody(text + [c, END_CHAR] + rest, n, kind, |text| + 1, sum)
            == Judged(n, kind, text, c, CheckChar(sum + Sum(text)), rest)
  {
    hide CheckChar, Sum, Fed;
    var s := text + [c, END_CHAR] + rest;
    assert s[..|text|] == text;
    GoodPrefixAll(s, |text|);
    assert s[|text|..] == [c, END_CHAR] + rest;
    assert ([c, END_CHAR] + rest)[1..] == [END_CHAR] + rest && ([c, END_CHAR] + rest)[2..] == rest;
  }

  lemma {:induction false} HeadRead(length: byte, seqno: byte, tail: seq<byte>)
    requires length >= SPACE && seqno >= SPACE
    ensures NextEvent([START_CHAR, length, seqno] + tail)
            == ParseType(tail, seqno - SPACE, length - SPACE - 1, length as int + seqno)
  {
    hide ParseType, Sum;
    var s := [START_CHAR, length, seqno] + tail;
    assert s[1..] == [length, seqno] + tail;
    assert ([length, seqno] + tail)[2..] == tail;
  }

  lemma {:induction false} Sum3(a: byte, b: byte, c: byte)
    ensures Sum([a, b, c]) == a + b + c
  {
    SumNext([], a);
    SumNext([a], b);
    SumNext([a, b], c);
    assert [] + [a] == [a] && [a] + [b] == [a, b] && [a, b] + [c] == [a, b, c];
  }

  lemma {:induction false} Sum5(a: byte, b: byte, c: byte, d: byte, e: byte)
    ensures Sum([a, b, c, d, e]) == a + b + c + d + e
  {
    Sum3(a, b, c);
    SumNext([a, b, c], d);
    SumNext([a, b, c, d], e);
    hide Sum;
    assert [a, b, c] + [d] == [a, b, c, d] && [a, b, c, d] + [e] == [a, b, c, d, e];
  }

  /** Characters with a one-character length that fits them, whatever check follows. */
  lemma {:induction false} ShortRead(chars: seq<byte>, c: byte, rest: seq<byte>)
    requires |chars| >= 3 && chars[0] == SPACE + |chars| && Printable(chars) && c >= SPACE
    ensures NextEvent([START_CHAR] + (chars + [c, END_CHAR]) + rest)
            == Judged(chars[1] - SPACE, chars[2], chars[3..], c, CheckChar(Sum(chars)), rest)
  {
    hide NextEvent, ParseBody, ParseExtended, CheckChar, Sum, Judged;
    var length, seqno, kind, text := chars[0], chars[1], chars[2], chars[3..];
    var body := text + [c, END_CHAR] + rest;
    ShortSum(chars);
    ShortSplit(chars, c, rest);
    HeadRead(length, seqno, [kind] + body);
    TypeRead(kind, body, seqno - SPACE, length - SPACE - 1, length + seqno);
    BodyRead(seqno - SPACE, kind, text, c, length + seqno + kind, rest);
  }

  lemma {:induction false} ShortSum(chars: seq<byte>)
    requires |chars| >= 3
    ensures Sum(chars) == chars[0] + chars[1] + chars[2] + Sum(chars[3..])
  {
    var head := [chars[0], chars[1], chars[2]];
    assert chars == head + chars[3..];
    SumJoin(head, chars[3..]);
    Sum3(chars[0], chars[1], chars[2]);
    hide Sum;
  }

  lemma {:induction false} ShortSplit(chars: seq<byte>, c: byte, rest: seq<byte>)
    requires |chars| >= 3
    ensures [START_CHAR] + (chars + [c, END_CHAR]) + rest
            == [START_CHAR, chars[0], chars[1]] + ([chars[2]] + (chars[3..] + [c, END_CHAR] + rest))
  {
  }

  lemma {:induction false} TypeRead(kind: byte, tail: seq<byte>, n: nat, length: int, sum: nat)
    requires kind >= SPACE
    ensures ParseType([kind] + tail, n, length, sum)
            == if length == -1 then ParseExtended(tail, n, kind, sum + kind)
               else ParseBody(tail, n, kind, length - 1, sum + kind)
  {
    hide ParseExtended, ParseBody;
    assert ([kind] + tail)[1..] == tail;
  }

  /** Characters with an extended length; it matters only if the check of the head is right. */
  lemma {:induction false} LongRead(chars: seq<byte>, tail: seq<byte>)
    requires |chars| == 6 && chars[0] == SPACE && Printable(chars)
    ensures NextEvent([START_CHAR] + chars + tail)
            == if chars[5] != CheckChar(Sum(chars[..5])) then Parsed(Corrupt(chars[1] - SPACE, [], false), tail)
               else
                 ParseBody(tail, chars[1] - SPACE, chars[2], (chars[3] - SPACE) * 95 + (chars[4] - SPACE), Sum(chars))
  {
    hide NextEvent, ParseBody, ParseExtended, ParseType, CheckChar, Sum;
    var seqno, kind, hi, lo, check := chars[1], chars[2], chars[3], chars[4], chars[5];
    var s := [hi, lo, check] + tail;
    LongSum(chars);
    LongSplit(chars, tail);
    HeadRead(SPACE, seqno, [kind] + s);
    TypeRead(kind, s, seqno - SPACE, -1, SPACE + seqno);
    ExtendedRead(seqno - SPACE, kind, hi, lo, check, SPACE + seqno + kind, tail);
  }

  lemma {:induction false} LongSum(chars: seq<byte>)
    requires |chars| == 6
    ensures Sum(chars[..5]) == chars[0] as int + chars[1] + chars[2] + chars[3] + chars[4]
    ensures Sum(chars) == Sum(chars[..5]) + chars[5]
  {
    hide Sum;
    Sum5(chars[0], chars[1], chars[2], chars[3], chars[4]);
    assert chars[..5] == [chars[0], chars[1], chars[2], chars[3], chars[4]];
    assert chars == chars[..5] + [chars[5]];
    SumNext(chars[..5], chars[5]);
  }

  lemma {:induction false} LongSplit(chars: seq<byte>, tail: seq<byte>)
    requires |chars| == 6
    ensures [START_CHAR] + chars + tail
            == [START_CHAR, chars[0], chars[1]] + ([chars[2]] + ([chars[3], chars[4], chars[5]] + tail))
  {
  }

  lemma {:induction false} ExtendedRead(n: nat, kind: byte, hi: byte, lo: byte, check: byte, sum: nat, tail: seq<byte>)
    requires hi >= SPACE && lo >= SPACE && check >= SPACE
    ensures ParseExtended([hi, lo, check] + tail, n, kind, sum)
            == if check != CheckChar(sum + hi + lo) then Parsed(Corrupt(n, [], false), tail)
               else ParseBody(tail, n, kind, (hi - SPACE) * 95 + (lo - SPACE), sum + hi + lo + check)
  {
    hide CheckChar, ParseBody, Sum;
    var s := [hi, lo, check] + tail;
    assert s[3..] == tail;
  }

  /** The receiver reads a short packet back as it was sent. */
  lemma {:induction false} ShortPacketParses(n: nat, kind: byte, text: seq<byte>, rest: seq<byte>)
    requires Sendable(n, kind, text) && |text| <= 91
    ensures NextEvent(ShortPacket(n, kind, text) + rest) == Parsed(Good(n, kind, text, text != []), rest)
  {
    hide NextEvent, CheckChar, Sum, BlockCheck;
    var chars := ShortChars(n, kind, text);
    CheckAgrees(chars);
    ShortRead(chars, BlockCheck(chars), rest);
  }

  /** The receiver reads a long packet back as it was sent. */
  lemma {:induction false} LongPacketParses(n: nat, kind: byte, text: seq<byte>, rest: seq<byte>)
    requires Sendable(n, kind, text)
    ensures NextEvent(LongPacket(n, kind, text) + rest) == Parsed(Good(n, kind, text, text != []), rest)
  {
    LongHeadRead(n, kind, text, BlockCheck(LongChars(n, kind, text)), rest);
    CheckAgrees(LongChars(n, kind, text));
    hide NextEvent, CheckChar, Sum, BlockCheck, LongChars;
  }

  lemma {:induction false} LongHeadRead(n: nat, kind: byte, text: seq<byte>, c: byte, rest: seq<byte>)
    requires Sendable(n, kind, text) && c >= SPACE
    ensures NextEvent([START_CHAR] + (LongChars(n, kind, text) + [c, END_CHAR]) + rest)
            == Judged(n, kind, text, c, CheckChar(Sum(LongChars(n, kind, text))), rest)
  {
    var front := LongHead(n, kind, |text| + 1);
    var head := front + [BlockCheck(front)];
    CheckAgrees(front);
    LongHeadIs(n, kind, |text| + 1);
    hide NextEvent, CheckChar, Sum, BlockCheck, Judged, LongHead;
    assert head[..5] == front;
    LongTextRead(head, text, c, rest);
  }

  lemma {:induction false} LongTextRead(head: seq<byte>, text: seq<byte>, c: byte, rest: seq<byte>)
    requires |head| == 6 && head[0] == SPACE && Printable(head) && head[5] == CheckChar(Sum(head[..5]))
    requires (head[3] - SPACE) * 95 + (head[4] - SPACE) == |text| + 1 && Printable(text) && c >= SPACE
    ensures NextEvent([START_CHAR] + (head + text + [c, END_CHAR]) + rest)
            == Judged(head[1] - SPACE, head[2], text, c, CheckChar(Sum(head + text)), rest)
  {
    hide NextEvent, ParseBody, CheckChar, Sum, Judged;
    Regrouped(head, text, c, rest);
    LongRead(head, text + [c, END_CHAR] + rest);
    BodyRead(head[1] - SPACE, head[2], text, c, Sum(head), rest);
    SumJoin(head, text);
  }

  lemma {:induction false} Regrouped(head: seq<byte>, text: seq<byte>, c: byte, rest: seq<byte>)
    ensures [START_CHAR] + (head + text + [c, END_CHAR]) + rest == [START_CHAR] + head + (text + [c, END_CHAR] + rest)
  {
  }

  // ---- a damaged character ----------------------------------------------------------------------------------

  /** One of the eight bits of a character is wrong: the values differ by a power of two. */
  predicate OneBit(a: byte, b: byte) {
    (if a < b then b - a else a - b) in [1, 2, 4, 8, 16, 32, 64, 128]
  }

  lemma {:induction false} CheckMoves(sum: nat, d: nat)
    requires d in [1, 2, 4, 8, 16, 32, 64, 128]
    ensures CheckChar(sum) != CheckChar(sum + d)
  {
    var q, high, low := sum / 256, sum % 256 / 64, sum % 64;
    assert sum == 256 * q + 64 * high + low;
    hide CheckChar;
    if d < 64 {
      LowBitMoves(q, high, low, d);
    } else {
      HighBitMoves(q, high, low, d / 64);
    }
  }

  lemma {:induction false} LowBitMoves(q: nat, high: nat, low: nat, d: nat)
    requires high < 4 && low < 64 && d in [1, 2, 4, 8, 16, 32]
    ensures CheckChar(256 * q + 64 * high + low) != CheckChar(256 * q + 64 * high + low + d)
  {
    hide CheckChar;
    CheckOfParts(q, high, low);
    if low + d < 64 {
      CheckOfParts(q, high, low + d);
      Apart(low + high, low + d + high);
    } else if high < 3 {
      CheckOfParts(q, high + 1, low + d - 64);
      Apart(low + high, low + d - 64 + high + 1);
    } else {
      CheckOfParts(q + 1, 0, low + d - 64);
      WholeBlocks(1, low + d - 64);
      Apart(low + high, low + d);
    }
  }

  lemma {:induction false} HighBitMoves(q: nat, high: nat, low: nat, e: nat)
    requires high < 4 && low < 64 && 1 <= e <= 2
    ensures CheckChar(256 * q + 64 * high + low) != CheckChar(256 * q + 64 * high + low + 64 * e)
  {
    hide CheckChar;
    CheckOfParts(q, high, low);
    if high + e < 4 {
      CheckOfParts(q, high + e, low);
      Apart(low + high, low + high + e);
    } else {
      CheckOfParts(q + 1, high + e - 4, low);
      Apart(low + high, low + high + e - 4);
    }
  }

  lemma {:induction false} Apart(a: nat, b: nat)
    requires a != b && a < b + 64 && b < a + 64
    ensures a % 64 != b % 64
  {
  }

  lemma {:induction false} SumSwap(chars: seq<byte>, k: nat, c: byte)
    requires k < |chars|
    ensures Sum(chars[k := c]) == Sum(chars) - chars[k] + c
  {
    var m := |chars| - 1;
    if k < m {
      SumSwap(chars[..m], k, c);
      assert chars[k := c][..m] == chars[..m][k := c];
    } else {
      assert chars[k := c][..m] == chars[..m];
    }
  }

  /** One wrong bit always changes the check. */
  lemma {:induction false} BitChangesCheck(chars: seq<byte>, k: nat, c: byte)
    requires k < |chars| && OneBit(chars[k], c)
    ensures BlockCheck(chars[k := c]) != BlockCheck(chars)
  {
    hide Sum, CheckChar, BlockCheck;
    SumSwap(chars, k, c);
    CheckAgrees(chars);
    CheckAgrees(chars[k := c]);
    if chars[k] < c {
      CheckMoves(Sum(chars), c - chars[k]);
    } else {
      CheckMoves(Sum(chars[k := c]), chars[k] - c);
    }
  }

  /**
   * A short packet with another printable character for its sequence number, type or a character of its
   * data is taken for a good one exactly if the check is the same, so never if one bit is wrong.
   */
  lemma {:induction false} ShortPacketDamaged(n: nat, kind: byte, text: seq<byte>, k: nat, c: byte, rest: seq<byte>)
    requires Sendable(n, kind, text) && |text| <= 91 && 2 <= k < |text| + 4 && c >= SPACE
    ensures var chars := ShortChars(n, kind, text)[k - 1 := c];
            NextEvent(ShortPacket(n, kind, text)[k := c] + rest)
            == if BlockCheck(chars) == BlockCheck(ShortChars(n, kind, text)) then
                 Parsed(Good(chars[1] - SPACE, chars[2], chars[3..], text != []), rest)
               else
                 Parsed(Corrupt(chars[1] - SPACE, Fed(chars[2], chars[3..]), text != []), [END_CHAR] + rest)
    ensures OneBit(ShortPacket(n, kind, text)[k], c) ==>
              NextEvent(ShortPacket(n, kind, text)[k := c] + rest).ev.Corrupt?
  {
    hide NextEvent, Sum, CheckChar, BlockCheck;
    var sent := ShortChars(n, kind, text);
    var chars, check := sent[k - 1 := c], BlockCheck(sent);
    assert ShortPacket(n, kind, text)[k := c] == [START_CHAR] + (chars + [check, END_CHAR]);
    CheckAgrees(sent);
    CheckAgrees(chars);
    ShortRead(chars, check, rest);
    if OneBit(sent[k - 1], c) {
      BitChangesCheck(sent, k - 1, c);
    }
  }

  /** The same for the data of a long packet. */
  lemma {:induction false} LongPacketDamaged(n: nat, kind: byte, text: seq<byte>, k: nat, c: byte, rest: seq<byte>)
    requires Sendable(n, kind, text) && k < |text| && c >= SPACE
    ensures var chars := LongChars(n, kind, text);
            NextEvent(LongPacket(n, kind, text)[k + 7 := c] + rest)
            == if BlockCheck(chars[k + 6 := c]) == BlockCheck(chars) then
                 Parsed(Good(n, kind, text[k := c], true), rest)
               else
                 Parsed(Corrupt(n, Fed(kind, text[k := c]), true), [END_CHAR] + rest)
    ensures OneBit(text[k], c) ==> NextEvent(LongPacket(n, kind, text)[k + 7 := c] + rest).ev.Corrupt?
  {
    LongHeadIs(n, kind, |text| + 1);
    hide NextEvent, Sum, CheckChar, BlockCheck, LongHead;
    var chars, check := LongChars(n, kind, text), BlockCheck(LongChars(n, kind, text));
    assert LongPacket(n, kind, text)[k + 7 := c] == [START_CHAR] + (chars[k + 6 := c] + [check, END_CHAR]);
    assert chars[k + 6 := c] == LongChars(n, kind, text[k := c]);
    CheckAgrees(chars);
    CheckAgrees(chars[k + 6 := c]);
    LongHeadRead(n, kind, text[k := c], check, rest);
    if OneBit(text[k], c) {
      BitChangesCheck(chars, k + 6, c);
    }
  }

  /** A long packet with one wrong bit in the sequence number, type, length or check of its head is never read on. */
  lemma {:induction false} LongHeadDamaged(n: nat, kind: byte, text: seq<byte>, k: nat, c: byte, rest: seq<byte>)
    requires Sendable(n, kind, text) && 2 <= k < 7 && c >= SPACE && OneBit(LongPacket(n, kind, text)[k], c)
    ensures var sent := LongPacket(n, kind, text)[k := c];
            NextEvent(sent + rest) == Parsed(Corrupt(sent[2] - SPACE, [], false), sent[7..] + rest)
  {
    var front := LongHead(n, kind, |text| + 1);
    var head := front + [BlockCheck(front)];
    LongHeadIs(n, kind, |text| + 1);
    CheckAgrees(front);
    HeadSwapped(head, text, BlockCheck(head + text), k, c, rest);
    hide NextEvent, Sum, CheckChar, BlockCheck, LongHead;
    var sent := LongPacket(n, kind, text)[k := c];
    HeadRefused(front, BlockCheck(front), k - 1, c, sent[7..] + rest);
  }

  lemma {:induction false} HeadRefused(front: seq<byte>, check: byte, k: nat, c: byte, tail: seq<byte>)
    requires |front| == 5 && front[0] == SPACE && Printable(front) && check == BlockCheck(front) >= SPACE
    requires 1 <= k < 6 && c >= SPACE && OneBit((front + [check])[k], c)
    ensures var head := (front + [check])[k := c];
            NextEvent([START_CHAR] + head + tail) == Parsed(Corrupt(head[1] - SPACE, [], false), tail)
  {
    hide NextEvent, Sum, CheckChar, BlockCheck;
    var head := (front + [check])[k := c];
    LongRead(head, tail);
    if k < 5 {
      assert head[..5] == front[k := c];
      CheckAgrees(front[k := c]);
      BitChangesCheck(front, k, c);
    } else {
      assert head[..5] == front;
      CheckAgrees(front);
    }
  }

  lemma {:induction false} HeadSwapped(head: seq<byte>, text: seq<byte>, check: byte, k: nat, c: byte, rest: seq<byte>)
    requires |head| == 6 && 2 <= k < 7
    ensures var sent := ([START_CHAR] + (head + text + [check, END_CHAR]))[k := c];
            sent + rest == [START_CHAR] + head[k - 1 := c] + (sent[7..] + rest)
  {
  }
}
