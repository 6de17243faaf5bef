/** Control-character quoting of the Kermit data field (Kermit Protocol Manual, control prefixing). */
module KermitCode {
  import opened Bytes
  import opened Seqs

  /** ktrans: the byte meant by a character behind the quote character. */
  function KTrans(c: byte): byte {
    if c / 32 % 4 == 2 then c - 64
    else if c % 128 == 63 then c + 64
    else c
  }

  predicate IsControl(b: byte) {
    b % 128 < 32 || b % 128 == 127
  }

  /** ctl of the manual: flips bit 6. */
  function Ctl(b: byte): byte {
    if b / 64 % 2 == 0 then b + 64 else b - 64
  }

  /** The quote characters the manual allows. */
  predicate LegalQuote(q: byte) {
    33 <= q <= 62 || 96 <= q <= 126
  }

  /**
   The ways a sender may encode byte b.  A byte that is neither a control character nor the quote
   may go as it is; senders may also leave 8-bit control characters and DEL unquoted.
   */
  predicate Code(q: byte, b: byte, w: seq<byte>) {
    || (w == [b] && b >= 32 && b != q)
    || (w == [q, Ctl(b)] && IsControl(b))
    || (w == [q, b] && b % 128 == q)
  }

  /** text is an encoding of data, byte after byte. */
  ghost predicate Encodes(q: byte, data: seq<byte>, text: seq<byte>) {
    if data == [] then text == [] else
      exists k :: 0 < k <= |text| && k <= 2 && Code(q, data[0], text[..k]) && Encodes(q, data[1..], text[k..])
  }

  /** What the receiver makes of text: the decoded bytes, and whether a quote is pending. */
  datatype Decoded = Decoded(data: seq<byte>, escape: bool)

  function UnquoteChar(q: byte, escape: bool, c: byte): Decoded {
    if escape then Decoded([KTrans(c)], false)
    else if c == q then Decoded([], true)
    else Decoded([c], false)
  }

  function Unquote(q: byte, escape: bool, text: seq<byte>): (r: Decoded)
    ensures |r.data| <= |text|
    decreases |text|
  {
    if text == [] then Decoded([], escape) else
      var head := Unquote(q, escape, text[..|text| - 1]);
      var last := UnquoteChar(q, head.escape, text[|text| - 1]);
      Decoded(head.data + last.data, last.escape)
  }

  /** Splitting the text anywhere, even behind a quote character, makes no difference. */
  lemma {:induction false} UnquoteAppend(q: byte, escape: bool, a: seq<byte>, b: seq<byte>)
    ensures var first := Unquote(q, escape, a);
            var second := Unquote(q, first.escape, b);
            Unquote(q, escape, a + b) == Decoded(first.data + second.data, second.escape)
    decreases |b|
  {
    if b == [] {
      assert a + b == a;
    } else {
      var n := |b| - 1;
      UnquoteAppend(q, escape, a, b[..n]);
      assert (a + b)[..|a + b| - 1] == a + b[..n];
    }
  }

  lemma {:induction false} KTransInverts(q: byte, b: byte)
    requires LegalQuote(q)
    ensures IsControl(b) ==> KTrans(Ctl(b)) == b
    ensures b % 128 == q ==> KTrans(b) == b
  {
  }

  lemma {:induction false} UnquoteCode(q: byte, b: byte, w: seq<byte>)
    requires LegalQuote(q) && Code(q, b, w)
    ensures Unquote(q, false, w) == Decoded([b], false)
  {
    if |w| == 1 {
      assert w[..0] == [];
    } else {
      assert w[..1] == [q] && [q][..0] == [];
      assert Unquote(q, false, [q]) == Decoded([], true);
      KTransInverts(q, b);
      hide KTrans, IsControl, Ctl, LegalQuote;
      assert KTrans(w[1]) == b;
    }
  }

  lemma {:induction false} FirstCode(q: byte, data: seq<byte>, text: seq<byte>) returns (k: nat)
    requires data != [] && Encodes(q, data, text)
    ensures k <= |text| && Code(q, data[0], text[..k]) && Encodes(q, data[1..], text[k..])
  {
    k :| 0 < k <= |text| && k <= 2 && Code(q, data[0], text[..k]) && Encodes(q, data[1..], text[k..]);
  }

  /** Unquoting inverts every way of quoting, for every legal quote character. */
  lemma {:induction false} UnquoteEncoded(q: byte, data: seq<byte>, text: seq<byte>)
    requires LegalQuote(q) && Encodes(q, data, text)
    ensures Unquote(q, false, text) == Decoded(data, false)
    decreases |data|
  {
    if data != [] {
      hide *;
      var k := FirstCode(q, data, text);
      UnquoteCode(q, data[0], text[..k]);
      UnquoteEncoded(q, data[1..], text[k..]);
      UnquoteAppend(q, false, text[..k], text[k..]);
      assert text[..k] + text[k..] == text;
      assert [data[0]] + data[1..] == data;
    }
  }

  // ---- a sender ------------------------------------------------------------------------------------

  function QuoteByte(q: byte, b: byte): (w: seq<byte>)
    requires LegalQuote(q)
    ensures Code(q, b, w) && 1 <= |w| <= 2
    ensures forall i :: 0 <= i < |w| ==> w[i] >= 32
  {
    if IsControl(b) then [q, Ctl(b)] else if b % 128 == q then [q, b] else [b]
  }

  function Quote(q: byte, data: seq<byte>): seq<byte>
    requires LegalQuote(q)
  {
    if data == [] then [] else QuoteByte(q, data[0]) + Quote(q, data[1..])
  }

  /** The usual sender is one of those covered, and its text has no character below SPACE. */
  lemma {:induction false} QuoteEncodes(q: byte, data: seq<byte>)
    requires LegalQuote(q)
    ensures Encodes(q, data, Quote(q, data))
    ensures forall i :: 0 <= i < |Quote(q, data)| ==> Quote(q, data)[i] >= 32
  {
    if data != [] {
      QuoteEncodes(q, data[1..]);
      var w, text := QuoteByte(q, data[0]), Quote(q, data);
      assert text[..|w|] == w && text[|w|..] == Quote(q, data[1..]);
    }
  }

  // ---- any split into packets ---------------------------------------------------------------------------

  /** The bytes decoded from packet i of a text cut into parts. */
  function PartData(q: byte, parts: seq<seq<byte>>, i: nat): seq<byte>
    requires i < |parts|
  {
    Unquote(q, Unquote(q, false, Concat(parts[..i])).escape, parts[i]).data
  }

  function AllParts(q: byte, parts: seq<seq<byte>>, n: nat): (r: seq<seq<byte>>)
    requires n <= |parts|
    ensures |r| == n
  {
    seq(n, i requires 0 <= i < n => PartData(q, parts, i))
  }

  lemma {:induction false} PartsDecode(q: byte, parts: seq<seq<byte>>, n: nat)
    requires n <= |parts|
    ensures Concat(AllParts(q, parts, n)) == Unquote(q, false, Concat(parts[..n])).data
  {
    if n > 0 {
      PartsDecode(q, parts, n - 1);
      assert parts[..n][..n - 1] == parts[..n - 1];
      assert AllParts(q, parts, n)[..n - 1] == AllParts(q, parts, n - 1);
      UnquoteAppend(q, false, Concat(parts[..n - 1]), parts[n - 1]);
    }
  }

  /** Whatever way an encoded text is cut into packets, the decoded packets give the data back. */
  lemma {:induction false} SplitDecodes(q: byte, data: seq<byte>, parts: seq<seq<byte>>)
    requires LegalQuote(q) && Encodes(q, data, Concat(parts))
    ensures Concat(AllParts(q, parts, |parts|)) == data
    ensures forall i :: 0 <= i < |parts| ==> |PartData(q, parts, i)| <= |parts[i]|
  {
    PartsDecode(q, parts, |parts|);
    UnquoteEncoded(q, data, Concat(parts));
    assert parts[..|parts|] == parts;
  }
}
