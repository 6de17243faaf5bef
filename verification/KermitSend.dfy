/** A sender as the protocol describes it, from its parameters and a file to the characters on the line. */
module KermitSend {
  import opened Bytes
  import opened Seqs
  import opened KermitCode
  import opened KermitPacket
  import opened KermitRun
  import opened KermitDelivery

  const HEADER_TYPE: byte := 70
  const EOF_TYPE: byte := 90

  /** What a send-initiate packet announces, in the order of the protocol. */
  datatype Parameters = Parameters(maxl: nat, time: nat, npad: nat, padc: byte, eol: nat, qctl: byte)

  predicate Allowed(p: Parameters) {
    && p.maxl <= 94 && p.time <= 94 && p.npad <= 94 && p.eol <= 94
    && IsControl(p.padc) && LegalQuote(p.qctl)
  }

  /** The parameter field; a sender may leave off its end and have the defaults. */
  function Field(p: Parameters, more: seq<byte>): seq<byte>
    requires Allowed(p)
  {
    [SPACE + p.maxl, SPACE + p.time, SPACE + p.npad, Ctl(p.padc), SPACE + p.eol, p.qctl] + more
  }

  /** The quote character after the first k characters of the parameter field: number sign unless announced. */
  function Agreed(p: Parameters, k: nat): byte {
    if k < 6 then '#' as int else p.qctl
  }

  /** Send-initiate, file header, the data, end of file, break. */
  function Sending(init: seq<byte>, name: seq<byte>, parts: seq<seq<byte>>): (packets: seq<Packet>)
    ensures |packets| == |parts| + 4
  {
    [Packet(SEND_TYPE, init), Packet(HEADER_TYPE, name)]
    + seq(|parts|, i requires 0 <= i < |parts| => Packet(DATA_TYPE, parts[i]))
    + [Packet(EOF_TYPE, []), Packet(BREAK_TYPE, [])]
  }

  predicate Fitting(text: seq<byte>) {
    |text| < 95 * 95 - 1 && Printable(text)
  }

  /** Every packet once, with nothing spoiled. */
  function Once(n: nat): (takes: seq<Take>)
    ensures |takes| == n
  {
    seq(n, i requires 0 <= i < n => Take(i, []))
  }

  function Intacts(packets: seq<Packet>, n: nat): (evs: seq<Event>)
    requires n <= |packets|
    ensures |evs| == n
  {
    seq(n, i requires 0 <= i < n => Intact(packets, i))
  }

  lemma {:induction false} FlowOnce(packets: seq<Packet>, n: nat)
    requires 0 < |packets| && n <= |packets|
    ensures Flow(packets, Once(|packets|), n) == Intacts(packets, n)
  {
    if n > 0 {
      FlowOnce(packets, n - 1);
      assert Intacts(packets, n) == Intacts(packets, n - 1) + [Intact(packets, n - 1)];
      assert Receptions(packets, Once(|packets|)[n - 1]) == [Intact(packets, n - 1)];
    }
  }

  lemma {:induction false} ConcatHead<T>(first: seq<T>, parts: seq<seq<T>>)
    ensures Concat([first] + parts) == first + Concat(parts)
  {
    var all := [first] + parts;
    if parts == [] {
      assert all == [first] && all[..0] == [];
    } else {
      var n := |parts| - 1;
      ConcatHead(first, parts[..n]);
      assert all[..n + 1] == [first] + parts[..n];
    }
  }

  /** Only the data packets carry text. */
  lemma {:induction false} SendingParts(init: seq<byte>, name: seq<byte>, parts: seq<seq<byte>>)
    ensures Concat(Parts(Sending(init, name, parts))) == Concat(parts)
  {
    var all := Parts(Sending(init, name, parts));
    var n := |all|;
    assert all == [[]] + ([[]] + parts) + [[]] + [[]];
    assert all[..n - 1] == [[]] + ([[]] + parts) + [[]];
    assert all[..n - 1][..n - 2] == [[]] + ([[]] + parts);
    ConcatHead([], [[]] + parts);
    ConcatHead([], parts);
  }

  lemma {:induction false} SendingLegible(init: seq<byte>, name: seq<byte>, parts: seq<seq<byte>>)
    requires Fitting(init) && Fitting(name) && forall i :: 0 <= i < |parts| ==> Fitting(parts[i])
    ensures Legible(Sending(init, name, parts)) && Transfer(Sending(init, name, parts))
  {
    var packets := Sending(init, name, parts);
    forall i | 0 <= i < |packets|
      ensures Sendable(i % 64, packets[i].kind, packets[i].text)
    {
      assert Fitting(packets[i].text);
    }
  }

  lemma {:induction false} FieldAgrees(p: Parameters, more: seq<byte>, k: nat, name: seq<byte>, parts: seq<seq<byte>>)
    requires Allowed(p) && Printable(more) && |more| <= 80 && k <= 6 + |more|
    ensures QuoteUsed(Sending(Field(p, more)[..k], name, parts)) == Agreed(p, k)
    ensures Fitting(Field(p, more)[..k]) && LegalQuote(Agreed(p, k))
  {
  }

  lemma {:induction false} OnceClear(packets: seq<Packet>)
    requires 0 < |packets|
    ensures Schedule(packets, Once(|packets|)) && Clear(Once(|packets|))
  {
  }

  /**
   * The receiver gets the file from any such sender, whatever it announces or leaves off, however it quotes with
   * the character that makes and wherever it cuts.
   */
  lemma {:induction false} SentFileArrives(p: Parameters, more: seq<byte>, k: nat, name: seq<byte>,
                                           parts: seq<seq<byte>>, file: seq<byte>, rest: seq<byte>)
    requires Allowed(p) && Printable(more) && |more| <= 80 && k <= 6 + |more|
    requires Fitting(name) && forall i :: 0 <= i < |parts| ==> Fitting(parts[i])
    requires Encodes(Agreed(p, k), file, Concat(parts))
    ensures var packets := Sending(Field(p, more)[..k], name, parts);
            var evs := Intacts(packets, |packets|);
            && (forall i :: 0 <= i < |evs| ==> OnLine(evs[i]))
            && Run(START, Events(Wires(evs) + rest)).written == file
  {
    var init := Field(p, more)[..k];
    var packets := Sending(init, name, parts);
    FieldAgrees(p, more, k, name, parts);
    SendingParts(init, name, parts);
    SendingLegible(init, name, parts);
    OnceClear(packets);
    FlowOnce(packets, |packets|);
    hide *;
    TransferOnLine(packets, Once(|packets|), file, rest);
  }
}
