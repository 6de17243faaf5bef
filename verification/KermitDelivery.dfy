/** What of a file gets across: when exactly the output is what was sent. */
module KermitDelivery {
  import opened Bytes
  import opened Seqs
  import opened KermitCode
  import opened KermitPacket
  import opened KermitRun

  /** Decoding packet i from the right pending quote. */
  lemma {:induction false} DecodePart(packets: seq<Packet>, i: nat)
    requires i < |packets|
    ensures Unquote(QuoteUsed(packets), Pending(packets, i), Parts(packets)[i])
            == Decoded(Data(packets, i), Pending(packets, i + 1))
  {
    var parts := Parts(packets);
    UnquoteAppend(QuoteUsed(packets), false, Concat(parts[..i]), parts[i]);
    assert parts[..i + 1][..i] == parts[..i];
  }

  /** Everything the packets before the n-th carry. */
  function Sent(packets: seq<Packet>, n: nat): seq<byte>
    requires n <= |packets|
  {
    if n == 0 then [] else Sent(packets, n - 1) + Data(packets, n - 1)
  }

  lemma {:induction false} NothingPending(packets: seq<Packet>)
    requires |packets| > 0
    ensures !Pending(packets, 0)
  {
    assert Parts(packets)[..0] == [];
  }

  lemma {:induction false} SentNext(packets: seq<Packet>, n: nat)
    requires 0 < n <= |packets|
    ensures Sent(packets, n) == Sent(packets, n - 1) + Data(packets, n - 1)
  {
  }

  /** The break packet carries nothing, so what was sent is what the packets before it carry. */
  lemma {:induction false} BreakCarriesNothing(packets: seq<Packet>)
    requires Transfer(packets)
    ensures Sent(packets, |packets|) == Sent(packets, |packets| - 1)
  {
    DecodePart(packets, |packets| - 1);
  }

  // ---- what can go wrong --------------------------------------------------------------------------------------

  /** Take j is the last one of its packet. */
  predicate Wanted(takes: seq<Take>, j: nat)
    requires j < |takes|
  {
    j == |takes| - 1 || takes[j + 1].i != takes[j].i
  }

  /**
   Take j is decoded from the wrong pending quote: it is the next packet but the reception behind take j-1 was spoiled
   before its number or heard with the number of take j-1, or it is the same packet again but that reception was heard
   with another number; and the packet of take j-1 changes the pending quote.
   */
  predicate Disturbed(packets: seq<Packet>, takes: seq<Take>, j: nat)
    requires InRange(packets, takes) && j < |takes|
  {
    && j > 0 && Moves(packets, takes, j) != (takes[j].i != takes[j - 1].i)
    && Pending(packets, takes[j - 1].i) != Pending(packets, takes[j - 1].i + 1)
  }

  /** The last take of a packet with data is dropped: a number is heard twice in a row before the next take. */
  predicate Loses(packets: seq<Packet>, takes: seq<Take>, j: nat)
    requires InRange(packets, takes) && j < |takes|
  {
    Wanted(takes, j) && !PutOut(packets, takes, j) && Data(packets, takes[j].i) != []
  }

  /**
   Bytes are put out that were not sent: a take that is repeated is not dropped, or a packet without text takes over
   what a spoiled reception left in the data buffer.
   */
  predicate Adds(packets: seq<Packet>, takes: seq<Take>, j: nat)
    requires InRange(packets, takes) && j < |takes|
  {
    && PutOut(packets, takes, j) && Got(packets, takes, j) != []
    && (!Wanted(takes, j) || packets[takes[j].i].text == [])
  }

  predicate Undisturbed(packets: seq<Packet>, takes: seq<Take>, n: nat)
    requires InRange(packets, takes) && n <= |takes|
  {
    forall j :: 0 <= j < n ==> !Disturbed(packets, takes, j)
  }

  predicate NothingLost(packets: seq<Packet>, takes: seq<Take>, n: nat)
    requires InRange(packets, takes) && n <= |takes|
  {
    forall j :: 0 <= j < n ==> !Loses(packets, takes, j)
  }

  predicate NothingAdded(packets: seq<Packet>, takes: seq<Take>, n: nat)
    requires InRange(packets, takes) && n <= |takes|
  {
    forall j :: 0 <= j < n ==> !Adds(packets, takes, j)
  }

  // ---- delivery -------------------------------------------------------------------------------------------------

  /** Up to the first disturbance every take starts from the right pending quote. */
  lemma {:induction false} StartsRight(packets: seq<Packet>, takes: seq<Take>, j: nat)
    requires Schedule(packets, takes) && InRange(packets, takes) && j < |takes| && Undisturbed(packets, takes, j + 1)
    ensures Start(packets, takes, j) == Pending(packets, takes[j].i)
    ensures After(packets, takes, j) == Pending(packets, takes[j].i + 1)
  {
    hide Pending, Moves;
    DecodePart(packets, takes[j].i);
    if j == 0 {
      NothingPending(packets);
    } else {
      StartsRight(packets, takes, j - 1);
      assert !Disturbed(packets, takes, j) && GoesOn(packets, takes, j - 1);
    }
  }

  /** A packet with text is decoded from it alone. */
  lemma {:induction false} GotOfText(packets: seq<Packet>, takes: seq<Take>, j: nat)
    requires InRange(packets, takes) && j < |takes| && (j == 0 ==> QuoteUsed(packets) == K_ESCAPE)
    requires packets[takes[j].i].text != [] && packets[takes[j].i].kind != SEND_TYPE
    ensures Got(packets, takes, j)
         == Unquote(QuoteUsed(packets), Start(packets, takes, j), Parts(packets)[takes[j].i]).data
  {
    var evs := Receptions(packets, takes[j]);
    assert evs[|evs| - 1] == Intact(packets, takes[j].i);
    hide Unquote;
    assert [] + Unquote(QuoteUsed(packets), Start(packets, takes, j), Parts(packets)[takes[j].i]).data
        == Unquote(QuoteUsed(packets), Start(packets, takes, j), Parts(packets)[takes[j].i]).data;
  }

  lemma {:induction false} NoTextNoData(packets: seq<Packet>, i: nat)
    requires i < |packets| && (packets[i].text == [] || packets[i].kind == SEND_TYPE)
    ensures Data(packets, i) == []
  {
    DecodePart(packets, i);
  }

  /** So it is decoded to what it carries. */
  lemma {:induction false} GotIsData(packets: seq<Packet>, takes: seq<Take>, j: nat)
    requires Transfer(packets) && Schedule(packets, takes) && InRange(packets, takes) && j < |takes|
    requires Undisturbed(packets, takes, j + 1) && packets[takes[j].i].text != []
    ensures Got(packets, takes, j) == Data(packets, takes[j].i)
  {
    var i := takes[j].i;
    StartsRight(packets, takes, j);
    DecodePart(packets, i);
    hide Start, Pending, Data, Undisturbed;
    if packets[i].kind == SEND_TYPE {
      NoTextNoData(packets, i);
    } else {
      GotOfText(packets, takes, j);
    }
  }

  /** What was sent before take j, or all of it. */
  function SentTo(packets: seq<Packet>, takes: seq<Take>, j: nat): seq<byte>
    requires InRange(packets, takes) && j <= |takes|
  {
    Sent(packets, if j < |takes| then takes[j].i else |packets|)
  }

  lemma {:induction false} SentOn(packets: seq<Packet>, takes: seq<Take>, j: nat)
    requires Schedule(packets, takes) && InRange(packets, takes) && j < |takes|
    ensures SentTo(packets, takes, 0) == []
    ensures SentTo(packets, takes, j + 1)
         == SentTo(packets, takes, j) + if Wanted(takes, j) then Data(packets, takes[j].i) else []
  {
    hide Data;
    if j < |takes| - 1 {
      assert GoesOn(packets, takes, j);
    }
  }

  /** What a take brings to the output against what it should bring. */
  lemma {:induction false} Piece(packets: seq<Packet>, takes: seq<Take>, j: nat)
    requires Transfer(packets) && Schedule(packets, takes) && InRange(packets, takes) && j < |takes|
    requires Undisturbed(packets, takes, j + 1)
    ensures var brought := if PutOut(packets, takes, j) then Got(packets, takes, j) else [];
            var due := if Wanted(takes, j) then Data(packets, takes[j].i) else [];
            if Loses(packets, takes, j) then brought == [] && due != [] && !Adds(packets, takes, j)
            else if Adds(packets, takes, j) then brought != [] && due == []
            else brought == due
  {
    if packets[takes[j].i].text == [] {
      NoTextNoData(packets, takes[j].i);
    } else {
      GotIsData(packets, takes, j);
    }
    hide Transfer, Schedule, Undisturbed, PutOut, Got, Data, Wanted;
  }

  lemma {:induction false} FaultsNext(packets: seq<Packet>, takes: seq<Take>, n: nat)
    requires InRange(packets, takes) && n < |takes|
    ensures Undisturbed(packets, takes, n + 1) ==> Undisturbed(packets, takes, n)
    ensures NothingLost(packets, takes, n + 1) <==> NothingLost(packets, takes, n) && !Loses(packets, takes, n)
    ensures NothingAdded(packets, takes, n + 1) <==> NothingAdded(packets, takes, n) && !Adds(packets, takes, n)
    ensures NothingLost(packets, takes, 0) && NothingAdded(packets, takes, 0)
  {
    hide Disturbed, Loses, Adds;
  }

  lemma {:induction false} OutputNext(packets: seq<Packet>, takes: seq<Take>, n: nat)
    requires InRange(packets, takes) && n < |takes|
    ensures Output(packets, takes, 0) == []
    ensures Output(packets, takes, n + 1)
         == Output(packets, takes, n) + if PutOut(packets, takes, n) then Got(packets, takes, n) else []
  {
  }

  /** Losses make the output shorter, additions longer. */
  predicate Against(out: seq<byte>, sent: seq<byte>, lost: bool, added: bool) {
    && (!lost && !added ==> out == sent)
    && (lost && !added ==> |out| < |sent|)
    && (!lost && added ==> |out| > |sent|)
  }

  lemma {:induction false} AgainstNext(out: seq<byte>, sent: seq<byte>, lost: bool, added: bool,
                                       brought: seq<byte>, due: seq<byte>, loses: bool, adds: bool)
    requires Against(out, sent, lost, added)
    requires if loses then brought == [] && due != [] && !adds
             else if adds then brought != [] && due == [] else brought == due
    ensures Against(out + brought, sent + due, lost || loses, added || adds)
  {
  }

  lemma {:induction false} OutputAgainst(packets: seq<Packet>, takes: seq<Take>, n: nat)
    requires Transfer(packets) && Schedule(packets, takes) && InRange(packets, takes) && n <= |takes|
    requires Undisturbed(packets, takes, n)
    ensures Against(Output(packets, takes, n), SentTo(packets, takes, n),
                    !NothingLost(packets, takes, n), !NothingAdded(packets, takes, n))
  {
    if n == 0 {
      TakesInRange(packets, takes);
      FaultsNext(packets, takes, 0);
      OutputNext(packets, takes, 0);
      SentOn(packets, takes, 0);
    } else {
      hide *;
      var m := n - 1;
      FaultsNext(packets, takes, m);
      OutputAgainst(packets, takes, m);
      Piece(packets, takes, m);
      OutputNext(packets, takes, m);
      SentOn(packets, takes, m);
      AgainstNext(Output(packets, takes, m), SentTo(packets, takes, m),
                  !NothingLost(packets, takes, m), !NothingAdded(packets, takes, m),
                  if PutOut(packets, takes, m) then Got(packets, takes, m) else [],
                  if Wanted(takes, m) then Data(packets, takes[m].i) else [],
                  Loses(packets, takes, m), Adds(packets, takes, m));
    }
  }

  /**
   Exactly-once delivery: as long as every take is decoded from the right pending quote and losses and additions do
   not meet, the output is what was sent exactly if there is neither.
   */
  lemma {:induction false} DeliveredExactly(packets: seq<Packet>, takes: seq<Take>)
    requires Transfer(packets) && Schedule(packets, takes)
    ensures InRange(packets, takes)
    ensures var lost := !NothingLost(packets, takes, |takes|);
            var added := !NothingAdded(packets, takes, |takes|);
            Undisturbed(packets, takes, |takes|) && !(lost && added) ==>
              (Run(START, Flow(packets, takes, |takes|)).written == Sent(packets, |packets|) <==> !lost && !added)
  {
    TransferWrites(packets, takes);
    if Undisturbed(packets, takes, |takes|) {
      OutputAgainst(packets, takes, |takes|);
    }
    hide NothingLost, NothingAdded, Undisturbed, Transfer, Schedule, Output, Sent, Run, Flow;
  }

  /** A sequence of packets carries the data its text encodes. */
  lemma {:induction false} SentIsData(packets: seq<Packet>, n: nat)
    requires 0 < |packets| && n <= |packets|
    ensures Sent(packets, n) == Concat(AllParts(QuoteUsed(packets), Parts(packets), n))
  {
    if n > 0 {
      SentIsData(packets, n - 1);
      assert AllParts(QuoteUsed(packets), Parts(packets), n)[..n - 1]
             == AllParts(QuoteUsed(packets), Parts(packets), n - 1);
    }
  }

  /** So under the same conditions the file arrives, however it was quoted, cut and repeated. */
  lemma {:induction false} FileArrives(packets: seq<Packet>, takes: seq<Take>, file: seq<byte>)
    requires Transfer(packets) && Schedule(packets, takes)
    requires LegalQuote(QuoteUsed(packets)) && Encodes(QuoteUsed(packets), file, Concat(Parts(packets)))
    ensures InRange(packets, takes)
    ensures var lost := !NothingLost(packets, takes, |takes|);
            var added := !NothingAdded(packets, takes, |takes|);
            Undisturbed(packets, takes, |takes|) && !(lost && added) ==>
              (Run(START, Flow(packets, takes, |takes|)).written == file <==> !lost && !added)
  {
    hide NothingLost, NothingAdded, Undisturbed, Run, Flow;
    DeliveredExactly(packets, takes);
    SentIsData(packets, |packets|);
    SplitDecodes(QuoteUsed(packets), file, Parts(packets));
  }

  // ---- when the numbers are heard right -----------------------------------------------------------------------

  /** Every sequence number that is heard is that of the packet the sender is sending. */
  predicate HeardRight(takes: seq<Take>) {
    forall j :: 0 <= j < |takes| ==> AllNumbered(takes[j].noise, takes[j].i % 64)
  }

  predicate AllNumbered(evs: seq<Event>, n: nat) {
    forall k :: 0 <= k < |evs| ==> (evs[k].Corrupt? ==> evs[k].n == n)
  }

  /** No number is heard. */
  predicate Unheard(evs: seq<Event>) {
    forall k :: 0 <= k < |evs| ==> !evs[k].Corrupt?
  }

  /** What spoiled receptions of one packet do. */
  lemma {:induction false} RightNoise(last: int, evs: seq<Event>, n: nat)
    requires AllSpoiled(evs) && AllNumbered(evs, n)
    ensures Unheard(evs) ==> LastHeard(last, evs) == last && Changing(last, evs)
    ensures !Unheard(evs) ==> LastHeard(last, evs) == n
  {
    if evs != [] {
      var k := |evs| - 1;
      RightNoise(last, evs[..k], n);
      assert evs == evs[..k] + [evs[k]];
    }
  }

  lemma {:induction false} UnheardBuffer(q: byte, esc: bool, last: int, cur: Option<seq<byte>>, evs: seq<Event>)
    requires AllSpoiled(evs) && Unheard(evs)
    ensures Content(Collected(q, esc, last, cur, evs)) == Content(cur)
  {
    if evs != [] {
      var k := |evs| - 1;
      UnheardBuffer(q, esc, last, cur, evs[..k]);
      assert evs[k].Early? && Unquote(q, esc, []).data == [];
    }
  }

  /** Then a take is put out exactly if the next one is of the next packet and its number is first heard with it. */
  lemma {:induction false} PutOutRight(packets: seq<Packet>, takes: seq<Take>, j: nat)
    requires Schedule(packets, takes) && InRange(packets, takes) && HeardRight(takes) && j < |takes| - 1
    ensures PutOut(packets, takes, j) <==> takes[j + 1].i != takes[j].i && Unheard(takes[j + 1].noise)
  {
    var next, last := takes[j + 1], takes[j].i % 64;
    var evs := Receptions(packets, next);
    assert evs[..|next.noise|] == next.noise && evs[|next.noise|] == Intact(packets, next.i);
    assert GoesOn(packets, takes, j);
    RightNoise(last, next.noise, next.i % 64);
    assert (takes[j].i + 1) % 64 != takes[j].i % 64;
  }

  /** And nothing is left in the buffer. */
  lemma {:induction false} BufferRight(packets: seq<Packet>, takes: seq<Take>, j: nat)
    requires Schedule(packets, takes) && InRange(packets, takes) && HeardRight(takes) && j < |takes|
    requires packets[takes[j].i].text == [] || packets[takes[j].i].kind == SEND_TYPE
    ensures Content(Buffer(packets, takes, j)) == []
  {
    var take := takes[j];
    var q, esc, last := QuoteAt(packets, j), Start(packets, takes, j), NumberOf(takes, j);
    if j > 0 && packets[takes[j - 1].i].kind == SEND_TYPE {
      BufferRight(packets, takes, j - 1);
    }
    assert AllSpoiled(take.noise) && AllNumbered(take.noise, take.i % 64);
    hide Schedule, HeardRight, Unquote, Collected, Unheard, Start;
    RightNoise(last, take.noise, take.i % 64);
    if Unheard(take.noise) {
      UnheardBuffer(q, esc, last, LeftOver(packets, takes, j), take.noise);
    }
    EmptyTake(q, esc, last, LeftOver(packets, takes, j), take.noise, Intact(packets, take.i));
  }

  /** An intact reception that brings no data keeps the buffer, drops it or starts an empty one. */
  lemma {:induction false} EmptyTake(q: byte, esc: bool, last: int, cur: Option<seq<byte>>, noise: seq<Event>,
                                     ev: Event)
    requires ev.Good? && Text(ev) == []
    requires Content(Collected(q, esc, last, cur, noise)) == [] || LastHeard(last, noise) == ev.n
    ensures Content(Collected(q, esc, last, cur, noise + [ev])) == []
  {
    assert (noise + [ev])[..|noise|] == noise;
    assert Unquote(q, esc, []).data == [];
  }

  /** So nothing is added, and losses alone decide. */
  lemma {:induction false} HeardRightAddsNothing(packets: seq<Packet>, takes: seq<Take>)
    requires Schedule(packets, takes) && HeardRight(takes)
    ensures InRange(packets, takes) && NothingAdded(packets, takes, |takes|)
  {
    TakesInRange(packets, takes);
    hide Schedule, HeardRight, PutOut, Got, InRange;
    forall j | 0 <= j < |takes|
      ensures !Adds(packets, takes, j)
    {
      NotAdded(packets, takes, j);
    }
  }

  lemma {:induction false} NotAdded(packets: seq<Packet>, takes: seq<Take>, j: nat)
    requires Schedule(packets, takes) && InRange(packets, takes) && HeardRight(takes) && j < |takes|
    ensures !Adds(packets, takes, j)
  {
    if packets[takes[j].i].text == [] {
      BufferRight(packets, takes, j);
    }
    if j < |takes| - 1 {
      PutOutRight(packets, takes, j);
    }
    hide Schedule, HeardRight, PutOut, Buffer, InRange;
  }

  /**
   If the numbers are heard right, delivery is exactly once if and only if every packet whose predecessor carried data
   is first heard intact.  Repetitions after lost acknowledgements never matter.
   */
  lemma {:induction false} DeliveredRight(packets: seq<Packet>, takes: seq<Take>)
    requires Transfer(packets) && Schedule(packets, takes) && HeardRight(takes)
    ensures InRange(packets, takes)
    ensures Undisturbed(packets, takes, |takes|) ==>
              (Run(START, Flow(packets, takes, |takes|)).written == Sent(packets, |packets|) <==>
                 forall j :: 0 < j < |takes| ==> HeardIntact(packets, takes, j))
  {
    hide *;
    TakesInRange(packets, takes);
    HeardRightAddsNothing(packets, takes);
    DeliveredExactly(packets, takes);
    IntactIsKept(packets, takes);
  }

  lemma {:induction false} IntactIsKept(packets: seq<Packet>, takes: seq<Take>)
    requires Schedule(packets, takes) && InRange(packets, takes) && HeardRight(takes)
    ensures NothingLost(packets, takes, |takes|) <==>
              forall j :: 0 < j < |takes| ==> HeardIntact(packets, takes, j)
  {
    LastNotLost(packets, takes);
    forall j | 0 < j < |takes|
      ensures HeardIntact(packets, takes, j) <==> !Loses(packets, takes, j - 1)
    {
      PutOutRight(packets, takes, j - 1);
      hide Schedule, HeardRight, PutOut, Data, Unheard;
    }
    hide HeardIntact, Loses, HeardRight, InRange;
    if forall j :: 0 < j < |takes| ==> HeardIntact(packets, takes, j) {
      forall j | 0 <= j < |takes|
        ensures !Loses(packets, takes, j)
      {
        if j < |takes| - 1 {
          assert HeardIntact(packets, takes, j + 1);
        }
      }
    }
  }

  /** Take j is no new packet, or it is first heard intact, or there is nothing to lose. */
  predicate HeardIntact(packets: seq<Packet>, takes: seq<Take>, j: nat)
    requires InRange(packets, takes) && 0 < j < |takes|
  {
    takes[j].i == takes[j - 1].i || Unheard(takes[j].noise) || Data(packets, takes[j - 1].i) == []
  }

  lemma {:induction false} LastNotLost(packets: seq<Packet>, takes: seq<Take>)
    requires InRange(packets, takes) && |takes| > 0
    ensures !Loses(packets, takes, |takes| - 1)
  {
  }

  // ---- on the line ---------------------------------------------------------------------------------------------

  /** An intact reception of a packet a sender can put on the line. */
  predicate OnLine(ev: Event) {
    ev.Good? && Sendable(ev.n, ev.kind, ev.text) && ev.alloc == (ev.text != [])
  }

  /** A sender uses the extended length only where it needs to. */
  function Wire(ev: Event): seq<byte>
    requires OnLine(ev)
  {
    if |ev.text| <= 91 then ShortPacket(ev.n, ev.kind, ev.text) else LongPacket(ev.n, ev.kind, ev.text)
  }

  function Wires(evs: seq<Event>): seq<byte>
    requires forall i :: 0 <= i < |evs| ==> OnLine(evs[i])
  {
    if evs == [] then [] else Wire(evs[0]) + Wires(evs[1..])
  }

  /** The receiver sees exactly the packets that were put on the line, up to the break packet. */
  lemma {:induction false} WiresSeen(evs: seq<Event>, rest: seq<byte>)
    requires |evs| > 0 && (forall i :: 0 <= i < |evs| ==> OnLine(evs[i]))
    requires Last(evs[|evs| - 1]) && forall i :: 0 <= i < |evs| - 1 ==> !Last(evs[i])
    ensures Events(Wires(evs) + rest) == evs
    decreases |evs|
  {
    hide *;
    WiresFirst(evs, rest);
    EventsNext(Wires(evs) + rest);
    assert OnLine(evs[0]);
    if |evs| > 1 {
      WiresSeen(evs[1..], rest);
      assert [evs[0]] + evs[1..] == evs;
    } else {
      assert [evs[0]] == evs;
    }
  }

  lemma {:induction false} WiresFirst(evs: seq<Event>, rest: seq<byte>)
    requires |evs| > 0 && (forall i :: 0 <= i < |evs| ==> OnLine(evs[i]))
    ensures NextEvent(Wires(evs) + rest) == Parsed(evs[0], Wires(evs[1..]) + rest)
  {
    var tail := Wires(evs[1..]) + rest;
    assert Wires(evs) + rest == Wire(evs[0]) + tail;
    WireParses(evs[0], tail);
    hide NextEvent, Wire, Wires, OnLine;
  }

  lemma {:induction false} WireParses(ev: Event, tail: seq<byte>)
    requires OnLine(ev)
    ensures NextEvent(Wire(ev) + tail) == Parsed(ev, tail)
  {
    hide NextEvent, ShortPacket, LongPacket, Sendable;
    if |ev.text| <= 91 {
      ShortPacketParses(ev.n, ev.kind, ev.text, tail);
    } else {
      LongPacketParses(ev.n, ev.kind, ev.text, tail);
    }
  }

  /** A packet a sender can put on the line. */
  predicate Legible(packets: seq<Packet>) {
    forall i :: 0 <= i < |packets| ==> Sendable(i % 64, packets[i].kind, packets[i].text)
  }

  /** Nothing is spoiled. */
  predicate Clear(takes: seq<Take>) {
    forall j :: 0 <= j < |takes| ==> takes[j].noise == []
  }

  lemma {:induction false} FlowOnLine(packets: seq<Packet>, takes: seq<Take>, n: nat)
    requires Transfer(packets) && Schedule(packets, takes) && InRange(packets, takes)
    requires Legible(packets) && Clear(takes) && n <= |takes|
    ensures var evs := Flow(packets, takes, n);
            && |evs| == n && (forall k :: 0 <= k < n ==> OnLine(evs[k]))
            && (n > 0 ==> evs[n - 1] == Intact(packets, takes[n - 1].i))
            && (forall k :: 0 <= k < n && k < |takes| - 1 ==> !Last(evs[k]))
  {
    hide Sendable;
    if n > 0 {
      FlowOnLine(packets, takes, n - 1);
      if n < |takes| {
        assert GoesOn(packets, takes, n - 1);
      }
      assert Receptions(packets, takes[n - 1]) == [Intact(packets, takes[n - 1].i)];
    }
  }

  lemma {:induction false} ClearMoves(packets: seq<Packet>, takes: seq<Take>, j: nat)
    requires Schedule(packets, takes) && InRange(packets, takes) && Clear(takes) && j < |takes|
    ensures !Disturbed(packets, takes, j)
  {
    if j > 0 {
      assert GoesOn(packets, takes, j - 1);
      assert (takes[j - 1].i + 1) % 64 != takes[j - 1].i % 64;
      assert Receptions(packets, takes[j])[0] == Intact(packets, takes[j].i);
    }
    hide Pending, Schedule, Clear;
  }

  lemma {:induction false} ClearKeeps(packets: seq<Packet>, takes: seq<Take>, j: nat)
    requires Schedule(packets, takes) && InRange(packets, takes) && Clear(takes) && HeardRight(takes) && j < |takes|
    ensures !Loses(packets, takes, j)
  {
    if j < |takes| - 1 {
      assert Unheard(takes[j + 1].noise);
      PutOutRight(packets, takes, j);
    }
    hide PutOut, Data, Schedule, Clear, HeardRight;
  }

  /** On a clear line nothing goes wrong. */
  lemma {:induction false} ClearDelivers(packets: seq<Packet>, takes: seq<Take>)
    requires Schedule(packets, takes) && InRange(packets, takes) && Clear(takes)
    ensures HeardRight(takes) && Undisturbed(packets, takes, |takes|) && NothingLost(packets, takes, |takes|)
  {
    assert HeardRight(takes);
    hide Schedule, Clear, HeardRight, InRange, Disturbed, Loses;
    forall j | 0 <= j < |takes|
      ensures !Disturbed(packets, takes, j) && !Loses(packets, takes, j)
    {
      ClearMoves(packets, takes, j);
      ClearKeeps(packets, takes, j);
    }
  }

  /** From the sender's file to the line and back, with any number of repetitions of every packet. */
  lemma {:induction false} TransferOnLine(packets: seq<Packet>, takes: seq<Take>, file: seq<byte>, rest: seq<byte>)
    requires Transfer(packets) && Schedule(packets, takes) && Legible(packets) && Clear(takes)
    requires LegalQuote(QuoteUsed(packets)) && Encodes(QuoteUsed(packets), file, Concat(Parts(packets)))
    ensures InRange(packets, takes)
    ensures var evs := Flow(packets, takes, |takes|);
            && (forall k :: 0 <= k < |evs| ==> OnLine(evs[k]))
            && Events(Wires(evs) + rest) == evs && Run(START, evs).written == file
            && |evs| > 0 && evs[|evs| - 1].Good?
  {
    TakesInRange(packets, takes);
    FlowOnLine(packets, takes, |takes|);
    assert Intact(packets, takes[|takes| - 1].i).kind == BREAK_TYPE;
    hide LegalQuote, Encodes, Events, Run, Parts, QuoteUsed, Wires, Flow, OnLine, Undisturbed, NothingLost,
         NothingAdded;
    WiresSeen(Flow(packets, takes, |takes|), rest);
    ClearDelivers(packets, takes);
    HeardRightAddsNothing(packets, takes);
    FileArrives(packets, takes, file);
  }
}
