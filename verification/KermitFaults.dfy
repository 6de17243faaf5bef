/** Runs of the receiver, one for each thing that can go wrong between the sender's file and the one received. */
module KermitFaults {
  import opened Bytes
  import opened Seqs
  import opened KermitCode
  import opened KermitPacket
  import opened KermitRun
  import opened KermitDelivery

  // ---- small facts ----------------------------------------------------------------------------------------------

  lemma {:induction false} Letters()
    ensures Unquote(35, false, [65]) == Decoded([65], false) && Unquote(35, true, [65]) == Decoded([1], false)
    ensures Unquote(35, false, [35]) == Decoded([], true) && Unquote(35, true, [35]) == Decoded([35], false)
    ensures Unquote(35, false, [66]) == Decoded([66], false)
    ensures forall e :: Unquote(35, e, []) == Decoded([], e)
  {
    assert [65][..0] == [] && [35][..0] == [] && [66][..0] == [];
  }

  lemma {:induction false} RunOne(rx: Rx, evs: seq<Event>, ev: Event)
    ensures Run(rx, evs + [ev]) == Step(Run(rx, evs), ev) && Run(rx, []) == rx
  {
    assert (evs + [ev])[..|evs|] == evs;
  }

  lemma {:induction false} RunTwo(rx: Rx, a: Event, b: Event)
    ensures Run(rx, [a, b]) == Step(Step(rx, a), b)
  {
    hide Step;
    RunOne(rx, [], a);
    RunOne(rx, [a], b);
    assert [] + [a] == [a] && [a] + [b] == [a, b];
  }

  lemma {:induction false} RunThree(rx: Rx, a: Event, b: Event, c: Event)
    ensures Run(rx, [a, b, c]) == Step(Step(Step(rx, a), b), c)
  {
    hide Step;
    RunOne(rx, [], a);
    RunOne(rx, [a], b);
    RunOne(rx, [a, b], c);
    assert [] + [a] == [a] && [a] + [b] == [a, b] && [a, b] + [c] == [a, b, c];
  }

  lemma {:induction false} RunMore(rx: Rx, a: Event, b: Event, c: Event, more: seq<Event>)
    ensures Run(rx, [a, b, c] + more) == Run(Step(Step(Step(rx, a), b), c), more)
  {
    hide Step;
    RunThree(rx, a, b, c);
    RunAppend(rx, [a, b, c], more);
  }

  /** Letters before a break packet. */
  predicate Plain(packets: seq<Packet>, n: nat) {
    && |packets| == n + 1 && packets[n] == Packet(BREAK_TYPE, [])
    && forall i :: 0 <= i < n ==> packets[i] == Packet(DATA_TYPE, [65])
  }

  lemma {:induction false} PlainFacts(packets: seq<Packet>, n: nat)
    requires Plain(packets, n)
    ensures |packets| == n + 1 && Transfer(packets) && QuoteUsed(packets) == 35
    ensures forall i :: 0 <= i < n ==> Parts(packets)[i] == [65]
  {
  }

  function As(n: nat): seq<byte> {
    seq(n, _ => 65)
  }

  lemma {:induction false} AsNext(n: nat)
    ensures As(0) == [] && (n > 0 ==> As(n) == As(n - 1) + [65])
  {
  }

  lemma {:induction false} PlainSent(packets: seq<Packet>, n: nat, i: nat)
    requires Plain(packets, n) && i <= n < |packets|
    ensures !Pending(packets, i) && Sent(packets, i) == As(i)
  {
    hide *;
    PlainFacts(packets, n);
    AsNext(i);
    if i == 0 {
      NothingPending(packets);
      SentNothing(packets);
    } else {
      PlainSent(packets, n, i - 1);
      DecodePart(packets, i - 1);
      Letters();
      SentNext(packets, i);
    }
  }

  lemma {:induction false} SentNothing(packets: seq<Packet>)
    ensures Sent(packets, 0) == []
  {
  }

  /** All that a transfer of n letters sends. */
  lemma {:induction false} PlainFile(packets: seq<Packet>, n: nat)
    requires Plain(packets, n)
    ensures Transfer(packets) && Sent(packets, |packets|) == As(n)
  {
    PlainFacts(packets, n);
    PlainSent(packets, n, n);
    hide Plain, Transfer, Sent, Pending;
    BreakCarriesNothing(packets);
  }

  /** The receiver behind the first letter. */
  const HOLDING: Rx := START.(lastN := 0, prev := Some([65]), replies := [Ack(0)])

  lemma {:induction false} FirstLetter()
    ensures Step(START, Good(0, DATA_TYPE, [65], true)) == HOLDING
  {
    Letters();
    assert [] + [65] == [65];
  }

  // ---- two letters ------------------------------------------------------------------------------------------------

  /** The second packet is first heard as packet n, spoiled. */
  function SecondSpoiled(n: nat): seq<Take> {
    [Take(0, []), Take(1, [Corrupt(n, [], false)]), Take(2, [])]
  }

  lemma {:induction false} SecondSchedule(packets: seq<Packet>, n: nat)
    requires Plain(packets, 2)
    ensures Schedule(packets, SecondSpoiled(n)) && InRange(packets, SecondSpoiled(n))
  {
    assert GoesOn(packets, SecondSpoiled(n), 0) && GoesOn(packets, SecondSpoiled(n), 1);
  }

  lemma {:induction false} SecondFlow(packets: seq<Packet>, n: nat)
    requires Plain(packets, 2) && InRange(packets, SecondSpoiled(n))
    ensures Flow(packets, SecondSpoiled(n), 3)
         == [Good(0, DATA_TYPE, [65], true), Corrupt(n, [], false), Good(1, DATA_TYPE, [65], true)]
            + [Good(2, BREAK_TYPE, [], false)]
  {
    var takes := SecondSpoiled(n);
    FlowNext(packets, takes, 1);
    FlowNext(packets, takes, 2);
    FlowNext(packets, takes, 3);
  }

  lemma {:induction false} SecondRun(n: nat)
    ensures var r := Step(Step(HOLDING, Corrupt(n, [], false)), Good(1, DATA_TYPE, [65], true));
            && r.cur == None && r.lastN == 1
            && r.written + Content(r.prev) == if n == 0 || n == 1 then As(1) else As(2)
  {
    Letters();
    assert [] + [65] == [65];
  }

  lemma {:induction false} LastBreak(rx: Rx, n: nat)
    requires rx.cur == None && rx.lastN != n
    ensures Run(rx, [Good(n, BREAK_TYPE, [], false)]).written == rx.written + Content(rx.prev)
  {
    RunOne(rx, [], Good(n, BREAK_TYPE, [], false));
    assert [] + [Good(n, BREAK_TYPE, [], false)] == [Good(n, BREAK_TYPE, [], false)];
    var q := OnText(OnAlloc(OnSequence(rx, n), false), []);
    assert q.cur == None;
  }

  /**
   The first letter is lost if the second packet is first heard spoiled under its own number, or under that of the
   first one; under any other number nothing happens.
   */
  lemma {:induction false} SpoiledPacketLosesData(packets: seq<Packet>, n: nat)
    requires Plain(packets, 2)
    ensures Transfer(packets) && Schedule(packets, SecondSpoiled(n)) && InRange(packets, SecondSpoiled(n))
    ensures Sent(packets, |packets|) == As(2)
    ensures Run(START, Flow(packets, SecondSpoiled(n), 3)).written == if n == 0 || n == 1 then As(1) else As(2)
  {
    hide *;
    PlainFile(packets, 2);
    SecondSchedule(packets, n);
    SecondFlow(packets, n);
    FirstLetter();
    SecondRun(n);
    RunMore(START, Good(0, DATA_TYPE, [65], true), Corrupt(n, [], false), Good(1, DATA_TYPE, [65], true),
            [Good(2, BREAK_TYPE, [], false)]);
    LastBreak(Step(Step(HOLDING, Corrupt(n, [], false)), Good(1, DATA_TYPE, [65], true)), 2);
  }

  // ---- one letter -------------------------------------------------------------------------------------------------

  /** The letter is repeated after a lost answer, and the repetition is first heard as packet n, spoiled. */
  function LetterAgain(n: nat): seq<Take> {
    [Take(0, []), Take(0, [Corrupt(n, [], false)]), Take(1, [])]
  }

  lemma {:induction false} AgainSchedule(packets: seq<Packet>, n: nat)
    requires Plain(packets, 1)
    ensures Schedule(packets, LetterAgain(n)) && InRange(packets, LetterAgain(n))
  {
    assert GoesOn(packets, LetterAgain(n), 0) && GoesOn(packets, LetterAgain(n), 1);
  }

  lemma {:induction false} AgainFlow(packets: seq<Packet>, n: nat)
    requires Plain(packets, 1) && InRange(packets, LetterAgain(n))
    ensures Flow(packets, LetterAgain(n), 3)
         == [Good(0, DATA_TYPE, [65], true), Corrupt(n, [], false), Good(0, DATA_TYPE, [65], true)]
            + [Good(1, BREAK_TYPE, [], false)]
  {
    var takes := LetterAgain(n);
    FlowNext(packets, takes, 1);
    FlowNext(packets, takes, 2);
    FlowNext(packets, takes, 3);
  }

  lemma {:induction false} AgainRun(n: nat)
    ensures var r := Step(Step(HOLDING, Corrupt(n, [], false)), Good(0, DATA_TYPE, [65], true));
            && r.cur == None && r.lastN == 0
            && r.written + Content(r.prev) == if n == 0 then As(1) else As(2)
  {
    Letters();
    assert [] + [65] == [65];
  }

  /** The letter is delivered twice if the repetition is misheard, and once if its number is heard right. */
  lemma {:induction false} MisheardRepeats(packets: seq<Packet>, n: nat)
    requires Plain(packets, 1)
    ensures Transfer(packets) && Schedule(packets, LetterAgain(n)) && InRange(packets, LetterAgain(n))
    ensures Sent(packets, |packets|) == As(1)
    ensures Run(START, Flow(packets, LetterAgain(n), 3)).written == if n == 0 then As(1) else As(2)
  {
    hide *;
    PlainFile(packets, 1);
    AgainSchedule(packets, n);
    AgainFlow(packets, n);
    FirstLetter();
    AgainRun(n);
    RunMore(START, Good(0, DATA_TYPE, [65], true), Corrupt(n, [], false), Good(0, DATA_TYPE, [65], true),
            [Good(1, BREAK_TYPE, [], false)]);
    LastBreak(Step(Step(HOLDING, Corrupt(n, [], false)), Good(0, DATA_TYPE, [65], true)), 1);
  }

  /** The break packet is first heard as packet n and as data, spoiled. */
  function BreakMisheard(n: nat): seq<Take> {
    [Take(0, []), Take(1, [Corrupt(n, [66], true)])]
  }

  lemma {:induction false} BreakSchedule(packets: seq<Packet>, n: nat)
    requires Plain(packets, 1)
    ensures Schedule(packets, BreakMisheard(n)) && InRange(packets, BreakMisheard(n))
  {
    assert GoesOn(packets, BreakMisheard(n), 0);
  }

  lemma {:induction false} BreakFlow(packets: seq<Packet>, n: nat)
    requires Plain(packets, 1) && InRange(packets, BreakMisheard(n))
    ensures Flow(packets, BreakMisheard(n), 2)
         == [Good(0, DATA_TYPE, [65], true), Corrupt(n, [66], true), Good(1, BREAK_TYPE, [], false)]
  {
    FlowNext(packets, BreakMisheard(n), 1);
    FlowNext(packets, BreakMisheard(n), 2);
  }

  lemma {:induction false} BreakRun(n: nat)
    ensures Step(Step(HOLDING, Corrupt(n, [66], true)), Good(1, BREAK_TYPE, [], false)).written
         == if n == 0 then [66] else if n == 1 then [] else [65, 66]
  {
    Letters();
    assert [] + [66] == [66] && [66] + [] == [66];
  }

  /** Spoiled data that was heard under another number than that of the packet behind it is delivered with the file. */
  lemma {:induction false} MisheardAdds(packets: seq<Packet>, n: nat)
    requires Plain(packets, 1)
    ensures Transfer(packets) && Schedule(packets, BreakMisheard(n)) && InRange(packets, BreakMisheard(n))
    ensures Sent(packets, |packets|) == As(1)
    ensures Run(START, Flow(packets, BreakMisheard(n), 2)).written
         == if n == 0 then [66] else if n == 1 then [] else [65, 66]
  {
    hide *;
    PlainFile(packets, 1);
    BreakSchedule(packets, n);
    BreakFlow(packets, n);
    FirstLetter();
    BreakRun(n);
    RunThree(START, Good(0, DATA_TYPE, [65], true), Corrupt(n, [66], true), Good(1, BREAK_TYPE, [], false));
  }

  // ---- a loss and a repetition ----------------------------------------------------------------------------------

  const BOTH: seq<Take> :=
    [Take(0, []), Take(1, [Corrupt(0, [], false)]), Take(1, [Corrupt(5, [], false)]), Take(2, [])]

  lemma {:induction false} BothSchedule(packets: seq<Packet>)
    requires Plain(packets, 2)
    ensures Schedule(packets, BOTH) && InRange(packets, BOTH)
  {
    assert GoesOn(packets, BOTH, 0) && GoesOn(packets, BOTH, 1) && GoesOn(packets, BOTH, 2);
  }

  lemma {:induction false} BothFlow(packets: seq<Packet>)
    requires Plain(packets, 2) && InRange(packets, BOTH)
    ensures Flow(packets, BOTH, 4)
         == [Good(0, DATA_TYPE, [65], true), Corrupt(0, [], false), Good(1, DATA_TYPE, [65], true)]
            + ([Corrupt(5, [], false), Good(1, DATA_TYPE, [65], true)] + [Good(2, BREAK_TYPE, [], false)])
  {
    FlowNext(packets, BOTH, 1);
    FlowNext(packets, BOTH, 2);
    FlowNext(packets, BOTH, 3);
    FlowNext(packets, BOTH, 4);
  }

  lemma {:induction false} BothRun()
    ensures var r := Step(Step(HOLDING, Corrupt(0, [], false)), Good(1, DATA_TYPE, [65], true));
            var s := Step(Step(r, Corrupt(5, [], false)), Good(1, DATA_TYPE, [65], true));
            s.cur == None && s.lastN == 1 && s.written + Content(s.prev) == As(2)
  {
    Letters();
    assert [] + [65] == [65];
    var r := Step(Step(HOLDING, Corrupt(0, [], false)), Good(1, DATA_TYPE, [65], true));
    assert r == START.(n := 1, lastN := 1, prev := Some([65]), replies := r.replies);
  }

  lemma {:induction false} ChangingTwo(last: int, a: Event, b: Event)
    requires Numbered(a)
    ensures Changing(last, [a] + [b]) <==> !Repeats(last, a) && !Repeats(a.n, b)
  {
    assert ([a] + [b])[..1] == [a] && [a][..0] == [];
    assert LastHeard(last, []) == last && Changing(last, []);
  }

  lemma {:induction false} BothPutOut(packets: seq<Packet>)
    requires Plain(packets, 2) && InRange(packets, BOTH)
    ensures !PutOut(packets, BOTH, 0) && PutOut(packets, BOTH, 1)
  {
    ChangingTwo(0, Corrupt(0, [], false), Intact(packets, 1));
    ChangingTwo(1, Corrupt(5, [], false), Intact(packets, 1));
  }

  lemma {:induction false} BothData(packets: seq<Packet>)
    requires Plain(packets, 2) && InRange(packets, BOTH)
    ensures Data(packets, 0) == [65] && Got(packets, BOTH, 1) != []
    ensures !Pending(packets, 0) && !Pending(packets, 1) && !Pending(packets, 2)
  {
    PlainFacts(packets, 2);
    PlainSent(packets, 2, 0);
    PlainSent(packets, 2, 1);
    PlainSent(packets, 2, 2);
    DecodePart(packets, 0);
    Letters();
    GotOfText(packets, BOTH, 1);
    hide Got, Data, Pending, Unquote, Plain, InRange, Start;
  }

  lemma {:induction false} BothFaults(packets: seq<Packet>)
    requires Plain(packets, 2) && Schedule(packets, BOTH) && InRange(packets, BOTH) && |BOTH| == 4
    ensures Undisturbed(packets, BOTH, 4) && Loses(packets, BOTH, 0) && Adds(packets, BOTH, 1)
  {
    BothPutOut(packets);
    BothData(packets);
    assert |packets| == 3 && Wanted(BOTH, 0) && !Wanted(BOTH, 1) && BOTH[0].i == 0;
    hide PutOut, Got, Data, Pending, Moves, Schedule, InRange, Plain, Wanted, Undisturbed, BOTH;
    NoQuotes(packets, BOTH);
  }

  lemma {:induction false} NoQuotes(packets: seq<Packet>, takes: seq<Take>)
    requires Schedule(packets, takes) && InRange(packets, takes)
    requires forall i :: 0 <= i < |packets| ==> !Pending(packets, i)
    ensures Undisturbed(packets, takes, |takes|)
  {
    hide Pending, Moves;
    forall j | 0 <= j < |takes|
      ensures !Disturbed(packets, takes, j)
    {
      if j > 0 {
        assert GoesOn(packets, takes, j - 1);
      }
    }
  }

  /** A loss and an addition may cancel out, although no pending quote is disturbed. */
  lemma {:induction false} LossAndRepetition(packets: seq<Packet>)
    requires Plain(packets, 2)
    ensures Transfer(packets) && Schedule(packets, BOTH) && InRange(packets, BOTH) && |BOTH| == 4
    ensures Undisturbed(packets, BOTH, 4) && Loses(packets, BOTH, 0) && Adds(packets, BOTH, 1)
    ensures Run(START, Flow(packets, BOTH, 4)).written == Sent(packets, |packets|)
  {
    assert |BOTH| == 4;
    hide *;
    PlainFile(packets, 2);
    BothSchedule(packets);
    BothFaults(packets);
    BothFlow(packets);
    FirstLetter();
    BothRun();
    var c, b := Good(1, DATA_TYPE, [65], true), [Good(2, BREAK_TYPE, [], false)];
    RunMore(START, Good(0, DATA_TYPE, [65], true), Corrupt(0, [], false), c, [Corrupt(5, [], false), c] + b);
    var r := Step(Step(HOLDING, Corrupt(0, [], false)), c);
    RunAppend(r, [Corrupt(5, [], false), c], b);
    RunTwo(r, Corrupt(5, [], false), c);
    LastBreak(Step(Step(r, Corrupt(5, [], false)), c), 2);
  }

  // ---- quotes cut in the middle -----------------------------------------------------------------------------------

  /** The byte 1 goes as #A, cut behind the quote. */
  const GAPPED: seq<Packet> := [Packet(DATA_TYPE, [35]), Packet(DATA_TYPE, [65]), Packet(BREAK_TYPE, [])]
  const GAPPED_TAKES: seq<Take> := [Take(0, []), Take(1, [Early]), Take(2, [])]

  lemma {:induction false} GappedSchedule()
    ensures Transfer(GAPPED) && Schedule(GAPPED, GAPPED_TAKES) && InRange(GAPPED, GAPPED_TAKES)
    ensures HeardRight(GAPPED_TAKES) && forall j :: 0 <= j < 3 ==> Unheard(GAPPED_TAKES[j].noise)
  {
    assert GoesOn(GAPPED, GAPPED_TAKES, 0) && GoesOn(GAPPED, GAPPED_TAKES, 1);
  }

  lemma {:induction false} GappedParts()
    ensures |GAPPED| == 3 && QuoteUsed(GAPPED) == 35 && Parts(GAPPED)[0] == [35] && Parts(GAPPED)[1] == [65]
  {
  }

  lemma {:induction false} GappedSent()
    requires Transfer(GAPPED)
    ensures |GAPPED| == 3 && Sent(GAPPED, 3) == [1]
  {
    hide *;
    GappedParts();
    Letters();
    NothingPending(GAPPED);
    DecodePart(GAPPED, 0);
    DecodePart(GAPPED, 1);
    BreakCarriesNothing(GAPPED);
    SentNothing(GAPPED);
    SentNext(GAPPED, 1);
    SentNext(GAPPED, 2);
  }

  lemma {:induction false} GappedFlow()
    requires InRange(GAPPED, GAPPED_TAKES)
    ensures Flow(GAPPED, GAPPED_TAKES, 3)
         == [Good(0, DATA_TYPE, [35], true), Early, Good(1, DATA_TYPE, [65], true)] + [Good(2, BREAK_TYPE, [], false)]
  {
    FlowNext(GAPPED, GAPPED_TAKES, 1);
    FlowNext(GAPPED, GAPPED_TAKES, 2);
    FlowNext(GAPPED, GAPPED_TAKES, 3);
  }

  lemma {:induction false} GappedRun()
    ensures var r := Step(Step(Step(START, Good(0, DATA_TYPE, [35], true)), Early), Good(1, DATA_TYPE, [65], true));
            r.cur == None && r.lastN == 1 && r.written + Content(r.prev) == [65]
  {
    Letters();
    assert [] + [65] == [65];
    var r := Step(START, Good(0, DATA_TYPE, [35], true));
    assert r == START.(escape := true, lastN := 0, prev := Some([]), replies := r.replies);
    var s := Step(r, Early);
    assert s == r.(escape := false, replies := s.replies);
  }

  /** So it arrives as the letter A, although every packet is first heard intact. */
  lemma {:induction false} GapGarbles()
    ensures Transfer(GAPPED) && Schedule(GAPPED, GAPPED_TAKES) && InRange(GAPPED, GAPPED_TAKES)
    ensures HeardRight(GAPPED_TAKES) && forall j :: 0 <= j < 3 ==> Unheard(GAPPED_TAKES[j].noise)
    ensures Sent(GAPPED, |GAPPED|) == [1] && Run(START, Flow(GAPPED, GAPPED_TAKES, 3)).written == [65]
  {
    hide *;
    GappedSchedule();
    GappedSent();
    GappedFlow();
    GappedRun();
    var a, c, b := Good(0, DATA_TYPE, [35], true), Good(1, DATA_TYPE, [65], true), [Good(2, BREAK_TYPE, [], false)];
    RunMore(START, a, Early, c, b);
    LastBreak(Step(Step(Step(START, a), Early), c), 2);
  }

  /** Two quote characters, each quoted and cut in the middle, with two gaps and a loss. */
  const QUOTES: seq<Packet> := [
    Packet(DATA_TYPE, [35]), Packet(DATA_TYPE, [35]), Packet(DATA_TYPE, [35]), Packet(DATA_TYPE, [35]),
    Packet(BREAK_TYPE, [])]
  const QUOTES_TAKES: seq<Take> :=
    [Take(0, []), Take(1, []), Take(2, [Early, Corrupt(2, [], true)]), Take(3, [Early]), Take(4, [])]

  lemma {:induction false} QuotesSchedule()
    ensures |QUOTES| == 5 == |QUOTES_TAKES| && QuoteUsed(QUOTES) == 35
    ensures forall i :: 0 <= i < 4 ==> Parts(QUOTES)[i] == [35]
    ensures Transfer(QUOTES) && Schedule(QUOTES, QUOTES_TAKES) && InRange(QUOTES, QUOTES_TAKES)
  {
    var t := QUOTES_TAKES;
    assert GoesOn(QUOTES, t, 0) && GoesOn(QUOTES, t, 1) && GoesOn(QUOTES, t, 2) && GoesOn(QUOTES, t, 3);
  }

  lemma {:induction false} QuotesSent()
    ensures |QUOTES| == 5 && Pending(QUOTES, 1) && !Pending(QUOTES, 2) && Data(QUOTES, 1) == [35]
    ensures Sent(QUOTES, 5) == [35, 35]
  {
    hide *;
    QuotesSchedule();
    Letters();
    NothingPending(QUOTES);
    DecodePart(QUOTES, 0);
    DecodePart(QUOTES, 1);
    DecodePart(QUOTES, 2);
    DecodePart(QUOTES, 3);
    BreakCarriesNothing(QUOTES);
    SentNothing(QUOTES);
    SentNext(QUOTES, 1);
    SentNext(QUOTES, 2);
    SentNext(QUOTES, 3);
    SentNext(QUOTES, 4);
  }

  lemma {:induction false} QuotesFlow()
    requires InRange(QUOTES, QUOTES_TAKES)
    ensures Flow(QUOTES, QUOTES_TAKES, 5)
         == [Good(0, DATA_TYPE, [35], true), Good(1, DATA_TYPE, [35], true), Early]
            + ([Corrupt(2, [], true), Good(2, DATA_TYPE, [35], true), Early]
               + ([Good(3, DATA_TYPE, [35], true)] + [Good(4, BREAK_TYPE, [], false)]))
  {
    FlowNext(QUOTES, QUOTES_TAKES, 1);
    FlowNext(QUOTES, QUOTES_TAKES, 2);
    FlowNext(QUOTES, QUOTES_TAKES, 3);
    FlowNext(QUOTES, QUOTES_TAKES, 4);
    FlowNext(QUOTES, QUOTES_TAKES, 5);
  }

  lemma {:induction false} QuotesHead() returns (r: Rx)
    ensures r == Step(Step(Step(START, Good(0, DATA_TYPE, [35], true)), Good(1, DATA_TYPE, [35], true)), Early)
    ensures r.escape && r.escapeSaved && r.lastN == 1 && r.cur == None && r.quote == 35 && r.written == []
  {
    Letters();
    assert [] + [35] == [35];
    var p := Step(START, Good(0, DATA_TYPE, [35], true));
    assert p == START.(escape := true, lastN := 0, prev := Some([]), replies := p.replies);
    r := Step(Step(p, Good(1, DATA_TYPE, [35], true)), Early);
  }

  lemma {:induction false} QuotesMiddle(r: Rx) returns (s: Rx)
    requires r.escape && r.escapeSaved && r.lastN == 1 && r.quote == 35 && r.written == []
    ensures s == Step(Step(Step(r, Corrupt(2, [], true)), Good(2, DATA_TYPE, [35], true)), Early)
    ensures s.escape && s.lastN == 2 && s.cur == None && Content(s.prev) == [35] && s.quote == 35 && s.written == []
  {
    Letters();
    assert [] + [35] == [35];
    var p := Step(r, Corrupt(2, [], true));
    assert p.escape && p.escapeSaved && p.lastN == 2 && p.quote == 35 && p.written == [];
    s := Step(Step(p, Good(2, DATA_TYPE, [35], true)), Early);
  }

  lemma {:induction false} QuotesEnd(s: Rx)
    requires s.escape && s.lastN == 2 && s.cur == None && Content(s.prev) == [35] && s.quote == 35 && s.written == []
    ensures Run(s, [Good(3, DATA_TYPE, [35], true)] + [Good(4, BREAK_TYPE, [], false)]).written == [35, 35]
  {
    var c := Good(3, DATA_TYPE, [35], true);
    RunAppend(s, [c], [Good(4, BREAK_TYPE, [], false)]);
    RunOne(s, [], c);
    assert [] + [c] == [c];
    Letters();
    assert [] + [35] == [35];
    var t := Step(s, c);
    assert t.cur == None && t.lastN == 3 && t.written == [35] && t.prev == Some([35]);
    LastBreak(t, 4);
  }

  lemma {:induction false} QuotesFaults()
    requires InRange(QUOTES, QUOTES_TAKES) && |QUOTES_TAKES| == 5
    requires Pending(QUOTES, 1) && !Pending(QUOTES, 2) && Data(QUOTES, 1) == [35]
    ensures Loses(QUOTES, QUOTES_TAKES, 1) && Disturbed(QUOTES, QUOTES_TAKES, 2)
  {
    var good := Intact(QUOTES, 2);
    var evs := [Early, Corrupt(2, [], true)];
    assert evs[..1] == [Early];
    assert LastHeard(1, evs) == 2;
    assert (evs + [good])[..2] == evs;
    assert !Changing(1, evs + [good]);
    hide Data, Pending;
  }

  /** With several disturbed takes, or one and a loss, the errors may cancel out: this file arrives. */
  lemma {:induction false} ErrorsCancel()
    ensures Transfer(QUOTES) && Schedule(QUOTES, QUOTES_TAKES) && InRange(QUOTES, QUOTES_TAKES)
    ensures |QUOTES_TAKES| == 5 && Loses(QUOTES, QUOTES_TAKES, 1) && Disturbed(QUOTES, QUOTES_TAKES, 2)
    ensures Run(START, Flow(QUOTES, QUOTES_TAKES, 5)).written == Sent(QUOTES, |QUOTES|) == [35, 35]
  {
    hide *;
    QuotesSchedule();
    QuotesSent();
    QuotesFaults();
    QuotesFlow();
    var r := QuotesHead();
    var s := QuotesMiddle(r);
    QuotesEnd(s);
    var c, b := Good(3, DATA_TYPE, [35], true), [Good(4, BREAK_TYPE, [], false)];
    RunMore(START, Good(0, DATA_TYPE, [35], true), Good(1, DATA_TYPE, [35], true), Early,
            [Corrupt(2, [], true), Good(2, DATA_TYPE, [35], true), Early] + ([c] + b));
    RunMore(r, Corrupt(2, [], true), Good(2, DATA_TYPE, [35], true), Early, [c] + b);
  }
}
