/** The receiver on values, and what it puts out of the packets of a stop-and-wait sender. */
module KermitRun {
  import opened Bytes
  import opened Seqs
  import opened KermitCode
  import opened KermitPacket

  const K_ESCAPE: byte := 35

  datatype Reply = Ack(n: nat) | SendAck(n: nat) | Nack(n: nat)

  /**
   The receiver: pending quote and its checkpoint, sequence numbers, the buffer being filled, the last
   accepted buffer, the bytes handed to the output so far, the sender's quote character, the answers.
   */
  datatype Rx = Rx(
    escape: bool, escapeSaved: bool, n: nat, lastN: int,
    cur: Option<seq<byte>>, prev: Option<seq<byte>>, written: seq<byte>,
    quote: byte, replies: seq<Reply>)

  const START: Rx := Rx(false, false, 0, -1, None, None, [], K_ESCAPE, [])

  function Content(buffer: Option<seq<byte>>): seq<byte> {
    if buffer.Some? then buffer.value else []
  }

  /** A repeated sequence number restores the checkpoint and drops both buffers; a new one sets the checkpoint. */
  function OnSequence(rx: Rx, n: nat): Rx {
    if n == rx.lastN then rx.(n := n, escape := rx.escapeSaved, cur := None, prev := None)
    else rx.(n := n, lastN := n, escapeSaved := rx.escape)
  }

  function OnAlloc(rx: Rx, alloc: bool): Rx {
    if alloc then rx.(cur := Some([])) else rx
  }

  /** Text of a data packet goes through the unquoting into the current buffer. */
  function OnText(rx: Rx, fed: seq<byte>): Rx {
    var d := Unquote(rx.quote, rx.escape, fed);
    rx.(cur := if rx.cur.Some? then Some(rx.cur.value + d.data) else None, escape := d.escape)
  }

  /** One character through the unquoting. */
  function OnChar(rx: Rx, c: byte): Rx {
    var d := UnquoteChar(rx.quote, rx.escape, c);
    rx.(cur := if rx.cur.Some? then Some(rx.cur.value + d.data) else None, escape := d.escape)
  }

  lemma {:induction false} OnTextNext(rx: Rx, text: seq<byte>, c: byte)
    ensures OnText(rx, []) == rx
    ensures OnText(rx, text + [c]) == OnChar(OnText(rx, text), c)
  {
    assert (text + [c])[..|text|] == text;
    if rx.cur.Some? {
      assert rx.cur.value + [] == rx.cur.value;
      var d := Unquote(rx.quote, rx.escape, text);
      var e := UnquoteChar(rx.quote, d.escape, c);
      assert Unquote(rx.quote, rx.escape, text + [c]).data == d.data + e.data;
      assert rx.cur.value + (d.data + e.data) == (rx.cur.value + d.data) + e.data;
    }
  }

  /** os_data_save: the old buffer goes to the output, the current one becomes the old one. */
  function OnSave(rx: Rx): Rx {
    rx.(written := rx.written + Content(rx.prev), prev := rx.cur, cur := None)
  }

  function OnError(rx: Rx): Rx {
    rx.(escape := rx.escapeSaved, replies := rx.replies + [Nack(rx.n)])
  }

  /** The quote character announced by a send-initiate packet. */
  function QuoteOf(text: seq<byte>): byte {
    if |text| >= 6 then text[5] else K_ESCAPE
  }

  function OnGood(rx: Rx, kind: byte, text: seq<byte>): Rx {
    if kind == SEND_TYPE then rx.(quote := QuoteOf(text), replies := rx.replies + [SendAck(rx.n)])
    else
      var saved := OnSave(rx.(replies := rx.replies + [Ack(rx.n)]));
      if kind == BREAK_TYPE then OnSave(saved) else saved
  }

  /** What happens between the sequence number and the verdict on the packet. */
  function Taken(rx: Rx, ev: Event): Rx {
    match ev
    case Good(n, kind, text, alloc) => OnText(OnAlloc(rx, alloc), Fed(kind, text))
    case Corrupt(n, fed, alloc) => OnText(OnAlloc(rx, alloc), fed)
    case _ => rx
  }

  function Step(rx: Rx, ev: Event): Rx {
    match ev
    case Good(n, kind, text, alloc) => OnGood(Taken(OnSequence(rx, n), ev), kind, text)
    case Corrupt(n, fed, alloc) => OnError(Taken(OnSequence(rx, n), ev))
    case Early => OnError(rx)
    case Interrupted => OnSave(rx)
    case Starved => rx
  }

  function Run(rx: Rx, evs: seq<Event>): Rx {
    if evs == [] then rx else Step(Run(rx, evs[..|evs| - 1]), evs[|evs| - 1])
  }

  lemma {:induction false} RunAppend(rx: Rx, a: seq<Event>, b: seq<Event>)
    ensures Run(rx, a + b) == Run(Run(rx, a), b)
    decreases |b|
  {
    if b == [] {
      assert a + b == a;
    } else {
      RunAppend(rx, a, b[..|b| - 1]);
      assert (a + b)[..|a + b| - 1] == a + b[..|b| - 1];
    }
  }

  // ---- a stop-and-wait sender ----------------------------------------------------------------------------

  datatype Packet = Packet(kind: byte, text: seq<byte>)

  /** Send-initiate at most first, break exactly last. */
  predicate Transfer(packets: seq<Packet>) {
    && |packets| > 0 && packets[|packets| - 1].kind == BREAK_TYPE
    && (forall i :: 0 < i < |packets| ==> packets[i].kind != SEND_TYPE)
    && (forall i :: 0 <= i < |packets| - 1 ==> packets[i].kind != BREAK_TYPE)
  }

  function Parts(packets: seq<Packet>): (r: seq<seq<byte>>)
    ensures |r| == |packets|
  {
    seq(|packets|, i requires 0 <= i < |packets| => Fed(packets[i].kind, packets[i].text))
  }

  function QuoteUsed(packets: seq<Packet>): byte
    requires |packets| > 0
  {
    if packets[0].kind == SEND_TYPE then QuoteOf(packets[0].text) else K_ESCAPE
  }

  /** The bytes packet i carries. */
  function Data(packets: seq<Packet>, i: nat): seq<byte>
    requires i < |packets|
  {
    PartData(QuoteUsed(packets), Parts(packets), i)
  }

  /** The pending quote before packet i. */
  function Pending(packets: seq<Packet>, i: nat): bool
    requires 0 < |packets| && i <= |packets|
  {
    Unquote(QuoteUsed(packets), false, Concat(Parts(packets)[..i])).escape
  }

  /** An intact reception of packet i, and the spoiled receptions that came before it. */
  datatype Take = Take(i: nat, noise: seq<Event>)

  /** Spoiled behind the sequence number that was heard, right or wrong, or before it. */
  predicate Spoiled(ev: Event) {
    ev.Corrupt? || ev.Early?
  }

  /**
   The sender begins with packet 0, goes on to the next one only after an intact reception, may repeat a packet that
   was received intact, and stops after the break packet.  What is spoiled in between is up to the line.
   */
  predicate Schedule(packets: seq<Packet>, takes: seq<Take>) {
    && |takes| > 0 && takes[0].i == 0 && takes[|takes| - 1].i == |packets| - 1
    && (forall j :: 0 <= j < |takes| ==> takes[j].i < |packets| && AllSpoiled(takes[j].noise))
    && (forall j :: 0 <= j < |takes| - 1 ==> GoesOn(packets, takes, j))
  }

  /** Behind take j comes the same packet again or the next one. */
  predicate GoesOn(packets: seq<Packet>, takes: seq<Take>, j: nat)
    requires j < |takes| - 1
  {
    takes[j].i < |packets| - 1 && (takes[j + 1].i == takes[j].i || takes[j + 1].i == takes[j].i + 1)
  }

  predicate AllSpoiled(evs: seq<Event>) {
    forall k :: 0 <= k < |evs| ==> Spoiled(evs[k])
  }

  function Intact(packets: seq<Packet>, i: nat): Event
    requires i < |packets|
  {
    Good(i % 64, packets[i].kind, packets[i].text, packets[i].text != [])
  }

  /** The receptions from behind the take before up to the take itself. */
  function Receptions(packets: seq<Packet>, take: Take): (evs: seq<Event>)
    requires take.i < |packets|
    ensures |evs| == |take.noise| + 1
  {
    take.noise + [Intact(packets, take.i)]
  }

  predicate InRange(packets: seq<Packet>, takes: seq<Take>) {
    |packets| > 0 && forall j :: 0 <= j < |takes| ==> takes[j].i < |packets|
  }

  /** All receptions of the first n takes. */
  function Flow(packets: seq<Packet>, takes: seq<Take>, n: nat): seq<Event>
    requires InRange(packets, takes) && n <= |takes|
  {
    if n == 0 then [] else Flow(packets, takes, n - 1) + Receptions(packets, takes[n - 1])
  }

  // ---- what some receptions do to a receiver --------------------------------------------------------------------

  predicate Numbered(ev: Event) {
    ev.Good? || ev.Corrupt?
  }

  /** The last sequence number heard. */
  function LastHeard(last: int, evs: seq<Event>): int {
    if evs == [] then last
    else
      var ev := evs[|evs| - 1];
      if Numbered(ev) then ev.n else LastHeard(last, evs[..|evs| - 1])
  }

  predicate Repeats(last: int, ev: Event) {
    Numbered(ev) && ev.n == last
  }

  /** No sequence number is heard twice in a row. */
  predicate Changing(last: int, evs: seq<Event>) {
    evs == [] || (var n := |evs| - 1; Changing(last, evs[..n]) && !Repeats(LastHeard(last, evs[..n]), evs[n]))
  }

  /** The receiver between two receptions, as far as it matters. */
  datatype Stand = Stand(
    last: int, saved: bool, escape: bool, cur: Option<seq<byte>>, waiting: seq<byte>, written: seq<byte>)

  predicate Fits(rx: Rx, st: Stand, q: byte) {
    && rx.lastN == st.last && rx.escapeSaved == st.saved && rx.escape == st.escape && rx.quote == q
    && rx.cur == st.cur && Content(rx.prev) == st.waiting && rx.written == st.written
  }

  /**
   The pending quote from which everything up to the next intact reception is decoded: the current one if the first
   reception has a new number, otherwise that of the checkpoint.
   */
  function Restart(st: Stand, first: Event): bool {
    if Numbered(first) && first.n != st.last then st.escape else st.saved
  }

  function Text(ev: Event): seq<byte> {
    match ev
    case Good(_, kind, text, _) => Fed(kind, text)
    case Corrupt(_, fed, _) => fed
    case _ => []
  }

  /** What the data buffer holds: dropped with a repeated number, emptied where one is allocated, then the text. */
  function Collects(q: byte, esc: bool, last: int, cur: Option<seq<byte>>, ev: Event): Option<seq<byte>> {
    var kept := if Repeats(last, ev) then None else cur;
    var begun := if Numbered(ev) && ev.alloc then Some([]) else kept;
    if begun.Some? then Some(begun.value + Unquote(q, esc, Text(ev)).data) else None
  }

  function Collected(q: byte, esc: bool, last: int, cur: Option<seq<byte>>, evs: seq<Event>): Option<seq<byte>> {
    if evs == [] then cur
    else
      var n := |evs| - 1;
      Collects(q, esc, LastHeard(last, evs[..n]), Collected(q, esc, last, cur, evs[..n]), evs[n])
  }

  /** The receiver after some spoiled receptions. */
  function Amid(st: Stand, q: byte, evs: seq<Event>): Stand {
    if evs == [] then st
    else
      var esc := Restart(st, evs[0]);
      Stand(LastHeard(st.last, evs), esc, esc, Collected(q, esc, st.last, st.cur, evs),
            if Changing(st.last, evs) then st.waiting else [], st.written)
  }

  /** One spoiled reception. */
  lemma {:induction false} SpoiledStep(rx: Rx, st: Stand, q: byte, ev: Event, esc: bool)
    requires Fits(rx, st, q) && Spoiled(ev) && esc == Restart(st, ev)
    ensures Fits(Step(rx, ev),
                 Stand(if Numbered(ev) then ev.n else st.last, esc, esc, Collects(q, esc, st.last, st.cur, ev),
                       if Repeats(st.last, ev) then [] else st.waiting, st.written), q)
  {
    if ev.Early? && st.cur.Some? {
      assert Unquote(q, esc, []).data == [] && st.cur.value + [] == st.cur.value;
    }
  }

  lemma {:induction false} AmidNext(st: Stand, q: byte, evs: seq<Event>, ev: Event)
    requires evs != []
    ensures var before := Amid(st, q, evs);
            Amid(st, q, evs + [ev])
            == Stand(if Numbered(ev) then ev.n else before.last, before.saved, before.escape,
                     Collects(q, before.escape, before.last, before.cur, ev),
                     if Repeats(before.last, ev) then [] else before.waiting, st.written)
  {
    var all := evs + [ev];
    assert all[..|evs|] == evs && all[0] == evs[0] && all[|evs|] == ev;
  }

  lemma {:induction false} AmidOne(st: Stand, q: byte, ev: Event)
    ensures var esc := Restart(st, ev);
            Amid(st, q, [ev])
            == Stand(if Numbered(ev) then ev.n else st.last, esc, esc, Collects(q, esc, st.last, st.cur, ev),
                     if Repeats(st.last, ev) then [] else st.waiting, st.written)
  {
    assert [ev][..0] == [];
    assert LastHeard(st.last, [ev][..0]) == st.last && Changing(st.last, [ev][..0]);
    assert Collected(q, Restart(st, ev), st.last, st.cur, [ev][..0]) == st.cur;
  }

  /** Any number of them. */
  lemma {:induction false} NoiseDone(rx: Rx, st: Stand, q: byte, evs: seq<Event>)
    requires Fits(rx, st, q) && AllSpoiled(evs)
    ensures Fits(Run(rx, evs), Amid(st, q, evs), q)
    decreases |evs|
  {
    if evs != [] {
      var n := |evs| - 1;
      var before, ev := evs[..n], evs[n];
      assert before + [ev] == evs;
      NoiseDone(rx, st, q, before);
      hide Fits, Step, Restart, Collects;
      SpoiledStep(Run(rx, before), Amid(st, q, before), q, ev, Restart(Amid(st, q, before), ev));
      if before == [] {
        assert evs == [ev];
        AmidOne(st, q, ev);
      } else {
        AmidNext(st, q, before, ev);
        EitherWay(Amid(st, q, before), ev);
      }
    }
  }

  lemma {:induction false} EitherWay(st: Stand, ev: Event)
    requires st.saved == st.escape
    ensures Restart(st, ev) == st.escape
  {
  }

  // ---- what the receiver makes of a schedule ------------------------------------------------------------------

  /** The quote character in effect during the receptions of take j. */
  function QuoteAt(packets: seq<Packet>, j: nat): byte
    requires |packets| > 0
  {
    if j == 0 then K_ESCAPE else QuoteUsed(packets)
  }

  function NumberOf(takes: seq<Take>, j: nat): int
    requires j <= |takes|
  {
    if j == 0 then -1 else takes[j - 1].i % 64
  }

  /** The first reception behind take j-1 has another number than it. */
  predicate Moves(packets: seq<Packet>, takes: seq<Take>, j: nat)
    requires InRange(packets, takes) && j < |takes|
  {
    var first := Receptions(packets, takes[j])[0];
    Numbered(first) && first.n != NumberOf(takes, j)
  }

  /**
   The pending quote from which take j is decoded: what take j-1 left if the first reception behind it has another
   number, and what take j-1 itself was decoded from otherwise.
   */
  function Start(packets: seq<Packet>, takes: seq<Take>, j: nat): bool
    requires InRange(packets, takes) && j < |takes|
    decreases j, 0
  {
    if j == 0 then false
    else if Moves(packets, takes, j) then After(packets, takes, j - 1)
    else Start(packets, takes, j - 1)
  }

  function After(packets: seq<Packet>, takes: seq<Take>, j: nat): bool
    requires InRange(packets, takes) && j < |takes|
    decreases j, 1
  {
    Unquote(QuoteUsed(packets), Start(packets, takes, j), Parts(packets)[takes[j].i]).escape
  }

  /** The data buffer when take j has been read: its data, or what spoiled receptions left if it has none. */
  function Buffer(packets: seq<Packet>, takes: seq<Take>, j: nat): Option<seq<byte>>
    requires InRange(packets, takes) && j < |takes|
    decreases j, 1
  {
    Collected(QuoteAt(packets, j), Start(packets, takes, j), NumberOf(takes, j), LeftOver(packets, takes, j),
              Receptions(packets, takes[j]))
  }

  /** Only a send-initiate packet leaves its buffer to the next one. */
  function LeftOver(packets: seq<Packet>, takes: seq<Take>, j: nat): Option<seq<byte>>
    requires InRange(packets, takes) && j <= |takes|
    decreases j, 0
  {
    if j > 0 && packets[takes[j - 1].i].kind == SEND_TYPE then Buffer(packets, takes, j - 1) else None
  }

  /** What waits for the output when take j has been accepted. */
  function Got(packets: seq<Packet>, takes: seq<Take>, j: nat): seq<byte>
    requires InRange(packets, takes) && j < |takes|
  {
    if packets[takes[j].i].kind == SEND_TYPE then [] else Content(Buffer(packets, takes, j))
  }

  /** It is put out if no number is heard twice in a row up to the next take. */
  predicate PutOut(packets: seq<Packet>, takes: seq<Take>, j: nat)
    requires InRange(packets, takes) && j < |takes|
  {
    j == |takes| - 1 || Changing(NumberOf(takes, j + 1), Receptions(packets, takes[j + 1]))
  }

  /** What the first n takes bring to the output. */
  function Output(packets: seq<Packet>, takes: seq<Take>, n: nat): seq<byte>
    requires InRange(packets, takes) && n <= |takes|
  {
    if n == 0 then []
    else Output(packets, takes, n - 1) + if PutOut(packets, takes, n - 1) then Got(packets, takes, n - 1) else []
  }

  // ---- one take ---------------------------------------------------------------------------------------------------

  /** Where the receiver stands when n takes have been accepted. */
  function StandAt(packets: seq<Packet>, takes: seq<Take>, n: nat): Stand
    requires InRange(packets, takes) && n <= |takes|
  {
    if n == 0 then Stand(-1, false, false, None, [], [])
    else Stand(NumberOf(takes, n), Start(packets, takes, n - 1), After(packets, takes, n - 1),
               LeftOver(packets, takes, n), Got(packets, takes, n - 1), Output(packets, takes, n - 1))
  }

  /** An intact reception in general, before the verdict on the packet. */
  lemma {:induction false} GoodTaken(rx: Rx, st: Stand, q: byte, ev: Event)
    requires Fits(rx, st, q) && ev.Good?
    ensures var esc := Restart(st, ev);
            Fits(Taken(OnSequence(rx, ev.n), ev),
                 Stand(ev.n, esc, Unquote(q, esc, Text(ev)).escape, Collects(q, esc, st.last, st.cur, ev),
                       if Repeats(st.last, ev) then [] else st.waiting, st.written), q)
  {
  }

  lemma {:induction false} AmidGood(st: Stand, q: byte, noise: seq<Event>, ev: Event)
    ensures var before := Amid(st, q, noise);
            var esc := Restart(before, ev);
            && esc == Restart(st, (noise + [ev])[0])
            && Stand(if Numbered(ev) then ev.n
               else before.last, esc, esc, Collects(q, esc, before.last, before.cur, ev),
                     if Repeats(before.last, ev) then [] else before.waiting, before.written)
            == Amid(st, q, noise + [ev])
  {
    hide Collects, Changing, LastHeard, Collected;
    if noise == [] {
      assert noise + [ev] == [ev];
      AmidOne(st, q, ev);
    } else {
      AmidNext(st, q, noise, ev);
    }
  }

  /** All receptions of a take, before the verdict. */
  lemma {:induction false} TakeRead(packets: seq<Packet>, take: Take, rx: Rx, st: Stand, q: byte) returns (r: Rx)
    requires take.i < |packets| && AllSpoiled(take.noise) && Fits(rx, st, q)
    ensures var evs, good := Receptions(packets, take), Intact(packets, take.i);
            var esc := Restart(st, evs[0]);
            && Run(rx, evs) == OnGood(r, good.kind, good.text)
            && Fits(r, Amid(st, q, evs).(escape := Unquote(q, esc, Text(good)).escape), q)
  {
    var noise, good := take.noise, Intact(packets, take.i);
    NoiseDone(rx, st, q, noise);
    var before := Run(rx, noise);
    GoodTaken(before, Amid(st, q, noise), q, good);
    AmidGood(st, q, noise, good);
    r := Taken(OnSequence(before, good.n), good);
    assert (noise + [good])[..|noise|] == noise;
    assert Run(rx, noise + [good]) == Step(before, good);
  }

  /** The receiver standing behind n takes when all of take n has been read. */
  lemma {:induction false} StandRead(packets: seq<Packet>, takes: seq<Take>, n: nat)
    requires Transfer(packets) && Schedule(packets, takes) && InRange(packets, takes) && n < |takes|
    ensures var st, evs, q := StandAt(packets, takes, n), Receptions(packets, takes[n]), QuoteAt(packets, n);
            && Restart(st, evs[0]) == Start(packets, takes, n)
            && Amid(st, q, evs).last == NumberOf(takes, n + 1) && Amid(st, q, evs).saved == Start(packets, takes, n)
            && Amid(st, q, evs).cur == Buffer(packets, takes, n)
            && Output(packets, takes, n) == Amid(st, q, evs).written + Amid(st, q, evs).waiting
  {
    var evs := Receptions(packets, takes[n]);
    assert evs[|evs| - 1] == Intact(packets, takes[n].i);
    hide Collected, Unquote;
    if n == 0 {
      assert StandAt(packets, takes, n).waiting == [];
    }
  }

  /** Accepting a take that is not the break packet. */
  lemma {:induction false} TakeDone(packets: seq<Packet>, takes: seq<Take>, n: nat, rx: Rx)
    requires Transfer(packets) && Schedule(packets, takes) && InRange(packets, takes) && n < |takes| - 1
    requires Fits(rx, StandAt(packets, takes, n), QuoteAt(packets, n))
    ensures Fits(Run(rx, Receptions(packets, takes[n])), StandAt(packets, takes, n + 1), QuoteAt(packets, n + 1))
  {
    var st, evs, q := StandAt(packets, takes, n), Receptions(packets, takes[n]), QuoteAt(packets, n);
    StandRead(packets, takes, n);
    var r := TakeRead(packets, takes[n], rx, st, q);
    Kinds(packets, takes, n);
    hide Amid, Collected, Restart, Schedule, Transfer, Receptions, Changing, Buffer;
  }

  /** What a take's kind says, and that the quote character does not matter where it is not known. */
  lemma {:induction false} Kinds(packets: seq<Packet>, takes: seq<Take>, n: nat)
    requires Transfer(packets) && Schedule(packets, takes) && InRange(packets, takes) && n < |takes|
    ensures var kind := packets[takes[n].i].kind;
            && (kind == BREAK_TYPE <==> n == |takes| - 1)
            && Text(Intact(packets, takes[n].i)) == Parts(packets)[takes[n].i]
            && (kind == SEND_TYPE ==> StandAt(packets, takes, n).waiting == [])
            && Unquote(QuoteAt(packets, n), Start(packets, takes, n), Parts(packets)[takes[n].i]).escape
            == After(packets, takes, n)
            && (kind == SEND_TYPE ==> QuoteOf(packets[takes[n].i].text) == QuoteUsed(packets))
            && (n == 0 && kind != SEND_TYPE ==> QuoteUsed(packets) == K_ESCAPE)
  {
    if n < |takes| - 1 {
      assert GoesOn(packets, takes, n);
    }
    if n > 0 {
      assert GoesOn(packets, takes, n - 1);
    }
  }

  lemma {:induction false} TakesDone(packets: seq<Packet>, takes: seq<Take>, n: nat)
    requires Transfer(packets) && Schedule(packets, takes) && InRange(packets, takes) && n < |takes|
    ensures Fits(Run(START, Flow(packets, takes, n)), StandAt(packets, takes, n), QuoteAt(packets, n))
  {
    hide *;
    if n == 0 {
      StartStands(packets, takes);
    } else {
      FlowNext(packets, takes, n);
      TakesDone(packets, takes, n - 1);
      TakeDone(packets, takes, n - 1, Run(START, Flow(packets, takes, n - 1)));
      RunAppend(START, Flow(packets, takes, n - 1), Receptions(packets, takes[n - 1]));
    }
  }

  lemma {:induction false} StartStands(packets: seq<Packet>, takes: seq<Take>)
    requires InRange(packets, takes)
    ensures Fits(Run(START, Flow(packets, takes, 0)), StandAt(packets, takes, 0), QuoteAt(packets, 0))
  {
  }

  lemma {:induction false} FlowNext(packets: seq<Packet>, takes: seq<Take>, n: nat)
    requires InRange(packets, takes) && 0 < n <= |takes|
    ensures Flow(packets, takes, 0) == [] && takes[n - 1].i < |packets|
    ensures Flow(packets, takes, n) == Flow(packets, takes, n - 1) + Receptions(packets, takes[n - 1])
  {
  }

  /** The break packet ends the transfer and flushes what is left. */
  lemma {:induction false} BreakDone(packets: seq<Packet>, takes: seq<Take>, rx: Rx)
    requires Transfer(packets) && Schedule(packets, takes) && InRange(packets, takes)
    requires Fits(rx, StandAt(packets, takes, |takes| - 1), QuoteAt(packets, |takes| - 1))
    ensures Run(rx, Receptions(packets, takes[|takes| - 1])).written == Output(packets, takes, |takes|)
  {
    var n := |takes| - 1;
    var st, evs, q := StandAt(packets, takes, n), Receptions(packets, takes[n]), QuoteAt(packets, n);
    StandRead(packets, takes, n);
    var r := TakeRead(packets, takes[n], rx, st, q);
    Kinds(packets, takes, n);
    hide Amid, Collected, Restart, Schedule, Transfer, Receptions, Changing, Buffer;
  }

  lemma {:induction false} TakesInRange(packets: seq<Packet>, takes: seq<Take>)
    requires Schedule(packets, takes)
    ensures InRange(packets, takes) && |takes| > 0
  {
    assert takes[0].i < |packets|;
  }

  /** The output of a whole transfer, whatever is spoiled, misheard and repeated. */
  lemma {:induction false} TransferWrites(packets: seq<Packet>, takes: seq<Take>)
    requires Transfer(packets) && Schedule(packets, takes)
    ensures InRange(packets, takes)
    ensures Run(START, Flow(packets, takes, |takes|)).written == Output(packets, takes, |takes|)
  {
    hide *;
    TakesInRange(packets, takes);
    var n := |takes| - 1;
    FlowNext(packets, takes, |takes|);
    TakesDone(packets, takes, n);
    BreakDone(packets, takes, Run(START, Flow(packets, takes, n)));
    RunAppend(START, Flow(packets, takes, n), Receptions(packets, takes[n]));
  }
}
