/** The Kermit receiver of commands/loadb.c. */
module Kermit {
  import opened Bytes
  import opened Seqs
  import opened KermitCode
  import opened KermitPacket
  import opened KermitRun
  import opened KermitDelivery

  const MAX_WRITE_BUFFER: nat := 4096

  class Receiver {
    /** The characters that arrive, and how many have been read. */
    const line: seq<byte>
    var pos: nat

    var escape: bool
    var escapeSaved: bool
    var n: nat
    var lastN: int

    /** The packet being received and the one received before it. */
    var dataBuf: array?<byte>
    var dataCount: nat
    var oldBuf: array?<byte>
    var oldCount: nat

    /** The output file and the bytes not yet written to it. */
    const writeBuffer: array<byte>
    var writeIdx: nat
    var file: seq<byte>
    var total: nat

    var quote: byte
    var replies: seq<Reply>

    constructor (line: seq<byte>)
      ensures Valid() && V() == START && Rest() == line && file == [] && this.line == line
      ensures fresh(writeBuffer) && dataBuf == null && oldBuf == null
    {
      this.line, pos := line, 0;
      escape, escapeSaved, n, lastN := false, false, 0, -1;
      dataBuf, dataCount, oldBuf, oldCount := null, 0, null, 0;
      writeBuffer := new byte[MAX_WRITE_BUFFER](_ => 0);
      writeIdx, file, total := 0, [], 0;
      quote, replies := K_ESCAPE, [];
    }

    ghost function Rest(): seq<byte>
      reads this`pos
    {
      if pos <= |line| then line[pos..] else []
    }

    ghost predicate Valid()
      reads this, dataBuf, oldBuf, writeBuffer
    {
      && pos <= |line|
      && writeBuffer.Length == MAX_WRITE_BUFFER && writeIdx <= MAX_WRITE_BUFFER
      && (if dataBuf == null then dataCount == 0 else dataCount <= dataBuf.Length && dataBuf != writeBuffer)
      && (if oldBuf == null then oldCount == 0
          else oldCount <= oldBuf.Length && oldBuf != writeBuffer && oldBuf != dataBuf)
      && total == |file| + writeIdx
    }

    /** Everything handed to the output so far, written or buffered. */
    ghost function Written(): seq<byte>
      reads this, writeBuffer
      requires writeIdx <= writeBuffer.Length
    {
      file + writeBuffer[..writeIdx]
    }

    ghost function V(): Rx
      reads this, dataBuf, oldBuf, writeBuffer
      requires Valid()
    {
      Rx(escape, escapeSaved, n, lastN,
         if dataBuf == null then None else Some(dataBuf[..dataCount]),
         if oldBuf == null then None else Some(oldBuf[..oldCount]),
         Written(), quote, replies)
    }

    /** receivechar, which would wait forever at the end of the line. */
    method ReceiveChar() returns (ok: bool, c: byte)
      requires Valid()
      modifies this`pos
      ensures Valid() && V() == old(V())
      ensures ok == (|old(Rest())| > 0)
      ensures ok ==> c == old(Rest())[0] && Rest() == old(Rest())[1..]
      ensures !ok ==> Rest() == []
    {
      if pos == |line| {
        return false, 0;
      }
      ok, c, pos := true, line[pos], pos + 1;
    }

    /** os_data_alloc */
    method DataAlloc(length: nat)
      requires Valid() && length > 0
      modifies this`dataBuf, this`dataCount
      ensures Valid() && V() == OnAlloc(old(V()), true)
      ensures dataBuf != null && fresh(dataBuf) && dataBuf.Length == length && dataCount == 0
    {
      dataCount := 0;
      dataBuf := new byte[length](_ => 0);
    }

    /** os_data_char */
    method DataChar(c: byte)
      requires Valid() && dataBuf != null && dataCount < dataBuf.Length
      modifies this`dataCount, dataBuf
      ensures Valid() && dataCount == old(dataCount) + 1
      ensures V() == old(V()).(cur := Some(old(V()).cur.value + [c]))
    {
      dataBuf[dataCount] := c;
      dataCount := dataCount + 1;
      assert dataBuf[..dataCount] == old(dataBuf[..dataCount]) + [c];
    }

    /** k_data_char */
    method KDataChar(c: byte)
      requires Valid() && dataBuf != null && dataCount < dataBuf.Length
      modifies this`escape, this`dataCount, dataBuf
      ensures Valid() && old(dataCount) <= dataCount <= old(dataCount) + 1
      ensures V() == OnChar(old(V()), c)
    {
      if escape {
        DataChar(KTrans(c));
        escape := false;
      } else if c == quote {
        escape := true;
        assert V().cur.value + [] == V().cur.value;
      } else {
        DataChar(c);
      }
    }

    /** Writes the full write buffer to the file. */
    method FlushBuffer()
      requires Valid() && writeIdx == MAX_WRITE_BUFFER
      modifies this`file, this`writeIdx
      ensures Valid() && writeIdx == 0 && Written() == old(Written())
    {
      file := file + writeBuffer[..];
      writeIdx := 0;
    }

    /** memcpy of part of the old buffer into the write buffer. */
    method Append(from: nat, size: nat)
      requires Valid() && oldBuf != null && from + size <= oldCount && writeIdx + size <= MAX_WRITE_BUFFER
      modifies this`writeIdx, this`total, writeBuffer
      ensures Valid() && writeIdx == old(writeIdx) + size
      ensures Written() == old(Written()) + oldBuf[from..from + size]
    {
      ghost var part, start := oldBuf[from..from + size], writeIdx;
      forall k | 0 <= k < size {
        writeBuffer[writeIdx + k] := oldBuf[from + k];
      }
      assert forall k :: 0 <= k < start ==> writeBuffer[k] == old(writeBuffer[k]);
      assert forall k :: start <= k < start + size ==> writeBuffer[k] == part[k - start];
      writeIdx := writeIdx + size;
      total := total + size;
      assert writeBuffer[..writeIdx] == old(writeBuffer[..writeIdx]) + part;
    }

    /** The copying loop of os_data_save. */
    method PutOld()
      requires Valid() && oldBuf != null
      modifies this`file, this`writeIdx, this`total, writeBuffer
      ensures Valid() && Written() == old(Written()) + oldBuf[..oldCount]
    {
      var done := 0;
      var more := true;
      while more
        invariant Valid() && done <= oldCount && (more || done == oldCount)
        invariant Written() == old(Written()) + oldBuf[..done]
        decreases more, oldCount - done, MAX_WRITE_BUFFER - writeIdx
      {
        if writeIdx == MAX_WRITE_BUFFER {
          FlushBuffer();
        }
        var size := if oldCount - done < MAX_WRITE_BUFFER - writeIdx
                    then oldCount - done else MAX_WRITE_BUFFER - writeIdx;
        Append(done, size);
        assert oldBuf[..done] + oldBuf[done..done + size] == oldBuf[..done + size];
        done := done + size;
        more := done < oldCount;
      }
    }

    /** os_data_save */
    method DataSave()
      requires Valid()
      modifies this`file, this`writeIdx, this`total, this`oldBuf, this`oldCount, this`dataBuf, this`dataCount,
               writeBuffer
      ensures Valid() && V() == OnSave(old(V()))
    {
      if oldBuf != null {
        PutOld();
      }
      oldBuf, oldCount := dataBuf, dataCount;
      dataBuf, dataCount := null, 0;
    }

    /** The sequence number check with k_data_save, k_data_restore and os_data_dump. */
    method Sequence(seqno: nat)
      requires Valid()
      modifies this`n, this`lastN, this`escape, this`escapeSaved, this`dataBuf, this`dataCount, this`oldBuf,
               this`oldCount
      ensures Valid() && V() == OnSequence(old(V()), seqno) && n == seqno
    {
      n := seqno;
      if n == lastN {
        escape := escapeSaved;
        dataBuf, dataCount, oldBuf, oldCount := null, 0, null, 0;
      } else {
        lastN := n;
        escapeSaved := escape;
      }
    }

    /** A character of the data field. */
    method TakeChar(kind: byte, c: byte, ghost rx: Rx, ghost text: seq<byte>)
      requires Valid() && V() == OnText(rx, Fed(kind, text))
      requires dataBuf != null && dataCount < dataBuf.Length
      modifies this`escape, this`dataCount, dataBuf
      ensures Valid() && V() == OnText(rx, Fed(kind, text + [c])) && old(dataCount) <= dataCount <= old(dataCount) + 1
    {
      hide Valid, V, OnText, OnChar;
      OnTextNext(rx, text, c);
      if kind == DATA_TYPE {
        KDataChar(c);
      }
    }

    /** The data field: count characters, of which the first below SPACE is an error. */
    method ReceiveText(kind: byte, count: nat, ghost rx: Rx) returns (ok: bool, silent: bool, text: seq<byte>, sum: nat)
      requires Valid() && rx == V() && count > 0
      requires dataBuf != null && dataCount == 0 && dataBuf.Length == count + 1
      modifies this`pos, this`escape, this`dataCount, dataBuf
      ensures Valid() && V() == OnText(rx, Fed(kind, text)) && sum == Sum(text)
      ensures var k := GoodPrefix(old(Rest()), count);
              && text == old(Rest())[..k]
              && ok == (k == count) && silent == (k < count && k == |old(Rest())|)
              && (!silent ==> Rest() == old(Rest())[if ok then k else k + 1..])
    {
      hide *;
      ghost var s := Rest();
      text, sum := [], 0;
      OnTextNext(rx, [], 0);
      SumNext([], 0);
      ScanStart(s, count);
      FedNothing(kind);
      while |text| < count
        invariant Valid() && |text| <= count && Scanned(s, count, text, Rest())
        invariant V() == OnText(rx, Fed(kind, text)) && dataCount <= |text| && dataBuf == old(dataBuf)
                  && sum == Sum(text)
        decreases count - |text|
      {
        ScanNext(s, count, text, Rest());
        var got, c := ReceiveChar();
        if !got {
          return false, true, text, sum;
        }
        if c < SPACE {
          return false, false, text, sum;
        }
        TakeChar(kind, c, rx, text);
        SumNext(text, c);
        text, sum := text + [c], sum + c;
      }
      ScanDone(s, count, text, Rest());
      ok, silent := true, false;
    }

    /** Block check and end character. */
    method ReceiveCheck(kind: byte, text: seq<byte>, alloc: bool, sum: nat) returns (ev: Event)
      requires Valid()
      modifies this`pos
      ensures Valid() && V() == old(V())
      ensures var p := ParseCheck(old(Rest()), n, kind, text, alloc, sum);
              ev == p.ev && (!ev.Starved? ==> Rest() == p.rest)
    {
      hide Valid, V, CheckChar, Fed, Rest;
      var ok, c := ReceiveChar();
      if !ok {
        return Starved;
      }
      if c < SPACE || c != CheckChar(sum) {
        return Corrupt(n, Fed(kind, text), alloc);
      }
      ok, c := ReceiveChar();
      if !ok {
        return Starved;
      }
      if c != END_CHAR {
        return Corrupt(n, Fed(kind, text), alloc);
      }
      ev := Good(n, kind, text, alloc);
    }

    /** The rest of a packet whose length is known. */
    method ReceiveBody(kind: byte, length: int, sum: nat) returns (ev: Event)
      requires Valid()
      modifies this`pos, this`escape, this`dataBuf, this`dataCount
      ensures Valid()
      ensures var p := ParseBody(old(Rest()), n, kind, length, sum);
              ev == p.ev && (!ev.Starved? ==> Rest() == p.rest && V() == Taken(old(V()), ev))
    {
      hide *;
      ghost var s := Rest();
      ghost var rx := V();
      if length <= 1 {
        NoText(s, n, kind, length, sum, rx);
        TakenCheck(s, n, kind, [], false, sum, rx);
        ev := ReceiveCheck(kind, [], false, sum);
        return;
      }
      SomeText(s, n, kind, length, sum, rx);
      DataAlloc(length);
      assert Rest() == s;
      var ok, silent, text, more := ReceiveText(kind, length - 1, V());
      if silent {
        return Starved;
      }
      if !ok {
        return Corrupt(n, Fed(kind, text), true);
      }
      TakenCheck(Rest(), n, kind, text, true, sum + more, rx);
      ev := ReceiveCheck(kind, text, true, sum + more);
    }

    /** The extended length with its own check. */
    method ReceiveExtended(kind: byte, sum: nat) returns (ev: Event)
      requires Valid()
      modifies this`pos, this`escape, this`dataBuf, this`dataCount
      ensures Valid()
      ensures var p := ParseExtended(old(Rest()), n, kind, sum);
              ev == p.ev && (!ev.Starved? ==> Rest() == p.rest && V() == Taken(old(V()), ev))
    {
      hide Valid, V, Rest, CheckChar, ParseBody, Taken;
      NothingTaken(V(), n);
      var ok, hi := ReceiveChar();
      if !ok {
        return Starved;
      }
      if hi < SPACE {
        return Corrupt(n, [], false);
      }
      var lo;
      ok, lo := ReceiveChar();
      if !ok {
        return Starved;
      }
      if lo < SPACE {
        return Corrupt(n, [], false);
      }
      var check;
      ok, check := ReceiveChar();
      if !ok {
        return Starved;
      }
      if check < SPACE || check != CheckChar(sum + hi + lo) {
        return Corrupt(n, [], false);
      }
      assert Rest() == old(Rest())[3..];
      ev := ReceiveBody(kind, (hi - SPACE) * 95 + (lo - SPACE), sum + hi + lo + check);
    }

    /** The packet type and everything behind it. */
    method ReceiveType(length: int, sum: nat) returns (ev: Event)
      requires Valid()
      modifies this`pos, this`escape, this`dataBuf, this`dataCount
      ensures Valid()
      ensures var p := ParseType(old(Rest()), n, length, sum);
              ev == p.ev && (!ev.Starved? ==> Rest() == p.rest && V() == Taken(old(V()), ev))
    {
      hide Valid, V, Rest, ParseBody, ParseExtended, Taken;
      NothingTaken(V(), n);
      var ok, kind := ReceiveChar();
      if !ok {
        return Starved;
      }
      if kind < SPACE {
        return Corrupt(n, [], false);
      }
      if length == -1 {
        ev := ReceiveExtended(kind, sum + kind);
      } else {
        ev := ReceiveBody(kind, length - 1, sum + kind);
      }
    }

    /** The answer to a packet, and what becomes of its data. */
    method Finish(ev: Event)
      requires Valid() && (ev.Good? || ev.Corrupt? || ev.Early?)
      modifies this`file, this`writeIdx, this`total, this`oldBuf, this`oldCount, this`dataBuf, this`dataCount,
               writeBuffer
      modifies this`escape, this`quote, this`replies
      ensures Valid() && V() == (if ev.Good? then OnGood(old(V()), ev.kind, ev.text) else OnError(old(V())))
    {
      hide OnSave, QuoteOf;
      if !ev.Good? {
        escape := escapeSaved;
        replies := replies + [Nack(n)];
      } else if ev.kind == SEND_TYPE {
        quote := QuoteOf(ev.text);
        replies := replies + [SendAck(n)];
      } else {
        replies := replies + [Ack(n)];
        assert V() == old(V()).(replies := old(V()).replies + [Ack(old(V()).n)]);
        Save(ev.kind == BREAK_TYPE);
      }
    }

    method Save(again: bool)
      requires Valid()
      modifies this`file, this`writeIdx, this`total, this`oldBuf, this`oldCount, this`dataBuf, this`dataCount,
               writeBuffer
      ensures Valid() && V() == (if again then OnSave(OnSave(old(V()))) else OnSave(old(V())))
    {
      hide *;
      DataSave();
      if again {
        DataSave();
      }
    }

    /** A packet behind its start character. */
    method ReceivePacket() returns (ev: Event)
      requires Valid()
      modifies this`pos, this`n, this`lastN, this`escapeSaved
      modifies this`file, this`writeIdx, this`total, this`oldBuf, this`oldCount, this`dataBuf, this`dataCount,
               writeBuffer
      modifies this`escape, this`quote, this`replies
      ensures Valid()
      ensures var p := ParsePacket(old(Rest()));
              ev == p.ev && (!ev.Starved? ==> Rest() == p.rest && V() == Step(old(V()), ev))
    {
      hide Valid, V, Rest, ParseType, Taken, OnSequence, OnError, OnGood;
      var ok, length := ReceiveChar();
      if !ok {
        return Starved;
      }
      if length < SPACE {
        ev := Early;
        Finish(ev);
        return;
      }
      var seqno;
      ok, seqno := ReceiveChar();
      if !ok {
        return Starved;
      }
      if seqno < SPACE {
        ev := Early;
        Finish(ev);
        return;
      }
      assert Rest() == old(Rest())[2..];
      Sequence(seqno - SPACE);
      ev := ReceiveType(length - SPACE - 1, length as int + seqno);
      if !ev.Starved? {
        Finish(ev);
      }
    }

    /** Waits for a start character or ^C. */
    method NextStart() returns (ok: bool, c: byte)
      requires Valid()
      modifies this`pos
      ensures Valid() && V() == old(V())
      ensures var s, i := old(Rest()), Skip(old(Rest()));
              ok == (i < |s|) && (ok ==> c == s[i] && Rest() == s[i + 1..])
    {
      hide Valid, V, Rest;
      ghost var s, i := Rest(), 0;
      while true
        invariant Valid() && V() == old(V()) && i <= |s| && Rest() == s[i..] && Skip(s) == i + Skip(s[i..])
        decreases |s| - i
      {
        ok, c := ReceiveChar();
        if !ok || c == START_CHAR || c == ETX_CHAR {
          return;
        }
        i := i + 1;
      }
    }

    /** One round of k_recv's loop. */
    method Round() returns (ev: Event)
      requires Valid()
      modifies this, writeBuffer
      ensures Valid()
      ensures var p := NextEvent(old(Rest()));
              ev == p.ev && (!ev.Starved? ==> Rest() == p.rest && V() == Step(old(V()), ev))
    {
      hide Valid, V, Rest, Skip, ParsePacket;
      var ok, c := NextStart();
      if !ok {
        return Starved;
      }
      if c == ETX_CHAR {
        DataSave();
        return Interrupted;
      }
      ev := ReceivePacket();
    }

    /** k_recv; done is false if the line falls silent while it waits. */
    method KRecv() returns (done: bool, size: nat)
      requires Valid()
      modifies this, writeBuffer
      ensures Valid()
      ensures var evs := Events(old(Rest()));
              && |evs| > 0 && done == !evs[|evs| - 1].Starved?
              && (done ==> V() == Run(old(V()), evs))
              && (done ==> size == if evs[|evs| - 1].Interrupted? then 0 else total)
    {
      hide Valid, V, Rest, Events, NextEvent, Step;
      ghost var seen: seq<Event> := [];
      while true
        invariant Valid() && seen + Events(Rest()) == Events(old(Rest())) && V() == Run(old(V()), seen)
        decreases |Rest()|
      {
        EventsNext(Rest());
        ghost var rest := Events(NextEvent(Rest()).rest);
        var ev := Round();
        assert (seen + [ev])[..|seen|] == seen;
        if Last(ev) {
          return !ev.Starved?, if ev.Interrupted? then 0 else total;
        }
        assert (seen + [ev]) + rest == seen + ([ev] + rest);
        seen := seen + [ev];
      }
    }

    /** load_serial_bin: receive, swallow trailing characters, write out the rest of the buffer. */
    method LoadSerialBin() returns (done: bool, size: nat)
      requires Valid() && V() == START && file == []
      modifies this, writeBuffer
      ensures Valid()
      ensures var evs := Events(old(Rest()));
              && |evs| > 0 && done == !evs[|evs| - 1].Starved?
              && (done ==> file == Run(START, evs).written)
              && (done ==> size == if evs[|evs| - 1].Interrupted? then 0 else |file|)
    {
      hide Rest, Events, Run;
      done, size := KRecv();
      if !done {
        return;
      }
      ghost var rx := V();
      for i := 0 to 100
        invariant Valid() && V() == rx && |Written()| == total
      {
        if * {
          var _, _ := ReceiveChar();
        }
      }
      if writeIdx > 0 {
        file := file + writeBuffer[..writeIdx];
        writeIdx := 0;
      }
    }
  }

  /** The line carries the transfer: it is what the receiver sees on it. */
  ghost predicate Carries(line: seq<byte>, packets: seq<Packet>, takes: seq<Take>) {
    && Transfer(packets) && Schedule(packets, takes) && InRange(packets, takes)
    && Events(line) == Flow(packets, takes, |takes|)
  }

  lemma {:induction false} ItCarries(line: seq<byte>, packets: seq<Packet>, takes: seq<Take>)
    requires Transfer(packets) && Schedule(packets, takes) && InRange(packets, takes)
    requires Events(line) == Flow(packets, takes, |takes|)
    ensures Carries(line, packets, takes)
  {
  }

  lemma {:induction false} CarriedOut(line: seq<byte>, packets: seq<Packet>, takes: seq<Take>)
    requires Carries(line, packets, takes)
    ensures InRange(packets, takes)
    ensures var evs := Events(line);
            |evs| > 0 && evs[|evs| - 1].Good? && Run(START, evs).written == Output(packets, takes, |takes|)
  {
    TransferWrites(packets, takes);
    hide Events, Run, Output, Transfer;
  }

  /** The loadb command on any line: what of the transfer on it reaches the file, and that its size is reported. */
  method LoadAny(line: seq<byte>) returns (done: bool, received: seq<byte>, size: nat)
    ensures forall packets, takes :: Carries(line, packets, takes) ==>
              done && received == Output(packets, takes, |takes|) && size == |received|
  {
    hide *;
    var r := new Receiver(line);
    done, size := r.LoadSerialBin();
    received := r.file;
    forall packets, takes | Carries(line, packets, takes)
      ensures InRange(packets, takes)
      ensures done && received == Output(packets, takes, |takes|) && size == |received|
    {
      CarriedOut(line, packets, takes);
    }
  }

  /** On a line that carries a file and nothing else, the file arrives. */
  method Load(line: seq<byte>, ghost packets: seq<Packet>, ghost takes: seq<Take>, ghost file: seq<byte>,
              ghost rest: seq<byte>)
    returns (received: seq<byte>, size: nat)
    requires Transfer(packets) && Schedule(packets, takes) && InRange(packets, takes)
    requires LegalQuote(QuoteUsed(packets)) && Encodes(QuoteUsed(packets), file, Concat(Parts(packets)))
    requires Legible(packets) && Clear(takes)
    requires var evs := Flow(packets, takes, |takes|);
             (forall k :: 0 <= k < |evs| ==> OnLine(evs[k])) && line == Wires(evs) + rest
    ensures received == file && size == |file|
  {
    hide *;
    TransferOnLine(packets, takes, file, rest);
    TransferWrites(packets, takes);
    ItCarries(line, packets, takes);
    var done;
    done, received, size := LoadAny(line);
  }

  lemma {:induction false} NothingTaken(rx: Rx, n: nat)
    ensures Taken(rx, Corrupt(n, [], false)) == rx
  {
    OnTextNext(rx, [], 0);
  }

  lemma {:induction false} NoText(s: seq<byte>, n: nat, kind: byte, length: int, sum: nat, rx: Rx)
    requires length <= 1
    ensures ParseBody(s, n, kind, length, sum) == ParseCheck(s, n, kind, [], false, sum)
    ensures OnText(OnAlloc(rx, false), Fed(kind, [])) == rx
  {
    assert s[..0] == [] && s[0..] == s;
    OnTextNext(rx, [], 0);
  }

  lemma {:induction false} SomeText(s: seq<byte>, n: nat, kind: byte, length: int, sum: nat, rx: Rx)
    requires length > 1
    ensures var k, p := GoodPrefix(s, length - 1), ParseBody(s, n, kind, length, sum);
            if k == length - 1 then p == ParseCheck(s[k..], n, kind, s[..k], true, sum + Sum(s[..k]))
            else if k == |s| then p == Parsed(Starved, [])
            else
              && p == Parsed(Corrupt(n, Fed(kind, s[..k]), true), s[k + 1..])
              && Taken(rx, p.ev) == OnText(OnAlloc(rx, true), Fed(kind, s[..k]))
  {
  }

  lemma {:induction false} TakenCheck(s: seq<byte>, n: nat, kind: byte, text: seq<byte>, alloc: bool, sum: nat, rx: Rx)
    ensures var ev := ParseCheck(s, n, kind, text, alloc, sum).ev;
            !ev.Starved? ==> Taken(rx, ev) == OnText(OnAlloc(rx, alloc), Fed(kind, text))
  {
  }

  lemma {:induction false} FedNothing(kind: byte)
    ensures Fed(kind, []) == []
  {
  }
}
