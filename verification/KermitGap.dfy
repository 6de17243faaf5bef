/** A take that is decoded from the wrong pending quote: what it does to the file. */
module KermitGap {
  import opened Bytes
  import opened Seqs
  import opened KermitCode
  import opened KermitPacket
  import opened KermitRun
  import opened KermitDelivery

  /** The text decodes to the same bytes with and without a pending quote. */
  predicate Immune(q: byte, text: seq<byte>)
    decreases |text|
  {
    || text == []
    || (text[0] != q && KTrans(text[0]) == text[0])
    || (text[0] == q && |text| > 1 && text[1] == q && Immune(q, text[2..]))
  }

  lemma {:induction false} UnquoteFirst(q: byte, escape: bool, text: seq<byte>)
    requires text != []
    ensures var c := UnquoteChar(q, escape, text[0]);
            var r := Unquote(q, c.escape, text[1..]);
            Unquote(q, escape, text) == Decoded(c.data + r.data, r.escape)
  {
    UnquoteAppend(q, escape, text[..1], text[1..]);
    assert text[..1] + text[1..] == text;
    assert text[..1][..0] == [];
    assert Unquote(q, escape, text[..1]).data == UnquoteChar(q, escape, text[0]).data;
  }

  /** Two characters at once. */
  lemma {:induction false} UnquoteTwo(q: byte, escape: bool, text: seq<byte>)
    requires |text| > 1
    ensures var c := UnquoteChar(q, escape, text[0]);
            var d := UnquoteChar(q, c.escape, text[1]);
            var r := Unquote(q, d.escape, text[2..]);
            Unquote(q, escape, text) == Decoded(c.data + d.data + r.data, r.escape)
  {
    var c := UnquoteChar(q, escape, text[0]);
    UnquoteFirst(q, escape, text);
    UnquoteFirst(q, c.escape, text[1..]);
    assert text[1..][1..] == text[2..];
  }

  lemma {:induction false} ImmuneIff(q: byte, text: seq<byte>)
    requires LegalQuote(q)
    ensures Unquote(q, true, text).data == Unquote(q, false, text).data <==> Immune(q, text)
    decreases |text|
  {
    if text != [] {
      KTransInverts(q, q);
      hide KTrans, LegalQuote, Unquote;
      if text[0] != q {
        UnquoteFirst(q, true, text);
        UnquoteFirst(q, false, text);
        var r := Unquote(q, false, text[1..]).data;
        assert ([KTrans(text[0])] + r)[0] == KTrans(text[0]) && ([text[0]] + r)[0] == text[0];
      } else if |text| == 1 {
        UnquoteFirst(q, true, text);
        UnquoteFirst(q, false, text);
        NothingLeft(q, text);
      } else {
        ImmuneIff(q, text[2..]);
        QuoteThen(q, text);
      }
    }
  }

  /** A quote in front: a second one is the same from either state, anything else makes the texts differ in length. */
  lemma {:induction false} QuoteThen(q: byte, text: seq<byte>)
    requires LegalQuote(q) && |text| > 1 && text[0] == q
    ensures var a, b := Unquote(q, true, text[2..]).data, Unquote(q, false, text[2..]).data;
            Unquote(q, true, text).data == Unquote(q, false, text).data <==> text[1] == q && a == b
  {
    KTransInverts(q, q);
    hide KTrans, LegalQuote, Unquote;
    UnquoteTwo(q, true, text);
    UnquoteTwo(q, false, text);
    SameBehind(q, KTrans(text[1]), text[1], Unquote(q, true, text[2..]).data, Unquote(q, false, text[2..]).data);
  }

  lemma {:induction false} SameBehind(q: byte, x: byte, y: byte, a: seq<byte>, b: seq<byte>)
    ensures [q] + [] + a == [] + [q] + b <==> a == b
    ensures [q] + [y] + b != [] + [x] + b
  {
    assert [q] + [] + a == [q] + a && [] + [q] + b == [q] + b;
    SameFront([q], a, b);
    assert |[q] + [y] + b| == |[] + [x] + b| + 1;
  }

  lemma {:induction false} NothingLeft(q: byte, text: seq<byte>)
    requires |text| == 1
    ensures Unquote(q, true, text[1..]).data == [] == Unquote(q, false, text[1..]).data
  {
  }

  lemma {:induction false} SameFront(s: seq<byte>, a: seq<byte>, b: seq<byte>)
    ensures s + a == s + b <==> a == b
  {
    assert (s + a)[|s|..] == a && (s + b)[|s|..] == b;
  }

  lemma {:induction false} UnquoteNothing(q: byte, escape: bool, s: seq<byte>)
    ensures Unquote(q, escape, []) == Decoded([], escape) && s + Unquote(q, escape, []).data == s
  {
  }

  // ---- the packets from i on -----------------------------------------------------------------------------

  function TextOf(packets: seq<Packet>, i: nat, n: nat): seq<byte>
    requires i <= n <= |packets|
  {
    Concat(Parts(packets)[i..n])
  }

  lemma {:induction false} TextNext(packets: seq<Packet>, i: nat, n: nat)
    requires i <= n < |packets|
    ensures TextOf(packets, i, i) == [] && TextOf(packets, i, n + 1) == TextOf(packets, i, n) + Parts(packets)[n]
  {
    var parts := Parts(packets);
    assert parts[i..i] == [];
    assert parts[i..n + 1] == parts[i..n] + [parts[n]];
    assert parts[i..n + 1][..n - i] == parts[i..n];
  }

  /** What was sent from packet i on is the decoding of the text from there on. */
  lemma {:induction false} SentFrom(packets: seq<Packet>, i: nat, n: nat)
    requires i <= n <= |packets| && 0 < |packets|
    ensures var d := Unquote(QuoteUsed(packets), Pending(packets, i), TextOf(packets, i, n));
            Pending(packets, n) == d.escape && Sent(packets, n) == Sent(packets, i) + d.data
    decreases n
  {
    hide *;
    var q := QuoteUsed(packets);
    if n == i {
      UnquoteNothing(q, Pending(packets, i), Sent(packets, i));
      if i < |packets| {
        TextNext(packets, i, i);
      } else {
        TextEnd(packets);
      }
    } else {
      SentFrom(packets, i, n - 1);
      TextNext(packets, i, n - 1);
      DecodePart(packets, n - 1);
      UnquoteAppend(q, Pending(packets, i), TextOf(packets, i, n - 1), Parts(packets)[n - 1]);
      SentNext(packets, n);
    }
  }

  lemma {:induction false} TextEnd(packets: seq<Packet>)
    ensures TextOf(packets, |packets|, |packets|) == []
  {
  }

  // ---- one gap ------------------------------------------------------------------------------------------------

  /** Exactly the last takes of the packets are put out, and no spoiled reception leaves anything behind. */
  predicate Orderly(packets: seq<Packet>, takes: seq<Take>)
    requires InRange(packets, takes)
  {
    forall j :: 0 <= j < |takes| ==>
                  (PutOut(packets, takes, j) <==> Wanted(takes, j)) &&
                  (packets[takes[j].i].text == [] ==> Got(packets, takes, j) == [])
  }

  /** Take j is decoded from the state the sender means. */
  predicate Straight(packets: seq<Packet>, takes: seq<Take>, j: nat)
    requires InRange(packets, takes) && 0 < j < |takes|
  {
    Moves(packets, takes, j) == (takes[j].i != takes[j - 1].i)
  }

  /** All takes but g are. */
  predicate StraightBut(packets: seq<Packet>, takes: seq<Take>, g: nat)
    requires InRange(packets, takes) && 0 < g < |takes|
  {
    !Straight(packets, takes, g) && forall j :: 0 < j < |takes| && j != g ==> Straight(packets, takes, j)
  }

  lemma {:induction false} GotPart(packets: seq<Packet>, takes: seq<Take>, j: nat)
    requires Transfer(packets) && Schedule(packets, takes) && InRange(packets, takes) && Orderly(packets, takes)
    requires j < |takes|
    ensures Got(packets, takes, j)
         == Unquote(QuoteUsed(packets), Start(packets, takes, j), Parts(packets)[takes[j].i]).data
  {
    var packet := packets[takes[j].i];
    if packet.text != [] && packet.kind != SEND_TYPE {
      GotOfText(packets, takes, j);
    } else {
      assert Parts(packets)[takes[j].i] == [];
    }
  }

  lemma {:induction false} CleanBefore(packets: seq<Packet>, takes: seq<Take>, g: nat)
    requires InRange(packets, takes) && Orderly(packets, takes) && 0 < g < |takes| && StraightBut(packets, takes, g)
    ensures Undisturbed(packets, takes, g) && NothingLost(packets, takes, g) && NothingAdded(packets, takes, g)
  {
    hide Pending, Moves, Got, PutOut, Data, Wanted, InRange;
    forall j | 0 <= j < g
      ensures !Disturbed(packets, takes, j)
    {
      if j > 0 {
        assert Straight(packets, takes, j);
      }
    }
  }

  lemma {:induction false} WrongStart(packets: seq<Packet>, takes: seq<Take>, g: nat)
    requires Schedule(packets, takes) && InRange(packets, takes) && 0 < g < |takes|
    requires Undisturbed(packets, takes, g) && !Straight(packets, takes, g)
    ensures var p := takes[g - 1].i;
            Start(packets, takes, g) == Pending(packets, takes[g].i) <==> Pending(packets, p) == Pending(packets, p + 1)
  {
    assert GoesOn(packets, takes, g - 1);
    StartsRight(packets, takes, g - 1);
    hide Pending, Moves, Schedule, Undisturbed;
  }

  /** Up to the gap everything is as sent. */
  lemma {:induction false} BeforeGap(packets: seq<Packet>, takes: seq<Take>, g: nat)
    requires Transfer(packets) && Schedule(packets, takes) && InRange(packets, takes) && Orderly(packets, takes)
    requires 0 < g < |takes| && StraightBut(packets, takes, g)
    ensures Output(packets, takes, g) == Sent(packets, takes[g].i)
    ensures var p := takes[g - 1].i;
            Start(packets, takes, g) == Pending(packets, takes[g].i) <==> Pending(packets, p) == Pending(packets, p + 1)
  {
    CleanBefore(packets, takes, g);
    WrongStart(packets, takes, g);
    OutputAgainst(packets, takes, g);
    hide Transfer, Schedule, Orderly, StraightBut, Undisturbed, NothingLost, NothingAdded, Output, Sent, Pending, Start;
  }

  /** A take that is decoded as meant: again from where it was, or from where the one before ended. */
  lemma {:induction false} StraightStep(packets: seq<Packet>, takes: seq<Take>, j: nat)
    requires Transfer(packets) && Schedule(packets, takes) && InRange(packets, takes) && Orderly(packets, takes)
    requires 0 < j < |takes| && Straight(packets, takes, j)
    ensures takes[j].i == takes[j - 1].i || takes[j].i == takes[j - 1].i + 1
    ensures takes[j].i == takes[j - 1].i ==>
              && Start(packets, takes, j) == Start(packets, takes, j - 1)
              && Output(packets, takes, j) == Output(packets, takes, j - 1)
              && Got(packets, takes, j) == Got(packets, takes, j - 1)
              && After(packets, takes, j) == After(packets, takes, j - 1)
    ensures takes[j].i != takes[j - 1].i ==>
              && Start(packets, takes, j) == After(packets, takes, j - 1)
              && Output(packets, takes, j) == Output(packets, takes, j - 1) + Got(packets, takes, j - 1)
    ensures Decoded(Got(packets, takes, j), After(packets, takes, j))
         == Unquote(QuoteUsed(packets), Start(packets, takes, j), Parts(packets)[takes[j].i])
  {
    assert GoesOn(packets, takes, j - 1);
    GotPart(packets, takes, j - 1);
    GotPart(packets, takes, j);
    OutputNext(packets, takes, j - 1);
    hide Transfer, Schedule, Moves, PutOut, Got, Output, Unquote, Parts, QuoteUsed, InRange;
  }

  /** From the gap on the text is decoded as a whole, from the state the receiver has. */
  lemma {:induction false} BehindGap(packets: seq<Packet>, takes: seq<Take>, g: nat, j: nat)
    requires Transfer(packets) && Schedule(packets, takes) && InRange(packets, takes) && Orderly(packets, takes)
    requires 0 < g <= j < |takes| && StraightBut(packets, takes, g)
    ensures takes[g].i <= takes[j].i < |packets|
    ensures var q, esc := QuoteUsed(packets), Start(packets, takes, g);
            && Output(packets, takes, j) + Got(packets, takes, j)
            == Output(packets, takes, g) + Unquote(q, esc, TextOf(packets, takes[g].i, takes[j].i + 1)).data
            && After(packets, takes, j) == Unquote(q, esc, TextOf(packets, takes[g].i, takes[j].i + 1)).escape
  {
    hide *;
    InBounds(packets, takes, j);
    InBounds(packets, takes, g);
    var q, esc, r := QuoteUsed(packets), Start(packets, takes, g), takes[g].i;
    if j == g {
      FirstText(packets, r, esc);
      GotPart(packets, takes, j);
      AfterIs(packets, takes, j);
    } else {
      StraightAt(packets, takes, g, j);
      BehindGap(packets, takes, g, j - 1);
      StraightStep(packets, takes, j);
      if takes[j].i != takes[j - 1].i {
        MoreText(packets, r, takes[j].i, esc);
        var before, part := Unquote(q, esc, TextOf(packets, r, takes[j].i)).data, Got(packets, takes, j);
        assert Output(packets, takes, g) + before + part == Output(packets, takes, g) + (before + part);
      }
    }
  }

  lemma {:induction false} StraightAt(packets: seq<Packet>, takes: seq<Take>, g: nat, j: nat)
    requires InRange(packets, takes) && 0 < g < |takes| && StraightBut(packets, takes, g)
    requires 0 < j < |takes| && j != g
    ensures Straight(packets, takes, j)
  {
  }

  lemma {:induction false} InBounds(packets: seq<Packet>, takes: seq<Take>, j: nat)
    requires InRange(packets, takes) && j < |takes|
    ensures 0 < |packets| && takes[j].i < |packets|
  {
  }

  lemma {:induction false} AfterIs(packets: seq<Packet>, takes: seq<Take>, j: nat)
    requires InRange(packets, takes) && j < |takes|
    ensures After(packets, takes, j)
         == Unquote(QuoteUsed(packets), Start(packets, takes, j), Parts(packets)[takes[j].i]).escape
  {
  }

  lemma {:induction false} FirstText(packets: seq<Packet>, r: nat, esc: bool)
    requires r < |packets|
    ensures var q := QuoteUsed(packets);
            && Unquote(q, esc, TextOf(packets, r, r)).escape == esc
            && Unquote(q, esc, TextOf(packets, r, r + 1)) == Unquote(q, esc, Parts(packets)[r])
  {
    TextNext(packets, r, r);
    assert [] + Parts(packets)[r] == Parts(packets)[r];
  }

  lemma {:induction false} MoreText(packets: seq<Packet>, r: nat, i: nat, esc: bool)
    requires r <= i < |packets|
    ensures var q := QuoteUsed(packets);
            var before := Unquote(q, esc, TextOf(packets, r, i));
            var part := Unquote(q, before.escape, Parts(packets)[i]);
            Unquote(q, esc, TextOf(packets, r, i + 1)) == Decoded(before.data + part.data, part.escape)
  {
    TextNext(packets, r, i);
    UnquoteAppend(QuoteUsed(packets), esc, TextOf(packets, r, i), Parts(packets)[i]);
  }

  /**
   One gap: everything is put out that should be and nothing else, but take g is decoded from the wrong state.  The
   file arrives exactly if the packet before the gap leaves the pending quote as it was, or the text from take g on
   decodes the same from either state.
   */
  lemma {:induction false} OneGap(packets: seq<Packet>, takes: seq<Take>, g: nat)
    requires Transfer(packets) && Schedule(packets, takes) && LegalQuote(QuoteUsed(packets))
    requires InRange(packets, takes) && Orderly(packets, takes) && 0 < g < |takes| && StraightBut(packets, takes, g)
    ensures var p := takes[g - 1].i;
            Run(START, Flow(packets, takes, |takes|)).written == Sent(packets, |packets|) <==>
              || Pending(packets, p) == Pending(packets, p + 1)
              || Immune(QuoteUsed(packets), TextOf(packets, takes[g].i, |packets|))
  {
    hide *;
    LastTake(packets, takes);
    InBounds(packets, takes, g);
    var n, q, r, text := |takes| - 1, QuoteUsed(packets), takes[g].i, TextOf(packets, takes[g].i, |packets|);
    TransferWrites(packets, takes);
    OutputNext(packets, takes, n);
    BehindGap(packets, takes, g, n);
    BeforeGap(packets, takes, g);
    SentFrom(packets, r, |packets|);
    SameFront(Sent(packets, r), Unquote(q, Start(packets, takes, g), text).data,
              Unquote(q, Pending(packets, r), text).data);
    ImmuneIff(q, text);
  }

  lemma {:induction false} LastTake(packets: seq<Packet>, takes: seq<Take>)
    requires Schedule(packets, takes) && InRange(packets, takes)
    ensures |takes| > 0 && takes[|takes| - 1].i + 1 == |packets| && PutOut(packets, takes, |takes| - 1)
  {
  }
}
