/** One row of the 2048 board: what a slide towards its front means. */
module TileRow {
  function Sum(s: seq<nat>): nat {
    if s == [] then 0 else s[0] + Sum(s[1..])
  }

  function Zeros(n: nat): (s: seq<nat>)
    ensures |s| == n && forall i :: 0 <= i < n ==> s[i] == 0
  {
    seq(n, _ => 0)
  }

  /** The tiles of a row without the empty places. */
  function Compress(s: seq<nat>): (r: seq<nat>)
    ensures |r| <= |s| && forall i :: 0 <= i < |r| ==> r[i] > 0
  {
    if s == [] then [] else if s[0] == 0 then Compress(s[1..]) else [s[0]] + Compress(s[1..])
  }

  /** Equal neighbours become one tile, from the front, and a new tile is not merged again. */
  function Merge(s: seq<nat>): (r: seq<nat>)
    requires forall i :: 0 <= i < |s| ==> s[i] > 0
    ensures |r| <= |s| && forall i :: 0 <= i < |r| ==> r[i] > 0
  {
    if |s| < 2 then s
    else if s[0] == s[1] then [s[0] + s[1]] + Merge(s[2..])
    else [s[0]] + Merge(s[1..])
  }

  /** The sum of the tiles that Merge makes. */
  function MergedSum(s: seq<nat>): nat {
    if |s| < 2 then 0
    else if s[0] == s[1] then s[0] + s[1] + MergedSum(s[2..])
    else MergedSum(s[1..])
  }

  function Slide(s: seq<nat>): (r: seq<nat>)
    ensures |r| == |s|
  {
    var tiles := Merge(Compress(s));
    tiles + Zeros(|s| - |tiles|)
  }

  function Gain(s: seq<nat>): nat {
    MergedSum(Compress(s))
  }

  /** The values a uint16_t holds. */
  predicate Fits(s: seq<nat>) {
    forall i :: 0 <= i < |s| ==> s[i] < 0x1_0000
  }

  // ---- conservation ----------------------------------------------------------------------------------

  lemma {:induction false} SumAppend(a: seq<nat>, b: seq<nat>)
    ensures Sum(a + b) == Sum(a) + Sum(b)
  {
    if a == [] {
      assert a + b == b;
    } else {
      SumAppend(a[1..], b);
      assert (a + b)[1..] == a[1..] + b;
    }
  }

  lemma {:induction false} SumZeros(n: nat)
    ensures Sum(Zeros(n)) == 0
  {
    if n > 0 {
      SumZeros(n - 1);
      assert Zeros(n)[1..] == Zeros(n - 1);
    }
  }

  lemma {:induction false} CompressSum(s: seq<nat>)
    ensures Sum(Compress(s)) == Sum(s)
  {
    if s != [] {
      CompressSum(s[1..]);
    }
  }

  lemma {:induction false} MergeSum(s: seq<nat>)
    requires forall i :: 0 <= i < |s| ==> s[i] > 0
    ensures Sum(Merge(s)) == Sum(s)
    decreases |s|
  {
    if |s| >= 2 {
      assert s[2..] == s[1..][1..];
      if s[0] == s[1] {
        MergeSum(s[2..]);
      } else {
        MergeSum(s[1..]);
      }
    }
  }

  /** A slide moves and joins tiles but neither makes nor loses any value. */
  lemma {:induction false} SlideSum(s: seq<nat>)
    ensures Sum(Slide(s)) == Sum(s)
  {
    var tiles := Merge(Compress(s));
    SumAppend(tiles, Zeros(|s| - |tiles|));
    SumZeros(|s| - |tiles|);
    CompressSum(s);
    MergeSum(Compress(s));
  }

  // ---- the slide place by place ------------------------------------------------------------------------

  /** Tiles already in place, whether the last of them may still merge, and the score so far. */
  datatype Acc = Acc(out: seq<nat>, open: bool, gain: nat)

  function Feed(acc: Acc, v: nat): Acc {
    var n := |acc.out|;
    if v == 0 then acc
    else if acc.open && n > 0 && acc.out[n - 1] == v then Acc(acc.out[..n - 1] + [v + v], false, acc.gain + v + v)
    else Acc(acc.out + [v], true, acc.gain)
  }

  function FeedAll(acc: Acc, s: seq<nat>): Acc
    decreases |s|
  {
    if s == [] then acc else FeedAll(Feed(acc, s[0]), s[1..])
  }

  const NOTHING: Acc := Acc([], false, 0)

  lemma {:induction false} FeedNext(acc: Acc, s: seq<nat>, v: nat)
    ensures FeedAll(acc, s + [v]) == Feed(FeedAll(acc, s), v)
    decreases |s|
  {
    if s == [] {
      assert [v][1..] == [];
    } else {
      FeedNext(Feed(acc, s[0]), s[1..], v);
      assert (s + [v])[1..] == s[1..] + [v];
    }
  }

  lemma {:induction false} FeedClosed(acc: Acc, s: seq<nat>)
    requires !acc.open
    ensures FeedAll(acc, s).out == acc.out + Merge(Compress(s)) && FeedAll(acc, s).gain == acc.gain + Gain(s)
    decreases |s|
  {
    if s == [] {
      assert acc.out + [] == acc.out;
    } else if s[0] == 0 {
      FeedClosed(acc, s[1..]);
    } else {
      FeedOpen(acc.out, s[0], acc.gain, s[1..]);
      assert Feed(acc, s[0]) == Acc(acc.out + [s[0]], true, acc.gain);
    }
  }

  lemma {:induction false} FeedOpen(out: seq<nat>, v: nat, gain: nat, s: seq<nat>)
    requires v > 0
    ensures var acc, rest := FeedAll(Acc(out + [v], true, gain), s), [v] + Compress(s);
            acc.out == out + Merge(rest) && acc.gain == gain + MergedSum(rest)
    decreases |s|, 1
  {
    if s == [] {
    } else if s[0] == 0 {
      FeedOpen(out, v, gain, s[1..]);
    } else {
      OpenTile(out, v, gain, s);
    }
  }

  lemma {:induction false} OpenTile(out: seq<nat>, v: nat, gain: nat, s: seq<nat>)
    requires v > 0 && s != [] && s[0] > 0
    ensures var acc, rest := FeedAll(Acc(out + [v], true, gain), s), [v] + Compress(s);
            acc.out == out + Merge(rest) && acc.gain == gain + MergedSum(rest)
    decreases |s|, 0
  {
    hide Compress, Merge, MergedSum, Gain;
    var acc, more := Acc(out + [v], true, gain), Compress(s[1..]);
    MergeTwo(v, s);
    if s[0] == v {
      assert acc.out[..|out|] == out;
      FeedClosed(Feed(acc, v), s[1..]);
      GainIs(s[1..]);
      assert (out + [v + v]) + Merge(more) == out + ([v + v] + Merge(more));
    } else {
      FeedOpen(out + [v], s[0], gain, s[1..]);
      assert (out + [v]) + Merge([s[0]] + more) == out + ([v] + Merge([s[0]] + more));
    }
  }

  lemma {:induction false} GainIs(s: seq<nat>)
    ensures Gain(s) == MergedSum(Compress(s))
  {
  }

  lemma {:induction false} MergeTwo(v: nat, s: seq<nat>)
    requires s != [] && s[0] > 0 && v > 0
    ensures var rest, more := [v] + Compress(s), Compress(s[1..]);
            if s[0] == v then Merge(rest) == [v + v] + Merge(more) && MergedSum(rest) == v + v + MergedSum(more)
            else Merge(rest) == [v] + Merge([s[0]] + more) && MergedSum(rest) == MergedSum([s[0]] + more)
  {
    var rest, more := [v] + Compress(s), Compress(s[1..]);
    assert rest == [v, s[0]] + more;
    assert rest[1..] == [s[0]] + more && rest[2..] == more;
  }

  /** Tiles that can no longer merge stay as they are. */
  lemma {:induction false} ClosedStay(acc: Acc, s: seq<nat>)
    ensures |acc.out| <= |FeedAll(acc, s).out|
    ensures forall i :: 0 <= i < |acc.out| && (i < |acc.out| - 1 || !acc.open) ==> FeedAll(acc, s).out[i] == acc.out[i]
    decreases |s|
  {
    if s != [] {
      ClosedStay(Feed(acc, s[0]), s[1..]);
    }
  }

  /** A merge while a row is fed makes a tile of the final row. */
  lemma {:induction false} MergeFits(s: seq<nat>, x: nat)
    requires x < |s| && Fits(Slide(s))
    requires var acc := FeedAll(NOTHING, s[..x]); acc.open && acc.out != [] && acc.out[|acc.out| - 1] == s[x] > 0
    ensures s[x] + s[x] < 0x1_0000
  {
    var acc := FeedAll(NOTHING, s[..x]);
    var next := Feed(acc, s[x]);
    FeedNext(NOTHING, s[..x], s[x]);
    assert s[..x] + [s[x]] == s[..x + 1];
    FeedSplit(NOTHING, s, x + 1);
    ClosedStay(next, s[x + 1..]);
    FeedClosed(NOTHING, s);
    var k := |acc.out| - 1;
    assert next.out[k] == s[x] + s[x] == Slide(s)[k];
  }

  lemma {:induction false} FeedSplit(acc: Acc, s: seq<nat>, x: nat)
    requires x <= |s|
    ensures FeedAll(acc, s) == FeedAll(FeedAll(acc, s[..x]), s[x..])
    decreases |s|
  {
    if x > 0 {
      FeedSplit(Feed(acc, s[0]), s[1..], x - 1);
      assert s[..x][1..] == s[1..][..x - 1] && s[x..] == s[1..][x - 1..];
    } else {
      assert s[..0] == [] && s[0..] == s;
    }
  }

  // ---- moving one tile ------------------------------------------------------------------------------------

  /** The tile at x is added to the place t. */
  function Moved(s: seq<nat>, t: nat, x: nat): (r: seq<nat>)
    requires t < x < |s|
    ensures |r| == |s|
  {
    s[t := s[t] + s[x]][x := 0]
  }

  /** How far the tiles are from the front, each distance counted by the value of its tile. */
  function Distance(s: seq<nat>): nat {
    if s == [] then 0 else Sum(s[1..]) + Distance(s[1..])
  }

  lemma {:induction false} Removed(s: seq<nat>, x: nat)
    requires x < |s|
    ensures Sum(s[x := 0]) + s[x] == Sum(s) && Distance(s[x := 0]) <= Distance(s)
  {
    if x == 0 {
      assert s[x := 0][1..] == s[1..];
    } else {
      Removed(s[1..], x - 1);
      assert s[x := 0][1..] == s[1..][x - 1 := 0];
    }
  }

  /** Moving a tile towards the front shortens the distance. */
  lemma {:induction false} MovedCloser(s: seq<nat>, t: nat, x: nat)
    requires t < x < |s| && s[x] > 0
    ensures Sum(Moved(s, t, x)) == Sum(s) && Distance(Moved(s, t, x)) < Distance(s)
  {
    var r := Moved(s, t, x);
    if t == 0 {
      assert r[1..] == s[1..][x - 1 := 0];
      Removed(s[1..], x - 1);
    } else {
      assert r[1..] == Moved(s[1..], t - 1, x - 1);
      MovedCloser(s[1..], t - 1, x - 1);
    }
  }

  // ---- the loop of slideArray -----------------------------------------------------------------------------

  /** The row while place x is next: what was fed stands in front, gaps behind it, the rest untouched. */
  predicate Underway(s: seq<nat>, row: seq<nat>, x: nat, stop: nat, acc: Acc) {
    && x <= |s| == |row| && acc == FeedAll(NOTHING, s[..x])
    && |acc.out| <= x && (forall i :: 0 <= i < |acc.out| ==> acc.out[i] > 0)
    && row == acc.out + Zeros(x - |acc.out|) + s[x..]
    && (if acc.open then stop < |acc.out| else stop == |acc.out| && (stop > 0 ==> stop < x))
  }

  lemma {:induction false} UnderwaySize(s: seq<nat>, row: seq<nat>, x: nat, stop: nat, acc: Acc)
    requires Underway(s, row, x, stop, acc)
    ensures |s| == |row|
  {
  }

  lemma {:induction false} UnderwayStart(s: seq<nat>)
    ensures Underway(s, s, 0, 0, NOTHING)
  {
    assert s[..0] == [] && [] + Zeros(0) + s[0..] == s;
  }

  lemma {:induction false} UnderwayDone(s: seq<nat>, row: seq<nat>, stop: nat, acc: Acc)
    requires Underway(s, row, |s|, stop, acc)
    ensures row == Slide(s) && acc.gain == Gain(s)
  {
    assert s[..|s|] == s;
    FeedClosed(NOTHING, s);
    assert [] + Merge(Compress(s)) == Merge(Compress(s));
  }

  /** A place findTarget passes over. */
  predicate Gap(row: seq<nat>, j: nat, stop: int)
    requires j < |row|
  {
    row[j] == 0 && j != stop
  }

  /** What findTarget finds: the nearest place k before x that is not empty or is the stop. */
  predicate Found(row: seq<nat>, x: nat, stop: int, k: int, t: nat)
    requires x < |row|
  {
    && -1 <= k < x && (forall j :: k < j < x ==> Gap(row, j, stop))
    && (k >= 0 ==> row[k] != 0 || k == stop)
    && t == if k == -1 then x else if row[k] == 0 || row[k] == row[x] then k else k + 1
  }

  /** The target is the last tile in place if the tile merges with it, and the place behind it otherwise. */
  lemma {:induction false} TargetIs(s: seq<nat>, row: seq<nat>, x: nat, stop: nat, acc: Acc, k: int, t: nat)
    requires x < |s| && Underway(s, row, x, stop, acc) && Found(row, x, stop, k, t) && row[x] > 0
    ensures var n := |acc.out|; t == if acc.open && acc.out[n - 1] == row[x] then n - 1 else n
  {
    var n := |acc.out|;
    assert forall i :: 0 <= i < n ==> row[i] == acc.out[i];
    assert forall i :: n <= i < x ==> row[i] == 0;
    if acc.open {
      assert !Gap(row, n - 1, stop);
      assert k == n - 1;
    } else if x > 0 {
      assert !Gap(row, n, stop);
      assert k == n;
    }
  }

  lemma {:induction false} EmptyPlace(s: seq<nat>, row: seq<nat>, x: nat, stop: nat, acc: Acc)
    requires x < |s| && Underway(s, row, x, stop, acc)
    ensures row[x] == s[x]
    ensures row[x] == 0 ==> Underway(s, row, x + 1, stop, acc)
  {
    FeedNext(NOTHING, s[..x], s[x]);
    assert s[..x] + [s[x]] == s[..x + 1];
    if row[x] == 0 {
      var n := |acc.out|;
      assert acc.out + Zeros(x - n) + s[x..] == acc.out + Zeros(x + 1 - n) + s[x + 1..];
    }
  }

  /** A tile that stays where it is, or moves up behind the last tile. */
  lemma {:induction false} Placed(s: seq<nat>, row: seq<nat>, x: nat, stop: nat, acc: Acc)
    requires x < |s| && Underway(s, row, x, stop, acc) && row[x] > 0
    requires !(acc.open && acc.out[|acc.out| - 1] == row[x])
    ensures var n := |acc.out|;
            && (n < x ==> row[n] == 0)
            && Underway(s, if n == x then row else Moved(row, n, x), x + 1, stop, Feed(acc, row[x]))
  {
    hide FeedAll;
    var n, v := |acc.out|, row[x];
    EmptyPlace(s, row, x, stop, acc);
    FeedNext(NOTHING, s[..x], s[x]);
    assert s[..x] + [s[x]] == s[..x + 1];
    var r := if n == x then row else Moved(row, n, x);
    Behind(acc.out, s, row, x, r);
    if n < x {
      assert row[n] == Zeros(x - n)[0];
    }
    hide Moved, Zeros;
    assert Feed(acc, v) == Acc(acc.out + [v], true, acc.gain);
  }

  lemma {:induction false} Behind(out: seq<nat>, s: seq<nat>, row: seq<nat>, x: nat, r: seq<nat>)
    requires |out| <= x < |s| && row == out + Zeros(x - |out|) + s[x..]
    requires r == if |out| == x then row else Moved(row, |out|, x)
    ensures r == (out + [s[x]]) + Zeros(x - |out|) + s[x + 1..]
  {
    if |out| == x {
      assert r == out + s[x..];
      assert s[x..] == [s[x]] + s[x + 1..];
    }
  }

  /** A tile that merges with the last one. */
  lemma {:induction false} Joined(s: seq<nat>, row: seq<nat>, x: nat, stop: nat, acc: Acc)
    requires x < |s| && Underway(s, row, x, stop, acc) && row[x] > 0
    requires acc.open && acc.out[|acc.out| - 1] == row[x]
    ensures var n := |acc.out|;
            row[n - 1] == row[x] && Underway(s, Moved(row, n - 1, x), x + 1, n, Feed(acc, row[x]))
  {
    var n, v := |acc.out|, row[x];
    EmptyPlace(s, row, x, stop, acc);
    FeedNext(NOTHING, s[..x], s[x]);
    assert s[..x] + [s[x]] == s[..x + 1];
    var next := Feed(acc, v);
    assert Moved(row, n - 1, x) == next.out + Zeros(x + 1 - n) + s[x + 1..];
  }
}
