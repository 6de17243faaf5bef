/** The 2048 board as a square of tiles: turns, slides in four directions, and the end of the game. */
module TileBoard {
  import opened TileRow

  type Grid = seq<seq<nat>>

  predicate Square(g: Grid) {
    forall x :: 0 <= x < |g| ==> |g[x]| == |g|
  }

  function Column(g: Grid, y: nat): (r: seq<nat>)
    requires forall x :: 0 <= x < |g| ==> y < |g[x]|
    ensures |r| == |g| && forall x :: 0 <= x < |g| ==> r[x] == g[x][y]
  {
    seq(|g|, x requires 0 <= x < |g| => g[x][y])
  }

  function Reverse(s: seq<nat>): (r: seq<nat>)
    ensures |r| == |s|
  {
    seq(|s|, i requires 0 <= i < |s| => s[|s| - 1 - i])
  }

  function Transpose(g: Grid): (r: Grid)
    requires Square(g)
    ensures Square(r) && |r| == |g|
  {
    seq(|g|, x requires 0 <= x < |g| => Column(g, x))
  }

  /** A quarter turn. */
  function Turn(g: Grid): (r: Grid)
    requires Square(g)
    ensures Square(r) && |r| == |g|
  {
    seq(|g|, x requires 0 <= x < |g| => Column(g, |g| - 1 - x))
  }

  function Turn2(g: Grid): (r: Grid)
    requires Square(g)
    ensures Square(r) && |r| == |g|
  {
    Turn(Turn(g))
  }

  function Turn3(g: Grid): (r: Grid)
    requires Square(g)
    ensures Square(r) && |r| == |g|
  {
    Turn(Turn2(g))
  }

  /** Every tile towards y = 0, y = n - 1, x = 0 and x = n - 1. */
  function Up(g: Grid): (r: Grid)
    ensures |r| == |g| && (Square(g) ==> Square(r))
  {
    seq(|g|, x requires 0 <= x < |g| => Slide(g[x]))
  }

  function Down(g: Grid): (r: Grid)
    ensures |r| == |g| && (Square(g) ==> Square(r))
  {
    seq(|g|, x requires 0 <= x < |g| => Reverse(Slide(Reverse(g[x]))))
  }

  function Left(g: Grid): (r: Grid)
    requires Square(g)
    ensures Square(r) && |r| == |g|
  {
    Transpose(Up(Transpose(g)))
  }

  function Right(g: Grid): (r: Grid)
    requires Square(g)
    ensures Square(r) && |r| == |g|
  {
    Transpose(Down(Transpose(g)))
  }

  // ---- turns -----------------------------------------------------------------------------------------------

  /** Two grids with the same tiles. */
  lemma {:induction false} SameTiles(g: Grid, h: Grid)
    requires Square(g) && Square(h) && |g| == |h|
    requires forall x, y :: 0 <= x < |g| && 0 <= y < |g| ==> g[x][y] == h[x][y]
    ensures g == h
  {
    forall x | 0 <= x < |g|
      ensures g[x] == h[x]
    {
      assert |g[x]| == |h[x]|;
    }
  }

  lemma {:induction false} TurnAt(g: Grid, x: nat, y: nat)
    requires Square(g) && x < |g| && y < |g|
    ensures Turn(g)[x][y] == g[y][|g| - 1 - x] && Transpose(g)[x][y] == g[y][x]
  {
    assert Turn(g)[x] == Column(g, |g| - 1 - x) && Transpose(g)[x] == Column(g, x);
  }

  lemma {:induction false} TurnsAre(g: Grid)
    requires Square(g)
    ensures Turn2(g) == Turn(Turn(g)) && Turn3(g) == Turn(Turn(Turn(g)))
  {
  }

  lemma {:induction false} Turn2At(g: Grid)
    requires Square(g)
    ensures forall x, y :: 0 <= x < |g| && 0 <= y < |g| ==> Turn2(g)[x][y] == g[|g| - 1 - x][|g| - 1 - y]
  {
    var n := |g|;
    forall x, y | 0 <= x < n && 0 <= y < n
      ensures Turn2(g)[x][y] == g[n - 1 - x][n - 1 - y]
    {
      TurnAt(Turn(g), x, y);
      TurnAt(g, y, n - 1 - x);
    }
  }

  lemma {:induction false} Turn3At(g: Grid)
    requires Square(g)
    ensures forall x, y :: 0 <= x < |g| && 0 <= y < |g| ==> Turn3(g)[x][y] == g[|g| - 1 - y][x]
  {
    var n := |g|;
    Turn2At(g);
    forall x, y | 0 <= x < n && 0 <= y < n
      ensures Turn3(g)[x][y] == g[n - 1 - y][x]
    {
      TurnAt(Turn2(g), x, y);
    }
  }

  /** Four quarter turns are the identity. */
  lemma {:induction false} FourTurns(g: Grid)
    requires Square(g)
    ensures Turn(Turn3(g)) == g && Turn3(Turn(g)) == g && Turn2(Turn2(g)) == g
  {
    Turn3At(g);
    forall x, y | 0 <= x < |g| && 0 <= y < |g|
      ensures Turn(Turn3(g))[x][y] == g[x][y]
    {
      TurnAt(Turn3(g), x, y);
    }
    SameTiles(Turn(Turn3(g)), g);
    Turn3At(Turn(g));
    SameTiles(Turn3(Turn(g)), g);
    Turn2At(g);
    Turn2At(Turn2(g));
    SameTiles(Turn2(Turn2(g)), g);
  }

  lemma {:induction false} TurnRow(g: Grid, x: nat)
    requires Square(g) && x < |g|
    ensures Turn(g)[x] == Transpose(g)[|g| - 1 - x]
  {
  }

  lemma {:induction false} TransposeTwice(g: Grid)
    requires Square(g)
    ensures Transpose(Transpose(g)) == g
  {
    SameTiles(Transpose(Transpose(g)), g);
  }

  // ---- the four moves --------------------------------------------------------------------------------------

  /** Turn, slide up, three turns: every tile goes towards x = 0, and the grid changes if the slide changed anything. */
  lemma {:induction false} LeftByTurns(g: Grid)
    requires Square(g)
    ensures Turn3(Up(Turn(g))) == Left(g) && (Up(Turn(g)) != Turn(g) <==> Left(g) != g)
  {
    var n, h := |g|, Up(Turn(g));
    Turn3At(h);
    forall x, y | 0 <= x < n && 0 <= y < n
      ensures Turn3(h)[x][y] == Left(g)[x][y]
    {
      assert Turn(g)[n - 1 - y] == Transpose(g)[y];
    }
    SameTiles(Turn3(h), Left(g));
    FourTurns(g);
    FourTurns(h);
  }

  lemma {:induction false} DownByTurns(g: Grid)
    requires Square(g)
    ensures Turn2(Up(Turn2(g))) == Down(g) && (Up(Turn2(g)) != Turn2(g) <==> Down(g) != g)
  {
    hide Turn, Turn2, Slide;
    var n, h := |g|, Up(Turn2(g));
    Turn2At(g);
    Turn2At(h);
    forall x, y | 0 <= x < n && 0 <= y < n
      ensures Turn2(h)[x][y] == Down(g)[x][y]
    {
      assert Turn2(g)[n - 1 - x] == Reverse(g[x]);
    }
    SameTiles(Turn2(h), Down(g));
    FourTurns(g);
    FourTurns(h);
  }

  lemma {:induction false} RightByTurns(g: Grid)
    requires Square(g)
    ensures Turn(Up(Turn3(g))) == Right(g) && (Up(Turn3(g)) != Turn3(g) <==> Right(g) != g)
  {
    var n, h := |g|, Up(Turn3(g));
    Turn3At(g);
    forall x, y | 0 <= x < n && 0 <= y < n
      ensures Turn(h)[x][y] == Right(g)[x][y]
    {
      assert Turn3(g)[y] == Reverse(Transpose(g)[y]);
    }
    SameTiles(Turn(h), Right(g));
    FourTurns(g);
    FourTurns(h);
  }

  // ---- conservation ----------------------------------------------------------------------------------------

  function Total(g: Grid): nat {
    if g == [] then 0 else Sum(g[0]) + Total(g[1..])
  }

  /** The score of a slide up. */
  function BoardGain(g: Grid): nat {
    if g == [] then 0 else Gain(g[0]) + BoardGain(g[1..])
  }

  /** The first k columns. */
  function Columns(g: Grid, k: nat): nat
    requires forall x :: 0 <= x < |g| ==> k <= |g[x]|
  {
    if k == 0 then 0 else Columns(g, k - 1) + Sum(Column(g, k - 1))
  }

  lemma {:induction false} ColumnsHead(g: Grid, k: nat)
    requires g != [] && forall x :: 0 <= x < |g| ==> k <= |g[x]|
    ensures Columns(g, k) == Sum(g[0][..k]) + Columns(g[1..], k)
  {
    if k > 0 {
      ColumnsHead(g, k - 1);
      assert Column(g, k - 1)[1..] == Column(g[1..], k - 1);
      assert g[0][..k] == g[0][..k - 1] + [g[0][k - 1]];
      SumAppend(g[0][..k - 1], [g[0][k - 1]]);
      assert Sum([g[0][k - 1]]) == g[0][k - 1];
    }
  }

  /** Adding up by columns or by rows. */
  lemma {:induction false} ColumnsAll(g: Grid, m: nat)
    requires forall x :: 0 <= x < |g| ==> |g[x]| == m
    ensures Columns(g, m) == Total(g)
    decreases |g|
  {
    if g == [] {
      NoColumns(m);
    } else {
      ColumnsHead(g, m);
      ColumnsAll(g[1..], m);
      assert g[0][..m] == g[0];
    }
  }

  lemma {:induction false} NoColumns(k: nat)
    ensures Columns([], k) == 0
  {
    if k > 0 {
      NoColumns(k - 1);
      assert Column([], k - 1) == [];
    }
  }

  lemma {:induction false} TurnedRows(g: Grid, a: nat)
    requires Square(g) && a <= |g|
    ensures Total(Turn(g)[a..]) == Columns(g, |g| - a)
    decreases |g| - a
  {
    if a < |g| {
      TurnedRows(g, a + 1);
      assert Turn(g)[a..][1..] == Turn(g)[a + 1..];
    }
  }

  lemma {:induction false} TurnTotal(g: Grid)
    requires Square(g)
    ensures Total(Turn(g)) == Total(g)
  {
    TurnedRows(g, 0);
    assert Turn(g)[0..] == Turn(g);
    ColumnsAll(g, |g|);
  }

  lemma {:induction false} UpTotal(g: Grid)
    ensures Total(Up(g)) == Total(g)
  {
    hide Slide, Sum;
    if g != [] {
      SlideSum(g[0]);
      UpTotal(g[1..]);
      assert Up(g)[1..] == Up(g[1..]);
    }
  }

  /** No move makes or loses value. */
  lemma {:induction false} MovesConserve(g: Grid)
    requires Square(g)
    ensures Total(Up(g)) == Total(Down(g)) == Total(Left(g)) == Total(Right(g)) == Total(g)
  {
    hide Up, Down, Left, Right, Turn, Total;
    UpTotal(g);
    LeftByTurns(g);
    DownByTurns(g);
    RightByTurns(g);
    TurnsTotal(g);
    var l, d, r := Up(Turn(g)), Up(Turn2(g)), Up(Turn3(g));
    UpTotal(Turn(g));
    UpTotal(Turn2(g));
    UpTotal(Turn3(g));
    TurnsTotal(l);
    TurnsTotal(d);
    TurnsTotal(r);
  }

  lemma {:induction false} TurnsTotal(g: Grid)
    requires Square(g)
    ensures Total(Turn(g)) == Total(Turn2(g)) == Total(Turn3(g)) == Total(g)
  {
    hide Turn, Total;
    TurnTotal(g);
    TurnTotal(Turn(g));
    TurnTotal(Turn2(g));
  }

  // ---- the end of the game -----------------------------------------------------------------------------------

  predicate Full(s: seq<nat>) {
    forall i :: 0 <= i < |s| ==> s[i] > 0
  }

  predicate Empty(s: seq<nat>) {
    forall i :: 0 <= i < |s| ==> s[i] == 0
  }

  predicate Pairless(s: seq<nat>) {
    forall i, j :: 0 <= i < |s| && j == i + 1 < |s| ==> s[i] != s[j]
  }

  lemma {:induction false} CompressFull(s: seq<nat>)
    requires Full(s)
    ensures Compress(s) == s
  {
    if s != [] {
      CompressFull(s[1..]);
    }
  }

  /** Merging leaves a row of tiles alone, or shortens it. */
  lemma {:induction false} MergePairless(s: seq<nat>)
    requires Full(s)
    ensures if Pairless(s) then Merge(s) == s else |Merge(s)| < |s|
    decreases |s|
  {
    if |s| >= 2 {
      if s[0] == s[1] {
        assert |Merge(s[2..])| <= |s| - 2;
      } else {
        MergePairless(s[1..]);
        PairlessTail(s);
      }
    }
  }

  lemma {:induction false} PairlessTail(s: seq<nat>)
    requires |s| >= 2 && s[0] != s[1]
    ensures Pairless(s) <==> Pairless(s[1..])
  {
    var t := s[1..];
    if Pairless(t) {
      forall i, j | 0 <= i < |s| && j == i + 1 < |s|
        ensures s[i] != s[j]
      {
        if i > 0 {
          assert t[i - 1] != t[j - 1];
        }
      }
    }
    if Pairless(s) {
      forall i, j | 0 <= i < |t| && j == i + 1 < |t|
        ensures t[i] != t[j]
      {
        assert s[i + 1] != s[j + 1];
      }
    }
  }

  lemma {:induction false} SlideFull(s: seq<nat>)
    requires Full(s)
    ensures Slide(s) == s <==> Pairless(s)
  {
    CompressFull(s);
    MergePairless(s);
    var tiles := Merge(s);
    if |tiles| < |s| {
      assert Slide(s)[|tiles|] == 0;
    } else {
      assert Slide(s) == tiles;
    }
  }

  /** A row a slide leaves alone has its gaps behind its tiles. */
  lemma {:induction false} GapsBehind(s: seq<nat>, i: nat, j: nat)
    requires Slide(s) == s && i <= j < |s| && s[i] == 0
    ensures s[j] == 0
  {
    var tiles := Merge(Compress(s));
    assert i >= |tiles|;
  }

  lemma {:induction false} CompressEmpty(s: seq<nat>)
    requires Empty(s)
    ensures Compress(s) == []
  {
    if s != [] {
      CompressEmpty(s[1..]);
    }
  }

  lemma {:induction false} SlideEmpty(s: seq<nat>)
    requires Empty(s)
    ensures Slide(s) == s
  {
    CompressEmpty(s);
    assert [] + Zeros(|s|) == s;
  }

  predicate RowStuck(s: seq<nat>) {
    Slide(s) == s && Reverse(Slide(Reverse(s))) == s
  }

  lemma {:induction false} ReverseTwice(s: seq<nat>)
    ensures Reverse(Reverse(s)) == s
  {
  }

  lemma {:induction false} ReversePairless(s: seq<nat>)
    ensures Pairless(s) ==> Pairless(Reverse(s))
  {
    var r := Reverse(s);
    if Pairless(s) {
      forall i, j | 0 <= i < |r| && j == i + 1 < |r|
        ensures r[i] != r[j]
      {
        assert s[|s| - 1 - j] != s[|s| - 1 - i];
      }
    }
  }

  lemma {:induction false} GapsInFront(s: seq<nat>, i: nat, j: nat)
    requires Reverse(Slide(Reverse(s))) == s && j <= i < |s| && s[i] == 0
    ensures s[j] == 0
  {
    var r, k, m := Reverse(s), |s| - 1 - i, |s| - 1 - j;
    assert r[k] == s[i] && r[m] == s[j];
    hide Slide, Reverse;
    ReverseTwice(Slide(r));
    GapsBehind(r, k, m);
  }

  lemma {:induction false} GapMeansEmpty(s: seq<nat>, i: nat)
    requires RowStuck(s) && i < |s| && s[i] == 0
    ensures Empty(s)
  {
    hide Slide, Reverse;
    forall j | 0 <= j < |s|
      ensures s[j] == 0
    {
      if i <= j {
        GapsBehind(s, i, j);
      } else {
        GapsInFront(s, i, j);
      }
    }
  }

  /** A row that no slide along it changes is empty, or full of tiles without equal neighbours. */
  lemma {:induction false} RowStuckIff(s: seq<nat>)
    ensures RowStuck(s) <==> Empty(s) || (Full(s) && Pairless(s))
  {
    var r := Reverse(s);
    ReverseTwice(s);
    if Empty(s) {
      SlideEmpty(s);
      SlideEmpty(r);
    } else if Full(s) {
      SlideFull(s);
      SlideFull(r);
      ReversePairless(s);
    } else if RowStuck(s) {
      var i :| 0 <= i < |s| && s[i] == 0;
      GapMeansEmpty(s, i);
    }
  }

  predicate Stuck(g: Grid)
    requires Square(g)
  {
    Up(g) == g && Down(g) == g && Left(g) == g && Right(g) == g
  }

  lemma {:induction false} RowsStuck(g: Grid)
    ensures (Up(g) == g && Down(g) == g) <==> forall x :: 0 <= x < |g| ==> RowStuck(g[x])
  {
    if Up(g) == g && Down(g) == g {
      forall x | 0 <= x < |g|
        ensures RowStuck(g[x])
      {
        assert Up(g)[x] == g[x] && Down(g)[x] == g[x];
      }
    }
  }

  lemma {:induction false} ColumnsStuck(g: Grid)
    requires Square(g)
    ensures (Left(g) == g && Right(g) == g) <==> forall y :: 0 <= y < |g| ==> RowStuck(Transpose(g)[y])
  {
    var t := Transpose(g);
    RowsStuck(t);
    TransposeTwice(g);
    TransposeTwice(Up(t));
    TransposeTwice(Down(t));
  }

  /** What gameEnded looks at: empty places, and equal neighbours in the rows of the board and of the turned board. */
  predicate Ended(g: Grid)
    requires Square(g)
  {
    && (forall x :: 0 <= x < |g| ==> Full(g[x]) && Pairless(g[x]))
    && (forall x :: 0 <= x < |g| ==> Pairless(Turn(g)[x]))
  }

  predicate HasTile(g: Grid) {
    exists x, y :: 0 <= x < |g| && 0 <= y < |g[x]| && g[x][y] > 0
  }

  lemma {:induction false} EndedIsStuck(g: Grid)
    requires Square(g) && Ended(g)
    ensures Stuck(g) && (|g| == 0 || HasTile(g))
  {
    var t, n := Transpose(g), |g|;
    forall x | 0 <= x < n
      ensures RowStuck(g[x]) && RowStuck(t[x])
    {
      RowStuckIff(g[x]);
      assert Turn(g)[n - 1 - x] == t[x];
      RowStuckIff(t[x]);
    }
    RowsStuck(g);
    ColumnsStuck(g);
    if n > 0 {
      assert g[0][0] > 0;
    }
  }

  lemma {:induction false} StuckRows(g: Grid, x: nat, y: nat)
    requires Square(g) && Stuck(g) && x < |g| && y < |g| && g[x][y] > 0
    ensures forall i :: 0 <= i < |g| ==> (Full(g[i]) && Pairless(g[i])) && Pairless(Transpose(g)[i])
  {
    var t, n := Transpose(g), |g|;
    RowsStuck(g);
    ColumnsStuck(g);
    assert RowStuck(g[x]);
    hide Transpose, RowStuck, Stuck;
    RowStuckIff(g[x]);
    assert Full(g[x]);
    forall i | 0 <= i < n
      ensures Full(t[i]) && Pairless(t[i])
    {
      RowStuckIff(t[i]);
      TurnAt(g, i, x);
    }
    forall i | 0 <= i < n
      ensures Full(g[i]) && Pairless(g[i])
    {
      RowStuckIff(g[i]);
      TurnAt(g, y, i);
      assert t[y][i] > 0;
    }
  }

  lemma {:induction false} StuckIsEnded(g: Grid)
    requires Square(g) && Stuck(g) && HasTile(g)
    ensures Ended(g)
  {
    hide Stuck, Full, Pairless, Turn, Transpose;
    var x, y :| 0 <= x < |g| && 0 <= y < |g[x]| && g[x][y] > 0;
    StuckRows(g, x, y);
    forall i | 0 <= i < |g|
      ensures Pairless(Turn(g)[i])
    {
      TurnRow(g, i);
    }
  }

  /** The game has ended exactly if no move changes the board, unless the board is empty. */
  lemma {:induction false} EndedIff(g: Grid)
    requires Square(g)
    ensures Ended(g) <==> Stuck(g) && (|g| == 0 || HasTile(g))
  {
    if |g| == 0 {
      assert Ended(g);
    }
    hide Ended, Stuck, HasTile;
    if Ended(g) {
      EndedIsStuck(g);
    } else if Stuck(g) && HasTile(g) {
      StuckIsEnded(g);
    }
  }

  /** On an empty board no move changes anything, and yet the game has not ended. */
  lemma {:induction false} EmptyBoardGoesOn(n: nat) returns (g: Grid)
    requires n > 0
    ensures |g| == n && Square(g) && Stuck(g) && !Ended(g)
  {
    g := seq(n, _ => Zeros(n));
    var t := Transpose(g);
    forall x | 0 <= x < n
      ensures RowStuck(g[x]) && RowStuck(t[x])
    {
      RowStuckIff(g[x]);
      RowStuckIff(t[x]);
    }
    RowsStuck(g);
    ColumnsStuck(g);
    assert g[0][0] == 0;
  }
}
