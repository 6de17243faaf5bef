/** The move engine of commands/2048.c, for a board of any size. */
module Game2048 {
  import opened TileRow
  import opened TileBoard

  /** uint16_t */
  type Tile = x: int | 0 <= x < 0x1_0000
  const SCORE_MOD: nat := 0x1_0000_0000
  /** uint32_t */
  type Score = x: int | 0 <= x < SCORE_MOD

  /** The places of the rings around depth i, and the places of ring i the inner loop has been to. */
  predicate Visited(n: nat, i: nat, j: nat, a: int, b: int) {
    || a < i || b < i || a > n - 1 - i || b > n - 1 - i
    || (a == i && b < j) || (b == n - 1 - i && a < j)
    || (a == n - 1 - i && b > n - 1 - j) || (b == i && a > n - 1 - j)
  }

  /** The four places one round of the inner loop moves. */
  predicate Cycle(n: nat, i: nat, j: nat, a: int, b: int) {
    (a == i && b == j) || (a == j && b == n - 1 - i) || (a == n - 1 - i && b == n - 1 - j) || (a == n - 1 - j && b == i)
  }

  lemma {:induction false} VisitNext(n: nat, i: nat, j: nat, a: nat, b: nat)
    requires i <= j < n - 1 - i && a < n && b < n
    ensures Visited(n, i, j + 1, a, b) <==> Visited(n, i, j, a, b) || Cycle(n, i, j, a, b)
    ensures !(Visited(n, i, j, a, b) && Cycle(n, i, j, a, b))
  {
  }

  lemma {:induction false} VisitRing(n: nat, i: nat, a: nat, b: nat)
    requires i < n / 2 && a < n && b < n
    ensures Visited(n, i, n - 1 - i, a, b) <==> Visited(n, i + 1, i + 1, a, b)
  {
  }

  /** Adding to the uint32_t score. */
  function Scored(score: Score, more: nat): Score {
    (score + more) % SCORE_MOD
  }

  lemma {:induction false} ScoredTwice(score: Score, more: nat, yet: nat)
    ensures Scored(Scored(score, more), yet) == Scored(score, more + yet)
  {
  }

  /** The tile of a place: turned once the place has been visited. */
  function Want(g: Grid, i: nat, j: nat, a: nat, b: nat): nat
    requires Square(g) && a < |g| && b < |g|
  {
    if Visited(|g|, i, j, a, b) then g[b][|g| - 1 - a] else g[a][b]
  }

  class Game {
    const n: nat
    const board: array2<Tile>
    var score: Score
    /** The tiles on the board. */
    ghost var grid: Grid

    ghost predicate Valid()
      reads this`grid, board
    {
      && board.Length0 == n && board.Length1 == n
      && |grid| == n && Square(grid)
      && forall x, y :: 0 <= x < n && 0 <= y < n ==> board[x, y] == grid[x][y]
    }

    lemma {:induction false} Facts()
      requires Valid()
      ensures |grid| == n && Square(grid) && board.Length0 == n && board.Length1 == n && Scored(score, 0) == score
      ensures forall x :: 0 <= x < n ==> |grid[x]| == n
      ensures forall x, y :: 0 <= x < n && 0 <= y < n ==> board[x, y] == grid[x][y]
    {
    }

    /** An empty board. */
    constructor (n: nat)
      ensures Valid() && this.n == n && score == 0 && Total(grid) == 0 && fresh(board)
    {
      this.n := n;
      board := new Tile[n, n]((_, _) => 0);
      score := 0;
      grid := seq(n, _ => Zeros(n));
      new;
      NoTiles(n, n);
    }

    /** findTarget on row x. */
    method FindTarget(x: nat, y: nat, stop: nat) returns (t: nat)
      requires Valid() && x < n && y < n
      ensures exists k :: Found(grid[x], y, stop, k, t)
    {
      ghost var row := grid[x];
      if y == 0 {
        assert Found(row, y, stop, -1, y);
        return y;
      }
      var k: int := y - 1;
      while k >= 0
        invariant -1 <= k < y && forall j :: k < j < y ==> Gap(row, j, stop)
      {
        assert board[x, k] == row[k];
        if board[x, k] != 0 {
          assert board[x, y] == row[y];
          t := if board[x, k] != board[x, y] then k + 1 else k;
          assert Found(row, y, stop, k, t);
          return;
        } else if k == stop {
          assert Found(row, y, stop, k, k);
          return k;
        }
        k := k - 1;
      }
      assert Found(row, y, stop, -1, y);
      return y;
    }

    /** The tile at y is added to the place t, with the wrap-around of uint16_t. */
    method Move(x: nat, t: nat, y: nat)
      requires Valid() && x < n && t < y < n && grid[x][t] + grid[x][y] < 0x1_0000
      modifies board, this`grid
      ensures Valid() && grid == old(grid)[x := Moved(old(grid)[x], t, y)]
    {
      board[x, t] := (board[x, t] + board[x, y]) % 0x1_0000;
      board[x, y] := 0;
      grid := grid[x := Moved(grid[x], t, y)];
    }

    /** One tile of slideArray. */
    method SlideTile(x: nat, y: nat, stop: nat, ghost s: seq<nat>, ghost acc: Acc) returns (moved: bool, next: nat)
      requires Valid() && x < n && y < n && Fits(Slide(s)) && Underway(s, grid[x], y, stop, acc) && grid[x][y] > 0
      modifies board, this`grid, this`score
      ensures Valid() && |grid| == n && grid == old(grid)[x := grid[x]]
      ensures Underway(s, grid[x], y + 1, next, Feed(acc, old(grid)[x][y]))
      ensures Feed(acc, old(grid)[x][y]).gain >= acc.gain
      ensures score == Scored(old(score), Feed(acc, old(grid)[x][y]).gain - acc.gain)
      ensures if moved then Distance(grid[x]) < Distance(old(grid)[x]) else grid == old(grid)
    {
      hide *;
      Facts();
      UnderwaySize(s, grid[x], y, stop, acc);
      next := stop;
      var t := FindTarget(x, y, stop);
      ghost var row := grid[x];
      ghost var k :| Found(row, y, stop, k, t);
      TargetAndEffect(s, row, y, stop, acc, k, t);
      moved := t != y;
      if moved {
        if board[x, t] != 0 {
          score := Scored(score, board[x, t] + board[x, y]);
          next := t + 1;
        }
        Move(x, t, y);
        assert grid[x] == Moved(row, t, y);
      }
    }

    /** slideArray on row x. */
    method SlideArray(x: nat) returns (success: bool)
      requires Valid() && x < n && Fits(Slide(grid[x]))
      modifies board, this`grid, this`score
      ensures Valid() && grid == old(grid)[x := Slide(old(grid)[x])]
      ensures score == Scored(old(score), Gain(old(grid)[x]))
      ensures success <==> Slide(old(grid)[x]) != old(grid)[x]
    {
      hide *;
      Facts();
      ghost var s, acc := grid[x], NOTHING;
      var stop := 0;
      success := false;
      UnderwayStart(s);
      assert acc.gain == 0 by { NoGain(); }
      for y := 0 to n
        invariant Valid() && |grid| == n && grid == old(grid)[x := grid[x]]
        invariant Underway(s, grid[x], y, stop, acc)
        invariant score == Scored(old(score), acc.gain)
        invariant if success then Distance(grid[x]) < Distance(s) else grid[x] == s
      {
        Facts();
        EmptyPlace(s, grid[x], y, stop, acc);
        if board[x, y] != 0 {
          ghost var next := Feed(acc, grid[x][y]);
          FeedGains(acc, grid[x][y]);
          ScoredTwice(old(score), acc.gain, next.gain - acc.gain);
          var moved;
          moved, stop := SlideTile(x, y, stop, s, acc);
          acc := next;
          success := success || moved;
        }
      }
      UnderwayDone(s, grid[x], stop, acc);
    }

    /** The four places of one round, each taking the tile of the next. */
    method CycleFour(i: nat, j: nat)
      requires board.Length0 == n && board.Length1 == n && i <= j < n - 1 - i
      modifies board
      ensures forall a, b :: 0 <= a < n && 0 <= b < n ==>
                board[a, b] == if Cycle(n, i, j, a, b) then old(board[b, n - 1 - a]) else old(board[a, b])
    {
      var tmp := board[i, j];
      board[i, j] := board[j, n - i - 1];
      board[j, n - i - 1] := board[n - i - 1, n - j - 1];
      board[n - i - 1, n - j - 1] := board[n - j - 1, i];
      board[n - j - 1, i] := tmp;
    }

    /** The board with the visited places turned. */
    ghost predicate Turning(g: Grid, i: nat, j: nat)
      reads board
      requires |g| == n && Square(g) && board.Length0 == n && board.Length1 == n
    {
      forall a, b :: 0 <= a < n && 0 <= b < n ==> board[a, b] == Want(g, i, j, a, b)
    }

    method TurnRound(ghost g: Grid, i: nat, j: nat)
      requires |g| == n && Square(g) && board.Length0 == n && board.Length1 == n
      requires i <= j < n - 1 - i && Turning(g, i, j)
      modifies board
      ensures Turning(g, i, j + 1)
    {
      CycleFour(i, j);
      forall a, b | 0 <= a < n && 0 <= b < n
        ensures board[a, b] == Want(g, i, j + 1, a, b)
      {
        VisitNext(n, i, j, a, b);
        VisitNext(n, i, j, b, n - 1 - a);
        assert old(board[a, b]) == Want(g, i, j, a, b);
        assert old(board[b, n - 1 - a]) == Want(g, i, j, b, n - 1 - a);
      }
    }

    lemma {:induction false} RingTurned(g: Grid, i: nat)
      requires |g| == n && Square(g) && board.Length0 == n && board.Length1 == n
      requires i < n / 2 && Turning(g, i, n - 1 - i)
      ensures Turning(g, i + 1, i + 1)
    {
      forall a, b | 0 <= a < n && 0 <= b < n
        ensures board[a, b] == Want(g, i + 1, i + 1, a, b)
      {
        VisitRing(n, i, a, b);
        assert board[a, b] == Want(g, i, n - 1 - i, a, b);
      }
    }

    lemma {:induction false} AllTurned(g: Grid)
      requires |g| == n && Square(g) && board.Length0 == n && board.Length1 == n
      requires Turning(g, n / 2, n / 2)
      ensures forall a, b :: 0 <= a < n && 0 <= b < n ==> board[a, b] == Turn(g)[a][b]
    {
      forall a, b | 0 <= a < n && 0 <= b < n
        ensures board[a, b] == Turn(g)[a][b]
      {
        assert Visited(n, n / 2, n / 2, a, b) || a == b == n - 1 - a;
        TurnAt(g, a, b);
      }
    }

    /** rotateBoard */
    method RotateBoard()
      requires Valid()
      modifies board, this`grid
      ensures Valid() && grid == Turn(old(grid))
    {
      ghost var g := grid;
      var i := 0;
      while i < n / 2
        invariant i <= n / 2 && Turning(g, i, i)
      {
        var j := i;
        while j < n - i - 1
          invariant i <= j <= n - 1 - i && Turning(g, i, j)
        {
          TurnRound(g, i, j);
          j := j + 1;
        }
        RingTurned(g, i);
        i := i + 1;
      }
      AllTurned(g);
      grid := Turn(g);
    }

    method MoveUp() returns (success: bool)
      requires Valid() && FitsAll(Up(grid))
      modifies board, this`grid, this`score
      ensures Valid() && grid == Up(old(grid)) && success == (grid != old(grid))
      ensures score == Scored(old(score), BoardGain(old(grid)))
    {
      hide *;
      Facts();
      success := false;
      ghost var g := grid;
      MixedEnds(g);
      for x := 0 to n
        invariant Valid() && grid == Mixed(g, x) && success == (grid != g)
        invariant score == Scored(old(score), BoardGain(g[..x]))
      {
        MixedNext(g, x);
        GainNext(g, x);
        ScoredTwice(old(score), BoardGain(g[..x]), Gain(g[x]));
        var moved := SlideArray(x);
        success := success || moved;
      }
    }

    method MoveLeft() returns (success: bool)
      requires Valid() && FitsAll(Left(grid))
      modifies board, this`grid, this`score
      ensures Valid() && grid == Left(old(grid)) && success == (grid != old(grid))
      ensures score == Scored(old(score), BoardGain(Turn(old(grid))))
    {
      hide *;
      Facts();
      ghost var h := Up(Turn(grid));
      LeftByTurns(grid);
      FitsTurned(h);
      TurnsAre(h);
      RotateBoard();
      success := MoveUp();
      RotateBoard();
      RotateBoard();
      RotateBoard();
    }

    method MoveDown() returns (success: bool)
      requires Valid() && FitsAll(Down(grid))
      modifies board, this`grid, this`score
      ensures Valid() && grid == Down(old(grid)) && success == (grid != old(grid))
      ensures score == Scored(old(score), BoardGain(Turn2(old(grid))))
    {
      hide *;
      Facts();
      ghost var h := Up(Turn2(grid));
      DownByTurns(grid);
      FitsTurned(h);
      TurnsAre(h);
      TurnsAre(grid);
      RotateBoard();
      RotateBoard();
      success := MoveUp();
      RotateBoard();
      RotateBoard();
    }

    method MoveRight() returns (success: bool)
      requires Valid() && FitsAll(Right(grid))
      modifies board, this`grid, this`score
      ensures Valid() && grid == Right(old(grid)) && success == (grid != old(grid))
      ensures score == Scored(old(score), BoardGain(Turn3(old(grid))))
    {
      hide *;
      Facts();
      ghost var h := Up(Turn3(grid));
      RightByTurns(grid);
      FitsTurned(h);
      TurnsAre(grid);
      RotateBoard();
      RotateBoard();
      RotateBoard();
      success := MoveUp();
      RotateBoard();
    }

    method FindPairDown() returns (found: bool)
      requires Valid()
      ensures found <==> exists x :: 0 <= x < n && !Pairless(grid[x])
    {
      for x := 0 to n
        invariant forall i :: 0 <= i < x ==> Pairless(grid[i])
      {
        var y := 0;
        while y < n - 1
          invariant 0 <= y && forall i, j :: 0 <= i < y && j == i + 1 < n ==> grid[x][i] != grid[x][j]
        {
          if board[x, y] == board[x, y + 1] {
            assert grid[x][y] == grid[x][y + 1];
            return true;
          }
          y := y + 1;
        }
      }
      return false;
    }

    method CountEmpty() returns (count: nat)
      requires Valid()
      ensures count == Gaps(grid)
    {
      count := 0;
      for x := 0 to n
        invariant count == Gaps(grid[..x])
      {
        for y := 0 to n
          invariant count == Gaps(grid[..x]) + RowGaps(grid[x][..y])
        {
          assert grid[x][..y + 1] == grid[x][..y] + [grid[x][y]];
          if board[x, y] == 0 {
            count := count + 1;
          }
        }
        assert grid[x][..n] == grid[x];
        assert grid[..x + 1] == grid[..x] + [grid[x]];
      }
      assert grid[..n] == grid;
    }

    /** gameEnded turns the board once around. */
    method GameEnded() returns (ended: bool)
      requires Valid()
      modifies board, this`grid
      ensures Valid() && grid == old(grid) && ended == Ended(grid)
      ensures ended <==> Stuck(grid) && (n == 0 || HasTile(grid))
    {
      ghost var g := grid;
      EndedIff(g);
      EndedParts(g);
      FourTurns(g);
      assert Turn3(Turn(g)) == Turn(Turn(Turn(Turn(g))));
      hide *;
      ended := true;
      var gaps := CountEmpty();
      if gaps > 0 {
        return false;
      }
      var pair := FindPairDown();
      if pair {
        return false;
      }
      RotateBoard();
      pair := FindPairDown();
      if pair {
        ended := false;
      }
      RotateBoard();
      RotateBoard();
      RotateBoard();
    }
  }

  predicate FitsAll(g: Grid) {
    forall x :: 0 <= x < |g| ==> Fits(g[x])
  }

  lemma {:induction false} NoTiles(n: nat, k: nat)
    ensures Total(seq(k, _ => Zeros(n))) == 0
  {
    if k > 0 {
      NoTiles(n, k - 1);
      SumZeros(n);
      assert seq(k, _ => Zeros(n))[1..] == seq(k - 1, _ => Zeros(n));
    }
  }

  lemma {:induction false} NoGain()
    ensures NOTHING.gain == 0
  {
  }

  lemma {:induction false} FeedGains(acc: Acc, v: nat)
    ensures Feed(acc, v).gain >= acc.gain
  {
  }

  /** What one tile does to the row, the stop and the score, whether it stays, moves or merges. */
  lemma {:induction false} TargetAndEffect(s: seq<nat>, row: seq<nat>, y: nat, stop: nat, acc: Acc, k: int, t: nat)
    requires y < |s| && Underway(s, row, y, stop, acc) && Found(row, y, stop, k, t) && 0 < row[y] < 0x1_0000
             && Fits(Slide(s))
    ensures var next := Feed(acc, row[y]);
            && t <= y
            && (t == y ==> Underway(s, row, y + 1, stop, next) && next.gain == acc.gain)
            && (t < y ==>
                  && row[t] + row[y] < 0x1_0000 && Distance(Moved(row, t, y)) < Distance(row)
                  && Underway(s, Moved(row, t, y), y + 1, if row[t] != 0 then t + 1 else stop, next)
                  && next.gain - acc.gain == if row[t] != 0 then row[t] + row[y] else 0)
  {
    TargetIs(s, row, y, stop, acc, k, t);
    EmptyPlace(s, row, y, stop, acc);
    if acc.open && acc.out[|acc.out| - 1] == row[y] {
      Joined(s, row, y, stop, acc);
      MergeFits(s, y);
    } else {
      Placed(s, row, y, stop, acc);
    }
    if t < y {
      MovedCloser(row, t, y);
    }
  }

  /** The first x rows have slid. */
  function Mixed(g: Grid, x: nat): (r: Grid)
    requires x <= |g|
    ensures |r| == |g|
  {
    Up(g)[..x] + g[x..]
  }

  lemma {:induction false} MixedEnds(g: Grid)
    ensures Mixed(g, 0) == g && Mixed(g, |g|) == Up(g) && BoardGain(g[..0]) == 0 && g[..|g|] == g
  {
  }

  lemma {:induction false} MixedNext(g: Grid, x: nat)
    requires x < |g|
    ensures Mixed(g, x)[x] == g[x] && Mixed(g, x)[x := Slide(g[x])] == Mixed(g, x + 1)
    ensures Mixed(g, x + 1) != g <==> Mixed(g, x) != g || Slide(g[x]) != g[x]
    ensures FitsAll(Up(g)) ==> Fits(Slide(g[x]))
  {
    var a, b := Mixed(g, x), Mixed(g, x + 1);
    assert a[x := Slide(g[x])] == b;
    assert a == b[x := g[x]];
    assert b[x] == Slide(g[x]) == Up(g)[x];
  }

  lemma {:induction false} GainAppend(g: Grid, row: seq<nat>)
    ensures BoardGain(g + [row]) == BoardGain(g) + Gain(row)
  {
    if g == [] {
      assert [row][1..] == [];
    } else {
      GainAppend(g[1..], row);
      assert (g + [row])[1..] == g[1..] + [row];
    }
  }

  lemma {:induction false} GainNext(g: Grid, x: nat)
    requires x < |g|
    ensures BoardGain(g[..x + 1]) == BoardGain(g[..x]) + Gain(g[x])
  {
    GainAppend(g[..x], g[x]);
    assert g[..x] + [g[x]] == g[..x + 1];
  }

  lemma {:induction false} FitsTurn(g: Grid)
    requires Square(g) && FitsAll(Turn(g))
    ensures FitsAll(g)
  {
    forall x | 0 <= x < |g|
      ensures Fits(g[x])
    {
      forall y | 0 <= y < |g|
        ensures g[x][y] < 0x1_0000
      {
        TurnAt(g, |g| - 1 - y, x);
        assert Fits(Turn(g)[|g| - 1 - y]);
      }
    }
  }

  lemma {:induction false} FitsTurned(g: Grid)
    requires Square(g)
    ensures FitsAll(Turn(g)) || FitsAll(Turn2(g)) || FitsAll(Turn3(g)) ==> FitsAll(g)
  {
    hide FitsAll, Turn;
    if FitsAll(Turn3(g)) {
      FitsTurn(Turn2(g));
    }
    if FitsAll(Turn2(g)) {
      FitsTurn(Turn(g));
    }
    if FitsAll(Turn(g)) {
      FitsTurn(g);
    }
  }

  function RowGaps(s: seq<nat>): nat {
    if s == [] then 0 else RowGaps(s[..|s| - 1]) + if s[|s| - 1] == 0 then 1 else 0
  }

  function Gaps(g: Grid): nat {
    if g == [] then 0 else Gaps(g[..|g| - 1]) + RowGaps(g[|g| - 1])
  }

  lemma {:induction false} NoRowGaps(s: seq<nat>)
    ensures RowGaps(s) == 0 <==> Full(s)
  {
    if s != [] {
      NoRowGaps(s[..|s| - 1]);
    }
  }

  lemma {:induction false} NoGaps(g: Grid)
    ensures Gaps(g) == 0 <==> forall x :: 0 <= x < |g| ==> Full(g[x])
  {
    if g != [] {
      NoGaps(g[..|g| - 1]);
      NoRowGaps(g[|g| - 1]);
    }
  }

  lemma {:induction false} EndedParts(g: Grid)
    requires Square(g)
    ensures Ended(g) <==> && Gaps(g) == 0 && !(exists x :: 0 <= x < |g| && !Pairless(g[x]))
                          && !(exists x :: 0 <= x < |g| && !Pairless(Turn(g)[x]))
  {
    hide Full, Pairless, Turn;
    NoGaps(g);
  }
}
