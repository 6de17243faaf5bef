/** Screen columns of a line with tabs: screenline and setpos of commands/edit.c. */
module EditColumns {
  const TABSPACE: nat := 8
  /** The screen buffer holds this many characters and a terminating NUL. */
  const LIMIT: nat := 1023

  /** The column behind a character that starts in column c. */
  function Next(c: nat, ch: char): (r: nat)
    ensures r > c
  {
    if ch == '\t' then c + TABSPACE - c % TABSPACE else c + 1
  }

  /** The screen column of index i. */
  function Column(line: string, i: nat): nat
    requires i <= |line|
  {
    if i == 0 then 0 else Next(Column(line, i - 1), line[i - 1])
  }

  lemma {:induction false} ColumnGrows(line: string, i: nat, j: nat)
    requires i < j <= |line|
    ensures Column(line, i) < Column(line, j)
  {
    if i < j - 1 {
      ColumnGrows(line, i, j - 1);
    }
  }

  /** What stands on the screen for the first i characters. */
  function Shown(line: string, i: nat): (r: string)
    requires i <= |line|
    ensures |r| == Column(line, i)
  {
    if i == 0 then ""
    else
      var before := Shown(line, i - 1);
      before + if line[i - 1] == '\t' then Blanks(Next(|before|, '\t') - |before|) else [line[i - 1]]
  }

  function Blanks(n: nat): (r: string)
    ensures |r| == n
  {
    seq(n, _ => ' ')
  }

  lemma {:induction false} ShownGrows(line: string, i: nat, j: nat)
    requires i <= j <= |line|
    ensures Shown(line, i) <= Shown(line, j)
  {
    if i < j {
      ShownGrows(line, i, j - 1);
    }
  }

  function Cropped(s: string, n: nat): string {
    if |s| <= n then s else s[..n]
  }

  /** The index that covers the screen column p: the character there, or the end of the line. */
  predicate Covers(line: string, p: int, r: nat) {
    r <= |line| && (r < |line| ==> p < Column(line, r + 1)) && (r > 0 ==> Column(line, r) <= p)
  }

  lemma {:induction false} CoversOne(line: string, p: int, r: nat, q: nat)
    requires Covers(line, p, r) && Covers(line, p, q)
    ensures r == q
  {
    if r < q {
      if r + 1 < q {
        ColumnGrows(line, r + 1, q);
      }
    } else if q < r {
      if q + 1 < r {
        ColumnGrows(line, q + 1, r);
      }
    }
  }

  /** An index covers its own screen column. */
  lemma {:induction false} ColumnCovered(line: string, i: nat)
    requires i <= |line|
    ensures Covers(line, Column(line, i), i)
  {
  }

  /** The index setpos finds. */
  function SetPos(line: string, p: int): (r: nat)
    ensures Covers(line, p, r)
  {
    Find(line, p, 0)
  }

  function Find(line: string, p: int, i: nat): (r: nat)
    requires i <= |line| && (i > 0 ==> Column(line, i) <= p)
    ensures Covers(line, p, r)
    decreases |line| - i
  {
    if i == |line| || p < Column(line, i + 1) then i else Find(line, p, i + 1)
  }

  /** The C string in data is line. */
  predicate Terminated(data: array<char>, line: string)
    reads data
  {
    && |line| < data.Length && data[|line|] == '\0' && '\0' !in line
    && forall i :: 0 <= i < |line| ==> data[i] == line[i]
  }

  lemma {:induction false} EndsAt(data: array<char>, line: string, i: nat)
    requires Terminated(data, line) && i <= |line|
    ensures data[i] == '\0' <==> i == |line|
  {
    if i < |line| {
      assert line[i] in line;
    }
  }

  /** setpos */
  method Setpos(data: array<char>, ghost line: string, position: int) returns (linepos: nat)
    requires Terminated(data, line)
    ensures linepos == SetPos(line, position)
  {
    var i := 0;
    linepos := 0;
    EndsAt(data, line, 0);
    while data[linepos] != '\0'
      invariant linepos <= |line| && i == Column(line, linepos) && (linepos > 0 ==> i <= position)
      invariant data[linepos] == '\0' <==> linepos == |line|
      decreases |line| - linepos
    {
      ghost var start := i;
      if data[linepos] == '\t' {
        while (i + 1) % TABSPACE != 0
          invariant start <= i < Next(start, '\t')
          decreases Next(start, '\t') - i
        {
          i := i + 1;
        }
      }
      assert i + 1 == Next(start, line[linepos]);
      if i >= position {
        CoversOne(line, position, linepos, SetPos(line, position));
        return;
      }
      linepos := linepos + 1;
      i := i + 1;
      EndsAt(data, line, linepos);
    }
    CoversOne(line, position, linepos, SetPos(line, position));
  }

  lemma {:induction false} CroppedMore(a: string, b: string)
    requires |a| >= LIMIT && a <= b
    ensures Cropped(a, LIMIT) == Cropped(b, LIMIT)
  {
    assert a[..LIMIT] == b[..LIMIT];
  }

  /** Blanks up to the next tab stop or the end of the buffer. */
  method PutTab(lbuf: array<char>, start: nat, ghost before: string) returns (outpos: nat)
    requires lbuf.Length == LIMIT + 1 && start < LIMIT && lbuf[..start] == before
    modifies lbuf
    ensures start < outpos <= LIMIT && lbuf[..outpos] == Cropped(before + Blanks(Next(start, '\t') - start), LIMIT)
  {
    lbuf[start] := ' ';
    outpos := start + 1;
    while outpos < LIMIT && outpos % TABSPACE != 0
      invariant start < outpos <= LIMIT && outpos <= Next(start, '\t')
      invariant lbuf[..start] == before && forall k :: start <= k < outpos ==> lbuf[k] == ' '
    {
      lbuf[outpos] := ' ';
      outpos := outpos + 1;
    }
    assert outpos == LIMIT || outpos == Next(start, '\t');
    assert lbuf[..outpos] == before + Blanks(outpos - start);
    assert lbuf[..outpos] == Cropped(before + Blanks(Next(start, '\t') - start), LIMIT);
  }

  /** One character on the screen. */
  method PutChar(lbuf: array<char>, start: nat, c: char, ghost line: string, ghost i: nat) returns (outpos: nat)
    requires lbuf.Length == LIMIT + 1 && i < |line| && c == line[i]
    requires start < LIMIT && lbuf[..start] == Shown(line, i)
    modifies lbuf
    ensures start < outpos <= LIMIT && lbuf[..outpos] == Cropped(Shown(line, i + 1), LIMIT)
  {
    if c == '\t' {
      outpos := PutTab(lbuf, start, Shown(line, i));
    } else {
      lbuf[start] := c;
      outpos := start + 1;
      assert lbuf[..outpos] == Shown(line, i) + [c];
    }
  }

  predicate OnScreen(line: string, textx: int) {
    0 <= textx <= |line| && Column(line, textx) < LIMIT
  }

  /** screenline: the line with its tabs expanded, cut at the limit, and the column of textx if it is on the screen. */
  method ScreenLine(data: array?<char>, ghost line: string, textx: int, lbuf: array<char>, linepos: int)
    returns (outpos: nat, pos: int)
    requires lbuf.Length == LIMIT + 1 && lbuf != data && (data != null ==> Terminated(data, line))
    modifies lbuf
    ensures outpos <= LIMIT && lbuf[outpos] == '\0'
    ensures lbuf[..outpos] == if data == null then "~" else Cropped(Shown(line, |line|), LIMIT)
    ensures pos == if data != null && OnScreen(line, textx) then Column(line, textx) else linepos
  {
    outpos, pos := 0, linepos;
    if data == null {
      lbuf[0], lbuf[1] := '~', '\0';
      outpos := 1;
      return;
    }
    var i := 0;
    while outpos < LIMIT
      invariant i <= |line| && outpos <= LIMIT && lbuf[..outpos] == Cropped(Shown(line, i), LIMIT)
      invariant pos == if OnScreen(line, textx) && textx < i then Column(line, textx) else linepos
      decreases |line| - i
    {
      assert lbuf[..outpos] == Shown(line, i);
      if i == textx {
        pos := outpos;
      }
      EndsAt(data, line, i);
      if data[i] == '\0' {
        break;
      }
      outpos := PutChar(lbuf, outpos, data[i], line, i);
      i := i + 1;
    }
    ghost var shown := Shown(line, i);
    ShownGrows(line, i, |line|);
    if |shown| >= LIMIT {
      CroppedMore(shown, Shown(line, |line|));
      if i < textx <= |line| {
        ColumnGrows(line, i, textx);
      }
    }
    lbuf[outpos] := '\0';
  }

  /** Going to the screen column of an index comes back to it: setpos undoes screenline's mapping. */
  lemma {:induction false} SetPosInverts(line: string, i: nat)
    requires i <= |line|
    ensures SetPos(line, Column(line, i)) == i
  {
    ColumnCovered(line, i);
    CoversOne(line, Column(line, i), i, SetPos(line, Column(line, i)));
  }
}
