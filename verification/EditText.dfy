/** The editor on values: a sequence of lines and a cursor, and what each key does to them. */
module EditText {
  import opened EditColumns
  import opened EditFile

  datatype Key = Up | Down | Left | Right | Home | End | PageUp | PageDown | Delete | Typed(c: Letter)

  /** The codes that stand for cursor keys are not text. */
  type Letter = c: char | c as int < 256 && !CursorCode(c as int) witness 'a'

  predicate CursorCode(code: int) {
    code in [1, 2, 6, 14, 16] || code in [133, 135, 136, 137]
  }

  /** What read_key returns: a character, the code of an escape sequence, or -1 for an unknown one. */
  type Code = code: int | -1 <= code < 256

  /** The key of a code; -1 is ignored in the same way as 255. */
  function KeyOf(code: Code): Key {
    match code
    case 16 => Up
    case 14 => Down
    case 2 => Left
    case 6 => Right
    case 1 => Home
    case 133 => End
    case 135 => PageUp
    case 136 => PageDown
    case 137 => Delete
    case _ => Typed(if code == -1 then 255 as char else code as char)
  }

  function KeysOf(codes: seq<Code>): (keys: seq<Key>)
    ensures |keys| == |codes|
  {
    seq(|codes|, i requires 0 <= i < |codes| => KeyOf(codes[i]))
  }

  /** Ctrl-D saves and leaves, Ctrl-C leaves. */
  const SAVE: Key := Typed(4 as char)
  const QUIT: Key := Typed(3 as char)

  predicate Leaves(key: Key) {
    key == SAVE || key == QUIT
  }

  predicate Stays(keys: seq<Key>) {
    forall i :: 0 <= i < |keys| ==> !Leaves(keys[i])
  }

  /** How many keys are handled before one leaves the editor. */
  function Handled(keys: seq<Key>): (n: nat)
    ensures n <= |keys| && Stays(keys[..n]) && (n < |keys| ==> Leaves(keys[n]))
  {
    if keys == [] || Leaves(keys[0]) then 0 else
    var n := 1 + Handled(keys[1..]);
    assert keys[..n] == [keys[0]] + keys[1..][..n - 1];
    n
  }

  lemma {:induction false} HandledIs(keys: seq<Key>, n: nat)
    requires n <= |keys| && Stays(keys[..n]) && (n < |keys| ==> Leaves(keys[n]))
    ensures n == Handled(keys)
  {
    if n > 0 {
      assert !Leaves(keys[..n][0]);
      assert keys[1..][..n - 1] == keys[..n][1..];
      HandledIs(keys[1..], n - 1);
    }
  }

  /**
   col may be outside the line until the next Look; linepos is the screen column of the last Look that had one; a
   page key goes up to page lines.
   */
  datatype Text = Text(lines: seq<string>, row: nat, col: int, linepos: int, page: nat)

  predicate Ok(t: Text) {
    t.row < |t.lines| && AllClean(t.lines)
  }

  predicate InLine(t: Text) {
    Ok(t) && 0 <= t.col <= |t.lines[t.row]|
  }

  /** The start of each round: the cursor is brought into its line and its column taken. */
  function Look(t: Text): (r: Text)
    requires Ok(t)
    ensures InLine(r) && r.lines == t.lines && r.row == t.row
    ensures 0 <= t.col <= |t.lines[t.row]| ==> r.col == t.col
  {
    var line := t.lines[t.row];
    var col := if t.col > |line| then |line| else if t.col < 1 then 0 else t.col;
    t.(col := col, linepos := if OnScreen(line, col) then Column(line, col) else t.linepos)
  }

  function InsertChar(line: string, x: nat, c: char): string
    requires x <= |line|
  {
    if c == '\0' then line[..x] else line[..x] + [c] + line[x..]
  }

  function DeleteChar(line: string, x: nat): string
    requires x <= |line|
  {
    if x < |line| then line[..x] + line[x + 1..] else line
  }

  function SplitLine(lines: seq<string>, row: nat, x: nat): seq<string>
    requires row < |lines| && x <= |lines[row]|
  {
    lines[..row] + [lines[row][..x], lines[row][x..]] + lines[row + 1..]
  }

  function MergeLine(lines: seq<string>, row: nat): seq<string>
    requires row + 1 < |lines|
  {
    lines[..row] + [lines[row] + lines[row + 1]] + lines[row + 2..]
  }

  function Backspace(t: Text): Text
    requires InLine(t)
  {
    if t.col > 0 then t.(lines := t.lines[t.row := DeleteChar(t.lines[t.row], t.col - 1)], col := t.col - 1)
    else if t.row > 0 then t.(lines := MergeLine(t.lines, t.row - 1), row := t.row - 1, col := |t.lines[t.row - 1]|)
    else t
  }

  /** Sets the cursor to another line, as close to its column as the line allows. */
  function GoTo(t: Text, row: nat): Text
    requires row < |t.lines|
  {
    t.(row := row, col := SetPos(t.lines[row], t.linepos))
  }

  function Type(t: Text, c: char): Text
    requires InLine(t)
  {
    if c == '\r' || c == '\n' then t.(lines := SplitLine(t.lines, t.row, t.col), row := t.row + 1, col := 0)
    else if c as int == 127 || c as int == 8 then Backspace(t)
    else if c as int == 255 then t
    else t.(lines := t.lines[t.row := InsertChar(t.lines[t.row], t.col, c)], col := t.col + 1)
  }

  function Act(t: Text, key: Key): Text
    requires InLine(t) && !Leaves(key)
  {
    var line := t.lines[t.row];
    match key
    case Up => if t.row == 0 then t else GoTo(t, t.row - 1)
    case Down => if t.row + 1 == |t.lines| then t else GoTo(t, t.row + 1)
    case Left => t.(col := t.col - 1)
    case Right => t.(col := t.col + 1)
    case Home => t.(col := 0)
    case End => t.(col := |line|)
    case PageUp => GoTo(t, if t.row <= t.page then 0 else t.row - t.page)
    case PageDown => GoTo(t, if t.row + t.page < |t.lines| then t.row + t.page else |t.lines| - 1)
    case Delete =>
      if t.col < |line| then t.(lines := t.lines[t.row := DeleteChar(line, t.col)])
      else if t.row + 1 < |t.lines| then t.(lines := MergeLine(t.lines, t.row))
      else t
    case Typed(c) => Type(t, c)
  }

  /** One round of the main loop. */
  function Press(t: Text, key: Key): (r: Text)
    requires Ok(t) && !Leaves(key)
    ensures Ok(r)
  {
    ActOk(Look(t), key);
    Act(Look(t), key)
  }

  function Session(t: Text, keys: seq<Key>): (r: Text)
    requires Ok(t) && Stays(keys)
    ensures Ok(r)
  {
    if keys == [] then t else Press(Session(t, keys[..|keys| - 1]), keys[|keys| - 1])
  }

  lemma {:induction false} InsertClean(line: string, x: nat, c: char)
    requires Clean(line) && x <= |line| && c != '\n'
    ensures Clean(InsertChar(line, x, c))
  {
  }

  lemma {:induction false} ActOk(t: Text, key: Key)
    requires InLine(t) && !Leaves(key)
    ensures Ok(Act(t, key))
  {
    var line := t.lines[t.row];
    assert Clean(line);
    if key.Typed? && key.c != '\n' {
      InsertClean(line, t.col, key.c);
    }
    if t.row > 0 {
      assert Clean(t.lines[t.row - 1]);
    }
    if t.row + 1 < |t.lines| {
      assert Clean(t.lines[t.row + 1]);
    }
  }

  /** A character that is put into the text as it is. */
  predicate Printing(c: Letter) {
    c !in ['\0', '\r', '\n'] && c as int !in [3, 4, 8, 127, 255]
  }

  const BACKSPACE: Key := Typed(8 as char)
  const NEWLINE: Key := Typed('\n')

  /** Same lines, cursor at the same place. */
  predicate Same(t: Text, u: Text) {
    t.lines == u.lines && t.row == u.row && t.col == u.col
  }

  /** Typing a character and taking it back. */
  lemma {:induction false} InsertBackspace(t: Text, c: Letter)
    requires Ok(t) && Printing(c)
    ensures Same(Press(Press(t, Typed(c)), BACKSPACE), Look(t))
  {
    var u := Look(t);
    var line, x := u.lines[u.row], u.col;
    var typed := InsertChar(line, x, c);
    assert DeleteChar(typed, x) == line;
    assert u.lines[u.row := typed][u.row := line] == u.lines;
  }

  /** Breaking a line and joining it again. */
  lemma {:induction false} NewlineBackspace(t: Text)
    requires Ok(t)
    ensures Same(Press(Press(t, NEWLINE), BACKSPACE), Look(t))
  {
    var u := Look(t);
    var line, x, n := u.lines[u.row], u.col, u.row;
    var split := SplitLine(u.lines, n, x);
    assert split[n] == line[..x] && split[n + 1] == line[x..];
    assert line[..x] + line[x..] == line;
    assert split[..n] == u.lines[..n] && split[n + 2..] == u.lines[n + 1..];
    assert MergeLine(split, n) == u.lines;
  }

  function Letters(cs: seq<Letter>): (keys: seq<Key>)
    ensures |keys| == |cs|
  {
    seq(|cs|, i requires 0 <= i < |cs| => Typed(cs[i]))
  }

  predicate AllPrinting(cs: seq<Letter>) {
    forall i :: 0 <= i < |cs| ==> Printing(cs[i])
  }

  /** Letters that are typed stand in the cursor's line before the cursor, and every other line stays. */
  lemma {:induction false} TypeText(t: Text, cs: seq<Letter>)
    requires Ok(t) && AllPrinting(cs)
    ensures Stays(Letters(cs))
    ensures var u, r := Look(t), Look(Session(t, Letters(cs)));
            var line, x := u.lines[u.row], u.col;
            && r.lines == u.lines[u.row := line[..x] + cs + line[x..]]
            && r.row == u.row && r.col == x + |cs|
  {
    hide *;
    var u := Look(t);
    LookInLine(u);
    if cs == [] {
      TypeNothing(t);
    } else {
      var n := |cs| - 1;
      var some, c := cs[..n], cs[n];
      LettersNext(t, cs);
      TypeText(t, some);
      TypeLetter(Look(Session(t, Letters(some))), c);
      TypedOn(u.lines, u.row, u.col, some, c);
      assert some + [c] == cs;
    }
  }

  lemma {:induction false} LookInLine(t: Text)
    requires InLine(t)
    ensures t.row < |t.lines| && 0 <= t.col <= |t.lines[t.row]|
  {
  }

  lemma {:induction false} TypeNothing(t: Text)
    requires Ok(t)
    ensures Stays(Letters([])) && Session(t, Letters([])) == t
    ensures var u := Look(t);
            var line, x := u.lines[u.row], u.col;
            u.lines[u.row := line[..x] + [] + line[x..]] == u.lines
  {
    var u := Look(t);
    var line, x := u.lines[u.row], u.col;
    assert line[..x] + [] + line[x..] == line;
  }

  lemma {:induction false} LettersNext(t: Text, cs: seq<Letter>)
    requires Ok(t) && AllPrinting(cs) && cs != []
    ensures var some, c := cs[..|cs| - 1], cs[|cs| - 1];
            && AllPrinting(some) && Printing(c) && Stays(Letters(cs)) && Stays(Letters(some)) && !Leaves(Typed(c))
            && Session(t, Letters(cs)) == Act(Look(Session(t, Letters(some))), Typed(c))
  {
    assert Letters(cs)[..|cs| - 1] == Letters(cs[..|cs| - 1]);
  }

  lemma {:induction false} TypedOn(lines: seq<string>, row: nat, x: nat, some: string, c: char)
    requires row < |lines| && x <= |lines[row]|
    ensures var line := lines[row];
            var typed := line[..x] + some + line[x..];
            var y := x + |some|;
            lines[row := typed][row := typed[..y] + [c] + typed[y..]]
            == lines[row := line[..x] + (some + [c]) + line[x..]]
  {
    var line, y := lines[row], x + |some|;
    var typed := line[..x] + some + line[x..];
    assert typed[..y] + [c] + typed[y..] == line[..x] + (some + [c]) + line[x..];
  }

  lemma {:induction false} TypeLetter(t: Text, c: Letter)
    requires InLine(t) && Printing(c)
    ensures !Leaves(Typed(c))
    ensures var r, line, x := Look(Act(t, Typed(c))), t.lines[t.row], t.col;
            && r.lines == t.lines[t.row := line[..x] + [c] + line[x..]]
            && r.row == t.row && r.col == x + 1
  {
    ActOk(t, Typed(c));
  }
}
