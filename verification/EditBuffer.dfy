/** What the editor is for: a string with a cursor in it, and every code of read_key as a change of that string. */
module EditBuffer {
  import opened EditColumns
  import opened EditFile
  import opened EditText

  /** The file as it would be saved, the place of the cursor in it, and the column a move up or down aims at. */
  datatype Buffer = Buffer(chars: string, at: nat, aim: int)

  /** Every line ends in a newline, and the cursor is on one of its characters or on the newline. */
  predicate Ended(s: string) {
    s != "" ==> s[|s| - 1] == '\n'
  }

  predicate Proper(b: Buffer) {
    b.at < |b.chars| && Ended(b.chars)
  }

  /** Where the line begins that i is in. */
  function Start(s: string, i: nat): (r: nat)
    requires i <= |s|
    ensures r <= i
  {
    if i == 0 || s[i - 1] == '\n' then i else Start(s, i - 1)
  }

  /** Where it ends. */
  function Stop(s: string, i: nat): (r: nat)
    requires i < |s| && Ended(s)
    ensures i <= r < |s|
    decreases |s| - i
  {
    if s[i] == '\n' then i else Stop(s, i + 1)
  }

  /** Where the line begins that is n lines up, or as many as there are. */
  function Above(s: string, i: nat, n: nat): (r: nat)
    requires i < |s|
    ensures r <= i
    decreases n
  {
    var r := Start(s, i);
    if n == 0 || r == 0 then r else Above(s, r - 1, n - 1)
  }

  /** The same for n lines down. */
  function Below(s: string, i: nat, n: nat): (r: nat)
    requires i < |s| && Ended(s)
    ensures r < |s|
    decreases n
  {
    var next := Stop(s, i) + 1;
    if n == 0 || next == |s| then Start(s, i) else Below(s, next, n - 1)
  }

  /** The cursor at the column it aims at in the line that begins at r. */
  function Aim(b: Buffer, r: nat): (c: Buffer)
    requires r < |b.chars| && Ended(b.chars)
    ensures Proper(c)
  {
    b.(at := r + SetPos(b.chars[r..Stop(b.chars, r)], b.aim))
  }

  function Insert(b: Buffer, c: char): Buffer
    requires Proper(b)
  {
    b.(chars := b.chars[..b.at] + [c] + b.chars[b.at..], at := b.at + 1)
  }

  function Remove(b: Buffer, i: nat): Buffer
    requires i < |b.chars|
  {
    b.(chars := b.chars[..i] + b.chars[i + 1..], at := i)
  }

  /** The rest of the cursor's line taken away. */
  function CutLine(b: Buffer): Buffer
    requires Proper(b)
  {
    b.(chars := b.chars[..b.at] + b.chars[Stop(b.chars, b.at)..])
  }

  /** CTL_CH of include/readkey.h */
  function Ctrl(c: char): int {
    c as int - 'a' as int + 1
  }

  const END: Code := 133
  const PAGE_UP: Code := 135
  const PAGE_DOWN: Code := 136
  const DELETE: Code := 137

  /** What a code does to the string and the cursor; Ctrl-C and Ctrl-D leave the editor. */
  function Change(b: Buffer, page: nat, code: Code): (c: Buffer)
    requires Proper(b)
    ensures Proper(c)
  {
    var s, start, stop := b.chars, Start(b.chars, b.at), Stop(b.chars, b.at);
    if code == Ctrl('p') then if start == 0 then b else Aim(b, Above(s, b.at, 1))
    else if code == Ctrl('n') then if stop + 1 == |s| then b else Aim(b, Below(s, b.at, 1))
    else if code == Ctrl('b') then if b.at == start then b else b.(at := b.at - 1)
    else if code == Ctrl('f') then if b.at == stop then b else b.(at := b.at + 1)
    else if code == Ctrl('a') then b.(at := start)
    else if code == END then b.(at := stop)
    else if code == PAGE_UP then Aim(b, Above(s, b.at, page))
    else if code == PAGE_DOWN then Aim(b, Below(s, b.at, page))
    else if code == DELETE then if b.at + 1 == |s| then b else Remove(b, b.at)
    else if code in ['\r' as int, '\n' as int] then Insert(b, '\n')
    else if code in [8, 127] then if b.at == 0 then b else Remove(b, b.at - 1)
    else if code == 0 then CutLine(b)
    else if code in [-1, 255] then b
    else Insert(b, code as char)
  }

  /** The cursor's column is what the next move up or down aims at, if it is on the screen. */
  function Settled(b: Buffer): (c: Buffer)
    requires Proper(b)
    ensures Proper(c)
  {
    var start := Start(b.chars, b.at);
    var line := b.chars[start..Stop(b.chars, b.at)];
    if OnScreen(line, b.at - start) then b.(aim := Column(line, b.at - start)) else b
  }

  function Handle(b: Buffer, page: nat, codes: seq<Code>): (c: Buffer)
    requires Proper(b)
    ensures Proper(c)
  {
    if codes == [] then b else Settled(Change(Handle(b, page, codes[..|codes| - 1]), page, codes[|codes| - 1]))
  }

  // ---- the lines as one string -------------------------------------------------------------------------------

  /** The text of the editor with its cursor in its line. */
  function Whole(t: Text): (b: Buffer)
    requires InLine(t)
    ensures Proper(b)
  {
    Around(t.lines, t.row);
    Buffer(Save(t.lines), |Save(t.lines[..t.row])| + t.col, t.linepos)
  }

  lemma {:induction false} SaveEnded(lines: seq<string>)
    ensures Ended(Save(lines)) && (Save(lines) == "" <==> lines == [])
  {
    if lines != [] {
      SaveEnded(lines[1..]);
    }
  }

  /** A line between what comes before and behind it. */
  lemma {:induction false} Around(lines: seq<string>, row: nat)
    requires row < |lines|
    ensures var pre, post := Save(lines[..row]), Save(lines[row + 1..]);
            && Save(lines) == pre + lines[row] + "\n" + post
            && Ended(pre) && Ended(post) && Ended(Save(lines)) && (pre == "" <==> row == 0)
            && (post == "" <==> row + 1 == |lines|)
  {
    var pre, post := lines[..row], lines[row + 1..];
    SaveEnded(lines);
    SaveEnded(pre);
    SaveEnded(post);
    hide Save;
    SaveAppend(pre, [lines[row]] + post);
    SaveOne(lines[row], post);
    assert pre + ([lines[row]] + post) == lines;
    assert Save(pre) + (lines[row] + "\n" + Save(post)) == Save(pre) + lines[row] + "\n" + Save(post);
  }

  lemma {:induction false} StartIs(s: string, i: nat, r: nat)
    requires r <= i <= |s| && (r == 0 || s[r - 1] == '\n') && '\n' !in s[r..i]
    ensures Start(s, i) == r
  {
    if r < i {
      assert s[i - 1] == s[r..i][i - 1 - r];
      assert s[r..i - 1] == s[r..i][..i - 1 - r];
      StartIs(s, i - 1, r);
    }
  }

  lemma {:induction false} StopIs(s: string, i: nat, r: nat)
    requires Ended(s) && i <= r < |s| && s[r] == '\n' && '\n' !in s[i..r]
    ensures Stop(s, i) == r
    decreases r - i
  {
    if i < r {
      assert s[i] == s[i..r][0];
      assert s[i + 1..r] == s[i..r][1..];
      StopIs(s, i + 1, r);
    }
  }

  /** The bounds of a line between what comes before and behind it. */
  lemma {:induction false} Framed(pre: string, line: string, post: string, k: nat)
    requires Ended(pre) && Ended(post) && '\n' !in line && k <= |line|
    ensures var s := pre + line + "\n" + post;
            && Ended(s) && Start(s, |pre| + k) == |pre| && Stop(s, |pre| + k) == |pre| + |line|
            && s[|pre|..|pre| + |line|] == line
  {
    var s := pre + line + "\n" + post;
    hide Start, Stop;
    Slices(pre, line, post, k);
    StartIs(s, |pre| + k, |pre|);
    StopIs(s, |pre| + k, |pre| + |line|);
  }

  lemma {:induction false} Slices(pre: string, line: string, post: string, k: nat)
    requires k <= |line|
    ensures var s, p := pre + line + "\n" + post, |pre|;
            && s[p..p + |line|] == line && s[p..p + k] == line[..k] && s[p + k..p + |line|] == line[k..]
            && s[p + |line|] == '\n' && (p > 0 ==> s[p - 1] == pre[p - 1])
  {
    var s, p := pre + line + "\n" + post, |pre|;
    assert s[p..p + |line|] == line;
    assert s[p..p + k] == s[p..p + |line|][..k];
    assert s[p + k..p + |line|] == s[p..p + |line|][k..];
  }

  /** The same for the line of the cursor. */
  lemma {:induction false} Bounds(lines: seq<string>, row: nat, k: nat)
    requires row < |lines| && AllClean(lines) && k <= |lines[row]|
    ensures var s, p := Save(lines), |Save(lines[..row])|;
            && Ended(s) && p + |lines[row]| < |s| && Start(s, p + k) == p && Stop(s, p + k) == p + |lines[row]|
            && s[p..p + |lines[row]|] == lines[row]
            && (p == 0 <==> row == 0) && (p + |lines[row]| + 1 == |s| <==> row + 1 == |lines|)
  {
    Around(lines, row);
    assert Clean(lines[row]);
    hide Save, Start, Stop;
    Framed(Save(lines[..row]), lines[row], Save(lines[row + 1..]), k);
  }

  /** The place of the line before. */
  lemma {:induction false} Before(lines: seq<string>, row: nat)
    requires 0 < row <= |lines|
    ensures |Save(lines[..row])| == |Save(lines[..row - 1])| + |lines[row - 1]| + 1
  {
    var up := lines[..row];
    assert up == up[..row - 1] + [lines[row - 1]] && up[..row - 1] == lines[..row - 1];
    SaveAppend(lines[..row - 1], [lines[row - 1]]);
    SaveOne(lines[row - 1], []);
  }

  lemma {:induction false} AboveIs(lines: seq<string>, row: nat, k: nat, n: nat)
    requires row < |lines| && AllClean(lines) && k <= |lines[row]|
    ensures var s, p := Save(lines), |Save(lines[..row])|;
            p + k < |s| && Above(s, p + k, n) == |Save(lines[..if row <= n then 0 else row - n])|
    decreases n
  {
    Bounds(lines, row, k);
    hide Save, Start, Stop, AllClean;
    if n > 0 && row > 0 {
      Before(lines, row);
      AboveIs(lines, row - 1, |lines[row - 1]|, n - 1);
    }
  }

  lemma {:induction false} BelowIs(lines: seq<string>, row: nat, k: nat, n: nat)
    requires row < |lines| && AllClean(lines) && k <= |lines[row]|
    ensures var s, p := Save(lines), |Save(lines[..row])|;
            var down := if row + n < |lines| then row + n else |lines| - 1;
            Ended(s) && p + k < |s| && Below(s, p + k, n) == |Save(lines[..down])|
    decreases n
  {
    Bounds(lines, row, k);
    hide Save, Start, Stop, AllClean;
    if n > 0 && row + 1 < |lines| {
      Before(lines, row + 1);
      BelowIs(lines, row + 1, 0, n - 1);
    }
  }

  // ---- one code ------------------------------------------------------------------------------------------------

  /** Taking the column. */
  lemma {:induction false} WholeLook(t: Text)
    requires InLine(t)
    ensures Whole(Look(t)) == Settled(Whole(t))
  {
    hide *;
    LookIs(t);
    SettledIs(t);
  }

  lemma {:induction false} LookIs(t: Text)
    requires InLine(t)
    ensures var line := t.lines[t.row];
            && 0 <= t.col <= |line|
            && Whole(Look(t))
               == if OnScreen(line, t.col) then Whole(t).(aim := Column(line, t.col)) else Whole(t)
  {
    hide Save, AllClean, Column, LIMIT;
  }

  lemma {:induction false} SettledIs(t: Text)
    requires InLine(t)
    ensures var line := t.lines[t.row];
            && 0 <= t.col <= |line|
            && Settled(Whole(t))
               == if OnScreen(line, t.col) then Whole(t).(aim := Column(line, t.col)) else Whole(t)
  {
    Bounds(t.lines, t.row, t.col);
    hide Save, AllClean, Column, OnScreen, Start, Stop;
  }

  lemma {:induction false} Longer(pre: string, line: string, post: string, x: nat, c: char, aim: int)
    requires x <= |line| && Ended(post)
    ensures Insert(Buffer(pre + line + "\n" + post, |pre| + x, aim), c)
            == Buffer(pre + (line[..x] + [c] + line[x..]) + "\n" + post, |pre| + x + 1, aim)
  {
    var s, p := pre + line + "\n" + post, |pre| + x;
    assert s[..p] + [c] + s[p..] == pre + (line[..x] + [c] + line[x..]) + "\n" + post;
  }

  lemma {:induction false} Shorter(pre: string, line: string, post: string, x: nat, at: nat, aim: int)
    requires x < |line|
    ensures Remove(Buffer(pre + line + "\n" + post, at, aim), |pre| + x)
            == Buffer(pre + (line[..x] + line[x + 1..]) + "\n" + post, |pre| + x, aim)
  {
    var s, p := pre + line + "\n" + post, |pre| + x;
    assert s[..p] + s[p + 1..] == pre + (line[..x] + line[x + 1..]) + "\n" + post;
  }

  lemma {:induction false} Ending(pre: string, line: string, post: string, x: nat, aim: int)
    requires Ended(pre) && Ended(post) && '\n' !in line && x <= |line|
    ensures CutLine(Buffer(pre + line + "\n" + post, |pre| + x, aim))
            == Buffer(pre + line[..x] + "\n" + post, |pre| + x, aim)
  {
    Framed(pre, line, post, x);
    EndOf(pre, line, post, x);
    hide Stop, Start, Ended;
  }

  lemma {:induction false} EndOf(pre: string, line: string, post: string, x: nat)
    requires x <= |line|
    ensures var s, p := pre + line + "\n" + post, |pre| + x;
            s[..p] + s[|pre| + |line|..] == pre + line[..x] + "\n" + post
  {
  }

  lemma {:induction false} Broken(pre: string, line: string, post: string, x: nat)
    requires x <= |line|
    ensures pre + (line[..x] + "\n" + line[x..]) + "\n" + post == pre + (line[..x] + "\n" + (line[x..] + "\n" + post))
  {
  }

  lemma {:induction false} Joined(pre: string, line: string, next: string, post: string)
    ensures var s, p := pre + line + "\n" + (next + "\n" + post), |pre| + |line|;
            s[..p] + s[p + 1..] == pre + (line + next) + "\n" + post
  {
  }

  /** Another line in place of one. */
  lemma {:induction false} SaveLine(lines: seq<string>, row: nat, line: string)
    requires row < |lines|
    ensures var pre := Save(lines[..row]);
            && Save(lines[row := line]) == pre + line + "\n" + Save(lines[row + 1..])
            && Save(lines[row := line][..row]) == pre
  {
    Around(lines[row := line], row);
    assert lines[row := line][..row] == lines[..row] && lines[row := line][row + 1..] == lines[row + 1..];
  }

  lemma {:induction false} SaveSplit(lines: seq<string>, row: nat, x: nat)
    requires row < |lines| && x <= |lines[row]|
    ensures var pre, line, post := Save(lines[..row]), lines[row], Save(lines[row + 1..]);
            && Save(SplitLine(lines, row, x)) == pre + (line[..x] + "\n" + (line[x..] + "\n" + post))
            && |SplitLine(lines, row, x)| == |lines| + 1
            && |Save(SplitLine(lines, row, x)[..row + 1])| == |pre| + x + 1
  {
    hide Save;
    var first, second, more := lines[row][..x], lines[row][x..], lines[row + 1..];
    var split := SplitLine(lines, row, x);
    assert split == lines[..row] + ([first] + ([second] + more));
    SaveAppend(lines[..row], [first] + ([second] + more));
    SaveOne(first, [second] + more);
    SaveOne(second, more);
    assert split[..row + 1] == lines[..row] + [first];
    SaveAppend(lines[..row], [first]);
    SaveOne(first, []);
  }

  lemma {:induction false} SaveMerge(lines: seq<string>, row: nat)
    requires row + 1 < |lines|
    ensures var pre, line, next, post := Save(lines[..row]), lines[row], lines[row + 1], Save(lines[row + 2..]);
            && Save(lines) == pre + line + "\n" + (next + "\n" + post)
            && Save(MergeLine(lines, row)) == pre + (line + next) + "\n" + post
            && Save(MergeLine(lines, row)[..row]) == pre
  {
    hide Save;
    var line, next, more := lines[row], lines[row + 1], lines[row + 2..];
    Around(lines, row);
    assert lines[row + 1..] == [next] + more;
    SaveOne(next, more);
    var merged := MergeLine(lines, row);
    assert merged[..row] == lines[..row] && merged[row + 1..] == more && merged[row] == line + next;
    Around(merged, row);
  }

  /** A cursor outside its line is brought back before its column is taken. */
  lemma {:induction false} LookBack(t: Text, u: Text)
    requires Ok(t) && InLine(u) && u == t.(col := u.col)
    requires u.col == if t.col > |t.lines[t.row]| then |t.lines[t.row]| else if t.col < 1 then 0 else t.col
    ensures Look(t) == Look(u)
  {
  }

  function Pre(t: Text): string
    requires Ok(t)
  {
    Save(t.lines[..t.row])
  }

  function Post(t: Text): string
    requires Ok(t)
  {
    Save(t.lines[t.row + 1..])
  }

  lemma {:induction false} WholeIs(t: Text)
    requires InLine(t)
    ensures Whole(t) == Buffer(Pre(t) + t.lines[t.row] + "\n" + Post(t), |Pre(t)| + t.col, t.linepos)
    ensures Clean(t.lines[t.row]) && Ended(Pre(t)) && Ended(Post(t))
  {
    Around(t.lines, t.row);
  }

  /** Another line for the one of the cursor. */
  function Put(t: Text, line: string, x: nat): Text
    requires Ok(t)
  {
    t.(lines := t.lines[t.row := line], col := x)
  }

  lemma {:induction false} PutIs(t: Text, line: string, x: nat)
    requires InLine(t) && Clean(line) && x <= |line|
    ensures InLine(Put(t, line, x))
    ensures Whole(Put(t, line, x)) == Buffer(Pre(t) + line + "\n" + Post(t), |Pre(t)| + x, t.linepos)
  {
    SaveLine(t.lines, t.row, line);
    hide Save;
  }

  lemma {:induction false} PartsClean(line: string, x: nat, c: char)
    requires Clean(line) && x <= |line| && c !in ['\0', '\n']
    ensures Clean(line[..x] + [c] + line[x..]) && Clean(line[..x]) && '\n' !in line
    ensures x < |line| ==> Clean(line[..x] + line[x + 1..])
  {
  }

  lemma {:induction false} Typing(t: Text, c: char)
    requires InLine(t) && c !in ['\0', '\n']
    ensures var line, x := t.lines[t.row], t.col;
            var u := Put(t, line[..x] + [c] + line[x..], x + 1);
            InLine(u) && Whole(u) == Insert(Whole(t), c)
  {
    hide *;
    Parts(t);
    var line, x := t.lines[t.row], t.col;
    WholeIs(t);
    PartsClean(line, x, c);
    PutIs(t, line[..x] + [c] + line[x..], x + 1);
    Longer(Pre(t), line, Post(t), x, c, t.linepos);
  }

  lemma {:induction false} Cutting(t: Text)
    requires InLine(t)
    ensures var u := Put(t, t.lines[t.row][..t.col], t.col);
            InLine(u) && Whole(u) == CutLine(Whole(t))
  {
    hide *;
    Parts(t);
    var line, x := t.lines[t.row], t.col;
    WholeIs(t);
    PartsClean(line, x, ' ');
    PutIs(t, line[..x], x);
    Ending(Pre(t), line, Post(t), x, t.linepos);
  }

  function Split(t: Text): (u: Text)
    requires InLine(t)
  {
    t.(lines := SplitLine(t.lines, t.row, t.col), row := t.row + 1, col := 0)
  }

  lemma {:induction false} SplitIs(t: Text)
    requires InLine(t)
    ensures InLine(Split(t))
    ensures var line, x := t.lines[t.row], t.col;
            Whole(Split(t)) == Buffer(Pre(t) + (line[..x] + "\n" + (line[x..] + "\n" + Post(t))),
                                      |Pre(t)| + x + 1, t.linepos)
  {
    assert Clean(t.lines[t.row]);
    SaveSplit(t.lines, t.row, t.col);
    hide Save;
  }

  lemma {:induction false} Breaking(t: Text)
    requires InLine(t)
    ensures InLine(Split(t)) && Whole(Split(t)) == Insert(Whole(t), '\n')
  {
    hide *;
    Parts(t);
    var line, x := t.lines[t.row], t.col;
    WholeIs(t);
    SplitIs(t);
    Longer(Pre(t), line, Post(t), x, '\n', t.linepos);
    Broken(Pre(t), line, Post(t), x);
  }

  lemma {:induction false} Dropping(t: Text, x: nat)
    requires InLine(t) && x < |t.lines[t.row]|
    ensures var line := t.lines[t.row];
            var u := Put(t, line[..x] + line[x + 1..], x);
            && InLine(u) && |Pre(t)| + x < |Whole(t).chars|
            && Whole(u) == Remove(Whole(t), |Pre(t)| + x)
  {
    hide *;
    Parts(t);
    var line := t.lines[t.row];
    WholeIs(t);
    PartsClean(line, x, ' ');
    PutIs(t, line[..x] + line[x + 1..], x);
    Shorter(Pre(t), line, Post(t), x, Whole(t).at, t.linepos);
  }

  lemma {:induction false} Merging(t: Text, row: nat)
    requires Ok(t) && row + 1 < |t.lines|
    ensures var u := t.(lines := MergeLine(t.lines, row), row := row, col := |t.lines[row]|);
            var p := |Save(t.lines[..row])| + |t.lines[row]|;
            InLine(u) && p < |Save(t.lines)| && Whole(u) == Remove(Buffer(Save(t.lines), p, t.linepos), p)
  {
    assert Clean(t.lines[row]) && Clean(t.lines[row + 1]);
    SaveMerge(t.lines, row);
    hide Save;
    Joined(Save(t.lines[..row]), t.lines[row], t.lines[row + 1], Save(t.lines[row + 2..]));
  }

  lemma {:induction false} Going(t: Text, row: nat)
    requires InLine(t) && row < |t.lines|
    ensures |Save(t.lines[..row])| < |Save(t.lines)|
    ensures InLine(GoTo(t, row)) && Whole(GoTo(t, row)) == Aim(Whole(t), |Save(t.lines[..row])|)
  {
    Bounds(t.lines, row, 0);
    hide Save, SetPos, Start, Stop;
  }

  lemma {:induction false} Moving(t: Text, x: nat)
    requires InLine(t) && x <= |t.lines[t.row]|
    ensures InLine(t.(col := x)) && Whole(t.(col := x)) == Whole(t).(at := |Pre(t)| + x)
  {
    hide Save;
  }

  /** Where the cursor is in the string. */
  lemma {:induction false} Place(t: Text)
    requires InLine(t)
    ensures var b, line, p := Whole(t), t.lines[t.row], |Pre(t)|;
            && b.at == p + t.col && Start(b.chars, b.at) == p && Stop(b.chars, b.at) == p + |line|
            && (p == 0 <==> t.row == 0) && (p + |line| + 1 == |b.chars| <==> t.row + 1 == |t.lines|)
  {
    Bounds(t.lines, t.row, t.col);
    hide Save, Start, Stop;
  }

  // The changes of the text by kind; each gives the text with its cursor in the line again.

  lemma {:induction false} MoveCode(t: Text, code: Code) returns (u: Text)
    requires InLine(t) && code in [Ctrl('b'), Ctrl('f'), Ctrl('a'), END]
    ensures InLine(u) && !Leaves(KeyOf(code)) && Look(Act(t, KeyOf(code))) == Look(u)
    ensures Whole(u) == Change(Whole(t), t.page, code)
  {
    var line, x := t.lines[t.row], t.col;
    Place(t);
    var k := if code == Ctrl('b') then (if x == 0 then 0 else x - 1)
             else if code == Ctrl('f') then (if x == |line| then x else x + 1)
             else if code == END then |line| else 0;
    Moving(t, k);
    u := t.(col := k);
    hide Whole, Pre, Start, Stop, Column, LIMIT, AllClean;
    LookBack(Act(t, KeyOf(code)), u);
  }

  lemma {:induction false} Rising(t: Text, n: nat)
    requires InLine(t)
    ensures var u := GoTo(t, if t.row <= n then 0 else t.row - n);
            InLine(u) && Whole(u) == Aim(Whole(t), Above(Whole(t).chars, Whole(t).at, n))
  {
    hide *;
    Parts(t);
    AboveIs(t.lines, t.row, t.col, n);
    Going(t, if t.row <= n then 0 else t.row - n);
  }

  lemma {:induction false} Sinking(t: Text, n: nat)
    requires InLine(t)
    ensures var u := GoTo(t, if t.row + n < |t.lines| then t.row + n else |t.lines| - 1);
            InLine(u) && Whole(u) == Aim(Whole(t), Below(Whole(t).chars, Whole(t).at, n))
  {
    hide *;
    Parts(t);
    BelowIs(t.lines, t.row, t.col, n);
    Going(t, if t.row + n < |t.lines| then t.row + n else |t.lines| - 1);
  }

  lemma {:induction false} Parts(t: Text)
    requires InLine(t)
    ensures Ok(t) && t.row < |t.lines| && AllClean(t.lines) && 0 <= t.col <= |t.lines[t.row]|
    ensures Whole(t).chars == Save(t.lines) && Whole(t).at == |Save(t.lines[..t.row])| + t.col
    ensures Pre(t) == Save(t.lines[..t.row]) && Ended(Whole(t).chars) && Whole(t).aim == t.linepos
  {
    hide Save;
  }

  lemma {:induction false} ActUp(t: Text, code: Code)
    requires InLine(t) && code in [Ctrl('p'), PAGE_UP]
    ensures !Leaves(KeyOf(code))
    ensures var n := if code == PAGE_UP then t.page else 1;
            Act(t, KeyOf(code))
            == if code == Ctrl('p') && t.row == 0 then t else GoTo(t, if t.row <= n then 0 else t.row - n)
  {
    hide GoTo, AllClean;
  }

  lemma {:induction false} ChangeUp(b: Buffer, page: nat, code: Code)
    requires Proper(b) && code in [Ctrl('p'), PAGE_UP]
    ensures var n := if code == PAGE_UP then page else 1;
            Change(b, page, code)
            == if code == Ctrl('p') && Start(b.chars, b.at) == 0 then b else Aim(b, Above(b.chars, b.at, n))
  {
    hide Start, Stop, Above, Below, Aim;
  }

  lemma {:induction false} UpCode(t: Text, code: Code) returns (u: Text)
    requires InLine(t) && code in [Ctrl('p'), PAGE_UP]
    ensures InLine(u) && !Leaves(KeyOf(code)) && Act(t, KeyOf(code)) == u
    ensures Whole(u) == Change(Whole(t), t.page, code)
  {
    hide *;
    Place(t);
    Parts(t);
    Rising(t, if code == PAGE_UP then t.page else 1);
    ActUp(t, code);
    ChangeUp(Whole(t), t.page, code);
    u := Act(t, KeyOf(code));
  }

  lemma {:induction false} ActDown(t: Text, code: Code)
    requires InLine(t) && code in [Ctrl('n'), PAGE_DOWN]
    ensures !Leaves(KeyOf(code))
    ensures var n := if code == PAGE_DOWN then t.page else 1;
            Act(t, KeyOf(code))
            == if code == Ctrl('n') && t.row + 1 == |t.lines| then t
               else GoTo(t, if t.row + n < |t.lines| then t.row + n else |t.lines| - 1)
  {
    hide GoTo, AllClean;
  }

  lemma {:induction false} ChangeDown(b: Buffer, page: nat, code: Code)
    requires Proper(b) && code in [Ctrl('n'), PAGE_DOWN]
    ensures var n := if code == PAGE_DOWN then page else 1;
            Change(b, page, code)
            == if code == Ctrl('n') && Stop(b.chars, b.at) + 1 == |b.chars| then b
               else Aim(b, Below(b.chars, b.at, n))
  {
    hide Start, Stop, Above, Below, Aim;
  }

  lemma {:induction false} DownCode(t: Text, code: Code) returns (u: Text)
    requires InLine(t) && code in [Ctrl('n'), PAGE_DOWN]
    ensures InLine(u) && !Leaves(KeyOf(code)) && Act(t, KeyOf(code)) == u
    ensures Whole(u) == Change(Whole(t), t.page, code)
  {
    hide *;
    Place(t);
    Parts(t);
    Sinking(t, if code == PAGE_DOWN then t.page else 1);
    ActDown(t, code);
    ChangeDown(Whole(t), t.page, code);
    u := Act(t, KeyOf(code));
  }

  lemma {:induction false} ActDeletes(t: Text)
    requires InLine(t)
    ensures !Leaves(KeyOf(DELETE))
    ensures var line, x := t.lines[t.row], t.col;
            Act(t, KeyOf(DELETE))
            == if x < |line| then Put(t, line[..x] + line[x + 1..], x)
               else if t.row + 1 < |t.lines| then
                 t.(lines := MergeLine(t.lines, t.row), row := t.row, col := |t.lines[t.row]|)
               else t
  {
    hide MergeLine, AllClean;
  }

  lemma {:induction false} ChangeDelete(b: Buffer, page: nat)
    requires Proper(b)
    ensures Change(b, page, DELETE) == if b.at + 1 == |b.chars| then b else Remove(b, b.at)
  {
    hide Start, Stop, Above, Below, Aim, Remove;
  }

  lemma {:induction false} DeleteCode(t: Text, code: Code) returns (u: Text)
    requires InLine(t) && code == DELETE
    ensures InLine(u) && !Leaves(KeyOf(code)) && Act(t, KeyOf(code)) == u
    ensures Whole(u) == Change(Whole(t), t.page, code)
  {
    hide *;
    Place(t);
    Parts(t);
    ActDeletes(t);
    u := Act(t, KeyOf(code));
    ChangeDelete(Whole(t), t.page);
    if t.col < |t.lines[t.row]| {
      Dropping(t, t.col);
    } else if t.row + 1 < |t.lines| {
      Merging(t, t.row);
    }
  }

  lemma {:induction false} BackspaceCode(t: Text, code: Code) returns (u: Text)
    requires InLine(t) && code in [8, 127]
    ensures InLine(u) && !Leaves(KeyOf(code)) && Act(t, KeyOf(code)) == u
    ensures Whole(u) == Change(Whole(t), t.page, code)
  {
    hide *;
    u := Backspace(t);
    ActBacks(t, code);
    ChangeBack(Whole(t), t.page, code);
    Backing(t);
  }

  lemma {:induction false} ActBacks(t: Text, code: Code)
    requires InLine(t) && code in [8, 127]
    ensures !Leaves(KeyOf(code)) && Act(t, KeyOf(code)) == Backspace(t)
  {
    hide Backspace, AllClean;
  }

  lemma {:induction false} ChangeBack(b: Buffer, page: nat, code: Code)
    requires Proper(b) && code in [8, 127]
    ensures Change(b, page, code) == if b.at == 0 then b else Remove(b, b.at - 1)
  {
    hide Start, Stop, Above, Below, Aim, Remove;
  }

  lemma {:induction false} Backing(t: Text)
    requires InLine(t)
    ensures var b, u := Whole(t), Backspace(t);
            InLine(u) && Whole(u) == if b.at == 0 then b else Remove(b, b.at - 1)
  {
    Place(t);
    if t.col > 0 {
      Dropping(t, t.col - 1);
      hide Whole, Remove, Pre, Start, Stop, InLine;
    } else if t.row > 0 {
      BackJoins(t);
      hide Whole, Remove, Pre, Start, Stop, InLine;
    }
  }

  lemma {:induction false} BackJoins(t: Text)
    requires InLine(t) && t.col == 0 < t.row
    ensures var b, u := Whole(t), Backspace(t);
            0 < b.at && InLine(u) && Whole(u) == Remove(b, b.at - 1)
  {
    Before(t.lines, t.row);
    Merging(t, t.row - 1);
    hide Save, MergeLine;
  }

  lemma {:induction false} ActTypes(t: Text, code: Code)
    requires InLine(t) && !CursorCode(code) && code !in [3, 4, 8, 127]
    ensures !Leaves(KeyOf(code))
    ensures var line, x := t.lines[t.row], t.col;
            Act(t, KeyOf(code))
            == if code in [10, 13] then Split(t)
               else if code == 0 then Put(t, line[..x], x).(col := x + 1)
               else if code in [-1, 255] then t
               else Put(t, line[..x] + [code as char] + line[x..], x + 1)
  {
    hide SplitLine, AllClean;
  }

  lemma {:induction false} ChangeTypes(b: Buffer, page: nat, code: Code)
    requires Proper(b) && !CursorCode(code) && code !in [3, 4, 8, 127]
    ensures Change(b, page, code)
            == if code in [10, 13] then Insert(b, '\n') else if code == 0 then CutLine(b)
               else if code in [-1, 255] then b else Insert(b, code as char)
  {
    hide Start, Stop, Above, Below, Aim, Remove, Insert, CutLine;
  }

  lemma {:induction false} TypeCode(t: Text, code: Code) returns (u: Text)
    requires InLine(t) && !CursorCode(code) && code !in [3, 4, 8, 127]
    ensures InLine(u) && !Leaves(KeyOf(code)) && Ok(Act(t, KeyOf(code))) && Look(Act(t, KeyOf(code))) == Look(u)
    ensures Whole(u) == Change(Whole(t), t.page, code)
  {
    hide *;
    Parts(t);
    ActTypes(t, code);
    ChangeTypes(Whole(t), t.page, code);
    ActOk(t, KeyOf(code));
    var line, x := t.lines[t.row], t.col;
    u := Act(t, KeyOf(code));
    if code in [10, 13] {
      Breaking(t);
    } else if code == 0 {
      Cutting(t);
      u := Put(t, line[..x], x);
      CutLook(t);
    } else if code !in [-1, 255] {
      Typing(t, code as char);
    }
  }

  lemma {:induction false} CutLook(t: Text)
    requires InLine(t)
    ensures var u := Put(t, t.lines[t.row][..t.col], t.col);
            Ok(u.(col := t.col + 1)) ==> Ok(u) && Look(u.(col := t.col + 1)) == Look(u)
  {
  }

  /** One code does to the string what the main loop of the editor does to the lines. */
  lemma {:induction false} OneCode(t: Text, code: Code)
    requires InLine(t) && code !in [3, 4]
    ensures !Leaves(KeyOf(code)) && Ok(Act(t, KeyOf(code)))
    ensures Whole(Look(Act(t, KeyOf(code)))) == Settled(Change(Whole(t), t.page, code))
  {
    hide Whole, Look, Act, Settled, Change, KeyOf, InLine, Ok, Leaves;
    var u: Text;
    if code in [Ctrl('b'), Ctrl('f'), Ctrl('a'), END] {
      u := MoveCode(t, code);
    } else if code in [Ctrl('p'), PAGE_UP] {
      u := UpCode(t, code);
    } else if code in [Ctrl('n'), PAGE_DOWN] {
      u := DownCode(t, code);
    } else if code == DELETE {
      u := DeleteCode(t, code);
    } else if code in [8, 127] {
      u := BackspaceCode(t, code);
    } else {
      u := TypeCode(t, code);
    }
    ActOk(t, KeyOf(code));
    WholeLook(u);
  }

  // ---- whole sessions ------------------------------------------------------------------------------------------

  predicate NoneLeaves(codes: seq<Code>) {
    forall i :: 0 <= i < |codes| ==> codes[i] !in [3, 4]
  }

  lemma {:induction false} NoCodeLeaves(codes: seq<Code>)
    requires forall i :: 0 <= i < |codes| ==> Plain(codes[i]) || codes[i] in [8, 10, 13, 127] || codes[i] == DELETE
    ensures NoneLeaves(codes)
  {
  }

  lemma {:induction false} PageStays(t: Text, key: Key)
    requires InLine(t) && !Leaves(key)
    ensures Act(t, key).page == t.page
  {
  }

  lemma {:induction false} SessionNext(t: Text, codes: seq<Code>, code: Code)
    requires Ok(t) && Stays(KeysOf(codes)) && !Leaves(KeyOf(code))
    ensures Stays(KeysOf(codes + [code]))
    ensures Session(t, KeysOf(codes + [code])) == Act(Look(Session(t, KeysOf(codes))), KeyOf(code))
    ensures Look(Session(t, KeysOf(codes))).page == Session(t, KeysOf(codes)).page
  {
    var keys := KeysOf(codes + [code]);
    assert keys[..|codes|] == KeysOf(codes);
  }

  lemma {:induction false} SessionNone(t: Text)
    requires Ok(t)
    ensures Stays(KeysOf([])) && Session(t, KeysOf([])) == t
    ensures Handle(Whole(Look(t)), t.page, []) == Whole(Look(t))
  {
  }

  lemma {:induction false} NoneLeavesNext(codes: seq<Code>)
    requires NoneLeaves(codes) && codes != []
    ensures NoneLeaves(codes[..|codes| - 1]) && codes[|codes| - 1] !in [3, 4]
  {
  }

  lemma {:induction false} HandleLast(b: Buffer, page: nat, codes: seq<Code>, code: Code)
    requires Proper(b)
    ensures Handle(b, page, codes + [code]) == Settled(Change(Handle(b, page, codes), page, code))
  {
    assert (codes + [code])[..|codes|] == codes;
  }

  /**
   * The editor is the string editor: whatever is typed, the file it would save and the place of the cursor in it are
   * those of the string and its cursor.
   */
  lemma {:induction false} SessionIsBuffer(t: Text, codes: seq<Code>)
    requires Ok(t) && NoneLeaves(codes)
    ensures Stays(KeysOf(codes)) && Session(t, KeysOf(codes)).page == t.page
    ensures Whole(Look(Session(t, KeysOf(codes)))) == Handle(Whole(Look(t)), t.page, codes)
  {
    hide *;
    if codes == [] {
      SessionNone(t);
    } else {
      var n := |codes| - 1;
      var some, code := codes[..n], codes[n];
      assert some + [code] == codes;
      NoneLeavesNext(codes);
      SessionIsBuffer(t, some);
      var u := Look(Session(t, KeysOf(some)));
      OneCode(u, code);
      PageStays(u, KeyOf(code));
      SessionNext(t, some, code);
      HandleLast(Whole(Look(t)), t.page, some, code);
    }
  }

  // ---- what that means for typing, erasing and saving -----------------------------------------------------------

  /** Codes that are put into the text as they are. */
  predicate Plain(code: Code) {
    0 < code < 255 && !CursorCode(code) && code !in [3, 4, 8, 10, 13, 127]
  }

  /** A line of text with its characters, and the return key as a newline. */
  function Chars(codes: seq<Code>): (s: string)
    requires forall i :: 0 <= i < |codes| ==> Plain(codes[i]) || codes[i] in [10, 13]
    ensures |s| == |codes|
  {
    seq(|codes|, i requires 0 <= i < |codes| => if Plain(codes[i]) then codes[i] as char else '\n')
  }

  lemma {:induction false} CharsNext(codes: seq<Code>)
    requires codes != [] && forall i :: 0 <= i < |codes| ==> Plain(codes[i]) || codes[i] in [10, 13]
    ensures Chars(codes) == Chars(codes[..|codes| - 1]) + Chars([codes[|codes| - 1]])
  {
  }

  lemma {:induction false} Inside(b: Buffer)
    requires Proper(b)
    ensures b.at < |b.chars|
  {
  }

  lemma {:induction false} HandleNone(b: Buffer, page: nat)
    requires Proper(b)
    ensures Handle(b, page, []) == b && b.chars[..b.at] + b.chars[b.at..] == b.chars
  {
  }

  lemma {:induction false} HandleNext(b: Buffer, page: nat, codes: seq<Code>, code: Code)
    requires Proper(b)
    ensures var c := Change(Handle(b, page, codes), page, code);
            Handle(b, page, codes + [code]).chars == c.chars && Handle(b, page, codes + [code]).at == c.at
  {
    HandleLast(b, page, codes, code);
  }

  /** Text that is typed, newlines included, stands before the cursor, and nothing else changes. */
  lemma {:induction false} TypedText(t: Text, codes: seq<Code>)
    requires Ok(t) && forall i :: 0 <= i < |codes| ==> Plain(codes[i]) || codes[i] in [10, 13]
    ensures Stays(KeysOf(codes))
    ensures var b, r := Whole(Look(t)), Whole(Look(Session(t, KeysOf(codes))));
            r.chars == b.chars[..b.at] + Chars(codes) + b.chars[b.at..] && r.at == b.at + |codes|
  {
    hide *;
    NoCodeLeaves(codes);
    SessionIsBuffer(t, codes);
    TypedChars(Whole(Look(t)), t.page, codes);
  }

  lemma {:induction false} TypedChars(b: Buffer, page: nat, codes: seq<Code>)
    requires Proper(b) && forall i :: 0 <= i < |codes| ==> Plain(codes[i]) || codes[i] in [10, 13]
    ensures var r := Handle(b, page, codes);
            r.chars == b.chars[..b.at] + Chars(codes) + b.chars[b.at..] && r.at == b.at + |codes|
  {
    hide *;
    Inside(b);
    if codes == [] {
      HandleNone(b, page);
      assert Chars(codes) == "" && b.chars[..b.at] + "" == b.chars[..b.at];
    } else {
      var n := |codes| - 1;
      var some, code := codes[..n], codes[n];
      assert some + [code] == codes;
      CharsNext(codes);
      TypedChars(b, page, some);
      HandleNext(b, page, some, code);
      TypedChar(Handle(b, page, some), page, code);
      Extended(b.chars[..b.at], Chars(some), Chars([code]), b.chars[b.at..]);
    }
  }

  lemma {:induction false} Extended(a: string, typed: string, more: string, z: string)
    ensures var s, k := a + typed + z, |a| + |typed|; s[..k] + more + s[k..] == a + (typed + more) + z
  {
  }

  lemma {:induction false} DeleteOnce(s: string, at: nat, n: nat, r: string, c: string)
    requires at < |s| && r == s[..at] + s[Least(at + n, |s| - 1)..]
    requires c == if at + 1 == |r| then r else r[..at] + r[at + 1..]
    ensures c == s[..at] + s[Least(at + n + 1, |s| - 1)..]
  {
  }

  lemma {:induction false} BackOnce(s: string, at: nat, n: nat, r: Buffer, c: Buffer)
    requires at <= |s| && r.at == at - Least(n, at) && r.chars == s[..r.at] + s[at..]
    requires c.at == if r.at == 0 then 0 else r.at - 1
    requires c.chars == if r.at == 0 then r.chars else r.chars[..r.at - 1] + r.chars[r.at..]
    ensures c.at == at - Least(n + 1, at) && c.chars == s[..c.at] + s[at..]
  {
  }

  lemma {:induction false} ChangeDeletes(b: Buffer, page: nat)
    requires Proper(b)
    ensures var c := Change(b, page, DELETE);
            && c.at == b.at
            && c.chars == if b.at + 1 == |b.chars| then b.chars else b.chars[..b.at] + b.chars[b.at + 1..]
  {
  }

  lemma {:induction false} ChangeErases(b: Buffer, page: nat)
    requires Proper(b)
    ensures var c := Change(b, page, 8);
            && c == Change(b, page, 127) && c.at == (if b.at == 0 then 0 else b.at - 1)
            && c.chars == if b.at == 0 then b.chars else b.chars[..b.at - 1] + b.chars[b.at..]
  {
  }

  lemma {:induction false} TypedChar(b: Buffer, page: nat, code: Code)
    requires Proper(b) && (Plain(code) || code in [10, 13])
    ensures var c := Change(b, page, code);
            c.chars == b.chars[..b.at] + Chars([code]) + b.chars[b.at..] && c.at == b.at + 1
  {
    assert Chars([code]) == [Chars([code])[0]];
  }

  /** Any number of Delete keys takes as many characters behind the cursor, but not the newline at the end. */
  lemma {:induction false} DeletedText(t: Text, codes: seq<Code>)
    requires Ok(t) && forall i :: 0 <= i < |codes| ==> codes[i] == DELETE
    ensures Stays(KeysOf(codes))
    ensures var b, r := Whole(Look(t)), Whole(Look(Session(t, KeysOf(codes))));
            r.chars == b.chars[..b.at] + b.chars[Least(b.at + |codes|, |b.chars| - 1)..] && r.at == b.at
  {
    hide *;
    NoCodeLeaves(codes);
    SessionIsBuffer(t, codes);
    DeletedChars(Whole(Look(t)), t.page, codes);
  }

  function Least(i: nat, j: nat): (k: nat)
    ensures k <= i && k <= j && (k == i || k == j)
  {
    if i < j then i else j
  }

  lemma {:induction false} DeletedChars(b: Buffer, page: nat, codes: seq<Code>)
    requires Proper(b) && forall i :: 0 <= i < |codes| ==> codes[i] == DELETE
    ensures var r := Handle(b, page, codes);
            r.chars == b.chars[..b.at] + b.chars[Least(b.at + |codes|, |b.chars| - 1)..] && r.at == b.at
  {
    hide *;
    Inside(b);
    if codes == [] {
      HandleNone(b, page);
    } else {
      var n := |codes| - 1;
      var some := codes[..n];
      assert some + [DELETE] == codes;
      DeletedChars(b, page, some);
      HandleNext(b, page, some, DELETE);
      var r := Handle(b, page, some);
      ChangeDeletes(r, page);
      DeleteOnce(b.chars, b.at, n, r.chars, Change(r, page, DELETE).chars);
    }
  }

  /** Any number of backspaces, as either code, takes as many characters before it. */
  lemma {:induction false} BackspacedText(t: Text, codes: seq<Code>)
    requires Ok(t) && forall i :: 0 <= i < |codes| ==> codes[i] in [8, 127]
    ensures Stays(KeysOf(codes))
    ensures var b, r := Whole(Look(t)), Whole(Look(Session(t, KeysOf(codes))));
            var at := b.at - Least(|codes|, b.at);
            r.chars == b.chars[..at] + b.chars[b.at..] && r.at == at
  {
    hide *;
    NoCodeLeaves(codes);
    SessionIsBuffer(t, codes);
    BackspacedChars(Whole(Look(t)), t.page, codes);
  }

  lemma {:induction false} BackspacedChars(b: Buffer, page: nat, codes: seq<Code>)
    requires Proper(b) && forall i :: 0 <= i < |codes| ==> codes[i] in [8, 127]
    ensures var r := Handle(b, page, codes);
            var at := b.at - Least(|codes|, b.at);
            r.chars == b.chars[..at] + b.chars[b.at..] && r.at == at
  {
    hide *;
    Inside(b);
    if codes == [] {
      HandleNone(b, page);
    } else {
      var n := |codes| - 1;
      var some, code := codes[..n], codes[n];
      assert some + [code] == codes;
      BackspacedChars(b, page, some);
      HandleNext(b, page, some, code);
      var r := Handle(b, page, some);
      ChangeErases(r, page);
      BackOnce(b.chars, b.at, n, r, Change(r, page, 8));
    }
  }

  /** The string the editor starts with: the file, with a newline at its end. */
  function Opened(file: string): (s: string)
    ensures s != "" && Ended(s)
  {
    var s := Visible(file);
    if s != [] && s[|s| - 1] == '\n' then s else s + "\n"
  }

  /** What the codes make of a file as a string, with the cursor at its start. */
  function Edited(file: string, linepos: int, page: nat, codes: seq<Code>): string {
    Handle(Settled(Buffer(Opened(file), 0, linepos)), page, codes).chars
  }

  /** That is what is saved. */
  lemma {:induction false} SavedFile(file: string, linepos: int, page: nat, codes: seq<Code>)
    requires NoneLeaves(codes)
    ensures var t := Text(Load(file), 0, 0, linepos, page);
            Ok(t) && Stays(KeysOf(codes)) && Save(Session(t, KeysOf(codes)).lines) == Edited(file, linepos, page, codes)
  {
    var t := Text(Load(file), 0, 0, linepos, page);
    LoadClean(file);
    SaveLoaded(file);
    SessionIsBuffer(t, codes);
    WholeLook(t);
    assert t.lines[..0] == [];
    hide Load, Visible, Session, Handle, Settled, Look, AllClean;
  }

  lemma {:induction false} HandledCodes(codes: seq<Code>, n: nat)
    requires n <= |codes| && Stays(KeysOf(codes)[..n])
    ensures NoneLeaves(codes[..n]) && KeysOf(codes[..n]) == KeysOf(codes)[..n]
  {
    forall i | 0 <= i < n
      ensures codes[i] !in [3, 4]
    {
      assert !Leaves(KeysOf(codes)[..n][i]);
    }
  }
}
