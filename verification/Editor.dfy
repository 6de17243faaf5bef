/** The text buffer of commands/edit.c: a doubly linked list of lines with a cursor. */
module Editor {
  import opened Seqs
  import opened EditColumns
  import opened EditFile
  import opened EditText
  import EditBuffer
  import opened EditStrings

  class Line {
    var data: array<char>
    var next: Line?
    var prev: Line?

    constructor (data: array<char>)
      ensures this.data == data && next == null && prev == null
    {
      this.data, next, prev := data, null, null;
    }
  }

  // ---- lists of lines as values ------------------------------------------------------------------------

  ghost function At(lines: seq<Line>, i: int): Line? {
    if 0 <= i < |lines| then lines[i] else null
  }

  /** Forward and backward pointers of a doubly linked list. */
  ghost predicate Chain(lines: seq<Line>, nexts: seq<Line?>, prevs: seq<Line?>) {
    && |lines| == |nexts| == |prevs|
    && forall i :: 0 <= i < |lines| ==> nexts[i] == At(lines, i + 1) && prevs[i] == At(lines, i - 1)
  }

  function Inserted<T>(s: seq<T>, k: nat, x: T): (r: seq<T>)
    requires k <= |s|
    ensures |r| == |s| + 1
  {
    s[..k] + [x] + s[k..]
  }

  lemma {:induction false} InsertedNext<T>(s: seq<T>, k: nat, x: T)
    requires k <= |s|
    ensures Inserted(s, k, x)[k] == x && (k < |s| ==> Inserted(s, k, x)[k + 1] == s[k])
  {
  }

  lemma {:induction false} DistinctInserted<T>(s: seq<T>, k: nat, x: T)
    requires Distinct(s) && k <= |s| && x !in s
    ensures Distinct(Inserted(s, k, x))
  {
  }

  lemma {:induction false} DistinctWithout<T>(s: seq<T>, k: nat)
    requires Distinct(s) && k < |s|
    ensures Distinct(RemoveAt(s, k))
  {
  }

  lemma {:induction false} ChainInserted(lines: seq<Line>, nexts: seq<Line?>, prevs: seq<Line?>, k: nat, x: Line)
    requires Chain(lines, nexts, prevs) && k < |lines|
    ensures var p := Inserted(prevs, k + 1, lines[k]);
            Chain(Inserted(lines, k + 1, x), Inserted(nexts[k := x], k + 1, nexts[k]),
                  if k + 2 < |p| then p[k + 2 := x] else p)
  {
    var l, m := Inserted(lines, k + 1, x), Inserted(nexts[k := x], k + 1, nexts[k]);
    var p := Inserted(prevs, k + 1, lines[k]);
    var q := if k + 2 < |p| then p[k + 2 := x] else p;
    forall i | 0 <= i < |l|
      ensures m[i] == At(l, i + 1) && q[i] == At(l, i - 1)
    {
      if i > k + 1 {
        assert nexts[i - 1] == At(lines, i) && prevs[i - 1] == At(lines, i - 2);
      }
    }
  }

  lemma {:induction false} ChainWithout(lines: seq<Line>, nexts: seq<Line?>, prevs: seq<Line?>, k: nat)
    requires Chain(lines, nexts, prevs) && k + 1 < |lines|
    ensures var p := RemoveAt(prevs, k + 1);
            Chain(RemoveAt(lines, k + 1), RemoveAt(nexts[k := nexts[k + 1]], k + 1),
                  if k + 1 < |p| then p[k + 1 := lines[k]] else p)
  {
    var l, m := RemoveAt(lines, k + 1), RemoveAt(nexts[k := nexts[k + 1]], k + 1);
    var p := RemoveAt(prevs, k + 1);
    var q := if k + 1 < |p| then p[k + 1 := lines[k]] else p;
    forall i | 0 <= i < |l|
      ensures m[i] == At(l, i + 1) && q[i] == At(l, i - 1)
    {
      if i > k {
        assert nexts[i + 1] == At(lines, i + 2) && prevs[i + 1] == At(lines, i);
      }
    }
  }

  /** Every buffer holds its text. */
  ghost predicate FilledWith(datas: seq<array<char>>, texts: seq<string>)
    reads datas
  {
    |texts| == |datas| && Distinct(datas) && forall i :: 0 <= i < |datas| ==> Terminated(datas[i], texts[i])
  }

  ghost predicate OwnedBy(lines: seq<Line>, datas: seq<array<char>>, lbuf: array<char>, repr: set<object>) {
    && (forall i :: 0 <= i < |lines| ==> lines[i] in repr)
    && (forall i :: 0 <= i < |datas| ==> datas[i] in repr && datas[i] != lbuf)
  }

  /** Every buffer but one holds its text. */
  ghost predicate FilledBut(datas: seq<array<char>>, texts: seq<string>, i: nat)
    reads set j | 0 <= j < |datas| && j != i :: datas[j]
  {
    |texts| == |datas| && Distinct(datas) && forall j :: 0 <= j < |datas| && j != i ==> Terminated(datas[j], texts[j])
  }

  lemma {:induction false} AllBut(datas: seq<array<char>>, texts: seq<string>, i: nat)
    requires FilledWith(datas, texts)
    ensures FilledBut(datas, texts, i)
  {
  }

  /** One buffer has been given another text. */
  lemma {:induction false} Refilled(datas: seq<array<char>>, texts: seq<string>, i: nat, text: string)
    requires FilledBut(datas, texts, i) && i < |datas| == |texts| && Terminated(datas[i], text)
    ensures FilledWith(datas, texts[i := text])
  {
    hide Terminated;
  }

  lemma {:induction false} FilledInserted(datas: seq<array<char>>, texts: seq<string>, k: nat, data: array<char>,
                                          text: string)
    requires FilledWith(datas, texts) && k <= |datas| && data !in datas && Terminated(data, text)
    ensures FilledWith(Inserted(datas, k, data), Inserted(texts, k, text))
  {
    hide Terminated;
    DistinctInserted(datas, k, data);
    var d, t := Inserted(datas, k, data), Inserted(texts, k, text);
    forall i | 0 <= i < |d|
      ensures Terminated(d[i], t[i])
    {
      if i > k {
        assert Terminated(datas[i - 1], texts[i - 1]);
      }
    }
  }

  lemma {:induction false} FilledWithout(datas: seq<array<char>>, texts: seq<string>, k: nat)
    requires FilledWith(datas, texts) && k < |datas|
    ensures FilledWith(RemoveAt(datas, k), RemoveAt(texts, k)) && datas[k] !in RemoveAt(datas, k)
  {
    hide Terminated;
    DistinctWithout(datas, k);
    var d, t := RemoveAt(datas, k), RemoveAt(texts, k);
    forall i | 0 <= i < |d|
      ensures Terminated(d[i], t[i]) && d[i] != datas[k]
    {
      if i >= k {
        assert Terminated(datas[i + 1], texts[i + 1]);
      }
    }
  }

  lemma {:induction false} OwnedInserted(lines: seq<Line>, datas: seq<array<char>>, lbuf: array<char>,
                                         repr: set<object>, k: nat, line: Line)
    requires OwnedBy(lines, datas, lbuf, repr) && k <= |lines| == |datas| && line.data != lbuf
    ensures OwnedBy(Inserted(lines, k, line), Inserted(datas, k, line.data), lbuf, repr + {line, line.data})
  {
  }

  lemma {:induction false} OwnedWithout(lines: seq<Line>, datas: seq<array<char>>, lbuf: array<char>,
                                        repr: set<object>, k: nat)
    requires OwnedBy(lines, datas, lbuf, repr) && k < |lines| == |datas|
    ensures OwnedBy(RemoveAt(lines, k), RemoveAt(datas, k), lbuf, repr)
  {
  }

  class Editor {
    var buffer: Line?
    var curline: Line?
    var textx: int
    var linepos: int
    const lbuf: array<char>
    /** How many lines a page key goes at most. */
    const page: nat

    /** The lines in order, their fields, their texts, the cursor's line, and all objects of the editor. */
    ghost var lines: seq<Line>
    ghost var datas: seq<array<char>>
    ghost var nexts: seq<Line?>
    ghost var prevs: seq<Line?>
    ghost var texts: seq<string>
    ghost var row: nat
    ghost var repr: set<object>

    ghost predicate Tied()
      reads this`lines, this`datas, this`nexts, this`prevs, lines
    {
      && |lines| == |datas| == |nexts| == |prevs| && Distinct(lines)
      && forall i :: 0 <= i < |lines| ==>
         lines[i].data == datas[i] && lines[i].next == nexts[i] && lines[i].prev == prevs[i]
    }

    ghost predicate Filled()
      reads this`datas, this`texts, datas
    {
      FilledWith(datas, texts)
    }

    ghost predicate Owned()
      reads this`lines, this`datas, this`repr
    {
      lbuf.Length == LIMIT + 1 && lbuf in repr && this in repr && OwnedBy(lines, datas, lbuf, repr)
    }

    /** A well-formed doubly linked list whose lines hold their texts. */
    ghost predicate ListOk()
      reads this`buffer, this`lines, this`datas, this`nexts, this`prevs, this`texts, this`repr, lines, datas
    {
      Tied() && Filled() && Owned() && Chain(lines, nexts, prevs) && buffer == At(lines, 0)
    }

    ghost predicate Cursor()
      reads this`curline, this`lines, this`row
    {
      row < |lines| && curline == lines[row]
    }

    /** A well-formed list, the cursor in one of its lines. */
    ghost predicate Valid()
      reads this`buffer, this`curline, this`lines, this`datas, this`nexts, this`prevs, this`texts, this`row, this`repr,
            lines, datas
    {
      ListOk() && Cursor()
    }

    ghost function T(): Text
      reads this
    {
      Text(texts, row, textx, linepos, page)
    }

    /** No lines yet; the screen has room for height lines of text. */
    constructor (height: nat)
      ensures ListOk() && lines == [] && texts == [] && fresh(repr) && page == if height == 0 then 0 else height - 1
    {
      page := if height == 0 then 0 else height - 1;
      buffer, curline, textx := null, null, 0;
      linepos := *;
      lbuf := new char[LIMIT + 1](_ => '\0');
      lines, datas, nexts, prevs, texts, row := [], [], [], [], [], 0;
      new;
      repr := {this, lbuf};
    }

    method SetNext(line: Line, next: Line?, ghost i: nat)
      requires Tied() && i < |lines| && line == lines[i]
      modifies line`next, this`nexts
      ensures Tied() && nexts == old(nexts)[i := next]
    {
      line.next := next;
      nexts := nexts[i := next];
    }

    method SetPrev(line: Line, prev: Line?, ghost i: nat)
      requires Tied() && i < |lines| && line == lines[i]
      modifies line`prev, this`prevs
      ensures Tied() && prevs == old(prevs)[i := prev]
    {
      line.prev := prev;
      prevs := prevs[i := prev];
    }

    /** What a well-formed list says about the cursor and the objects. */
    lemma {:induction false} Here()
      requires Valid()
      ensures row < |lines| && curline == lines[row] && buffer == lines[0] && this in repr
              && |lines| == |datas| == |texts|
      ensures lbuf in repr && lbuf.Length == LIMIT + 1 && lbuf !in datas && curline.data != lbuf
      ensures (forall i :: 0 <= i < |lines| ==> lines[i] in repr) && forall i :: 0 <= i < |datas| ==> datas[i] in repr
    {
    }

    lemma {:induction false} Assemble()
      requires Tied() && Chain(lines, nexts, prevs) && FilledWith(datas, texts)
      requires OwnedBy(lines, datas, lbuf, repr) && lbuf.Length == LIMIT + 1 && lbuf in repr && this in repr
      requires buffer == At(lines, 0) && Cursor()
      ensures Valid()
    {
    }

    lemma {:induction false} Parts()
      requires Valid()
      ensures Tied() && Chain(lines, nexts, prevs) && FilledWith(datas, texts)
      ensures OwnedBy(lines, datas, lbuf, repr) && lbuf.Length == LIMIT + 1 && lbuf in repr && this in repr
      ensures buffer == At(lines, 0) && Cursor()
      ensures forall i, j :: 0 <= i < j < |datas| ==> datas[i] != datas[j]
    {
    }

    lemma {:induction false} Facts(i: nat)
      requires Valid() && i < |lines|
      ensures |lines| == |datas| == |texts| == |nexts| == |prevs|
      ensures lines[i].data == datas[i] && lines[i].next == At(lines, i + 1) && lines[i].prev == At(lines, i - 1)
      ensures Terminated(datas[i], texts[i]) && lines[i] in repr && datas[i] in repr && datas[i] != lbuf && this in repr
      ensures row < |lines| && curline == lines[row] && buffer == lines[0] && lbuf in repr && lbuf.Length == LIMIT + 1
    {
    }

    /** Another buffer with the same text for line i. */
    method SetData(line: Line, data: array<char>, ghost i: nat)
      requires Valid() && i < |lines| && line == lines[i] && data != lbuf && data !in datas && i < |texts|
               && Terminated(data, texts[i])
      modifies line`data, this`datas, this`repr
      ensures Valid() && datas == old(datas)[i := data] && repr == old(repr) + {data} && line.data == data
    {
      hide Terminated, Chain, Cursor;
      line.data := data;
      datas := datas[i := data];
      repr := repr + {data};
    }

    /** line_realloc on a line of the list. */
    method Grow(line: Line, len: nat, ghost i: nat)
      requires Valid() && i < |lines| && line == lines[i] && i < |texts| && |texts[i]| < len
      modifies this`datas, this`repr, line`data
      ensures Valid() && datas == old(datas)[i := line.data] && fresh(line.data) && line.data.Length >= len
      ensures repr == old(repr) + {line.data}
    {
      hide *;
      Facts(i);
      var data := Realloc(line.data, texts[i], len);
      SetData(line, data, i);
    }

    method PutAt(n: nat, c: char)
      requires Valid() && InLine(T()) && n == |texts[row]| && n + 2 <= curline.data.Length
      modifies this`texts, curline.data
      ensures Valid() && texts == old(texts)[row := EditText.InsertChar(old(texts)[row], textx, c)]
    {
      hide *;
      Inside();
      Here();
      Facts(row);
      Parts();
      AllBut(datas, texts, row);
      InsertAt(curline.data, texts[row], n, textx, c);
      Refilled(datas, texts, row, EditText.InsertChar(texts[row], textx, c));
      texts := texts[row := EditText.InsertChar(texts[row], textx, c)];
      Assemble();
    }

    method InsertChar(c: char)
      requires Valid() && InLine(T())
      modifies repr
      ensures Valid() && fresh(repr - old(repr))
      ensures T() == old(T()).(
                lines := old(texts)[old(row) := EditText.InsertChar(old(texts)[old(row)], old(textx), c)],
                col := old(textx) + 1)
    {
      hide Valid, Terminated, AllClean, EditText.InsertChar;
      Here();
      Facts(row);
      var n := StrLen(curline.data, texts[row]);
      Grow(curline, n + 2, row);
      Facts(row);
      PutAt(n, c);
      textx := textx + 1;
    }

    method DeleteChar(pos: nat)
      requires Valid() && row < |texts| && pos <= |texts[row]|
      modifies repr
      ensures Valid() && repr == old(repr)
      ensures T() == old(T()).(lines := old(texts)[old(row) := EditText.DeleteChar(old(texts)[old(row)], pos)])
    {
      hide Valid, Tied, Chain, FilledWith, OwnedBy, At, Cursor, Terminated, EditText.DeleteChar;
      Here();
      Facts(row);
      Parts();
      AllBut(datas, texts, row);
      var n := StrLen(curline.data, texts[row]);
      DeleteAt(curline.data, texts[row], n, pos);
      Refilled(datas, texts, row, EditText.DeleteChar(texts[row], pos));
      texts := texts[row := EditText.DeleteChar(texts[row], pos)];
      Assemble();
    }

    lemma {:induction false} Pointers(k: nat)
      requires Tied() && Chain(lines, nexts, prevs) && k < |lines|
      ensures |lines| == |nexts| == |prevs| && lines[k].next == nexts[k]
      ensures nexts[k] == if k + 1 < |lines| then lines[k + 1] else null
    {
    }

    /** Makes a line that already points into the list its line k. */
    ghost method Adopt(line: Line, k: nat)
      requires Tied() && k <= |lines| && line !in lines
      modifies this`lines, this`datas, this`nexts, this`prevs
      ensures Tied() && lines == Inserted(old(lines), k, line) && datas == Inserted(old(datas), k, line.data)
      ensures nexts == Inserted(old(nexts), k, line.next) && prevs == Inserted(old(prevs), k, line.prev)
    {
      DistinctInserted(lines, k, line);
      lines, datas := Inserted(lines, k, line), Inserted(datas, k, line.data);
      nexts, prevs := Inserted(nexts, k, line.next), Inserted(prevs, k, line.prev);
    }

    /** Links a new line behind line k. */
    method LinkAfter(line: Line, newline: Line, ghost k: nat)
      requires Tied() && Chain(lines, nexts, prevs) && k < |lines| && line == lines[k] && newline !in lines
      modifies this`lines, this`datas, this`nexts, this`prevs, lines`next, lines`prev, newline`next, newline`prev
      ensures Tied() && Chain(lines, nexts, prevs) && newline.data == old(newline.data)
      ensures lines == Inserted(old(lines), k + 1, newline) && datas == Inserted(old(datas), k + 1, newline.data)
    {
      hide *;
      Pointers(k);
      ChainInserted(lines, nexts, prevs, k, newline);
      var tmp := line.next;
      SetNext(line, newline, k);
      newline.prev := line;
      newline.next := tmp;
      Adopt(newline, k + 1);
      InsertedNext(old(lines), k + 1, newline);
      if tmp != null {
        SetPrev(tmp, newline, k + 2);
      }
    }

    /** A new line with its text behind the cursor's line. */
    method LinkLine(newline: Line, ghost tail: string)
      requires Valid() && newline !in lines && newline.data !in datas && newline.data != lbuf
      requires Terminated(newline.data, tail)
      modifies this`lines, this`datas, this`nexts, this`prevs, this`texts, this`repr, lines`next, lines`prev,
               newline`next, newline`prev
      ensures Valid() && lines == Inserted(old(lines), row + 1, newline) && row + 1 < |lines|
      ensures row < |old(texts)| && texts == Inserted(old(texts), row + 1, tail)
              && repr == old(repr) + {newline, newline.data}
      ensures newline.data == old(newline.data)
    {
      hide *;
      Here();
      Parts();
      FilledInserted(datas, texts, row + 1, newline.data, tail);
      OwnedInserted(lines, datas, lbuf, repr, row + 1, newline);
      FrontInserted(lines, row, newline);
      LinkAfter(curline, newline, row);
      texts := Inserted(texts, row + 1, tail);
      repr := repr + {newline, newline.data};
      Assemble();
    }

    /** The cursor's line ends at n. */
    method Truncate(n: nat)
      requires Valid() && row < |texts| && n <= |texts[row]|
      modifies this`texts, curline.data
      ensures Valid() && texts == old(texts)[row := old(texts)[row][..n]]
    {
      hide *;
      Here();
      Facts(row);
      Parts();
      AllBut(datas, texts, row);
      EndAt(curline.data, texts[row], n);
      Refilled(datas, texts, row, texts[row][..n]);
      texts := texts[row := texts[row][..n]];
      Assemble();
    }

    /** curline = curline->next */
    method NextLine()
      requires Valid() && row + 1 < |lines|
      modifies this`curline, this`row
      ensures Valid() && row == old(row) + 1
    {
      hide ListOk;
      Facts(row);
      curline := curline.next;
      row := row + 1;
    }

    /** curline = curline->prev */
    method PrevLine()
      requires Valid() && 0 < row < |lines|
      modifies this`curline, this`row
      ensures Valid() && row == old(row) - 1
    {
      hide ListOk;
      Facts(row);
      curline := curline.prev;
      row := row - 1;
    }

    /** A new line with what stands behind the cursor. */
    method TailLine() returns (newline: Line)
      requires Valid() && InLine(T())
      ensures fresh(newline) && fresh(newline.data) && Terminated(newline.data, texts[row][textx..])
    {
      hide *;
      Here();
      Facts(row);
      Inside();
      Tail(curline.data, texts[row], textx);
      var n := StrLen(curline.data, texts[row]);
      var length := n - textx;
      var data := Alloc(length + 1);
      Copy(curline.data, textx, texts[row][textx..], length, data);
      newline := new Line(data);
    }

    lemma {:induction false} Inside()
      requires InLine(T())
      ensures row < |texts| && 0 <= textx <= |texts[row]|
    {
    }

    method SplitLine()
      requires Valid() && InLine(T())
      modifies repr
      ensures Valid() && fresh(repr - old(repr))
      ensures T() == old(T()).(
                lines := EditText.SplitLine(old(texts), old(row), old(textx)), row := old(row) + 1, col := 0)
    {
      hide Valid, Terminated, AllClean, EditText.SplitLine, Inserted;
      Here();
      SplitIs(texts, row, textx);
      ghost var tail := texts[row][textx..];
      Facts(row);
      var newline := TailLine();
      Truncate(textx);
      Here();
      LinkLine(newline, tail);
      textx := 0;
      NextLine();
    }

    /** Takes the line behind line k out of the list. */
    method UnlinkNext(line: Line, ghost k: nat)
      requires Tied() && Chain(lines, nexts, prevs) && k + 1 < |lines| && line == lines[k]
      modifies this`lines, this`datas, this`nexts, this`prevs, lines`next, lines`prev
      ensures Tied() && Chain(lines, nexts, prevs)
      ensures lines == RemoveAt(old(lines), k + 1) && datas == RemoveAt(old(datas), k + 1)
    {
      hide *;
      Pointers(k);
      Pointers(k + 1);
      ChainWithout(lines, nexts, prevs, k);
      WithoutNext(lines, k + 1);
      SetNext(line, line.next.next, k);
      Drop(k + 1);
      if line.next != null {
        SetPrev(line.next, line, k + 1);
      }
    }

    ghost method Drop(k: nat)
      requires Tied() && k < |lines|
      modifies this`lines, this`datas, this`nexts, this`prevs
      ensures Tied() && lines == RemoveAt(old(lines), k) && datas == RemoveAt(old(datas), k)
      ensures nexts == RemoveAt(old(nexts), k) && prevs == RemoveAt(old(prevs), k)
      ensures forall i :: 0 <= i < k ==> lines[i].next == nexts[i]
    {
      DistinctWithout(lines, k);
      lines, datas := RemoveAt(lines, k), RemoveAt(datas, k);
      nexts, prevs := RemoveAt(nexts, k), RemoveAt(prevs, k);
    }

    method UnlinkLine()
      requires Valid() && row + 1 < |lines|
      modifies this`lines, this`datas, this`nexts, this`prevs, this`texts, lines`next, lines`prev
      ensures Valid() && lines == RemoveAt(old(lines), row + 1) && |old(texts)| == |old(lines)|
              && texts == RemoveAt(old(texts), row + 1)
      ensures |old(datas)| == |old(lines)| && datas == RemoveAt(old(datas), row + 1)
      ensures old(datas)[row + 1] !in datas
    {
      hide *;
      Here();
      Parts();
      FilledWithout(datas, texts, row + 1);
      OwnedWithout(lines, datas, lbuf, repr, row + 1);
      FrontWithout(lines, row);
      UnlinkNext(curline, row);
      texts := RemoveAt(texts, row + 1);
      Assemble();
    }

    /** merge_line on the cursor's line. */
    method MergeLine()
      requires Valid() && row + 1 < |lines| && |texts| == |lines|
      modifies repr
      ensures Valid() && fresh(repr - old(repr))
      ensures T() == old(T()).(lines := EditText.MergeLine(old(texts), old(row)))
    {
      hide Valid, Terminated, EditText.MergeLine, RemoveAt;
      Here();
      Facts(row);
      Facts(row + 1);
      ghost var tail := texts[row + 1];
      MergeIs(texts, row);
      var n := StrLen(curline.data, texts[row]);
      var m := StrLen(curline.next.data, tail);
      Grow(curline, n + m + 1, row);
      Here();
      Facts(row);
      Facts(row + 1);
      var tmp := curline.next;
      UnlinkLine();
      Here();
      Facts(row);
      Join(tmp.data, tail, n, m);
    }

    method Join(more: array<char>, ghost tail: string, n: nat, m: nat)
      requires Valid() && row < |texts| && Terminated(more, tail) && more !in datas
      requires n == |texts[row]| && m == |tail| && n + m < curline.data.Length
      modifies this`texts, curline.data
      ensures Valid() && texts == old(texts)[row := old(texts)[row] + tail]
    {
      hide *;
      Here();
      Facts(row);
      Parts();
      AllBut(datas, texts, row);
      StrCat(curline.data, texts[row], n, more, tail, m);
      Refilled(datas, texts, row, texts[row] + tail);
      texts := texts[row := texts[row] + tail];
      Assemble();
    }

    // ---- reading and writing the file ------------------------------------------------------------------

    /** Links a new line behind the last one. */
    method Append(lastline: Line?, newline: Line)
      requires Tied() && Chain(lines, nexts, prevs) && lastline == At(lines, |lines| - 1) && newline !in lines
      modifies this`lines, this`datas, this`nexts, this`prevs, lines`next, newline`prev, newline`next
      ensures Tied() && Chain(lines, nexts, prevs)
      ensures lines == Inserted(old(lines), |old(lines)|, newline)
              && datas == Inserted(old(datas), |old(datas)|, newline.data)
    {
      hide Inserted, Distinct;
      ghost var n := |lines|;
      ChainAppended(lines, nexts, prevs, newline);
      newline.prev := lastline;
      if lastline != null {
        SetNext(lastline, newline, n - 1);
      }
      newline.next := null;
      Adopt(newline, n);
    }

    /** One line of edit_read_file. */
    method AddLine(lastline: Line?, data: array<char>, ghost text: string) returns (line: Line)
      requires ListOk() && lastline == At(lines, |lines| - 1) && Terminated(data, text) && data !in repr
      modifies this`lines, this`datas, this`nexts, this`prevs, this`texts, this`repr, this`buffer, lines`next
      ensures ListOk() && texts == Inserted(old(texts), |old(texts)|, text) && repr == old(repr) + {line, data}
              && fresh(line)
      ensures |lines| == |old(lines)| + 1 && line == At(lines, |lines| - 1)
    {
      hide *;
      ListParts();
      line := new Line(data);
      FilledInserted(datas, texts, |datas|, data, text);
      OwnedInserted(lines, datas, lbuf, repr, |lines|, line);
      BackInserted(lines, line);
      if buffer == null {
        buffer := line;
      }
      Append(lastline, line);
      texts := Inserted(texts, |texts|, text);
      repr := repr + {line, data};
      ListAssemble();
    }

    lemma {:induction false} ListAssemble()
      requires Tied() && Chain(lines, nexts, prevs) && FilledWith(datas, texts)
      requires OwnedBy(lines, datas, lbuf, repr) && lbuf.Length == LIMIT + 1 && lbuf in repr && this in repr
      requires buffer == At(lines, 0)
      ensures ListOk()
    {
    }

    lemma {:induction false} ListParts()
      requires ListOk()
      ensures Tied() && Chain(lines, nexts, prevs) && FilledWith(datas, texts) && |datas| == |texts| == |lines|
      ensures OwnedBy(lines, datas, lbuf, repr) && lbuf.Length == LIMIT + 1 && lbuf in repr && this in repr
      ensures buffer == At(lines, 0) && (buffer == null <==> lines == [])
      ensures forall i :: 0 <= i < |lines| ==> lines[i] in repr
      ensures forall d :: d in datas ==> d in repr
    {
    }

    method ReadLine(buf: array<char>, p: nat, ghost rest: string, lastline: Line?)
      returns (found: bool, k: nat, line: Line)
      requires ListOk() && StringAt(buf, p, rest) && buf !in repr && lastline == At(lines, |lines| - 1)
      modifies repr, buf
      ensures ListOk() && k == IndexOf(rest, '\n') && texts == old(texts) + [rest[..k]] && found == (k < |rest|)
      ensures line == At(lines, |lines| - 1) && buf !in repr && fresh(repr - old(repr))
      ensures found ==> StringAt(buf, p + k + 1, rest[k + 1..])
    {
      hide ListOk, Terminated, At, IndexOf;
      ListParts();
      k := FindNewline(buf, p, rest);
      found := buf[p + k] != '\0';
      assert found == (k < |rest|) by { Ends(buf, p + k, rest[k..]); }
      if found {
        buf[p + k] := '\0';
        assert StringAt(buf, p + k + 1, rest[k + 1..]) by { Shift(rest, k + 1); }
      }
      assert StringAt(buf, p, rest[..k]);
      hide StringAt;
      var data := Alloc(k + 1);
      Copy(buf, p, rest[..k], k, data);
      line := AddLine(lastline, data, rest[..k]);
      assert old(texts) + [rest[..k]] + [] == old(texts) + [rest[..k]];
    }

    /** The loop of edit_read_file over the string in buf. */
    method ReadLines(buf: array<char>, ghost s: string)
      requires ListOk() && lines == [] && texts == [] && StringAt(buf, 0, s) && buf !in repr
      modifies repr, buf
      ensures ListOk() && texts == Cut(s) && fresh(repr - old(repr))
    {
      hide ListOk, StringAt, Cut, IndexOf;
      ListParts();
      var lastline: Line? := null;
      var p: nat := 0;
      ghost var rest := s;
      assert [] + Cut(s) == Cut(s);
      assert Cut("") == [] by { NothingCut(); }
      while true
        invariant ListOk() && texts + Cut(rest) == Cut(s) && StringAt(buf, p, rest) && buf !in repr
        invariant lastline == At(lines, |lines| - 1) && fresh(repr - old(repr))
        decreases |rest|
      {
        ListParts();
        Ends(buf, p, rest);
        if buf[p] == '\0' {
          break;
        }
        CutOne(texts, rest, s);
        var found, k;
        found, k, lastline := ReadLine(buf, p, rest, lastline);
        if !found {
          break;
        }
        p := p + k + 1;
        rest := rest[k + 1..];
      }
    }

    /** edit_read_file and, if it succeeds, the start of do_edit. */
    method ReadFile(source: Source) returns (ret: int)
      requires ListOk() && lines == [] && texts == []
      modifies repr
      ensures ret == if source.Unreadable? then -1 else 0
      ensures ret == 0 ==> Valid() && texts == Loaded(source) && row == 0 && textx == 0 && fresh(repr - old(repr))
      ensures ret != 0 ==> ListOk() && texts == []
    {
      hide ListOk, StringAt, Terminated, Cut, Valid;
      ListParts();
      ret := 0;
      match source {
        case Unreadable => return -1;
        case Missing => NothingCut();
        case Present(file) =>
          var buf := new char[|file| + 1](i => if 0 <= i < |file| then file[i] else '\0');
          InBuffer(buf, file);
          ReadLines(buf, Visible(file));
      }
      ListParts();
      if buffer == null {
        var data := Alloc(0);
        data[0] := '\0';
        EmptyString(data);
          var _ := AddLine(null, data, "");
      }
      Start();
    }

    /** The cursor goes to the first line. */
    method Start()
      requires ListOk() && lines != [] && this in repr
      modifies this`curline, this`textx, this`row
      ensures Valid() && row == 0 && textx == 0
    {
      textx := 0;
      curline := buffer;
      row := 0;
    }

    /** save_file; opening and writing may fail unless reliable.  out is what the file holds, if it could be opened. */
    method SaveFile(reliable: bool) returns (ret: int, out: Option<string>)
      requires Valid()
      ensures ret <= 0 && (ret == 0 ==> out == Some(Save(texts))) && (out.Some? ==> out.value <= Save(texts))
      ensures reliable ==> ret == 0
    {
      var fd: int := *;
      if fd < 0 && !reliable {
        return fd, None;
      }
      var text;
      ret, text := WriteLines(reliable);
      out := Some(text);
    }

    method WriteLines(reliable: bool) returns (ret: int, out: string)
      requires Valid()
      ensures ret <= 0 && out <= Save(texts) && (ret == 0 ==> out == Save(texts)) && (reliable ==> ret == 0)
    {
      hide Valid, Terminated, Save;
      ret, out := 0, "";
      Here();
      SaveOne("", []);
      assert texts[..0] == [];
      var line := buffer;
      ghost var i := 0;
      while line != null
        invariant i <= |lines| == |texts| && line == At(lines, i) && out == Save(texts[..i])
        decreases |lines| - i
      {
        Facts(i);
        SaveNext(texts, i);
        var n := StrLen(line.data, texts[i]);
        assert line.data[..n] == texts[i] by { Whole(line.data, texts[i]); }
        var chunk := line.data[..n] + "\n";
        var written: int := *;
        if 0 <= written < |chunk| && !reliable {
          return -1, out + chunk[..written];
        }
        out := out + chunk;
        line := line.next;
        i := i + 1;
      }
      assert texts[..i] == texts;
    }

    // ---- the main loop ----------------------------------------------------------------------------------

    /** The start of a round. */
    method LookAt()
      requires Valid() && Ok(T())
      modifies this`textx, this`linepos, lbuf
      ensures Valid() && T() == Look(old(T()))
    {
      hide Valid, Terminated, AllClean, OnScreen, Column;
      Here();
      Facts(row);
      var curlen := StrLen(curline.data, texts[row]);
      if textx > curlen {
        textx := curlen;
      }
      if textx < 1 {
        textx := 0;
      }
      var _, pos := ScreenLine(curline.data, texts[row], textx, lbuf, linepos);
      linepos := pos;
    }

    method UpKey()
      requires Valid() && InLine(T())
      modifies this`curline, this`row, this`textx
      ensures Valid() && T() == Act(old(T()), Up)
    {
      hide Valid, Terminated, AllClean, Covers;
      Here();
      Facts(row);
      if curline.prev != null {
        PrevLine();
        Here();
        Facts(row);
        textx := Setpos(curline.data, texts[row], linepos);
      }
    }

    method DownKey()
      requires Valid() && InLine(T())
      modifies this`curline, this`row, this`textx
      ensures Valid() && T() == Act(old(T()), Down)
    {
      hide Valid, Terminated, AllClean, Covers;
      Here();
      Facts(row);
      if curline.next != null {
        NextLine();
        Here();
        Facts(row);
        textx := Setpos(curline.data, texts[row], linepos);
      }
    }

    method PageUpKey()
      requires Valid() && InLine(T())
      modifies this`curline, this`row, this`textx
      ensures Valid() && T() == Act(old(T()), PageUp)
    {
      hide Valid, Terminated, AllClean, Covers;
      Here();
      for i := 0 to page
        invariant Valid() && row == (if old(row) <= i then 0 else old(row) - i)
      {
        Here();
        Facts(row);
        if curline.prev == null {
          break;
        }
        PrevLine();
      }
      Here();
      Facts(row);
      textx := Setpos(curline.data, texts[row], linepos);
    }

    method PageDownKey()
      requires Valid() && InLine(T())
      modifies this`curline, this`row, this`textx
      ensures Valid() && T() == Act(old(T()), PageDown)
    {
      hide Valid, Terminated, AllClean, Covers;
      Here();
      for i := 0 to page
        invariant Valid() && row == (if old(row) + i < |texts| then old(row) + i else |texts| - 1)
      {
        Here();
        Facts(row);
        if curline.next == null {
          break;
        }
        NextLine();
      }
      Here();
      Facts(row);
      textx := Setpos(curline.data, texts[row], linepos);
    }

    method DeleteKey(curlen: nat)
      requires Valid() && InLine(T()) && curlen == |texts[row]|
      modifies repr
      ensures Valid() && fresh(repr - old(repr)) && T() == Act(old(T()), Delete)
    {
      hide Valid, Terminated, AllClean, EditText.DeleteChar, EditText.MergeLine;
      Here();
      Facts(row);
      if textx == curlen {
        if curline.next != null {
          MergeLine();
        }
      } else {
        DeleteChar(textx);
      }
    }

    method BackspaceKey()
      requires Valid() && InLine(T())
      modifies repr
      ensures Valid() && fresh(repr - old(repr)) && T() == Backspace(old(T()))
    {
      hide Valid, Terminated, AllClean, EditText.DeleteChar, EditText.MergeLine;
      Here();
      Facts(row);
      if textx > 0 {
        textx := textx - 1;
        DeleteChar(textx);
      } else if curline.prev != null {
        PrevLine();
        Here();
        Facts(row);
        textx := StrLen(curline.data, texts[row]);
        MergeLine();
      }
    }

    method TypeKey(c: char)
      requires Valid() && InLine(T())
      modifies repr
      ensures Valid() && fresh(repr - old(repr)) && T() == Type(old(T()), c)
    {
      hide Valid, AllClean, Backspace, EditText.SplitLine, EditText.InsertChar;
      if c == '\r' || c == '\n' {
        SplitLine();
      } else if c as int == 127 || c as int == 8 {
        BackspaceKey();
      } else if c as int != 255 {
        InsertChar(c);
      }
    }

    /** The switch on a key that does not leave the editor. */
    method Handle(key: Key)
      requires Valid() && InLine(T()) && !Leaves(key)
      modifies repr
      ensures Valid() && fresh(repr - old(repr)) && T() == Act(old(T()), key)
    {
      hide Valid, AllClean, Type, Terminated;
      Here();
      Facts(row);
      match key
      case Up => UpKey();
      case Down => DownKey();
      case Left => textx := textx - 1;
      case Right => textx := textx + 1;
      case Home => textx := 0;
      case End => textx := StrLen(curline.data, texts[row]);
      case PageUp => PageUpKey();
      case PageDown => PageDownKey();
      case Delete =>
        var curlen := StrLen(curline.data, texts[row]);
        DeleteKey(curlen);
      case Typed(c) => TypeKey(c);
    }

    /** One round of the main loop. */
    method Round(key: Key)
      requires Valid() && Ok(T()) && !Leaves(key)
      modifies repr
      ensures Valid() && Ok(T()) && fresh(repr - old(repr)) && T() == Press(old(T()), key)
    {
      hide Valid, Ok, InLine, Act;
      Here();
      LookAt();
      Here();
      Handle(key);
      assert T() == Press(old(T()), key);
    }

    /** The main loop of do_edit, up to the first key that leaves it; n is how many keys were handled. */
    method Run(codes: seq<Code>) returns (n: nat)
      requires Valid() && Ok(T())
      modifies repr
      ensures n == Handled(KeysOf(codes)) && Valid() && Ok(T()) && fresh(repr - old(repr))
      ensures T() == Session(old(T()), KeysOf(codes)[..n])
    {
      hide Valid, Ok, Press, KeyOf;
      n := 0;
      ghost var keys := KeysOf(codes);
      assert keys[..0] == [];
      while n < |codes| && !Leaves(KeyOf(codes[n]))
        invariant n <= |keys| && Stays(keys[..n])
        invariant Valid() && Ok(T()) && fresh(repr - old(repr)) && T() == Session(old(T()), keys[..n])
      {
        assert keys[..n + 1][..n] == keys[..n];
        Here();
        Round(KeyOf(codes[n]));
        n := n + 1;
      }
      HandledIs(keys, n);
    }
  }

  lemma {:induction false} Ends(data: array<char>, p: nat, s: string)
    requires StringAt(data, p, s)
    ensures p < data.Length && (data[p] == '\0' <==> s == [])
  {
    if s != [] {
      assert s[0] in s && data[p + 0] == s[0];
    }
  }

  lemma {:induction false} Shift(s: string, k: nat)
    requires k <= |s|
    ensures forall i :: 0 <= i < |s| - k ==> s[k..][i] == s[k + i]
  {
  }

  lemma {:induction false} CutOne(done: seq<string>, rest: string, s: string)
    requires done + Cut(rest) == Cut(s) && rest != []
    ensures var k := IndexOf(rest, '\n');
            done + [rest[..k]] + (if k < |rest| then Cut(rest[k + 1..]) else []) == Cut(s)
  {
    hide Cut, IndexOf;
    CutHead(rest);
    var k := IndexOf(rest, '\n');
    var more := if k < |rest| then Cut(rest[k + 1..]) else [];
    assert done + ([rest[..k]] + more) == done + [rest[..k]] + more;
  }

  lemma {:induction false} CutHead(rest: string)
    requires rest != []
    ensures var k := IndexOf(rest, '\n'); Cut(rest) == [rest[..k]] + if k < |rest| then Cut(rest[k + 1..]) else []
  {
    assert rest[..|rest|] == rest;
  }

  lemma {:induction false} BackInserted(lines: seq<Line>, x: Line)
    ensures var l := Inserted(lines, |lines|, x);
            At(l, |l| - 1) == x && At(l, 0) == (if lines == [] then x else At(lines, 0))
  {
  }

  lemma {:induction false} ChainAppended(lines: seq<Line>, nexts: seq<Line?>, prevs: seq<Line?>, x: Line)
    requires Chain(lines, nexts, prevs)
    ensures var n := |lines|;
            Chain(Inserted(lines, n, x), Inserted(if n > 0 then nexts[n - 1 := x] else nexts, n, null),
              Inserted(prevs, n, At(lines, n - 1)))
  {
    var n := |lines|;
    var l := Inserted(lines, n, x);
    var m, q := Inserted(if n > 0 then nexts[n - 1 := x] else nexts, n, null), Inserted(prevs, n, At(lines, n - 1));
    forall i | 0 <= i < |l|
      ensures m[i] == At(l, i + 1) && q[i] == At(l, i - 1)
    {
      if i < n {
        assert nexts[i] == At(lines, i + 1) && prevs[i] == At(lines, i - 1);
      }
    }
  }

  lemma {:induction false} InBuffer(buf: array<char>, file: string)
    requires buf.Length == |file| + 1 && buf[|file|] == '\0' && forall i :: 0 <= i < |file| ==> buf[i] == file[i]
    ensures StringAt(buf, 0, Visible(file))
  {
  }

  lemma {:induction false} NothingCut()
    ensures Cut(Visible("")) == [] && Cut("") == []
  {
  }

  lemma {:induction false} EmptyString(data: array<char>)
    requires data.Length > 0 && data[0] == '\0'
    ensures Terminated(data, "")
  {
  }

  lemma {:induction false} SaveNext(texts: seq<string>, i: nat)
    requires i < |texts|
    ensures Save(texts[..i + 1]) == Save(texts[..i]) + (texts[i] + "\n") && Save(texts[..i + 1]) <= Save(texts)
  {
    SaveAppend(texts[..i], [texts[i]]);
    assert texts[..i] + [texts[i]] == texts[..i + 1];
    SaveOne(texts[i], []);
    SaveAppend(texts[..i + 1], texts[i + 1..]);
    assert texts[..i + 1] + texts[i + 1..] == texts;
  }

  lemma {:induction false} Whole(data: array<char>, line: string)
    requires Terminated(data, line)
    ensures |line| < data.Length && data[..|line|] == line
  {
  }

  lemma {:induction false} FrontInserted(lines: seq<Line>, k: nat, x: Line)
    requires k < |lines|
    ensures var l := Inserted(lines, k + 1, x); l[k] == lines[k] && At(l, 0) == At(lines, 0)
  {
  }

  lemma {:induction false} FrontWithout(lines: seq<Line>, k: nat)
    requires k + 1 < |lines|
    ensures var l := RemoveAt(lines, k + 1); l[k] == lines[k] && At(l, 0) == At(lines, 0)
  {
  }

  lemma {:induction false} Tail(data: array<char>, line: string, x: nat)
    requires Terminated(data, line) && x <= |line|
    ensures StringAt(data, x, line[x..])
  {
    assert forall i :: 0 <= i < |line| - x ==> line[x..][i] == line[x + i];
  }

  lemma {:induction false} SplitIs(texts: seq<string>, k: nat, x: nat)
    requires k < |texts| && x <= |texts[k]|
    ensures Inserted(texts[k := texts[k][..x]], k + 1, texts[k][x..]) == EditText.SplitLine(texts, k, x)
  {
  }

  lemma {:induction false} MergeIs(texts: seq<string>, k: nat)
    requires k + 1 < |texts|
    ensures var w := RemoveAt(texts, k + 1);
            w[k] == texts[k] && w[k := texts[k] + texts[k + 1]] == EditText.MergeLine(texts, k)
  {
  }

  lemma {:induction false} WithoutNext<T>(s: seq<T>, k: nat)
    requires k < |s|
    ensures (forall i :: 0 <= i < k ==> RemoveAt(s, k)[i] == s[i]) && (k + 1 < |s| ==> RemoveAt(s, k)[k] == s[k + 1])
  {
  }

  /** What stat and read_file make of a path. */
  datatype Source = Missing | Unreadable | Present(file: string)

  /** A missing file counts as an empty one. */
  function Contents(source: Source): string {
    if source.Present? then source.file else ""
  }

  function Loaded(source: Source): seq<string>
    requires !source.Unreadable?
  {
    Load(Contents(source))
  }

  /**
   What became of the command: still running, or left with a return value; and what it put into the file, if anything.
   */
  datatype Outcome = Outcome(running: bool, ret: int, saved: Option<string>)

  /**
   The edit command on a file.  Ctrl-C leaves the file as it is, Ctrl-D writes the lines of the session, and without
   either the editor goes on.
   */
  method Edit(source: Source, height: nat, codes: seq<Code>, reliable: bool) returns (o: Outcome, ghost linepos: int)
    ensures source.Unreadable? ==> o == Outcome(false, 1, None)
    ensures !source.Unreadable? ==>
              var keys := KeysOf(codes);
              var n := Handled(keys);
              var start := Text(Loaded(source), 0, 0, linepos, if height == 0 then 0 else height - 1);
              && Ok(start) && o.running == (n == |keys|)
              && (n == |keys| || keys[n] == QUIT ==> o.ret == 0 && o.saved == None)
              && (o.saved.Some? ==> o.saved.value <= Save(Session(start, keys[..n]).lines))
              && (reliable ==> o.ret == 0)
              && (n < |keys| && keys[n] == SAVE && o.ret == 0 ==>
                    && o.saved == Some(Save(Session(start, keys[..n]).lines))
                    && o.saved == Some(EditBuffer.Edited(Contents(source), linepos, start.page, codes[..n]))
                    && Load(o.saved.value) == Session(start, keys[..n]).lines)
  {
    hide Load, Save, Session, AllClean, Handled, KeyOf, EditBuffer.Edited;
    LoadClean(Contents(source));
    var e := new Editor(height);
    var failed := e.ReadFile(source);
    linepos := e.linepos;
    if failed != 0 {
      return Outcome(false, 1, None), linepos;
    }
    var n := e.Run(codes);
    if n == |codes| {
      return Outcome(true, 0, None), linepos;
    }
    if KeyOf(codes[n]) == QUIT {
      return Outcome(false, 0, None), linepos;
    }
    var ret, saved := e.SaveFile(reliable);
    SessionLoads(e.T());
    EditBuffer.HandledCodes(codes, n);
    EditBuffer.SavedFile(Contents(source), linepos, if height == 0 then 0 else height - 1, codes[..n]);
    o := Outcome(false, ret, saved);
  }

  /** The lines of any session survive being saved and loaded. */
  lemma {:induction false} SessionLoads(t: Text)
    requires Ok(t)
    ensures Load(Save(t.lines)) == t.lines && AllClean(t.lines)
  {
    LoadSaved(t.lines);
  }
}
