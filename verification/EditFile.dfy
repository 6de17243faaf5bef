/** The file behind the editor: how it is cut into lines and written back. */
module EditFile {
  /** A line as the editor holds it. */
  predicate Clean(s: string) {
    '\0' !in s && '\n' !in s
  }

  predicate AllClean(lines: seq<string>) {
    forall i :: 0 <= i < |lines| ==> Clean(lines[i])
  }

  /** The index of the first c, or the length. */
  function IndexOf(s: string, c: char): (k: nat)
    ensures k <= |s| && (k < |s| ==> s[k] == c)
    ensures c !in s[..k]
  {
    if s == [] || s[0] == c then 0 else
    var k := 1 + IndexOf(s[1..], c);
    assert s[..k] == [s[0]] + s[1..][..k - 1];
    k
  }

  lemma {:induction false} IndexIs(s: string, c: char, rest: string)
    requires c !in s
    ensures IndexOf(s, c) == |s| && IndexOf(s + [c] + rest, c) == |s|
  {
    if s != [] {
      IndexIs(s[1..], c, rest);
      assert (s + [c] + rest)[1..] == s[1..] + [c] + rest;
    }
  }

  /** The C string at the start of a file. */
  function Visible(file: string): (r: string)
    ensures '\0' !in r
  {
    file[..IndexOf(file, '\0')]
  }

  /** A string cut at its newlines; a newline at the end does not start another line. */
  function Cut(s: string): (lines: seq<string>)
    decreases |s|
  {
    if s == [] then []
    else
      var k := IndexOf(s, '\n');
      if k == |s| then [s] else [s[..k]] + Cut(s[k + 1..])
  }

  /** The lines edit_read_file makes of a file. */
  function Load(file: string): (lines: seq<string>)
    ensures |lines| > 0
  {
    var lines := Cut(Visible(file));
    if lines == [] then [""] else lines
  }

  /** The file save_file makes of the lines. */
  function Save(lines: seq<string>): (file: string)
  {
    if lines == [] then "" else lines[0] + "\n" + Save(lines[1..])
  }

  lemma {:induction false} SaveAppend(a: seq<string>, b: seq<string>)
    ensures Save(a + b) == Save(a) + Save(b)
  {
    if a == [] {
      assert a + b == b;
    } else {
      SaveAppend(a[1..], b);
      assert (a + b)[1..] == a[1..] + b;
    }
  }

  lemma {:induction false} SavedVisible(lines: seq<string>)
    requires AllClean(lines)
    ensures '\0' !in Save(lines)
  {
    if lines != [] {
      SavedVisible(lines[1..]);
      assert Clean(lines[0]);
    }
  }

  lemma {:induction false} CutSaved(lines: seq<string>)
    requires AllClean(lines)
    ensures Cut(Save(lines)) == lines
  {
    if lines != [] {
      var s, rest := Save(lines), Save(lines[1..]);
      assert Clean(lines[0]);
      CutSaved(lines[1..]);
      IndexIs(lines[0], '\n', rest);
      assert s == lines[0] + ['\n'] + rest;
      assert s[..|lines[0]|] == lines[0] && s[|lines[0]| + 1..] == rest;
    }
  }

  lemma {:induction false} AllVisible(s: string)
    requires '\0' !in s
    ensures Visible(s) == s
  {
    IndexIs(s, '\0', "");
  }

  /** Saved lines load back as they were. */
  lemma {:induction false} LoadSaved(lines: seq<string>)
    requires AllClean(lines) && lines != []
    ensures Load(Save(lines)) == lines
  {
    SavedVisible(lines);
    AllVisible(Save(lines));
    CutSaved(lines);
  }

  lemma {:induction false} SaveCut(s: string)
    requires s != []
    ensures Cut(s) != [] && Save(Cut(s)) == if s[|s| - 1] == '\n' then s else s + "\n"
    decreases |s|
  {
    hide Save;
    var k := IndexOf(s, '\n');
    if k == |s| {
      assert s[..k] == s && s[|s| - 1] in s;
      SaveOne(s, []);
    } else {
      var rest := s[k + 1..];
      assert s == s[..k] + "\n" + rest;
      SaveOne(s[..k], Cut(rest));
      if rest != [] {
        SaveCut(rest);
        assert rest[|rest| - 1] == s[|s| - 1];
        assert s[..k] + "\n" + (rest + "\n") == s + "\n";
      }
    }
  }

  lemma {:induction false} SaveOne(line: string, lines: seq<string>)
    ensures Save([]) == "" && Save([line] + lines) == line + "\n" + Save(lines)
    ensures Save([line]) == line + "\n"
  {
    assert ([line] + lines)[1..] == lines && [line][1..] == [];
  }

  /** A file that is loaded and saved comes back, with a newline at the end if there was none. */
  lemma {:induction false} SaveLoaded(file: string)
    ensures var s := Visible(file);
            Save(Load(file)) == if s != [] && s[|s| - 1] == '\n' then s else s + "\n"
  {
    var s := Visible(file);
    if s != [] {
      SaveCut(s);
    } else {
      SaveOne("", []);
    }
  }

  lemma {:induction false} CutClean(s: string)
    requires '\0' !in s
    ensures AllClean(Cut(s))
    decreases |s|
  {
    if s != [] {
      var k := IndexOf(s, '\n');
      if k < |s| {
        CutClean(s[k + 1..]);
      } else {
        assert s[..k] == s;
      }
    }
  }

  lemma {:induction false} LoadClean(file: string)
    ensures AllClean(Load(file))
  {
    CutClean(Visible(file));
  }
}
