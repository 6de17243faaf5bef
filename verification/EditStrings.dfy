/** C strings in character arrays, as the editor changes them in place. */
module EditStrings {
  import opened EditColumns
  import opened EditFile
  import opened EditText

  /** The C string that starts at index p is s. */
  predicate StringAt(data: array<char>, p: nat, s: string)
    reads data
  {
    && p + |s| < data.Length && data[p + |s|] == '\0' && '\0' !in s
    && forall i :: 0 <= i < |s| ==> data[p + i] == s[i]
  }

  /** strlen */
  method StrLen(data: array<char>, ghost line: string) returns (n: nat)
    requires Terminated(data, line)
    ensures n == |line|
  {
    n := 0;
    EndsAt(data, line, 0);
    while data[n] != '\0'
      invariant n <= |line| && (data[n] == '\0' <==> n == |line|)
      decreases |line| - n
    {
      n := n + 1;
      EndsAt(data, line, n);
    }
  }

  /** strchr for a newline: its distance from p, or that of the end of the string. */
  method FindNewline(data: array<char>, p: nat, ghost s: string) returns (k: nat)
    requires StringAt(data, p, s)
    ensures k == IndexOf(s, '\n')
  {
    k := 0;
    while data[p + k] != '\0' && data[p + k] != '\n'
      invariant k <= |s| && '\n' !in s[..k]
      decreases |s| - k
    {
      assert k < |s|;
      assert s[..k + 1] == s[..k] + [s[k]];
      k := k + 1;
    }
    if k < |s| {
      assert s[k] in s && data[p + k] == s[k];
      IndexIs(s[..k], '\n', s[k + 1..]);
      assert s == s[..k] + ['\n'] + s[k + 1..];
    } else {
      assert s[..k] == s;
      IndexIs(s, '\n', "");
    }
  }

  /** memcpy of a string with its NUL into a new buffer. */
  method Copy(data: array<char>, p: nat, ghost s: string, n: nat, to: array<char>)
    requires StringAt(data, p, s) && n == |s| && n < to.Length && to != data
    modifies to
    ensures Terminated(to, s)
  {
    forall i | 0 <= i <= n {
      to[i] := data[p + i];
    }
  }

  /** Moves the tail up and puts c in front of it; a NUL ends the string there. */
  method InsertAt(data: array<char>, ghost line: string, n: nat, pos: nat, c: char)
    requires Terminated(data, line) && n == |line| && pos <= n && n + 2 <= data.Length
    modifies data
    ensures Terminated(data, InsertChar(line, pos, c))
  {
    var end: int := n;
    while end >= pos
      invariant pos - 1 <= end <= n
      invariant forall i :: 0 <= i <= end ==> data[i] == old(data[i])
      invariant forall i :: end < i <= n ==> data[i + 1] == old(data[i])
    {
      data[end + 1] := data[end];
      end := end - 1;
    }
    data[pos] := c;
    assert forall i :: pos < i <= n + 1 ==> data[i] == old(data[i - 1]);
  }

  /** Moves the tail down over the character at start. */
  method DeleteAt(data: array<char>, ghost line: string, n: nat, start: nat)
    requires Terminated(data, line) && n == |line| && start <= n
    modifies data
    ensures Terminated(data, DeleteChar(line, start))
  {
    var pos := start;
    while pos < n
      invariant start <= pos <= n
      invariant forall i :: 0 <= i < start ==> data[i] == old(data[i])
      invariant forall i :: start <= i < pos ==> data[i] == old(data[i + 1])
      invariant forall i :: pos <= i <= n ==> data[i] == old(data[i])
    {
      data[pos] := data[pos + 1];
      pos := pos + 1;
    }
  }

  /** A NUL ends the string at n. */
  method EndAt(data: array<char>, ghost line: string, n: nat)
    requires Terminated(data, line) && n <= |line|
    modifies data
    ensures Terminated(data, line[..n])
  {
    data[n] := '\0';
  }

  /** strcat */
  method StrCat(data: array<char>, ghost line: string, n: nat, more: array<char>, ghost tail: string, m: nat)
    requires Terminated(data, line) && Terminated(more, tail) && data != more
    requires n == |line| && m == |tail| && n + m < data.Length
    modifies data
    ensures Terminated(data, line + tail)
  {
    forall i | 0 <= i <= m {
      data[n + i] := more[i];
    }
    assert forall i :: n <= i < n + m ==> data[i] == more[i - n];
  }

  /** A buffer of the next power of two from 32 on that holds len characters. */
  method Alloc(len: nat) returns (r: array<char>)
    ensures fresh(r) && r.Length >= len && r.Length >= 32
  {
    var size := 32;
    while size < len
      invariant size >= 32
      decreases len - size
    {
      size := 2 * size;
    }
    r := new char[size](_ => '\0');
  }

  /** xrealloc, which keeps what fits. */
  method Realloc(data: array<char>, ghost line: string, len: nat) returns (r: array<char>)
    requires Terminated(data, line) && |line| < len
    ensures fresh(r) && r.Length >= len && Terminated(r, line)
  {
    r := Alloc(len);
    forall i | 0 <= i < r.Length && i < data.Length {
      r[i] := data[i];
    }
  }
}
