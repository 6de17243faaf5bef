/** The numbers bootchooser keeps in environment variables: written with "%d", read with simple_strtoul base 0. */
module BootStore {
  import opened Seqs

  const TWO31: nat := 0x8000_0000
  const TWO32: nat := 0x1_0000_0000

  type u32 = x: nat | x < 0x1_0000_0000

  const DIGITS := "0123456789abcdef"
  const UPPER := "0123456789ABCDEF"

  /** A number in a base up to 16, without leading zeros. */
  function Numeral(n: nat, base: nat): (s: string)
    requires 2 <= base <= 16
    ensures |s| > 0
  {
    if n < base then [DIGITS[n]]
    else
      Quotient(n, base);
      Numeral(n / base, base) + [DIGITS[n % base]]
  }

  /** printf("%d") of an unsigned int. */
  function FormatInt(v: u32): (s: string)
    ensures |s| > 0
  {
    if v < TWO31 then Numeral(v, 10) else "-" + Numeral(TWO32 - v, 10)
  }

  /** A C string reads as NUL behind its end. */
  function CharAt(s: string, i: nat): char {
    if i < |s| then s[i] else '\0'
  }

  function DigitValue(c: char): Option<nat> {
    if '0' <= c <= '9' then Some(c as nat - '0' as nat)
    else if 'a' <= c <= 'f' then Some(c as nat - 'a' as nat + 10)
    else if 'A' <= c <= 'F' then Some(c as nat - 'A' as nat + 10)
    else None
  }

  /** _parse_integer: digits below the base are folded up to the first other character. */
  function ParseDigits(s: string, base: nat, acc: nat): nat
    decreases |s|
  {
    if s == [] then acc else
      match DigitValue(s[0])
      case None => acc
      case Some(v) => if v >= base then acc else ParseDigits(s[1..], base, acc * base + v)
  }

  /** _parse_integer_fixup_radix for base 0, then the digits; the caller stores 32 bits. */
  function ParseU32(s: string): (v: u32) {
    if CharAt(s, 0) == '0' then
      if (CharAt(s, 1) == 'x' || CharAt(s, 1) == 'X') && DigitValue(CharAt(s, 2)).Some? then
        ParseDigits(s[2..], 16, 0) % TWO32
      else
        ParseDigits(s, 8, 0) % TWO32
    else
      ParseDigits(s, 10, 0) % TWO32
  }

  /** A digit of the base, in either case. */
  predicate IsDigit(c: char, base: nat)
    requires base <= 16
  {
    c in DIGITS[..base] || c in UPPER[..base]
  }

  lemma {:induction false} DigitValueIs(c: char, base: nat)
    requires 2 <= base <= 16
    ensures IsDigit(c, base) <==> DigitValue(c).Some? && DigitValue(c).value < base
  {
    var v := DigitValue(c);
    if v.Some? {
      assert c == DIGITS[v.value] || c == UPPER[v.value];
      if v.value < base {
        assert c == DIGITS[..base][v.value] || c == UPPER[..base][v.value];
      }
    }
  }

  lemma {:induction false} DigitRead(n: nat)
    requires n < 16
    ensures DigitValue(DIGITS[n]) == Some(n)
  {
  }

  /** One more digit. */
  lemma {:induction false} ParseNext(s: string, base: nat, acc: nat, n: nat, rest: string)
    requires 2 <= base <= 16 && n < base && forall i :: 0 <= i < |s| ==> IsDigit(s[i], base)
    ensures ParseDigits(s + [DIGITS[n]] + rest, base, acc)
            == ParseDigits(rest, base, ParseDigits(s, base, acc) * base + n)
    decreases |s|
  {
    hide IsDigit;
    if s == [] {
      DigitRead(n);
      assert s + [DIGITS[n]] + rest == [DIGITS[n]] + rest && ([DIGITS[n]] + rest)[1..] == rest;
    } else {
      DigitValueIs(s[0], base);
      ParseNext(s[1..], base, acc * base + DigitValue(s[0]).value, n, rest);
      assert (s + [DIGITS[n]] + rest)[1..] == s[1..] + [DIGITS[n]] + rest;
    }
  }

  lemma {:induction false} NumeralDigits(n: nat, base: nat)
    requires 2 <= base <= 16
    ensures forall i :: 0 <= i < |Numeral(n, base)| ==> IsDigit(Numeral(n, base)[i], base)
    ensures n > 0 ==> Numeral(n, base)[0] != '0'
  {
    var d := if n < base then n else n % base;
    assert DIGITS[d] == DIGITS[..base][d];
    if n >= base {
      NumeralDigits(n / base, base);
    }
  }

  /** The digits end at rest. */
  predicate Ends(rest: string, base: nat)
    requires base <= 16
  {
    rest != "" ==> !IsDigit(rest[0], base)
  }

  lemma {:induction false} ParseEnds(rest: string, base: nat, acc: nat)
    requires 2 <= base <= 16 && Ends(rest, base)
    ensures ParseDigits(rest, base, acc) == acc
  {
    if rest != "" {
      DigitValueIs(rest[0], base);
    }
  }

  /** The digits of a number give the number. */
  lemma {:induction false} NumeralParsed(n: nat, base: nat, rest: string)
    requires 2 <= base <= 16 && Ends(rest, base)
    ensures ParseDigits(Numeral(n, base) + rest, base, 0) == n
    decreases n
  {
    hide *;
    if n < base {
      OneDigit(n, base, rest);
    } else {
      Quotient(n, base);
      NothingEnds(base);
      NumeralParsed(n / base, base, "");
      MoreDigits(n, base, rest);
    }
  }

  lemma {:induction false} Quotient(n: nat, base: nat)
    requires 2 <= base <= n
    ensures n / base * base + n % base == n && n / base < n
  {
  }

  lemma {:induction false} NothingEnds(base: nat)
    requires base <= 16
    ensures Ends("", base)
  {
  }

  lemma {:induction false} OneDigit(n: nat, base: nat, rest: string)
    requires 2 <= base <= 16 && Ends(rest, base) && n < base
    ensures ParseDigits(Numeral(n, base) + rest, base, 0) == n
  {
    hide *;
    ParseNext("", base, 0, n, rest);
    ParseEnds(rest, base, n);
    NumeralOne(n, base);
    assert "" + [DIGITS[n]] + rest == [DIGITS[n]] + rest;
  }

  lemma {:induction false} NumeralOne(n: nat, base: nat)
    requires 2 <= base <= 16 && n < base
    ensures |DIGITS| == 16 && Numeral(n, base) == [DIGITS[n]] && ParseDigits("", base, 0) == 0
  {
  }

  lemma {:induction false} MoreDigits(n: nat, base: nat, rest: string)
    requires 2 <= base <= 16 && Ends(rest, base) && n >= base
    requires ParseDigits(Numeral(n / base, base) + "", base, 0) == n / base
    requires n / base * base + n % base == n
    ensures ParseDigits(Numeral(n, base) + rest, base, 0) == n
  {
    var before := Numeral(n / base, base);
    assert before + "" == before;
    NumeralDigits(n / base, base);
    ParseNext(before, base, 0, n % base, rest);
    ParseEnds(rest, base, n);
    hide IsDigit, ParseDigits;
  }

  /** Numbers in all notations: hex behind 0x, octal behind 0, decimal; and 0 where there is none. */
  lemma {:induction false} NumberRead(n: nat, rest: string)
    ensures Ends(rest, 16) ==> ParseU32("0x" + Numeral(n, 16) + rest) == n % TWO32
    ensures Ends(rest, 16) ==> ParseU32("0X" + Numeral(n, 16) + rest) == n % TWO32
    ensures Ends(rest, 8) ==> ParseU32("0" + Numeral(n, 8) + rest) == n % TWO32
    ensures Ends(rest, 10) && n > 0 ==> ParseU32(Numeral(n, 10) + rest) == n % TWO32
    ensures Ends(rest, 16) ==> ParseU32("0x" + rest) == ParseU32("0X" + rest) == 0
    ensures Ends(rest, 10) ==> ParseU32(rest) == 0
  {
    hide *;
    assert "0" + "x" == "0x" && "0" + "X" == "0X";
    if Ends(rest, 16) {
      HexRead(n, "x", rest);
      HexRead(n, "X", rest);
    }
    if Ends(rest, 8) {
      OctalRead(n, rest);
    }
    if Ends(rest, 10) {
      DecimalRead(n, rest);
    }
  }

  lemma {:induction false} HexRead(n: nat, x: string, rest: string)
    requires Ends(rest, 16) && (x == "x" || x == "X")
    ensures ParseU32("0" + x + Numeral(n, 16) + rest) == n % TWO32 && ParseU32("0" + x + rest) == 0
  {
    var text := Numeral(n, 16) + rest;
    var s := "0" + x + Numeral(n, 16) + rest;
    assert s[2..] == text && s[0] == '0' && s[1] == x[0] && s[2] == Numeral(n, 16)[0];
    NumeralParsed(n, 16, rest);
    NumeralDigits(n, 16);
    DigitValueIs(s[2], 16);
    NoDigit(x, rest);
    hide ParseDigits, IsDigit, Numeral, DigitValue;
  }

  lemma {:induction false} NoDigit(x: string, rest: string)
    requires Ends(rest, 16) && (x == "x" || x == "X")
    ensures ParseU32("0" + x + rest) == 0
  {
    var s := "0" + x + rest;
    assert s[0] == '0' && s[1] == x[0] && s[1..] == x + rest && (x + rest)[0] == x[0];
    if rest != "" {
      assert s[2] == rest[0];
      DigitValueIs(rest[0], 16);
    }
    assert ParseDigits(s, 8, 0) == ParseDigits(s[1..], 8, 0);
  }

  lemma {:induction false} OctalRead(n: nat, rest: string)
    requires Ends(rest, 8)
    ensures ParseU32("0" + Numeral(n, 8) + rest) == n % TWO32
  {
    var text := Numeral(n, 8) + rest;
    var s := "0" + Numeral(n, 8) + rest;
    assert s[1..] == text && s[0] == '0' && s[1] == Numeral(n, 8)[0];
    NumeralParsed(n, 8, rest);
    NumeralDigits(n, 8);
    DigitValueIs(s[1], 8);
    assert ParseDigits(s, 8, 0) == ParseDigits(text, 8, 0);
  }

  lemma {:induction false} DecimalRead(n: nat, rest: string)
    requires Ends(rest, 10)
    ensures n > 0 ==> ParseU32(Numeral(n, 10) + rest) == n % TWO32
    ensures ParseU32(rest) == 0
  {
    NumeralParsed(n, 10, rest);
    NumeralDigits(n, 10);
    ParseEnds(rest, 10, 0);
    if rest != "" {
      DigitValueIs(rest[0], 10);
    }
  }

  /** What is read back after writing v. */
  function Stored(v: u32): (r: u32)
    ensures r <= v
  {
    if v < TWO31 then v else 0
  }

  /** Values below 2^31 survive, larger ones are written as negative numbers and read back as 0. */
  lemma {:induction false} FormatParse(v: u32)
    ensures ParseU32(FormatInt(v)) == Stored(v)
  {
    NothingEnds(10);
    hide Numeral, ParseU32;
    if v == 0 {
      ZeroRead();
    } else if v < TWO31 {
      DecimalRead(v, "");
      assert Numeral(v, 10) + "" == Numeral(v, 10);
    } else {
      MinusRead(Numeral(TWO32 - v, 10));
    }
  }

  lemma {:induction false} ZeroRead()
    ensures Numeral(0, 10) == "0" && ParseU32("0") == 0
  {
    assert "0"[1..] == "";
  }

  lemma {:induction false} MinusRead(s: string)
    ensures ParseU32("-" + s) == 0
  {
    assert ("-" + s)[0] == '-';
  }

  /** So a saved value is reloaded unchanged exactly when it is below 2^31. */
  lemma {:induction false} FormatParseExact(v: u32)
    ensures ParseU32(FormatInt(v)) == v <==> v < TWO31
  {
    FormatParse(v);
  }
}
