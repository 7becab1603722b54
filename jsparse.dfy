/** The global `parseInt(string)` of ECMAScript 2023 (ECMA-262, section
    19.2.5) with the radix argument left undefined, and the idiom
    `parseInt(s) || 0` that the analytics use. */
module JsParse {
  import opened Text

  datatype Option<T> = None | Some(value: T)

  /** Value of `c` as a digit in radixes up to 36 (`0`-`9`, then `a`-`z`
      or `A`-`Z` for 10..35), or 36 when it is no digit at all. */
  function DigitValue(c: char): (d: nat)
    ensures d <= 36
  {
    if '0' <= c <= '9' then c as int - '0' as int
    else if 'a' <= c <= 'z' then c as int - 'a' as int + 10
    else if 'A' <= c <= 'Z' then c as int - 'A' as int + 10
    else 36
  }

  /** The longest prefix of `s` made of radix-`radix` digits (step 11). */
  function DigitPrefix(s: string, radix: nat): (z: string)
    ensures |z| <= |s| && z == s[..|z|]
    ensures forall i :: 0 <= i < |z| ==> DigitValue(z[i]) < radix
    ensures |z| < |s| ==> DigitValue(s[|z|]) >= radix
  {
    if s != [] && DigitValue(s[0]) < radix then [s[0]] + DigitPrefix(s[1..], radix) else []
  }

  /** The mathematical value of a digit string in the given radix
      (step 14; most significant digit first). */
  function DigitsValue(z: string, radix: nat): (v: nat)
  {
    if z == [] then 0
    else DigitsValue(z[..|z| - 1], radix) * radix + DigitValue(z[|z| - 1])
  }

  /** `parseInt(input)`: strip leading white space (step 2), read one sign
      (steps 4-5) and parse the rest as a magnitude. A negative zero is
      returned as 0: every caller here treats it as 0. */
  function ParseInt(input: string): (r: Option<int>)
    ensures TrimStart(input) == [] ==> r.None?
    ensures r.Some? && r.value < 0 ==> TrimStart(input)[0] == '-'
    ensures var s := TrimStart(input);
            s != [] && s[0] != '-' && s[0] != '+' ==>
              (r.Some? <==> ParseMagnitude(s).Some?) && (r.Some? ==> r.value == ParseMagnitude(s).value)
  {
    var s := TrimStart(input);
    var negative := |s| > 0 && s[0] == '-';
    var unsigned := if |s| > 0 && (s[0] == '+' || s[0] == '-') then s[1..] else s;
    match ParseMagnitude(unsigned)
    case None => None
    case Some(m) => Some(if negative then -(m as int) else m)
  }

  /** The text opens with `0x` or `0X` (step 10). */
  predicate HexPrefix(u: string)
  {
    |u| >= 2 && u[0] == '0' && (u[1] == 'x' || u[1] == 'X')
  }

  /** Steps 10-14 on the unsigned text: a `0x`/`0X` prefix selects radix
      16, the digits up to the first non-digit are read, and an empty digit
      string is NaN (`None`). */
  function ParseMagnitude(unsigned: string): (r: Option<nat>)
    ensures !HexPrefix(unsigned) ==> (r.Some? <==> unsigned != [] && DigitValue(unsigned[0]) < 10)
    ensures HexPrefix(unsigned) ==> (r.Some? <==> |unsigned| > 2 && DigitValue(unsigned[2]) < 16)
  {
    var hex := HexPrefix(unsigned);
    var radix := if hex then 16 else 10;
    var z := DigitPrefix(if hex then unsigned[2..] else unsigned, radix);
    if z == [] then None else Some(DigitsValue(z, radix))
  }

  /** `parseInt(s) || 0`: NaN and zero are falsy, so both give 0; every
      other result is the parsed number itself. */
  function ParseIntOrZero(s: string): (r: int)
    ensures r != 0 ==> ParseInt(s) == Some(r)
    ensures r == 0 <==> ParseInt(s) == None || ParseInt(s) == Some(0)
  {
    match ParseInt(s)
    case None => 0
    case Some(v) => v
  }

  /** `String(i)` of an integral Number parses back to `i`. */
  lemma {:induction false} IntToStringParses(i: int)
    ensures ParseInt(IntToString(i)) == Some(i)
  {
    if i < 0 {
      var n: nat := -i;
      var u := "-" + NatToString(n);
      assert IntToString(i) == u;
      assert "" + ("-" + (NatToString(n) + "")) == u;
      ParseNegativeDecimal("", n, "");
      assert ParseInt(u) == Some(-(n as int));
    } else {
      assert IntToString(i) == NatToString(i);
      ParseNatToString(i);
    }
  }

  /** The decimal text of a natural number parses back to it: the index
      column of the CSV and a block index typed into the verifier both
      read back as the number that was rendered. */
  lemma {:induction false} ParseNatToString(n: nat)
    ensures ParseInt(NatToString(n)) == Some(n)
  {
    var s := NatToString(n);
    assert TrimStart(s) == s;
    DigitPrefixAll(s, 10);
    NatDigitsValue(n);
  }

  lemma {:induction false} DigitPrefixAll(s: string, radix: nat)
    requires forall i :: 0 <= i < |s| ==> DigitValue(s[i]) < radix
    ensures DigitPrefix(s, radix) == s
  {
    if s != [] {
      DigitPrefixAll(s[1..], radix);
      assert [s[0]] + s[1..] == s;
    }
  }

  lemma {:induction false} NatDigitsValue(n: nat)
    ensures DigitsValue(NatToString(n), 10) == n
  {
    if n >= 10 {
      NatDigitsValue(n / 10);
      var s := NatToString(n);
      assert s[..|s| - 1] == NatToString(n / 10);
    }
  }

  /** The general shape of a decimal parse: leading blanks, digits, then
      anything that does not start with a digit. The tail is ignored, so a
      unit suffix or a fractional part is dropped. */
  lemma {:induction false} ParsePositiveDecimal(blanks: string, n: nat, tail: string)
    requires forall i :: 0 <= i < |blanks| ==> IsJsSpace(blanks[i])
    requires tail == [] || DigitValue(tail[0]) >= 10
    requires n == 0 ==> tail == [] || (tail[0] != 'x' && tail[0] != 'X')
    ensures ParseInt(blanks + (NatToString(n) + tail)) == Some(n)
  {
    var unsigned := NatToString(n) + tail;
    MagnitudeDecimal(n, tail);
    assert !IsJsSpace(unsigned[0]) by {
      assert '0' <= unsigned[0] <= '9';
    }
    SkipBlanks(blanks, unsigned);
    ParseUnsigned(blanks + unsigned, unsigned, n);
  }

  /** The same with a minus sign before the digits. */
  lemma {:induction false} ParseNegativeDecimal(blanks: string, n: nat, tail: string)
    requires forall i :: 0 <= i < |blanks| ==> IsJsSpace(blanks[i])
    requires tail == [] || DigitValue(tail[0]) >= 10
    requires n == 0 ==> tail == [] || (tail[0] != 'x' && tail[0] != 'X')
    ensures ParseInt(blanks + ("-" + (NatToString(n) + tail))) == Some(-(n as int))
  {
    var unsigned := NatToString(n) + tail;
    MagnitudeDecimal(n, tail);
    var signed := "-" + unsigned;
    assert signed[0] == '-';
    assert !IsJsSpace('-');
    SkipBlanks(blanks, signed);
    ParseMinus(blanks + signed, unsigned, n);
  }

  /** A `0x` or `0X` prefix after the blanks reads the hexadecimal digits
      that follow, up to the first character that is no hex digit. */
  lemma {:induction false} ParseHexDigits(blanks: string, x: char, z: string, tail: string)
    requires forall i :: 0 <= i < |blanks| ==> IsJsSpace(blanks[i])
    requires x == 'x' || x == 'X'
    requires z != [] && forall i :: 0 <= i < |z| ==> DigitValue(z[i]) < 16
    requires tail == [] || DigitValue(tail[0]) >= 16
    ensures ParseInt(blanks + (['0', x] + (z + tail))) == Some(DigitsValue(z, 16))
  {
    var u := ['0', x] + (z + tail);
    assert HexPrefix(u) && u[2..] == z + tail;
    DigitPrefixStops(z, tail, 16);
    assert !IsJsSpace(u[0]);
    SkipBlanks(blanks, u);
    ParseUnsigned(blanks + u, u, DigitsValue(z, 16));
  }

  /** A plus sign before the digits is read and dropped. */
  lemma {:induction false} ParsePlusDecimal(blanks: string, n: nat, tail: string)
    requires forall i :: 0 <= i < |blanks| ==> IsJsSpace(blanks[i])
    requires tail == [] || DigitValue(tail[0]) >= 10
    requires n == 0 ==> tail == [] || (tail[0] != 'x' && tail[0] != 'X')
    ensures ParseInt(blanks + ("+" + (NatToString(n) + tail))) == Some(n)
  {
    var unsigned := NatToString(n) + tail;
    MagnitudeDecimal(n, tail);
    var signed := "+" + unsigned;
    assert signed[0] == '+';
    assert !IsJsSpace('+');
    SkipBlanks(blanks, signed);
    ParsePlus(blanks + signed, unsigned, n);
  }

  lemma {:induction false} ParsePlus(input: string, unsigned: string, m: nat)
    requires TrimStart(input) == "+" + unsigned
    requires ParseMagnitude(unsigned) == Some(m)
    ensures ParseInt(input) == Some(m)
  {
    assert ("+" + unsigned)[1..] == unsigned;
  }

  lemma {:induction false} ParseUnsigned(input: string, unsigned: string, m: nat)
    requires TrimStart(input) == unsigned
    requires unsigned != [] && unsigned[0] != '-' && unsigned[0] != '+'
    requires ParseMagnitude(unsigned) == Some(m)
    ensures ParseInt(input) == Some(m)
  {
  }

  lemma {:induction false} ParseMinus(input: string, unsigned: string, m: nat)
    requires TrimStart(input) == "-" + unsigned
    requires ParseMagnitude(unsigned) == Some(m)
    ensures ParseInt(input) == Some(-(m as int))
  {
    assert ("-" + unsigned)[1..] == unsigned;
  }

  lemma {:induction false} MagnitudeDecimal(n: nat, tail: string)
    requires tail == [] || DigitValue(tail[0]) >= 10
    requires n == 0 ==> tail == [] || (tail[0] != 'x' && tail[0] != 'X')
    ensures ParseMagnitude(NatToString(n) + tail) == Some(n)
  {
    var d := NatToString(n);
    DigitPrefixStops(d, tail, 10);
    NatDigitsValue(n);
    var u := d + tail;
    assert |u| >= 2 && u[0] == '0' ==> |d| == 1 && n == 0;
  }

  lemma {:induction false} DigitPrefixStops(d: string, tail: string, radix: nat)
    requires forall i :: 0 <= i < |d| ==> DigitValue(d[i]) < radix
    requires tail == [] || DigitValue(tail[0]) >= radix
    ensures DigitPrefix(d + tail, radix) == d
  {
    if d != [] {
      assert (d + tail)[1..] == d[1..] + tail;
      DigitPrefixStops(d[1..], tail, radix);
      assert [d[0]] + d[1..] == d;
    } else {
      assert d + tail == tail;
    }
  }

  lemma {:induction false} SkipBlanks(blanks: string, rest: string)
    requires forall i :: 0 <= i < |blanks| ==> IsJsSpace(blanks[i])
    requires rest == [] || !IsJsSpace(rest[0])
    ensures TrimStart(blanks + rest) == rest
  {
    if blanks == [] {
      assert blanks + rest == rest;
    } else {
      assert (blanks + rest)[1..] == blanks[1..] + rest;
      SkipBlanks(blanks[1..], rest);
    }
  }

  /** Words with no leading digit are NaN and count as zero. */
  lemma {:induction false} WordsAreZero(s: string)
    requires s != [] && 'a' <= s[0] <= 'z'
    ensures ParseInt(s) == None && ParseIntOrZero(s) == 0
  {
    assert !IsJsSpace(s[0]);
    assert TrimStart(s) == s;
    assert DigitPrefix(s, 10) == [];
    assert ParseMagnitude(s) == None;
  }

  /** A unit suffix is dropped: "12kg" is 12. */
  lemma {:induction false} ParseUnitSuffix()
    ensures ParseIntOrZero("12kg") == 12
  {
    TwoDigitsThen("12kg", 12);
  }

  /** A fraction is truncated: "12.9" is 12. */
  lemma {:induction false} ParseFraction()
    ensures ParseIntOrZero("12.9") == 12
  {
    TwoDigitsThen("12.9", 12);
  }

  /** Two decimal digits, not `0x`, followed by a non-digit: the parse is
      their value. */
  lemma {:induction false} TwoDigitsThen(s: string, n: nat)
    requires |s| >= 3 && '1' <= s[0] <= '9' && '0' <= s[1] <= '9' && DigitValue(s[2]) >= 10
    requires n == (s[0] as int - '0' as int) * 10 + (s[1] as int - '0' as int)
    ensures ParseInt(s) == Some(n) && ParseIntOrZero(s) == n
  {
    TwoDigitText(s, n);
    assert "" + (s[..2] + s[2..]) == s;
    ParsePositiveDecimal("", n, s[2..]);
  }

  lemma {:induction false} TwoDigitText(s: string, n: nat)
    requires |s| >= 2 && '1' <= s[0] <= '9' && '0' <= s[1] <= '9'
    requires n == (s[0] as int - '0' as int) * 10 + (s[1] as int - '0' as int)
    ensures NatToString(n) == s[..2]
  {
    var a := s[0] as int - '0' as int;
    var b := s[1] as int - '0' as int;
    assert n / 10 == a && n % 10 == b;
    assert NatToString(n) == [DigitChar(a)] + [DigitChar(b)];
  }

  /** A word is NaN, so "abc" counts as 0. */
  lemma {:induction false} ParseWord()
    ensures ParseInt("abc") == None && ParseIntOrZero("abc") == 0
  {
    WordsAreZero("abc");
  }

  /** Blanks are skipped and the sign kept: "  -7" is -7. */
  lemma {:induction false} ParseBlankSign()
    ensures ParseIntOrZero("  -7") == -7
  {
    assert NatToString(7) == "7";
    ParseNegativeDecimal("  ", 7, "");
    assert "  " + ("-" + ("7" + "")) == "  -7";
  }

  /** A block index typed as "1x" reads as 1. */
  lemma {:induction false} ParseTrailingLetter()
    ensures ParseInt("1x") == Some(1)
  {
    assert NatToString(1) == "1";
    assert "" + ("1" + "x") == "1x";
    ParsePositiveDecimal("", 1, "x");
  }

  /** "0x1A" is hexadecimal 26. */
  lemma {:induction false} ParseHexLiteral()
    ensures ParseInt("0x1A") == Some(26)
  {
    HexLiteralParts();
    ParseHexDigits("", 'x', "1A", "");
  }

  lemma {:induction false} HexLiteralParts()
    ensures "" + (['0', 'x'] + ("1A" + "")) == "0x1A"
    ensures DigitValue('1') == 1 && DigitValue('A') == 10
    ensures DigitsValue("1A", 16) == 26
  {
    assert "1A"[..1] == "1" && "1"[..0] == "";
  }

  /** "0x" with no digits after it is NaN. */
  lemma {:induction false} ParseBareHexPrefix()
    ensures ParseInt("0x") == None
  {
    assert TrimStart("0x") == "0x" by {
      assert !IsJsSpace('0');
    }
  }

  /** "+5" is 5. */
  lemma {:induction false} ParsePlusLiteral()
    ensures ParseInt("+5") == Some(5)
  {
    PlusLiteralParts();
    ParsePlusDecimal("", 5, "");
  }

  lemma {:induction false} PlusLiteralParts()
    ensures "" + ("+" + (NatToString(5) + "")) == "+5"
  {
    assert NatToString(5) == "5";
  }
}
