/** Small shared vocabulary: an optional value, and the integer helpers the
    stores use (JavaScript `Math.min`/`Math.max` on two operands and the
    integer prefix that `parseInt` reads from a string). */
module Base {

  datatype Option<+T> = None | Some(value: T)

  function Min(a: int, b: int): int { if a <= b then a else b }

  function Max(a: int, b: int): int { if a >= b then a else b }

  /** The value of a digit character in bases up to 36: letters of either
      case stand for 10 to 35; any other character gets 36. */
  function DigitValue(c: char): (d: nat)
    ensures d <= 36
    ensures d < 10 <==> '0' <= c <= '9'
  {
    if '0' <= c <= '9' then c as int - '0' as int
    else if 'a' <= c <= 'z' then c as int - 'a' as int + 10
    else if 'A' <= c <= 'Z' then c as int - 'A' as int + 10
    else 36
  }

  predicate IsDigitIn(c: char, radix: nat) { DigitValue(c) < radix }

  /** The lower-case digit character of value `d`. */
  function DigitChar(d: nat): (c: char)
    requires d < 36
    ensures DigitValue(c) == d
  {
    if d < 10 then ('0' as int + d) as char else ('a' as int + d - 10) as char
  }

  /** Number of leading digits of `s` in base `radix`. */
  function DigitPrefix(s: string, radix: nat): (n: nat)
    ensures n <= |s|
    ensures forall k :: 0 <= k < n ==> IsDigitIn(s[k], radix)
    ensures n < |s| ==> !IsDigitIn(s[n], radix)
  {
    if |s| == 0 || !IsDigitIn(s[0], radix) then 0 else 1 + DigitPrefix(s[1..], radix)
  }

  /** Value of a string made only of digits in base `radix`. */
  function DigitsValue(s: string, radix: nat): (v: nat)
    requires forall k :: 0 <= k < |s| ==> IsDigitIn(s[k], radix)
    decreases |s|
  {
    if |s| == 0 then 0
    else
      var init := s[..|s| - 1];
      assert forall k :: 0 <= k < |init| ==> init[k] == s[k];
      var v := DigitsValue(init, radix);
      NatProduct(radix, v);
      radix * v + DigitValue(s[|s| - 1])
  }

  lemma NatProduct(a: nat, b: nat)
    ensures a * b >= 0
  {
  }

  /** Rendering of a natural number in base `radix` with lower-case letters;
      `Digits(n, 10)` is JavaScript's `String(n)` (the inverse partner of
      DigitsValue). */
  function Digits(n: nat, radix: nat): (s: string)
    requires 2 <= radix <= 36
    ensures |s| > 0
    ensures forall k :: 0 <= k < |s| ==> IsDigitIn(s[k], radix)
  {
    if n < radix then [DigitChar(n)]
    else
      DivStep(n, radix);
      Digits(n / radix, radix) + [DigitChar(n % radix)]
  }

  /** One step of base-`radix` division of a number of two or more digits. */
  lemma DivStep(n: nat, radix: nat)
    requires 2 <= radix <= n
    ensures n / radix < n && n % radix < radix && n == radix * (n / radix) + n % radix
  {
  }

  lemma {:induction false} DigitsRoundTrip(n: nat, radix: nat)
    requires 2 <= radix <= 36
    ensures DigitsValue(Digits(n, radix), radix) == n
  {
    var s := Digits(n, radix);
    if n >= radix {
      DivStep(n, radix);
      var q, d := n / radix, n % radix;
      DigitsRoundTrip(q, radix);
      assert s == Digits(q, radix) + [DigitChar(d)];
      assert s[..|s| - 1] == Digits(q, radix);
      assert DigitsValue(s, radix) == radix * q + d;
    }
  }

  /** The characters `parseInt` skips before the number: the white space
      and line terminators of sections 12.2 and 12.3 of ECMA-262 (tab,
      vertical tab, form feed, space, no-break space, byte order mark,
      the space separators of Unicode category Zs, line feed, carriage
      return, line and paragraph separators). */
  predicate IsJsSpace(c: char)
  {
    c == '\t' || c == '\n' || c == '\U{000B}' || c == '\U{000C}' || c == '\r' || c == ' '
    || c == '\U{00A0}' || c == '\U{1680}' || ('\U{2000}' <= c <= '\U{200A}')
    || c == '\U{2028}' || c == '\U{2029}' || c == '\U{202F}' || c == '\U{205F}'
    || c == '\U{3000}' || c == '\U{FEFF}'
  }

  function TrimStart(s: string): (t: string)
    ensures |t| == 0 || !IsJsSpace(t[0])
    ensures |t| <= |s| && t == s[|s| - |t|..]
    ensures forall k :: 0 <= k < |s| - |t| ==> IsJsSpace(s[k])
  {
    if |s| > 0 && IsJsSpace(s[0]) then TrimStart(s[1..]) else s
  }

  /** `s` without a leading sign character. */
  function Unsigned(s: string): (u: string)
  {
    if |s| > 0 && (s[0] == '-' || s[0] == '+') then s[1..] else s
  }

  /** Whether `u` starts with "0x" or "0X". */
  predicate HexMarked(u: string)
  {
    |u| >= 2 && u[0] == '0' && (u[1] == 'x' || u[1] == 'X')
  }

  /** Whether `parseInt` with this radix (0 when absent) skips a "0x"
      prefix of the unsigned text `u`. */
  predicate SkipsHexMark(u: string, radix: nat) { (radix == 0 || radix == 16) && HexMarked(u) }

  /** The base `parseInt` reads the unsigned text `u` in: 16 after a skipped
      "0x" prefix, 10 when the radix is absent, the radix otherwise. */
  function NumeralBase(u: string, radix: nat): nat
  {
    if SkipsHexMark(u, radix) then 16 else if radix == 0 then 10 else radix
  }

  /** The unsigned text `u` without a skipped "0x" prefix. */
  function Numeral(u: string, radix: nat): string
  {
    if SkipsHexMark(u, radix) then u[2..] else u
  }

  function Negate(r: Option<int>): Option<int>
  {
    match r case Some(v) => Some(-v) case None => None
  }

  /** `parseInt(s, radix)`, with 0 standing for an absent radix. Leading
      white space and one sign are skipped; with no radix, or radix 16, a
      "0x"/"0X" prefix is skipped too and an absent radix becomes 16 after
      it and 10 otherwise; then the longest run of digits of that base is
      read. `None` stands for NaN: no digit at all. */
  function ParseInt(s: string, radix: nat): (r: Option<int>)
    requires radix == 0 || 2 <= radix <= 36
    // leading white space is skipped
    ensures |s| > 0 && IsJsSpace(s[0]) ==> r == ParseInt(s[1..], radix)
    // NaN exactly when no digit of the base follows the sign and prefix
    ensures !(|s| > 0 && IsJsSpace(s[0])) ==>
      (r.None? <==> var u := Unsigned(s); var w := Numeral(u, radix);
                    |w| == 0 || !IsDigitIn(w[0], NumeralBase(u, radix)))
    decreases |s|
  {
    if |s| > 0 && IsJsSpace(s[0]) then ParseInt(s[1..], radix)
    else
      var u := Unsigned(s);
      var b := NumeralBase(u, radix);
      var w := Numeral(u, radix);
      var n := DigitPrefix(w, b);
      if n == 0 then None
      else
        var v: int := DigitsValue(w[..n], b);
        if |s| > 0 && s[0] == '-' then Some(-v) else Some(v)
  }

  /** The digits of a number, followed by anything that is not a digit,
      read back as that number, with or without the radix 10. */
  lemma ParseIntDigits(n: nat, t: string, radix: nat)
    requires radix == 0 || radix == 10
    requires |t| == 0 || !IsDigitIn(t[0], 10)
    requires radix == 10 || n > 0 || |t| == 0 || (t[0] != 'x' && t[0] != 'X')
    ensures ParseInt(Digits(n, 10) + t, radix) == Some(n)
  {
    var d := Digits(n, 10);
    var s := d + t;
    assert s[..|d|] == d;
    if n > 0 && |d| >= 2 {
      assert d[0] != '0' by { LeadingDigit(n, 10); }
    }
    assert !SkipsHexMark(s, radix);
    DigitPrefixOf(d, t, 10);
    DigitsRoundTrip(n, 10);
  }

  /** "0x" and the hexadecimal digits of a number read back as that number
      when no radix is given. */
  lemma ParseIntHex(n: nat, x: char)
    requires x == 'x' || x == 'X'
    ensures ParseInt(['0', x] + Digits(n, 16), 0) == Some(n)
  {
    var d := Digits(n, 16);
    var s := ['0', x] + d;
    assert s[2..] == d + [];
    DigitPrefixOf(d, [], 16);
    assert d[..|d|] == d;
    DigitsRoundTrip(n, 16);
  }

  /** A minus sign negates the reading of the text after it, a plus sign
      changes nothing, as long as that text starts with neither white space
      nor another sign. */
  lemma ParseIntSign(u: string, radix: nat)
    requires radix == 0 || 2 <= radix <= 36
    requires |u| == 0 || (!IsJsSpace(u[0]) && u[0] != '-' && u[0] != '+')
    ensures ParseInt(['-'] + u, radix) == Negate(ParseInt(u, radix))
    ensures ParseInt(['+'] + u, radix) == ParseInt(u, radix)
  {
    assert Unsigned(['-'] + u) == u;
    assert Unsigned(['+'] + u) == u;
  }

  /** The most significant digit of a number of two or more digits is not 0. */
  lemma {:induction false} LeadingDigit(n: nat, radix: nat)
    requires 2 <= radix <= 36 && n >= radix
    ensures Digits(n, radix)[0] != '0'
  {
    if n / radix >= radix {
      LeadingDigit(n / radix, radix);
    } else {
      assert Digits(n / radix, radix) == [DigitChar(n / radix)];
    }
  }

  /** Digits followed by a non-digit: the digit run is exactly the digits. */
  lemma DigitPrefixOf(d: string, t: string, radix: nat)
    requires forall k :: 0 <= k < |d| ==> IsDigitIn(d[k], radix)
    requires |t| == 0 || !IsDigitIn(t[0], radix)
    ensures DigitPrefix(d + t, radix) == |d|
    ensures (d + t)[..|d|] == d
  {
    var s := d + t;
    assert s[..|d|] == d;
  }

  /** Without a radix, "0x1A" is hexadecimal; with radix 10 only its "0" is read. */
  lemma ParseIntHexExample()
    ensures ParseInt("0x1A", 0) == Some(26) && ParseInt("0x1A", 10) == Some(0)
  {
    var u := "0x1A";
    assert SkipsHexMark(u, 0) && NumeralBase(u, 0) == 16;
    assert Numeral(u, 0) == "1A";
    assert DigitPrefix("1A", 16) == 2;
    assert "1A"[..2] == "1A" && "1A"[..1] == "1";
    assert DigitsValue("1A", 16) == 26;
    assert DigitPrefix("0x1A", 10) == 1;
    assert "0x1A"[..1] == "0";
  }

  /** Any JavaScript white space may precede the number. */
  lemma ParseIntSpaceExample()
    ensures ParseInt("\t5", 0) == Some(5) && ParseInt("\U{00A0}\n-7", 0) == Some(-7)
  {
    assert "\t5"[1..] == "5" && "5"[..1] == "5";
    assert "\U{00A0}\n-7"[1..][1..] == "-7" && "-7"[1..] == "7" && "7"[..1] == "7";
  }

  /** The reading stops at the first non-digit. */
  lemma ParseIntStopExample()
    ensures ParseInt("12px", 0) == Some(12)
  {
    var s := "12px";
    assert !IsJsSpace(s[0]) && Unsigned(s) == s && Numeral(s, 0) == s && NumeralBase(s, 0) == 10;
    assert DigitPrefix(s, 10) == 2;
    assert s[..2] == "12" && "12"[..1] == "1";
    assert DigitsValue("1", 10) == 1;
    assert DigitsValue("12", 10) == 12;
  }

  /** A bare prefix, an empty text and a word are NaN. */
  lemma ParseIntNaNExample()
    ensures ParseInt("0x", 0).None? && ParseInt("", 0).None? && ParseInt("abc", 0).None?
  {
  }
}
