/** What the numbers of a response line are worth (C99, section 7.20.1.4, with a 32-bit long). */
module AtNumbers {
  import opened Common
  import opened AtTok

  // ---------------------------------------------------------------- positional notation

  /** The worth of a decimal or hexadecimal digit. */
  function Worth(c: char): (n: nat)
    requires IsDigit(c, 16)
    ensures n < 16
  {
    if '0' <= c <= '9' then c as int - '0' as int
    else if 'a' <= c <= 'f' then c as int - 'a' as int + 10
    else c as int - 'A' as int + 10
  }

  predicate IsDigit(c: char, base: nat) {
    || '0' <= c <= '9'
    || (base == 16 && ('a' <= c <= 'f' || 'A' <= c <= 'F'))
  }

  predicate Digits(s: string, base: nat) {
    forall i :: 0 <= i < |s| ==> IsDigit(s[i], base)
  }

  /** The number written by digits, the last of which counts once. */
  function Positional(s: string, base: nat): nat
    requires Digits(s, base) && (base == 10 || base == 16)
  {
    if s == "" then 0 else Positional(s[..|s| - 1], base) * base + Worth(s[|s| - 1])
  }

  lemma DigitWorth(c: char, base: nat)
    requires base == 10 || base == 16
    ensures DigitValue(c, base) == if IsDigit(c, base) then Some(Worth(c)) else None
  {
  }

  lemma {:induction false} PositionalMore(done: string, c: char, base: nat)
    requires (base == 10 || base == 16) && Digits(done, base) && IsDigit(c, base)
    ensures Digits(done + [c], base) && Positional(done + [c], base) == Positional(done, base) * base + Worth(c)
  {
    assert (done + [c])[..|done|] == done;
  }

  lemma {:induction false} ReadOne(c: char, s: string, base: nat, acc: nat)
    requires (base == 10 || base == 16) && IsDigit(c, base)
    ensures DigitsValue([c] + s, base, acc) == DigitsValue(s, base, acc * base + Worth(c))
  {
    DigitWorth(c, base);
    assert ([c] + s)[1..] == s;
  }

  /** Reading digits one by one from the front. */
  lemma {:induction false} ReadDigits(done: string, s: string, tail: string, base: nat)
    requires (base == 10 || base == 16) && Digits(done, base) && Digits(s, base)
    requires tail != "" ==> !IsDigit(tail[0], base)
    ensures Digits(done + s, base)
    ensures DigitsValue(s + tail, base, Positional(done, base)) == Positional(done + s, base)
    decreases |s|
  {
    if s == "" {
      assert done + s == done && s + tail == tail;
      if tail != "" {
        DigitWorth(tail[0], base);
      }
    } else {
      var c, rest := s[0], s[1..];
      PositionalMore(done, c, base);
      ReadDigits(done + [c], rest, tail, base);
      ReadOne(c, rest + tail, base, Positional(done, base));
      assert s + tail == [c] + (rest + tail) && done + [c] + rest == done + s;
    }
  }

  // ---------------------------------------------------------------- white space and sign

  /** The characters that isspace takes for white space. */
  predicate Blank(c: char) {
    c == ' ' || c == '\t' || c == '\n' || c == 11 as char || c == 12 as char || c == '\r'
  }

  lemma BlankExact(c: char)
    ensures IsSpace(c) <==> Blank(c)
  {
  }

  datatype Sign = NoSign | Plus | Minus

  function SignText(sign: Sign): string {
    match sign
    case NoSign => ""
    case Plus => "+"
    case Minus => "-"
  }

  /** Spaces, a sign, and the rest, which does not start like more of them. */
  predicate Written(tok: string, lead: string, sign: Sign, rest: string) {
    && tok == lead + SignText(sign) + rest
    && (forall i :: 0 <= i < |lead| ==> Blank(lead[i]))
    && (rest != "" ==> !Blank(rest[0]) && (sign.NoSign? ==> rest[0] != '+' && rest[0] != '-'))
  }

  /** The part of a number behind its sign that strtol looks at: behind "0x", if hexadecimal digits follow. */
  function Unprefixed(u: string, base: nat): string {
    if base == 16 && |u| > 2 && u[0] == '0' && (u[1] == 'x' || u[1] == 'X') && StartsWithDigit(u[2..], 16)
    then u[2..] else u
  }

  lemma {:induction false} NumberWritten(tok: string, lead: string, sign: Sign, rest: string, base: nat)
    requires Written(tok, lead, sign, rest)
    ensures var v := Unprefixed(rest, base);
            Number(tok, base) ==
            if StartsWithDigit(v, base) then Some((sign.Minus?, DigitsValue(v, base, 0))) else None
  {
    var t := SignText(sign) + rest;
    forall i | 0 <= i < |lead| ensures IsSpace(lead[i]) {
      BlankExact(lead[i]);
    }
    SkipLead(lead, t);
    Assoc(lead, SignText(sign), rest);
    if t != "" {
      BlankExact(t[0]);
    }
    assert SkipSpaces(t) == t;
    if sign.NoSign? {
      assert t == rest;
    } else {
      assert t[1..] == rest;
    }
  }

  // ---------------------------------------------------------------- decimal

  function Signed(sign: Sign, n: nat): int {
    if sign.Minus? then 0 - n else n
  }

  /** Spaces, a sign, decimal digits and anything behind them: the number, or the nearest one that a 32-bit
      long can hold. */
  lemma {:induction false} DecimalValue(lead: string, sign: Sign, digits: string, tail: string)
    requires (forall i :: 0 <= i < |lead| ==> Blank(lead[i])) && digits != "" && Digits(digits, 10)
    requires tail != "" ==> !IsDigit(tail[0], 10)
    ensures var x := Signed(sign, Positional(digits, 10));
            IntOf(lead + SignText(sign) + (digits + tail)) ==
            Some(if x > 2147483647 then 2147483647 else if x < -2147483648 then -2147483648 else x)
  {
    var rest := digits + tail;
    assert rest[0] == digits[0] && IsDigit(rest[0], 10);
    NumberWritten(lead + SignText(sign) + rest, lead, sign, rest, 10);
    DigitWorth(rest[0], 10);
    ReadDigits("", digits, tail, 10);
    assert "" + digits == digits;
  }

  /** Anything else is no number. */
  lemma {:induction false} NoDecimal(lead: string, sign: Sign, rest: string)
    requires Written(lead + SignText(sign) + rest, lead, sign, rest) && (rest == "" || !IsDigit(rest[0], 10))
    ensures IntOf(lead + SignText(sign) + rest).None?
  {
    NumberWritten(lead + SignText(sign) + rest, lead, sign, rest, 10);
    if rest != "" {
      DigitWorth(rest[0], 10);
    }
  }

  // ---------------------------------------------------------------- hexadecimal

  datatype Prefix = NoPrefix | LowerX | UpperX

  function PrefixText(prefix: Prefix): string {
    match prefix
    case NoPrefix => ""
    case LowerX => "0x"
    case UpperX => "0X"
  }

  /** x is n reduced to a 32-bit int. */
  predicate SameInt(x: int, n: int) {
    -2147483648 <= x < 2147483648 && (x - n) % 0x1_0000_0000 == 0
  }

  lemma ToIntExact(n: int)
    ensures SameInt(ToInt(n), n)
  {
    var q := (n + 0x8000_0000) / 0x1_0000_0000;
    assert ToInt(n) - n == 0x1_0000_0000 * (-q);
  }

  /** Spaces, a sign, an optional "0x", hexadecimal digits in either case and anything behind them: the number
      modulo 2^32, or -1, which is the largest 32-bit word, if it is larger than that. */
  lemma {:induction false} HexValue(lead: string, sign: Sign, prefix: Prefix, digits: string, tail: string)
    requires (forall i :: 0 <= i < |lead| ==> Blank(lead[i])) && digits != "" && Digits(digits, 16)
    requires tail != "" ==> !IsDigit(tail[0], 16)
    requires prefix.NoPrefix? && digits == "0" && |tail| > 1 && (tail[0] == 'x' || tail[0] == 'X') ==>
               !IsDigit(tail[1], 16)
    ensures var n := Positional(digits, 16);
            var v := HexIntOf(lead + SignText(sign) + (PrefixText(prefix) + (digits + tail)));
            v.Some? && (if n > 0xFFFF_FFFF then v.value == -1 else SameInt(v.value, Signed(sign, n)))
  {
    var rest := PrefixText(prefix) + (digits + tail);
    HexStart(prefix, digits, tail);
    NumberWritten(lead + SignText(sign) + rest, lead, sign, rest, 16);
    DigitWorth((digits + tail)[0], 16);
    ReadDigits("", digits, tail, 16);
    assert "" + digits == digits;
    HexOfNumber(lead + SignText(sign) + rest, sign, Positional(digits, 16));
  }

  lemma {:induction false} HexOfNumber(tok: string, sign: Sign, n: nat)
    requires Number(tok, 16) == Some((sign.Minus?, n))
    ensures var v := HexIntOf(tok);
            v.Some? && (if n > 0xFFFF_FFFF then v.value == -1 else SameInt(v.value, Signed(sign, n)))
  {
    HexSteps(tok, sign, n);
    if n > 0xFFFF_FFFF {
      LargestWord();
    } else {
      ToIntExact(Signed(sign, n));
    }
  }

  lemma HexSteps(tok: string, sign: Sign, n: nat)
    requires Number(tok, 16) == Some((sign.Minus?, n))
    ensures HexIntOf(tok) == Some(ToInt(if n > ULONG_MAX then ULONG_MAX else Signed(sign, n)))
  {
  }

  lemma LargestWord()
    ensures ToInt(ULONG_MAX) == -1
  {
  }

  lemma {:induction false} HexStart(prefix: Prefix, digits: string, tail: string)
    requires digits != "" && Digits(digits, 16) && (tail != "" ==> !IsDigit(tail[0], 16))
    requires prefix.NoPrefix? && digits == "0" && |tail| > 1 && (tail[0] == 'x' || tail[0] == 'X') ==>
               !IsDigit(tail[1], 16)
    ensures var rest := PrefixText(prefix) + (digits + tail);
            && Unprefixed(rest, 16) == digits + tail && StartsWithDigit(digits + tail, 16)
            && rest != "" && IsDigit(rest[0], 16)
  {
    var u := digits + tail;
    var rest := PrefixText(prefix) + u;
    assert u[0] == digits[0] && IsDigit(u[0], 16);
    DigitWorth(u[0], 16);
    if prefix.NoPrefix? {
      assert rest == u;
      if |u| > 2 && u[0] == '0' && (u[1] == 'x' || u[1] == 'X') {
        if |digits| == 1 {
          assert digits == "0" && u[1] == tail[0] && u[2] == tail[1];
          DigitWorth(tail[1], 16);
          assert u[2..][0] == tail[1];
        }
      }
    } else {
      assert rest[2..] == u;
    }
  }

  /** Anything else is no hexadecimal number. */
  lemma {:induction false} NoHex(lead: string, sign: Sign, rest: string)
    requires Written(lead + SignText(sign) + rest, lead, sign, rest) && (rest == "" || !IsDigit(rest[0], 16))
    ensures HexIntOf(lead + SignText(sign) + rest).None?
  {
    NumberWritten(lead + SignText(sign) + rest, lead, sign, rest, 16);
    if rest != "" {
      DigitWorth(rest[0], 16);
    }
  }
}
