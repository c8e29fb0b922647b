/** The hex codec and the TLV reader of misc.c. */
module HexCodec {
  import opened Common

  function Nibble(c: char): (n: nat)
    ensures n < 16
  {
    if '0' <= c <= '9' then c as int - '0' as int
    else if 'A' <= c <= 'F' then c as int - 'A' as int + 10
    else if 'a' <= c <= 'f' then c as int - 'a' as int + 10
    else 0
  }

  /** Two digits as a byte; anything but a digit counts as zero. */
  function ByteOf(hi: char, lo: char): Byte {
    Nibble(hi) * 16 + Nibble(lo)
  }

  /** The digit of a nibble. */
  function Digit(n: nat): (c: char)
    requires n < 16
    ensures Nibble(c) == n && IsHexDigit(c) && Upper(c) == c
  {
    (if n < 10 then '0' as int + n else 'A' as int + n - 10) as char
  }

  function HexOf(b: Byte): (s: string)
    ensures |s| == 2 && ByteOf(s[0], s[1]) == b
  {
    var hi, lo := Digit(b / 16), Digit(b % 16);
    assert ByteOf(hi, lo) == b;
    [hi, lo]
  }

  /** The bytes of an even number of digits. */
  function FromHex(s: string): (b: Bytes)
    requires |s| % 2 == 0
    ensures |b| == |s| / 2
    ensures forall i :: 0 <= i < |b| ==> b[i] == ByteOf(s[2 * i], s[2 * i + 1])
  {
    if s == "" then [] else [ByteOf(s[0], s[1])] + FromHex(s[2..])
  }

  function ToHex(b: Bytes): (s: string)
    ensures |s| == 2 * |b|
  {
    if b == [] then "" else HexOf(b[0]) + ToHex(b[1..])
  }

  /** Where the digits of a byte stand. */
  lemma {:induction false} ToHexAt(b: Bytes, i: nat)
    requires i < |b|
    ensures ToHex(b)[2 * i] == HexOf(b[i])[0] && ToHex(b)[2 * i + 1] == HexOf(b[i])[1]
    decreases i
  {
    var h, t := HexOf(b[0]), ToHex(b[1..]);
    assert ToHex(b) == h + t;
    if i > 0 {
      ToHexAt(b[1..], i - 1);
      assert (h + t)[2 * i] == t[2 * (i - 1)] && (h + t)[2 * i + 1] == t[2 * (i - 1) + 1];
    }
  }

  predicate IsHexDigit(c: char) {
    '0' <= c <= '9' || 'A' <= c <= 'F' || 'a' <= c <= 'f'
  }

  function Upper(c: char): char {
    if 'a' <= c <= 'f' then (c as int - 'a' as int + 'A' as int) as char else c
  }

  function UpperCased(s: string): (u: string)
    ensures |u| == |s| && forall i :: 0 <= i < |s| ==> u[i] == Upper(s[i])
  {
    seq(|s|, i requires 0 <= i < |s| => Upper(s[i]))
  }

  /** Writing out and reading back is the identity on bytes. */
  lemma {:induction false} BytesRoundTrip(b: Bytes)
    ensures FromHex(ToHex(b)) == b
  {
    var s := ToHex(b);
    forall i | 0 <= i < |b| ensures FromHex(s)[i] == b[i] {
      ToHexAt(b, i);
    }
  }

  lemma NibbleUpper(c: char)
    requires IsHexDigit(c)
    ensures Digit(Nibble(c)) == Upper(c)
  {
  }

  /** The two digits of the byte read from two characters. */
  lemma {:induction false} HexOfByte(hi: char, lo: char)
    ensures HexOf(ByteOf(hi, lo)) == [Digit(Nibble(hi)), Digit(Nibble(lo))]
  {
    assert ByteOf(hi, lo) / 16 == Nibble(hi) && ByteOf(hi, lo) % 16 == Nibble(lo);
  }

  /** Each character of the round trip. */
  lemma {:induction false} RoundTripAt(s: string, i: nat)
    requires |s| % 2 == 0 && i < |s|
    ensures ToHex(FromHex(s))[i] == Digit(Nibble(s[i]))
  {
    var k := i / 2;
    assert FromHex(s)[k] == ByteOf(s[2 * k], s[2 * k + 1]);
    HexOfByte(s[2 * k], s[2 * k + 1]);
    ToHexAt(FromHex(s), k);
    assert i == 2 * k || i == 2 * k + 1;
  }

  /** Reading and writing back upper-cases a string of digits. */
  lemma {:induction false} DigitsRoundTrip(s: string)
    requires |s| % 2 == 0 && forall i :: 0 <= i < |s| ==> IsHexDigit(s[i])
    ensures ToHex(FromHex(s)) == UpperCased(s)
  {
    var t := ToHex(FromHex(s));
    forall i | 0 <= i < |s| ensures t[i] == Upper(s[i]) {
      RoundTripAt(s, i);
      NibbleUpper(s[i]);
    }
  }

  /** What a character comes out as. */
  function Rewritten(c: char): char {
    if '0' <= c <= '9' || 'A' <= c <= 'F' then c
    else if 'a' <= c <= 'f' then "ABCDEF"[c as int - 'a' as int]
    else '0'
  }

  /** Reading any string of even length and writing back: digits are upper-cased, any other character comes
      out as 0. */
  lemma {:induction false} RoundTripExact(s: string)
    requires |s| % 2 == 0
    ensures |ToHex(FromHex(s))| == |s|
    ensures forall i :: 0 <= i < |s| ==> ToHex(FromHex(s))[i] == Rewritten(s[i])
  {
    forall i | 0 <= i < |s| ensures ToHex(FromHex(s))[i] == Rewritten(s[i]) {
      RoundTripAt(s, i);
      DigitRewritten(s[i]);
    }
  }

  lemma DigitRewritten(c: char)
    ensures Digit(Nibble(c)) == Rewritten(c)
  {
  }

  /** Two digits are the value of the first times 16 plus that of the second, in either case; a byte is
      written as its two digits in upper case. */
  lemma {:induction false} ByteDigits(h: nat, l: nat)
    requires h < 16 && l < 16
    ensures ByteOf("0123456789ABCDEF"[h], "0123456789ABCDEF"[l]) == 16 * h + l
    ensures ByteOf("0123456789abcdef"[h], "0123456789abcdef"[l]) == 16 * h + l
    ensures ToHex([16 * h + l]) == ["0123456789ABCDEF"[h], "0123456789ABCDEF"[l]]
  {
    var b: Byte := 16 * h + l;
    assert b / 16 == h && b % 16 == l;
    assert HexOf(b) == [Digit(h), Digit(l)];
    assert [b][1..] == [] && ToHex([b]) == HexOf(b) + "";
    DigitTables(h);
    DigitTables(l);
  }

  lemma DigitTables(n: nat)
    requires n < 16
    ensures "0123456789ABCDEF"[n] == Digit(n) && Nibble("0123456789abcdef"[n]) == n
  {
  }

  /** The round trip upper-cases a string exactly when all its characters are digits: any other character
      reads as zero. */
  lemma {:induction false} RoundTripIffDigits(s: string)
    requires |s| % 2 == 0
    ensures ToHex(FromHex(s)) == UpperCased(s) <==> forall i :: 0 <= i < |s| ==> IsHexDigit(s[i])
  {
    if exists i :: 0 <= i < |s| && !IsHexDigit(s[i]) {
      var i :| 0 <= i < |s| && !IsHexDigit(s[i]);
      RoundTripAt(s, i);
      assert ToHex(FromHex(s))[i] == Digit(0) == '0' && Upper(s[i]) == s[i];
    } else {
      DigitsRoundTrip(s);
    }
  }

  /** stringToBinary: false is the error return, for an odd number of digits. */
  method StringToBinary(s: string, binary: array<Byte>) returns (ok: bool)
    requires |s| / 2 <= binary.Length
    modifies binary
    ensures ok <==> |s| % 2 == 0
    ensures ok ==> binary[..|s| / 2] == FromHex(s)
    ensures ok ==> binary[|s| / 2..] == old(binary[|s| / 2..])
    ensures !ok ==> binary[..] == old(binary[..])
  {
    if |s| % 2 == 1 {
      return false;
    }
    var pos := 0;
    while 2 * pos != |s|
      invariant 2 * pos <= |s|
      invariant forall i :: 0 <= i < pos ==> binary[i] == ByteOf(s[2 * i], s[2 * i + 1])
      invariant forall i :: pos <= i < binary.Length ==> binary[i] == old(binary[i])
    {
      binary[pos] := ByteOf(s[2 * pos], s[2 * pos + 1]);
      pos := pos + 1;
    }
    ok := true;
  }

  const NIBBLES: string := "0123456789ABCDEF"

  lemma NibbleTable(n: nat)
    requires n < 16
    ensures NIBBLES[n] == Digit(n)
  {
  }

  /** binaryToString: two characters a byte and a closing NUL, nothing behind it. */
  method BinaryToString(binary: Bytes, text: array<char>)
    requires 2 * |binary| < text.Length
    modifies text
    ensures text[..2 * |binary|] == ToHex(binary)
    ensures text[2 * |binary|] == NUL
    ensures text[2 * |binary| + 1..] == old(text[2 * |binary| + 1..])
  {
    var k := 0;
    while k != |binary|
      invariant k <= |binary|
      invariant forall i :: 0 <= i < k ==> HexOf(binary[i]) == [text[2 * i], text[2 * i + 1]]
      invariant forall i :: 2 * k <= i < text.Length ==> text[i] == old(text[i])
    {
      NibbleTable(binary[k] / 16);
      NibbleTable(binary[k] % 16);
      text[2 * k] := NIBBLES[binary[k] / 16];
      text[2 * k + 1] := NIBBLES[binary[k] % 16];
      k := k + 1;
    }
    text[2 * k] := NUL;
    ghost var s := ToHex(binary);
    forall i | 0 <= i < 2 * |binary| ensures text[i] == s[i] {
      ToHexAt(binary, i / 2);
      assert HexOf(binary[i / 2]) == [text[2 * (i / 2)], text[2 * (i / 2) + 1]];
      assert i == 2 * (i / 2) || i == 2 * (i / 2) + 1;
    }
  }

  // ---------------------------------------------------------------- TLV

  /** A TLV in a stream of digits: its tag, where its data starts and where it ends. */
  datatype Tlv = Tlv(tag: nat, data: nat, end: nat)

  /** parseTlv on stream[at..end]; None is the error return.  Tag and length take two digits each. */
  function ParseTlv(stream: string, at: nat, end: nat): (t: Option<Tlv>)
    requires at <= end <= |stream|
    ensures t.Some? ==> at + 4 == t.value.data <= t.value.end <= end && t.value.tag < 256
  {
    if at + 1 >= end then None
    else
      var tag := ByteOf(stream[at], stream[at + 1]);
      if at + 3 >= end then None
      else
        var size := ByteOf(stream[at + 2], stream[at + 3]);
        if at + 4 + 2 * size > end then None else Some(Tlv(tag, at + 4, at + 4 + 2 * size))
  }
}
