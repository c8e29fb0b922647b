/** Tokenizing of AT response lines, on values.  A cursor is the rest of the line, or None for NULL. */
module AtTok {
  import opened Common

  predicate IsSpace(c: char) {
    c == ' ' || 9 <= c as int <= 13
  }

  /** strsep: the text up to the delimiter, and the rest behind it; without one the rest is NULL. */
  function StrSep(s: string, delim: char): (string, Option<string>) {
    var k := IndexOf(s, delim);
    if k < |s| then (s[..k], Some(s[k + 1..])) else (s, None)
  }

  function IndexOf(s: string, c: char): (k: nat)
    ensures k <= |s| && (k < |s| ==> s[k] == c)
    ensures forall i :: 0 <= i < k ==> s[i] != c
  {
    if s == "" || s[0] == c then 0 else 1 + IndexOf(s[1..], c)
  }

  function SkipSpaces(s: string): (t: string)
    ensures t != "" ==> !IsSpace(t[0])
    ensures |t| <= |s|
  {
    if s != "" && IsSpace(s[0]) then SkipSpaces(s[1..]) else s
  }

  function SkipComma(s: string): string {
    var k := IndexOf(s, ',');
    if k < |s| then s[k + 1..] else s[k..]
  }

  /** at_tok_start: None is the error return. */
  function Start(line: string): Option<string> {
    var k := IndexOf(line, ':');
    if k < |line| then Some(line[k + 1..]) else None
  }

  /** The next token and the cursor behind it. */
  function NextTok(s: string): (string, Option<string>) {
    var t := SkipSpaces(s);
    if t != "" && t[0] == '"' then
      var (tok, rest) := StrSep(t[1..], '"');
      (tok, if rest.Some? then Some(SkipComma(rest.value)) else None)
    else StrSep(t, ',')
  }

  /** n calls of at_tok_nextstr: the tokens, unless the cursor runs out, and the cursor behind them. */
  function ReadTokens(cur: Option<string>, n: nat): (Option<seq<string>>, Option<string>)
    decreases n
  {
    if n == 0 then (Some([]), cur)
    else if cur.None? then (None, None)
    else
      var first := NextTok(cur.value);
      var later := ReadTokens(first.1, n - 1);
      (if later.0.Some? then Some([first.0] + later.0.value) else None, later.1)
  }

  function Count(s: string, c: char): nat {
    if s == "" then 0 else (if s[0] == c then 1 else 0) + Count(s[1..], c)
  }

  // ---------------------------------------------------------------- lines made of fields

  /** A field of a line: spaces in front, its text, in quotes or bare. */
  datatype Field = Field(lead: string, text: string, quoted: bool)

  /** A quoted field has no quote inside; a bare one has no comma and does not start like a space or a
      quoted one. */
  predicate FieldOk(f: Field) {
    && (forall i :: 0 <= i < |f.lead| ==> IsSpace(f.lead[i]))
    && (if f.quoted then '"' !in f.text
        else ',' !in f.text && (f.text != "" ==> !IsSpace(f.text[0]) && f.text[0] != '"'))
  }

  function Render(f: Field): string {
    f.lead + if f.quoted then "\"" + f.text + "\"" else f.text
  }

  function RenderAll(fs: seq<Field>): string {
    if fs == [] then "" else if |fs| == 1 then Render(fs[0]) else Render(fs[0]) + "," + RenderAll(fs[1..])
  }

  function FieldTexts(fs: seq<Field>): (ts: seq<string>)
    ensures |ts| == |fs| && forall i :: 0 <= i < |fs| ==> ts[i] == fs[i].text
  {
    seq(|fs|, i requires 0 <= i < |fs| => fs[i].text)
  }

  /** The cursor behind all fields: at the end of the line behind a quoted one, NULL behind a bare one. */
  function AfterLast(fs: seq<Field>): Option<string>
    requires fs != []
  {
    if fs[|fs| - 1].quoted then Some("") else None
  }

  lemma IndexAt(s: string, c: char, k: nat)
    requires k <= |s| && (k < |s| ==> s[k] == c) && forall i :: 0 <= i < k ==> s[i] != c
    ensures IndexOf(s, c) == k
  {
  }

  lemma {:induction false} SkipLead(lead: string, s: string)
    requires forall i :: 0 <= i < |lead| ==> IsSpace(lead[i])
    ensures SkipSpaces(lead + s) == SkipSpaces(s)
  {
    if lead == "" {
      assert lead + s == s;
    } else {
      SkipLead(lead[1..], s);
      assert (lead + s)[1..] == lead[1..] + s;
    }
  }

  /** The first token of a line that starts with the field f, followed by `more`: nothing, or a comma and
      the rest of the line. */
  lemma {:induction false} FirstToken(f: Field, more: string)
    requires FieldOk(f) && (more != "" ==> more[0] == ',')
    ensures NextTok(Render(f) + more) ==
            (f.text, if more != "" then Some(more[1..]) else if f.quoted then Some("") else None)
  {
    if f.quoted {
      QuotedToken(f, more);
    } else {
      BareToken(f, more);
    }
  }

  /** strsep at a delimiter that the text in front of it does not hold. */
  lemma StrSepAt(text: string, delim: char, more: string)
    requires delim !in text && (more != "" ==> more[0] == delim)
    ensures StrSep(text + more, delim) == (text, if more != "" then Some(more[1..]) else None)
  {
    var t := text + more;
    IndexAt(t, delim, |text|);
    assert t[..|text|] == text;
    if more == "" {
      assert t == text;
    } else {
      assert t[|text|] == delim && t[|text| + 1..] == more[1..];
    }
  }

  lemma {:induction false} QuotedToken(f: Field, more: string)
    requires FieldOk(f) && f.quoted && (more != "" ==> more[0] == ',')
    ensures NextTok(Render(f) + more) == (f.text, if more != "" then Some(more[1..]) else Some(""))
  {
    assert Render(f) + more == f.lead + ("\"" + f.text + "\"" + more);
    assert "" + more == more;
    ClosedQuote(f.lead, f.text, "", more);
  }

  /** Whatever stands between the closing quote and the next comma is skipped. */
  lemma {:induction false} ClosedQuote(lead: string, text: string, skipped: string, more: string)
    requires (forall i :: 0 <= i < |lead| ==> IsSpace(lead[i])) && '"' !in text && ',' !in skipped
    requires more != "" ==> more[0] == ','
    ensures NextTok(lead + ("\"" + text + "\"" + (skipped + more))) ==
            (text, Some(if more != "" then more[1..] else ""))
  {
    var behind := "\"" + (skipped + more);
    assert "\"" + text + "\"" + (skipped + more) == "\"" + (text + behind);
    SkipLead(lead, "\"" + (text + behind));
    assert ("\"" + (text + behind))[1..] == text + behind && behind[1..] == skipped + more;
    StrSepAt(text, '"', behind);
    CommaSkipped(skipped, more);
  }

  lemma CommaSkipped(skipped: string, more: string)
    requires ',' !in skipped && (more != "" ==> more[0] == ',')
    ensures SkipComma(skipped + more) == if more != "" then more[1..] else ""
  {
    var s := skipped + more;
    IndexAt(s, ',', |skipped|);
    if more != "" {
      assert s[|skipped| + 1..] == more[1..];
    }
  }

  /** A quote that is not closed: the token is all that follows it, and the cursor becomes NULL. */
  lemma {:induction false} OpenQuote(lead: string, text: string)
    requires (forall i :: 0 <= i < |lead| ==> IsSpace(lead[i])) && '"' !in text
    ensures NextTok(lead + ("\"" + text)) == (text, None)
  {
    SkipLead(lead, "\"" + text);
    assert ("\"" + text)[1..] == text && text + "" == text;
    StrSepAt(text, '"', "");
  }

  lemma {:induction false} BareToken(f: Field, more: string)
    requires FieldOk(f) && !f.quoted && (more != "" ==> more[0] == ',')
    ensures NextTok(Render(f) + more) == (f.text, if more != "" then Some(more[1..]) else None)
  {
    var t := f.text + more;
    assert Render(f) + more == f.lead + t;
    SkipLead(f.lead, t);
    assert t != "" ==> t[0] == if f.text != "" then f.text[0] else ',';
    assert SkipSpaces(t) == t;
    StrSepAt(f.text, ',', more);
  }

  /** One token, and then the rest. */
  lemma ReadStep(cur: Option<string>, n: nat, tok: string, rest: Option<string>, toks: seq<string>)
    requires n > 0 && cur.Some? && NextTok(cur.value) == (tok, rest) && ReadTokens(rest, n - 1).0 == Some(toks)
    ensures ReadTokens(cur, n) == (Some([tok] + toks), ReadTokens(rest, n - 1).1)
  {
  }

  /** Reading the line made of the fields gives back their texts. */
  predicate ReadsBack(fs: seq<Field>)
    requires fs != []
  {
    ReadTokens(Some(RenderAll(fs)), |fs|) == (Some(FieldTexts(fs)), AfterLast(fs))
  }

  lemma {:induction false} ReadRendered(fs: seq<Field>)
    requires fs != [] && forall i :: 0 <= i < |fs| ==> FieldOk(fs[i])
    ensures ReadsBack(fs)
  {
    if |fs| == 1 {
      ReadLast(fs);
    } else {
      ReadRendered(fs[1..]);
      ReadOneMore(fs);
    }
  }

  lemma {:induction false} ReadOneMore(fs: seq<Field>)
    requires |fs| > 1 && FieldOk(fs[0]) && ReadsBack(fs[1..])
    ensures ReadsBack(fs)
  {
    TakeFirst(fs);
    ReadFirst(fs, RenderAll(fs), RenderAll(fs[1..]));
  }

  lemma {:induction false} ReadLast(fs: seq<Field>)
    requires |fs| == 1 && FieldOk(fs[0])
    ensures ReadsBack(fs)
  {
    TakeLast(fs);
    ReadStep(Some(RenderAll(fs)), 1, fs[0].text, AfterLast(fs), []);
    FieldTextsTail(fs);
    assert fs[1..] == [] && FieldTexts([]) == [];
  }

  lemma {:induction false} ReadFirst(fs: seq<Field>, line: string, rest: string)
    requires |fs| > 1 && NextTok(line) == (fs[0].text, Some(rest))
    requires ReadTokens(Some(rest), |fs| - 1) == (Some(FieldTexts(fs[1..])), AfterLast(fs[1..]))
    ensures ReadTokens(Some(line), |fs|) == (Some(FieldTexts(fs)), AfterLast(fs))
  {
    ReadStep(Some(line), |fs|, fs[0].text, Some(rest), FieldTexts(fs[1..]));
    FieldTextsTail(fs);
  }

  lemma FieldTextsTail(fs: seq<Field>)
    requires fs != []
    ensures FieldTexts(fs) == [fs[0].text] + FieldTexts(fs[1..])
  {
  }

  /** Taking one field off a line. */
  lemma {:induction false} TakeFirst(fs: seq<Field>)
    requires |fs| > 1 && FieldOk(fs[0])
    ensures NextTok(RenderAll(fs)) == (fs[0].text, Some(RenderAll(fs[1..])))
  {
    var rest := RenderAll(fs[1..]);
    assert RenderAll(fs) == Render(fs[0]) + ("," + rest) && ("," + rest)[1..] == rest;
    FirstToken(fs[0], "," + rest);
  }

  lemma {:induction false} TakeLast(fs: seq<Field>)
    requires |fs| == 1 && FieldOk(fs[0])
    ensures NextTok(RenderAll(fs)) == (fs[0].text, AfterLast(fs))
  {
    FirstToken(fs[0], "");
    assert Render(fs[0]) + "" == RenderAll(fs);
  }

  /** at_tok_start and one at_tok_nextstr per field return the fields of a line, in order. */
  lemma {:induction false} TokenizerRoundTrip(prefix: string, fs: seq<Field>)
    requires ':' !in prefix && fs != [] && forall i :: 0 <= i < |fs| ==> FieldOk(fs[i])
    ensures ReadTokens(Start(prefix + ":" + RenderAll(fs)), |fs|) == (Some(FieldTexts(fs)), AfterLast(fs))
  {
    StartAt(prefix, RenderAll(fs));
    ReadRendered(fs);
  }

  lemma {:induction false} StartAt(prefix: string, rest: string)
    requires ':' !in prefix
    ensures Start(prefix + ":" + rest) == Some(rest)
  {
    var line := prefix + ":" + rest;
    IndexAt(line, ':', |prefix|);
    assert line[|prefix| + 1..] == rest;
  }

  // ---------------------------------------------------------------- numbers

  const LONG_MAX: int := 0x7FFF_FFFF
  const LONG_MIN: int := -0x8000_0000
  const ULONG_MAX: int := 0xFFFF_FFFF

  /** The value of a digit in a base, or None. */
  function DigitValue(c: char, base: nat): Option<nat> {
    var v := if '0' <= c <= '9' then c as int - '0' as int
             else if 'a' <= c <= 'z' then c as int - 'a' as int + 10
             else if 'A' <= c <= 'Z' then c as int - 'A' as int + 10
             else base;
    if v < base then Some(v) else None
  }

  /** The number written by the leading digits. */
  function DigitsValue(s: string, base: nat, acc: nat): nat
    decreases |s|
  {
    if s == "" || DigitValue(s[0], base).None? then acc
    else DigitsValue(s[1..], base, acc * base + DigitValue(s[0], base).value)
  }

  predicate StartsWithDigit(s: string, base: nat) {
    s != "" && DigitValue(s[0], base).Some?
  }

  /** Sign and magnitude of a number at the start of a text; None if there are no digits. */
  function Number(tok: string, base: nat): Option<(bool, nat)> {
    var t := SkipSpaces(tok);
    var negative := t != "" && t[0] == '-';
    var u := if t != "" && (t[0] == '-' || t[0] == '+') then t[1..] else t;
    var v := if base == 16 && |u| > 2 && u[0] == '0' && (u[1] == 'x' || u[1] == 'X') && StartsWithDigit(u[2..], 16)
             then u[2..] else u;
    if StartsWithDigit(v, base) then Some((negative, DigitsValue(v, base, 0))) else None
  }

  /** Conversion of a long to a 32-bit int. */
  function ToInt(x: int): int {
    (x + 0x8000_0000) % 0x1_0000_0000 - 0x8000_0000
  }

  /** at_tok_nextint's value of a token: strtol with a 32-bit long. */
  function IntOf(tok: string): Option<int> {
    var n := Number(tok, 10);
    if n.None? then None
    else
      var x: int := if n.value.0 then 0 - n.value.1 else n.value.1;
      Some(if x > LONG_MAX then LONG_MAX else if x < LONG_MIN then LONG_MIN else x)
  }

  /** at_tok_nexthexint's value of a token: strtoul with a 32-bit long, taken as an int. */
  function HexIntOf(tok: string): Option<int> {
    var n := Number(tok, 16);
    if n.None? then None
    else if n.value.1 > ULONG_MAX then Some(ToInt(ULONG_MAX))
    else Some(ToInt(if n.value.0 then 0 - n.value.1 else n.value.1))
  }

  /** at_tok_nextint on a cursor: the value, or None for the error return, and the cursor behind. */
  function TakeInt(cur: Option<string>): (Option<int>, Option<string>) {
    if cur.None? then (None, None)
    else
      var (tok, rest) := NextTok(cur.value);
      (IntOf(tok), rest)
  }

  /** at_tok_nexthexint likewise. */
  function TakeHexInt(cur: Option<string>): (Option<int>, Option<string>) {
    if cur.None? then (None, None)
    else
      var (tok, rest) := NextTok(cur.value);
      (HexIntOf(tok), rest)
  }
}
