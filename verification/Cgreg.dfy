/** Decoding of the +CGREG line by the registration state request, on values. */
module Cgreg {
  import opened Common
  import opened AtTok

  /** The entries of response[] and how many of them are reported. */
  datatype Reply = Reply(stat: int, lac: int, cid: int, act: int, count: nat)

  /** NullCursor: the second parameter is looked at through a cursor that is NULL. */
  datatype Outcome = Decoded(reply: Reply) | Failed | NullCursor

  /** <lac>, <cid> and, where the form has it, <AcT>. */
  function Area(stat: int, cur: Option<string>, withAct: bool): Outcome {
    var (lac, cur1) := TakeHexInt(cur);
    var (cid, cur2) := TakeHexInt(cur1);
    if lac.None? || cid.None? then Failed
    else if !withAct then Decoded(Reply(stat, lac.value, cid.value, 0, 3))
    else
      var act := TakeInt(cur2).0;
      if act.None? then Failed else Decoded(Reply(stat, lac.value, cid.value, act.value, 4))
  }

  function StatThenArea(cur: Option<string>, withAct: bool): Outcome {
    var (stat, rest) := TakeInt(cur);
    if stat.None? then Failed else Area(stat.value, rest, withAct)
  }

  function StatOnly(cur: Option<string>): Outcome {
    var stat := TakeInt(cur).0;
    if stat.None? then Failed else Decoded(Reply(stat.value, -1, -1, 0, 3))
  }

  predicate AtQuote(s: string) {
    s != "" && s[0] == '"'
  }

  /** The decision by the number of commas. */
  function DecodeFrom(cur: string): Outcome {
    var commas := Count(cur, ',');
    var (first, rest) := TakeInt(Some(cur));
    if commas > 4 || first.None? then Failed
    else if commas == 0 then StatOnly(Some(cur))
    else if commas == 1 then StatOnly(rest)
    else if commas == 2 then Area(first.value, rest, false)
    else if commas == 4 then StatThenArea(rest, true)
    else if rest.None? then NullCursor
    else if AtQuote(rest.value) then Area(first.value, rest, true)
    else StatThenArea(rest, false)
  }

  function Decode(line: string): Outcome {
    var cur := Start(line);
    if cur.None? then Failed else DecodeFrom(cur.value)
  }

  // ---------------------------------------------------------------- the forms of the line

  datatype AreaFields = AreaFields(lac: Field, cid: Field, act: Option<Field>)
  datatype Form = Form(n: Option<Field>, stat: Field, area: Option<AreaFields>)

  function AreaSeq(a: AreaFields): seq<Field> {
    [a.lac, a.cid] + OptSeq(a.act)
  }

  function FieldsOf(f: Form): seq<Field> {
    OptSeq(f.n) + [f.stat] + if f.area.Some? then AreaSeq(f.area.value) else []
  }

  /** A field that the tokenizer can read and that adds no comma to the line. */
  predicate Readable(f: Field) {
    FieldOk(f) && ',' !in f.text
  }

  predicate AreaOk(a: AreaFields) {
    && Readable(a.lac) && Readable(a.cid) && HexIntOf(a.lac.text).Some? && HexIntOf(a.cid.text).Some?
    && (a.act.Some? ==> Readable(a.act.value) && IntOf(a.act.value.text).Some?)
  }

  predicate FormOk(f: Form) {
    && (f.n.Some? ==> Readable(f.n.value) && IntOf(f.n.value.text).Some?)
    && Readable(f.stat) && IntOf(f.stat.text).Some?
    && (f.area.Some? ==> AreaOk(f.area.value))
  }

  function AreaReply(stat: int, a: AreaFields): Reply
    requires AreaOk(a)
  {
    Reply(stat, HexIntOf(a.lac.text).value, HexIntOf(a.cid.text).value,
          if a.act.Some? then IntOf(a.act.value.text).value else 0, if a.act.Some? then 4 else 3)
  }

  /** What the form says: it does not depend on <n>. */
  function Meaning(f: Form): Reply
    requires FormOk(f)
  {
    var stat := IntOf(f.stat.text).value;
    if f.area.Some? then AreaReply(stat, f.area.value) else Reply(stat, -1, -1, 0, 3)
  }

  /** The field starts with its quote. */
  predicate LooksQuoted(f: Field) {
    f.quoted && f.lead == ""
  }

  /** The forms with three commas that are taken for each other: a <lac> that does not start with its
      quote, or a <stat> that does. */
  predicate Confused(f: Form) {
    && f.area.Some?
    && (f.n.Some? <==> f.area.value.act.None?)
    && (if f.n.None? then !LooksQuoted(f.area.value.lac) else LooksQuoted(f.stat))
  }

  // ---------------------------------------------------------------- proofs

  lemma {:induction false} CountConcat(s: string, t: string, c: char)
    ensures Count(s + t, c) == Count(s, c) + Count(t, c)
  {
    if s == "" {
      assert s + t == t;
    } else {
      CountConcat(s[1..], t, c);
      assert (s + t)[1..] == s[1..] + t;
    }
  }

  lemma {:induction false} CountNone(s: string, c: char)
    requires c !in s
    ensures Count(s, c) == 0
  {
    if s != "" {
      CountNone(s[1..], c);
    }
  }

  lemma RenderedHasNoComma(f: Field)
    requires Readable(f)
    ensures Count(Render(f), ',') == 0
  {
    CountNone(Render(f), ',');
  }

  predicate AllReadable(fs: seq<Field>) {
    forall i :: 0 <= i < |fs| ==> Readable(fs[i])
  }

  lemma {:induction false} CountCommas(fs: seq<Field>)
    requires fs != [] && AllReadable(fs)
    ensures Count(RenderAll(fs), ',') == |fs| - 1
  {
    RenderedHasNoComma(fs[0]);
    if |fs| > 1 {
      CountCommas(fs[1..]);
      var rest := RenderAll(fs[1..]);
      assert RenderAll(fs) == Render(fs[0]) + ("," + rest) && ("," + rest)[1..] == rest;
      CountConcat(Render(fs[0]), "," + rest, ',');
    }
  }

  /** Taking one field off a line. */
  lemma {:induction false} TakeField(f: Field, fs: seq<Field>)
    requires FieldOk(f) && fs != []
    ensures NextTok(RenderAll([f] + fs)) == (f.text, Some(RenderAll(fs)))
  {
    TakeFirst([f] + fs);
    assert ([f] + fs)[1..] == fs;
  }

  /** Reading the area part of a line. */
  lemma {:induction false} ReadArea(stat: int, a: AreaFields)
    requires AreaOk(a)
    ensures Area(stat, Some(RenderAll(AreaSeq(a))), a.act.Some?) == Decoded(AreaReply(stat, a))
  {
    if a.act.Some? {
      assert AreaSeq(a) == [a.lac] + [a.cid, a.act.value] && [a.cid, a.act.value] == [a.cid] + [a.act.value];
      TakeField(a.lac, [a.cid, a.act.value]);
      TakeField(a.cid, [a.act.value]);
      TakeLast([a.act.value]);
    } else {
      assert AreaSeq(a) == [a.lac] + [a.cid];
      TakeField(a.lac, [a.cid]);
      TakeLast([a.cid]);
    }
  }

  /** How many entries are reported is decided by the form that was assumed. */
  lemma AreaCount(stat: int, cur: Option<string>, withAct: bool)
    ensures Area(stat, cur, withAct).Decoded? ==> Area(stat, cur, withAct).reply.count == if withAct then 4 else 3
  {
  }

  lemma StatThenAreaCount(cur: Option<string>, withAct: bool)
    ensures StatThenArea(cur, withAct).Decoded? ==> StatThenArea(cur, withAct).reply.count == if withAct then 4 else 3
  {
  }

  /** A line starts with a quote if its first field does. */
  lemma QuoteFirst(f: Field, fs: seq<Field>)
    requires FieldOk(f) && fs != []
    ensures AtQuote(RenderAll([f] + fs)) <==> LooksQuoted(f)
  {
    assert RenderAll([f] + fs) == Render(f) + "," + RenderAll(([f] + fs)[1..]);
    assert f.lead != "" ==> Render(f)[0] == f.lead[0];
  }

  /** The forms with an area: what happens behind the first number. */
  lemma DecodeStep(cur: string, f: Field, rest: string)
    requires IntOf(f.text).Some? && NextTok(cur) == (f.text, Some(rest))
    ensures var first := IntOf(f.text).value;
            match Count(cur, ',')
            case 2 => DecodeFrom(cur) == Area(first, Some(rest), false)
            case 3 => DecodeFrom(cur) == AtSecond(first, rest)
            case 4 => DecodeFrom(cur) == StatThenArea(Some(rest), true)
            case _ => true
  {
  }

  lemma {:induction false} ReadStatThenArea(stat: Field, a: AreaFields)
    requires FormOk(Form(None, stat, Some(a)))
    ensures StatThenArea(Some(RenderAll([stat] + AreaSeq(a))), a.act.Some?)
            == Decoded(Meaning(Form(None, stat, Some(a))))
  {
    TakeField(stat, AreaSeq(a));
    ReadArea(IntOf(stat.text).value, a);
  }

  /** Behind the first number of a form with three commas. */
  function AtSecond(first: int, rest: string): Outcome {
    if AtQuote(rest) then Area(first, Some(rest), true) else StatThenArea(Some(rest), false)
  }

  lemma {:induction false} SecondIsLac(first: int, a: AreaFields)
    requires AreaOk(a) && a.act.Some?
    ensures AtSecond(first, RenderAll(AreaSeq(a))) == Decoded(AreaReply(first, a)) <==> LooksQuoted(a.lac)
  {
    assert AreaSeq(a) == [a.lac] + [a.cid, a.act.value];
    QuoteFirst(a.lac, [a.cid, a.act.value]);
    StatThenAreaCount(Some(RenderAll(AreaSeq(a))), false);
    ReadArea(first, a);
  }

  lemma {:induction false} SecondIsStat(first: int, stat: Field, a: AreaFields)
    requires FormOk(Form(None, stat, Some(a))) && a.act.None?
    ensures AtSecond(first, RenderAll([stat] + AreaSeq(a))) == Decoded(Meaning(Form(None, stat, Some(a))))
            <==> !LooksQuoted(stat)
  {
    QuoteFirst(stat, AreaSeq(a));
    AreaCount(first, Some(RenderAll([stat] + AreaSeq(a))), true);
    ReadStatThenArea(stat, a);
  }

  /** The forms without <n>. */
  lemma {:induction false} DecodeWithoutN(stat: Field, a: AreaFields)
    requires FormOk(Form(None, stat, Some(a)))
    ensures var f := Form(None, stat, Some(a));
            DecodeFrom(RenderAll([stat] + AreaSeq(a))) == Decoded(Meaning(f)) <==> !Confused(f)
  {
    var rest := RenderAll(AreaSeq(a));
    CountCommas([stat] + AreaSeq(a));
    TakeField(stat, AreaSeq(a));
    DecodeStep(RenderAll([stat] + AreaSeq(a)), stat, rest);
    if a.act.Some? {
      SecondIsLac(IntOf(stat.text).value, a);
    } else {
      ReadArea(IntOf(stat.text).value, a);
    }
  }

  /** The forms with <n>. */
  lemma {:induction false} DecodeWithN(n: Field, stat: Field, a: AreaFields)
    requires FormOk(Form(Some(n), stat, Some(a)))
    ensures var f := Form(Some(n), stat, Some(a));
            DecodeFrom(RenderAll([n] + ([stat] + AreaSeq(a)))) == Decoded(Meaning(f)) <==> !Confused(f)
  {
    var tail := [stat] + AreaSeq(a);
    CountCommas([n] + tail);
    TakeField(n, tail);
    DecodeStep(RenderAll([n] + tail), n, RenderAll(tail));
    if a.act.None? {
      SecondIsStat(IntOf(n.text).value, stat, a);
    } else {
      ReadStatThenArea(stat, a);
    }
  }

  /** The forms without an area. */
  lemma {:induction false} DecodeStat(f: Form)
    requires FormOk(f) && f.area.None?
    ensures DecodeFrom(RenderAll(FieldsOf(f))) == Decoded(Meaning(f))
  {
    CountCommas(FieldsOf(f));
    TakeLast([f.stat]);
    if f.n.Some? {
      assert FieldsOf(f) == [f.n.value] + [f.stat];
      TakeField(f.n.value, [f.stat]);
    } else {
      assert FieldsOf(f) == [f.stat];
    }
  }

  /** Every form of the line decodes to what it says, if and only if it is not one of the confused ones. */
  lemma {:induction false} DecodeExact(prefix: string, f: Form)
    requires ':' !in prefix && FormOk(f)
    ensures Decode(prefix + ":" + RenderAll(FieldsOf(f))) == Decoded(Meaning(f)) <==> !Confused(f)
  {
    StartAt(prefix, RenderAll(FieldsOf(f)));
    if f.area.None? {
      DecodeStat(f);
    } else if f.n.None? {
      assert FieldsOf(f) == [f.stat] + AreaSeq(f.area.value);
      DecodeWithoutN(f.stat, f.area.value);
    } else {
      assert FieldsOf(f) == [f.n.value] + ([f.stat] + AreaSeq(f.area.value));
      DecodeWithN(f.n.value, f.stat, f.area.value);
    }
  }

  // ---------------------------------------------------------------- any fields at all

  /** <lac> and <cid>, and <AcT> in the forms that have it, as numbers. */
  function AreaOf(stat: int, lac: Field, cid: Field, act: Option<Field>): Outcome {
    var l, c := HexIntOf(lac.text), HexIntOf(cid.text);
    if l.None? || c.None? then Failed
    else if act.None? then Decoded(Reply(stat, l.value, c.value, 0, 3))
    else
      var a := IntOf(act.value.text);
      if a.None? then Failed else Decoded(Reply(stat, l.value, c.value, a.value, 4))
  }

  function StatAreaOf(stat: Field, lac: Field, cid: Field, act: Option<Field>): Outcome {
    if IntOf(stat.text).None? then Failed else AreaOf(IntOf(stat.text).value, lac, cid, act)
  }

  function StatOf(stat: Field): Outcome {
    if IntOf(stat.text).None? then Failed else Decoded(Reply(IntOf(stat.text).value, -1, -1, 0, 3))
  }

  /** What a line of these fields decodes to, by their number.  The first has to be a number even where it is
      not used. */
  function ByFields(fs: seq<Field>): Outcome
    requires fs != []
  {
    var first := IntOf(fs[0].text);
    if |fs| > 5 || first.None? then Failed
    else if |fs| == 1 then StatOf(fs[0])
    else if |fs| == 2 then StatOf(fs[1])
    else if |fs| == 3 then AreaOf(first.value, fs[1], fs[2], None)
    else if |fs| == 5 then StatAreaOf(fs[1], fs[2], fs[3], Some(fs[4]))
    else if LooksQuoted(fs[1]) then AreaOf(first.value, fs[1], fs[2], Some(fs[3]))
    else StatAreaOf(fs[1], fs[2], fs[3], None)
  }

  lemma {:induction false} AreaOfTwo(stat: int, lac: Field, cid: Field)
    requires Readable(lac) && Readable(cid)
    ensures Area(stat, Some(RenderAll([lac] + [cid])), false) == AreaOf(stat, lac, cid, None)
  {
    TakeField(lac, [cid]);
    TakeLast([cid]);
  }

  lemma {:induction false} AreaOfThree(stat: int, lac: Field, cid: Field, act: Field)
    requires Readable(lac) && Readable(cid) && Readable(act)
    ensures Area(stat, Some(RenderAll([lac] + ([cid] + [act]))), true) == AreaOf(stat, lac, cid, Some(act))
  {
    TakeField(lac, [cid] + [act]);
    TakeField(cid, [act]);
    TakeLast([act]);
  }

  lemma {:induction false} StatAreaOfFields(stat: Field, lac: Field, cid: Field, act: Option<Field>)
    requires Readable(stat) && Readable(lac) && Readable(cid) && (act.Some? ==> Readable(act.value))
    ensures var area := if act.Some? then [lac] + ([cid] + [act.value]) else [lac] + [cid];
            StatThenArea(Some(RenderAll([stat] + area)), act.Some?) == StatAreaOf(stat, lac, cid, act)
  {
    if act.Some? {
      TakeField(stat, [lac] + ([cid] + [act.value]));
      if IntOf(stat.text).Some? {
        AreaOfThree(IntOf(stat.text).value, lac, cid, act.value);
      }
    } else {
      TakeField(stat, [lac] + [cid]);
      if IntOf(stat.text).Some? {
        AreaOfTwo(IntOf(stat.text).value, lac, cid);
      }
    }
  }

  lemma {:induction false} OneField(f: Field)
    requires Readable(f)
    ensures DecodeFrom(RenderAll([f])) == ByFields([f])
  {
    CountCommas([f]);
    TakeLast([f]);
  }

  lemma {:induction false} TwoFields(f: Field, stat: Field)
    requires Readable(f) && Readable(stat)
    ensures DecodeFrom(RenderAll([f] + [stat])) == ByFields([f] + [stat])
  {
    CountCommas([f] + [stat]);
    TakeField(f, [stat]);
    TakeLast([stat]);
  }

  /** Behind the first of more fields, by the number of commas. */
  lemma {:induction false} BehindFirst(f: Field, rest: seq<Field>)
    requires rest != [] && Readable(f) && AllReadable(rest)
    ensures var first, cur := IntOf(f.text), RenderAll(rest);
            DecodeFrom(RenderAll([f] + rest)) ==
            if |rest| > 4 || first.None? then Failed
            else if |rest| == 1 then StatOnly(Some(cur))
            else if |rest| == 2 then Area(first.value, Some(cur), false)
            else if |rest| == 4 then StatThenArea(Some(cur), true)
            else AtSecond(first.value, cur)
  {
    CountCommas([f] + rest);
    TakeField(f, rest);
  }

  lemma {:induction false} ThreeFields(f: Field, lac: Field, cid: Field)
    requires Readable(f) && Readable(lac) && Readable(cid)
    ensures DecodeFrom(RenderAll([f] + ([lac] + [cid]))) == ByFields([f] + ([lac] + [cid]))
  {
    BehindFirst(f, [lac] + [cid]);
    if IntOf(f.text).Some? {
      AreaOfTwo(IntOf(f.text).value, lac, cid);
    }
  }

  lemma {:induction false} FourFields(f: Field, g: Field, h: Field, i: Field)
    requires Readable(f) && Readable(g) && Readable(h) && Readable(i)
    ensures DecodeFrom(RenderAll([f] + ([g] + ([h] + [i])))) == ByFields([f] + ([g] + ([h] + [i])))
  {
    BehindFirst(f, [g] + ([h] + [i]));
    QuoteFirst(g, [h] + [i]);
    ByFour(f, g, h, i);
    if IntOf(f.text).Some? {
      if LooksQuoted(g) {
        AreaOfThree(IntOf(f.text).value, g, h, i);
      } else {
        StatAreaOfFields(g, h, i, None);
      }
    }
  }

  lemma ByFour(f: Field, g: Field, h: Field, i: Field)
    ensures ByFields([f] + ([g] + ([h] + [i]))) ==
            if IntOf(f.text).None? then Failed
            else if LooksQuoted(g) then AreaOf(IntOf(f.text).value, g, h, Some(i))
            else StatAreaOf(g, h, i, None)
  {
    var fs := [f] + ([g] + ([h] + [i]));
    assert fs[0] == f && fs[1] == g && fs[2] == h && fs[3] == i;
  }

  lemma {:induction false} FiveFields(f: Field, stat: Field, lac: Field, cid: Field, act: Field)
    requires Readable(f) && Readable(stat) && Readable(lac) && Readable(cid) && Readable(act)
    ensures var fs := [f] + ([stat] + ([lac] + ([cid] + [act]))); DecodeFrom(RenderAll(fs)) == ByFields(fs)
  {
    BehindFirst(f, [stat] + ([lac] + ([cid] + [act])));
    StatAreaOfFields(stat, lac, cid, Some(act));
    ByFive(f, stat, lac, cid, act);
  }

  lemma ByFive(f: Field, stat: Field, lac: Field, cid: Field, act: Field)
    ensures ByFields([f] + ([stat] + ([lac] + ([cid] + [act])))) ==
            if IntOf(f.text).None? then Failed else StatAreaOf(stat, lac, cid, Some(act))
  {
    var fs := [f] + ([stat] + ([lac] + ([cid] + [act])));
    assert fs[0] == f && fs[1] == stat && fs[2] == lac && fs[3] == cid && fs[4] == act;
  }

  /** A line of any fields, numbers or not: what it decodes to is decided by how many there are and, with
      four, by whether the second starts with its quote. */
  lemma {:induction false} DecodeFields(prefix: string, fs: seq<Field>)
    requires ':' !in prefix && fs != [] && AllReadable(fs)
    ensures Decode(prefix + ":" + RenderAll(fs)) == ByFields(fs)
  {
    StartAt(prefix, RenderAll(fs));
    if |fs| == 1 {
      assert fs == [fs[0]];
      OneField(fs[0]);
    } else if |fs| == 2 {
      assert fs == [fs[0]] + [fs[1]];
      TwoFields(fs[0], fs[1]);
    } else if |fs| == 3 {
      assert fs == [fs[0]] + ([fs[1]] + [fs[2]]);
      ThreeFields(fs[0], fs[1], fs[2]);
    } else if |fs| == 4 {
      assert fs == [fs[0]] + ([fs[1]] + ([fs[2]] + [fs[3]]));
      FourFields(fs[0], fs[1], fs[2], fs[3]);
    } else if |fs| == 5 {
      assert fs == [fs[0]] + ([fs[1]] + ([fs[2]] + ([fs[3]] + [fs[4]])));
      FiveFields(fs[0], fs[1], fs[2], fs[3], fs[4]);
    } else {
      assert fs == [fs[0]] + fs[1..];
      BehindFirst(fs[0], fs[1..]);
    }
  }

  /** A line without a colon is refused. */
  lemma {:induction false} NoColon(line: string)
    requires ':' !in line
    ensures Decode(line) == Failed
  {
    if IndexOf(line, ':') < |line| {
      assert line[IndexOf(line, ':')] in line;
    }
  }

  /** With a bare <stat> and a quoted <lac> behind its comma, the solicited and the unsolicited line
      decode alike. */
  lemma {:induction false} SolicitedOrNot(prefix: string, n: Field, f: Form)
    requires ':' !in prefix && f.n.None? && FormOk(f) && FormOk(f.(n := Some(n)))
    requires !f.stat.quoted && (f.area.Some? ==> LooksQuoted(f.area.value.lac))
    ensures Decode(prefix + ":" + RenderAll(FieldsOf(f))) == Decoded(Meaning(f))
    ensures Decode(prefix + ":" + RenderAll(FieldsOf(f.(n := Some(n))))) == Decoded(Meaning(f))
  {
    DecodeExact(prefix, f);
    DecodeExact(prefix, f.(n := Some(n)));
  }

  /** The cursor is NULL at the second parameter exactly behind a first one whose quote is not closed. */
  lemma {:induction false} NullCursorExact(prefix: string, rest: string)
    requires ':' !in prefix
    ensures Decode(prefix + ":" + rest) == NullCursor <==>
            && Count(rest, ',') == 3
            && AtQuote(SkipSpaces(rest)) && '"' !in SkipSpaces(rest)[1..]
            && IntOf(SkipSpaces(rest)[1..]).Some?
  {
    StartAt(prefix, rest);
    var t := SkipSpaces(rest);
    if AtQuote(t) {
      StrSepNone(t[1..], '"');
    } else {
      StrSepNone(t, ',');
      if IndexOf(t, ',') == |t| {
        CountNone(t, ',');
        CountSkipped(rest, ',');
      }
    }
  }

  lemma StrSepNone(s: string, c: char)
    ensures StrSep(s, c).1.None? <==> c !in s
    ensures c !in s ==> StrSep(s, c).0 == s
  {
    var k := IndexOf(s, c);
    if k < |s| {
      assert s[k] in s;
    }
  }

  lemma {:induction false} CountSkipped(s: string, c: char)
    requires !IsSpace(c)
    ensures Count(SkipSpaces(s), c) == Count(s, c)
  {
    if s != "" && IsSpace(s[0]) {
      CountSkipped(s[1..], c);
    }
  }

  // ---------------------------------------------------------------- lines that are misread

  /** stat 1, lac 1A, cid 2B, AcT 2, with the lac not in quotes. */
  const BARE_LAC: Form :=
    Form(None, Field("", "1", false),
         Some(AreaFields(Field("", "1A", false), Field("", "2B", false), Some(Field("", "2", false)))))

  /** The same with n 2 in front, without AcT, and with the stat in quotes. */
  const QUOTED_STAT: Form :=
    Form(Some(Field("", "2", false)), Field("", "1", true),
         Some(AreaFields(Field("", "1A", true), Field("", "2B", false), None)))

  lemma SmallNumbers()
    ensures IntOf("1").Some? && IntOf("2").Some? && HexIntOf("1A").Some? && HexIntOf("2B").Some?
  {
    assert SkipSpaces("1") == "1" && SkipSpaces("2") == "2";
    assert SkipSpaces("1A") == "1A" && SkipSpaces("2B") == "2B";
  }

  lemma BothConfused()
    ensures FormOk(BARE_LAC) && Confused(BARE_LAC)
    ensures FormOk(QUOTED_STAT) && Confused(QUOTED_STAT)
  {
    SmallNumbers();
  }

  /** A lac without quotes behind a stat, and a stat in quotes behind an n, are misread. */
  lemma {:induction false} MisreadLines(f: Form)
    requires f == BARE_LAC || f == QUOTED_STAT
    ensures FormOk(f) && Decode("+CGREG" + ":" + RenderAll(FieldsOf(f))) != Decoded(Meaning(f))
  {
    BothConfused();
    DecodeExact("+CGREG", f);
  }

  lemma ThreeCommas()
    ensures Count("\"1,2,3,4", ',') == 3
  {
    var rest := ['3', ','] + "4";
    assert "\"1,2,3,4" == ['"'] + (['1', ','] + (['2', ','] + rest));
    CountConcat(['"'], ['1', ','] + (['2', ','] + rest), ',');
    CountPair('1', ['2', ','] + rest);
    CountPair('2', rest);
    CountPair('3', "4");
    CountNone(['"'], ',');
    CountNone("4", ',');
  }

  lemma CountPair(d: char, rest: string)
    requires d != ','
    ensures Count([d, ','] + rest, ',') == 1 + Count(rest, ',')
  {
    CountConcat([d, ','], rest, ',');
    assert [d, ','][1..] == [','] && [','][1..] == "";
  }

  /** A line behind whose first number the cursor is NULL. */
  lemma {:induction false} LineWithNullCursor()
    ensures Decode("+CGREG" + ":" + "\"1,2,3,4") == NullCursor
  {
    var rest := "\"1,2,3,4";
    assert SkipSpaces(rest) == rest && rest[1..] == "1,2,3,4";
    assert SkipSpaces("1,2,3,4") == "1,2,3,4";
    ThreeCommas();
    NullCursorExact("+CGREG", rest);
  }
}
