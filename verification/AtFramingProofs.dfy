/** The framing theorems: independence of how the input is cut into reads, and the exact role of a
    full buffer. */
module AtFramingProofs {
  import opened Common
  import opened AtFraming

  // ---------------------------------------------------------------- pieces

  lemma {:induction false} PiecesPlain(t: string)
    requires EolIndex(t) == |t|
    ensures Pieces(t) == [t]
  {
    if t != "" {
      PiecesPlain(t[1..]);
      assert [t[0]] + t[1..] == t;
    }
  }

  lemma {:induction false} PiecesSplit(t: string, c: char, z: string)
    requires EolIndex(t) == |t| && IsEol(c)
    ensures Pieces(t + [c] + z) == [t] + Pieces(z)
  {
    var s := t + [c] + z;
    if t == "" {
      assert s[1..] == z;
    } else {
      PiecesSplit(t[1..], c, z);
      assert s[1..] == t[1..] + [c] + z;
      assert [t[0]] + t[1..] == t;
    }
  }

  /** A line end splits a stream: the text before it is a line, or nothing if it is empty. */
  lemma {:induction false} SplitAtEol(t: string, c: char, z: string)
    requires EolIndex(t) == |t| && IsEol(c)
    ensures Lines(t + [c] + z) == (if t == "" then [] else [t]) + Lines(z)
    ensures Rest(t + [c] + z) == Rest(z)
  {
    PiecesSplit(t, c, z);
    var pz := Pieces(z);
    var ps := ([t] + pz)[..|pz|];
    assert ps == [t] + pz[..|pz| - 1];
    assert ps[1..] == pz[..|pz| - 1];
  }

  lemma {:induction false} NoEol(t: string)
    requires EolIndex(t) == |t|
    ensures Lines(t) == [] && Rest(t) == t
  {
    PiecesPlain(t);
    assert [t][..0] == [];
  }

  /** The text up to the first line end has none. */
  lemma {:induction false} EolFree(s: string)
    ensures EolIndex(s[..EolIndex(s)]) == EolIndex(s)
  {
    if s != "" && !IsEol(s[0]) {
      EolFree(s[1..]);
      assert s[..EolIndex(s)][1..] == s[1..][..EolIndex(s[1..])];
    }
  }

  /** Leading line ends do not matter. */
  lemma {:induction false} StripAway(a: string, z: string)
    ensures Lines(Strip(a) + z) == Lines(a + z) && Rest(Strip(a) + z) == Rest(a + z)
  {
    if a != "" && IsEol(a[0]) {
      StripAway(a[1..], z);
      SplitAtEol("", a[0], a[1..] + z);
      assert "" + [a[0]] + (a[1..] + z) == a + z;
    }
  }

  // ---------------------------------------------------------------- one call

  /** Without loss, a call takes exactly the first line off the stream, or leaves it unterminated. */
  ghost predicate Takes(o: Outcome, before: string, after: string) {
    match o
    case Line(text, rest, _) =>
      Lines(before + after) == [text] + Lines(rest + after) && Rest(before + after) == Rest(rest + after)
    case Prompt(_) => true
    case Null(rest, _) => Lines(before) == [] && Rest(before) == rest
  }

  /** The first line of a text that has a line end but does not start with one. */
  lemma {:induction false} FirstLine(t: string, after: string)
    requires 0 < EolIndex(t) < |t|
    ensures Lines(t + after) == [t[..EolIndex(t)]] + Lines(t[EolIndex(t) + 1..] + after)
    ensures Rest(t + after) == Rest(t[EolIndex(t) + 1..] + after)
  {
    var k := EolIndex(t);
    EolFree(t);
    SplitAtEol(t[..k], t[k], t[k + 1..] + after);
    assert t[..k] + [t[k]] + (t[k + 1..] + after) == t + after;
  }

  lemma {:induction false} FindTakes(t: string, es: seq<Event>, after: string)
    requires t != "" ==> !IsEol(t[0])
    ensures Find(t, es).Some? ==> Takes(Find(t, es).value, t, after)
    ensures Find(t, es).None? ==> EolIndex(t) == |t|
  {
    if t != PROMPT && EolIndex(t) < |t| {
      FirstLine(t, after);
    }
  }

  lemma {:induction false} TakesStripped(o: Outcome, a: string, read: string, after: string)
    requires Takes(o, Strip(a) + read, after)
    ensures Takes(o, a + read, after)
  {
    StripAway(a, read + after);
    StripAway(a, read);
    assert a + read + after == a + (read + after);
    assert Strip(a) + read + after == Strip(a) + (read + after);
  }

  lemma {:induction false} FillTakes(t: string, used: nat, es: seq<Event>, after: string)
    requires |t| <= used <= MAX_RESPONSE && EolIndex(t) == |t|
    requires Fill(t, used, es).1.lost == ""
    ensures Takes(Fill(t, used, es).0, t + Fill(t, used, es).1.read, after)
    decreases Size(es), 1
  {
    if used == MAX_RESPONSE {
      var l := FillRoom("", 0, es).1;
      assert t + l.lost == "";
      assert "" + l.read == l.read;
      FillRoomTakes("", 0, es, after);
    } else {
      FillRoomTakes(t, used, es, after);
    }
  }

  lemma {:induction false} FillRoomTakes(t: string, used: nat, es: seq<Event>, after: string)
    requires |t| <= used < MAX_RESPONSE && EolIndex(t) == |t|
    requires FillRoom(t, used, es).1.lost == ""
    ensures Takes(FillRoom(t, used, es).0, t + FillRoom(t, used, es).1.read, after)
    decreases Size(es), 0
  {
    assert t + "" == t;
    NoEol(t);
    if es != [] && es[0].Wakeup? {
      FillTakes(t, used, es[1..], after);
    } else if es != [] && es[0].Data? && es[0].s != "" {
      var (s, later) := Receive(used, es);
      AfterReadTakes(t, used, s, later, after);
    }
  }

  lemma {:induction false} AfterReadTakes(t: string, used: nat, s: string, later: seq<Event>, after: string)
    requires |t| <= used && used + |s| <= MAX_RESPONSE && s != ""
    requires AfterRead(t, used, s, later).1.lost == ""
    ensures Takes(AfterRead(t, used, s, later).0, t + AfterRead(t, used, s, later).1.read, after)
    decreases Size(later), 2
  {
    var t' := Strip(t + s);
    FindTakes(t', later, after);
    if Find(t', later).None? {
      var (o, l) := Fill(t', used + |s|, later);
      FillTakes(t', used + |s|, later, after);
      TakesStripped(o, t + s, l.read, after);
      assert t + s + l.read == t + (s + l.read);
    } else {
      assert t' + "" == t' && t + s + "" == t + s;
      TakesStripped(Find(t', later).value, t + s, "", after);
    }
  }

  lemma {:induction false} ReadlineTakes(rest: string, es: seq<Event>, after: string)
    requires |rest| <= MAX_RESPONSE
    requires Readline(rest, es).1.lost == ""
    ensures Takes(Readline(rest, es).0, rest + Readline(rest, es).1.read, after)
  {
    var t := Strip(rest);
    var (o, l) := Readline(rest, es);
    FindTakes(t, es, after);
    if rest == "" || Find(t, es).None? {
      FillTakes(t, |t|, es, after);
    } else {
      assert t + "" == t;
    }
    TakesStripped(o, rest, l.read, after);
  }

  // ---------------------------------------------------------------- sessions

  /** If nothing is lost and the prompt is not met, successive calls return exactly the lines of the
      stream, however it was cut into reads, and keep exactly the unterminated rest. */
  lemma {:induction false} DrainFrames(rest: string, es: seq<Event>)
    requires |rest| <= MAX_RESPONSE
    requires Drain(rest, es).log.lost == "" && !Drain(rest, es).end.Prompt?
    ensures var d := Drain(rest, es);
            d.lines == Lines(rest + d.log.read) && d.end.rest == Rest(rest + d.log.read)
    decreases |rest| + Size(es)
  {
    var d := Drain(rest, es);
    var (o, l) := Readline(rest, es);
    if o.Line? {
      var later := Drain(o.rest, o.events);
      DrainFrames(o.rest, o.events);
      ReadlineTakes(rest, es, later.log.read);
      assert rest + (l.read + later.log.read) == rest + l.read + later.log.read;
    } else {
      ReadlineTakes(rest, es, "");
    }
  }

  // ---------------------------------------------------------------- characters

  /** Number of characters that are not line ends. */
  function Chars(s: string): nat {
    if s == "" then 0 else (if IsEol(s[0]) then 0 else 1) + Chars(s[1..])
  }

  function Total(ls: seq<string>): nat {
    if ls == [] then 0 else |ls[0]| + Total(ls[1..])
  }

  lemma {:induction false} CharsConcat(a: string, b: string)
    ensures Chars(a + b) == Chars(a) + Chars(b)
  {
    if a == "" {
      assert a + b == b;
    } else {
      CharsConcat(a[1..], b);
      assert (a + b)[1..] == a[1..] + b;
    }
  }

  lemma {:induction false} CharsPlain(t: string)
    requires EolIndex(t) == |t|
    ensures Chars(t) == |t|
  {
    if t != "" {
      CharsPlain(t[1..]);
    }
  }

  lemma {:induction false} CharsStrip(a: string)
    ensures Chars(Strip(a)) == Chars(a)
  {
    if a != "" && IsEol(a[0]) {
      CharsStrip(a[1..]);
    }
  }

  /** A text with a line end: the characters before it and those behind it. */
  lemma {:induction false} CharsSplit(t: string)
    requires EolIndex(t) < |t|
    ensures Chars(t) == EolIndex(t) + Chars(t[EolIndex(t) + 1..])
  {
    if !IsEol(t[0]) {
      CharsSplit(t[1..]);
      assert t[1..][EolIndex(t[1..]) + 1..] == t[EolIndex(t) + 1..];
    }
  }

  /** Characters an outcome accounts for. */
  function Accounted(o: Outcome): nat
    requires !o.Prompt?
  {
    if o.Line? then |o.text| + Chars(o.rest) else Chars(o.rest)
  }

  lemma {:induction false} FindChars(t: string, es: seq<Event>)
    ensures Find(t, es).Some? && !Find(t, es).value.Prompt? ==> Accounted(Find(t, es).value) == Chars(t)
  {
    if EolIndex(t) < |t| {
      CharsSplit(t);
    }
  }

  lemma {:induction false} FillChars(t: string, used: nat, es: seq<Event>)
    requires |t| <= used <= MAX_RESPONSE && EolIndex(t) == |t|
    ensures var (o, l) := Fill(t, used, es);
            !o.Prompt? ==> Accounted(o) + |l.lost| == Chars(t) + Chars(l.read)
    decreases Size(es), 1
  {
    CharsPlain(t);
    if used == MAX_RESPONSE {
      FillRoomChars("", 0, es);
      assert "" + FillRoom("", 0, es).1.read == FillRoom("", 0, es).1.read;
    } else {
      FillRoomChars(t, used, es);
    }
  }

  lemma {:induction false} FillRoomChars(t: string, used: nat, es: seq<Event>)
    requires |t| <= used < MAX_RESPONSE && EolIndex(t) == |t|
    ensures var (o, l) := FillRoom(t, used, es);
            !o.Prompt? ==> Accounted(o) + |l.lost| == Chars(t) + Chars(l.read)
    decreases Size(es), 0
  {
    if es != [] && es[0].Wakeup? {
      FillChars(t, used, es[1..]);
    } else if es != [] && es[0].Data? && es[0].s != "" {
      var (s, later) := Receive(used, es);
      var t' := Strip(t + s);
      CharsStrip(t + s);
      CharsConcat(t, s);
      FindChars(t', later);
      if Find(t', later).None? {
        FillChars(t', used + |s|, later);
        CharsConcat(s, Fill(t', used + |s|, later).1.read);
      }
    }
  }

  /** Every character read, line ends aside, is in a returned line, still buffered, or lost. */
  lemma {:induction false} DrainConserves(rest: string, es: seq<Event>)
    requires |rest| <= MAX_RESPONSE && !Drain(rest, es).end.Prompt?
    ensures var d := Drain(rest, es);
            Total(d.lines) + Chars(d.end.rest) + |d.log.lost| == Chars(rest + d.log.read)
    decreases |rest| + Size(es)
  {
    var (o, l) := Readline(rest, es);
    var t := Strip(rest);
    var d := Drain(rest, es);
    CharsConcat(rest, d.log.read);
    CharsStrip(rest);
    FindChars(t, es);
    if rest == "" || Find(t, es).None? {
      FillChars(t, |t|, es);
    }
    if o.Line? {
      var later := Drain(o.rest, o.events);
      DrainConserves(o.rest, o.events);
      CharsConcat(o.rest, later.log.read);
      CharsConcat(l.read, later.log.read);
      assert d.lines[1..] == later.lines;
    }
  }

  lemma {:induction false} LinesStripped(s: string)
    ensures Lines(Strip(s)) == Lines(s) && Rest(Strip(s)) == Rest(s)
  {
    StripAway(s, "");
    assert Strip(s) + "" == Strip(s) && s + "" == s;
  }

  lemma {:induction false} FirstLineOff(t: string)
    requires 0 < EolIndex(t) < |t|
    ensures var k := EolIndex(t);
            && Total(Lines(t)) == |t[..k]| + Total(Lines(t[k + 1..])) && Rest(t) == Rest(t[k + 1..])
  {
    var k := EolIndex(t);
    FirstLine(t, "");
    assert t + "" == t && t[k + 1..] + "" == t[k + 1..];
    assert ([t[..k]] + Lines(t[k + 1..]))[1..] == Lines(t[k + 1..]);
  }

  lemma {:induction false} LinesChars(s: string)
    ensures Total(Lines(s)) + Chars(Rest(s)) == Chars(s)
    decreases |s|
  {
    var t := Strip(s);
    var k := EolIndex(t);
    CharsStrip(s);
    LinesStripped(s);
    if k == |t| {
      NoEol(t);
    } else {
      LinesChars(t[k + 1..]);
      FirstLineOff(t);
      CharsSplit(t);
    }
  }

  /** The framing theorem.  As long as the prompt is not met, successive calls return exactly the lines
      of the stream and keep its rest if and only if no text was thrown away with a full buffer. */
  lemma {:induction false} FramingExact(rest: string, es: seq<Event>)
    requires |rest| <= MAX_RESPONSE && !Drain(rest, es).end.Prompt?
    ensures var d := Drain(rest, es);
            d.lines == Lines(rest + d.log.read) && d.end.rest == Rest(rest + d.log.read) <==> d.log.lost == ""
  {
    if Drain(rest, es).log.lost == "" {
      DrainFrames(rest, es);
    } else {
      DrainConserves(rest, es);
      LinesChars(rest + Drain(rest, es).log.read);
    }
  }
}
