/** Framing of the NMEA byte stream and splitting of a sentence into fields. */
module Nmea {
  import opened Common

  /** Size of the line buffer without its spare byte. */
  const MAX_LINE: nat := 83
  const MAX_TOKENS: nat := 32

  // ---------------------------------------------------------------- framing: the reader's automaton

  /** `pos` and `in` of the reader as one string, and its overflow flag. */
  datatype State = State(line: string, overflow: bool)

  const INITIAL: State := State("", false)

  /** One byte: the state after it, and the line handed to the parser, its newline included. */
  function AddChar(s: State, c: char): (State, Option<string>) {
    if s.overflow then (State(s.line, c != '\n'), None)
    else if |s.line| >= MAX_LINE then (State("", true), None)
    else if c == '\n' then (State("", false), Some(s.line + [c]))
    else (State(s.line + [c], false), None)
  }

  datatype Trace = Trace(state: State, parsed: seq<string>)

  function Run(bytes: string): Trace {
    if bytes == "" then Trace(INITIAL, [])
    else
      var t := Run(bytes[..|bytes| - 1]);
      var (s, line) := AddChar(t.state, bytes[|bytes| - 1]);
      Trace(s, t.parsed + OptSeq(line))
  }

  // ---------------------------------------------------------------- framing: the reference

  /** The lines of a stream without their newlines, the unterminated rest last. */
  function Pieces(bytes: string): (ps: seq<string>)
    ensures ps != []
  {
    if bytes == "" then [""]
    else
      var ps := Pieces(bytes[..|bytes| - 1]);
      var c := bytes[|bytes| - 1];
      if c == '\n' then ps + [""] else ps[..|ps| - 1] + [ps[|ps| - 1] + [c]]
  }

  /** The terminated lines. */
  function Lines(bytes: string): seq<string> {
    Pieces(bytes)[..|Pieces(bytes)| - 1]
  }

  /** Ideal framing: the lines of at most 82 bytes, whole, with their newlines; longer ones dropped. */
  function ShortLines(ls: seq<string>): seq<string> {
    if ls == [] then []
    else ShortLines(ls[..|ls| - 1]) + if |ls[|ls| - 1]| < MAX_LINE then [ls[|ls| - 1] + "\n"] else []
  }

  /** Whether the newline behind the lines ls is swallowed: the last of them is exactly 83 bytes long and
      was not itself dropped for that reason. */
  function Swallowed(ls: seq<string>): bool {
    ls != [] && |ls[|ls| - 1]| == MAX_LINE && !Swallowed(ls[..|ls| - 1])
  }

  /** What the automaton hands on: the short lines that do not follow a swallowed newline. */
  function Handed(ls: seq<string>): seq<string> {
    if ls == [] then []
    else
      var init, l := ls[..|ls| - 1], ls[|ls| - 1];
      Handed(init) + if |l| < MAX_LINE && !Swallowed(init) then [l + "\n"] else []
  }

  /** The reader's state within the line `rest` behind the lines ls. */
  function StateAfter(ls: seq<string>, rest: string): State {
    if Swallowed(ls) || |rest| > MAX_LINE then State("", true) else State(rest, false)
  }

  /** The automaton, for every stream of bytes. */
  lemma {:induction false} RunExact(bytes: string)
    ensures Run(bytes).parsed == Handed(Lines(bytes))
    ensures Run(bytes).state == StateAfter(Lines(bytes), Pieces(bytes)[|Pieces(bytes)| - 1])
  {
    if bytes != "" {
      var init, c := bytes[..|bytes| - 1], bytes[|bytes| - 1];
      RunExact(init);
      var ps := Pieces(init);
      var ls, rest := ps[..|ps| - 1], ps[|ps| - 1];
      if c == '\n' {
        assert Lines(bytes) == ps == ls + [rest];
        assert ps[..|ps| - 1] == ls;
        NewLine(ls, rest);
      } else {
        assert Lines(bytes) == ls;
      }
    }
  }

  /** A newline behind `rest`. */
  lemma {:induction false} NewLine(ls: seq<string>, rest: string)
    ensures var (s, line) := AddChar(StateAfter(ls, rest), '\n');
            && Handed(ls + [rest]) == Handed(ls) + OptSeq(line)
            && s == StateAfter(ls + [rest], "")
  {
    assert (ls + [rest])[..|ls|] == ls;
  }

  /** A short line stands behind a swallowed newline. */
  predicate LosesLine(ls: seq<string>) {
    ls != [] && (LosesLine(ls[..|ls| - 1]) || (Swallowed(ls[..|ls| - 1]) && |ls[|ls| - 1]| < MAX_LINE))
  }

  lemma {:induction false} HandedShort(ls: seq<string>)
    ensures |Handed(ls)| <= |ShortLines(ls)|
    ensures Handed(ls) == ShortLines(ls) <==> !LosesLine(ls)
    ensures LosesLine(ls) ==> |Handed(ls)| < |ShortLines(ls)|
  {
    if ls != [] {
      HandedShort(ls[..|ls| - 1]);
    }
  }

  /** The parser is given exactly the lines of at most 82 bytes, whole and in order, if and only if no such
      line follows a line of exactly 83 bytes whose newline was swallowed. */
  lemma {:induction false} FramingExact(bytes: string)
    ensures Run(bytes).parsed == ShortLines(Lines(bytes)) <==> !LosesLine(Lines(bytes))
  {
    RunExact(bytes);
    HandedShort(Lines(bytes));
  }

  /** In particular if no line is exactly 83 bytes long. */
  lemma {:induction false} FramingWithout83(bytes: string)
    requires forall l :: l in Lines(bytes) ==> |l| != 83
    ensures Run(bytes).parsed == ShortLines(Lines(bytes))
  {
    FramingExact(bytes);
    NothingSwallowed(Lines(bytes));
  }

  lemma {:induction false} NothingSwallowed(ls: seq<string>)
    requires forall l :: l in ls ==> |l| != MAX_LINE
    ensures !Swallowed(ls) && !LosesLine(ls)
  {
    if ls != [] {
      NothingSwallowed(ls[..|ls| - 1]);
      assert ls[|ls| - 1] in ls;
    }
  }

  /** A line of 83 bytes takes the line behind it along. */
  lemma {:induction false} LineOf83LosesNext(l: string, next: string)
    requires |l| == 83 && |next| < 83
    ensures Handed([l, next]) == [] && ShortLines([l, next]) == [next + "\n"]
  {
    var one, two := [l], [l, next];
    assert one[..0] == [] && one[0] == l;
    assert Swallowed(one);
    assert Handed(one) == [];
    assert ShortLines(one) == [];
    assert two[..1] == one && two[1] == next;
    assert Handed(two) == [];
    assert ShortLines(two) == [next + "\n"];
  }

  // ---------------------------------------------------------------- fields

  /** A token: where it starts and ends in the sentence. */
  datatype Token = Token(start: nat, end: nat)

  /** Where the fields start: behind the '$'. */
  function BodyStart(s: string): (p: nat)
    ensures p <= |s|
  {
    if s != "" && s[0] == '$' then 1 else 0
  }

  /** Where the line end starts, in a sentence that starts at p. */
  function LineEnd(s: string, p: nat): (e: nat)
    requires p <= |s|
    ensures p <= e <= |s|
  {
    var e := |s|;
    if e > p && s[e - 1] == '\n' then if e - 1 > p && s[e - 2] == '\r' then e - 2 else e - 1 else e
  }

  /** Where the fields end: before the checksum. */
  function BodyEnd(s: string): (e: nat)
    ensures BodyStart(s) <= e <= |s|
  {
    var e := LineEnd(s, BodyStart(s));
    if e >= BodyStart(s) + 3 && s[e - 3] == '*' then e - 3 else e
  }

  /** The fields of a text between commas; an empty last one is left out. */
  function Split(s: string): seq<string> {
    if s == "" then []
    else
      var k := CommaIndex(s);
      [s[..k]] + if k == |s| then [] else Split(s[k + 1..])
  }

  function CommaIndex(s: string): (k: nat)
    ensures k <= |s| && (k < |s| ==> s[k] == ',')
    ensures forall i :: 0 <= i < k ==> s[i] != ','
  {
    if s == "" || s[0] == ',' then 0 else 1 + CommaIndex(s[1..])
  }

  function Join(fs: seq<string>): string {
    if fs == [] then "" else if |fs| == 1 then fs[0] else fs[0] + "," + Join(fs[1..])
  }

  /** The first fields, at most 32. */
  function Fields(s: string): seq<string> {
    Cap(Split(s[BodyStart(s)..BodyEnd(s)]))
  }

  function Cap(fs: seq<string>): seq<string> {
    if |fs| <= MAX_TOKENS then fs else fs[..MAX_TOKENS]
  }

  lemma {:induction false} CommaAt(s: string, k: nat)
    requires k <= |s| && (k < |s| ==> s[k] == ',') && forall i :: 0 <= i < k ==> s[i] != ','
    ensures CommaIndex(s) == k
  {
  }

  /** The fields that splitting can give back: all but an empty last one. */
  function WithoutEmptyLast(fs: seq<string>): seq<string>
    requires fs != []
  {
    if fs[|fs| - 1] == "" then fs[..|fs| - 1] else fs
  }

  lemma SplitFirst(f: string, more: string)
    requires ',' !in f
    ensures Split(f + "," + more) == [f] + Split(more)
  {
    var s := f + "," + more;
    assert s == f + ("," + more);
    CommaAt(s, |f|);
    assert s[..|f|] == f && s[|f| + 1..] == more;
  }

  lemma WithoutEmptyLastTail(f: string, fs: seq<string>)
    requires fs != []
    ensures WithoutEmptyLast([f] + fs) == [f] + WithoutEmptyLast(fs)
  {
  }

  /** Splitting undoes joining of comma-free fields, except that an empty last field is lost. */
  lemma {:induction false} SplitJoin(fs: seq<string>)
    requires fs != [] && forall i :: 0 <= i < |fs| ==> ',' !in fs[i]
    ensures Split(Join(fs)) == WithoutEmptyLast(fs)
  {
    if |fs| == 1 {
      CommaAt(fs[0], |fs[0]|);
      assert fs == [fs[0]] && fs[0][..|fs[0]|] == fs[0];
      assert fs[..0] == [];
    } else {
      SplitJoin(fs[1..]);
      SplitFirst(fs[0], Join(fs[1..]));
      WithoutEmptyLastTail(fs[0], fs[1..]);
      assert fs == [fs[0]] + fs[1..];
    }
  }

  /** A sentence as a device sends it. */
  function Sentence(fs: seq<string>, checksum: string): string {
    "$" + Join(fs) + "*" + checksum + "\r\n"
  }

  /** Tokenising a sentence of comma-free fields gives back the first 32 of them, without an empty last
      one; so it gives back exactly the fields if and only if there are at most 32 and the last is not
      empty. */
  lemma {:induction false} FieldsOfSentence(fs: seq<string>, checksum: string)
    requires fs != [] && |checksum| == 2
    requires forall i :: 0 <= i < |fs| ==> ',' !in fs[i]
    ensures Fields(Sentence(fs, checksum)) == Cap(WithoutEmptyLast(fs))
    ensures Fields(Sentence(fs, checksum)) == fs <==> |fs| <= 32 && fs[|fs| - 1] != ""
  {
    var j := Join(fs);
    assert Sentence(fs, checksum) == "$" + j + ("*" + checksum) + "\r\n";
    FieldsOfText("$", fs, "*" + checksum, "\r\n");
  }

  /** What may stand in front of the fields, behind them, and at the end of the line. */
  predicate Start(start: string) {
    start == "" || start == "$"
  }

  predicate Checksum(checksum: string) {
    checksum == "" || (|checksum| == 3 && checksum[0] == '*')
  }

  predicate LineEnding(ending: string) {
    ending == "" || ending == "\n" || ending == "\r\n"
  }

  /** Nothing in the text is taken for a start, a checksum or a line end that is missing. */
  predicate Unmistakable(start: string, text: string, checksum: string, ending: string) {
    && (start == "" && text + checksum + ending != "" ==> (text + checksum + ending)[0] != '$')
    && (checksum == "" && |text| >= 3 ==> text[|text| - 3] != '*')
    && (text + checksum != "" ==>
          var last := (text + checksum)[|text + checksum| - 1];
          (ending == "" ==> last != '\n') && (ending == "\n" ==> last != '\r'))
  }

  lemma {:induction false} BodyOfText(start: string, text: string, checksum: string, ending: string)
    requires Start(start) && Checksum(checksum) && LineEnding(ending) && Unmistakable(start, text, checksum, ending)
    ensures var s := start + text + checksum + ending;
            BodyStart(s) == |start| && BodyEnd(s) == |start| + |text| && s[|start|..|start| + |text|] == text
  {
    var s, n := start + text + checksum + ending, |start + text + checksum|;
    assert start != "" ==> s[0] == '$';
    assert start == "" ==> s == text + checksum + ending;
    EndOfText(start, text + checksum, ending, s);
    if checksum != "" {
      assert s[n - 3] == checksum[0];
    } else if |text| >= 3 {
      assert s[n - 3] == text[|text| - 3];
    }
  }

  lemma {:induction false} EndOfText(start: string, text: string, ending: string, s: string)
    requires s == start + text + ending && LineEnding(ending)
    requires text != "" ==>
               (ending == "" ==> text[|text| - 1] != '\n') && (ending == "\n" ==> text[|text| - 1] != '\r')
    ensures LineEnd(s, |start|) == |start| + |text|
  {
    var n := |start| + |text|;
    if text != "" {
      assert s[n - 1] == text[|text| - 1];
    }
    if ending != "" {
      assert s[|s| - 1] == ending[|ending| - 1] == '\n';
    }
    if |ending| == 2 {
      assert s[|s| - 2] == ending[0] == '\r';
    }
  }

  /** The same with or without the '$', the checksum and either line end, as long as what is missing cannot be
      mistaken for part of the fields. */
  lemma {:induction false} FieldsOfText(start: string, fs: seq<string>, checksum: string, ending: string)
    requires fs != [] && forall i :: 0 <= i < |fs| ==> ',' !in fs[i]
    requires Start(start) && Checksum(checksum) && LineEnding(ending)
    requires Unmistakable(start, Join(fs), checksum, ending)
    ensures Fields(start + Join(fs) + checksum + ending) == Cap(WithoutEmptyLast(fs))
    ensures Fields(start + Join(fs) + checksum + ending) == fs <==> |fs| <= 32 && fs[|fs| - 1] != ""
  {
    BodyOfText(start, Join(fs), checksum, ending);
    SplitJoin(fs);
  }

  // ---------------------------------------------------------------- in place

  class NmeaReader {
    const buffer: array<char>
    var pos: nat
    var overflow: bool
    /** The lines handed to nmea_reader_parse. */
    var parsed: seq<string>

    ghost predicate Valid()
      reads this
    {
      buffer.Length == MAX_LINE + 1 && pos <= MAX_LINE && (overflow ==> pos == 0)
    }

    ghost function Value(): Trace
      requires Valid()
      reads this, buffer
    {
      Trace(State(buffer[..pos], overflow), parsed)
    }

    constructor ()
      ensures Valid() && Value() == Trace(INITIAL, []) && fresh(buffer)
    {
      buffer := new char[MAX_LINE + 1](_ => ' ');
      pos, overflow, parsed := 0, false, [];
    }

    /** nmea_reader_addc. */
    method AddC(c: char)
      requires Valid()
      modifies this, buffer
      ensures Valid()
      ensures var (s, line) := AddChar(old(Value().state), c);
              Value() == Trace(s, old(parsed) + OptSeq(line))
    {
      if overflow {
        overflow := c != '\n';
        return;
      }
      if pos >= buffer.Length - 1 {
        overflow := true;
        pos := 0;
        return;
      }
      ghost var line := buffer[..pos];
      buffer[pos] := c;
      pos := pos + 1;
      assert buffer[..pos] == line + [c];
      if c == '\n' {
        parsed := parsed + [buffer[..pos]];
        pos := 0;
      }
    }
  }

  predicate InText(s: string, ts: seq<Token>) {
    forall i :: 0 <= i < |ts| ==> ts[i].start <= ts[i].end <= |s|
  }

  /** The texts of tokens. */
  function Texts(s: string, ts: seq<Token>): (fs: seq<string>)
    requires InText(s, ts)
    ensures |fs| == |ts| && forall i :: 0 <= i < |ts| ==> fs[i] == s[ts[i].start..ts[i].end]
  {
    seq(|ts|, i requires 0 <= i < |ts| => s[ts[i].start..ts[i].end])
  }

  /** Splitting off the text up to the first comma. */
  lemma {:induction false} SplitHead(s: string, p: nat, q: nat, e: nat)
    requires p < e <= |s| && p <= q <= e && q - p == CommaIndex(s[p..e])
    ensures Split(s[p..e]) == [s[p..q]] + Split(s[if q < e then q + 1 else q..e])
  {
    var t := s[p..e];
    assert t[..q - p] == s[p..q];
    if q < e {
      assert t[q - p + 1..] == s[q + 1..e];
    }
  }

  /** A field is stored, or there was no room for it. */
  lemma {:induction false} CapStep(ts: seq<string>, f: string, rest: seq<string>)
    requires |ts| <= MAX_TOKENS
    ensures Cap((if |ts| < MAX_TOKENS then ts + [f] else ts) + rest) == Cap(ts + ([f] + rest))
  {
    if |ts| < MAX_TOKENS {
      assert ts + [f] + rest == ts + ([f] + rest);
    } else {
      assert (ts + rest)[..MAX_TOKENS] == ts == (ts + ([f] + rest))[..MAX_TOKENS];
    }
  }

  lemma TextsAppend(s: string, ts: seq<Token>, t: Token)
    requires InText(s, ts) && t.start <= t.end <= |s|
    ensures InText(s, ts + [t]) && Texts(s, ts + [t]) == Texts(s, ts) + [s[t.start..t.end]]
  {
  }

  /** The tokens ts and the fields still in s[p..e] make up all fields, as far as there is room. */
  predicate Filling(s: string, ts: seq<Token>, p: nat, e: nat, all: seq<string>) {
    && p <= e <= |s| && |ts| <= MAX_TOKENS && InText(s, ts)
    && Cap(Texts(s, ts) + Split(s[p..e])) == all
  }

  function AddTo(ts: seq<Token>, t: Token): seq<Token> {
    if |ts| < MAX_TOKENS then ts + [t] else ts
  }

  /** One turn of the loop over the fields. */
  lemma {:induction false} FieldTurn(s: string, ts: seq<Token>, p: nat, q: nat, e: nat, all: seq<string>)
    requires Filling(s, ts, p, e, all) && p < e && p <= q <= e && q - p == CommaIndex(s[p..e])
    ensures Filling(s, AddTo(ts, Token(p, q)), if q < e then q + 1 else q, e, all)
  {
    SplitHead(s, p, q, e);
    TextsAppend(s, ts, Token(p, q));
    CapStep(Texts(s, ts), s[p..q], Split(s[if q < e then q + 1 else q..e]));
  }

  lemma FillingEnds(s: string, ts: seq<Token>, p: nat, e: nat, all: seq<string>)
    ensures p <= e <= |s| && ts == [] ==> Filling(s, ts, p, e, Cap(Split(s[p..e])))
    ensures Filling(s, ts, e, e, all) ==> Texts(s, ts) == all
  {
    if p <= e <= |s| && ts == [] {
      assert Texts(s, ts) + Split(s[p..e]) == Split(s[p..e]);
    }
    if Filling(s, ts, e, e, all) {
      assert Texts(s, ts) + Split(s[e..e]) == Texts(s, ts);
    }
  }

  class NmeaTokenizer {
    var count: nat
    const tokens: array<Token>

    constructor ()
      ensures count == 0 && tokens.Length == MAX_TOKENS && fresh(tokens)
    {
      count := 0;
      tokens := new Token[MAX_TOKENS](_ => Token(0, 0));
    }

    /** nmea_tokenizer_init. */
    method Init(s: string)
      requires tokens.Length == MAX_TOKENS
      modifies `count, tokens
      ensures count <= MAX_TOKENS && InText(s, tokens[..count]) && Texts(s, tokens[..count]) == Fields(s)
    {
      var p, e := 0, |s|;
      if p < e && s[p] == '$' {
        p := p + 1;
      }
      if e > p && s[e - 1] == '\n' {
        e := e - 1;
        if e > p && s[e - 1] == '\r' {
          e := e - 1;
        }
      }
      assert e == LineEnd(s, BodyStart(s));
      if e >= p + 3 && s[e - 3] == '*' {
        e := e - 3;
      }
      assert p == BodyStart(s) && e == BodyEnd(s);
      FillTokens(s, p, e);
    }

    /** Stores a token if there is room. */
    method AddToken(t: Token)
      requires count <= tokens.Length == MAX_TOKENS
      modifies `count, tokens
      ensures count <= MAX_TOKENS && tokens[..count] == AddTo(old(tokens[..count]), t)
    {
      if count < MAX_TOKENS {
        tokens[count] := t;
        count := count + 1;
      }
    }

    /** One turn of the loop: the field at p becomes a token. */
    method TakeField(s: string, p: nat, e: nat, ghost all: seq<string>) returns (next: nat)
      requires count <= tokens.Length == MAX_TOKENS && p < e && Filling(s, tokens[..count], p, e, all)
      modifies `count, tokens
      ensures p < next <= e && count <= MAX_TOKENS && Filling(s, tokens[..count], next, e, all)
    {
      ghost var ts := tokens[..count];
      var q := FindComma(s, p, e);
      FieldTurn(s, ts, p, q, e, all);
      AddToken(Token(p, q));
      next := if q < e then q + 1 else q;
    }

    /** The loop over the fields. */
    method FillTokens(s: string, p0: nat, e: nat)
      requires tokens.Length == MAX_TOKENS && p0 <= e <= |s|
      modifies `count, tokens
      ensures count <= MAX_TOKENS && InText(s, tokens[..count])
      ensures Texts(s, tokens[..count]) == Cap(Split(s[p0..e]))
    {
      var p := p0;
      count := 0;
      ghost var all := Cap(Split(s[p0..e]));
      FillingEnds(s, [], p0, e, all);
      assert tokens[..count] == [];
      while p < e
        invariant p <= e && count <= MAX_TOKENS && Filling(s, tokens[..count], p, e, all)
        decreases e - p
      {
        p := TakeField(s, p, e, all);
      }
      FillingEnds(s, tokens[..count], p, e, all);
    }

    /** memchr for a comma, or the end. */
    static method FindComma(s: string, p: nat, e: nat) returns (q: nat)
      requires p <= e <= |s|
      ensures p <= q <= e && q - p == CommaIndex(s[p..e])
    {
      q := p;
      while q < e && s[q] != ','
        invariant p <= q <= e && forall i :: p <= i < q ==> s[i] != ','
      {
        q := q + 1;
      }
      CommaAt(s[p..e], q - p);
    }
  }
}
