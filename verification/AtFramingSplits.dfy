/** Framing for every way of cutting a stream into reads: the exact condition on the stream. */
module AtFramingSplits {
  import opened Common
  import opened AtFraming
  import opened AtFramingProofs

  /** All data of the events. */
  function AllData(es: seq<Event>): string {
    if es == [] then "" else (if es[0].Data? then es[0].s else "") + AllData(es[1..])
  }

  /** Data and wake-ups only: the input neither ends nor fails in between. */
  predicate Flowing(es: seq<Event>) {
    forall i :: 0 <= i < |es| ==> es[i].Wakeup? || (es[i].Data? && es[i].s != "")
  }

  // ---------------------------------------------------------------- the first line of a stream

  /** Number of line ends in front of the first line. */
  function Gap(z: string): (g: nat)
    ensures g <= |z|
  {
    |z| - |Strip(z)|
  }

  /** Length of the first line, complete or not. */
  function Width(z: string): nat {
    EolIndex(Strip(z))
  }

  predicate HasLine(z: string) {
    Width(z) < |Strip(z)|
  }

  /** The stream behind its first line and the line end that completes it. */
  function After(z: string): (y: string)
    requires HasLine(z)
    ensures |y| == |z| - Gap(z) - Width(z) - 1
  {
    Strip(z)[Width(z) + 1..]
  }

  // ---------------------------------------------------------------- the condition

  /** The buffer index at which a line starts, if n characters of the stream are buffered when it is first
      looked for: line ends read from then on take up room, until they fill the buffer and are ditched. */
  function Offset(n: nat, gap: nat): nat {
    if n >= gap then 0 else (gap - n) % MAX_RESPONSE
  }

  /** The least and the greatest such index for 0..x buffered characters. */
  function Least(x: nat, gap: nat): nat {
    if x >= gap || gap % MAX_RESPONSE <= x then 0 else gap % MAX_RESPONSE - x
  }

  function Greatest(x: nat, gap: nat): nat {
    if gap >= MAX_RESPONSE && x > gap % MAX_RESPONSE then MAX_RESPONSE - 1 else gap % MAX_RESPONSE
  }

  /** The most that can be buffered behind the first line. */
  function Most(x: nat, z: string): (m: nat)
    requires HasLine(z)
    ensures m <= |After(z)| && m <= MAX_RESPONSE
  {
    var room := MAX_RESPONSE - (Least(x, Gap(z)) + Width(z) + 1);
    if room < 0 then 0 else if room < |After(z)| then room else |After(z)|
  }

  /** A scan over the lines of a stream, at most x characters of which are buffered: each line, the rest
      included, ends inside the buffer wherever it can start. */
  predicate Fits(x: nat, z: string)
    decreases |z|
  {
    Greatest(x, Gap(z)) + Width(z) < MAX_RESPONSE && (HasLine(z) ==> Fits(Most(x, z), After(z)))
  }

  /** The simple condition: every line together with the line ends in front of it is shorter than the
      buffer.  The line end that completes the line before does not count. */
  predicate Short(z: string)
    decreases |z|
  {
    Gap(z) + Width(z) < MAX_RESPONSE && (HasLine(z) ==> Short(After(z)))
  }

  /** No run of line ends in front of a line fills the buffer. */
  predicate ShortRuns(z: string)
    decreases |z|
  {
    Gap(z) < MAX_RESPONSE && (HasLine(z) ==> ShortRuns(After(z)))
  }

  lemma {:induction false} OffsetBetween(x: nat, n: nat, gap: nat)
    requires n <= x <= MAX_RESPONSE
    ensures Least(x, gap) <= Offset(n, gap) <= Greatest(x, gap) < MAX_RESPONSE
  {
  }

  lemma {:induction false} ShortFits(x: nat, z: string)
    requires Short(z)
    ensures Fits(x, z)
    decreases |z|
  {
    if HasLine(z) {
      ShortFits(Most(x, z), After(z));
    }
  }

  lemma {:induction false} FitsShort(x: nat, z: string)
    requires Fits(x, z) && ShortRuns(z)
    ensures Short(z)
    decreases |z|
  {
    if HasLine(z) {
      FitsShort(Most(x, z), After(z));
    }
  }

  // ---------------------------------------------------------------- what is read

  lemma {:induction false} ReceiveData(used: nat, es: seq<Event>)
    requires used < MAX_RESPONSE && es != [] && Flowing(es) && es[0].Data?
    ensures Receive(used, es).0 + AllData(Receive(used, es).1) == AllData(es)
    ensures Flowing(Receive(used, es).1)
  {
    var d := es[0].s;
    if |d| > MAX_RESPONSE - used {
      var k := MAX_RESPONSE - used;
      var later := [Data(d[k..])] + es[1..];
      assert later[1..] == es[1..];
      assert d[..k] + (d[k..] + AllData(es[1..])) == d + AllData(es[1..]);
    }
  }

  /** An outcome whose call has read `read` of the data of `es`. */
  ghost predicate Reads(o: Outcome, read: string, es: seq<Event>) {
    match o
    case Line(_, _, events) => Flowing(events) && read + AllData(events) == AllData(es)
    case Prompt(events) => read + AllData(events) == AllData(es)
    case Null(_, events) => events == [] && read == AllData(es)
  }

  lemma {:induction false} StripConcat(a: string, b: string)
    ensures Strip(a + b) == if Strip(a) == "" then Strip(b) else Strip(a) + b
  {
    if a == "" {
      assert a + b == b;
    } else if IsEol(a[0]) {
      StripConcat(a[1..], b);
      assert (a + b)[1..] == a[1..] + b;
    }
  }

  lemma {:induction false} EolConcat(a: string, b: string)
    ensures EolIndex(a + b) == if EolIndex(a) < |a| then EolIndex(a) else |a| + EolIndex(b)
  {
    if a == "" {
      assert a + b == b;
    } else if !IsEol(a[0]) {
      EolConcat(a[1..], b);
      assert (a + b)[1..] == a[1..] + b;
    }
  }

  lemma StripPlain(t: string)
    requires EolIndex(t) == |t|
    ensures Strip(t) == t
  {
  }

  // ---------------------------------------------------------------- one call

  /** The buffer index behind the first line of t + d, if t, at fill level `used`, is buffered. */
  function EndIndex(t: string, used: nat, d: string): nat {
    if t != "" then used + EolIndex(d) else (used + Gap(d)) % MAX_RESPONSE + Width(d)
  }

  /** What filling does, in terms of the data to come: it loses nothing if the line ends inside the buffer,
      and only then, unless the prompt is met before. */
  ghost predicate FillsTo(r: (Outcome, Log), t: string, used: nat, es: seq<Event>) {
    var d, end := AllData(es), EndIndex(t, used, AllData(es));
    && Reads(r.0, r.1.read, es)
    && (end < MAX_RESPONSE ==> r.1.lost == "")
    && (r.1.lost == "" ==>
          match r.0
          case Line(_, rest, events) => HasLine(t + d) && Leftover(rest, events, After(t + d), end)
          case Prompt(_) => Strip(t + r.1.read) == PROMPT
          case Null(_, _) => end < MAX_RESPONSE && !HasLine(t + d))
  }

  /** What a returned line that ended at index `end` leaves of the stream behind it. */
  ghost predicate Leftover(rest: string, events: seq<Event>, after: string, end: nat) {
    rest + AllData(events) == after && end + 1 + |rest| <= MAX_RESPONSE
  }

  lemma {:induction false} FillExact(t: string, used: nat, es: seq<Event>)
    requires |t| <= used <= MAX_RESPONSE && EolIndex(t) == |t| && Flowing(es)
    ensures FillsTo(Fill(t, used, es), t, used, es)
    decreases Size(es), 1
  {
    if used == MAX_RESPONSE {
      FillRoomExact("", 0, es);
      Ditched(t, FillRoom("", 0, es), es);
    } else {
      FillRoomExact(t, used, es);
    }
  }

  /** A full buffer of line ends is as good as an empty one; any other is a loss. */
  lemma {:induction false} Ditched(t: string, r: (Outcome, Log), es: seq<Event>)
    requires FillsTo(r, "", 0, es)
    ensures FillsTo((r.0, Join(Log("", t), r.1)), t, MAX_RESPONSE, es)
  {
    assert "" + r.1.read == r.1.read;
    if t == "" {
      assert EndIndex("", MAX_RESPONSE, AllData(es)) == EndIndex("", 0, AllData(es));
      assert "" + r.1.lost == r.1.lost;
    }
  }

  lemma {:induction false} FillRoomExact(t: string, used: nat, es: seq<Event>)
    requires |t| <= used < MAX_RESPONSE && EolIndex(t) == |t| && Flowing(es)
    ensures FillsTo(FillRoom(t, used, es), t, used, es)
    decreases Size(es), 0
  {
    if es == [] {
      assert t + "" == t;
      StripPlain(t);
    } else if es[0].Wakeup? {
      assert AllData(es) == AllData(es[1..]);
      FillExact(t, used, es[1..]);
    } else {
      var (s, later) := Receive(used, es);
      ReceiveData(used, es);
      ReadExact(t, used, s, later, es);
    }
  }

  lemma {:induction false} ReadExact(t: string, used: nat, s: string, later: seq<Event>, es: seq<Event>)
    requires |t| <= used && used + |s| <= MAX_RESPONSE && s != "" && EolIndex(t) == |t|
    requires Flowing(later) && AllData(es) == s + AllData(later)
    ensures FillsTo(AfterRead(t, used, s, later), t, used, es)
    decreases Size(later), 2
  {
    var t' := Strip(t + s);
    if EolIndex(t') < |t'| {
      ReadLine(t, used, s, later, es);
    } else if t' == PROMPT {
      ReadPrompt(t, used, s, later, es);
    } else {
      FillExact(t', used + |s|, later);
      EndMoves(t, used, s, AllData(later));
      Assoc(t, s, AllData(later));
      StripStrip(t + s, AllData(later));
      FillLater(Fill(t', used + |s|, later), t, used, s, later, es);
    }
  }

  lemma {:induction false} ReadPrompt(t: string, used: nat, s: string, later: seq<Event>, es: seq<Event>)
    requires |t| <= used && used + |s| <= MAX_RESPONSE && s != ""
    requires Flowing(later) && AllData(es) == s + AllData(later) && Strip(t + s) == PROMPT
    ensures FillsTo(AfterRead(t, used, s, later), t, used, es)
  {
  }

  lemma {:induction false} StripStrip(a: string, b: string)
    ensures Strip(Strip(a) + b) == Strip(a + b)
  {
    StripConcat(a, b);
    StripConcat(Strip(a), b);
    StripTwice(a);
  }

  /** The read completes the line. */
  lemma {:induction false} ReadLine(t: string, used: nat, s: string, later: seq<Event>, es: seq<Event>)
    requires |t| <= used && used + |s| <= MAX_RESPONSE && s != "" && EolIndex(t) == |t|
    requires Flowing(later) && AllData(es) == s + AllData(later)
    requires EolIndex(Strip(t + s)) < |Strip(t + s)|
    ensures FillsTo(AfterRead(t, used, s, later), t, used, es)
  {
    Assoc(t, s, AllData(later));
    LineBehind(t + s, AllData(later));
    LineEndsAt(t, used, s, AllData(later));
    PromptPlain();
  }

  /** Where the line ends that the read s completes. */
  lemma {:induction false} LineEndsAt(t: string, used: nat, s: string, d: string)
    requires |t| <= used && used + |s| <= MAX_RESPONSE && EolIndex(t) == |t|
    requires EolIndex(Strip(t + s)) < |Strip(t + s)|
    ensures EndIndex(t, used, s + d) == used + |s| - |Strip(t + s)| + EolIndex(Strip(t + s))
  {
    if t != "" {
      TextFirst(t, s);
      EolConcat(s, d);
    } else {
      assert t + s == s;
      CompleteFirst(s, d);
    }
  }

  /** Text without line ends in front of s. */
  lemma {:induction false} TextFirst(t: string, s: string)
    requires t != "" && EolIndex(t) == |t|
    ensures Strip(t + s) == t + s && EolIndex(t + s) == |t| + EolIndex(s)
  {
    StripPlain(t);
    StripConcat(t, s);
    EolConcat(t, s);
  }

  lemma {:induction false} CompleteFirst(s: string, d: string)
    requires EolIndex(Strip(s)) < |Strip(s)|
    ensures Gap(s + d) == Gap(s) && Width(s + d) == Width(s)
  {
    StripConcat(s, d);
    EolConcat(Strip(s), d);
  }

  /** The read does not complete the line: it goes on to end at the same index. */
  lemma {:induction false} EndMoves(t: string, used: nat, s: string, d: string)
    requires |t| <= used && used + |s| <= MAX_RESPONSE && EolIndex(t) == |t| && s != ""
    requires EolIndex(Strip(t + s)) == |Strip(t + s)|
    ensures EndIndex(Strip(t + s), used + |s|, d) == EndIndex(t, used, s + d)
  {
    if t != "" {
      TextFirst(t, s);
      EolConcat(s, d);
    } else {
      assert t + s == s;
      if Strip(s) == "" {
        GapGoesOn(s, d);
      } else {
        LineGoesOn(s, d);
      }
    }
  }

  lemma {:induction false} FillLater(r: (Outcome, Log), t: string, used: nat, s: string, later: seq<Event>,
                                     es: seq<Event>)
    requires AllData(es) == s + AllData(later)
    requires FillsTo(r, Strip(t + s), used + |s|, later)
    requires EndIndex(Strip(t + s), used + |s|, AllData(later)) == EndIndex(t, used, AllData(es))
    requires Strip(Strip(t + s) + AllData(later)) == Strip(t + AllData(es))
    ensures FillsTo((r.0, Join(Log(s, ""), r.1)), t, used, es)
  {
    Assoc(t, s, r.1.read);
    StripStrip(t + s, r.1.read);
    if !r.0.Null? {
      Assoc(s, r.1.read, AllData(r.0.events));
    }
  }

  lemma {:induction false} StripTwice(a: string)
    ensures Strip(Strip(a)) == Strip(a)
  {
  }

  lemma PromptPlain()
    ensures EolIndex(PROMPT) == |PROMPT|
  {
    assert EolIndex(PROMPT[1..][1..]) == 0;
    assert EolIndex(PROMPT[1..]) == 1;
  }

  /** A call with n characters of the stream z buffered: what it loses and leaves is decided by n and z. */
  ghost predicate CallTo(r: (Outcome, Log), n: nat, z: string, es: seq<Event>)
    requires n <= |z|
  {
    var end := Offset(n, Gap(z)) + Width(z);
    && Reads(r.0, r.1.read, es)
    && (end < MAX_RESPONSE ==> r.1.lost == "")
    && (r.1.lost == "" ==>
          match r.0
          case Line(_, rest, events) => HasLine(z) && Leftover(rest, events, After(z), end)
          case Prompt(_) => Strip(z[..n] + r.1.read) == PROMPT
          case Null(_, _) => end < MAX_RESPONSE && !HasLine(z))
  }

  lemma {:induction false} CallExact(n: nat, z: string, es: seq<Event>)
    requires n <= |z| && n <= MAX_RESPONSE && Flowing(es) && AllData(es) == z[n..]
    ensures CallTo(Readline(z[..n], es), n, z, es)
  {
    var rest, d := z[..n], z[n..];
    var t := Strip(rest);
    assert z == rest + d;
    if EolIndex(t) < |t| {
      CallBuffered(rest, d, es);
    } else if t == PROMPT {
      CallPrompt(rest, d, es);
    } else {
      FillExact(t, |t|, es);
      CallEnd(rest, d);
      StripStrip(rest, d);
      FillCall(Fill(t, |t|, es), n, z, es);
    }
  }

  /** The buffered text holds a whole line. */
  lemma {:induction false} CallBuffered(rest: string, d: string, es: seq<Event>)
    requires |rest| <= MAX_RESPONSE && Flowing(es) && AllData(es) == d && EolIndex(Strip(rest)) < |Strip(rest)|
    ensures (rest + d)[..|rest|] == rest && CallTo(Readline(rest, es), |rest|, rest + d, es)
  {
    LineBehind(rest, d);
    BufferedEnd(rest, d);
    BufferedLine(rest, es);
    assert (rest + d)[..|rest|] == rest && "" + d == d;
  }

  lemma {:induction false} BufferedLine(rest: string, es: seq<Event>)
    requires |rest| <= MAX_RESPONSE && EolIndex(Strip(rest)) < |Strip(rest)|
    ensures var t, k := Strip(rest), EolIndex(Strip(rest));
            Readline(rest, es) == (Line(t[..k], t[k + 1..], es), Log("", ""))
  {
    PromptPlain();
  }

  lemma {:induction false} BufferedEnd(rest: string, d: string)
    requires EolIndex(Strip(rest)) < |Strip(rest)|
    ensures Offset(|rest|, Gap(rest + d)) + Width(rest + d) == EolIndex(Strip(rest))
  {
    StripConcat(rest, d);
    EolConcat(Strip(rest), d);
  }

  /** The first line is complete in front of d. */
  lemma {:induction false} LineBehind(a: string, d: string)
    requires EolIndex(Strip(a)) < |Strip(a)|
    ensures HasLine(a + d) && After(a + d) == Strip(a)[EolIndex(Strip(a)) + 1..] + d
  {
    StripConcat(a, d);
    EolConcat(Strip(a), d);
    assert (Strip(a) + d)[EolIndex(Strip(a)) + 1..] == Strip(a)[EolIndex(Strip(a)) + 1..] + d;
  }

  /** The buffered text is the prompt. */
  lemma {:induction false} CallPrompt(rest: string, d: string, es: seq<Event>)
    requires |rest| <= MAX_RESPONSE && Flowing(es) && AllData(es) == d && Strip(rest) == PROMPT
    ensures (rest + d)[..|rest|] == rest && CallTo(Readline(rest, es), |rest|, rest + d, es)
  {
    assert (rest + d)[..|rest|] == rest;
    assert "" + d == d && rest + "" == rest;
  }

  lemma {:induction false} CallEnd(rest: string, d: string)
    requires EolIndex(Strip(rest)) == |Strip(rest)|
    ensures EndIndex(Strip(rest), |Strip(rest)|, d) == Offset(|rest|, Gap(rest + d)) + Width(rest + d)
  {
    if Strip(rest) == "" {
      GapGoesOn(rest, d);
    } else {
      LineGoesOn(rest, d);
    }
  }

  /** Only line ends in front of d. */
  lemma {:induction false} GapGoesOn(a: string, d: string)
    requires Strip(a) == ""
    ensures Gap(a + d) == |a| + Gap(d) && Width(a + d) == Width(d)
  {
    StripConcat(a, d);
  }

  /** A line without its line end in front of d. */
  lemma {:induction false} LineGoesOn(a: string, d: string)
    requires Strip(a) != "" && EolIndex(Strip(a)) == |Strip(a)|
    ensures Gap(a + d) == Gap(a) && Width(a + d) == |Strip(a)| + EolIndex(d)
  {
    StripConcat(a, d);
    EolConcat(Strip(a), d);
  }

  lemma {:induction false} FillCall(r: (Outcome, Log), n: nat, z: string, es: seq<Event>)
    requires n <= |z| && AllData(es) == z[n..]
    requires FillsTo(r, Strip(z[..n]), |Strip(z[..n])|, es)
    requires EndIndex(Strip(z[..n]), |Strip(z[..n])|, AllData(es)) == Offset(n, Gap(z)) + Width(z)
    requires Strip(Strip(z[..n]) + z[n..]) == Strip(z)
    ensures CallTo(r, n, z, es)
  {
    StripStrip(z[..n], r.1.read);
    SameLine(Strip(z[..n]) + z[n..], z);
  }

  lemma SameLine(a: string, b: string)
    requires Strip(a) == Strip(b)
    ensures Width(a) == Width(b) && (HasLine(a) <==> HasLine(b)) && (HasLine(a) ==> After(a) == After(b))
  {
  }

  // ---------------------------------------------------------------- the condition is sufficient

  /** A text after which a new line starts. */
  predicate AtLineStart(u: string) {
    u == "" || IsEol(u[|u| - 1])
  }

  lemma {:induction false} RestBehind(u: string, y: string)
    requires AtLineStart(u)
    ensures Rest(u + y) == Rest(y)
    decreases |u|
  {
    if u == "" {
      assert u + y == y;
    } else {
      var k := EolIndex(u);
      EolFree(u);
      SplitAtEol(u[..k], u[k], u[k + 1..] + y);
      assert u[..k] + [u[k]] + (u[k + 1..] + y) == u + y;
      RestBehind(u[k + 1..], y);
    }
  }

  /** The stream up to and including its first line. */
  function Front(z: string): (u: string)
    requires HasLine(z)
    ensures AtLineStart(u) && |u| == Gap(z) + Width(z) + 1 && z == u + After(z)
  {
    var u := z[..Gap(z) + Width(z) + 1];
    StripIsTail(z);
    assert u[|u| - 1] == Strip(z)[Width(z)];
    u
  }

  lemma {:induction false} StripIsTail(z: string)
    ensures Strip(z) == z[Gap(z)..]
  {
    if z != "" && IsEol(z[0]) {
      StripIsTail(z[1..]);
      assert z[1..][Gap(z[1..])..] == z[Gap(z)..];
    }
  }

  /** What a call that returned a line has taken off the stream. */
  lemma {:induction false} TakenOff(n: nat, z: string, read: string, rest: string, data: string)
    requires n <= |z| && HasLine(z) && read + data == z[n..] && rest + data == After(z)
    ensures z[..n] + read == Front(z) + rest
    ensures rest == After(z)[..|rest|] && data == After(z)[|rest|..]
  {
    assert z == z[..n] + (read + data) == (z[..n] + read) + data;
    assert z == Front(z) + (rest + data) == (Front(z) + rest) + data;
    var k := |z| - |data|;
    assert z[..k] == z[..n] + read && z[..k] == Front(z) + rest;
  }

  lemma {:induction false} DrainFits(x: nat, n: nat, z: string, es: seq<Event>)
    requires Fits(x, z) && n <= x <= MAX_RESPONSE && n <= |z| && Flowing(es) && AllData(es) == z[n..]
    ensures var d := Drain(z[..n], es);
            && d.log.lost == "" && Reads(d.end, d.log.read, es)
            && (d.end.Prompt? ==> Rest(z[..n] + d.log.read) == PROMPT)
    decreases |z|
  {
    var (o, l) := Readline(z[..n], es);
    CallExact(n, z, es);
    OffsetBetween(x, n, Gap(z));
    match o
    case Line(_, rest, events) =>
      TakenOff(n, z, l.read, rest, AllData(events));
      DrainFits(Most(x, z), |rest|, After(z), events);
      var d := Drain(rest, events);
      Assoc(z[..n], l.read, d.log.read);
      Assoc(Front(z), rest, d.log.read);
      RestBehind(Front(z), rest + d.log.read);
      if d.end.Prompt? {
        Assoc(l.read, d.log.read, AllData(d.end.events));
      }
    case Prompt(_) => StrippedPrompt(z[..n] + l.read);
    case Null(_, _) =>
  }

  lemma {:induction false} StrippedPrompt(c: string)
    requires Strip(c) == PROMPT
    ensures Rest(c) == PROMPT
  {
    PromptPlain();
    StripAway(c, "");
    assert Strip(c) + "" == PROMPT && c + "" == c;
    NoEol(PROMPT);
  }

  // ---------------------------------------------------------------- the condition is necessary

  /** The text never leaves exactly the prompt unterminated. */
  ghost predicate NoPrompt(z: string) {
    forall n :: 0 <= n <= |z| ==> Rest(z[..n]) != PROMPT
  }

  lemma {:induction false} NoPromptAfter(z: string)
    requires NoPrompt(z) && HasLine(z)
    ensures NoPrompt(After(z))
  {
    var y := After(z);
    forall n | 0 <= n <= |y| ensures Rest(y[..n]) != PROMPT {
      RestBehind(Front(z), y[..n]);
      assert z[..|Front(z)| + n] == Front(z) + y[..n];
    }
  }

  /** One chunk that holds the line ends, the line and what is to be left behind it. */
  lemma {:induction false} FillChunk(used: nat, chunk: string, es: seq<Event>)
    requires used <= MAX_RESPONSE && HasLine(chunk)
    requires Offset(0, used + Gap(chunk)) + (|chunk| - Gap(chunk)) <= MAX_RESPONSE
    ensures var r := Fill("", used, [Data(chunk)] + es);
            r.0.Line? && r.0.rest == After(chunk) && r.0.events == es && r.1.lost == ""
    decreases |chunk|, used
  {
    if used == MAX_RESPONSE {
      FillChunk(0, chunk, es);
    } else if |chunk| <= MAX_RESPONSE - used {
      OneRead(used, chunk, es);
    } else {
      var k := MAX_RESPONSE - used;
      GapSplit(chunk, k);
      FillChunk(MAX_RESPONSE, chunk[k..], es);
      FirstRead(used, chunk, k, es);
    }
  }

  lemma {:induction false} OneRead(used: nat, chunk: string, es: seq<Event>)
    requires used < MAX_RESPONSE && used + |chunk| <= MAX_RESPONSE && HasLine(chunk)
    ensures var r := Fill("", used, [Data(chunk)] + es);
            r.0 == Line(Strip(chunk)[..Width(chunk)], After(chunk), es) && r.1.lost == ""
  {
    var all := [Data(chunk)] + es;
    assert all[1..] == es && "" + chunk == chunk;
    PromptPlain();
    assert Receive(used, all) == (chunk, es);
    assert FillRoom("", used, all) == AfterRead("", used, chunk, es);
    assert Find(Strip(chunk), es) == Some(Line(Strip(chunk)[..Width(chunk)], After(chunk), es));
  }

  /** A read of line ends that fills the buffer. */
  lemma {:induction false} FirstRead(used: nat, chunk: string, k: nat, es: seq<Event>)
    requires used < MAX_RESPONSE && k == MAX_RESPONSE - used < |chunk| && Strip(chunk[..k]) == ""
    ensures var r, r' := Fill("", used, [Data(chunk)] + es), Fill("", MAX_RESPONSE, [Data(chunk[k..])] + es);
            r.0 == r'.0 && r.1.lost == "" + r'.1.lost
  {
    var all, next := [Data(chunk)] + es, [Data(chunk[k..])] + es;
    assert all[1..] == es && "" + chunk[..k] == chunk[..k];
    assert Receive(used, all) == (chunk[..k], next);
    assert FillRoom("", used, all) == AfterRead("", used, chunk[..k], next);
    assert Find("", next).None?;
  }

  /** The first k line ends of a gap. */
  lemma {:induction false} GapSplit(chunk: string, k: nat)
    requires k <= Gap(chunk)
    ensures Strip(chunk[..k]) == "" && Strip(chunk[k..]) == Strip(chunk)
  {
    if k > 0 {
      GapSplit(chunk[1..], k - 1);
      assert chunk[..k][1..] == chunk[1..][..k - 1] && chunk[1..][k - 1..] == chunk[k..];
    }
  }

  /** The number of buffered characters for which the line starts at the least index. */
  function Closest(x: nat, gap: nat): (n: nat)
    ensures n <= x && n <= gap && Offset(n, gap) == Least(x, gap)
  {
    if x >= gap then gap else if gap % MAX_RESPONSE <= x then gap % MAX_RESPONSE else x
  }

  function Farthest(x: nat, gap: nat): (n: nat)
    ensures n <= x && Offset(n, gap) == Greatest(x, gap)
  {
    if gap >= MAX_RESPONSE && x > gap % MAX_RESPONSE then gap % MAX_RESPONSE + 1 else 0
  }

  /** The next call finds m characters behind the first line. */
  lemma {:induction false} LeaveBuffered(x: nat, z: string, m: nat, es: seq<Event>) returns (n: nat, all: seq<Event>)
    requires HasLine(z) && x <= MAX_RESPONSE && Least(x, Gap(z)) + Width(z) < MAX_RESPONSE && m <= Most(x, z)
    requires Flowing(es) && AllData(es) == After(z)[m..]
    ensures n <= x && n <= |z| && Flowing(all) && AllData(all) == z[n..]
    ensures var r := Readline(z[..n], all);
            r.0.Line? && r.0.rest == After(z)[..m] && r.0.events == es && r.1.lost == ""
  {
    n := Closest(x, Gap(z));
    all := [Data(Chunk(z, n, m))] + es;
    ChunkData(z, n, m, es);
    ChunkLeaves(z, n, m, es);
  }

  /** The stream from n up to m characters behind its first line. */
  function Chunk(z: string, n: nat, m: nat): (c: string)
    requires HasLine(z) && n <= Gap(z) && m <= |After(z)|
    ensures |c| == |z| - |After(z)| + m - n && c != ""
  {
    z[n..|z| - |After(z)| + m]
  }

  lemma {:induction false} ChunkData(z: string, n: nat, m: nat, es: seq<Event>)
    requires HasLine(z) && n <= Gap(z) && m <= |After(z)| && Flowing(es) && AllData(es) == After(z)[m..]
    ensures var all := [Data(Chunk(z, n, m))] + es; Flowing(all) && AllData(all) == z[n..]
  {
    var all := [Data(Chunk(z, n, m))] + es;
    assert all[1..] == es;
    AfterIsTail(z);
    TailOfTail(z, n, |z| - |After(z)|, m);
  }

  lemma {:induction false} ChunkLeaves(z: string, n: nat, m: nat, es: seq<Event>)
    requires HasLine(z) && n <= Gap(z) && m <= |After(z)|
    requires n <= MAX_RESPONSE && Offset(n, Gap(z)) + Width(z) + 1 + m <= MAX_RESPONSE
    ensures var r := Readline(z[..n], [Data(Chunk(z, n, m))] + es);
            r.0.Line? && r.0.rest == After(z)[..m] && r.0.events == es && r.1.lost == ""
  {
    var chunk := Chunk(z, n, m);
    ChunkParts(z, n, m, chunk);
    FillChunk(0, chunk, es);
    GapSplit(z, n);
    NothingBuffered(z[..n], [Data(chunk)] + es);
  }

  /** A call with nothing but line ends buffered. */
  lemma {:induction false} NothingBuffered(rest: string, es: seq<Event>)
    requires |rest| <= MAX_RESPONSE && Strip(rest) == ""
    ensures Readline(rest, es) == Fill("", 0, es)
  {
  }

  lemma TailOfTail(z: string, n: nat, e: nat, m: nat)
    requires n <= e && e + m <= |z|
    ensures z[n..] == z[n..e + m] + z[e..][m..]
  {
    assert z[e..][m..] == z[e + m..];
  }

  lemma {:induction false} AfterIsTail(z: string)
    requires HasLine(z)
    ensures After(z) == z[|z| - |After(z)|..]
  {
    StripIsTail(z);
  }

  /** Line ends, a line with its line end, and what follows. */
  lemma {:induction false} LineParts(z: string, g: string, w: string, y: string)
    requires z == g + (w + y) && Strip(g) == "" && 0 < EolIndex(w) == |w| - 1
    ensures HasLine(z) && Gap(z) == |g| && Width(z) == |w| - 1 && After(z) == y
  {
    StripConcat(g, w + y);
    EolConcat(w, y);
    assert Strip(w + y) == w + y;
    assert (w + y)[|w|..] == y;
  }

  /** The first line of a stream with its line end. */
  function FirstLineOf(z: string): (w: string)
    requires HasLine(z)
    ensures 0 < EolIndex(w) == |w| - 1 == Width(z) && Strip(z) == w + After(z)
  {
    var w := Strip(z)[..Width(z) + 1];
    assert Strip(z) == w + After(z);
    EolConcat(w, After(z));
    w
  }

  lemma {:induction false} ChunkParts(z: string, n: nat, m: nat, chunk: string)
    requires HasLine(z) && n <= Gap(z) && m <= |After(z)| && chunk == z[n..|z| - |After(z)| + m]
    ensures HasLine(chunk) && Gap(chunk) == Gap(z) - n && Width(chunk) == Width(z) && After(chunk) == After(z)[..m]
  {
    var g, w := z[n..Gap(z)], FirstLineOf(z);
    GapRest(z, n);
    StripIsTail(z);
    ChunkIs(z, Gap(z), w, After(z), n, m);
    LineParts(chunk, g, w, After(z)[..m]);
  }

  lemma {:induction false} GapRest(z: string, n: nat)
    requires n <= Gap(z)
    ensures Strip(z[n..Gap(z)]) == ""
  {
    GapSplit(z, Gap(z));
    GapSplit(z[..Gap(z)], n);
    assert z[..Gap(z)][n..] == z[n..Gap(z)];
  }

  lemma ChunkIs(z: string, gap: nat, w: string, y: string, n: nat, m: nat)
    requires n <= gap <= |z| && m <= |y| && z[gap..] == w + y
    ensures z[n..|z| - |y| + m] == z[n..gap] + (w + y[..m])
  {
    assert z == z[..gap] + (w + y);
  }

  lemma {:induction false} PromptNotMet(n: nat, z: string, read: string)
    requires n <= |z| && NoPrompt(z)
    ensures read <= z[n..] ==> Strip(z[..n] + read) != PROMPT
  {
    if read <= z[n..] {
      assert z[..n] + read == z[..n + |read|];
      if Strip(z[..n] + read) == PROMPT {
        StrippedPrompt(z[..n] + read);
      }
    }
  }

  lemma {:induction false} WholeLoses(n: nat, z: string) returns (es: seq<Event>)
    requires n <= |z| && n <= MAX_RESPONSE && NoPrompt(z)
    requires Offset(n, Gap(z)) + Width(z) >= MAX_RESPONSE
    ensures Flowing(es) && AllData(es) == z[n..] && Readline(z[..n], es).1.lost != ""
  {
    es := if z[n..] == "" then [] else [Data(z[n..])];
    assert AllData(es) == z[n..] + "" == z[n..];
    CallExact(n, z, es);
    PromptNotMet(n, z, Readline(z[..n], es).1.read);
  }

  /** A stream that does not pass the scan can be cut so that text is lost. */
  lemma {:induction false} CutThatLoses(x: nat, z: string) returns (n: nat, es: seq<Event>)
    requires !Fits(x, z) && x <= MAX_RESPONSE && x <= |z| && NoPrompt(z)
    ensures n <= x && Flowing(es) && AllData(es) == z[n..] && Drain(z[..n], es).log.lost != ""
    decreases |z|
  {
    if Greatest(x, Gap(z)) + Width(z) >= MAX_RESPONSE {
      n := Farthest(x, Gap(z));
      es := WholeLoses(n, z);
    } else {
      NoPromptAfter(z);
      var m, later := CutThatLoses(Most(x, z), After(z));
      OffsetBetween(x, 0, Gap(z));
      n, es := LeaveBuffered(x, z, m, later);
    }
  }

  // ---------------------------------------------------------------- the prompt

  /** The session loses text or meets the prompt. */
  ghost predicate Fails(d: Session) {
    d.log.lost != "" || d.end.Prompt?
  }

  /** A chunk that is the prompt behind line ends: it is met, unless the buffer fills up inside it. */
  lemma {:induction false} FillPrompt(used: nat, chunk: string, es: seq<Event>)
    requires used <= MAX_RESPONSE && Strip(chunk) == PROMPT
    ensures var r := Fill("", used, [Data(chunk)] + es);
            r.0.Prompt? || r.1.lost != ""
    decreases |chunk|, used
  {
    if used == MAX_RESPONSE {
      FillPrompt(0, chunk, es);
    } else if |chunk| <= MAX_RESPONSE - used {
      PromptRead(used, chunk, es);
    } else {
      var k := MAX_RESPONSE - used;
      if k <= Gap(chunk) {
        GapSplit(chunk, k);
        FillPrompt(MAX_RESPONSE, chunk[k..], es);
        FirstRead(used, chunk, k, es);
      } else {
        PromptCutShort(used, chunk, k, es);
      }
    }
  }

  lemma {:induction false} PromptRead(used: nat, chunk: string, es: seq<Event>)
    requires used < MAX_RESPONSE && used + |chunk| <= MAX_RESPONSE && Strip(chunk) == PROMPT
    ensures Fill("", used, [Data(chunk)] + es).0.Prompt?
  {
    var all := [Data(chunk)] + es;
    assert all[1..] == es && "" + chunk == chunk;
    assert Receive(used, all) == (chunk, es);
    assert FillRoom("", used, all) == AfterRead("", used, chunk, es);
  }

  /** The buffer is full behind the first character of the prompt, which is thrown away. */
  lemma {:induction false} PromptCutShort(used: nat, chunk: string, k: nat, es: seq<Event>)
    requires used < MAX_RESPONSE && k == MAX_RESPONSE - used < |chunk| && Gap(chunk) < k && Strip(chunk) == PROMPT
    ensures Fill("", used, [Data(chunk)] + es).1.lost != ""
  {
    var all, next := [Data(chunk)] + es, [Data(chunk[k..])] + es;
    assert all[1..] == es && "" + chunk[..k] == chunk[..k];
    var t := PROMPT[..1];
    StripIsTail(chunk);
    assert chunk[..k] == chunk[..Gap(chunk)] + t;
    GapSplit(chunk, Gap(chunk));
    StripConcat(chunk[..Gap(chunk)], t);
    assert EolIndex(t[1..]) == 0 && EolIndex(t) == 1 && Strip(t) == t;
    assert Receive(used, all) == (chunk[..k], next);
    assert FillRoom("", used, all) == AfterRead("", used, chunk[..k], next);
    assert Find(t, next).None?;
    assert Fill(t, MAX_RESPONSE, next).1.lost != "";
  }

  /** Text without a complete line that leaves the prompt. */
  lemma {:induction false} OnlyPrompt(c: string)
    requires Rest(c) == PROMPT && !HasLine(c)
    ensures Strip(c) == PROMPT
  {
    StripAway(c, "");
    assert Strip(c) + "" == Strip(c) && c + "" == c;
    NoEol(Strip(c));
  }

  /** The first line of a part of the stream is that of the stream. */
  lemma {:induction false} LineOfPrefix(z: string, n: nat)
    requires n <= |z| && HasLine(z[..n])
    ensures HasLine(z) && |Front(z)| <= n && z[..n] == Front(z) + After(z)[..n - |Front(z)|]
  {
    var c := z[..n];
    assert z == c + z[n..];
    StripConcat(c, z[n..]);
    EolConcat(Strip(c), z[n..]);
    assert Front(z) + After(z) == z;
  }

  /** A call that starts with an empty buffer on a line too long for it fails, however the stream is cut. */
  lemma {:induction false} TooLongFails(z: string) returns (es: seq<Event>)
    requires Offset(0, Gap(z)) + Width(z) >= MAX_RESPONSE
    ensures Flowing(es) && AllData(es) == z && Fails(Drain("", es))
  {
    es := if z == "" then [] else [Data(z)];
    assert z[..0] == "" && z[0..] == z && AllData(es) == z + "" == z;
    CallExact(0, z, es);
  }

  /** A stream that leaves exactly the prompt unterminated somewhere can be cut there. */
  lemma {:induction false} CutAtPrompt(z: string, n: nat) returns (es: seq<Event>)
    requires n <= |z| && Rest(z[..n]) == PROMPT
    ensures Flowing(es) && AllData(es) == z && Fails(Drain("", es))
    decreases |z|
  {
    if HasLine(z[..n]) {
      LineOfPrefix(z, n);
      if Offset(0, Gap(z)) + Width(z) >= MAX_RESPONSE {
        es := TooLongFails(z);
      } else {
        var m := n - |Front(z)|;
        RestBehind(Front(z), After(z)[..m]);
        var later := CutAtPrompt(After(z), m);
        es := LineFirst(z, later);
      }
    } else {
      OnlyPrompt(z[..n]);
      es := PromptFirst(z, n);
    }
  }

  lemma {:induction false} LineFirst(z: string, later: seq<Event>) returns (es: seq<Event>)
    requires HasLine(z) && Offset(0, Gap(z)) + Width(z) < MAX_RESPONSE
    requires Flowing(later) && AllData(later) == After(z) && Fails(Drain("", later))
    ensures Flowing(es) && AllData(es) == z && Fails(Drain("", es))
  {
    OffsetBetween(0, 0, Gap(z));
    assert After(z)[0..] == After(z) && After(z)[..0] == "";
    var n;
    n, es := LeaveBuffered(0, z, 0, later);
    assert z[..0] == "" && z[0..] == z;
  }

  lemma {:induction false} PromptFirst(z: string, n: nat) returns (es: seq<Event>)
    requires n <= |z| && Strip(z[..n]) == PROMPT
    ensures Flowing(es) && AllData(es) == z && Fails(Drain("", es))
  {
    var later := if z[n..] == "" then [] else [Data(z[n..])];
    es := [Data(z[..n])] + later;
    assert es[1..] == later && AllData(later) == z[n..] + "" == z[n..];
    assert z == z[..n] + z[n..];
    FillPrompt(0, z[..n], later);
    NothingBuffered("", es);
  }

  // ---------------------------------------------------------------- theorems

  /** Successive calls return exactly the non-empty lines of the data, in order, and keep its rest. */
  ghost predicate Framed(es: seq<Event>) {
    var d := Drain("", es);
    !d.end.Prompt? && d.lines == Lines(AllData(es)) && d.end.rest == Rest(AllData(es))
  }

  lemma {:induction false} ReadlineReads(rest: string, es: seq<Event>)
    requires |rest| <= MAX_RESPONSE && Flowing(es)
    ensures Reads(Readline(rest, es).0, Readline(rest, es).1.read, es)
  {
    var z := rest + AllData(es);
    assert z[..|rest|] == rest && z[|rest|..] == AllData(es);
    CallExact(|rest|, z, es);
  }

  lemma {:induction false} DrainReads(rest: string, es: seq<Event>)
    requires |rest| <= MAX_RESPONSE && Flowing(es)
    ensures Reads(Drain(rest, es).end, Drain(rest, es).log.read, es)
    decreases |rest| + Size(es)
  {
    ReadlineReads(rest, es);
    var (o, l) := Readline(rest, es);
    if o.Line? {
      DrainReads(o.rest, o.events);
      var d := Drain(o.rest, o.events);
      if d.end.Prompt? {
        Assoc(l.read, d.log.read, AllData(d.end.events));
      }
    }
  }

  /** Exact framing is loss-free framing. */
  lemma {:induction false} FramedIffLossless(es: seq<Event>)
    requires Flowing(es) && !Drain("", es).end.Prompt?
    ensures Framed(es) <==> Drain("", es).log.lost == ""
  {
    DrainReads("", es);
    FramingExact("", es);
    assert "" + AllData(es) == AllData(es);
  }

  /** The framing theorem.  For every stream: every way of cutting it into reads frames exactly if and only
      if it never leaves exactly the prompt unterminated and passes the scan. */
  lemma {:induction false} FramesIffFits(s: string)
    ensures (forall es :: Flowing(es) && AllData(es) == s ==> Framed(es)) <==> NoPrompt(s) && Fits(0, s)
  {
    if NoPrompt(s) && Fits(0, s) {
      forall es | Flowing(es) && AllData(es) == s ensures Framed(es) {
        FramesUnlessPrompt(es);
      }
    } else {
      var es := CutThatFails(s);
    }
  }

  lemma {:induction false} CutThatFails(s: string) returns (es: seq<Event>)
    requires !(NoPrompt(s) && Fits(0, s))
    ensures Flowing(es) && AllData(es) == s && !Framed(es)
  {
    if NoPrompt(s) {
      var n;
      n, es := CutThatLoses(0, s);
      assert s[..0] == "" && s[0..] == s;
    } else {
      var n :| 0 <= n <= |s| && Rest(s[..n]) == PROMPT;
      es := CutAtPrompt(s, n);
    }
    if !Drain("", es).end.Prompt? {
      FramedIffLossless(es);
    }
  }

  /** If no run of line ends fills the buffer: if and only if it never leaves exactly the prompt and every
      line together with the line ends in front of it is shorter than the buffer. */
  lemma {:induction false} FramesIffShort(s: string)
    requires ShortRuns(s)
    ensures (forall es :: Flowing(es) && AllData(es) == s ==> Framed(es)) <==> NoPrompt(s) && Short(s)
  {
    FramesIffFits(s);
    if Short(s) {
      ShortFits(0, s);
    }
    if Fits(0, s) {
      FitsShort(0, s);
    }
  }

  /** For every stream that passes the scan and every way of cutting it into reads: either a read leaves
      exactly the prompt unterminated, or framing is exact. */
  lemma {:induction false} FramesUnlessPrompt(es: seq<Event>)
    requires Flowing(es) && Fits(0, AllData(es))
    ensures var d := Drain("", es);
            if d.end.Prompt? then
              d.log.read + AllData(d.end.events) == AllData(es) && Rest(d.log.read) == PROMPT
            else
              Framed(es)
    ensures NoPrompt(AllData(es)) ==> Framed(es)
  {
    var s, d := AllData(es), Drain("", es);
    assert s[..0] == "" && s[0..] == s && "" + d.log.read == d.log.read;
    DrainFits(0, 0, s, es);
    if d.end.Prompt? {
      assert s[..|d.log.read|] == d.log.read;
    } else {
      FramedIffLossless(es);
    }
  }

  /** A line of 8192 characters is thrown away as a whole. */
  lemma {:induction false} LongLineLost(line: string)
    requires |line| == 8192 && EolIndex(line) == |line|
    ensures Drain("", [Data(line)]).end == Null("", []) && Drain("", [Data(line)]).log.lost == line
  {
    var es := [Data(line)];
    assert es[1..] == [] && "" + line == line && line + "" == line && "" + "" == "";
    StripPlain(line);
    assert Receive(0, es) == (line, []);
    assert FillRoom("", 0, es) == AfterRead("", 0, line, []);
    assert Find(line, []).None?;
    assert Fill(line, MAX_RESPONSE, []).0 == Null("", []) && Fill(line, MAX_RESPONSE, []).1.lost == line;
    assert Readline("", es).0 == Null("", []);
  }

  lemma {:induction false} RestFrom(s: string, c: char)
    requires c in Rest(s)
    ensures c in s
  {
    if s != "" {
      var ps := Pieces(s[1..]);
      if !IsEol(s[0]) && |ps| == 1 {
        if c != s[0] {
          assert c in Rest(s[1..]);
          RestFrom(s[1..], c);
        }
      } else {
        assert c in Rest(s[1..]);
        RestFrom(s[1..], c);
      }
    }
  }

  lemma {:induction false} NoPromptWithout(s: string)
    requires PROMPT[0] !in s
    ensures NoPrompt(s)
  {
    forall n | 0 <= n <= |s| ensures Rest(s[..n]) != PROMPT {
      if Rest(s[..n]) == PROMPT {
        assert PROMPT[0] in Rest(s[..n]);
        RestFrom(s[..n], PROMPT[0]);
      }
    }
  }

  lemma {:induction false} StrippedAway(run: string)
    requires Strip(run) == ""
    ensures forall i :: 0 <= i < |run| ==> IsEol(run[i])
  {
    if run != "" {
      StrippedAway(run[1..]);
      assert forall i :: 0 < i < |run| ==> run[i] == run[1..][i - 1];
    }
  }

  /** A run of 8192 line ends in front of a line of one character does no harm: every split frames. */
  lemma {:induction false} LongRunFrames(run: string, es: seq<Event>)
    requires |run| == 8192 && Strip(run) == ""
    requires Flowing(es) && AllData(es) == run + "a\n"
    ensures Framed(es) && !Short(run + "a\n")
  {
    LongRunFits(run);
    StrippedAway(run);
    NoPromptWithout(run + "a\n");
    FramesUnlessPrompt(es);
  }

  lemma {:induction false} LongRunFits(run: string)
    requires |run| == MAX_RESPONSE && Strip(run) == ""
    ensures Fits(0, run + "a\n") && !Short(run + "a\n")
  {
    StripConcat(run, "a\n");
    assert Strip("a\n") == "a\n";
    assert "a\n"[1..] == "\n" && EolIndex("\n") == 0 && EolIndex("a\n") == 1;
    var y := After(run + "a\n");
    assert y == "";
  }
}
