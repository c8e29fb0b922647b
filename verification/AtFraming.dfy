/**
 Line framing of the AT channel: what `readline` does with a stream of reads, against "split the
 stream at CR and LF and drop the empty pieces".
 */
module AtFraming {
  import opened Common

  /** Size of the input buffer without its closing NUL. */
  const MAX_RESPONSE: nat := 8192

  /** One wake-up of the reader: data to read, a kick through the wake-up pipe, or a failure (poll or
      read error, channel closed).  Empty data is the end of the input. */
  datatype Event = Data(s: string) | Wakeup | Failed

  predicate IsEol(c: char) {
    c == '\r' || c == '\n'
  }

  // ---------------------------------------------------------------- the reference

  /** All pieces of s between CR and LF characters, the unterminated last one included. */
  function Pieces(s: string): (ps: seq<string>)
    ensures ps != []
  {
    if s == "" then [""]
    else
      var ps := Pieces(s[1..]);
      if s[0] == '\r' || s[0] == '\n' then [""] + ps else [[s[0]] + ps[0]] + ps[1..]
  }

  function NonEmpty(ps: seq<string>): seq<string> {
    if ps == [] then [] else (if ps[0] == "" then [] else [ps[0]]) + NonEmpty(ps[1..])
  }

  /** The non-empty terminated lines of a stream. */
  function Lines(s: string): seq<string> {
    var ps := Pieces(s);
    NonEmpty(ps[..|ps| - 1])
  }

  /** The unterminated rest of a stream. */
  function Rest(s: string): string {
    var ps := Pieces(s);
    ps[|ps| - 1]
  }

  // ---------------------------------------------------------------- readline

  /** s without its leading CR and LF characters. */
  function Strip(s: string): (t: string)
    ensures t != "" ==> !IsEol(t[0])
    ensures |t| <= |s|
  {
    if s != "" && IsEol(s[0]) then Strip(s[1..]) else s
  }

  /** Index of the first CR or LF, or the length. */
  function EolIndex(s: string): (k: nat)
    ensures k <= |s|
    ensures k < |s| ==> IsEol(s[k])
    ensures forall i :: 0 <= i < k ==> !IsEol(s[i])
  {
    if s == "" || IsEol(s[0]) then 0 else 1 + EolIndex(s[1..])
  }

  /** How a call of readline ends: with a line, with the SMS prompt, or with NULL.  `rest` is what stays
      buffered, `events` what is still to come. */
  datatype Outcome =
    | Line(text: string, rest: string, events: seq<Event>)
    | Prompt(events: seq<Event>)
    | Null(rest: string, events: seq<Event>)

  /** The text one or more calls have read, and the text thrown away because the buffer was full. */
  datatype Log = Log(read: string, lost: string)

  function Join(a: Log, b: Log): Log {
    Log(a.read + b.read, a.lost + b.lost)
  }

  function Size(es: seq<Event>): nat {
    if es == [] then 0 else 1 + (if es[0].Data? then |es[0].s| else 0) + Size(es[1..])
  }

  /** Looks for a line, or the prompt, in the buffered text. */
  function Find(t: string, es: seq<Event>): Option<Outcome> {
    if t == PROMPT then Some(Prompt(es))
    else if EolIndex(t) < |t| then Some(Line(t[..EolIndex(t)], t[EolIndex(t) + 1..], es))
    else None
  }

  /** `total` bounds what an outcome leaves: less than there was after a line. */
  predicate Leaves(o: Outcome, total: nat) {
    match o
    case Line(_, rest, events) => |rest| <= MAX_RESPONSE && |rest| + Size(events) < total
    case Prompt(_) => true
    case Null(rest, _) => |rest| <= MAX_RESPONSE
  }

  /** The reading loop: t is buffered without a line end, `used` is the fill level of the buffer. */
  function Fill(t: string, used: nat, es: seq<Event>): (r: (Outcome, Log))
    requires |t| <= used <= MAX_RESPONSE
    ensures Leaves(r.0, |t| + Size(es))
    decreases Size(es), 1
  {
    if used == MAX_RESPONSE then
      var (o, l) := FillRoom("", 0, es);
      (o, Join(Log("", t), l))
    else
      FillRoom(t, used, es)
  }

  function FillRoom(t: string, used: nat, es: seq<Event>): (r: (Outcome, Log))
    requires |t| <= used < MAX_RESPONSE
    ensures Leaves(r.0, |t| + Size(es))
    decreases Size(es), 0
  {
    if es == [] then (Null(t, []), Log("", ""))
    else if es[0].Wakeup? then Fill(t, used, es[1..])
    else if es[0].Failed? || es[0].s == "" then (Null(t, es[1..]), Log("", ""))
    else
      var (s, later) := Receive(used, es);
      AfterRead(t, used, s, later)
  }

  /** s has been read behind t. */
  function AfterRead(t: string, used: nat, s: string, later: seq<Event>): (r: (Outcome, Log))
    requires |t| <= used && used + |s| <= MAX_RESPONSE && s != ""
    ensures Leaves(r.0, |t| + |s| + Size(later))
    decreases Size(later), 2
  {
    var t' := Strip(t + s);
    var found := Find(t', later);
    if found.Some? then (found.value, Log(s, ""))
    else
      var (o, l) := Fill(t', used + |s|, later);
      (o, Join(Log(s, ""), l))
  }

  /** What one read returns into a buffer filled to `used`. */
  function Receive(used: nat, es: seq<Event>): (r: (string, seq<Event>))
    requires used < MAX_RESPONSE && es != [] && es[0].Data? && es[0].s != ""
    ensures 0 < |r.0| <= MAX_RESPONSE - used
    ensures |r.0| + Size(r.1) <= Size(es) && Size(r.1) < Size(es)
  {
    var d := es[0].s;
    if |d| <= MAX_RESPONSE - used then (d, es[1..])
    else
      var k := MAX_RESPONSE - used;
      assert ([Data(d[k..])] + es[1..])[1..] == es[1..];
      (d[..k], [Data(d[k..])] + es[1..])
  }

  /** A call of readline with `rest` buffered. */
  function Readline(rest: string, es: seq<Event>): (r: (Outcome, Log))
    requires |rest| <= MAX_RESPONSE
    ensures Leaves(r.0, |rest| + Size(es))
  {
    var t := Strip(rest);
    var found := if rest == "" then None else Find(t, es);
    if found.Some? then (found.value, Log("", "")) else Fill(t, |t|, es)
  }

  /** Successive calls until one does not return a line: the lines, how the last call ended, and all
      that was read and lost. */
  datatype Session = Session(lines: seq<string>, end: Outcome, log: Log)

  function Drain(rest: string, es: seq<Event>): (r: Session)
    requires |rest| <= MAX_RESPONSE
    ensures !r.end.Line?
    decreases |rest| + Size(es)
  {
    var (o, l) := Readline(rest, es);
    if o.Line? then
      var later := Drain(o.rest, o.events);
      Session([o.text] + later.lines, later.end, Join(l, later.log))
    else
      Session([], o, l)
  }
}
