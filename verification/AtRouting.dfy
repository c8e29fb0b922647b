/** How a line from the modem is routed, on values. */
module AtRouting {
  import opened Common

  datatype CommandType = NoResult | Numeric | SingleLine | MultiLine

  const FINAL_ERRORS: seq<string> := ["ERROR", "+CMS ERROR:", "+CME ERROR:", "NO CARRIER", "NO ANSWER", "NO DIALTONE"]
  const FINAL_SUCCESSES: seq<string> := ["OK", "CONNECT"]

  /** The line starts with one of the prefixes. */
  predicate StartsWithAny(line: string, prefixes: seq<string>) {
    exists i :: 0 <= i < |prefixes| && prefixes[i] <= line
  }

  predicate IsFinalSuccess(line: string) {
    StartsWithAny(line, FINAL_SUCCESSES)
  }

  predicate IsFinalError(line: string) {
    StartsWithAny(line, FINAL_ERRORS)
  }

  predicate IsFinal(line: string) {
    IsFinalSuccess(line) || IsFinalError(line)
  }

  predicate StartsWithDigit(line: string) {
    line != "" && '0' <= line[0] <= '9'
  }

  /** The answer collected so far.  `lines` are the intermediate lines as they stand in the list: each
      new one is put in front. */
  datatype Response = Response(success: bool, final: Option<string>, lines: seq<string>)

  const NEW_RESPONSE: Response := Response(false, None, [])

  /** A command on its way: its type, the prefix of its intermediate lines, the PDU still to be sent at
      the prompt, and its answer. */
  datatype Pending = Pending(ctype: CommandType, prefix: string, sms: Option<string>, response: Response)

  datatype Route = Unsolicited | Final | Intermediate | Prompt

  /** The line may become an intermediate line of a command of this type. */
  predicate Matches(ctype: CommandType, prefix: string, line: string) {
    match ctype
    case NoResult => false
    case Numeric => StartsWithDigit(line)
    case SingleLine => prefix <= line
    case MultiLine => prefix <= line
  }

  function RouteOf(p: Pending, line: string): Route {
    if IsFinal(line) then Final
    else if p.sms.Some? && line == PROMPT then Prompt
    else if Matches(p.ctype, p.prefix, line) && (p.ctype.MultiLine? || p.response.lines == []) then Intermediate
    else Unsolicited
  }

  /** The command after the line. */
  function Process(p: Pending, line: string): Pending {
    match RouteOf(p, line)
    case Final => p.(response := p.response.(success := IsFinalSuccess(line), final := Some(line)))
    case Prompt => p.(sms := None)
    case Intermediate => p.(response := p.response.(lines := [line] + p.response.lines))
    case Unsolicited => p
  }

  function Reversed<T>(s: seq<T>): (r: seq<T>)
    ensures |r| == |s|
  {
    if s == [] then [] else Reversed(s[1..]) + [s[0]]
  }

  /** What the caller gets: the lines in the order of arrival. */
  function Handed(r: Response): Response {
    r.(lines := Reversed(r.lines))
  }

  lemma {:induction false} ReversedConcat<T>(a: seq<T>, b: seq<T>)
    ensures Reversed(a + b) == Reversed(b) + Reversed(a)
  {
    if a == [] {
      assert a + b == b;
    } else {
      ReversedConcat(a[1..], b);
      assert (a + b)[1..] == a[1..] + b;
    }
  }
}
