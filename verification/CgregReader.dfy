/** The +CGREG part of the registration state request, moving the tokenizer's cursor over the line. */
module CgregReader {
  import opened Common
  import opened AtTokenizer
  import opened Cgreg

  /** Whether response holds the entries of a reply. */
  ghost predicate Stored(outcome: Outcome, response: array<int>)
    reads response
    requires response.Length == 4
  {
    outcome.Decoded? ==>
      var r := outcome.reply;
      response[0] == r.stat && response[1] == r.lac && response[2] == r.cid && response[3] == r.act
  }

  /** What the tokenizer stores through its out-pointer. */
  method Store(response: array<int>, at: nat, stored: Option<int>)
    requires at < response.Length
    modifies response
    ensures response[at] == if stored.Some? then stored.value else old(response[at])
    ensures forall i :: 0 <= i < response.Length && i != at ==> response[i] == old(response[i])
  {
    if stored.Some? {
      response[at] := stored.value;
    }
  }

  /** The parameters <lac>, <cid> and, in the longer forms, <AcT>. */
  method ReadArea(line: Cursor, response: array<int>, withAct: bool) returns (outcome: Outcome)
    requires line.Valid() && response.Length == 4 && response[3] == 0
    modifies line`cur, line.line, response
    ensures line.Valid()
    ensures outcome == Area(old(response[0]), old(line.Rest()), withAct) && Stored(outcome, response)
  {
    var lac, lacStored := line.NextHexInt();
    Store(response, 1, lacStored);
    if lac.None? {
      return Failed;
    }
    var cid, cidStored := line.NextHexInt();
    Store(response, 2, cidStored);
    if cid.None? {
      return Failed;
    }
    if !withAct {
      return Decoded(Reply(response[0], response[1], response[2], response[3], 3));
    }
    var act, actStored := line.NextInt();
    Store(response, 3, actStored);
    if act.None? {
      return Failed;
    }
    return Decoded(Reply(response[0], response[1], response[2], response[3], 4));
  }

  method ReadStatThenArea(line: Cursor, response: array<int>, withAct: bool) returns (outcome: Outcome)
    requires line.Valid() && response.Length == 4 && response[3] == 0
    modifies line`cur, line.line, response
    ensures line.Valid()
    ensures outcome == StatThenArea(old(line.Rest()), withAct) && Stored(outcome, response)
  {
    var stat, statStored := line.NextInt();
    Store(response, 0, statStored);
    if stat.None? {
      return Failed;
    }
    outcome := ReadArea(line, response, withAct);
  }

  /** The forms with three commas, behind their first number. */
  method ReadThreeCommas(line: Cursor, response: array<int>, tmp: int) returns (outcome: Outcome)
    requires line.Valid() && response.Length == 4 && response[3] == 0
    modifies line`cur, line.line, response
    ensures line.Valid() && Stored(outcome, response)
    ensures outcome == if old(line.Rest()).None? then NullCursor else AtSecond(tmp, old(line.Rest()).value)
  {
    if line.cur.None? {
      return NullCursor;
    }
    ghost var rest := line.Rest().value;
    assert line.cur.value < line.end ==> rest[0] == line.line[line.cur.value];
    if line.line[line.cur.value] == '"' {
      response[0] := tmp;
      outcome := ReadArea(line, response, true);
    } else {
      outcome := ReadStatThenArea(line, response, false);
    }
  }

  /** The whole line. */
  method ReadRegistration(line: Cursor, response: array<int>) returns (outcome: Outcome)
    requires line.Valid() && line.cur.Some? && response.Length == 4
    modifies line`cur, line.line, response
    ensures line.Valid() && Stored(outcome, response)
    ensures outcome == Decode(old(line.Rest()).value)
  {
    response[0], response[1], response[2], response[3] := 0, -1, -1, 0;
    var ok := line.Start();
    if !ok {
      return Failed;
    }
    var commas := line.CharCounter(',');
    if commas.value > 4 {
      return Failed;
    }
    var first, firstStored := line.NextInt();
    if first.None? {
      return Failed;
    }
    match commas.value {
      case 0 =>
        response[0] := first.value;
        outcome := Decoded(Reply(response[0], response[1], response[2], response[3], 3));
      case 1 =>
        var stat, statStored := line.NextInt();
        Store(response, 0, statStored);
        if stat.None? {
          return Failed;
        }
        outcome := Decoded(Reply(response[0], response[1], response[2], response[3], 3));
      case 2 =>
        response[0] := first.value;
        outcome := ReadArea(line, response, false);
      case 3 =>
        outcome := ReadThreeCommas(line, response, first.value);
      case _ =>
        outcome := ReadStatThenArea(line, response, true);
    }
  }
}
