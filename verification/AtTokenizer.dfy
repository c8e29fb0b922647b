/** The AT tokenizer on a NUL-terminated line, in place. */
module AtTokenizer {
  import opened Common
  import AtTok

  class Cursor {
    const line: array<char>
    /** Index of the next character; None is the NULL pointer. */
    var cur: Option<nat>
    /** Index of the NUL that ends the line. */
    ghost const end: nat

    ghost predicate Valid()
      reads this, line
    {
      && end < line.Length && line[end] == NUL
      && (cur.Some? ==> cur.value <= end && NUL !in line[cur.value..end])
    }

    /** The text the cursor points to. */
    ghost function Rest(): Option<string>
      requires Valid()
      reads this, line
    {
      if cur.Some? then Some(line[cur.value..end]) else None
    }

    /** Everything before this index is done with. */
    ghost function Bound(): nat
      reads this
    {
      if cur.Some? then cur.value else end + 1
    }

    /** There is the NUL-terminated string `text` at p. */
    ghost predicate Holds(p: nat, text: string)
      reads line
    {
      p + |text| < line.Length && line[p..p + |text|] == text && line[p + |text|] == NUL && NUL !in text
    }

    constructor (text: string)
      requires NUL !in text
      ensures Valid() && Rest() == Some(text) && fresh(line)
    {
      line := new char[|text| + 1](i => if 0 <= i < |text| then text[i] else NUL);
      cur, end := Some(0), |text|;
      new;
      assert line[0..|text|] == text;
    }

    /** Index of the first delimiter, or of the NUL. */
    method Scan(from: nat, delim: char) returns (k: nat)
      requires Valid() && cur.Some? && cur.value <= from <= end && delim != NUL
      ensures from <= k <= end && k - from == AtTok.IndexOf(line[from..end], delim)
      ensures line[k] == delim <==> k < end
    {
      k := from;
      while line[k] != NUL && line[k] != delim
        invariant from <= k <= end && forall i :: from <= i < k ==> line[i] != delim
        decreases end - k
      {
        assert line[k] in line[from..k + 1];
        k := k + 1;
      }
      assert k < end ==> line[k] == line[cur.value..end][k - cur.value];
      AtTok.IndexAt(line[from..end], delim, k - from);
    }

    /** at_tok_start. */
    method Start() returns (ok: bool)
      requires Valid()
      modifies `cur
      ensures Valid()
      ensures Rest() == if old(Rest()).None? then None else AtTok.Start(old(Rest()).value)
      ensures ok <==> Rest().Some?
    {
      if cur.None? {
        return false;
      }
      var k := Scan(cur.value, ':');
      ok := line[k] == ':';
      assert ok ==> line[cur.value..end][k - cur.value + 1..] == line[k + 1..end];
      cur := if ok then Some(k + 1) else None;
    }

    method SkipWhiteSpace()
      requires Valid()
      modifies `cur
      ensures Valid() && Bound() >= old(Bound())
      ensures Rest() == if old(Rest()).None? then None else Some(AtTok.SkipSpaces(old(Rest()).value))
    {
      if cur.None? {
        return;
      }
      ghost var text := Rest().value;
      var k := cur.value;
      while line[k] != NUL && AtTok.IsSpace(line[k])
        invariant cur.value <= k <= end && AtTok.SkipSpaces(line[k..end]) == AtTok.SkipSpaces(text)
        decreases end - k
      {
        assert line[k..end][1..] == line[k + 1..end];
        k := k + 1;
      }
      assert line[k..end] == line[cur.value..end][k - cur.value..];
      assert k < end ==> line[k] == line[cur.value..end][k - cur.value];
      cur := Some(k);
    }

    method SkipNextComma()
      requires Valid()
      modifies `cur
      ensures Valid() && Bound() >= old(Bound())
      ensures Rest() == if old(Rest()).None? then None else Some(AtTok.SkipComma(old(Rest()).value))
    {
      if cur.None? {
        return;
      }
      var k := Scan(cur.value, ',');
      assert line[k..end] == line[cur.value..end][k - cur.value..];
      if line[k] == ',' {
        assert line[k + 1..end] == line[cur.value..end][k + 1 - cur.value..];
        k := k + 1;
      }
      cur := Some(k);
    }

    /** strsep: ends the token with a NUL and returns where it starts. */
    method StrSep(delim: char) returns (tok: nat)
      requires Valid() && cur.Some? && delim != NUL
      modifies `cur, line
      ensures Valid() && tok == old(Bound()) <= Bound()
      ensures var (text, rest) := AtTok.StrSep(old(Rest()).value, delim);
              Holds(tok, text) && tok + |text| < Bound() && Rest() == rest
      ensures line[..tok] == old(line[..tok])
    {
      tok := cur.value;
      var k := Scan(tok, delim);
      ghost var text := line[tok..end];
      assert text[..k - tok] == line[tok..k];
      if line[k] == delim {
        assert text[k - tok + 1..] == line[k + 1..end];
        line[k] := NUL;
        cur := Some(k + 1);
      } else {
        cur := None;
      }
    }

    /** The token behind an opening quote. */
    method QuotedTok() returns (tok: nat)
      requires Valid() && cur.Some? && line[cur.value] == '"'
      modifies `cur, line
      ensures Valid() && old(Bound()) <= tok && line[..old(Bound())] == old(line[..Bound()])
      ensures var (text, rest) := AtTok.StrSep(old(Rest()).value[1..], '"');
              && Holds(tok, text) && tok + |text| < Bound() <= line.Length
              && Rest() == if rest.Some? then Some(AtTok.SkipComma(rest.value)) else None
    {
      ghost var before := line[..];
      ghost var bound := Bound();
      assert line[cur.value + 1..end] == line[cur.value..end][1..];
      cur := Some(cur.value + 1);
      tok := StrSep('"');
      assert line[..bound] == line[..tok][..bound] == before[..bound];
      SkipNextComma();
    }

    /** nextTok: where the token starts. */
    method NextTok() returns (tok: Option<nat>)
      requires Valid()
      modifies `cur, line
      ensures Valid() && old(Bound()) <= Bound() <= line.Length && line[..old(Bound())] == old(line[..Bound()])
      ensures old(Rest()).None? ==> tok.None? && Rest().None?
      ensures old(Rest()).Some? ==>
                var (text, rest) := AtTok.NextTok(old(Rest()).value);
                && tok.Some? && old(Bound()) <= tok.value && Holds(tok.value, text)
                && tok.value + |text| < Bound() && Rest() == rest
    {
      ghost var bound := Bound();
      SkipWhiteSpace();
      if cur.None? {
        return None;
      }
      ghost var before := line[..];
      ghost var text := Rest().value;
      ghost var start := Bound();
      assert cur.value < end ==> text[0] == line[cur.value];
      var p;
      if line[cur.value] == '"' {
        p := QuotedTok();
      } else {
        p := StrSep(',');
      }
      tok := Some(p);
      assert line[..bound] == line[..start][..bound] == before[..bound];
    }

    /** The string at p, as the library routines read it. */
    method CString(p: nat, ghost text: string) returns (s: string)
      requires Holds(p, text)
      ensures s == text
    {
      var k := p;
      while line[k] != NUL
        invariant p <= k <= p + |text|
        decreases p + |text| - k
      {
        k := k + 1;
      }
      s := line[p..k];
    }

    /** at_tok_nextint: the value, or None for the error return, and what is stored through the out-pointer: 0
        if the token has no digits, nothing if the cursor is NULL. */
    method NextInt() returns (v: Option<int>, stored: Option<int>)
      requires Valid()
      modifies `cur, line
      ensures Valid() && (v, Rest()) == AtTok.TakeInt(old(Rest()))
      ensures stored == if old(Rest()).None? then None else if v.None? then Some(0) else v
      ensures old(Bound()) <= Bound() <= line.Length && line[..old(Bound())] == old(line[..Bound()])
    {
      ghost var rest := Rest();
      var tok := NextTok();
      if tok.None? {
        return None, None;
      }
      var text := CString(tok.value, AtTok.NextTok(rest.value).0);
      v := AtTok.IntOf(text);
      stored := if v.None? then Some(0) else v;
    }

    /** at_tok_nexthexint likewise. */
    method NextHexInt() returns (v: Option<int>, stored: Option<int>)
      requires Valid()
      modifies `cur, line
      ensures Valid() && (v, Rest()) == AtTok.TakeHexInt(old(Rest()))
      ensures stored == if old(Rest()).None? then None else if v.None? then Some(0) else v
      ensures old(Bound()) <= Bound() <= line.Length && line[..old(Bound())] == old(line[..Bound()])
    {
      ghost var rest := Rest();
      var tok := NextTok();
      if tok.None? {
        return None, None;
      }
      var text := CString(tok.value, AtTok.NextTok(rest.value).0);
      v := AtTok.HexIntOf(text);
      stored := if v.None? then Some(0) else v;
    }

    /** at_tok_nextstr: where the string starts; None is the error return. */
    method NextStr() returns (tok: Option<nat>)
      requires Valid()
      modifies `cur, line
      ensures Valid() && old(Bound()) <= Bound() <= line.Length && line[..old(Bound())] == old(line[..Bound()])
      ensures tok.None? <==> old(Rest()).None?
      ensures tok.None? ==> Rest().None?
      ensures tok.Some? ==>
                var (text, rest) := AtTok.NextTok(old(Rest()).value);
                old(Bound()) <= tok.value && Holds(tok.value, text) && tok.value + |text| < Bound() && Rest() == rest
    {
      if cur.None? {
        return None;
      }
      tok := NextTok();
    }

    /** Strings handed out earlier stay as they were. */
    twostate lemma StringsStay(p: nat, text: string)
      requires old(Holds(p, text)) && p + |text| < old(Bound()) <= line.Length
      requires line[..old(Bound())] == old(line[..Bound()])
      ensures Holds(p, text)
    {
      assert line[p..p + |text|] == line[..old(Bound())][p..p + |text|] == old(line[..Bound()])[p..p + |text|];
      assert line[p + |text|] == line[..old(Bound())][p + |text|];
    }

    /** at_tok_hasmore. */
    method HasMore() returns (yes: bool)
      requires Valid()
      ensures yes <==> Rest().Some? && Rest().value != ""
    {
      yes := cur.Some? && line[cur.value] != NUL;
      assert cur.Some? && cur.value < end ==> line[cur.value] == line[cur.value..end][0];
    }

    /** at_tok_charcounter on the rest of the line. */
    method CharCounter(needle: char) returns (count: Option<nat>)
      requires Valid()
      ensures count == if Rest().None? then None else Some(AtTok.Count(Rest().value, needle))
    {
      if cur.None? {
        return None;
      }
      var k, n := cur.value, 0;
      while line[k] != NUL
        invariant cur.value <= k <= end
        invariant n + AtTok.Count(line[k..end], needle) == AtTok.Count(line[cur.value..end], needle)
        decreases end - k
      {
        assert line[k..end][1..] == line[k + 1..end];
        if line[k] == needle {
          n := n + 1;
        }
        k := k + 1;
      }
      count := Some(n);
    }
  }
}
