/** The buffered line reader of an AT channel, working in place on its input buffer. */
module AtReader {
  import opened Common
  import opened AtFraming

  predicate NulFree(s: string) {
    NUL !in s
  }

  predicate AllNulFree(es: seq<Event>) {
    forall i :: 0 <= i < |es| && es[i].Data? ==> NulFree(es[i].s)
  }

  lemma ReceiveNulFree(used: nat, es: seq<Event>)
    requires used < MAX_RESPONSE && es != [] && es[0].Data? && es[0].s != "" && AllNulFree(es)
    ensures NulFree(Receive(used, es).0) && AllNulFree(Receive(used, es).1)
  {
    assert NulFree(es[0].s);
    assert forall i :: 0 <= i < |es[1..]| ==> es[1..][i] == es[i + 1];
  }

  /** No line end before k, and one at k unless the text ends there. */
  lemma FirstEol(s: string, k: nat)
    requires k <= |s| && (k < |s| ==> IsEol(s[k])) && forall i :: 0 <= i < k ==> !IsEol(s[i])
    ensures EolIndex(s) == k
  {
  }

  class Reader {
    const buffer: array<char>
    /** Index of the next character to look at. */
    var cur: nat
    /** Index of the NUL that ends the buffered text. */
    ghost var end: nat

    /** There is a NUL at or behind the cursor, inside the buffer, and none between them. */
    ghost predicate Valid()
      reads this, buffer
    {
      && buffer.Length == MAX_RESPONSE + 1
      && cur <= end <= MAX_RESPONSE
      && buffer[end] == NUL
      && NulFree(buffer[cur..end])
    }

    /** The buffered text. */
    ghost function Text(): string
      requires Valid()
      reads this, buffer
    {
      buffer[cur..end]
    }

    constructor ()
      ensures Valid() && Text() == "" && fresh(buffer)
    {
      buffer := new char[MAX_RESPONSE + 1](_ => NUL);
      cur, end := 0, 0;
    }

    /** Moves the cursor over line ends. */
    method SkipEols()
      requires Valid()
      modifies `cur
      ensures Valid() && Text() == Strip(old(Text())) && cur >= old(cur)
    {
      ghost var text := Text();
      while buffer[cur] == '\r' || buffer[cur] == '\n'
        invariant Valid() && Strip(Text()) == Strip(text) && cur >= old(cur)
        decreases end - cur
      {
        assert buffer[cur..end][1..] == buffer[cur + 1..end];
        cur := cur + 1;
      }
    }

    /** Only the prompt is buffered. */
    method AtPrompt() returns (yes: bool)
      requires Valid()
      ensures yes <==> Text() == PROMPT
    {
      yes := buffer[cur] == '>' && buffer[cur + 1] == ' ' && buffer[cur + 2] == NUL;
      if yes {
        assert end == cur + 2;
      }
      if Text() == PROMPT {
        assert end == cur + 2;
        assert buffer[cur] == Text()[0] && buffer[cur + 1] == Text()[1];
      }
    }

    /** The end of the line at the cursor: two behind a lone prompt, else the first line end. */
    method FindNextEol() returns (eol: Option<nat>)
      requires Valid()
      ensures Text() == PROMPT ==> eol == Some(cur + 2)
      ensures Text() != PROMPT ==>
                eol == if EolIndex(Text()) < |Text()| then Some(cur + EolIndex(Text())) else None
    {
      ghost var text := Text();
      var prompt := AtPrompt();
      if prompt {
        return Some(cur + 2);
      }
      var at := cur;
      while buffer[at] != NUL && buffer[at] != '\r' && buffer[at] != '\n'
        invariant cur <= at <= end
        invariant forall i :: 0 <= i < at - cur ==> !IsEol(text[i])
        decreases end - at
      {
        at := at + 1;
      }
      FirstEol(text, at - cur);
      eol := if buffer[at] == NUL then None else Some(at);
    }

    /** Moves the buffered text to the start of the buffer; returns its length. */
    method MoveUp() returns (len: nat)
      requires Valid()
      modifies this, buffer
      ensures Valid() && cur == 0 && Text() == old(Text()) && len == end
    {
      ghost var text := Text();
      len := Length();
      forall i | 0 <= i <= len {
        buffer[i] := buffer[cur + i];
      }
      assert buffer[0..len] == text;
      end := len;
      cur := 0;
    }

    /** strlen of the buffered text. */
    method Length() returns (len: nat)
      requires Valid()
      ensures cur + len == end
    {
      len := 0;
      while buffer[cur + len] != NUL
        invariant cur + len <= end
        decreases end - len
      {
        len := len + 1;
      }
    }

    /** Stores what a read returned at the fill level. */
    method Store(at: nat, s: string)
      requires Valid() && at == end && at + |s| <= MAX_RESPONSE && NulFree(s)
      modifies `end, buffer
      ensures Valid() && end == at + |s| && Text() == old(Text()) + s
      ensures cur == old(cur)
    {
      ghost var text := Text();
      forall i | 0 <= i < |s| {
        buffer[at + i] := s[i];
      }
      buffer[at + |s|] := NUL;
      end := at + |s|;
      assert buffer[cur..at] == text && buffer[at..end] == s;
      assert buffer[cur..end] == buffer[cur..at] + buffer[at..end];
    }

    /** How the state after a call relates to an outcome.  After the prompt the cursor stands behind the
        terminating NUL. */
    ghost predicate Shows(o: Outcome, line: Option<string>, es: seq<Event>)
      reads this, buffer
    {
      match o
      case Line(text, rest, events) => Valid() && line == Some(text) && Text() == rest && es == events
      case Prompt(events) => line == Some(PROMPT) && es == events && cur == end + 1
      case Null(rest, events) => Valid() && line == None && Text() == rest && es == events
    }

    /** Ends the line at eol with a NUL, moves the cursor behind it and returns the line. */
    method Return(eol: nat, ghost events: seq<Event>) returns (line: string)
      requires Valid() && Find(Text(), events).Some?
      requires eol == if Text() == PROMPT then cur + 2 else cur + EolIndex(Text())
      modifies `cur, buffer
      ensures Shows(Find(old(Text()), events).value, Some(line), events)
    {
      ghost var text := Text();
      line := buffer[cur..eol];
      assert line == text[..eol - cur];
      buffer[eol] := NUL;
      cur := eol + 1;
      assert text == PROMPT ==> end == eol && line == text;
      assert text != PROMPT ==> buffer[cur..end] == text[eol + 1 - old(cur)..];
    }

    /** Reads a line; None is the NULL of the source. */
    method Readline(events: seq<Event>) returns (line: Option<string>, later: seq<Event>)
      requires Valid() && AllNulFree(events)
      modifies this, buffer
      ensures Shows(AtFraming.Readline(old(Text()), events).0, line, later)
    {
      var fill := 0;
      var eol := None;
      ghost var text := Text();
      later := events;
      if buffer[cur] == NUL {
        assert text == "";
        cur, end := 0, 0;
        buffer[cur] := NUL;
      } else {
        SkipEols();
        eol := FindNextEol();
        if eol.None? {
          fill := MoveUp();
        }
      }
      if eol.Some? {
        var l := Return(eol.value, events);
        line := Some(l);
      } else {
        line, later := ReadMore(fill, events);
      }
    }

    /** One read, and the look for a line end behind the leading ones. */
    method ReadOnce(pRead: nat, events: seq<Event>) returns (pRead': nat, eol: Option<nat>, later: seq<Event>)
      requires Valid() && AllNulFree(events) && pRead == end < MAX_RESPONSE
      requires events != [] && events[0].Data? && events[0].s != ""
      modifies this, buffer
      ensures Valid() && AllNulFree(later) && pRead' == end && Size(later) < Size(events)
      ensures eol.None? <==> Find(Text(), later).None?
      ensures Fill(old(Text()), old(end), events).0 ==
              if eol.None? then Fill(Text(), end, later).0 else Find(Text(), later).value
      ensures eol.Some? ==> eol.value == if Text() == PROMPT then cur + 2 else cur + EolIndex(Text())
    {
      ghost var t := Text();
      var (s, next) := Receive(pRead, events);
      assert Fill(t, pRead, events) == AfterRead(t, pRead, s, next);
      Store(pRead, s);
      later := next;
      ReceiveNulFree(pRead, events);
      SkipEols();
      eol := FindNextEol();
      pRead' := pRead + |s|;
    }

    /** The reading loop. */
    method ReadMore(fill: nat, events: seq<Event>) returns (line: Option<string>, later: seq<Event>)
      requires Valid() && AllNulFree(events) && fill == end
      requires Find(Text(), events).None?
      modifies this, buffer
      ensures Shows(Fill(old(Text()), old(end), events).0, line, later)
    {
      var pRead := fill;
      var eol: Option<nat> := None;
      later := events;
      ghost var target := Fill(Text(), end, events).0;
      while eol.None?
        invariant Valid() && AllNulFree(later) && pRead == end
        invariant eol.None? ==> target == Fill(Text(), end, later).0
        invariant eol.Some? ==> Find(Text(), later) == Some(target)
        invariant eol.Some? ==> eol.value == if Text() == PROMPT then cur + 2 else cur + EolIndex(Text())
        decreases Size(later), eol.None?
      {
        if MAX_RESPONSE - pRead == 0 {
          cur, end := 0, 0;
          buffer[cur] := NUL;
          pRead := 0;
          assert Text() == "";
        }
        if later == [] {
          return None, [];
        }
        if later[0].Wakeup? {
          later := later[1..];
          continue;
        }
        if later[0].Failed? || later[0].s == "" {
          return None, later[1..];
        }
        pRead, eol, later := ReadOnce(pRead, later);
      }
      var l := Return(eol.value, later);
      line := Some(l);
    }
  }
}
