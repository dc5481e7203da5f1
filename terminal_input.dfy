/**
 * The terminal window's line editor (the `term.onData` handler of
 * src/os/apps/terminal/entry.tsx): a local input buffer that Ctrl-C clears,
 * Enter ships to the worker and Backspace shortens.  Messages to the worker
 * and the text echoed to the terminal are recorded as logs.
 */
module TerminalInput {

  datatype IpcMsg = Interrupt | Exec(line: string)

  const CTRL_C: string := "\U{0003}"
  const ENTER: string := "\r"
  const BACKSPACE: string := "\U{007F}"

  /** Ordinary data: anything the handler does not treat as a control key. */
  predicate IsText(data: string) {
    data != CTRL_C && data != ENTER && data != BACKSPACE
  }

  /** One `onData` event: the new buffer and the messages sent to the worker. */
  function Step(input: string, data: string): (r: (string, seq<IpcMsg>))
    ensures data == CTRL_C ==> r == ("", [Interrupt])
    ensures data == ENTER ==> r == ("", [Exec(input)])
    ensures data == BACKSPACE ==> r.1 == [] && r.0 == (if input == "" then "" else input[..|input| - 1])
    ensures IsText(data) ==> r == (input + data, [])
  {
    if data == CTRL_C then ("", [Interrupt])
    else if data == ENTER then ("", [Exec(input)])
    else if data == BACKSPACE then (if |input| > 0 then input[..|input| - 1] else input, [])
    else (input + data, [])
  }

  /** A sequence of events from a given buffer. */
  function Replay(input: string, events: seq<string>): (string, seq<IpcMsg>)
    decreases |events|
  {
    if events == [] then (input, [])
    else
      var first := Step(input, events[0]);
      var rest := Replay(first.0, events[1..]);
      (rest.0, first.1 + rest.1)
  }

  function Concat(chunks: seq<string>): string
    decreases |chunks|
  {
    if chunks == [] then "" else chunks[0] + Concat(chunks[1..])
  }

  /** Typing ordinary chunks accumulates them in the buffer and sends nothing. */
  lemma {:induction false} TypingAccumulates(input: string, chunks: seq<string>)
    requires forall i :: 0 <= i < |chunks| ==> IsText(chunks[i])
    ensures Replay(input, chunks) == (input + Concat(chunks), [])
    decreases |chunks|
  {
    if chunks == [] {
      assert input + Concat(chunks) == input;
    } else {
      assert IsText(chunks[0]);
      assert Step(input, chunks[0]) == (input + chunks[0], []);
      TypingAccumulates(input + chunks[0], chunks[1..]);
      var rest := Replay(input + chunks[0], chunks[1..]);
      assert rest == (input + chunks[0] + Concat(chunks[1..]), []);
      assert Replay(input, chunks) == (rest.0, [] + rest.1);
      assert [] + rest.1 == [];
      assert input + chunks[0] + Concat(chunks[1..]) == input + Concat(chunks);
    }
  }

  /** Typing a line from an empty buffer and pressing Enter sends exactly that line, once, and empties the buffer. */
  lemma TypeThenEnter(chunks: seq<string>)
    requires forall i :: 0 <= i < |chunks| ==> IsText(chunks[i])
    ensures Replay("", chunks + [ENTER]) == ("", [Exec(Concat(chunks))])
  {
    var line := Concat(chunks);
    ReplayAppend("", chunks, [ENTER]);
    TypingAccumulates("", chunks);
    assert "" + line == line;
    assert Replay("", chunks) == (line, []);
    EnterSends(line);
    assert [] + [Exec(line)] == [Exec(line)];
  }

  lemma EnterSends(line: string)
    ensures Replay(line, [ENTER]) == ("", [Exec(line)])
  {
    assert [ENTER][1..] == [];
    assert Step(line, ENTER) == ("", [Exec(line)]);
    assert Replay("", []) == ("", []);
    assert [Exec(line)] + [] == [Exec(line)];
  }

  /** Replaying two event runs is replaying the first, then the second from where it left the buffer. */
  lemma {:induction false} ReplayAppend(input: string, a: seq<string>, b: seq<string>)
    ensures Replay(input, a + b) ==
      var ra := Replay(input, a);
      var rb := Replay(ra.0, b);
      (rb.0, ra.1 + rb.1)
    decreases |a|
  {
    if a == [] {
      assert a + b == b;
      assert [] + Replay(input, b).1 == Replay(input, b).1;
    } else {
      var first := Step(input, a[0]);
      assert (a + b)[0] == a[0];
      assert (a + b)[1..] == a[1..] + b;
      ReplayAppend(first.0, a[1..], b);
      var ra1 := Replay(first.0, a[1..]);
      var rb := Replay(ra1.0, b);
      assert Replay(input, a) == (ra1.0, first.1 + ra1.1);
      assert Replay(input, a + b) == (rb.0, first.1 + (ra1.1 + rb.1));
      assert first.1 + (ra1.1 + rb.1) == (first.1 + ra1.1) + rb.1;
    }
  }

  /** Backspace right after typing one character restores the buffer. */
  lemma BackspaceUndoesKey(input: string, c: char)
    requires IsText([c])
    ensures Replay(input, [[c], BACKSPACE]) == (input, [])
  {
    var typed := input + [c];
    assert typed[..|typed| - 1] == input;
    assert [[c], BACKSPACE][1..] == [BACKSPACE];
    assert [BACKSPACE][1..] == [];
    assert BACKSPACE != CTRL_C && BACKSPACE != ENTER by {
      assert BACKSPACE[0] == '\U{007F}';
    }
    assert Step(input, [c]) == (typed, []);
    assert Step(typed, BACKSPACE) == (input, []);
    var none: seq<IpcMsg> := [];
    assert none + none == none;
    assert Replay(typed, [BACKSPACE]) == (input, none);
    assert Replay(input, [[c], BACKSPACE]) == (input, none + none);
  }

  /** Ctrl-C always leaves an empty buffer and sends one interrupt after the earlier messages. */
  lemma InterruptAlwaysClears(input: string, events: seq<string>)
    ensures Replay(input, events + [CTRL_C]).0 == ""
    ensures Replay(input, events + [CTRL_C]).1 == Replay(input, events).1 + [Interrupt]
  {
    ReplayAppend(input, events, [CTRL_C]);
  }

  class LineEditor {
    var input: string
    var sent: seq<IpcMsg>
    var echoed: seq<string>

    constructor ()
      ensures input == "" && sent == [] && echoed == []
    {
      input := "";
      sent := [];
      echoed := [];
    }

    /** The `onData` handler. */
    method OnData(data: string)
      modifies this
      ensures (input, sent) == (Step(old(input), data).0, old(sent) + Step(old(input), data).1)
      ensures data == CTRL_C ==> echoed == old(echoed) + ["^C\r\n"]
      ensures data == ENTER ==> echoed == old(echoed) + ["\r\n"]
      ensures data == BACKSPACE ==> echoed == old(echoed) + (if old(input) == "" then [] else ["\U{0008} \U{0008}"])
      ensures IsText(data) ==> echoed == old(echoed) + [data]
    {
      if data == CTRL_C {
        echoed := echoed + ["^C\r\n"];
        input := "";
        sent := sent + [Interrupt];
        return;
      }
      if data == ENTER {
        var line := input;
        echoed := echoed + ["\r\n"];
        input := "";
        sent := sent + [Exec(line)];
        return;
      }
      if data == BACKSPACE {
        assert data != CTRL_C && data != ENTER by {
          assert data[0] == '\U{007F}';
        }
        assert sent + [] == sent;
        if |input| > 0 {
          input := input[..|input| - 1];
          echoed := echoed + ["\U{0008} \U{0008}"];
        }
        return;
      }
      assert sent + [] == sent;
      input := input + data;
      echoed := echoed + [data];
    }
  }
}
