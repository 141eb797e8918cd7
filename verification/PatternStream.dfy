/**
 * Reading the events of a streamed pattern run: JSON lines, or server-sent `data:` lines, from
 * decoded text that arrives in chunks. `json` is what JSON.parse makes of a text, none when it throws.
 */
module PatternStreamSpec {
  import opened Lines
  import opened Wrappers

  type Json<!E> = string -> Option<E>

  const DATA := "data:"

  function Parsed<E>(json: Json<E>, text: string): seq<E> {
    if json(text).Some? then [json(text).value] else []
  }

  /** The events of a line tried as JSON only. */
  function JsonEvents<E>(json: Json<E>, line: string): seq<E> {
    if Trim(line) == "" then [] else Parsed(json, Trim(line))
  }

  /** The event of a `data:` line that is not JSON itself. */
  function DataEvents<E>(json: Json<E>, line: string): seq<E> {
    var trimmed := Trim(line);
    if DATA <= trimmed && json(trimmed).None? && Trim(trimmed[|DATA|..]) != ""
    then Parsed(json, Trim(trimmed[|DATA|..]))
    else []
  }

  function LineEvents<E>(json: Json<E>, line: string): seq<E> {
    JsonEvents(json, line) + DataEvents(json, line)
  }

  function EventsOfLines<E>(json: Json<E>, lines: seq<string>): seq<E> {
    if lines == [] then []
    else EventsOfLines(json, lines[..|lines| - 1]) + LineEvents(json, lines[|lines| - 1])
  }

  /** The reference: all newline-terminated lines, then the remainder tried as JSON only. */
  function Events<E>(json: Json<E>, text: string): seq<E> {
    EventsOfLines(json, Complete(text)) + JsonEvents(json, Rest(text))
  }

  lemma NoLines<E>(json: Json<E>)
    ensures EventsOfLines(json, []) == []
  {
  }

  lemma LastEvents<E>(json: Json<E>, lines: seq<string>, line: string)
    ensures EventsOfLines(json, lines + [line]) == EventsOfLines(json, lines) + LineEvents(json, line)
  {
    hide LineEvents;
    assert (lines + [line])[..|lines|] == lines;
  }

  lemma Regroup<T>(a: seq<T>, b: seq<T>, c: seq<T>)
    ensures (a + b) + c == a + (b + c)
  {
  }

  lemma {:induction false} EventsOfLinesCut<E>(json: Json<E>, a: seq<string>, b: seq<string>)
    ensures EventsOfLines(json, a + b) == EventsOfLines(json, a) + EventsOfLines(json, b)
    decreases |b|
  {
    hide EventsOfLines, LineEvents;
    if b == [] {
      NoLines(json);
      assert a + b == a;
    } else {
      var front, last := b[..|b| - 1], b[|b| - 1];
      EventsOfLinesCut(json, a, front);
      LastEvents(json, a + front, last);
      LastEvents(json, front, last);
      Regroup(a, front, [last]);
      assert front + [last] == b;
      Regroup(EventsOfLines(json, a), EventsOfLines(json, front), LineEvents(json, last));
    }
  }

  /**
   * The events of a text from its first line on: that of the line, its JSON or else the JSON after
   * `data:`, before those of the rest; a text without a newline is tried as JSON only.
   */
  lemma EventsExactly<E>(json: Json<E>, line: string, rest: string)
    requires '\n' !in line
    ensures Events(json, line) ==
              if Trim(line) != "" && json(Trim(line)).Some? then [json(Trim(line)).value] else []
    ensures var trimmed := Trim(line);
            Events(json, line + "\n" + rest) ==
              (if trimmed == "" then []
               else if json(trimmed).Some? then [json(trimmed).value]
               else if |trimmed| >= 5 && trimmed[..5] == "data:" && Trim(trimmed[5..]) != ""
                       && json(Trim(trimmed[5..])).Some? then [json(Trim(trimmed[5..])).value]
               else [])
              + Events(json, rest)
  {
    hide Events, Trim;
    FirstEvents(json, line, rest);
    LineExactly(json, line);
    RemainderExactly(json, line);
  }

  lemma FirstEvents<E>(json: Json<E>, line: string, rest: string)
    requires '\n' !in line
    ensures Events(json, line + "\n" + rest) == LineEvents(json, line) + Events(json, rest)
  {
    hide Complete, Rest, EventsOfLines, LineEvents, JsonEvents;
    var text := line + "\n" + rest;
    assert text[..|line|] == line && text[|line| + 1..] == rest;
    FirstLine(text, |line|);
    EventsOfLinesCut(json, [line], Complete(rest));
    OneLinesEvents(json, line);
    Regroup(LineEvents(json, line), EventsOfLines(json, Complete(rest)), JsonEvents(json, Rest(rest)));
  }

  lemma LineExactly<E>(json: Json<E>, line: string)
    ensures var trimmed := Trim(line);
            LineEvents(json, line) ==
              if trimmed == "" then []
              else if json(trimmed).Some? then [json(trimmed).value]
              else if |trimmed| >= 5 && trimmed[..5] == "data:" && Trim(trimmed[5..]) != ""
                      && json(Trim(trimmed[5..])).Some? then [json(Trim(trimmed[5..])).value]
              else []
  {
    hide Trim;
    var trimmed := Trim(line);
    assert DATA <= trimmed <==> |trimmed| >= 5 && trimmed[..5] == "data:";
  }

  lemma RemainderExactly<E>(json: Json<E>, line: string)
    requires '\n' !in line
    ensures Events(json, line) ==
              if Trim(line) != "" && json(Trim(line)).Some? then [json(Trim(line)).value] else []
  {
    hide Complete, Rest, Trim, EventsOfLines;
    OneLine(line);
    NoLines(json);
  }

  lemma OneLinesEvents<E>(json: Json<E>, line: string)
    ensures EventsOfLines(json, [line]) == LineEvents(json, line)
  {
    hide LineEvents;
    NoLines(json);
    LastEvents(json, [], line);
    assert [] + [line] == [line];
  }

  /**
   * Ending the text with a newline adds exactly one thing: the event of a remainder that is a
   * `data:` line. So such a line is lost when the stream stops short of its newline.
   */
  lemma {:induction false} FinalNewline<E>(json: Json<E>, text: string)
    ensures Events(json, text + "\n") == Events(json, text) + DataEvents(json, Rest(text))
  {
    assert (text + "\n")[..|text|] == text;
    assert Rest(text + "\n") == "" && Trim("") == "";
    var lines := Complete(text + "\n");
    assert lines == Complete(text) + [Rest(text)];
    assert lines[..|lines| - 1] == Complete(text);
  }
}

module PatternStream {
  import opened Lines
  import opened PatternStreamSpec
  import opened Sequences
  import opened Wrappers

  method AppendLines<E>(json: Json<E>, before: seq<E>, lines: seq<string>) returns (events: seq<E>)
    ensures events == before + EventsOfLines(json, lines)
  {
    hide EventsOfLines, Trim;
    NoLines(json);
    events := before;
    for k := 0 to |lines|
      invariant events == before + EventsOfLines(json, lines[..k])
    {
      LastEvents(json, lines[..k], lines[k]);
      assert lines[..k + 1] == lines[..k] + [lines[k]];
      ghost var was, more := events, LineEvents(json, lines[k]);
      var trimmed := Trim(lines[k]);
      if trimmed == "" {
        assert more == [] && events == was + more;
        continue;
      }
      var event := json(trimmed);
      if event.Some? {
        events := events + [event.value];
      } else if DATA <= trimmed {
        var data := Trim(trimmed[|DATA|..]);
        if data != "" {
          var dataEvent := json(data);
          if dataEvent.Some? {
            events := events + [dataEvent.value];
          }
        }
      }
      assert events == was + more;
    }
    assert lines[..|lines|] == lines;
  }

  /**
   * Reads the chunks as they arrive. The events depend on the concatenated text alone, whatever
   * the chunks it was cut into.
   */
  method ExecutePatternStream<E>(json: Json<E>, chunks: seq<string>) returns (events: seq<E>)
    ensures events == Events(json, Join(chunks))
  {
    events := [];
    var buffer := "";
    ghost var seen := "";
    for i := 0 to |chunks|
      invariant seen == Join(chunks[..i])
      invariant buffer == Rest(seen)
      invariant events == EventsOfLines(json, Complete(seen))
    {
      buffer := buffer + chunks[i];
      Cut(seen, chunks[i]);
      JoinMore(chunks[..i], chunks[i]);
      assert chunks[..i + 1] == chunks[..i] + [chunks[i]];
      EventsOfLinesCut(json, Complete(seen), Complete(buffer));
      var lines := Complete(buffer);
      buffer := Rest(buffer);
      events := AppendLines(json, events, lines);
      seen := seen + chunks[i];
    }
    assert chunks[..|chunks|] == chunks;
    if Trim(buffer) != "" {
      var event := json(Trim(buffer));
      if event.Some? {
        events := events + [event.value];
      }
    }
  }
}
