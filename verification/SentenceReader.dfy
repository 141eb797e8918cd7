/**
 * Reading one sentence per line from a body that arrives in chunks. `json` is what parsing a
 * line as JSON makes of it; the decoder's output is the chunks, then what it flushes at the end.
 */
module SentenceReaderSpec {
  import opened SpeechLimits
  import opened Lines

  /** JSON.parse: not JSON, a value without a string `text`, or that string. */
  datatype Parsed = Malformed | NoText | Text(value: string)

  datatype Failure = NotJson | InvalidSentence | TooMuchText

  datatype Status = Reading | Failed(failure: Failure)

  datatype Read = Read(yielded: seq<string>, status: Status)

  const MAX_LINE_CHARS := MAX_SENTENCE_CHARS * 6

  /** One line: blank, a sentence, or a failure that ends the reading. */
  function Accept(json: string -> Parsed, r: Read, line: string): Read {
    if r.status.Failed? || Trim(line) == "" then r
    else
      match json(line)
      case Malformed => r.(status := Failed(NotJson))
      case NoText => r.(status := Failed(InvalidSentence))
      case Text(value) =>
        var text := Trim(value);
        if text == "" || |text| > MAX_SENTENCE_CHARS then r.(status := Failed(InvalidSentence))
        else if Exceeds(r.yielded, text) then r.(status := Failed(TooMuchText))
        else r.(yielded := r.yielded + [text])
  }

  function AcceptAll(json: string -> Parsed, r: Read, lines: seq<string>): Read {
    if lines == [] then r
    else Accept(json, AcceptAll(json, r, lines[..|lines| - 1]), lines[|lines| - 1])
  }

  const Nothing := Read([], Reading)

  /** The reference: the lines of the whole text, one after the other. */
  function Whole(json: string -> Parsed, text: string): Read {
    AcceptAll(json, Nothing, All(text))
  }

  /** What has arrived up to a read: its complete lines, then the guard on the unfinished one. */
  function Arrive(json: string -> Parsed, r: Read, buffer: string): Read {
    var read := AcceptAll(json, r, Complete(buffer));
    if read.status.Reading? && |Rest(buffer)| > MAX_LINE_CHARS
    then read.(status := Failed(InvalidSentence))
    else read
  }

  /** The reading of `chunks`, with `buffer` left over from earlier ones. */
  function Stream(json: string -> Parsed, r: Read, buffer: string, chunks: seq<string>, flush: string): Read
    decreases |chunks|
  {
    var arrived := buffer + (if chunks == [] then flush else chunks[0]);
    var read := Arrive(json, r, arrived);
    if read.status.Failed? then read
    else if chunks == [] then Accept(json, read, Rest(arrived))
    else Stream(json, read, Rest(arrived), chunks[1..], flush)
  }

  predicate ShortLines(text: string) {
    forall i :: 0 <= i < |All(text)| ==> |All(text)[i]| <= MAX_LINE_CHARS
  }

  /** `at` is a line too long to wait for, and every line before it was accepted. */
  predicate StopsAtLongLine(json: string -> Parsed, text: string, at: nat) {
    && at < |All(text)| && |All(text)[at]| > MAX_LINE_CHARS
    && AcceptAll(json, Nothing, All(text)[..at]).status.Reading?
  }

  /** A line that is JSON but not a sentence, or one that is too long. */
  predicate Refuses(json: string -> Parsed, line: string) {
    match json(line)
    case Malformed => false
    case NoText => true
    case Text(value) => Trim(value) == "" || |Trim(value)| > MAX_SENTENCE_CHARS
  }

  /** The first line that is not blank is there, and is refused. */
  predicate RefusedFrom(json: string -> Parsed, lines: seq<string>) {
    lines != [] && (if Trim(lines[0]) == "" then RefusedFrom(json, lines[1..]) else Refuses(json, lines[0]))
  }

  function LinesFrom(text: string, at: nat): seq<string> {
    if at <= |All(text)| then All(text)[at..] else []
  }

  /** Reading stopped at line `at`: what was yielded before it, and a refusal. */
  function StoppedAt(json: string -> Parsed, text: string, at: nat): Read
    requires at < |All(text)|
  {
    Read(AcceptAll(json, Nothing, All(text)[..at]).yielded, Failed(InvalidSentence))
  }
}

module SentenceReaderTheorems {
  import opened SpeechLimits
  import opened Lines
  import opened SentenceReaderSpec
  import opened Sequences

  lemma {:induction false} AcceptAllCut(json: string -> Parsed, r: Read, a: seq<string>, b: seq<string>)
    ensures AcceptAll(json, r, a + b) == AcceptAll(json, AcceptAll(json, r, a), b)
    decreases |b|
  {
    if b == [] {
      assert a + b == a;
    } else {
      assert (a + b)[..|a + b| - 1] == a + b[..|b| - 1];
      AcceptAllCut(json, r, a, b[..|b| - 1]);
    }
  }

  lemma {:induction false} FailedStays(json: string -> Parsed, r: Read, lines: seq<string>)
    requires r.status.Failed?
    ensures AcceptAll(json, r, lines) == r
  {
    if lines != [] {
      FailedStays(json, r, lines[..|lines| - 1]);
    }
  }

  /** A reading in progress has accepted exactly the complete lines of what arrived. */
  ghost predicate CaughtUp(json: string -> Parsed, seen: string, r: Read, buffer: string) {
    && r == AcceptAll(json, Nothing, Complete(seen)) && r.status.Reading?
    && buffer == Rest(seen)
  }

  lemma ArriveMore(json: string -> Parsed, seen: string, r: Read, buffer: string, more: string)
    requires CaughtUp(json, seen, r, buffer)
    ensures AcceptAll(json, r, Complete(buffer + more)) == AcceptAll(json, Nothing, Complete(seen + more))
    ensures Rest(buffer + more) == Rest(seen + more)
  {
    Cut(seen, more);
    AcceptAllCut(json, Nothing, Complete(seen), Complete(buffer + more));
  }

  lemma {:induction false} PrefixLines(seen: string, more: string)
    ensures Complete(seen) <= All(seen + more)
    ensures |Complete(seen)| < |All(seen + more)|
    ensures Rest(seen) <= All(seen + more)[|Complete(seen)|]
  {
    hide Complete, Rest;
    Cut(seen, more);
    RestIsOneLine(seen);
    GrowingLine(Rest(seen), more);
    assert All(seen + more) == Complete(seen) + All(Rest(seen) + more);
  }

  /** A failure among the lines that arrived is the whole text's failure. */
  lemma {:induction false} FailedEarly(json: string -> Parsed, seen: string, more: string)
    requires AcceptAll(json, Nothing, Complete(seen)).status.Failed?
    ensures Whole(json, seen + more) == AcceptAll(json, Nothing, Complete(seen))
  {
    hide Complete, Rest, AcceptAll;
    PrefixLines(seen, more);
    var lines, n := All(seen + more), |Complete(seen)|;
    assert lines == lines[..n] + lines[n..] && lines[..n] == Complete(seen);
    AcceptAllCut(json, Nothing, lines[..n], lines[n..]);
    FailedStays(json, AcceptAll(json, Nothing, lines[..n]), lines[n..]);
  }

  /** An unfinished line that is too long belongs to a line of the whole text that is too long. */
  lemma {:induction false} LongRest(json: string -> Parsed, seen: string, more: string)
    requires AcceptAll(json, Nothing, Complete(seen)).status.Reading? && |Rest(seen)| > MAX_LINE_CHARS
    ensures var at := |Complete(seen)|;
            && StopsAtLongLine(json, seen + more, at)
            && StoppedAt(json, seen + more, at).yielded == AcceptAll(json, Nothing, Complete(seen)).yielded
  {
    hide Complete, Rest, AcceptAll, All;
    PrefixLines(seen, more);
    assert All(seen + more)[..|Complete(seen)|] == Complete(seen);
  }

  /** The last line is accepted after the complete ones. */
  lemma LastLine(json: string -> Parsed, text: string)
    ensures Whole(json, text) == Accept(json, AcceptAll(json, Nothing, Complete(text)), Rest(text))
  {
    hide Complete, Rest, Accept;
    assert All(text)[..|All(text)| - 1] == Complete(text);
  }

  /** What any chunking gives, from any point on. */
  lemma {:induction false} StreamMeaning(
      json: string -> Parsed, seen: string, r: Read, buffer: string, chunks: seq<string>, flush: string)
    returns (at: nat)
    requires CaughtUp(json, seen, r, buffer)
    ensures var text := seen + Join(chunks) + flush;
            var result := Stream(json, r, buffer, chunks, flush);
            || result == Whole(json, text)
            || (StopsAtLongLine(json, text, at) && result == StoppedAt(json, text, at))
    decreases |chunks|
  {
    hide Complete, Rest, All, AcceptAll, Accept, Whole, StopsAtLongLine;
    at := 0;
    var text := seen + Join(chunks) + flush;
    var more := if chunks == [] then flush else chunks[0];
    var now := seen + more;
    var rest := if chunks == [] then "" else Join(chunks[1..]) + flush;
    if chunks != [] {
      JoinFront(chunks);
    }
    assert text == now + rest;
    ArriveMore(json, seen, r, buffer, more);
    var read := AcceptAll(json, r, Complete(buffer + more));
    if read.status.Failed? {
      FailedEarly(json, now, rest);
    } else if |Rest(buffer + more)| > MAX_LINE_CHARS {
      at := |Complete(now)|;
      LongRest(json, now, rest);
    } else if chunks == [] {
      assert text == now;
      LastLine(json, text);
    } else {
      at := StreamMeaning(json, now, read, Rest(buffer + more), chunks[1..], flush);
      assert now + Join(chunks[1..]) + flush == text;
    }
  }

  lemma {:induction false} FromTheStart(json: string -> Parsed, chunks: seq<string>, flush: string) returns (at: nat)
    ensures var text := Join(chunks) + flush;
            var result := Stream(json, Nothing, "", chunks, flush);
            || result == Whole(json, text)
            || (StopsAtLongLine(json, text, at) && result == StoppedAt(json, text, at))
  {
    at := StreamMeaning(json, "", Nothing, "", chunks, flush);
    assert "" + Join(chunks) + flush == Join(chunks) + flush;
  }

  // ---- What is spoken, line by line ----

  /** Each line says one sentence: `said[i]` is what is left of its text without the space around it. */
  ghost predicate Says(json: string -> Parsed, lines: seq<string>, said: seq<string>) {
    && |said| == |lines|
    && forall i :: 0 <= i < |lines| ==>
         && Trim(lines[i]) != "" && json(lines[i]).Text?
         && said[i] == Trim(json(lines[i]).value) && 0 < |said[i]| <= 2000
  }

  /** Within 40 sentences and 8,000 characters, everything that is said is yielded as it was said. */
  lemma {:induction false} SentencesAreSpoken(json: string -> Parsed, lines: seq<string>, said: seq<string>)
    requires Says(json, lines, said) && |said| <= 40 && |Join(said)| <= 8000
    ensures AcceptAll(json, Nothing, lines) == Read(said, Reading)
  {
    hide Trim, Exceeds;
    if lines != [] {
      var front, n := lines[..|lines| - 1], |lines| - 1;
      assert said == said[..n] + [said[n]];
      JoinMore(said[..n], said[n]);
      SentencesAreSpoken(json, front, said[..n]);
      ExceedsExactly(said[..n], said[n]);
    }
  }

  /** A blank line changes nothing, wherever it is. */
  lemma BlankLinesAreSkipped(json: string -> Parsed, r: Read, a: seq<string>, blank: string, b: seq<string>)
    requires Trim(blank) == ""
    ensures AcceptAll(json, r, a + [blank] + b) == AcceptAll(json, r, a + b)
  {
    hide Trim;
    AcceptAllCut(json, r, a + [blank], b);
    AcceptAllCut(json, r, a, [blank]);
    AcceptAllCut(json, r, a, b);
    assert [blank][..0] == [];
  }

  /** The first line that is no sentence, or one too many, stops the reading, and says why. */
  lemma StopsAtTheFirstRefused(
      json: string -> Parsed, lines: seq<string>, said: seq<string>, line: string, more: seq<string>)
    requires Says(json, lines, said) && |said| <= 40 && |Join(said)| <= 8000
    requires Trim(line) != ""
    ensures var read := AcceptAll(json, Nothing, lines + [line] + more);
            match json(line)
            case Malformed => read == Read(said, Failed(NotJson))
            case NoText => read == Read(said, Failed(InvalidSentence))
            case Text(value) =>
              && (Trim(value) == "" || |Trim(value)| > 2000 ==> read == Read(said, Failed(InvalidSentence)))
              && (0 < |Trim(value)| <= 2000 && (|said| == 40 || |Join(said)| + |Trim(value)| > 8000) ==>
                    read == Read(said, Failed(TooMuchText)))
  {
    hide Trim, Exceeds, Join;
    AcceptAllCut(json, Nothing, lines + [line], more);
    AcceptAllCut(json, Nothing, lines, [line]);
    SentencesAreSpoken(json, lines, said);
    assert [line][..0] == [];
    if json(line).Text? {
      ExceedsExactly(said, Trim(json(line).value));
      JoinMore(said, Trim(json(line).value));
    }
    var stopped := Accept(json, Read(said, Reading), line);
    assert AcceptAll(json, Read(said, Reading), [line]) == stopped;
    if stopped.status.Failed? {
      FailedStays(json, stopped, more);
    }
  }

  /** With every line of at most 12,000 characters, how the body was cut does not matter. */
  lemma ChunkIndependence(json: string -> Parsed, chunks: seq<string>, flush: string)
    requires forall line :: line in All(Join(chunks) + flush) ==> |line| <= 12_000
    ensures Stream(json, Nothing, "", chunks, flush) == Whole(json, Join(chunks) + flush)
  {
    var at := FromTheStart(json, chunks, flush);
  }

  /** A chunk that ends where a long line ends stops the reading at that line. */
  lemma CutAtLongLine(json: string -> Parsed, text: string, at: nat) returns (chunks: seq<string>)
    requires StopsAtLongLine(json, text, at)
    ensures Join(chunks) == text
    ensures Stream(json, Nothing, "", chunks, "") == StoppedAt(json, text, at)
  {
    var before, after := LineEnd(text, at);
    chunks := [before, after];
    assert chunks[1..] == [after] && [after][1..] == [];
    JoinFront(chunks);
    JoinOne(after);
    assert "" + before == before;
  }

  ghost predicate EveryChunkingAgrees(json: string -> Parsed, text: string) {
    forall chunks: seq<string>, flush: string :: Join(chunks) + flush == text ==>
      Stream(json, Nothing, "", chunks, flush) == Whole(json, text)
  }

  lemma {:induction false} YieldsGrow(json: string -> Parsed, r: Read, lines: seq<string>)
    ensures r.yielded <= AcceptAll(json, r, lines).yielded
  {
    hide Trim, Exceeds;
    if lines != [] {
      YieldsGrow(json, r, lines[..|lines| - 1]);
    }
  }

  lemma AcceptFirst(json: string -> Parsed, r: Read, lines: seq<string>)
    requires lines != []
    ensures AcceptAll(json, r, lines) == AcceptAll(json, Accept(json, r, lines[0]), lines[1..])
  {
    hide Accept;
    AcceptAllCut(json, r, [lines[0]], lines[1..]);
    assert [lines[0]] + lines[1..] == lines;
    assert [lines[0]][..0] == [];
  }

  /** One line stops the reading as an invalid sentence exactly when it is refused. */
  lemma AcceptRefused(json: string -> Parsed, r: Read, line: string)
    requires r.status.Reading? && Trim(line) != ""
    ensures Accept(json, r, line) == Read(r.yielded, Failed(InvalidSentence)) <==> Refuses(json, line)
    ensures Accept(json, r, line).status.Reading? ==> |Accept(json, r, line).yielded| > |r.yielded|
  {
    hide Trim, Exceeds;
  }

  /** Lines stop the reading as an invalid sentence, with nothing yielded, exactly when their first is refused. */
  lemma {:induction false} StopsAtOnce(json: string -> Parsed, r: Read, lines: seq<string>)
    requires r.status.Reading?
    ensures AcceptAll(json, r, lines) == Read(r.yielded, Failed(InvalidSentence)) <==> RefusedFrom(json, lines)
  {
    hide Trim;
    if lines != [] {
      AcceptFirst(json, r, lines);
      if Trim(lines[0]) == "" {
        assert Accept(json, r, lines[0]) == r;
        StopsAtOnce(json, r, lines[1..]);
      } else {
        AcceptRefused(json, r, lines[0]);
        hide Accept, Refuses, AcceptAll;
        var next := Accept(json, r, lines[0]);
        if next.status.Failed? {
          FailedStays(json, next, lines[1..]);
        } else {
          YieldsGrow(json, next, lines[1..]);
        }
      }
    }
  }

  lemma StopsWithTheText(json: string -> Parsed, text: string, at: nat)
    requires StopsAtLongLine(json, text, at)
    ensures Whole(json, text) == StoppedAt(json, text, at) <==> RefusedFrom(json, LinesFrom(text, at))
  {
    hide AcceptAll, RefusedFrom, All;
    var lines := All(text);
    assert lines == lines[..at] + lines[at..];
    AcceptAllCut(json, Nothing, lines[..at], lines[at..]);
    StopsAtOnce(json, AcceptAll(json, Nothing, lines[..at]), lines[at..]);
  }

  /** At every over-long line that is reached, the first line from there that is not blank is refused. */
  ghost predicate RefusedAtLongLines(json: string -> Parsed, text: string) {
    forall at: nat :: StopsAtLongLine(json, text, at) ==> RefusedFrom(json, LinesFrom(text, at))
  }

  /**
   * Exactly when neither the cut of a body into chunks nor what the decoder holds back can be
   * observed: the over-long lines that are reached are refused for what they say.
   */
  lemma {:induction false} ChunkIndependenceExactly(json: string -> Parsed, text: string)
    ensures EveryChunkingAgrees(json, text) <==> RefusedAtLongLines(json, text)
  {
    hide Stream, Whole, StopsAtLongLine, StoppedAt, RefusedFrom, LinesFrom;
    if EveryChunkingAgrees(json, text) {
      forall at: nat | StopsAtLongLine(json, text, at)
        ensures RefusedFrom(json, LinesFrom(text, at))
      {
        var chunks := CutAtLongLine(json, text, at);
        assert Join(chunks) + "" == text;
        StopsWithTheText(json, text, at);
      }
    }
    if RefusedAtLongLines(json, text) {
      forall chunks: seq<string>, flush: string | Join(chunks) + flush == text
        ensures Stream(json, Nothing, "", chunks, flush) == Whole(json, text)
      {
        var at := FromTheStart(json, chunks, flush);
        if StopsAtLongLine(json, text, at) {
          StopsWithTheText(json, text, at);
        }
      }
    }
  }

  /**
   * An input for which the cut shows: a sentence on a line of more than 12,000 characters, such as
   * one padded with spaces. It is spoken when its newline comes with it, and refused when not.
   */
  lemma LongSentenceDependsOnItsCut(json: string -> Parsed, line: string, sentence: string)
    requires '\n' !in line && |line| > 12_000 && Trim(line) != ""
    requires json(line) == Text(sentence) && 0 < |Trim(sentence)| <= 2000
    ensures Stream(json, Nothing, "", [line + "\n"], "") == Read([Trim(sentence)], Reading)
    ensures Stream(json, Nothing, "", [line, "\n"], "") == Read([], Failed(InvalidSentence))
    ensures Join([line + "\n"]) == Join([line, "\n"])
  {
    SameText(line);
    SpokenWhole(json, line, sentence);
    RefusedUnfinished(json, line);
  }

  lemma SpokenWhole(json: string -> Parsed, line: string, sentence: string)
    requires '\n' !in line && Trim(line) != ""
    requires json(line) == Text(sentence) && 0 < |Trim(sentence)| <= MAX_SENTENCE_CHARS
    ensures Stream(json, Nothing, "", [line + "\n"], "") == Read([Trim(sentence)], Reading)
  {
    hide Trim, Join, Complete, Rest, AcceptAll;
    EndedLine(line);
    assert "" + (line + "\n") == line + "\n" && [line + "\n"][1..] == [];
    SpokenLine(json, line, sentence);
    NothingMore(json, Read([Trim(sentence)], Reading));
  }

  lemma RefusedUnfinished(json: string -> Parsed, line: string)
    requires '\n' !in line && |line| > MAX_LINE_CHARS
    ensures Stream(json, Nothing, "", [line, "\n"], "") == Read([], Failed(InvalidSentence))
  {
    hide Trim, Join, Complete, Rest, Accept;
    OneLine(line);
    assert "" + line == line;
  }

  lemma SameText(line: string)
    ensures Join([line + "\n"]) == Join([line, "\n"])
  {
    hide Join;
    JoinOne(line + "\n");
    JoinOne(line);
    JoinMore([line], "\n");
    assert [line] + ["\n"] == [line, "\n"];
  }

  /** Such inputs exist, so chunking can be observed. */
  lemma CutsCanBeObserved()
    ensures exists json, text :: !EveryChunkingAgrees(json, text)
  {
    var json: string -> Parsed := line => Text("hi");
    var line := seq(MAX_LINE_CHARS + 1, i => 'a');
    assert Trim(line) == line && Trim("hi") == "hi";
    LongSentenceDependsOnItsCut(json, line, "hi");
    hide Stream, Trim, Join;
    CutsDiffer(json, [line + "\n"], [line, "\n"]);
  }

  lemma CutsDiffer(json: string -> Parsed, one: seq<string>, other: seq<string>)
    requires Join(one) == Join(other)
    requires Stream(json, Nothing, "", one, "") != Stream(json, Nothing, "", other, "")
    ensures !EveryChunkingAgrees(json, Join(one))
  {
    hide Stream, Whole;
    assert Join(one) + "" == Join(one) && Join(other) + "" == Join(one);
  }

  lemma SpokenLine(json: string -> Parsed, line: string, sentence: string)
    requires Trim(line) != "" && json(line) == Text(sentence) && 0 < |Trim(sentence)| <= MAX_SENTENCE_CHARS
    ensures AcceptAll(json, Nothing, [line]) == Read([Trim(sentence)], Reading)
    ensures AcceptAll(json, Nothing, []) == Nothing
  {
    hide Trim;
    assert [line][..0] == [] && [line][0] == line;
    assert [] + [Trim(sentence)] == [Trim(sentence)];
  }

  lemma NothingMore(json: string -> Parsed, r: Read)
    requires r.status.Reading?
    ensures Stream(json, r, "", [], "") == r
  {
    assert "" + "" == "" && Trim("") == "";
  }

  ghost predicate Speakable(yielded: seq<string>) {
    && WithinLimits(yielded)
    && forall i :: 0 <= i < |yielded| ==> 0 < |yielded[i]| <= MAX_SENTENCE_CHARS
  }

  lemma AcceptSpeakable(json: string -> Parsed, r: Read, line: string)
    requires Speakable(r.yielded)
    ensures Speakable(Accept(json, r, line).yielded)
  {
    hide Trim, TotalChars;
    var after := Accept(json, r, line);
    if after.yielded != r.yielded {
      var text := Trim(json(line).value);
      assert after.yielded == r.yielded + [text];
      AppendChars(r.yielded, text);
    }
  }

  lemma {:induction false} AcceptAllSpeakable(json: string -> Parsed, r: Read, lines: seq<string>)
    requires Speakable(r.yielded)
    ensures Speakable(AcceptAll(json, r, lines).yielded)
  {
    hide Accept, Speakable;
    if lines != [] {
      AcceptAllSpeakable(json, r, lines[..|lines| - 1]);
      AcceptSpeakable(json, AcceptAll(json, r, lines[..|lines| - 1]), lines[|lines| - 1]);
    }
  }

  /** Whatever the chunking, every sentence is non-empty and the reply's limits hold. */
  lemma {:induction false} StreamSpeakable(
      json: string -> Parsed, r: Read, buffer: string, chunks: seq<string>, flush: string)
    requires Speakable(r.yielded)
    ensures Speakable(Stream(json, r, buffer, chunks, flush).yielded)
    decreases |chunks|
  {
    hide Complete, Rest, AcceptAll, Accept, Speakable;
    var arrived := buffer + (if chunks == [] then flush else chunks[0]);
    AcceptAllSpeakable(json, r, Complete(arrived));
    var read := Arrive(json, r, arrived);
    if read.status.Reading? {
      if chunks == [] {
        AcceptSpeakable(json, read, Rest(arrived));
      } else {
        StreamSpeakable(json, read, Rest(arrived), chunks[1..], flush);
      }
    }
  }
}

module SentenceReader {
  import opened SpeechLimits
  import opened Lines
  import opened SentenceReaderSpec
  import opened SentenceReaderTheorems
  import opened Sequences

  /** Parses one line and accounts for its sentence; `text` is null for a blank line. */
  method ParseLine(json: string -> Parsed, line: string, count: nat, chars: nat, ghost r: Read)
    returns (text: seq<string>, status: Status, newCount: nat, newChars: nat)
    requires r.status.Reading? && count == |r.yielded| && chars == TotalChars(r.yielded)
    ensures Accept(json, r, line) == Read(r.yielded + text, status)
    ensures status.Reading? ==> newCount == |r.yielded + text| && newChars == TotalChars(r.yielded + text)
    ensures |text| <= 1
  {
    text, status, newCount, newChars := [], Reading, count, chars;
    assert r.yielded + [] == r.yielded;
    if Trim(line) == "" {
      return;
    }
    var value := json(line);
    if value.Malformed? {
      status := Failed(NotJson);
      return;
    }
    var trimmed := if value.Text? then Trim(value.value) else "";
    if trimmed == "" || |trimmed| > MAX_SENTENCE_CHARS {
      status := Failed(InvalidSentence);
      return;
    }
    newCount := count + 1;
    newChars := chars + |trimmed|;
    AppendChars(r.yielded, trimmed);
    if newCount > MAX_SENTENCES || newChars > MAX_TOTAL_CHARS {
      status := Failed(TooMuchText);
      return;
    }
    text := [trimmed];
  }

  lemma WhatReadingGives(json: string -> Parsed, body: seq<string>, flush: string)
    ensures var read := Stream(json, Nothing, "", body, flush);
            && Speakable(read.yielded)
            && (ShortLines(Join(body) + flush) ==> read == Whole(json, Join(body) + flush))
  {
    StreamSpeakable(json, Nothing, "", body, flush);
    if ShortLines(Join(body) + flush) {
      ChunkIndependence(json, body, flush);
    }
  }

  /** The lines of `body` as they arrive; `flush` is what the decoder holds back until the end. */
  method ReadSentenceLines(json: string -> Parsed, body: seq<string>, flush: string)
    returns (yielded: seq<string>, status: Status)
    ensures Read(yielded, status) == Stream(json, Nothing, "", body, flush)
    ensures Speakable(yielded)
    ensures ShortLines(Join(body) + flush) ==> Read(yielded, status) == Whole(json, Join(body) + flush)
  {
    hide Join, Speakable, ShortLines, Stream, Accept, AcceptAll, Complete, Rest, TotalChars;
    WhatReadingGives(json, body, flush);
    yielded, status := [], Reading;
    NothingYielded();
    var buffer, count, chars := "", 0, 0;
    var i := 0;
    while true
      invariant 0 <= i <= |body| && status.Reading?
      invariant count == |yielded| && chars == TotalChars(yielded)
      invariant Stream(json, Read(yielded, status), buffer, body[i..], flush)
             == Stream(json, Nothing, "", body, flush)
      decreases |body| - i
    {
      var done := i == |body|;
      StreamNext(json, Read(yielded, status), buffer, body[i..], flush);
      buffer := buffer + (if done then flush else body[i]);
      yielded, status, buffer, count, chars := ReadLines(json, buffer, count, chars, yielded);
      if status.Failed? {
        return;
      }
      if |buffer| > MAX_LINE_CHARS {
        status := Failed(InvalidSentence);
        return;
      }
      if done {
        var text;
        text, status, count, chars := ParseLine(json, buffer, count, chars, Read(yielded, status));
        yielded := yielded + text;
        return;
      }
      assert body[i..][1..] == body[i + 1..];
      i := i + 1;
    }
  }

  /** The complete lines of what has arrived, one by one; what is left of it is the unfinished line. */
  method ReadLines(json: string -> Parsed, arrived: string, count: nat, chars: nat, before: seq<string>)
    returns (yielded: seq<string>, status: Status, buffer: string, newCount: nat, newChars: nat)
    requires count == |before| && chars == TotalChars(before)
    ensures AcceptAll(json, Read(before, Reading), Complete(arrived)) == Read(yielded, status)
    ensures status.Reading? ==>
              buffer == Rest(arrived) && newCount == |yielded| && newChars == TotalChars(yielded)
  {
    hide Accept, AcceptAll, Complete, Rest, TotalChars;
    yielded, status, buffer, newCount, newChars := before, Reading, arrived, count, chars;
    var newline := IndexOfNewline(buffer);
    while newline >= 0
      invariant status.Reading? && newline == IndexOfNewline(buffer)
      invariant newCount == |yielded| && newChars == TotalChars(yielded)
      invariant AcceptAll(json, Read(yielded, status), Complete(buffer))
             == AcceptAll(json, Read(before, Reading), Complete(arrived))
      invariant Rest(buffer) == Rest(arrived)
      decreases |buffer|
    {
      ghost var r := Read(yielded, status);
      FirstLine(buffer, newline);
      AcceptOne(json, r, buffer[..newline], Complete(buffer[newline + 1..]));
      var text;
      text, status, newCount, newChars := ParseLine(json, buffer[..newline], newCount, newChars, r);
      buffer := buffer[newline + 1..];
      yielded := yielded + text;
      if status.Failed? {
        FailedStays(json, Read(yielded, status), Complete(buffer));
        return;
      }
      newline := IndexOfNewline(buffer);
    }
    OneLine(buffer);
    NoLinesLeft(json, Read(yielded, status));
  }

  lemma NothingYielded()
    ensures TotalChars([]) == 0
  {
  }

  lemma NoLinesLeft(json: string -> Parsed, r: Read)
    ensures AcceptAll(json, r, []) == r
  {
  }

  lemma AcceptOne(json: string -> Parsed, r: Read, line: string, more: seq<string>)
    ensures AcceptAll(json, r, [line] + more) == AcceptAll(json, Accept(json, r, line), more)
  {
    AcceptFirst(json, r, [line] + more);
    assert ([line] + more)[1..] == more;
  }

  /** What one read of the body does to the reading. */
  lemma StreamNext(json: string -> Parsed, r: Read, buffer: string, chunks: seq<string>, flush: string)
    ensures var arrived := buffer + (if chunks == [] then flush else chunks[0]);
            var read := AcceptAll(json, r, Complete(arrived));
            Stream(json, r, buffer, chunks, flush) ==
              if read.status.Failed? then read
              else if |Rest(arrived)| > MAX_LINE_CHARS then read.(status := Failed(InvalidSentence))
              else if chunks == [] then Accept(json, read, Rest(arrived))
              else Stream(json, read, Rest(arrived), chunks[1..], flush)
  {
    hide AcceptAll, Accept, Complete, Rest;
  }
}
