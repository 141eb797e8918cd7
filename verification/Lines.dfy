/** Text cut at newlines, and JavaScript's idea of surrounding space. */
module Lines {
  import opened Sequences

  /** The lines a newline ends, in order. */
  function Complete(text: string): seq<string> {
    if text == "" then []
    else
      var front := text[..|text| - 1];
      if text[|text| - 1] == '\n' then Complete(front) + [Rest(front)] else Complete(front)
  }

  /** What follows the last newline. */
  function Rest(text: string): string {
    if text == "" || text[|text| - 1] == '\n' then ""
    else Rest(text[..|text| - 1]) + [text[|text| - 1]]
  }

  /** All lines of a text: those a newline ends, then the remainder. */
  function All(text: string): seq<string> { Complete(text) + [Rest(text)] }

  /** Where the first newline is, or -1. */
  function IndexOfNewline(text: string): (i: int)
    ensures -1 <= i < |text|
    ensures i >= 0 ==> text[i] == '\n' && '\n' !in text[..i]
    ensures i < 0 ==> '\n' !in text
  {
    if text == "" then -1
    else if text[0] == '\n' then 0
    else
      var i := IndexOfNewline(text[1..]);
      assert forall c :: c in text ==> c == text[0] || c in text[1..];
      if i < 0 then -1
      else
        assert text[..i + 1] == [text[0]] + text[1..][..i];
        i + 1
  }

  /** Cutting a text anywhere: only the unfinished line carries over. */
  lemma {:induction false} Cut(a: string, b: string)
    ensures Complete(a + b) == Complete(a) + Complete(Rest(a) + b)
    ensures Rest(a + b) == Rest(Rest(a) + b)
    decreases |b|
  {
    if b == "" {
      assert a + b == a && Rest(a) + b == Rest(a);
      RestIsOneLine(a);
    } else {
      var front, c := b[..|b| - 1], b[|b| - 1];
      Cut(a, front);
      assert (a + b)[..|a + b| - 1] == a + front;
      assert (Rest(a) + b)[..|Rest(a) + b| - 1] == Rest(a) + front;
      assert (a + b)[|a + b| - 1] == c == (Rest(a) + b)[|Rest(a) + b| - 1];
    }
  }

  lemma {:induction false} OneLine(line: string)
    requires '\n' !in line
    ensures Complete(line) == [] && Rest(line) == line
  {
    if line != "" {
      OneLine(line[..|line| - 1]);
    }
  }

  lemma {:induction false} RestIsOneLine(text: string)
    ensures '\n' !in Rest(text) && Complete(Rest(text)) == [] && Rest(Rest(text)) == Rest(text)
  {
    if text != "" && text[|text| - 1] != '\n' {
      RestIsOneLine(text[..|text| - 1]);
    }
    OneLine(Rest(text));
  }

  lemma EndedLine(line: string)
    requires '\n' !in line
    ensures Complete(line + "\n") == [line] && Rest(line + "\n") == ""
  {
    OneLine(line);
    assert (line + "\n")[..|line|] == line;
  }

  /** The first newline ends the first line. */
  lemma FirstLine(text: string, newline: nat)
    requires newline < |text| && text[newline] == '\n' && '\n' !in text[..newline]
    ensures Complete(text) == [text[..newline]] + Complete(text[newline + 1..])
    ensures Rest(text) == Rest(text[newline + 1..])
  {
    hide Complete, Rest;
    var line, after := text[..newline], text[newline + 1..];
    EndedLine(line);
    assert text == (line + "\n") + after;
    Cut(line + "\n", after);
    assert "" + after == after;
  }

  /** A line that is not finished starts the line it becomes part of. */
  lemma GrowingLine(line: string, more: string)
    requires '\n' !in line
    ensures line <= All(line + more)[0]
  {
    hide Complete, Rest;
    var text := line + more;
    var newline := IndexOfNewline(text);
    if newline < 0 {
      OneLine(text);
    } else {
      if newline < |line| {
        assert false;
      }
      FirstLine(text, newline);
    }
  }

  /** The end of line `i`: before it are the lines up to `i`, after it a newline or nothing. */
  lemma {:induction false} LineEnd(text: string, i: nat) returns (before: string, after: string)
    requires i < |All(text)|
    ensures text == before + after
    ensures Complete(before) == All(text)[..i] && Rest(before) == All(text)[i]
    ensures i < |All(text)| - 1 ==> after != ""
    ensures after != "" ==> after[0] == '\n'
    decreases |text|
  {
    if i == |All(text)| - 1 {
      before, after := text, "";
    } else {
      var front := text[..|text| - 1];
      before, after := LineEnd(front, i);
      after := after + [text[|text| - 1]];
      assert text == front + [text[|text| - 1]];
    }
  }

  predicate IsSpace(c: char) {
    || c in " \t\n\r" || c == 11 as char || c == 12 as char
    || c == 0xA0 as char || c == 0x1680 as char || 0x2000 as char <= c <= 0x200A as char
    || c == 0x2028 as char || c == 0x2029 as char || c == 0x202F as char
    || c == 0x205F as char || c == 0x3000 as char || c == 0xFEFF as char
  }

  function TrimStart(text: string): string {
    if text != "" && IsSpace(text[0]) then TrimStart(text[1..]) else text
  }

  function TrimEnd(text: string): string {
    if text != "" && IsSpace(text[|text| - 1]) then TrimEnd(text[..|text| - 1]) else text
  }

  function Trim(text: string): string { TrimEnd(TrimStart(text)) }

  /** Each line with a newline after it. */
  function Ended(lines: seq<string>): seq<string> { seq(|lines|, i requires 0 <= i < |lines| => lines[i] + "\n") }

  lemma EndedMore(lines: seq<string>, line: string)
    ensures Ended(lines + [line]) == Ended(lines) + [line + "\n"]
  {
  }

  /** The lines of a text are free of newlines and, each ended by one, are the text ended by one. */
  lemma {:induction false} LinesMeaning(text: string)
    ensures forall line :: line in All(text) ==> '\n' !in line
    ensures Join(Ended(All(text))) == text + "\n"
    ensures Join(Ended(Complete(text))) + Rest(text) == text
  {
    CompleteMeaning(text);
    RestIsOneLine(text);
    EndedMore(Complete(text), Rest(text));
    JoinMore(Ended(Complete(text)), Rest(text) + "\n");
    hide Complete, Rest, Join;
    assert Join(Ended(Complete(text))) + (Rest(text) + "\n") == Join(Ended(Complete(text))) + Rest(text) + "\n";
  }

  lemma {:induction false} CompleteMeaning(text: string)
    ensures forall line :: line in Complete(text) ==> '\n' !in line
    ensures Join(Ended(Complete(text))) + Rest(text) == text
  {
    hide Join;
    JoinNone<char>();
    if text == "" {
      assert Ended([]) == [];
    } else {
      var front, c := text[..|text| - 1], text[|text| - 1];
      CompleteMeaning(front);
      assert text == front + [c];
      if c == '\n' {
        RestIsOneLine(front);
        EndedMore(Complete(front), Rest(front));
        JoinMore(Ended(Complete(front)), Rest(front) + "\n");
      }
    }
  }

  /** The characters that JavaScript trims, by their codes. */
  lemma SpaceExactly(c: char)
    ensures var code := c as int;
            IsSpace(c) <==>
              || 9 <= code <= 13 || code == 32 || code == 160 || code == 5760 || 8192 <= code <= 8202
              || code == 8232 || code == 8233 || code == 8239 || code == 8287 || code == 12288 || code == 65279
  {
  }

  predicate AllSpace(text: string) { forall c :: c in text ==> IsSpace(c) }

  lemma {:induction false} TrimStartMeaning(text: string) returns (before: string)
    ensures text == before + TrimStart(text) && AllSpace(before)
    ensures TrimStart(text) != "" ==> !IsSpace(TrimStart(text)[0])
  {
    hide IsSpace;
    before := "";
    if text != "" && IsSpace(text[0]) {
      before := TrimStartMeaning(text[1..]);
      before := [text[0]] + before;
    }
  }

  lemma {:induction false} TrimEndMeaning(text: string) returns (after: string)
    ensures text == TrimEnd(text) + after && AllSpace(after)
    ensures TrimEnd(text) != "" ==> !IsSpace(TrimEnd(text)[|TrimEnd(text)| - 1])
  {
    hide IsSpace;
    after := "";
    if text != "" && IsSpace(text[|text| - 1]) {
      after := TrimEndMeaning(text[..|text| - 1]);
      after := after + [text[|text| - 1]];
    }
  }

  /** Only space is trimmed, on both sides, and none is left on either. */
  lemma TrimMeaning(text: string) returns (before: string, after: string)
    ensures text == before + Trim(text) + after && AllSpace(before) && AllSpace(after)
    ensures Trim(text) != "" ==> !IsSpace(Trim(text)[0]) && !IsSpace(Trim(text)[|Trim(text)| - 1])
  {
    hide IsSpace;
    before := TrimStartMeaning(text);
    after := TrimEndMeaning(TrimStart(text));
    if Trim(text) != "" {
      assert Trim(text)[0] == TrimStart(text)[0];
    }
  }
}
