/** What one spoken reply may hold, shared by the line reader and the feed of parts. */
module SpeechLimits {
  import opened Sequences

  const MAX_SENTENCES := 40
  const MAX_SENTENCE_CHARS := 2000
  const MAX_TOTAL_CHARS := 8000

  function TotalChars(sentences: seq<string>): nat {
    if sentences == [] then 0 else TotalChars(sentences[..|sentences| - 1]) + |sentences[|sentences| - 1]|
  }

  /** Whether one more sentence would exceed what a reply can hold. */
  predicate Exceeds(sentences: seq<string>, sentence: string) {
    || |sentences| + 1 > MAX_SENTENCES
    || TotalChars(sentences) + |sentence| > MAX_TOTAL_CHARS
  }

  ghost predicate WithinLimits(sentences: seq<string>) {
    |sentences| <= MAX_SENTENCES && TotalChars(sentences) <= MAX_TOTAL_CHARS
  }

  lemma AppendChars(sentences: seq<string>, sentence: string)
    ensures TotalChars(sentences + [sentence]) == TotalChars(sentences) + |sentence|
  {
    assert (sentences + [sentence])[..|sentences|] == sentences;
  }

  lemma {:induction false} TotalIsJoined(sentences: seq<string>)
    ensures TotalChars(sentences) == |Join(sentences)|
  {
    if sentences != [] {
      TotalIsJoined(sentences[..|sentences| - 1]);
    }
  }

  /** Outright: more than 40 sentences, or more than 8,000 characters once joined. */
  lemma ExceedsExactly(sentences: seq<string>, sentence: string)
    ensures Exceeds(sentences, sentence) <==>
              |sentences + [sentence]| > 40 || |Join(sentences + [sentence])| > 8000
  {
    TotalIsJoined(sentences);
    JoinMore(sentences, sentence);
  }

  lemma WithinExactly(sentences: seq<string>)
    ensures WithinLimits(sentences) <==> |sentences| <= 40 && |Join(sentences)| <= 8000
  {
    TotalIsJoined(sentences);
  }
}
