/** The phrase tables, and the languages of interruptions and acknowledgements they describe. */
module BargeInSpec {
  import opened Sequences

  type Phrase<W> = seq<W>

  const CANCEL: seq<Phrase<string>> := [
    ["stop"], ["cancel"], ["never", "mind"], ["nevermind"], ["not", "that"],
    ["hold", "on"], ["hang", "on"], ["wait"]]

  const CANCEL_FILLER: seq<Phrase<string>> := [
    ["please"], ["no"], ["oh"], ["sorry"], ["ok"], ["okay"], ["um"], ["uh"], ["it"], ["that"], ["there"],
    ["a", "second"], ["a", "sec"], ["a", "moment"], ["a", "minute"],
    ["one", "second"], ["one", "sec"], ["one", "moment"]]

  const BACKCHANNEL: seq<Phrase<string>> := [
    ["yeah"], ["yep"], ["yup"], ["yes"], ["yea"], ["ok"], ["okay"], ["k"], ["mm"], ["mhm"], ["mmhmm"],
    ["hmm"], ["hm"], ["uh", "huh"], ["uh"], ["um"], ["ah"], ["oh"], ["wow"], ["right"], ["sure"],
    ["got", "it"], ["i", "see"], ["nice"], ["great"], ["good"], ["perfect"], ["awesome"], ["cool"],
    ["thanks"], ["thank", "you"], ["exactly"], ["true"], ["indeed"], ["fine"], ["all", "right"],
    ["alright"], ["makes", "sense"], ["sounds", "good"], ["of", "course"], ["interesting"], ["gotcha"]]

  /** `pieces` cut the tokens into core and extra phrases. */
  ghost predicate Cuts<W(!new)>(tokens: seq<W>, core: seq<Phrase<W>>, extra: seq<Phrase<W>>, pieces: seq<Phrase<W>>) {
    && Join(pieces) == tokens
    && forall p :: p in pieces ==> p in core || p in extra
  }

  ghost predicate HasCore<W(!new)>(pieces: seq<Phrase<W>>, core: seq<Phrase<W>>) {
    exists p :: p in pieces && p in core
  }

  /** The language of the tables: tokens that some cut makes of their phrases, a core phrase among them. */
  ghost predicate Composed<W(!new)>(tokens: seq<W>, core: seq<Phrase<W>>, extra: seq<Phrase<W>>) {
    exists pieces :: Cuts(tokens, core, extra, pieces) && HasCore(pieces, core)
  }

  /** No phrase is empty, and the word at which a longer phrase goes on starts no phrase. */
  ghost predicate Unambiguous<W(!new)>(core: seq<Phrase<W>>, extra: seq<Phrase<W>>) {
    && (forall p :: p in core + extra ==> p != [])
    && (forall p, q, r :: p in core + extra && q in core + extra && r in core + extra && p < q && r != []
          ==> r[0] != q[|p|])
  }

  predicate Matches<W(==)>(tokens: seq<W>, index: nat, phrase: Phrase<W>) {
    index + |phrase| <= |tokens| && tokens[index..index + |phrase|] == phrase
  }

  // ---- Names, by consonant skeleton ----

  function Lower(c: char): char {
    if 'A' <= c <= 'Z' then c - 'A' + 'a' else c
  }

  /** The consonants of a word, with c, k and q merged. */
  function Consonants(word: string): string {
    if word == "" then ""
    else
      var c, rest := Lower(word[0]), Consonants(word[1..]);
      if !('a' <= c <= 'z') || c in "aeiouy" then rest
      else if c in "ckq" then "k" + rest
      else [c] + rest
  }

  /** Repeats collapsed. */
  function Collapse(text: string): string {
    if |text| < 2 then text
    else if text[0] == text[1] then Collapse(text[1..])
    else [text[0]] + Collapse(text[1..])
  }

  predicate IsParlumeName(word: string) {
    Collapse(Consonants(word)) in ["fbrk", "prlm", "prlmn"]
  }

  function Names(tokens: seq<string>): seq<Phrase<string>> {
    if tokens == [] then []
    else if IsParlumeName(tokens[0]) then [[tokens[0]]] + Names(tokens[1..])
    else Names(tokens[1..])
  }

  function WithoutLeadingNames(tokens: seq<string>): seq<string> {
    if tokens != [] && IsParlumeName(tokens[0]) then WithoutLeadingNames(tokens[1..]) else tokens
  }

  function WithoutTrailingNames(tokens: seq<string>): seq<string> {
    if tokens != [] && IsParlumeName(tokens[|tokens| - 1]) then WithoutTrailingNames(tokens[..|tokens| - 1])
    else tokens
  }

  function Unaddressed(tokens: seq<string>): seq<string> {
    WithoutTrailingNames(WithoutLeadingNames(tokens))
  }
}

module BargeInTheorems {
  import opened BargeInSpec
  import opened Sequences

  /** A cut that starts with `taken` goes on with a phrase that matches there. */
  lemma NextPiece<W(!new)>(
      tokens: seq<W>, core: seq<Phrase<W>>, extra: seq<Phrase<W>>, taken: seq<Phrase<W>>, all: seq<Phrase<W>>)
    returns (next: Phrase<W>)
    requires Cuts(tokens, core, extra, all) && taken < all
    ensures next == all[|taken|] && next in core + extra
    ensures Matches(tokens, |Join(taken)|, next)
    ensures taken + [next] <= all
  {
    next := all[|taken|];
    var rest := all[|taken| + 1..];
    assert all == (taken + [next]) + rest;
    JoinCut(taken + [next], rest);
    JoinCut(taken, [next]);
    JoinOne(next);
    assert next in all;
    assert tokens == Join(taken) + next + Join(rest);
  }

  /** Of two phrases that match at one place, none can be followed on by the rest of a longer one. */
  lemma OnePhraseFits<W(!new)>(
      tokens: seq<W>, core: seq<Phrase<W>>, extra: seq<Phrase<W>>, taken: seq<Phrase<W>>, all: seq<Phrase<W>>,
      greedy: Phrase<W>)
    requires Unambiguous(core, extra)
    requires Cuts(tokens, core, extra, all) && taken < all
    requires Longest(tokens, |Join(taken)|, core, extra, greedy)
    ensures taken + [greedy] <= all
  {
    hide Join;
    var index := |Join(taken)|;
    var next := NextPiece(tokens, core, extra, taken, all);
    assert next == greedy[..|next|] by {
      assert tokens[index..index + |greedy|][..|next|] == tokens[index..index + |next|];
    }
    if |next| < |greedy| {
      NoShorter(tokens, core, extra, taken, all, next, greedy);
      assert false;
    }
  }

  lemma NoShorter<W(!new)>(
      tokens: seq<W>, core: seq<Phrase<W>>, extra: seq<Phrase<W>>, taken: seq<Phrase<W>>, all: seq<Phrase<W>>,
      next: Phrase<W>, greedy: Phrase<W>)
    requires Unambiguous(core, extra)
    requires Cuts(tokens, core, extra, all) && taken + [next] <= all && next in core + extra
    requires greedy in core + extra && Matches(tokens, |Join(taken)|, greedy)
    ensures !(next < greedy)
  {
    hide Join, Matches, Cuts, Unambiguous;
    if next < greedy {
      var index, after := FollowedBy(tokens, core, extra, taken, all, next, greedy);
      WordAt(tokens, index, greedy, |next|);
      WordAt(tokens, index + |next|, after, 0);
      Apart(core, extra, next, greedy, after);
    }
  }

  /** After a phrase that a longer match goes beyond, the cut has another phrase. */
  lemma FollowedBy<W(!new)>(
      tokens: seq<W>, core: seq<Phrase<W>>, extra: seq<Phrase<W>>, taken: seq<Phrase<W>>, all: seq<Phrase<W>>,
      next: Phrase<W>, greedy: Phrase<W>)
    returns (index: nat, after: Phrase<W>)
    requires Unambiguous(core, extra)
    requires Cuts(tokens, core, extra, all) && taken + [next] <= all && next in core + extra
    requires Matches(tokens, |Join(taken)|, greedy) && next < greedy
    ensures index == |Join(taken)| && after in core + extra && after != []
    ensures Matches(tokens, index + |next|, after)
  {
    hide Join;
    index := |Join(taken)|;
    JoinCut(taken, [next]);
    JoinOne(next);
    GoesOn(tokens, core, extra, taken + [next], all);
    after := NextPiece(tokens, core, extra, taken + [next], all);
  }

  lemma GoesOn<W(!new)>(
      tokens: seq<W>, core: seq<Phrase<W>>, extra: seq<Phrase<W>>, taken: seq<Phrase<W>>, all: seq<Phrase<W>>)
    requires Cuts(tokens, core, extra, all) && taken <= all && |Join(taken)| < |tokens|
    ensures taken < all
  {
    assert taken == all ==> Join(taken) == tokens;
  }

  lemma WordAt<W(!new)>(tokens: seq<W>, index: nat, p: Phrase<W>, k: nat)
    requires Matches(tokens, index, p) && k < |p|
    ensures index + k < |tokens| && tokens[index + k] == p[k]
  {
    assert tokens[index..index + |p|][k] == tokens[index + k];
  }

  lemma Apart<W(!new)>(core: seq<Phrase<W>>, extra: seq<Phrase<W>>, p: Phrase<W>, q: Phrase<W>, r: Phrase<W>)
    requires Unambiguous(core, extra) && p in core + extra && q in core + extra && r in core + extra && p < q
    ensures r != [] && r[0] != q[|p|]
  {
  }

  /** Every cut of the tokens into phrases of unambiguous tables starts with `taken`. */
  ghost predicate Forced<W(!new)>(tokens: seq<W>, core: seq<Phrase<W>>, extra: seq<Phrase<W>>, taken: seq<Phrase<W>>) {
    Unambiguous(core, extra) ==> forall all :: Cuts(tokens, core, extra, all) ==> taken <= all
  }

  /** `p` is the longest phrase of the tables that matches at `index`. */
  ghost predicate Longest<W(!new)>(
      tokens: seq<W>, index: nat, core: seq<Phrase<W>>, extra: seq<Phrase<W>>, p: Phrase<W>)
  {
    && p in core + extra && Matches(tokens, index, p)
    && forall q :: q in core + extra && Matches(tokens, index, q) ==> |q| <= |p|
  }

  lemma {:induction false} ForcedOn<W(!new)>(
      tokens: seq<W>, core: seq<Phrase<W>>, extra: seq<Phrase<W>>, taken: seq<Phrase<W>>, greedy: Phrase<W>)
    requires Forced(tokens, core, extra, taken) && |Join(taken)| < |tokens|
    requires Longest(tokens, |Join(taken)|, core, extra, greedy)
    ensures Forced(tokens, core, extra, taken + [greedy])
  {
    hide Unambiguous, Matches, Longest;
    if Unambiguous(core, extra) {
      forall all | Cuts(tokens, core, extra, all)
        ensures taken + [greedy] <= all
      {
        assert taken <= all && taken != all;
        OnePhraseFits(tokens, core, extra, taken, all, greedy);
      }
    }
  }

  lemma NothingFits<W(!new)>(tokens: seq<W>, core: seq<Phrase<W>>, extra: seq<Phrase<W>>, taken: seq<Phrase<W>>)
    requires Forced(tokens, core, extra, taken) && |Join(taken)| < |tokens| && Unambiguous(core, extra)
    requires forall p :: p in core + extra && Matches(tokens, |Join(taken)|, p) ==> p == []
    ensures !Composed(tokens, core, extra)
  {
    if all :| Cuts(tokens, core, extra, all) && HasCore(all, core) {
      assert taken != all;
      var next := NextPiece(tokens, core, extra, taken, all);
      assert false;
    }
  }

  ghost predicate IsLongest<W(!new)>(tokens: seq<W>, index: nat, phrases: seq<Phrase<W>>, best: nat) {
    && (forall p :: p in phrases && Matches(tokens, index, p) ==> |p| <= best)
    && (best > 0 ==> exists p :: p in phrases && |p| == best && Matches(tokens, index, p))
  }

  /** The longer of the two matches is the longest of all, and a core phrase when it is no shorter. */
  lemma Chosen<W(!new)>(tokens: seq<W>, index: nat, core: seq<Phrase<W>>, extra: seq<Phrase<W>>, c: nat, e: nat)
    returns (greedy: Phrase<W>)
    requires IsLongest(tokens, index, core, c) && IsLongest(tokens, index, extra, e) && c + e > 0
    ensures Longest(tokens, index, core, extra, greedy)
    ensures |greedy| == if c >= e then c else e
    ensures c >= e <==> greedy in core
  {
    if c >= e {
      greedy :| greedy in core && |greedy| == c && Matches(tokens, index, greedy);
    } else {
      greedy :| greedy in extra && |greedy| == e && Matches(tokens, index, greedy);
    }
    hide Matches;
  }

  lemma NoneFits<W(!new)>(tokens: seq<W>, index: nat, core: seq<Phrase<W>>, extra: seq<Phrase<W>>)
    requires IsLongest(tokens, index, core, 0) && IsLongest(tokens, index, extra, 0)
    ensures forall p :: p in core + extra && Matches(tokens, index, p) ==> p == []
  {
  }

  lemma CutsMore<W(!new)>(
      tokens: seq<W>, index: nat, core: seq<Phrase<W>>, extra: seq<Phrase<W>>, taken: seq<Phrase<W>>, greedy: Phrase<W>)
    requires index <= |tokens| && Cuts(tokens[..index], core, extra, taken)
    requires greedy in core + extra && Matches(tokens, index, greedy)
    ensures Cuts(tokens[..index + |greedy|], core, extra, taken + [greedy])
    ensures |Join(taken + [greedy])| == index + |greedy|
  {
    hide Join;
    JoinCut(taken, [greedy]);
    JoinOne(greedy);
    assert tokens[..index] + greedy == tokens[..index + |greedy|];
    assert greedy in core || greedy in extra;
    forall p | p in taken + [greedy]
      ensures p in core || p in extra
    {
      assert p in taken || p == greedy;
    }
  }

  lemma NothingTaken<W(!new)>(tokens: seq<W>, core: seq<Phrase<W>>, extra: seq<Phrase<W>>)
    ensures Cuts(tokens[..0], core, extra, []) && Join<W>([]) == []
    ensures Forced(tokens, core, extra, []) && !HasCore([], core)
  {
  }

  /** Tokens cut to their end: they are composed exactly when this one cut has a core phrase. */
  lemma AllTaken<W(!new)>(tokens: seq<W>, core: seq<Phrase<W>>, extra: seq<Phrase<W>>, taken: seq<Phrase<W>>)
    requires Cuts(tokens, core, extra, taken) && Forced(tokens, core, extra, taken)
    ensures HasCore(taken, core) ==> Composed(tokens, core, extra)
    ensures Unambiguous(core, extra) && Composed(tokens, core, extra) ==> HasCore(taken, core)
  {
    if Unambiguous(core, extra) && Composed(tokens, core, extra) {
      var all :| Cuts(tokens, core, extra, all) && HasCore(all, core);
      if taken < all {
        var next := NextPiece(tokens, core, extra, taken, all);
        assert false;
      }
      assert all == taken;
    }
  }

  lemma CoreSeen<W(!new)>(taken: seq<Phrase<W>>, next: Phrase<W>, core: seq<Phrase<W>>)
    ensures HasCore(taken + [next], core) <==> HasCore(taken, core) || next in core
  {
    assert next in taken + [next];
    assert forall p :: p in taken ==> p in taken + [next];
  }

  // ---- The language, read from the front ----

  /** Tokens that can be used up by phrases taken off their front, a core phrase among them or `seen` before. */
  ghost predicate UsedUp<W(!new)>(tokens: seq<W>, core: seq<Phrase<W>>, extra: seq<Phrase<W>>, seen: bool)
    decreases |tokens|
  {
    if tokens == [] then seen
    else exists p ::
      && TakesOff(tokens, p) && (p in core || p in extra)
      && UsedUp(tokens[|p|..], core, extra, seen || p in core)
  }

  ghost predicate TakesOff<W(!new)>(tokens: seq<W>, p: Phrase<W>) { p != [] && p <= tokens }

  lemma {:induction false} PiecesUseUp<W(!new)>(
      core: seq<Phrase<W>>, extra: seq<Phrase<W>>, pieces: seq<Phrase<W>>, seen: bool)
    requires forall p :: p in pieces ==> p != [] && (p in core || p in extra)
    requires seen || HasCore(pieces, core)
    ensures UsedUp(Join(pieces), core, extra, seen)
    decreases |pieces|
  {
    hide Join;
    if pieces == [] {
      JoinNone<W>();
    } else {
      var p, rest := pieces[0], pieces[1..];
      JoinFront(pieces);
      assert forall q :: q in rest ==> q in pieces;
      if !seen && p !in core {
        var q :| q in pieces && q in core;
        assert q in rest;
      }
      PiecesUseUp(core, extra, rest, seen || p in core);
      assert p in pieces && Join(pieces)[|p|..] == Join(rest);
      assert TakesOff(Join(pieces), p);
    }
  }

  lemma {:induction false} UsedUpPieces<W(!new)>(
      tokens: seq<W>, core: seq<Phrase<W>>, extra: seq<Phrase<W>>, seen: bool) returns (pieces: seq<Phrase<W>>)
    requires UsedUp(tokens, core, extra, seen)
    ensures Cuts(tokens, core, extra, pieces) && (seen || HasCore(pieces, core))
    decreases |tokens|
  {
    hide Join;
    pieces := [];
    JoinNone<W>();
    if tokens != [] {
      var p :| TakesOff(tokens, p) && (p in core || p in extra)
            && UsedUp(tokens[|p|..], core, extra, seen || p in core);
      var rest := UsedUpPieces(tokens[|p|..], core, extra, seen || p in core);
      pieces := [p] + rest;
      JoinFront(pieces);
      assert pieces[1..] == rest && p in pieces;
      assert forall q :: q in pieces ==> q == p || q in rest;
      assert forall q :: q in rest ==> q in pieces;
    }
  }

  /**
   * Said without cuts: words are in the language of tables without empty phrases exactly when taking
   * phrases off their front can use them up with a core phrase among those taken.
   */
  lemma {:induction false} ComposedExactly<W(!new)>(tokens: seq<W>, core: seq<Phrase<W>>, extra: seq<Phrase<W>>)
    requires [] !in core && [] !in extra
    ensures Composed(tokens, core, extra) <==> UsedUp(tokens, core, extra, false)
  {
    hide Join, UsedUp;
    if Composed(tokens, core, extra) {
      var pieces :| Cuts(tokens, core, extra, pieces) && HasCore(pieces, core);
      PiecesUseUp(core, extra, pieces, false);
    }
    if UsedUp(tokens, core, extra, false) {
      var pieces := UsedUpPieces(tokens, core, extra, false);
    }
  }
}

/** Parlume's name around what was said. */
module BargeInNames {
  import opened BargeInSpec

  lemma LeadingWord(tokens: seq<string>)
    ensures WithoutLeadingNames(tokens)
         == if tokens != [] && IsParlumeName(tokens[0]) then WithoutLeadingNames(tokens[1..]) else tokens
  {
  }

  lemma TrailingWord(tokens: seq<string>)
    ensures WithoutTrailingNames(tokens)
         == if tokens != [] && IsParlumeName(tokens[|tokens| - 1])
            then WithoutTrailingNames(tokens[..|tokens| - 1]) else tokens
  {
  }

  ghost predicate AllNames(tokens: seq<string>) { forall t :: t in tokens ==> IsParlumeName(t) }

  lemma {:induction false} Leading(tokens: seq<string>) returns (names: seq<string>)
    ensures tokens == names + WithoutLeadingNames(tokens) && AllNames(names)
    ensures var rest := WithoutLeadingNames(tokens); rest == [] || !IsParlumeName(rest[0])
  {
    hide IsParlumeName;
    names := [];
    if tokens != [] && IsParlumeName(tokens[0]) {
      names := Leading(tokens[1..]);
      names := [tokens[0]] + names;
    }
  }

  lemma {:induction false} Trailing(tokens: seq<string>) returns (names: seq<string>)
    ensures tokens == WithoutTrailingNames(tokens) + names && AllNames(names)
    ensures var rest := WithoutTrailingNames(tokens); rest == [] || !IsParlumeName(rest[|rest| - 1])
  {
    hide IsParlumeName;
    names := [];
    if tokens != [] && IsParlumeName(tokens[|tokens| - 1]) {
      names := Trailing(tokens[..|tokens| - 1]);
      names := names + [tokens[|tokens| - 1]];
    }
  }

  // ---- Which words are heard as the name ----

  /** `text` is the letters of `letters` in order, each once or repeated. */
  ghost predicate Runs(text: string, letters: string)
    decreases |letters|
  {
    if letters == "" then text == ""
    else exists n :: RunOf(text, letters[0], n) && Runs(text[n..], letters[1..])
  }

  /** `text` starts with `c`, `n` times at least. */
  predicate RunOf(text: string, c: char, n: int) {
    1 <= n <= |text| && forall i :: 0 <= i < n ==> text[i] == c
  }

  predicate NoRepeats(letters: string) { forall i :: 0 < i < |letters| ==> letters[i - 1] != letters[i] }

  lemma {:induction false} CollapseIsRuns(text: string)
    ensures Runs(text, Collapse(text))
    ensures text != "" ==> Collapse(text) != "" && Collapse(text)[0] == text[0]
  {
    if |text| == 1 {
      assert RunOf(text, text[0], 1) && text[1..] == "" && text[1..] == Collapse(text)[1..];
    } else if |text| > 1 {
      CollapseIsRuns(text[1..]);
      var letters := Collapse(text);
      if text[0] == text[1] {
        var n :| RunOf(text[1..], letters[0], n) && Runs(text[1..][n..], letters[1..]);
        assert text[1..][n..] == text[n + 1..];
        assert forall i :: 0 < i < n + 1 ==> text[i] == text[1..][i - 1];
        assert RunOf(text, letters[0], n + 1);
      } else {
        assert letters[1..] == Collapse(text[1..]);
        assert RunOf(text, letters[0], 1);
      }
    }
  }

  lemma {:induction false} RunsCollapse(text: string, letters: string)
    requires Runs(text, letters) && NoRepeats(letters)
    ensures Collapse(text) == letters
    decreases |text|
  {
    if letters != "" {
      var n :| RunOf(text, letters[0], n) && Runs(text[n..], letters[1..]);
      if n > 1 {
        assert text[1..][n - 1..] == text[n..];
        assert forall i :: 0 <= i < n - 1 ==> text[1..][i] == text[i + 1];
        assert RunOf(text[1..], letters[0], n - 1);
        RunsCollapse(text[1..], letters);
      } else {
        assert NoRepeats(letters[1..]);
        RunsCollapse(text[1..], letters[1..]);
        if letters[1..] != "" {
          CollapseIsRuns(text[1..]);
          assert text[1..] != "" && text[1] == letters[1];
        }
        assert letters == [letters[0]] + letters[1..];
      }
    }
  }

  /** What a character adds to a word's consonants: its lower case, with c, k and q as k; no vowel, no y. */
  lemma ConsonantExactly(c: char)
    ensures var lower := if 'A' <= c <= 'Z' then c as int + 32 else c as int;
            Consonants([c]) ==
              if !(97 <= lower <= 122) || lower as char in ['a', 'e', 'i', 'o', 'u', 'y'] then ""
              else if lower as char in ['c', 'k', 'q'] then "k"
              else [lower as char]
  {
    assert [c][1..] == "" && Consonants("") == "";
  }

  lemma {:induction false} ConsonantsCut(a: string, b: string)
    ensures Consonants(a + b) == Consonants(a) + Consonants(b)
  {
    if a == "" {
      assert a + b == b;
    } else {
      ConsonantsCut(a[1..], b);
      assert (a + b)[1..] == a[1..] + b;
    }
  }

  /** A word is heard as the name exactly when its consonants are f, b, r, k or p, r, l, m, perhaps n, with repeats. */
  lemma NameExactly(word: string)
    ensures IsParlumeName(word) <==>
              || Runs(Consonants(word), "fbrk") || Runs(Consonants(word), "prlm") || Runs(Consonants(word), "prlmn")
  {
    hide Consonants, Runs, Collapse;
    CollapseIsRuns(Consonants(word));
    if Runs(Consonants(word), "fbrk") { RunsCollapse(Consonants(word), "fbrk"); }
    if Runs(Consonants(word), "prlm") { RunsCollapse(Consonants(word), "prlm"); }
    if Runs(Consonants(word), "prlmn") { RunsCollapse(Consonants(word), "prlmn"); }
  }

  /** What is left has names only on both sides of it, and neither starts nor ends with one. */
  lemma UnaddressedMeaning(tokens: seq<string>) returns (before: seq<string>, after: seq<string>)
    ensures tokens == before + Unaddressed(tokens) + after && AllNames(before) && AllNames(after)
    ensures var rest := Unaddressed(tokens);
            rest == [] || (!IsParlumeName(rest[0]) && !IsParlumeName(rest[|rest| - 1]))
  {
    hide IsParlumeName;
    before := Leading(tokens);
    after := Trailing(WithoutLeadingNames(tokens));
  }
}

/** The shipped tables describe their phrases unambiguously, so the greedy answer is exact for them. */
module BargeInTables {
  import opened BargeInSpec
  import opened Sequences

  /** The word `w` starts no phrase of the table. */
  ghost predicate StartsNothing(w: string, table: seq<Phrase<string>>) {
    forall r :: r in table ==> r == [] || r[0] != w
  }

  /** A longer phrase goes on with a word that starts nothing, or its first word is no phrase. */
  ghost predicate Closed(q: Phrase<string>, core: seq<Phrase<string>>, extra: seq<Phrase<string>>) {
    && |q| == 2
    && (|| ([q[0]] !in core && [q[0]] !in extra)
        || (StartsNothing(q[1], core) && StartsNothing(q[1], extra)))
  }

  lemma ClosedIsUnambiguous(core: seq<Phrase<string>>, extra: seq<Phrase<string>>)
    requires forall q :: q in core || q in extra ==> |q| == 1 || Closed(q, core, extra)
    ensures Unambiguous(core, extra)
  {
    forall p, q, r | p in core + extra && q in core + extra && r in core + extra && p < q && r != []
      ensures r[0] != q[|p|]
    {
      assert p == [q[0]];
      assert Closed(q, core, extra);
    }
  }

  lemma CancelPhrases(q: Phrase<string>)
    requires q in CANCEL
    ensures |q| == 1 || q in [["never", "mind"], ["not", "that"], ["hold", "on"], ["hang", "on"]]
  {
  }

  lemma FillerPhrases(q: Phrase<string>)
    requires q in CANCEL_FILLER
    ensures |q| == 1 || (|q| == 2 && q[0] in ["a", "one"])
  {
  }

  lemma NoCancelPhrase(w: string)
    requires w in ["never", "not", "hold", "hang", "a", "one"]
    ensures [w] !in CANCEL && [w] !in CANCEL_FILLER
  {
  }

  /** Cancel phrases and their filler: no phrase is the start of another. */
  lemma {:induction false} CancelIsUnambiguous()
    ensures Unambiguous(CANCEL, CANCEL_FILLER)
  {
    forall q | q in CANCEL || q in CANCEL_FILLER
      ensures |q| == 1 || Closed(q, CANCEL, CANCEL_FILLER)
    {
      if q in CANCEL { CancelPhrases(q); } else { FillerPhrases(q); }
      if |q| == 2 { NoCancelPhrase(q[0]); }
    }
    ClosedIsUnambiguous(CANCEL, CANCEL_FILLER);
  }

  lemma PrefixOfTwo(p: Phrase<string>, q: Phrase<string>)
    requires p <= q && |p| >= 1 && |q| == 2
    ensures p == q || p == [q[0]]
  {
  }

  /** The same, said outright: the cancel tables are free of prefixes. */
  lemma CancelIsPrefixFree(p: Phrase<string>, q: Phrase<string>)
    requires p in CANCEL + CANCEL_FILLER && q in CANCEL + CANCEL_FILLER && p <= q
    ensures p == q
  {
    if q in CANCEL { CancelPhrases(q); } else { FillerPhrases(q); }
    if p in CANCEL { CancelPhrases(p); } else { FillerPhrases(p); }
    if |q| == 2 {
      NoCancelPhrase(q[0]);
      PrefixOfTwo(p, q);
    }
  }

  const FIRST_OF_TWO := ["got", "i", "thank", "all", "makes", "sounds", "of"]

  predicate HasShape(q: Phrase<string>) {
    || (|q| == 1 && q[0] !in FIRST_OF_TWO)
    || q == ["uh", "huh"]
    || (|q| == 2 && q[0] in FIRST_OF_TWO)
  }

  lemma BackchannelPhrases(q: Phrase<string>)
    requires q in BACKCHANNEL
    ensures HasShape(q)
  {
    var i :| 0 <= i < |BACKCHANNEL| && q == BACKCHANNEL[i];
    if i < 17 {
      FirstPhrases(i);
    } else if i < 24 {
      MiddlePhrases(i);
    } else if i < 33 {
      LaterPhrases(i);
    } else {
      LastPhrases(i);
    }
  }

  lemma FirstPhrases(i: nat)
    requires i < 17
    ensures HasShape(BACKCHANNEL[i])
  {
  }

  lemma MiddlePhrases(i: nat)
    requires 17 <= i < 24
    ensures HasShape(BACKCHANNEL[i])
  {
  }

  lemma LaterPhrases(i: nat)
    requires 24 <= i < 33
    ensures HasShape(BACKCHANNEL[i])
  {
  }

  lemma LastPhrases(i: nat)
    requires 33 <= i < |BACKCHANNEL|
    ensures HasShape(BACKCHANNEL[i])
  {
  }

  lemma NoBackchannelPhrase(w: string)
    requires w in FIRST_OF_TWO
    ensures [w] !in BACKCHANNEL
  {
    if [w] in BACKCHANNEL {
      BackchannelPhrases([w]);
    }
  }

  lemma HuhStartsNo(phrase: Phrase<string>)
    requires phrase in BACKCHANNEL
    ensures phrase != [] && phrase[0] != "huh"
  {
  }

  lemma HuhStartsNothing()
    ensures StartsNothing("huh", BACKCHANNEL)
  {
    forall r | r in BACKCHANNEL
      ensures r[0] != "huh"
    {
      HuhStartsNo(r);
    }
  }

  lemma {:induction false} NamesAreNames(tokens: seq<string>)
    ensures forall n :: n in Names(tokens) ==> |n| == 1 && IsParlumeName(n[0])
    ensures forall t :: t in tokens && IsParlumeName(t) ==> [t] in Names(tokens)
  {
    if tokens != [] {
      NamesAreNames(tokens[1..]);
    }
  }

  /** A word heard as a name has four letters or more, one of them f or p. */
  lemma NameNeeds(w: string)
    requires IsParlumeName(w)
    ensures |w| >= 4 && exists c :: c in w && Lower(c) in "fp"
  {
    SkeletonOf(w);
    var name := Collapse(Consonants(w));
    assert name[0] in "fp";
    assert name[0] in Consonants(w);
  }

  lemma {:induction false} SkeletonOf(w: string)
    ensures |Collapse(Consonants(w))| <= |Consonants(w)| <= |w|
    ensures forall c :: c in Collapse(Consonants(w)) ==> c in Consonants(w)
    ensures forall c :: c in Consonants(w) && c != 'k' ==> exists d :: d in w && Lower(d) == c
  {
    Collapsed(Consonants(w));
    if w != "" {
      SkeletonOf(w[1..]);
      assert w == [w[0]] + w[1..];
    }
  }

  lemma {:induction false} Collapsed(text: string)
    ensures |Collapse(text)| <= |text|
    ensures forall c :: c in Collapse(text) ==> c in text
  {
    if |text| >= 2 {
      Collapsed(text[1..]);
    }
  }

  /** None of the words that start a two-word phrase, nor "huh", is heard as a name. */
  lemma {:induction false} NotNames(w: string)
    requires w in FIRST_OF_TWO || w == "huh"
    ensures !IsParlumeName(w)
  {
    if IsParlumeName(w) {
      NameNeeds(w);
    }
  }

  lemma BackchannelClosed(q: Phrase<string>, names: seq<Phrase<string>>)
    requires q in BACKCHANNEL && |q| != 1
    requires forall n :: n in names ==> |n| == 1 && IsParlumeName(n[0])
    ensures Closed(q, BACKCHANNEL, names)
  {
    BackchannelPhrases(q);
    HuhStartsNothing();
    NotNames("huh");
    if q[0] in FIRST_OF_TWO {
      NoBackchannelPhrase(q[0]);
      NotNames(q[0]);
    }
  }

  lemma OnePiece(p: Phrase<string>, core: seq<Phrase<string>>, extra: seq<Phrase<string>>)
    requires p in core
    ensures Composed(p, core, extra)
  {
    JoinOne(p);
    assert p in [p];
    assert Cuts(p, core, extra, [p]) && HasCore([p], core);
  }

  lemma TwoPieces(
      p: Phrase<string>, q: Phrase<string>, core: seq<Phrase<string>>, extra: seq<Phrase<string>>)
    requires p in core && (q in core || q in extra)
    ensures Composed(p + q, core, extra) && Composed(q + p, core, extra)
  {
    JoinOne(p);
    JoinOne(q);
    JoinCut([p], [q]);
    JoinCut([q], [p]);
    assert p in [p] + [q] && p in [q] + [p];
    assert Cuts(p + q, core, extra, [p] + [q]) && HasCore([p] + [q], core);
    assert Cuts(q + p, core, extra, [q] + [p]) && HasCore([q] + [p], core);
  }

  /** The phrases that the classifier promises to understand. */
  lemma PromisedPhrases(tokens: seq<string>)
    ensures Composed(["stop"], CANCEL, CANCEL_FILLER) && Composed(["never", "mind"], CANCEL, CANCEL_FILLER)
    ensures Composed(["wait"], CANCEL, CANCEL_FILLER) && Composed(["please"] + ["stop"], CANCEL, CANCEL_FILLER)
    ensures Composed(["yeah"], BACKCHANNEL, Names(tokens))
    ensures Composed(["got", "it"] + ["thanks"], BACKCHANNEL, Names(tokens))
  {
    hide Names;
    InTables();
    OnePiece(["stop"], CANCEL, CANCEL_FILLER);
    OnePiece(["never", "mind"], CANCEL, CANCEL_FILLER);
    OnePiece(["wait"], CANCEL, CANCEL_FILLER);
    TwoPieces(["stop"], ["please"], CANCEL, CANCEL_FILLER);
    OnePiece(["yeah"], BACKCHANNEL, Names(tokens));
    TwoPieces(["got", "it"], ["thanks"], BACKCHANNEL, Names(tokens));
  }

  lemma InTables()
    ensures ["stop"] in CANCEL && ["never", "mind"] in CANCEL && ["wait"] in CANCEL && ["please"] in CANCEL_FILLER
    ensures ["yeah"] in BACKCHANNEL && ["got", "it"] in BACKCHANNEL && ["thanks"] in BACKCHANNEL
  {
    assert CANCEL[0] == ["stop"] && CANCEL[2] == ["never", "mind"] && CANCEL[7] == ["wait"];
    assert CANCEL_FILLER[0] == ["please"];
    assert BACKCHANNEL[0] == ["yeah"] && BACKCHANNEL[21] == ["got", "it"] && BACKCHANNEL[29] == ["thanks"];
  }

  /** Acknowledgements overlap only at "uh" and "uh huh", and "huh" starts nothing. */
  lemma {:induction false} BackchannelIsUnambiguous(tokens: seq<string>)
    ensures Unambiguous(BACKCHANNEL, Names(tokens))
  {
    var names := Names(tokens);
    NamesAreNames(tokens);
    forall q | q in BACKCHANNEL || q in names
      ensures |q| == 1 || Closed(q, BACKCHANNEL, names)
    {
      if q in BACKCHANNEL && |q| != 1 {
        BackchannelClosed(q, names);
      }
    }
    ClosedIsUnambiguous(BACKCHANNEL, names);
  }
}

module BargeIn {
  import opened BargeInSpec
  import opened BargeInNames
  import opened BargeInTheorems
  import opened BargeInTables
  import opened Sequences
  import opened Wrappers

  datatype BargeIn = Cancel | Speech | Ignore

  /** How far the longest match at `index` reaches; nothing matches when that is 0. */
  method LongestMatch(tokens: seq<string>, index: nat, phrases: seq<Phrase<string>>) returns (best: nat)
    ensures IsLongest(tokens, index, phrases, best)
  {
    best := 0;
    for i := 0 to |phrases|
      invariant IsLongest(tokens, index, phrases[..i], best)
    {
      if |phrases[i]| > best && Matches(tokens, index, phrases[i]) {
        best := |phrases[i]|;
      }
      assert phrases[..i + 1] == phrases[..i] + [phrases[i]];
    }
    assert phrases[..|phrases|] == phrases;
  }

  /** The greedy test of the tables' language: always sound, and complete for unambiguous tables. */
  method ConsistsOf(tokens: seq<string>, core: seq<Phrase<string>>, extra: seq<Phrase<string>>) returns (result: bool)
    ensures result ==> Composed(tokens, core, extra)
    ensures Unambiguous(core, extra) ==> (result <==> Composed(tokens, core, extra))
  {
    hide Unambiguous, Join, HasCore, Forced, Cuts, IsLongest;
    var index := 0;
    var sawCore := false;
    ghost var taken: seq<Phrase<string>> := [];
    NothingTaken(tokens, core, extra);
    while index < |tokens|
      invariant index <= |tokens|
      invariant Cuts(tokens[..index], core, extra, taken) && |Join(taken)| == index
      invariant sawCore <==> HasCore(taken, core)
      invariant Forced(tokens, core, extra, taken)
    {
      var coreLength := LongestMatch(tokens, index, core);
      var extraLength := LongestMatch(tokens, index, extra);
      if coreLength == 0 && extraLength == 0 {
        NoneFits(tokens, index, core, extra);
        if Unambiguous(core, extra) {
          NothingFits(tokens, core, extra, taken);
        }
        return false;
      }
      ghost var greedy := Chosen(tokens, index, core, extra, coreLength, extraLength);
      ForcedOn(tokens, core, extra, taken, greedy);
      CutsMore(tokens, index, core, extra, taken, greedy);
      CoreSeen(taken, greedy, core);
      taken := taken + [greedy];
      sawCore := sawCore || coreLength >= extraLength;
      index := index + if coreLength >= extraLength then coreLength else extraLength;
    }
    assert tokens[..index] == tokens;
    AllTaken(tokens, core, extra, taken);
    return sawCore;
  }

  /** Two scans, from the front and from the back, over the words heard as Parlume's name. */
  method TakeOffNames(tokens: seq<string>) returns (rest: seq<string>)
    ensures rest == Unaddressed(tokens)
  {
    hide WithoutLeadingNames, WithoutTrailingNames, IsParlumeName;
    var start := 0;
    var end := |tokens|;
    assert tokens[0..] == tokens;
    while start < end && IsParlumeName(tokens[start])
      invariant 0 <= start <= end
      invariant WithoutLeadingNames(tokens) == WithoutLeadingNames(tokens[start..])
    {
      LeadingWord(tokens[start..]);
      assert tokens[start..][1..] == tokens[start + 1..];
      start := start + 1;
    }
    LeadingWord(tokens[start..]);
    assert tokens[start..end] == tokens[start..];
    while end > start && IsParlumeName(tokens[end - 1])
      invariant start <= end <= |tokens|
      invariant WithoutTrailingNames(tokens[start..]) == WithoutTrailingNames(tokens[start..end])
    {
      TrailingWord(tokens[start..end]);
      assert tokens[start..end][..end - 1 - start] == tokens[start..end - 1];
      end := end - 1;
    }
    TrailingWord(tokens[start..end]);
    return tokens[start..end];
  }

  method NamePhrases(tokens: seq<string>) returns (names: seq<Phrase<string>>)
    ensures names == Names(tokens)
  {
    names := [];
    for i := 0 to |tokens|
      invariant names + Names(tokens[i..]) == Names(tokens)
    {
      assert tokens[i..][1..] == tokens[i + 1..];
      if IsParlumeName(tokens[i]) {
        names := names + [[tokens[i]]];
      }
    }
    assert tokens[|tokens|..] == [];
  }

  /**
   * What `text` means: a cancel exactly when its words, with Parlume's name taken off, are cancel
   * phrases and filler; otherwise nothing exactly when it is one word or only acknowledgement.
   * `words` cuts a text into its words, and `wake` is the request after a wake phrase.
   */
  method ClassifyBargeIn(text: string, words: string -> seq<string>, wake: string -> Option<string>)
    returns (meaning: BargeIn)
    ensures meaning == Cancel <==>
              Composed(
                Unaddressed(words(match wake(text) case Some(request) => request case None => text)),
                CANCEL, CANCEL_FILLER)
    ensures meaning == Ignore <==>
              && meaning != Cancel
              && (|words(text)| < 2 || Composed(words(text), BACKCHANNEL, Names(words(text))))
  {
    CancelIsUnambiguous();
    var request := match wake(text) case Some(request) => request case None => text;
    var unaddressed := TakeOffNames(words(request));
    var cancels := ConsistsOf(unaddressed, CANCEL, CANCEL_FILLER);
    if cancels {
      return Cancel;
    }
    var tokens := words(text);
    if |tokens| < 2 {
      return Ignore;
    }
    BackchannelIsUnambiguous(tokens);
    var names := NamePhrases(tokens);
    var acknowledges := ConsistsOf(tokens, BACKCHANNEL, names);
    return if acknowledges then Ignore else Speech;
  }
}
