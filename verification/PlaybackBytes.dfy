/** The bytes handed to the outlet, one by one, and what becomes of them when the reply is silenced. */
module PlaybackBytes {
  import opened PlaybackSpec
  import opened PlaybackTheorems
  import opened PlaybackCuts
  import opened Wrappers

  // ---- Byte for byte ----

  /** Each clip takes up its own length, less an odd trailing byte. */
  lemma EndsExactly(clips: seq<seq<byte>>, i: nat)
    requires i < |clips|
    ensures End(clips, 0) == 0
    ensures End(clips, i + 1) == End(clips, i) + |clips[i]| - |clips[i]| % 2
  {
    assert clips[..0] == [];
    assert clips[..i + 1][..i] == clips[..i];
  }

  /** Byte `j` of clip `i` is byte `j` from where the clip starts. */
  lemma SpeechAt(clips: seq<seq<byte>>, i: nat, j: nat)
    requires i < |clips| && j < |clips[i]| - |clips[i]| % 2
    ensures End(clips, i) + j < |Speech(clips)| && Speech(clips)[End(clips, i) + j] == clips[i][j]
  {
    SpeechCut(clips, i + 1);
    assert clips[..i + 1][..i] == clips[..i];
    assert Speech(clips[..i + 1]) == Speech(clips[..i]) + clips[i][..|clips[i]| - |clips[i]| % 2];
  }

  /** Byte `j` of clip `i`, when it is not an odd trailing one, is in its place in `given`. */
  ghost predicate InPlace(given: seq<byte>, clips: seq<seq<byte>>, i: nat, j: nat)
    requires i < |clips|
  {
    j < |clips[i]| - |clips[i]| % 2 ==> End(clips, i) + j < |given| && given[End(clips, i) + j] == clips[i][j]
  }

  /** `given` is the clips one after the other, each less an odd trailing byte, then the even start of `part`. */
  ghost predicate ByteForByte(given: seq<byte>, clips: seq<seq<byte>>, part: seq<byte>) {
    var end := End(clips, |clips|);
    && |given| == end + |part| - |part| % 2
    && (forall i: nat, j: nat :: i < |clips| ==> InPlace(given, clips, i, j))
    && (forall j :: 0 <= j < |part| - |part| % 2 ==> given[end + j] == part[j])
  }

  lemma GivenByteForByte(r: Reply)
    ensures ByteForByte(r.Given(), r.clips, r.part)
  {
    hide Speech, Samples, Reply.Given, InPlace;
    assert r.clips[..|r.clips|] == r.clips;
    forall i: nat, j: nat | i < |r.clips|
      ensures InPlace(r.Given(), r.clips, i, j)
    {
      ClipInPlace(r, i, j);
    }
    BegunPart(r);
  }

  lemma ClipInPlace(r: Reply, i: nat, j: nat)
    requires i < |r.clips|
    ensures InPlace(r.Given(), r.clips, i, j)
  {
    hide Speech, Samples, End;
    if j < |r.clips[i]| - |r.clips[i]| % 2 {
      SpeechAt(r.clips, i, j);
      assert r.Given()[End(r.clips, i) + j] == Speech(r.clips)[End(r.clips, i) + j];
    }
  }

  lemma BegunPart(r: Reply)
    ensures |r.Given()| == |Speech(r.clips)| + |r.part| - |r.part| % 2
    ensures forall j :: 0 <= j < |r.part| - |r.part| % 2 ==> r.Given()[|Speech(r.clips)| + j] == r.part[j]
  {
    hide Speech;
  }

  /**
   * Over every run, what the outlet was given is, byte for byte, the clips that the reads made, each
   * less an odd trailing byte, and then the even start of the clip begun.
   */
  lemma {:induction false} EveryByteIsTheClips(current: bool, earlier: nat, events: seq<Event>)
    ensures var taken := ReadsOf(Begin(current, earlier), events);
            ByteForByte(RunFrom(Begin(current, earlier), events).Given(), Whole(taken), Begun(taken))
  {
    hide RunFrom, ReadsOf, Whole, Begun, ByteForByte;
    ClipsAreRead(current, earlier, events);
    GivenByteForByte(RunFrom(Begin(current, earlier), events));
  }

  // ---- Reads that fail ----

  /** A read fails the clip exactly when it takes it past 6 MiB, or ends it without a byte. */
  lemma ReadFailsExactly(r: Reply, value: seq<byte>, done: bool)
    requires r.PlaysClip() && r.current && !r.source.Withdrawn?
    requires |r.part| <= 6_291_456
    ensures Step(r, ClipRead(value, done)).chain.Failed?
        <==> |r.part + value| > 6_291_456 || (done && r.part + value == [])
    ensures Step(r, ClipRead(value, done)).chain.Failed? ==> Step(r, ClipRead(value, done)).outlet == r.outlet
  {
    hide Speech, Samples, OwnItems;
    if value == [] {
      assert r.part + value == r.part;
    }
  }

  /** A read of a reply that is not current stops the clips, and takes nothing. */
  lemma ReadIsSilenced(r: Reply, value: seq<byte>, done: bool)
    requires r.PlaysClip() && (!r.current || r.source.Withdrawn?)
    ensures Step(r, ClipRead(value, done)) == r.(chain := Silenced)
  {
  }

  // ---- Requests ----

  /** A sentence that arrives is requested exactly when the reply is current and no synthesis has failed. */
  lemma RequestedExactly(r: Reply)
    requires r.phase.Playing? && r.source.Reading?
    ensures var s := Step(r, SentenceArrives);
            if r.current && r.failedAt.None? then s == r.(requested := r.requested + 1)
            else s.requested == r.requested && s.source.Breaking?
  {
  }

  /** No sentence is requested once the reply stopped being current for good, or a synthesis failed. */
  lemma {:induction false} NothingRequestedAfter(r: Reply, events: seq<Event>)
    requires (!r.current && NeverRegains(events)) || r.failedAt.Some?
    ensures var s := RunFrom(r, events);
            && s.requested == r.requested
            && (r.failedAt.Some? ==> s.failedAt.Some?) && (!r.current && NeverRegains(events) ==> !s.current)
  {
    hide Step;
    if events != [] {
      NothingRequestedAfter(r, events[..|events| - 1]);
      NothingRequestedNext(RunFrom(r, events[..|events| - 1]), events[|events| - 1]);
    }
  }

  lemma NothingRequestedNext(r: Reply, e: Event)
    ensures var s := Step(r, e);
            && (!r.current || r.failedAt.Some? ==> s.requested == r.requested)
            && (r.failedAt.Some? ==> s.failedAt.Some?)
            && (!r.current && e != RegainCurrency ==> !s.current)
  {
    hide Speech, Samples, Places, CountHeard, OwnItems;
  }

  // ---- Silence ----

  /** Whatever clears the outlet drops everything it had not sent, and sends nothing. */
  lemma ClearsExactly(r: Reply, e: Event)
    requires e.Silence? || e.ForeignClear?
    ensures var s := Step(r, e);
            && s.outlet.waiting == [] && s.outlet.sent == r.outlet.sent
            && s.outlet.dropped == r.outlet.dropped + r.outlet.waiting
            && (e.Silence? ==> !s.current)
  {
  }

  /** A reply that is not current and has no byte waiting. */
  predicate Silent(r: Reply) { !r.current && Places(r.outlet.waiting) == [] }

  lemma StaysSilent(r: Reply, e: Event)
    requires Silent(r) && e != RegainCurrency
    ensures Silent(Step(r, e)) && Places(Step(r, e).outlet.sent) == Places(r.outlet.sent)
  {
    hide Places, Speech, Samples, CountHeard, OwnItems, ForeignItems;
    NoPlaces();
    match e
    case Sends(n) =>
      var k := if n <= |r.outlet.waiting| then n else |r.outlet.waiting|;
      PlacesCut(r.outlet.waiting[..k], r.outlet.waiting[k..]);
      assert r.outlet.waiting[..k] + r.outlet.waiting[k..] == r.outlet.waiting;
      assert |Places(r.outlet.waiting[..k]) + Places(r.outlet.waiting[k..])| == 0;
      PlacesCut(r.outlet.sent, r.outlet.waiting[..k]);
    case ForeignAudio(n) =>
      PlacesCut(r.outlet.waiting, ForeignItems(n));
      PlacesOfForeign(n);
    case _ =>
  }

  /** Once a reply was silenced for good, not one more of its bytes is sent, in any run. */
  lemma {:induction false} SilencedForGood(r: Reply, events: seq<Event>)
    requires NeverRegains(events)
    ensures var silenced := Step(r, Silence);
            var s := RunFrom(silenced, events);
            Silent(s) && Places(s.outlet.sent) == Places(r.outlet.sent)
  {
    hide Step, Silent, Places;
    SilencedNow(r);
    if events != [] {
      SilencedForGood(r, events[..|events| - 1]);
      StaysSilent(RunFrom(Step(r, Silence), events[..|events| - 1]), events[|events| - 1]);
    }
  }

  lemma SilencedNow(r: Reply)
    ensures Silent(Step(r, Silence)) && Step(r, Silence).outlet.sent == r.outlet.sent
  {
  }

  // ---- How a reply ends ----

  /**
   * When the sentences and the clips are done: a reply whose sentences failed is cleared and throws;
   * one whose synthesis failed, or that is current with every clip played, ends with its queue kept;
   * any other is cleared.
   */
  lemma EndsHow(r: Reply)
    requires Invariant(r) && r.Finished()
    ensures var s := Step(r, MainRuns);
            if r.source.Withdrawn? then
              s.phase.Thrown? && s.outlet.waiting == [] && s.clears == r.clears + 1 && s.ends == r.ends
            else if r.failedAt.Some? || (r.current && r.chain.Running?) then
              && s.outlet == r.outlet && s.ends == r.ends + 1 && s.clears == r.clears
              && (s.phase.Draining? <==> r.failedAt.None?)
              && s.failedAt == if r.requested == 0 then Some(0) else r.failedAt
            else
              && s.phase.Returned? && !s.phase.complete && s.failedAt.None?
              && s.outlet.waiting == [] && s.clears == r.clears + 1 && s.ends == r.ends
  {
    hide Speech, Samples, Places, CountHeard;
  }
}
