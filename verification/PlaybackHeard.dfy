/** When the count of sentences heard is right, and runs in which it is not. */
module PlaybackHeard {
  import opened PlaybackSpec
  import opened PlaybackTheorems
  import opened Wrappers

  lemma {:induction false} AllPlaces(items: seq<Item>)
    requires Foreign !in items
    ensures |Places(items)| == |items|
  {
    if items != [] {
      AllPlaces(items[..|items| - 1]);
      assert items[|items| - 1] in items;
    }
  }

  // ---- Other audio only before the reply's own ----

  predicate HasOwn(items: seq<Item>) { exists i :: 0 <= i < |items| && items[i].Own? }

  /** Other audio comes before the reply's own. */
  ghost predicate OwnLast(items: seq<Item>) {
    forall i, j :: 0 <= i < j < |items| && items[i].Own? ==> items[j].Own?
  }

  ghost predicate InOrder(o: Outlet) {
    && OwnLast(o.waiting)
    && (HasOwn(o.sent) ==> Foreign !in o.waiting && Foreign !in o.dropped)
    && (o.dropped != [] ==> !HasOwn(o.waiting))
  }

  lemma {:induction false} NoOwnPlaces(items: seq<Item>)
    ensures Places(items) == [] <==> !HasOwn(items)
  {
    if items != [] {
      NoOwnPlaces(items[..|items| - 1]);
      assert items[|items| - 1].Own? ==> HasOwn(items);
    }
  }

  lemma SendKeepsOrder(o: Outlet, n: nat)
    requires InOrder(o)
    ensures InOrder(o.Send(n))
  {
    var k := if n <= |o.waiting| then n else |o.waiting|;
    var now, later := o.waiting[..k], o.waiting[k..];
    assert forall i :: 0 <= i < |later| ==> later[i] == o.waiting[k + i];
    if HasOwn(now) {
      assert HasOwn(o.waiting) && o.dropped == [];
      assert Foreign !in later;
    } else if HasOwn(o.sent + now) {
      assert HasOwn(o.sent);
    }
  }

  lemma ClearKeepsOrder(o: Outlet)
    requires InOrder(o)
    ensures InOrder(o.Clear())
  {
  }

  lemma OwnKeepsOrder(o: Outlet, from: nat, to: nat)
    requires InOrder(o) && o.dropped == [] && from <= to
    ensures InOrder(o.Enqueue(OwnItems(from, to)))
  {
    var items := OwnItems(from, to);
    assert forall i :: 0 <= i < |items| ==> items[i].Own?;
    assert Foreign !in items;
  }

  lemma ForeignKeepsOrder(o: Outlet, n: nat)
    requires InOrder(o) && !HasOwn(o.sent) && !HasOwn(o.waiting)
    ensures InOrder(o.Enqueue(ForeignItems(n)))
  {
  }

  /** Before the reply has given anything, none of its bytes is anywhere. */
  lemma NothingGiven(r: Reply)
    requires Accounted(r) && r.Given() == []
    ensures !HasOwn(r.outlet.sent) && !HasOwn(r.outlet.waiting)
  {
    assert |Places(r.outlet.sent) + Places(r.outlet.dropped) + Places(r.outlet.waiting)| == 0;
    NoOwnPlaces(r.outlet.sent);
    NoOwnPlaces(r.outlet.waiting);
  }

  lemma StepKeepsOrder(r: Reply, e: Event)
    requires Accounted(r) && InOrder(r.outlet) && e != ForeignClear
    requires e.ForeignAudio? ==> r.Given() == []
    ensures InOrder(Step(r, e).outlet)
  {
    hide InOrder, Speech, Samples, CountHeard, Places, OwnItems, ForeignItems;
    hide Outlet.Send, Outlet.Clear, Outlet.Enqueue;
    match e
    case ClipRead(value, done) =>
      if r.PlaysClip() && r.IsCurrent() {
        MoreGiven(r, value);
        OwnKeepsOrder(r.outlet, |r.Given()|, |Speech(r.clips) + Samples(r.part + value)|);
      }
    case MainRuns => ClearKeepsOrder(r.outlet);
    case Silence => ClearKeepsOrder(r.outlet);
    case Sends(n) => SendKeepsOrder(r.outlet, n);
    case ForeignAudio(n) =>
      NothingGiven(r);
      ForeignKeepsOrder(r.outlet, n);
    case _ =>
  }

  lemma MoreGiven(r: Reply, value: seq<byte>)
    ensures |r.Given()| <= |Speech(r.clips) + Samples(r.part + value)|
  {
    hide Speech;
  }

  /** Other audio, such as the silence the outlet opens with, is played only before the reply's first byte. */
  ghost predicate OpensBeforeSpeech(start: Reply, events: seq<Event>) {
    forall i :: 0 <= i < |events| && events[i].ForeignAudio? ==> RunFrom(start, events[..i]).Given() == []
  }

  lemma {:induction false} RunKeepsOrder(current: bool, earlier: nat, events: seq<Event>)
    requires Disciplined(events) && OpensBeforeSpeech(Begin(current, earlier), events)
    ensures InOrder(RunFrom(Begin(current, earlier), events).outlet)
  {
    hide Step, InOrder, Accounted, Invariant;
    if events == [] {
      OpensInOrder(current, earlier);
    } else {
      var front, e := events[..|events| - 1], events[|events| - 1];
      assert forall i :: 0 <= i < |front| ==> front[i] == events[i] && front[..i] == events[..i];
      RunKeepsOrder(current, earlier, front);
      RunKeepsAccounts(current, earlier, front);
      StepKeepsOrder(RunFrom(Begin(current, earlier), front), e);
    }
  }

  lemma OpensInOrder(current: bool, earlier: nat)
    ensures InOrder(Begin(current, earlier).outlet)
  {
  }

  /** So other audio is dropped only while nothing of the reply was sent. */
  lemma DroppedBeforeSpeech(r: Reply)
    requires InOrder(r.outlet)
    ensures ForeignDropped(r) == 0 || OwnSent(r) == 0
  {
    NoOwnPlaces(r.outlet.sent);
    if HasOwn(r.outlet.sent) {
      AllPlaces(r.outlet.dropped);
    }
  }

  lemma {:induction false} FirstEnd(clips: seq<seq<byte>>, n: nat)
    requires 0 < n <= |clips|
    ensures End(clips, 1) == |Samples(clips[0])| <= End(clips, n)
  {
    EndsGrow(clips, 1, n);
    assert clips[..1][..0] == [] && clips[..1][0] == clips[0];
    assert Speech(clips[..1]) == Speech([]) + Samples(clips[0]);
  }

  /**
   * On an outlet that plays other audio only before the reply's first byte, whatever it still held
   * at the start: a silenced or completed run counts exactly the leading sentences sent to their
   * end, unless other audio was dropped and the first clip is too short to make a sample.
   */
  lemma {:induction false} HeardIsExact(current: bool, earlier: nat, events: seq<Event>)
    requires Disciplined(events) && OpensBeforeSpeech(Begin(current, earlier), events)
    ensures var before := RunFrom(Begin(current, earlier), events);
            var r := Step(before, MainRuns);
            Returns(before, r) && !r.phase.exit.HandedOver? ==>
              && FullySent(r, r.phase.heard)
              && (Heard(r, r.phase.heard) <==> ForeignDropped(r) == 0 || r.clips == [] || |r.clips[0]| >= 2)
  {
    hide RunFrom, Step, Invariant, Accounted, InOrder, FullySent, Heard, End, ForeignDropped, OwnSent;
    var before := RunFrom(Begin(current, earlier), events);
    RunKeepsAccounts(current, earlier, events);
    RunKeepsOrder(current, earlier, events);
    StepKeepsOrder(before, MainRuns);
    HeardNeverExceedsSent(current, earlier, events);
    StepKeepsAccounts(before, MainRuns);
    NothingAbove(Step(before, MainRuns));
  }

  lemma NothingAbove(r: Reply)
    requires InOrder(r.outlet)
    ensures (forall n: nat :: 0 < n <= |r.clips| && End(r.clips, n) <= OwnSent(r)
               ==> End(r.clips, n) <= OwnSent(r) - ForeignDropped(r))
        <==> ForeignDropped(r) == 0 || r.clips == [] || |r.clips[0]| >= 2
  {
    DroppedBeforeSpeech(r);
    FewerPlaces(r.outlet.dropped);
    hide InOrder, End;
    forall n: nat | 0 < n <= |r.clips|
      ensures End(r.clips, 1) == |Samples(r.clips[0])| <= End(r.clips, n)
    {
      FirstEnd(r.clips, n);
    }
    if r.clips != [] {
      FirstEnd(r.clips, 1);
    }
  }

  predicate NoForeignAudio(events: seq<Event>) { forall e :: e in events ==> !e.ForeignAudio? }

  ghost predicate OnlyOwn(o: Outlet) {
    Foreign !in o.sent && Foreign !in o.waiting && Foreign !in o.dropped
  }

  lemma StepOnlyOwn(r: Reply, e: Event)
    requires OnlyOwn(r.outlet) && !e.ForeignAudio?
    ensures OnlyOwn(Step(r, e).outlet)
  {
    hide Speech, CountHeard, Places;
    if e.ClipRead? && r.PlaysClip() && r.Read(e.value, e.done).outlet != r.outlet {
      var items := OwnItems(|r.Given()|, |Speech(r.clips) + Samples(r.part + e.value)|);
      assert forall i :: 0 <= i < |items| ==> items[i].Own?;
      assert Foreign !in items;
    }
    if e.Sends? {
      var k := if e.n <= |r.outlet.waiting| then e.n else |r.outlet.waiting|;
      assert r.outlet.waiting == r.outlet.waiting[..k] + r.outlet.waiting[k..];
    }
  }

  lemma {:induction false} NothingForeign(current: bool, events: seq<Event>)
    requires NoForeignAudio(events)
    ensures OnlyOwn(RunFrom(Begin(current, 0), events).outlet)
  {
    if events != [] {
      hide Step, OnlyOwn;
      NothingForeign(current, events[..|events| - 1]);
      StepOnlyOwn(RunFrom(Begin(current, 0), events[..|events| - 1]), events[|events| - 1]);
    }
  }

  /** On an outlet that was empty and plays nothing else, the count is exact for every clip. */
  lemma {:induction false} HeardIsExactAlone(current: bool, events: seq<Event>)
    requires Disciplined(events) && NoForeignAudio(events)
    ensures var before := RunFrom(Begin(current, 0), events);
            var r := Step(before, MainRuns);
            Returns(before, r) && !r.phase.exit.HandedOver? ==> Heard(r, r.phase.heard)
  {
    hide Step, RunFrom, Heard, FullySent, End;
    HeardNeverExceedsSent(current, 0, events);
    NothingForeign(current, events + [MainRuns]);
    RunMore(Begin(current, 0), events, MainRuns);
    AllPlaces(RunFrom(Begin(current, 0), events + [MainRuns]).outlet.dropped);
  }

  // ---- After a failed synthesis ----

  function OwnWaiting(r: Reply): nat { |Places(r.outlet.waiting)| }

  /** The reply's bytes still waiting, less the other audio dropped, reach from what was sent over no sentence's end. */
  ghost predicate NoEndBetween(r: Reply) {
    forall n: nat :: 0 < n <= |r.clips| ==>
      (End(r.clips, n) <= OwnSent(r)) == (End(r.clips, n) <= OwnSent(r) + OwnWaiting(r) - ForeignDropped(r))
  }

  lemma CountedBytes(r: Reply)
    requires Accounted(r)
    ensures |r.Given()| - |r.outlet.dropped| == OwnSent(r) + OwnWaiting(r) - ForeignDropped(r)
  {
    assert |Places(r.outlet.sent) + Places(r.outlet.dropped) + Places(r.outlet.waiting)| == |r.Given()|;
  }

  /** What a count of the bytes not dropped makes of a reply with bytes still waiting. */
  lemma CountWithAQueue(r: Reply)
    requires Accounted(r)
    ensures var counted := CountHeard(r.clips, |r.Given()| - |r.outlet.dropped|, 0);
            && counted <= |r.clips|
            && End(r.clips, counted) <= OwnSent(r) + OwnWaiting(r)
            && (Heard(r, counted) <==> NoEndBetween(r))
  {
    CountedBytes(r);
    FewerPlaces(r.outlet.dropped);
    var bytes := OwnSent(r) + OwnWaiting(r) - ForeignDropped(r);
    CountHeardMeaning(r.clips, bytes, 0);
    var counted := CountHeard(r.clips, bytes, 0);
    FullySentIff(r, counted);
    FullySentIff(r, counted + 1);
    hide Accounted, FullySent, CountHeard, End, OwnSent, OwnWaiting, ForeignDropped;
    NothingSpoken(r.clips);
    forall n: nat | 0 < n <= |r.clips|
      ensures n <= counted ==> End(r.clips, n) <= End(r.clips, counted)
      ensures counted < n ==> End(r.clips, counted + 1) <= End(r.clips, n)
    {
      if n <= counted {
        EndsGrow(r.clips, n, counted);
      } else {
        EndsGrow(r.clips, counted + 1, n);
      }
    }
  }

  lemma NothingSpoken(clips: seq<seq<byte>>)
    ensures End(clips, 0) == 0
  {
    assert clips[..0] == [];
  }

  /**
   * A run handed over after a failed synthesis counts before its audio has flushed. It counts
   * exactly the leading sentences sent to their end when the reply's bytes still waiting and the
   * other audio dropped move the count over no sentence's end; and for a reply still current, when
   * nothing waits but samples of the clip that failed.
   */
  lemma {:induction false} HandedOverCountsTheQueue(current: bool, earlier: nat, events: seq<Event>)
    requires Disciplined(events)
    ensures var before := RunFrom(Begin(current, earlier), events);
            var r := Step(before, MainRuns);
            Returns(before, r) && r.phase.exit.HandedOver? ==>
              && r.phase.heard <= |r.clips|
              && End(r.clips, r.phase.heard) <= OwnSent(r) + OwnWaiting(r)
              && (Heard(r, r.phase.heard) <==> NoEndBetween(r))
              && (r.current ==> (Heard(r, r.phase.heard) <==> OwnWaiting(r) <= |Samples(r.part)|))
  {
    var before := RunFrom(Begin(current, earlier), events);
    hide Step, Accounted, Invariant, Heard, RunFrom, End, OwnSent, OwnWaiting, ForeignDropped, Samples;
    RunKeepsAccounts(current, earlier, events);
    StepKeepsAccounts(before, MainRuns);
    HandedOverCounts(before);
  }

  lemma HandedOverCounts(before: Reply)
    requires Accounted(before) && Accounted(Step(before, MainRuns))
    ensures var r := Step(before, MainRuns);
            Returns(before, r) && r.phase.exit.HandedOver? ==>
              && r.phase.heard <= |r.clips|
              && End(r.clips, r.phase.heard) <= OwnSent(r) + OwnWaiting(r)
              && (Heard(r, r.phase.heard) <==> NoEndBetween(r))
              && (r.current ==> (Heard(r, r.phase.heard) <==> OwnWaiting(r) <= |Samples(r.part)|))
  {
    hide Heard, CountHeard, Places, Speech, End, Samples, OwnSent, OwnWaiting;
    var r := Step(before, MainRuns);
    if Returns(before, r) && r.phase.exit.HandedOver? {
      CountWithAQueue(r);
      if r.current {
        assert r.outlet.dropped == [];
        NoPlaces();
        CurrentQueue(r);
      }
    }
  }

  lemma CurrentQueue(r: Reply)
    requires Accounted(r) && ForeignDropped(r) == 0 && r.outlet.dropped == []
    ensures NoEndBetween(r) <==> OwnWaiting(r) <= |Samples(r.part)|
  {
    CountedBytes(r);
    hide Accounted, OwnSent, OwnWaiting, ForeignDropped, Samples, Speech;
    assert r.clips[..|r.clips|] == r.clips;
    forall n: nat | n <= |r.clips|
      ensures End(r.clips, n) <= End(r.clips, |r.clips|) == |Speech(r.clips)| <= |r.Given()|
    {
      EndsGrow(r.clips, n, |r.clips|);
    }
    NothingSpoken(r.clips);
    assert |r.Given()| == End(r.clips, |r.clips|) + |Samples(r.part)|;
  }

  // ---- Runs that miscount ----

  /** The reply with one more whole clip played at once. */
  lemma PlaysWhole(r: Reply, clip: seq<byte>)
    requires r.PlaysClip() && r.IsCurrent() && r.part == [] && 0 < |clip| <= MAX_CLIP_BYTES
    ensures Step(r, ClipRead(clip, true)) == PlayedClip(r, clip)
    ensures Speech(PlayedClip(r, clip).clips) == Speech(r.clips) + Samples(clip)
  {
    hide Reply.Read, Taking, PlayedClip, Speech, Samples;
    TakingNothing(r);
    assert [] + clip == clip;
    ReadOne(r, [], clip, true);
    ReadIsStep(r, clip, true);
    PlayedIs(r, clip);
    SpeechMore(r.clips, clip);
  }

  lemma PlayedIs(r: Reply, clip: seq<byte>)
    ensures var from := |Speech(r.clips)|;
            PlayedClip(r, clip) == r.(clips := r.clips + [clip], part := [],
              outlet := r.outlet.Enqueue(OwnItems(from, from + |Samples(clip)|)))
  {
    hide Speech, Samples;
  }

  /** The first sentence's clip is played, the second's fails. */
  function SecondClipFails(clip: seq<byte>): seq<Event> {
    [SentenceArrives, ClipRead(clip, true), SentenceArrives, ClipFails] + [SourceEnds]
  }

  /** Then the first sentence counts as heard though not a byte of it was sent. */
  lemma UnsentSentenceCounts(clip: seq<byte>)
    requires 2 <= |clip| <= MAX_CLIP_BYTES
    ensures var before := RunFrom(Begin(true, 0), SecondClipFails(clip));
            var r := Step(before, MainRuns);
            Returns(before, r) && r.phase.exit.HandedOver? && r.phase.heard == 1 && !FullySent(r, 1)
  {
    RunOfFour(Begin(true, 0), SentenceArrives, ClipRead(clip, true), SentenceArrives, ClipFails);
    RunMore(Begin(true, 0), [SentenceArrives, ClipRead(clip, true), SentenceArrives, ClipFails], SourceEnds);
    hide RunFrom, SecondClipFails, Speech, Samples, Places, OwnItems, CountHeard, FullySent, PlayedClip;
    var r1 := Step(Begin(true, 0), SentenceArrives);
    NothingSaid();
    PlaysWhole(r1, clip);
    PlayedIs(r1, clip);
    var r2 := PlayedClip(r1, clip);
    assert r2.clips == [clip];
    FailsUnsent(r2, clip);
  }

  lemma NothingSaid()
    ensures Speech([]) == [] && Samples([]) == []
  {
  }

  lemma FailsUnsent(r: Reply, clip: seq<byte>)
    requires r.phase.Playing? && r.source.Reading? && r.current && r.chain.Running? && r.failedAt.None?
    requires r.requested == 1 && r.clips == [clip] && r.part == [] && |clip| >= 2
    requires r.outlet.sent == [] && r.outlet.dropped == []
    ensures var s := Step(Step(Step(r, SentenceArrives), ClipFails), SourceEnds);
            var t := Step(s, MainRuns);
            Returns(s, t) && t.phase.exit.HandedOver? && t.phase.heard == 1 && !FullySent(t, 1)
  {
    hide Speech, Places, CountHeard, FullySent, Samples;
    var s := Step(Step(Step(r, SentenceArrives), ClipFails), SourceEnds);
    assert s == r.(requested := 2, chain := Failed, failedAt := Some(1), source := Exhausted);
    NothingSaid();
    OneCounts(clip);
    assert s.Given() == Speech([clip]) + [] == Speech([clip]);
    NothingSent(Step(s, MainRuns), clip);
  }

  lemma OneCounts(clip: seq<byte>)
    ensures CountHeard([clip], |Speech([clip])|, 0) == 1
  {
    assert [clip][..1] == [clip];
    assert End([clip], 1) == |Speech([clip])|;
    assert CountHeard([clip], |Speech([clip])|, 1) == 1;
  }

  lemma NothingSent(r: Reply, clip: seq<byte>)
    requires r.clips == [clip] && |clip| >= 2 && r.outlet.sent == []
    ensures !FullySent(r, 1)
  {
    NoPlaces();
    hide Places;
    FirstEnd(r.clips, 1);
    hide End;
    assert |Samples(clip)| > 0;
    var place: nat := 0;
    assert place < End(r.clips, 1) && place !in Places(r.outlet.sent);
  }

  /**
   * A sentence is sent whole, so that the outlet falls idle; with the next sentence it opens again
   * with `silence` bytes, and is cleared.
   */
  function OpensAgain(earlier: nat, one: seq<byte>, other: seq<byte>, silence: nat): seq<Event> {
    [SentenceArrives, ClipRead(one, true), Sends(earlier + |one|), SentenceArrives,
     ForeignAudio(silence), ClipRead(other, true), Silence, SourceEnds]
  }

  /**
   * Then the first sentence is not counted, though it was sent to its end: for all clips, whatever
   * was sent before them, and any silence. An outlet that sends whole frames of 4,800 bytes and
   * opens with 14,400 does this when the first sentence fills its frames.
   */
  lemma OpeningSilenceHidesASentence(earlier: nat, one: seq<byte>, other: seq<byte>, silence: nat)
    requires 2 <= |one| <= MAX_CLIP_BYTES && 0 < |other| <= MAX_CLIP_BYTES && silence > 0
    ensures var before := RunFrom(Begin(true, earlier), OpensAgain(earlier, one, other, silence));
            var r := Step(before, MainRuns);
            && Returns(before, r) && r.phase.exit.Cleared?
            && r.phase.heard == 0 && FullySent(r, 1)
  {
    RunOfEight(Begin(true, earlier), SentenceArrives, ClipRead(one, true), Sends(earlier + |one|), SentenceArrives,
               ForeignAudio(silence), ClipRead(other, true), Silence, SourceEnds);
    hide RunFrom, OpensAgain, Speech, Samples, Places, OwnItems, ForeignItems, CountHeard, FullySent, PlayedClip;
    var r1 := Step(Begin(true, earlier), SentenceArrives);
    NothingSaid();
    PlaysWhole(r1, one);
    PlayedIs(r1, one);
    var r2 := PlayedClip(r1, one);
    assert r2.clips == [one];
    SentWhole(earlier, one);
    var r3 := Step(r2, Sends(earlier + |one|));
    assert r3 == r2.(outlet := Outlet(ForeignItems(earlier) + OwnItems(0, |Samples(one)|), [], []));
    assert Speech(r3.clips) == Samples(one);
    SecondSilenced(r3, one, other, earlier, silence);
  }

  /** Sending as many bytes as there are sends them all. */
  lemma SentWhole(earlier: nat, one: seq<byte>)
    ensures var items := ForeignItems(earlier) + OwnItems(0, |Samples(one)|);
            && Outlet([], items, []).Send(earlier + |one|) == Outlet(items, [], [])
            && Outlet([], ForeignItems(earlier), []).Enqueue(OwnItems(0, |Samples(one)|)) == Outlet([], items, [])
  {
    var items := ForeignItems(earlier) + OwnItems(0, |Samples(one)|);
    assert |items| <= earlier + |one|;
    assert items[..|items|] == items && [] + items == items;
  }

  lemma SecondSilenced(r: Reply, one: seq<byte>, other: seq<byte>, earlier: nat, silence: nat)
    requires r.phase.Playing? && r.source.Reading? && r.current && r.chain.Running? && r.failedAt.None?
    requires r.requested == 1 && r.clips == [one] && r.part == [] && Speech(r.clips) == Samples(one)
    requires 2 <= |one| && 0 < |other| <= MAX_CLIP_BYTES && silence > 0
    requires r.outlet == Outlet(ForeignItems(earlier) + OwnItems(0, |Samples(one)|), [], [])
    ensures var s := Step(Step(Step(Step(Step(r, SentenceArrives), ForeignAudio(silence)),
                       ClipRead(other, true)), Silence), SourceEnds);
            var t := Step(s, MainRuns);
            && Returns(s, t) && t.phase.exit.Cleared? && t.phase.heard == 0 && FullySent(t, 1)
  {
    hide Speech, Samples, Places, OwnItems, ForeignItems, CountHeard, FullySent, PlayedClip;
    var r5 := Step(Step(r, SentenceArrives), ForeignAudio(silence));
    assert r5 == r.(requested := 2, outlet := r.outlet.Enqueue(ForeignItems(silence)));
    PlaysWhole(r5, other);
    PlayedIs(r5, other);
    var r6 := PlayedClip(r5, other);
    var r8 := Step(Step(r6, Silence), SourceEnds);
    assert r8 == r6.(current := false, source := Exhausted, outlet := r6.outlet.Clear());
    DroppedTogether(|Samples(one)|, |Samples(other)|, silence);
    assert r8.clips == [one, other];
    SilencedAfterOne(r8, one, other, earlier, silence);
  }

  lemma DroppedTogether(from: nat, more: nat, silence: nat)
    ensures |[] + ForeignItems(silence) + OwnItems(from, from + more)| == silence + more
  {
  }

  lemma SilencedAfterOne(before: Reply, one: seq<byte>, other: seq<byte>, earlier: nat, silence: nat)
    requires before.Finished() && !before.current && before.source.Exhausted? && before.failedAt.None?
    requires before.requested == 2 && before.clips == [one, other] && before.part == []
    requires Speech(before.clips) == Samples(one) + Samples(other) && |one| >= 2 && silence > 0
    requires before.outlet.sent == ForeignItems(earlier) + OwnItems(0, |Samples(one)|)
    requires before.outlet.waiting == [] && |before.outlet.dropped| == silence + |Samples(other)|
    ensures var r := Step(before, MainRuns);
            && Returns(before, r) && r.phase.exit.Cleared? && r.phase.heard == 0 && FullySent(r, 1)
  {
    hide Speech, Samples, Places, OwnItems, ForeignItems, FullySent, End;
    NothingSaid();
    assert before.Given() == Samples(one) + Samples(other);
    FirstEnd(before.clips, 1);
    FirstSent(Step(before, MainRuns), one, earlier);
  }

  lemma FirstSent(r: Reply, one: seq<byte>, earlier: nat)
    requires r.clips != [] && r.clips[0] == one
    requires r.outlet.sent == ForeignItems(earlier) + OwnItems(0, |Samples(one)|)
    ensures FullySent(r, 1)
  {
    hide Places, Samples, OwnItems, ForeignItems;
    PlacesCut(ForeignItems(earlier), OwnItems(0, |Samples(one)|));
    PlacesOfForeign(earlier);
    PlacesOfOwn(0, |Samples(one)|);
    FirstEnd(r.clips, 1);
    hide End;
    assert [] + UpTo(|Samples(one)|)[0..] == UpTo(|Samples(one)|);
    forall place: nat | place < End(r.clips, 1)
      ensures place in Places(r.outlet.sent)
    {
      assert UpTo(|Samples(one)|)[place] == place;
    }
  }

  // ---- `complete` when currency comes back ----

  /** A sentence arrives while the reply is not current, so that the rest is never asked for. */
  predicate ArrivesUnheard(r: Reply, e: Event) {
    e.SentenceArrives? && r.phase.Playing? && r.source.Reading? && !r.current
  }

  predicate BrokeOff(start: Reply, events: seq<Event>) {
    && events != []
    && (|| BrokeOff(start, events[..|events| - 1])
        || ArrivesUnheard(RunFrom(start, events[..|events| - 1]), events[|events| - 1]))
  }

  ghost predicate Breaks(r: Reply, broke: bool) {
    && (r.source in {Breaking, Broken} ==> broke || r.failedAt.Some?)
    && (broke ==> r.source in {Breaking, Broken, Withdrawn})
  }

  lemma StepBreaks(r: Reply, e: Event, broke: bool)
    requires Breaks(r, broke)
    ensures Breaks(Step(r, e), broke || ArrivesUnheard(r, e))
  {
    hide Speech, Samples, Places, CountHeard, OwnItems;
  }

  lemma {:induction false} RunBreaks(current: bool, earlier: nat, events: seq<Event>)
    ensures Breaks(RunFrom(Begin(current, earlier), events), BrokeOff(Begin(current, earlier), events))
  {
    hide Step, Breaks;
    if events == [] {
      BeginBreaks(current, earlier);
    } else {
      var front, e := events[..|events| - 1], events[|events| - 1];
      RunBreaks(current, earlier, front);
      StepBreaks(RunFrom(Begin(current, earlier), front), e, BrokeOff(Begin(current, earlier), front));
    }
  }

  lemma BeginBreaks(current: bool, earlier: nat)
    ensures Breaks(Begin(current, earlier), false)
  {
  }

  /**
   * Whatever the environment does, currency coming back included: a run that reports itself
   * complete has exhausted its source exactly when no sentence arrived while it was not current.
   */
  lemma {:induction false} CompleteIsAllExactly(current: bool, earlier: nat, events: seq<Event>)
    ensures var before := RunFrom(Begin(current, earlier), events);
            var r := Step(before, MainRuns);
            Returns(before, r) && r.phase.complete ==>
              (r.source.Exhausted? <==> !BrokeOff(Begin(current, earlier), events))
  {
    hide RunFrom, Step, Invariant, Breaks, BrokeOff;
    RunKeepsInvariant(Begin(current, earlier), events);
    RunBreaks(current, earlier, events);
    CompleteSource(RunFrom(Begin(current, earlier), events), BrokeOff(Begin(current, earlier), events));
  }

  lemma CompleteSource(before: Reply, broke: bool)
    requires Invariant(before) && Breaks(before, broke)
    ensures var r := Step(before, MainRuns);
            Returns(before, r) && r.phase.complete ==> (r.source.Exhausted? <==> !broke)
  {
    hide Speech, Samples, Places, CountHeard;
  }

  /** Currency is lost while the second sentence arrives, and comes back. */
  function LostAndRegained(clip: seq<byte>): seq<Event> {
    [SentenceArrives, ClipRead(clip, true), LoseCurrency, SentenceArrives,
     RegainCurrency, SourceEnds, MainRuns, Sends(|clip|)]
  }

  /** Such a run: it reports itself complete with the rest never asked for. */
  lemma RegainedCurrencyHidesARest(clip: seq<byte>)
    requires 0 < |clip| <= MAX_CLIP_BYTES
    ensures var before := RunFrom(Begin(true, 0), LostAndRegained(clip));
            var r := Step(before, MainRuns);
            Returns(before, r) && r.phase.complete && r.source.Broken?
  {
    RunOfEight(Begin(true, 0), SentenceArrives, ClipRead(clip, true), LoseCurrency, SentenceArrives,
               RegainCurrency, SourceEnds, MainRuns, Sends(|clip|));
    hide RunFrom, CountHeard, Speech, Samples, Places, OwnItems, LostAndRegained, PlayedClip;
    var r1 := Step(Begin(true, 0), SentenceArrives);
    NothingSaid();
    PlaysWhole(r1, clip);
    PlayedIs(r1, clip);
    QueuedIs(clip);
    BrokenOff(PlayedClip(r1, clip), |clip|);
  }

  lemma QueuedIs(clip: seq<byte>)
    ensures |ForeignItems(0) + OwnItems(0, |Samples(clip)|)| <= |clip|
  {
  }

  lemma BrokenOff(r: Reply, sends: nat)
    requires r.phase.Playing? && r.source.Reading? && r.current && r.chain.Running? && r.failedAt.None?
    requires r.requested == |r.clips| == 1 && |r.outlet.waiting| <= sends
    ensures var s := Step(Step(Step(Step(Step(Step(r, LoseCurrency), SentenceArrives),
                       RegainCurrency), SourceEnds), MainRuns), Sends(sends));
            var t := Step(s, MainRuns);
            Returns(s, t) && t.phase.complete && t.source.Broken?
  {
    hide CountHeard, Speech, Samples, Places;
    var r4 := Step(Step(r, LoseCurrency), SentenceArrives);
    assert r4 == r.(current := false, source := Breaking);
    var r6 := Step(Step(r4, RegainCurrency), SourceEnds);
    assert r6 == r.(source := Broken);
    var r7 := Step(r6, MainRuns);
    assert r7 == r6.(ends := r6.ends + 1, phase := Draining);
    NoPlaces();
    assert Step(r7, Sends(sends)).outlet.waiting == [];
  }
}
