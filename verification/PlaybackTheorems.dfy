/** What every run of a reply keeps, and what its result means. */
module PlaybackTheorems {
  import opened PlaybackSpec
  import opened Sequences
  import opened Wrappers

  // ---- Speech and places ----

  lemma SpeechMore(clips: seq<seq<byte>>, clip: seq<byte>)
    ensures Speech(clips + [clip]) == Speech(clips) + Samples(clip)
  {
    assert (clips + [clip])[..|clips|] == clips;
  }

  lemma {:induction false} SpeechCut(clips: seq<seq<byte>>, n: nat)
    requires n <= |clips|
    ensures Speech(clips[..n]) <= Speech(clips)
    decreases |clips|
  {
    if n < |clips| {
      var front := clips[..|clips| - 1];
      SpeechCut(front, n);
      assert front[..n] == clips[..n];
    } else {
      assert clips[..n] == clips;
    }
  }

  lemma EndsGrow(clips: seq<seq<byte>>, m: nat, n: nat)
    requires m <= n <= |clips|
    ensures End(clips, m) <= End(clips, n) <= |Speech(clips)|
  {
    SpeechCut(clips, n);
    SpeechCut(clips[..n], m);
    assert clips[..n][..m] == clips[..m];
  }

  lemma {:induction false} SpeechIsEven(clips: seq<seq<byte>>)
    ensures |Speech(clips)| % 2 == 0
  {
    if clips != [] {
      SpeechIsEven(clips[..|clips| - 1]);
    }
  }

  lemma {:induction false} CountHeardMeaning(clips: seq<seq<byte>>, bytes: int, n: nat)
    requires n <= |clips|
    requires n > 0 ==> End(clips, n) <= bytes
    ensures var k := CountHeard(clips, bytes, n);
            && n <= k <= |clips|
            && (k > 0 ==> End(clips, k) <= bytes)
            && (k < |clips| ==> bytes < End(clips, k + 1))
    decreases |clips| - n
  {
    if n < |clips| && End(clips, n + 1) <= bytes {
      CountHeardMeaning(clips, bytes, n + 1);
    }
  }

  lemma {:induction false} PlacesCut(a: seq<Item>, b: seq<Item>)
    ensures Places(a + b) == Places(a) + Places(b)
    decreases |b|
  {
    if b == [] {
      assert a + b == a;
    } else {
      assert (a + b)[..|a + b| - 1] == a + b[..|b| - 1];
      PlacesCut(a, b[..|b| - 1]);
    }
  }

  lemma {:induction false} PlacesOfOwn(from: nat, to: nat)
    requires from <= to
    ensures Places(OwnItems(from, to)) == UpTo(to)[from..]
  {
    if from < to {
      PlacesOfOwn(from, to - 1);
      assert OwnItems(from, to)[..to - from - 1] == OwnItems(from, to - 1);
    }
  }

  lemma {:induction false} PlacesOfForeign(n: nat)
    ensures Places(ForeignItems(n)) == []
  {
    if n > 0 {
      PlacesOfForeign(n - 1);
      assert ForeignItems(n)[..n - 1] == ForeignItems(n - 1);
    }
  }

  lemma {:induction false} FewerPlaces(items: seq<Item>)
    ensures |Places(items)| <= |items|
  {
    if items != [] {
      FewerPlaces(items[..|items| - 1]);
    }
  }

  function UpTo(n: nat): seq<nat> { seq(n, i requires 0 <= i => i) }

  lemma SendKeepsPlaces(o: Outlet, n: nat)
    requires Places(o.dropped) == [] || Places(o.waiting) == []
    ensures Places(o.Send(n).sent) + Places(o.Send(n).dropped) + Places(o.Send(n).waiting)
         == Places(o.sent) + Places(o.dropped) + Places(o.waiting)
    ensures o.Send(n).dropped == o.dropped
    ensures Places(o.waiting) == [] ==> Places(o.Send(n).waiting) == []
  {
    hide Places;
    var k := if n <= |o.waiting| then n else |o.waiting|;
    var now, later := o.waiting[..k], o.waiting[k..];
    PlacesCut(o.sent, now);
    PlacesCut(now, later);
    assert now + later == o.waiting;
    MoveAcross(Places(o.sent), Places(o.dropped), Places(now), Places(later));
  }

  lemma MoveAcross<T>(a: seq<T>, b: seq<T>, c: seq<T>, d: seq<T>)
    requires b == [] || c + d == []
    ensures a + c + b + d == a + b + (c + d)
    ensures c + d == [] ==> d == []
  {
    if b != [] {
      assert |c + d| == 0;
      assert c == [] && d == [];
    }
  }

  // ---- What every run keeps, whatever the environment does ----

  ghost predicate Invariant(r: Reply) {
    && |r.clips| <= r.requested
    && |r.part| <= MAX_CLIP_BYTES
    && (r.chain.Failed? <==> r.failedAt.Some? && r.requested > 0)
    && (!r.chain.Running? ==> |r.clips| < r.requested)
    && (r.chain.Failed? ==> r.failedAt == Some(|r.clips| + (if |r.part| >= 2 then 1 else 0)))
    && (r.failedAt.Some? && r.requested == 0 ==> r.failedAt == Some(0) && !r.phase.Playing?)
    && (r.requested == |r.clips| ==> r.part == [])
    && r.ends + r.clears == (if r.phase.Playing? then 0 else 1)
    && (r.phase.Draining? ==> r.chain.Running? && |r.clips| == r.requested && r.source in {Exhausted, Broken})
    && (r.phase.Draining? && r.requested == 0 ==> r.failedAt.Some?)
    && (r.phase.Returned? && r.phase.complete ==> r.phase.exit.Drained?)
    && (r.phase.Thrown? <==> r.source.Withdrawn? && !r.phase.Playing?)
  }

  lemma StepKeepsInvariant(r: Reply, e: Event)
    requires Invariant(r)
    ensures Invariant(Step(r, e))
  {
  }

  lemma {:induction false} RunKeepsInvariant(r: Reply, events: seq<Event>)
    requires Invariant(r)
    ensures Invariant(RunFrom(r, events))
  {
    if events != [] {
      RunKeepsInvariant(r, events[..|events| - 1]);
      StepKeepsInvariant(RunFrom(r, events[..|events| - 1]), events[|events| - 1]);
    }
  }

  /** Only a read while the reply is current hands bytes to the outlet, and then whole samples. */
  lemma OnlyCurrentReadsAreHeard(r: Reply, e: Event)
    requires Invariant(r)
    ensures r.Given() <= Step(r, e).Given()
    ensures |Step(r, e).Given()| % 2 == 0
    ensures Step(r, e).Given() != r.Given() ==> r.IsCurrent() && e.ClipRead? && r.PlaysClip()
  {
    hide Step, Reply.Given;
    if e.ClipRead? && r.PlaysClip() {
      ReadGives(r, e.value, e.done);
    } else {
      OthersGiveNothing(r, e);
    }
    GivenIsEven(Step(r, e));
  }

  lemma GivenIsEven(r: Reply)
    ensures |r.Given()| % 2 == 0
  {
    hide Speech;
    SpeechIsEven(r.clips);
  }

  lemma ReadGives(r: Reply, value: seq<byte>, done: bool)
    requires r.PlaysClip()
    ensures var s := Step(r, ClipRead(value, done));
            r.Given() <= s.Given() && (!r.IsCurrent() ==> s.Given() == r.Given())
  {
    hide Speech, CountHeard, OwnItems, Places, Outlet.Enqueue, Outlet.Clear, Outlet.Send;
    var taken := r.part + value;
    SpeechMore(r.clips, taken);
    assert Samples(r.part) <= Samples(taken);
    assert Samples([]) == [];
  }

  lemma OthersGiveNothing(r: Reply, e: Event)
    requires !(e.ClipRead? && r.PlaysClip())
    ensures Step(r, e).Given() == r.Given()
  {
    hide Speech, CountHeard, OwnItems, Places, Samples, Outlet.Enqueue, Outlet.Clear, Outlet.Send;
  }

  predicate NeverRegains(events: seq<Event>) { RegainCurrency !in events }

  /** Once currency is lost for good, not one more byte is handed to the outlet. */
  lemma {:induction false} NothingAfterLoss(r: Reply, events: seq<Event>)
    requires Invariant(r) && !r.current && NeverRegains(events)
    ensures !RunFrom(r, events).current && RunFrom(r, events).Given() == r.Given()
  {
    if events != [] {
      var front := events[..|events| - 1];
      NothingAfterLoss(r, front);
      RunKeepsInvariant(r, front);
      OnlyCurrentReadsAreHeard(RunFrom(r, front), events[|events| - 1]);
    }
  }

  /** Every run ends the outlet's reply or clears it, once, and only when it is done playing. */
  lemma {:induction false} OneEnding(current: bool, earlier: nat, events: seq<Event>)
    ensures var r := RunFrom(Begin(current, earlier), events);
            && r.ends + r.clears == (if r.phase.Playing? then 0 else 1)
            && (r.Over() ==> r.ends + r.clears == 1)
            && (r.phase.Thrown? ==> r.clears == 1)
  {
    RunKeepsInvariant(Begin(current, earlier), events);
    ThrownClears(Begin(current, earlier), events);
  }

  lemma {:induction false} ThrownClears(r: Reply, events: seq<Event>)
    requires Invariant(r) && r.phase.Playing?
    ensures var s := RunFrom(r, events);
            && (s.phase.Playing? ==> s.ends == r.ends && s.clears == r.clears)
            && (s.phase.Thrown? ==> s.clears == r.clears + 1)
  {
    hide Invariant, Step;
    if events != [] {
      ThrownClears(r, events[..|events| - 1]);
      RunKeepsInvariant(r, events[..|events| - 1]);
      ThrowClears(RunFrom(r, events[..|events| - 1]), events[|events| - 1]);
    }
  }

  lemma ThrowClears(r: Reply, e: Event)
    requires Invariant(r)
    ensures var s := Step(r, e);
            && (s.phase.Playing? ==> r.phase.Playing? && s.ends == r.ends && s.clears == r.clears)
            && (s.phase.Thrown? ==> s.clears == if r.phase.Playing? then r.clears + 1 else r.clears)
            && (s.phase.Thrown? && !r.phase.Playing? ==> r.phase.Thrown?)
  {
    hide Speech, CountHeard, Samples, OwnItems, Places;
  }

  // ---- A failed synthesis can be resumed at `failedAt` ----

  /** What sentence `i` put at the outlet. */
  function Contribution(r: Reply, i: nat): seq<byte> {
    if i < |r.clips| then Samples(r.clips[i])
    else if i == |r.clips| then Samples(r.part)
    else []
  }

  function Contributions(r: Reply, n: nat): seq<byte> {
    if n == 0 then [] else Contributions(r, n - 1) + Contribution(r, n - 1)
  }

  lemma {:induction false} ContributionsAreGiven(r: Reply, n: nat)
    ensures n <= |r.clips| ==> Contributions(r, n) == Speech(r.clips[..n])
    ensures n > |r.clips| ==> Contributions(r, n) == r.Given()
  {
    if n > 0 {
      ContributionsAreGiven(r, n - 1);
      if n <= |r.clips| {
        assert r.clips[..n] == r.clips[..n - 1] + [r.clips[n - 1]];
        SpeechMore(r.clips[..n - 1], r.clips[n - 1]);
      } else {
        assert r.clips[..|r.clips|] == r.clips;
      }
    }
  }

  /**
   * When synthesis failed, every sentence before `failedAt` was played, to its end or, for the last
   * of them, in part; none from `failedAt` on contributed a byte. So speaking on from there
   * skips nothing and repeats nothing.
   */
  lemma {:induction false} FailureResumes(current: bool, earlier: nat, events: seq<Event>)
    ensures var r := RunFrom(Begin(current, earlier), events);
            r.failedAt.Some? ==>
              var f := r.failedAt.value;
              && |r.clips| <= f <= |r.clips| + 1 && f <= r.requested
              && (f > |r.clips| ==> Contribution(r, f - 1) != [])
              && (forall i: nat :: f <= i ==> Contribution(r, i) == [])
              && Contributions(r, f) == r.Given()
  {
    hide Invariant, Step, RunFrom, Contributions, Contribution;
    RunKeepsInvariant(Begin(current, earlier), events);
    if RunFrom(Begin(current, earlier), events).failedAt.Some? {
      FailurePoint(RunFrom(Begin(current, earlier), events));
    }
  }

  lemma FailurePoint(r: Reply)
    requires Invariant(r) && r.failedAt.Some?
    ensures var f := r.failedAt.value;
            && |r.clips| <= f <= |r.clips| + 1 && f <= r.requested
            && (f > |r.clips| ==> Contribution(r, f - 1) != [])
            && (forall i: nat :: f <= i ==> Contribution(r, i) == [])
            && Contributions(r, f) == r.Given()
  {
    hide Contributions, Speech;
    ContributionsAreGiven(r, r.failedAt.value);
    assert r.clips[..|r.clips|] == r.clips;
    if r.failedAt.value == |r.clips| {
      assert Samples(r.part) == [];
    }
  }

  // ---- How a clip is cut into chunks does not matter ----

  function Reads(chunks: seq<seq<byte>>): seq<Event> {
    seq(|chunks|, i requires 0 <= i < |chunks| => ClipRead(chunks[i], false)) + [ClipRead([], true)]
  }

  /** The reply with `taken` of its next clip taken. */
  function Taking(r: Reply, taken: seq<byte>): Reply {
    var from := |Speech(r.clips)|;
    r.(part := taken, outlet := r.outlet.Enqueue(OwnItems(from, from + |Samples(taken)|)))
  }

  /** The reply with the whole clip `clip` played. */
  function PlayedClip(r: Reply, clip: seq<byte>): Reply {
    Taking(r, clip).(clips := r.clips + [clip], part := [])
  }

  lemma EnqueueTwice(o: Outlet, from: nat, mid: nat, to: nat)
    requires from <= mid <= to
    ensures o.Enqueue(OwnItems(from, mid)).Enqueue(OwnItems(mid, to)) == o.Enqueue(OwnItems(from, to))
  {
    assert OwnItems(from, mid) + OwnItems(mid, to) == OwnItems(from, to);
    assert o.waiting + OwnItems(from, mid) + OwnItems(mid, to) == o.waiting + OwnItems(from, to);
  }

  lemma ReadOne(r: Reply, taken: seq<byte>, chunk: seq<byte>, done: bool)
    requires r.PlaysClip() && r.IsCurrent() && |taken + chunk| <= MAX_CLIP_BYTES
    requires done ==> taken + chunk != []
    ensures Taking(r, taken).PlaysClip()
    ensures Taking(r, taken).Read(chunk, done)
         == if done then PlayedClip(r, taken + chunk) else Taking(r, taken + chunk)
  {
    hide Speech, OwnItems, Outlet.Enqueue;
    var from := |Speech(r.clips)|;
    EnqueueTwice(r.outlet, from, from + |Samples(taken)|, from + |Samples(taken + chunk)|);
  }

  lemma {:induction false} ReadChunks(r: Reply, chunks: seq<seq<byte>>)
    requires r.PlaysClip() && r.IsCurrent() && r.part == [] && |Join(chunks)| <= MAX_CLIP_BYTES
    ensures RunFrom(r, Reads(chunks)[..|chunks|]) == Taking(r, Join(chunks))
  {
    hide Taking, Reply.Read;
    var script := Reads(chunks)[..|chunks|];
    if chunks == [] {
      TakingNothing(r);
    } else {
      var front := chunks[..|chunks| - 1];
      ReadChunks(r, front);
      assert script[..|script| - 1] == Reads(front)[..|front|];
      ReadOne(r, Join(front), chunks[|chunks| - 1], false);
    }
  }

  lemma TakingNothing(r: Reply)
    requires r.part == []
    ensures Taking(r, []) == r
  {
    assert r.outlet.waiting + [] == r.outlet.waiting;
  }

  /** Every chunking of a clip leaves the same reply and the same outlet as the clip in one piece. */
  lemma ChunkingDoesNotMatter(r: Reply, chunks: seq<seq<byte>>)
    requires r.PlaysClip() && r.IsCurrent() && r.part == [] && 0 < |Join(chunks)| <= MAX_CLIP_BYTES
    ensures RunFrom(r, Reads(chunks)) == PlayedClip(r, Join(chunks))
    ensures PlayedClip(r, Join(chunks)).Given() == r.Given() + Samples(Join(chunks))
  {
    hide RunFrom, Step, Taking, PlayedClip, Reply.Read, Speech, Join, Samples;
    var clip, script := Join(chunks), Reads(chunks);
    ReadChunks(r, chunks);
    assert script == script[..|chunks|] + [ClipRead([], true)];
    RunMore(r, script[..|chunks|], ClipRead([], true));
    assert clip + [] == clip;
    ReadOne(r, clip, [], true);
    ReadIsStep(Taking(r, clip), [], true);
    PlayedGives(r, clip);
  }

  lemma ReadIsStep(r: Reply, value: seq<byte>, done: bool)
    requires r.PlaysClip()
    ensures Step(r, ClipRead(value, done)) == r.Read(value, done)
  {
    hide Reply.Read;
  }

  lemma PlayedGives(r: Reply, clip: seq<byte>)
    requires r.part == []
    ensures PlayedClip(r, clip).Given() == r.Given() + Samples(clip)
  {
    hide Speech;
    SpeechMore(r.clips, clip);
    assert Samples([]) == [];
  }

  // ---- What was heard ----

  /** The environment of a reply: currency is lost for good, and only that clears the outlet. */
  predicate Disciplined(events: seq<Event>) {
    NeverRegains(events) && ForeignClear !in events
  }

  ghost predicate Accounted(r: Reply) {
    && Places(r.outlet.sent) + Places(r.outlet.dropped) + Places(r.outlet.waiting) == UpTo(|r.Given()|)
    && (Places(r.outlet.dropped) == [] || Places(r.outlet.waiting) == [])
    && (r.current && !r.Over() ==> r.outlet.dropped == [])
    && (r.source in {Breaking, Broken} ==> !r.current || r.chain.Failed?)
    && (r.chain.Silenced? ==> !r.current || r.source.Withdrawn?)
  }

  lemma NoPlaces()
    ensures Places([]) == []
  {
  }

  lemma EnqueueKeepsPlaces(o: Outlet, from: nat, to: nat)
    requires from <= to && Places(o.dropped) == []
    requires Places(o.sent) + Places(o.dropped) + Places(o.waiting) == UpTo(from)
    ensures var e := o.Enqueue(OwnItems(from, to));
            && Places(e.sent) + Places(e.dropped) + Places(e.waiting) == UpTo(to)
            && e.dropped == o.dropped
  {
    hide Places, OwnItems;
    PlacesCut(o.waiting, OwnItems(from, to));
    PlacesOfOwn(from, to);
    assert UpTo(from) + UpTo(to)[from..] == UpTo(to);
  }

  lemma EnqueueOwn(r: Reply, value: seq<byte>, done: bool)
    requires Accounted(r) && r.PlaysClip()
    ensures Accounted(r.Read(value, done))
  {
    hide Places, OwnItems, Speech;
    SpeechMore(r.clips, r.part + value);
    if r.IsCurrent() {
      NoPlaces();
      EnqueueKeepsPlaces(r.outlet, |r.Given()|, |Speech(r.clips) + Samples(r.part + value)|);
    }
  }

  lemma ClearKeepsPlaces(o: Outlet)
    requires Places(o.dropped) == [] || Places(o.waiting) == []
    ensures Places(o.sent) + Places(o.Clear().dropped) + Places(o.Clear().waiting)
         == Places(o.sent) + Places(o.dropped) + Places(o.waiting)
    ensures Places(o.Clear().waiting) == []
  {
    PlacesCut(o.dropped, o.waiting);
  }

  lemma StepKeepsAccounts(r: Reply, e: Event)
    requires Invariant(r) && Accounted(r) && e != RegainCurrency && e != ForeignClear
    ensures Accounted(Step(r, e))
  {
    hide Places, Speech, Samples, CountHeard, OwnItems, ForeignItems, Outlet.Send;
    match e
    case ClipRead(value, done) =>
      if r.PlaysClip() { EnqueueOwn(r, value, done); }
    case MainRuns => ClearKeepsPlaces(r.outlet);
    case Silence => ClearKeepsPlaces(r.outlet);
    case Sends(n) => SendKeepsPlaces(r.outlet, n);
    case ForeignAudio(n) =>
      PlacesCut(r.outlet.waiting, ForeignItems(n));
      PlacesOfForeign(n);
    case _ =>
  }

  lemma {:induction false} RunKeepsAccounts(current: bool, earlier: nat, events: seq<Event>)
    requires Disciplined(events)
    ensures var r := RunFrom(Begin(current, earlier), events);
            Invariant(r) && Accounted(r)
  {
    RunKeepsInvariant(Begin(current, earlier), events);
    if events == [] {
      PlacesOfForeign(earlier);
      assert Begin(current, earlier).Given() == [];
    } else {
      RunKeepsAccounts(current, earlier, events[..|events| - 1]);
      StepKeepsAccounts(RunFrom(Begin(current, earlier), events[..|events| - 1]), events[|events| - 1]);
    }
  }

  /** The first `n` sentences were sent to their end. */
  ghost predicate FullySent(r: Reply, n: nat) {
    && n <= |r.clips|
    && forall place: nat :: place < End(r.clips, n) ==> place in Places(r.outlet.sent)
  }

  /** `n` is how many leading sentences were sent to their end. */
  ghost predicate Heard(r: Reply, n: nat) {
    FullySent(r, n) && !FullySent(r, n + 1)
  }

  /** How many bytes of other audio were dropped while this reply ran. */
  function ForeignDropped(r: Reply): int { |r.outlet.dropped| - |Places(r.outlet.dropped)| }

  function OwnSent(r: Reply): nat { |Places(r.outlet.sent)| }

  lemma SentIsAPrefix(r: Reply)
    requires Accounted(r)
    ensures OwnSent(r) <= |r.Given()|
    ensures forall place: nat :: place in Places(r.outlet.sent) <==> place < OwnSent(r)
  {
    var all := Places(r.outlet.sent) + Places(r.outlet.dropped) + Places(r.outlet.waiting);
    assert all[..OwnSent(r)] == Places(r.outlet.sent);
    forall place: nat
      ensures place in Places(r.outlet.sent) <==> place < OwnSent(r)
    {
      if place < OwnSent(r) {
        assert Places(r.outlet.sent)[place] == UpTo(|r.Given()|)[place];
      }
    }
  }

  /** How a run that returns counts: bytes handed over, less every byte dropped. */
  lemma HeardBytes(r: Reply)
    requires Accounted(r) && Places(r.outlet.waiting) == []
    ensures |r.Given()| - |r.outlet.dropped| == OwnSent(r) - ForeignDropped(r)
    ensures ForeignDropped(r) >= 0
  {
    FewerPlaces(r.outlet.dropped);
    assert |Places(r.outlet.sent) + Places(r.outlet.dropped) + Places(r.outlet.waiting)| == |r.Given()|;
  }

  lemma FullySentIff(r: Reply, n: nat)
    requires Accounted(r)
    ensures FullySent(r, n) <==> n <= |r.clips| && End(r.clips, n) <= OwnSent(r)
  {
    SentIsAPrefix(r);
    if n <= |r.clips| && FullySent(r, n) && End(r.clips, n) > 0 {
      assert End(r.clips, n) - 1 in Places(r.outlet.sent);
    }
  }

  lemma CountIsHeard(r: Reply)
    requires Accounted(r) && Places(r.outlet.waiting) == []
    ensures var counted := CountHeard(r.clips, |r.Given()| - |r.outlet.dropped|, 0);
            && FullySent(r, counted)
            && (Heard(r, counted) <==>
                 forall n: nat :: 0 < n <= |r.clips| && End(r.clips, n) <= OwnSent(r)
                   ==> End(r.clips, n) <= OwnSent(r) - ForeignDropped(r))
  {
    HeardBytes(r);
    var bytes := OwnSent(r) - ForeignDropped(r);
    CountHeardMeaning(r.clips, bytes, 0);
    var counted := CountHeard(r.clips, bytes, 0);
    FullySentIff(r, counted);
    FullySentIff(r, counted + 1);
    assert r.clips[..0] == [];
    forall n: nat | 0 < n <= |r.clips|
      ensures n <= counted ==> End(r.clips, n) <= bytes
      ensures counted < n ==> End(r.clips, counted + 1) <= End(r.clips, n)
    {
      if n <= counted {
        EndsGrow(r.clips, n, counted);
      } else {
        EndsGrow(r.clips, counted + 1, n);
      }
    }
  }

  /** The step at which a run returns. */
  ghost predicate Returns(before: Reply, r: Reply) {
    !before.Over() && r == Step(before, MainRuns) && r.phase.Returned?
  }

  /**
   * A silenced or completed run never counts a sentence as heard that was not sent to its end. It
   * counts all that were exactly when the other audio dropped meanwhile, such as the silence the
   * outlet opens a reply with, is not enough to reach back over the end of a sentence.
   */
  lemma {:induction false} HeardNeverExceedsSent(current: bool, earlier: nat, events: seq<Event>)
    requires Disciplined(events)
    ensures var before := RunFrom(Begin(current, earlier), events);
            var r := Step(before, MainRuns);
            Returns(before, r) && !r.phase.exit.HandedOver? ==>
              && FullySent(r, r.phase.heard)
              && (Heard(r, r.phase.heard) <==>
                   forall n: nat :: 0 < n <= |r.clips| && End(r.clips, n) <= OwnSent(r)
                     ==> End(r.clips, n) <= OwnSent(r) - ForeignDropped(r))
  {
    var before := RunFrom(Begin(current, earlier), events);
    hide Step, Accounted, Invariant, FullySent, Heard, RunFrom;
    RunKeepsAccounts(current, earlier, events);
    StepKeepsAccounts(before, MainRuns);
    ReturnCounts(before);
  }

  lemma ReturnCounts(before: Reply)
    requires Invariant(before) && Accounted(before) && Accounted(Step(before, MainRuns))
    ensures var r := Step(before, MainRuns);
            Returns(before, r) && !r.phase.exit.HandedOver? ==>
              && FullySent(r, r.phase.heard)
              && (Heard(r, r.phase.heard) <==>
                   forall n: nat :: 0 < n <= |r.clips| && End(r.clips, n) <= OwnSent(r)
                     ==> End(r.clips, n) <= OwnSent(r) - ForeignDropped(r))
  {
    hide Accounted, FullySent, Heard, CountHeard, Places, End, ForeignDropped, OwnSent, Speech;
    var r := Step(before, MainRuns);
    if Returns(before, r) && !r.phase.exit.HandedOver? {
      NoPlaces();
      CountIsHeard(r);
    }
  }

  // ---- What `complete` means ----

  /**
   * A run reports itself complete exactly when its source was exhausted, there was something to
   * say, every clip was played to its end, and the reply is current when the outlet has drained.
   * Then every sentence counts as heard.
   */
  lemma {:induction false} CompleteMeans(current: bool, earlier: nat, events: seq<Event>)
    requires Disciplined(events)
    ensures var before := RunFrom(Begin(current, earlier), events);
            var r := Step(before, MainRuns);
            Returns(before, r) ==>
              && (r.phase.complete <==>
                   r.source.Exhausted? && 0 < r.requested == |r.clips| && r.current)
              && (r.phase.complete ==> r.phase.heard == r.requested)
  {
    var before := RunFrom(Begin(current, earlier), events);
    hide Step, Accounted, Invariant, RunFrom;
    RunKeepsAccounts(current, earlier, events);
    CompleteIff(before);
    CompleteHeard(before);
  }

  lemma CompleteIff(before: Reply)
    requires Invariant(before) && Accounted(before)
    ensures var r := Step(before, MainRuns);
            Returns(before, r) ==>
              (r.phase.complete <==> r.source.Exhausted? && 0 < r.requested == |r.clips| && r.current)
  {
    hide Speech, Places, CountHeard, Samples;
  }

  lemma CompleteHeard(before: Reply)
    requires Invariant(before) && Accounted(before)
    ensures var r := Step(before, MainRuns);
            Returns(before, r) && r.phase.complete ==> r.phase.heard == r.requested
  {
    hide Speech, Places, CountHeard, Samples, End;
    var r := Step(before, MainRuns);
    if Returns(before, r) && r.phase.complete {
      assert before.phase.Draining? && before.outlet.dropped == [] && r.part == [];
      AllHeard(r.clips, r.part);
    }
  }

  lemma AllHeard(clips: seq<seq<byte>>, part: seq<byte>)
    ensures CountHeard(clips, |Speech(clips) + Samples(part)|, 0) == |clips|
  {
    CountHeardMeaning(clips, |Speech(clips) + Samples(part)|, 0);
    var counted := CountHeard(clips, |Speech(clips) + Samples(part)|, 0);
    if counted < |clips| {
      EndsGrow(clips, counted + 1, |clips|);
      assert false;
    }
  }

  // ---- Running a few events ----

  lemma RunNothing(r: Reply)
    ensures RunFrom(r, []) == r
  {
  }

  lemma RunMore(r: Reply, events: seq<Event>, e: Event)
    ensures RunFrom(r, events + [e]) == Step(RunFrom(r, events), e)
  {
    hide Step;
    assert (events + [e])[..|events|] == events;
  }

  lemma {:induction false} RunCut(r: Reply, a: seq<Event>, b: seq<Event>)
    ensures RunFrom(r, a + b) == RunFrom(RunFrom(r, a), b)
    decreases |b|
  {
    hide Step, RunFrom;
    if b == [] {
      assert a + b == a;
      RunNothing(RunFrom(r, a));
    } else {
      var front, last := b[..|b| - 1], b[|b| - 1];
      RunCut(r, a, front);
      RunMore(r, a + front, last);
      RunMore(RunFrom(r, a), front, last);
      assert a + b == (a + front) + [last] && b == front + [last];
    }
  }

  lemma RunOfTwo(r: Reply, a: Event, b: Event)
    ensures RunFrom(r, [a, b]) == Step(Step(r, a), b)
  {
    hide Step, RunFrom;
    RunNothing(r);
    RunMore(r, [], a);
    assert [] + [a] == [a];
    RunMore(r, [a], b);
    assert [a] + [b] == [a, b];
  }

  lemma RunOfFour(r: Reply, a: Event, b: Event, c: Event, d: Event)
    ensures RunFrom(r, [a, b, c, d]) == Step(Step(Step(Step(r, a), b), c), d)
  {
    hide Step, RunFrom;
    assert [a, b] + [c, d] == [a, b, c, d];
    RunCut(r, [a, b], [c, d]);
    RunOfTwo(r, a, b);
    RunOfTwo(Step(Step(r, a), b), c, d);
  }

  lemma RunOfEight(r: Reply, a: Event, b: Event, c: Event, d: Event, e: Event, f: Event, g: Event, h: Event)
    ensures RunFrom(r, [a, b, c, d, e, f, g, h])
         == Step(Step(Step(Step(Step(Step(Step(Step(r, a), b), c), d), e), f), g), h)
  {
    hide Step, RunFrom;
    assert [a, b, c, d] + [e, f, g, h] == [a, b, c, d, e, f, g, h];
    RunCut(r, [a, b, c, d], [e, f, g, h]);
    RunOfFour(r, a, b, c, d);
    RunOfFour(Step(Step(Step(Step(r, a), b), c), d), e, f, g, h);
  }
}
