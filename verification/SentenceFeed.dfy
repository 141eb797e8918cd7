/**
 * The feed of a reply sent in numbered parts: a reorder buffer with limits and one blocking
 * consumer. The abstract feed only remembers which parts it accepted; what it has released
 * is what processing those parts in order 0, 1, 2, ... gives. The class is the incremental form.
 */
module SentenceFeedSpec {
  import opened SpeechLimits
  import opened Wrappers

  datatype Error = TooMuchText | Withdrawn(reason: string)

  datatype Part = Part(sentences: seq<string>, last: bool)

  /** Parts being released in number order, with those not reached yet in `pending`. */
  datatype Drained = Drained(
    pending: map<int, Part>, next: nat, released: seq<string>, ended: bool, overflow: bool)
  {
    predicate Closed() { ended || overflow }

    /** A further part, not reached yet. */
    function With(number: int, part: Part): Drained {
      this.(pending := pending[number := part])
    }

    /** What a consumer and a later `add` can tell apart. */
    function View(): (nat, seq<string>, bool, bool) { (next, released, ended, overflow) }
  }

  /** Releases sentences one by one until one exceeds the limits. */
  function Release(d: Drained, sentences: seq<string>): (r: Drained)
    ensures r.pending == d.pending && r.next == d.next && r.ended == d.ended
    ensures d.released <= r.released
    decreases |sentences|
  {
    if sentences == [] then d
    else if Exceeds(d.released, sentences[0]) then d.(overflow := true)
    else Release(d.(released := d.released + [sentences[0]]), sentences[1..])
  }

  /** Takes the part that is next in order. */
  function Take(d: Drained): (r: Drained)
    requires d.next in d.pending
    ensures r.next == d.next + 1 && r.pending == d.pending - {d.next} && d.released <= r.released
  {
    var part := d.pending[d.next];
    var r := Release(d.(pending := d.pending - {d.next}, next := d.next + 1), part.sentences);
    if r.overflow then r else r.(ended := part.last)
  }

  /** Takes parts in order up to the first gap, the part marked last, or the overflow. */
  function Drain(d: Drained): (r: Drained)
    ensures d.released <= r.released && d.next <= r.next
    ensures !r.Closed() ==> r.next !in r.pending
    decreases |d.pending|
  {
    if d.Closed() || d.next !in d.pending then d
    else
      assert |d.pending - {d.next}| < |d.pending| by { SmallerWithout(d.pending, d.next); }
      Drain(Take(d))
  }

  lemma SmallerWithout<V>(m: map<int, V>, k: int)
    requires k in m
    ensures |m - {k}| < |m|
  {
    assert (m - {k}).Keys == m.Keys - {k};
    assert |m.Keys - {k}| == |m.Keys| - 1;
    assert |(m - {k}).Keys| == |m - {k}|;
    assert |m.Keys| == |m|;
  }

  function Start(parts: map<int, Part>): Drained {
    Drained(map k | k in parts && 0 <= k :: parts[k], 0, [], false, false)
  }

  /** The reference: all of `parts` processed in the order 0, 1, 2, ... */
  function InOrder(parts: map<int, Part>): Drained { Drain(Start(parts)) }

  /** Where the one consumer's generator stands. */
  datatype Consumer =
    | Idle                     // at a yield, or not started
    | Waiting                  // suspended on a promise nothing has resolved
    | Woken(arrived: bool)     // resolved: by a wake-up, or by the idle timer
    | Returned
    | Threw(error: Error)

  datatype Feed = Feed(
    accepted: map<int, Part>, closedOutside: bool, failedOutside: Option<Error>,
    yielded: seq<string>, consumer: Consumer)
  {
    function Drained(): Drained { InOrder(accepted) }

    predicate Ended() { Drained().ended || closedOutside }

    function Failure(): Option<Error> {
      if Drained().overflow then Some(TooMuchText) else failedOutside
    }

    predicate Closed() { Ended() || Failure().Some? }

    function Wake(): Feed {
      if consumer.Waiting? then this.(consumer := Woken(true)) else this
    }

    predicate Takes(number: int) {
      !Closed() && Drained().next <= number && number !in accepted
    }

    function Add(number: int, part: Part): Feed {
      if Takes(number) then this.(accepted := accepted[number := part]).Wake() else this
    }

    function Close(): Feed { this.(closedOutside := true).Wake() }

    function Fail(error: Error): Feed {
      (if Failure().Some? then this else this.(failedOutside := Some(error))).Wake()
    }

    /** One pass of the consumer's loop: throws, yielded, returns or suspends. */
    function Pass(): Feed {
      if Failure().Some? then this.(consumer := Threw(Failure().value))
      else if |yielded| < |Drained().released| then
        this.(yielded := yielded + [Drained().released[|yielded|]], consumer := Idle)
      else if Ended() then this.(consumer := Returned)
      else this.(consumer := Waiting)
    }

    function Resume(): Feed
      requires consumer.Woken?
    {
      if consumer.arrived then Pass() else Close().Pass()
    }
  }

  const Fresh := Feed(map[], false, None, [], Idle)

  datatype Event =
    | AddPart(number: int, part: Part)
    | CloseFeed
    | FailFeed(error: Error)
    | TimerExpires
    | ConsumerNext
    | ConsumerResumes

  /** Any event may come at any time; one that is not enabled changes nothing. */
  function Step(f: Feed, e: Event): Feed {
    match e
    case AddPart(number, part) => f.Add(number, part)
    case CloseFeed => f.Close()
    case FailFeed(error) => f.Fail(error)
    case TimerExpires => if f.consumer.Waiting? then f.(consumer := Woken(false)) else f
    case ConsumerNext => if f.consumer.Idle? then f.Pass() else f
    case ConsumerResumes => if f.consumer.Woken? then f.Resume() else f
  }

  function Run(events: seq<Event>): Feed {
    if events == [] then Fresh
    else Step(Run(events[..|events| - 1]), events[|events| - 1])
  }
}

/** What every order of parts and every interleaving with the consumer keeps. */
module SentenceFeedTheorems {
  import opened Sequences
  import opened SpeechLimits
  import opened SentenceFeedSpec
  import opened Wrappers

  // ---- A part that was not reached commutes with draining ----

  lemma ReleaseWith(d: Drained, sentences: seq<string>, number: int, part: Part)
    ensures Release(d.With(number, part), sentences) == Release(d, sentences).With(number, part)
    decreases |sentences|
  {
    if sentences != [] && !Exceeds(d.released, sentences[0]) {
      var d1 := d.(released := d.released + [sentences[0]]);
      assert d1.With(number, part) == d.With(number, part).(released := d.released + [sentences[0]]);
      ReleaseWith(d1, sentences[1..], number, part);
    }
  }

  lemma ReleaseNothing(d: Drained)
    ensures Release(d, []) == d
  {
  }

  lemma ReleaseFirst(d: Drained, sentences: seq<string>)
    requires sentences != []
    ensures Exceeds(d.released, sentences[0]) ==> Release(d, sentences) == d.(overflow := true)
    ensures !Exceeds(d.released, sentences[0]) ==>
              Release(d, sentences) == Release(d.(released := d.released + [sentences[0]]), sentences[1..])
  {
  }

  lemma DrainStuck(d: Drained)
    requires d.Closed() || d.next !in d.pending
    ensures Drain(d) == d
  {
  }

  lemma DrainStep(d: Drained, released: Drained)
    requires !d.Closed() && d.next in d.pending
    requires released == Release(d.(pending := d.pending - {d.next}, next := d.next + 1), d.pending[d.next].sentences)
    ensures released.overflow ==> Drain(d) == released && Take(d) == released && !released.ended
    ensures !released.overflow ==>
              Take(d) == released.(ended := d.pending[d.next].last) && Drain(d) == Drain(Take(d))
  {
  }

  /** Adding a part before or after the earlier ones were drained gives the same. */
  lemma {:induction false} DrainWith(d: Drained, number: int, part: Part)
    requires number !in d.pending
    ensures Drain(d.With(number, part)) == Drain(Drain(d).With(number, part))
    decreases |d.pending|
  {
    if !d.Closed() && d.next in d.pending {
      SmallerWithout(d.pending, d.next);
      var rest := d.(pending := d.pending - {d.next}, next := d.next + 1);
      var d' := d.With(number, part);
      assert d'.pending - {d.next} == rest.With(number, part).pending;
      ReleaseWith(rest, d.pending[d.next].sentences, number, part);
      assert Take(d') == Take(d).With(number, part);
      DrainWith(Take(d), number, part);
    }
  }

  lemma StartWith(parts: map<int, Part>, number: int, part: Part)
    requires 0 <= number && number !in parts
    ensures Start(parts[number := part]) == Start(parts).With(number, part)
    ensures number !in Start(parts).pending
  {
  }

  /** Draining after one more accepted part continues from where draining stood. */
  lemma InOrderWith(parts: map<int, Part>, number: int, part: Part)
    requires 0 <= number && number !in parts
    ensures InOrder(parts[number := part]) == Drain(InOrder(parts).With(number, part))
  {
    StartWith(parts, number, part);
    DrainWith(Start(parts), number, part);
  }

  lemma InOrderWithNegative(parts: map<int, Part>, number: int, part: Part)
    requires number < 0
    ensures InOrder(parts[number := part]) == InOrder(parts)
  {
    assert Start(parts[number := part]) == Start(parts);
  }

  // ---- What processing in order means ----

  function Sentences(parts: map<int, Part>, upTo: nat): seq<string>
    requires forall i :: 0 <= i < upTo ==> i in parts
  {
    if upTo == 0 then [] else Sentences(parts, upTo - 1) + parts[upTo - 1].sentences
  }

  /** `released` is a proper start of `all`, and with the sentence after it holds too much. */
  ghost predicate Overflows(released: seq<string>, all: seq<string>) {
    released < all && Exceeds(released, all[|released|])
  }

  /** `d` has processed exactly the parts below `d.next` of `parts`. */
  ghost predicate Processed(parts: map<int, Part>, d: Drained) {
    && (forall i :: 0 <= i < d.next ==> i in parts)
    && d.pending == (map k | k in parts && d.next <= k :: parts[k])
    && (d.overflow ==> d.next > 0)
    && d.released <= Sentences(parts, d.next)
    && (!d.overflow ==> d.released == Sentences(parts, d.next))
    && (d.overflow ==> Overflows(d.released, Sentences(parts, d.next)))
    && (forall i :: 0 <= i < d.next - 1 ==> !parts[i].last)
    && (!d.overflow && d.next > 0 ==> d.ended == parts[d.next - 1].last)
    && (d.next == 0 || d.overflow ==> !d.ended)
    && WithinLimits(d.released)
  }

  lemma {:induction false} ReleaseMeaning(d: Drained, sentences: seq<string>)
    requires !d.overflow && WithinLimits(d.released)
    ensures var r := Release(d, sentences);
            && WithinLimits(r.released)
            && r.released <= d.released + sentences
            && (!r.overflow ==> r.released == d.released + sentences)
            && (r.overflow ==> Overflows(r.released, d.released + sentences))
    decreases |sentences|
  {
    if sentences == [] {
      assert d.released + sentences == d.released;
    } else if !Exceeds(d.released, sentences[0]) {
      AppendChars(d.released, sentences[0]);
      ReleaseMeaning(d.(released := d.released + [sentences[0]]), sentences[1..]);
      assert d.released + [sentences[0]] + sentences[1..] == d.released + sentences;
    }
  }

  lemma TakeMeaning(parts: map<int, Part>, d: Drained)
    requires Processed(parts, d) && !d.Closed() && d.next in d.pending
    ensures Processed(parts, Take(d))
  {
    hide Exceeds, TotalChars, Overflows;
    var taking := d.(pending := d.pending - {d.next}, next := d.next + 1);
    assert d.pending[d.next] == parts[d.next] && d.next in parts;
    ReleaseMeaning(taking, parts[d.next].sentences);
    assert Sentences(parts, d.next + 1) == d.released + parts[d.next].sentences;
    hide Release, Sentences;
    assert taking.pending == (map k | k in parts && d.next + 1 <= k :: parts[k]);
  }

  lemma {:induction false} DrainMeaning(parts: map<int, Part>, d: Drained)
    requires Processed(parts, d)
    ensures Processed(parts, Drain(d))
    decreases |d.pending|
  {
    hide Processed, Take;
    if !d.Closed() && d.next in d.pending {
      SmallerWithout(d.pending, d.next);
      TakeMeaning(parts, d);
      DrainMeaning(parts, Take(d));
    }
  }

  /**
   * Processing in order stops at the first gap, the part marked last, or the overflow, and has
   * released the sentences of the parts before that, never more than a reply can hold.
   */
  lemma InOrderMeaning(parts: map<int, Part>)
    ensures Processed(parts, InOrder(parts))
    ensures !InOrder(parts).Closed() ==> InOrder(parts).next !in parts
  {
    assert Processed(parts, Start(parts));
    DrainMeaning(parts, Start(parts));
  }

  /**
   * Said outright: processing in order fails exactly when the sentences of the parts it took number
   * more than 40 or come to more than 8,000 characters. It has then released as many, from the first,
   * as a reply can hold, and otherwise all of them.
   */
  lemma OverflowsExactly(parts: map<int, Part>)
    ensures var d := InOrder(parts);
            && (forall i :: 0 <= i < d.next ==> i in parts)
            && var all := Sentences(parts, d.next);
               && |d.released| <= 40 && |Join(d.released)| <= 8000 && d.released <= all
               && (d.overflow <==> |all| > 40 || |Join(all)| > 8000)
               && (if d.overflow then
                     |d.released| < |all| && (|d.released| == 40 || |Join(d.released + [all[|d.released|]])| > 8000)
                   else d.released == all)
  {
    hide InOrder, Sentences, Join, TotalChars, Exceeds;
    InOrderMeaning(parts);
    var d := InOrder(parts);
    var all := Sentences(parts, d.next);
    WithinExactly(d.released);
    if d.overflow {
      var k := |d.released|;
      ExceedsExactly(d.released, all[k]);
      assert all == (d.released + [all[k]]) + all[k + 1..];
      JoinCut(d.released + [all[k]], all[k + 1..]);
    }
  }

  // ---- Confluence ----

  datatype Offer = Offer(number: int, part: Part)

  predicate Distinct(offers: seq<Offer>) {
    forall i, j :: 0 <= i < j < |offers| ==> offers[i].number != offers[j].number
  }

  function AsMap(offers: seq<Offer>): (m: map<int, Part>)
    ensures forall k :: k in m ==> exists i :: 0 <= i < |offers| && offers[i].number == k
  {
    if offers == [] then map[]
    else
      var o := offers[|offers| - 1];
      AsMap(offers[..|offers| - 1])[o.number := o.part]
  }

  /** The parts offered in a run, in the order they arrive. */
  function Offers(events: seq<Event>): seq<Offer> {
    if events == [] then []
    else
      var e := events[|events| - 1];
      Offers(events[..|events| - 1]) + (if e.AddPart? then [Offer(e.number, e.part)] else [])
  }

  /** Only parts and the consumer: no close, no failure from outside, no idle timeout. */
  predicate OnlyParts(events: seq<Event>) {
    forall e :: e in events ==> e.AddPart? || e.ConsumerNext? || e.ConsumerResumes?
  }

  /** `f` stands where processing all of `parts` in order stands. */
  ghost predicate Agrees(f: Feed, parts: map<int, Part>) {
    && f.Drained().View() == InOrder(parts).View()
    && (!f.Closed() ==> f.Drained() == InOrder(parts))
    && f.accepted.Keys <= parts.Keys
    && !f.closedOutside && f.failedOutside.None?
  }

  lemma OpenTakesNew(f: Feed, number: int)
    requires 0 <= number && number !in f.accepted
    ensures f.Takes(number) <==> !f.Closed()
  {
    hide InOrder;
    InOrderMeaning(f.accepted);
  }

  lemma OfferNew(f: Feed, parts: map<int, Part>, number: int, part: Part)
    requires Agrees(f, parts) && number !in parts
    ensures Agrees(f.Add(number, part), parts[number := part])
  {
    hide InOrder, Drain;
    if number < 0 {
      InOrderWithNegative(parts, number, part);
    } else {
      OpenTakesNew(f, number);
      InOrderWith(parts, number, part);
      if f.Takes(number) {
        InOrderWith(f.accepted, number, part);
      } else {
        DrainStuck(InOrder(parts).With(number, part));
      }
    }
  }

  lemma ConsumerAgrees(f: Feed, e: Event, parts: map<int, Part>)
    requires Agrees(f, parts) && f.consumer != Woken(false)
    requires e.ConsumerNext? || e.ConsumerResumes?
    ensures Agrees(Step(f, e), parts) && Step(f, e).consumer != Woken(false)
  {
    hide InOrder;
  }

  lemma LastOffer(offers: seq<Offer>, o: Offer)
    requires Distinct(offers + [o])
    ensures Distinct(offers) && o.number !in AsMap(offers)
    ensures AsMap(offers + [o]) == AsMap(offers)[o.number := o.part]
  {
    var all := offers + [o];
    assert all[..|all| - 1] == offers;
    assert forall i :: 0 <= i < |offers| ==> all[i] == offers[i];
    assert all[|offers|] == o;
  }

  /**
   * Parts with distinct numbers, arriving in any order and interleaved with the consumer in any
   * way: what is released, the next part, the end and the failure are those of processing all the
   * offered parts in the order 0, 1, 2, ...
   */
  lemma {:induction false} Confluence(events: seq<Event>)
    requires OnlyParts(events) && Distinct(Offers(events))
    ensures Agrees(Run(events), AsMap(Offers(events)))
    ensures Run(events).consumer != Woken(false)
  {
    hide Agrees, InOrder, AsMap;
    if events == [] {
      NothingOffered();
    } else {
      var before, e := events[..|events| - 1], events[|events| - 1];
      if e.AddPart? {
        LastOffer(Offers(before), Offer(e.number, e.part));
        Confluence(before);
        OfferNew(Run(before), AsMap(Offers(before)), e.number, e.part);
      } else {
        assert Offers(events) == Offers(before);
        Confluence(before);
        ConsumerAgrees(Run(before), e, AsMap(Offers(before)));
      }
    }
  }

  lemma NothingOffered()
    ensures Agrees(Fresh, AsMap([]))
  {
    InOrderMeaning(map[]);
  }

  /** The order in which the parts arrive does not matter, nor how the consumer interleaves. */
  lemma OrderDoesNotMatter(one: seq<Event>, other: seq<Event>)
    requires OnlyParts(one) && Distinct(Offers(one)) && OnlyParts(other) && Distinct(Offers(other))
    requires AsMap(Offers(one)) == AsMap(Offers(other))
    ensures Run(one).Drained().View() == Run(other).Drained().View()
    ensures Run(one).Failure() == Run(other).Failure()
  {
    hide InOrder, Run, AsMap, Offers;
    Confluence(one);
    Confluence(other);
  }

  // ---- Every interleaving of add, close, fail, timer and consumer ----

  ghost predicate Sound(f: Feed) {
    var released := f.Drained().released;
    && f.yielded <= released
    && WithinLimits(released)
    && (f.consumer.Waiting? ==> f.yielded == released && !f.Closed())
    && (f.consumer.Returned? ==> f.Ended() && f.yielded == released)
    && (f.consumer.Threw? ==> f.Failure() == Some(f.consumer.error))
    && (f.failedOutside.Some? ==> !f.Drained().overflow)
  }

  lemma AddGrows(f: Feed, number: int, part: Part)
    requires f.Takes(number)
    ensures f.Drained().released <= InOrder(f.accepted[number := part]).released
  {
    hide InOrder;
    InOrderWith(f.accepted, number, part);
  }

  lemma StepSound(f: Feed, e: Event)
    requires Sound(f)
    ensures Sound(Step(f, e))
  {
    hide InOrder, TotalChars;
    if e.AddPart? && f.Takes(e.number) {
      AddGrows(f, e.number, e.part);
      InOrderMeaning(f.accepted[e.number := e.part]);
    }
  }

  /**
   * No lost wake-up, over every interleaving: a consumer suspended on a promise nothing resolved
   * has been given everything released and the feed is open; what was yielded is always the start
   * of what was released; a normal return has yielded all of it, once and in order.
   */
  lemma {:induction false} NoLostWakeUp(events: seq<Event>)
    ensures Sound(Run(events))
  {
    if events == [] {
      InOrderMeaning(map[]);
    } else {
      NoLostWakeUp(events[..|events| - 1]);
      StepSound(Run(events[..|events| - 1]), events[|events| - 1]);
    }
  }

  /** A returned or failed consumer is final, and a closed feed releases nothing more. */
  lemma {:induction false} ClosedForGood(f: Feed, e: Event)
    requires Sound(f) && f.Closed()
    ensures Step(f, e).Closed() && Step(f, e).Drained() == f.Drained()
    ensures f.consumer.Returned? || f.consumer.Threw? ==> Step(f, e).consumer == f.consumer
  {
  }

  /** The consumer's own next step: it runs on when woken, and else asks for the next sentence. */
  function ConsumerStep(f: Feed): Feed {
    if f.consumer.Woken? then Step(f, ConsumerResumes) else Step(f, ConsumerNext)
  }

  function ConsumerSteps(f: Feed, n: nat): Feed {
    if n == 0 then f else ConsumerStep(ConsumerSteps(f, n - 1))
  }

  /** One step in a closed feed: the failure, the next sentence, or the end. */
  lemma ClosedStep(f: Feed)
    requires Sound(f) && f.Closed() && (f.consumer.Idle? || f.consumer.Woken?)
    ensures var g := ConsumerStep(f);
            && Sound(g) && g.Closed() && g.Drained() == f.Drained() && g.Failure() == f.Failure()
            && (if f.Failure().Some? then g.consumer == Threw(f.Failure().value)
                else if |f.yielded| < |f.Drained().released| then g.consumer.Idle? && |g.yielded| == |f.yielded| + 1
                else g.consumer.Returned? && g.yielded == f.yielded)
  {
    hide InOrder, TotalChars;
    StepSound(f, if f.consumer.Woken? then ConsumerResumes else ConsumerNext);
  }

  lemma {:induction false} ClosedSteps(f: Feed, n: nat)
    requires Sound(f) && f.Closed() && (f.consumer.Idle? || f.consumer.Woken?)
    requires f.Failure().None? && n <= |f.Drained().released| - |f.yielded|
    ensures var g := ConsumerSteps(f, n);
            && Sound(g) && g.Closed() && g.Drained() == f.Drained() && g.Failure().None?
            && (g.consumer.Idle? || g.consumer.Woken?) && |g.yielded| == |f.yielded| + n
  {
    hide InOrder, ConsumerStep, Sound;
    if n > 0 {
      ClosedSteps(f, n - 1);
      ClosedStep(ConsumerSteps(f, n - 1));
    }
  }

  /**
   * Progress, from every state a run reaches with the feed closed and the consumer not done: the
   * consumer's own steps, one for each sentence still to be given and one more, end with all of it
   * given and a return, or with the failure thrown at once.
   */
  lemma {:induction false} ClosedFeedFinishes(events: seq<Event>)
    ensures var f := Run(events);
            f.Closed() && !f.consumer.Returned? && !f.consumer.Threw? ==>
              && !f.consumer.Waiting? && |f.yielded| <= |f.Drained().released|
              && var left := |f.Drained().released| - |f.yielded|;
                 var g := ConsumerSteps(f, if f.Failure().Some? then 1 else left + 1);
                 if f.Failure().Some? then g.consumer == Threw(f.Failure().value)
                 else g.consumer.Returned? && g.yielded == f.Drained().released
  {
    hide InOrder, Run, ConsumerStep;
    NoLostWakeUp(events);
    var f := Run(events);
    if f.Closed() && !f.consumer.Returned? && !f.consumer.Threw? {
      if f.Failure().Some? {
        ClosedStep(f);
        assert ConsumerSteps(f, 0) == f;
      } else {
        var left := |f.Drained().released| - |f.yielded|;
        ClosedSteps(f, left);
        ClosedStep(ConsumerSteps(f, left));
      }
    }
  }

  /** A part with this number was offered. */
  predicate Offered(events: seq<Event>, number: int) {
    exists i :: 0 <= i < |events| && events[i].AddPart? && events[i].number == number
  }

  /** The feed has the part, can have none with its number, or takes no more. */
  predicate Settled(f: Feed, number: int) { f.Closed() || number in f.accepted || number < 0 }

  lemma SettledNext(f: Feed, e: Event, number: int)
    requires Sound(f) && (Settled(f, number) || (e.AddPart? && e.number == number))
    ensures Settled(Step(f, e), number)
  {
    hide InOrder, TotalChars;
    if f.Closed() {
      ClosedForGood(f, e);
    } else {
      InOrderMeaning(f.accepted);
    }
  }

  lemma {:induction false} OfferedIsSettled(events: seq<Event>, number: int)
    requires Offered(events, number)
    ensures Settled(Run(events), number)
  {
    hide Step, Sound, Settled;
    var front, e := events[..|events| - 1], events[|events| - 1];
    NoLostWakeUp(front);
    if !(e.AddPart? && e.number == number) {
      var i :| 0 <= i < |events| && events[i].AddPart? && events[i].number == number;
      assert front[i] == events[i];
      OfferedIsSettled(front, number);
    }
    SettledNext(Run(front), e, number);
  }

  /** In every run, a part whose number was offered before changes nothing, whatever it holds. */
  lemma {:induction false} RepeatedPartChangesNothing(events: seq<Event>, number: int, part: Part)
    requires Offered(events, number)
    ensures !Run(events).Takes(number) && Step(Run(events), AddPart(number, part)) == Run(events)
  {
    hide InOrder, Run;
    OfferedIsSettled(events, number);
  }

  /** Anything but the consumer. */
  predicate Outside(e: Event) { !e.ConsumerNext? && !e.ConsumerResumes? }

  function RunOn(f: Feed, events: seq<Event>): Feed {
    if events == [] then f else Step(RunOn(f, events[..|events| - 1]), events[|events| - 1])
  }

  /** A closed feed whose consumer is not suspended, before its failure `error` reached it. */
  ghost predicate Failing(f: Feed, error: Error, yielded: seq<string>) {
    f.Failure() == Some(error) && (f.consumer.Idle? || f.consumer.Woken?) && f.yielded == yielded
  }

  lemma {:induction false} StillFailing(f: Feed, error: Error, between: seq<Event>)
    requires Failing(f, error, f.yielded) && forall e :: e in between ==> Outside(e)
    ensures Failing(RunOn(f, between), error, f.yielded)
  {
    hide InOrder;
    if between != [] {
      assert between[|between| - 1] in between;
      StillFailing(f, error, between[..|between| - 1]);
    }
  }

  /**
   * A failure of an open feed reaches the consumer, in every run and whatever comes in between, more
   * failures and a close included: its own next step throws that failure and gives nothing.
   */
  lemma {:induction false} FailureReachesTheConsumer(events: seq<Event>, error: Error, between: seq<Event>)
    requires !Run(events).Closed() && forall e :: e in between ==> Outside(e)
    ensures var g := ConsumerStep(RunOn(Step(Run(events), FailFeed(error)), between));
            g.consumer == Threw(error) && g.yielded == Run(events).yielded
  {
    NoLostWakeUp(events);
    hide InOrder, Run;
    var failed := Step(Run(events), FailFeed(error));
    assert Failing(failed, error, Run(events).yielded);
    StillFailing(failed, error, between);
  }

  /**
   * A close of an open feed lets the consumer have what was released: its own steps, one for each
   * sentence left and one more, give them all and return.
   */
  lemma {:induction false} CloseReachesTheConsumer(events: seq<Event>)
    requires !Run(events).Closed()
    ensures var f := Run(events);
            && |f.yielded| <= |f.Drained().released|
            && var g := ConsumerSteps(Step(f, CloseFeed), |f.Drained().released| - |f.yielded| + 1);
               g.consumer.Returned? && g.yielded == f.Drained().released
  {
    hide InOrder, Run, Step, ConsumerSteps;
    NoLostWakeUp(events);
    OneMore(events, CloseFeed);
    ClosedFeedFinishes(events + [CloseFeed]);
    CloseOfOpen(Run(events));
  }

  lemma OneMore(events: seq<Event>, e: Event)
    ensures Run(events + [e]) == Step(Run(events), e)
  {
    hide Step;
    assert (events + [e])[..|events|] == events;
  }

  lemma CloseOfOpen(f: Feed)
    requires Sound(f) && !f.Closed()
    ensures var g := Step(f, CloseFeed);
            && g.Closed() && g.Failure().None? && g.Drained() == f.Drained() && g.yielded == f.yielded
            && (g.consumer.Idle? || g.consumer.Woken?)
  {
    hide InOrder;
  }

  /** And so does the idle timer, when the consumer has waited for the next part in vain. */
  lemma {:induction false} IdleTimerEndsTheFeed(events: seq<Event>)
    requires Run(events).consumer.Waiting?
    ensures var g := ConsumerStep(Step(Run(events), TimerExpires));
            g.consumer.Returned? && g.yielded == Run(events).Drained().released && g.Closed()
  {
    NoLostWakeUp(events);
    hide InOrder, Run;
  }

  /**
   * The timer racing an arrival: when a part arrives between the timer's expiry and the consumer
   * running again, the sentences it released are still yielded before the feed returns.
   */
  lemma TimerRacesArrival(f: Feed, number: int, part: Part)
    requires Sound(f) && f.consumer.Waiting? && f.Takes(number)
    requires var released := InOrder(f.accepted[number := part]);
             !released.overflow && |released.released| > |f.yielded|
    ensures var g := Step(Step(Step(f, TimerExpires), AddPart(number, part)), ConsumerResumes);
            && g.consumer.Idle? && g.Ended()
            && g.yielded == g.Drained().released[..|f.yielded| + 1]
  {
    AddGrows(f, number, part);
    var armed := Step(f, TimerExpires);
    assert armed.accepted == f.accepted && armed.Takes(number);
  }
}

module SentenceFeed {
  import opened SpeechLimits
  import opened SentenceFeedSpec
  import opened SentenceFeedTheorems
  import opened Wrappers

  class ParlumeSentenceFeed {
    var parts: map<int, Part>
    var nextPart: nat
    var ready: seq<string>
    var count: nat
    var chars: nat
    var ended: bool
    var failure: Option<Error>
    /** A wake-up function is set; it outlives the promise when the timer resolved that. */
    var waiter: bool
    /** Where the one consumer stands: idle, suspended, woken, or done. */
    var consumer: Consumer

    ghost var accepted: map<int, Part>
    ghost var closedOutside: bool
    ghost var failedOutside: Option<Error>
    ghost var yielded: seq<string>

    ghost function Abstract(): Feed
      reads this
    {
      Feed(accepted, closedOutside, failedOutside, yielded, consumer)
    }

    /** The fields hold what the accepted parts and the calls from outside determine. */
    ghost predicate Valid()
      reads this
    {
      var d := InOrder(accepted);
      && Holds(d)
      && ended == Abstract().Ended()
      && failure == Abstract().Failure()
      && (consumer.Waiting? ==> waiter)
      && (waiter ==> consumer.Waiting? || consumer == Woken(false))
    }

    /** The fields hold the parts drained so far. */
    ghost predicate Holds(d: Drained)
      reads this
    {
      && parts == d.pending && nextPart == d.next
      && yielded + ready == d.released
      && (!d.overflow ==> count == |d.released| && chars == TotalChars(d.released))
    }

    constructor ()
      ensures Valid() && Abstract() == Fresh
    {
      parts, nextPart, ready, count, chars := map[], 0, [], 0, 0;
      ended, failure, waiter, consumer := false, None, false, Idle;
      accepted, closedOutside, failedOutside, yielded := map[], false, None, [];
      new;
      assert Start(map[]).pending == map[];
    }

    /** Ended or failed: from here on every part is turned away. */
    predicate Closed()
      reads this
    {
      ended || failure.Some?
    }

    /** Refines the abstract offer: a part that is taken is drained with all those accepted before. */
    method Add(part: int, sentences: seq<string>, last: bool) returns (taken: bool)
      requires Valid()
      modifies this
      ensures Valid()
      ensures taken == old(Abstract()).Takes(part)
      ensures Abstract() == old(Abstract()).Add(part, Part(sentences, last))
    {
      hide Drain, Take, Release, Start, TotalChars;
      InOrderMeaning(accepted);
      if Closed() || part < nextPart || part in parts {
        return false;
      }
      InOrderWith(accepted, part, Part(sentences, last));
      ghost var before := InOrder(accepted);
      parts := parts[part := Part(sentences, last)];
      accepted := accepted[part := Part(sentences, last)];
      ReleaseParts(before.With(part, Part(sentences, last)));
      Wake();
      return true;
    }

    /** Releases the parts that are next in order, until a gap, the last part or an overflow. */
    method ReleaseParts(ghost start: Drained)
      requires Holds(start) && !start.overflow && start.ended == ended && failure.None?
      modifies this`parts, this`nextPart, this`ready, this`count, this`chars, this`ended, this`failure
      ensures Holds(Drain(start))
      ensures ended == Drain(start).ended
      ensures failure == if Drain(start).overflow then Some(TooMuchText) else None
    {
      hide Drain, Take, Release, TotalChars;
      ghost var d := start;
      while nextPart in parts && !Closed()
        invariant Holds(d) && d.ended == ended && !d.overflow && failure.None?
        invariant Drain(d) == Drain(start)
        decreases |parts|
      {
        var next := parts[nextPart];
        SmallerWithout(parts, nextPart);
        parts := parts - {nextPart};
        nextPart := nextPart + 1;
        ghost var taking := d.(pending := parts, next := nextPart);
        var fits := ReleaseSentences(next.sentences, taking);
        ghost var released := Release(taking, next.sentences);
        DrainStep(d, released);
        if !fits {
          return;
        }
        d := released.(ended := next.last);
        ended := next.last;
      }
      DrainStuck(d);
    }

    /** Releases the sentences of one part; false, and failed, when one exceeds the limits. */
    method ReleaseSentences(sentences: seq<string>, ghost d: Drained) returns (fits: bool)
      requires Holds(d) && !d.overflow && failure.None?
      modifies this`ready, this`count, this`chars, this`failure
      ensures Holds(Release(d, sentences))
      ensures fits == !Release(d, sentences).overflow
      ensures failure == if fits then None else Some(TooMuchText)
    {
      hide Release, TotalChars;
      ghost var soFar := d;
      for i := 0 to |sentences|
        invariant Holds(soFar) && !soFar.overflow && failure.None?
        invariant Release(soFar, sentences[i..]) == Release(d, sentences)
      {
        var sentence := sentences[i];
        ReleaseFirst(soFar, sentences[i..]);
        AppendChars(soFar.released, sentence);
        count := count + 1;
        chars := chars + |sentence|;
        if count > MAX_SENTENCES || chars > MAX_TOTAL_CHARS {
          failure := Some(TooMuchText);
          return false;
        }
        ready := ready + [sentence];
        assert sentences[i..][1..] == sentences[i + 1..];
        soFar := soFar.(released := soFar.released + [sentence]);
      }
      ReleaseNothing(soFar);
      return true;
    }

    method Close()
      requires Valid()
      modifies this
      ensures Valid() && !waiter && Abstract() == old(Abstract()).Close()
    {
      ended := true;
      closedOutside := true;
      Wake();
    }

    method Fail(error: Error)
      requires Valid()
      modifies this
      ensures Valid() && Abstract() == old(Abstract()).Fail(error)
    {
      if failure.None? {
        failure := Some(error);
        failedOutside := Some(error);
      }
      Wake();
    }

    method Wake()
      modifies this`waiter, this`consumer
      requires consumer.Waiting? ==> waiter
      requires waiter ==> consumer.Waiting? || consumer == Woken(false)
      ensures !waiter
      ensures consumer == if old(consumer).Waiting? then Woken(true) else old(consumer)
    {
      var resolves := waiter && consumer.Waiting?;
      waiter := false;
      if resolves {
        consumer := Woken(true);
      }
    }

    method TimerExpires()
      requires Valid() && consumer.Waiting?
      modifies this
      ensures Valid() && Abstract() == Step(old(Abstract()), SentenceFeedSpec.TimerExpires)
    {
      consumer := Woken(false);
    }

    /** The consumer asks for the next sentence. */
    method Next() returns (sentence: Option<string>)
      requires Valid() && consumer.Idle?
      modifies this
      ensures Valid() && Abstract() == old(Abstract()).Pass()
      ensures yielded == old(yielded) + (if sentence.Some? then [sentence.value] else [])
    {
      sentence := Pass();
    }

    /** The generator runs on after its promise resolved. */
    method Resume() returns (sentence: Option<string>)
      requires Valid() && consumer.Woken?
      modifies this
      ensures Valid() && Abstract() == old(Abstract()).Resume()
      ensures yielded == old(yielded) + (if sentence.Some? then [sentence.value] else [])
    {
      if !consumer.arrived {
        Close();
      }
      sentence := Pass();
    }

    /** The generator's loop up to its next yield, throw, return or await. */
    method Pass() returns (sentence: Option<string>)
      requires Valid() && !waiter && (consumer.Idle? || consumer.Woken?)
      modifies this
      ensures Valid() && Abstract() == old(Abstract()).Pass()
      ensures yielded == old(yielded) + (if sentence.Some? then [sentence.value] else [])
    {
      hide InOrder, TotalChars;
      sentence := None;
      if failure.Some? {
        consumer := Threw(failure.value);
      } else if ready != [] {
        sentence := Some(ready[0]);
        assert InOrder(accepted).released[|yielded|] == ready[0];
        yielded := yielded + [ready[0]];
        ready := ready[1..];
        consumer := Idle;
      } else if ended {
        consumer := Returned;
      } else {
        waiter := true;
        consumer := Waiting;
      }
    }
  }
}
