/**
 * A reply being synthesized and played, abstractly: which sentences were requested, which bytes of
 * their clips were taken, and where every byte handed to the outlet is. One event is what runs
 * between two awaits of the player, or one thing its environment does.
 */
module PlaybackSpec {
  import opened Wrappers

  newtype byte = x: int | 0 <= x < 256

  const MAX_CLIP_BYTES := 6 * 1024 * 1024

  // ---- The outlet: first in, first out; `clear` drops what was not sent ----

  /** A byte at the outlet: the reply's own, by its place in the reply, or anyone else's. */
  datatype Item = Own(place: nat) | Foreign

  datatype Outlet = Outlet(sent: seq<Item>, waiting: seq<Item>, dropped: seq<Item>)
  {
    function Enqueue(items: seq<Item>): Outlet { this.(waiting := waiting + items) }

    function Clear(): Outlet { this.(waiting := [], dropped := dropped + waiting) }

    function Send(n: nat): Outlet {
      var k := if n <= |waiting| then n else |waiting|;
      this.(sent := sent + waiting[..k], waiting := waiting[k..])
    }
  }

  function OwnItems(from: nat, to: nat): seq<Item>
    requires from <= to
  {
    seq(to - from, i requires 0 <= i => Own(from + i))
  }

  function ForeignItems(n: nat): seq<Item> { seq(n, i => Foreign) }

  /** The places of the reply's own bytes among `items`. */
  function Places(items: seq<Item>): seq<nat> {
    if items == [] then []
    else
      var front := Places(items[..|items| - 1]);
      if items[|items| - 1].Own? then front + [items[|items| - 1].place] else front
  }

  // ---- Samples ----

  /** Whole 16-bit samples: an odd trailing byte is left off. */
  function Samples(bytes: seq<byte>): seq<byte> { bytes[..|bytes| - |bytes| % 2] }

  function Speech(clips: seq<seq<byte>>): seq<byte> {
    if clips == [] then [] else Speech(clips[..|clips| - 1]) + Samples(clips[|clips| - 1])
  }

  /** How many bytes of speech the first `n` clips make. */
  function End(clips: seq<seq<byte>>, n: nat): nat
    requires n <= |clips|
  {
    |Speech(clips[..n])|
  }

  /** From `n` on, how many leading clips end within the first `bytes` bytes. */
  function CountHeard(clips: seq<seq<byte>>, bytes: int, n: nat): nat
    requires n <= |clips|
    decreases |clips| - n
  {
    if n < |clips| && End(clips, n + 1) <= bytes then CountHeard(clips, bytes, n + 1) else n
  }

  // ---- The reply ----

  /** The source of sentences; `Breaking` is between breaking off and its iterator closing. */
  datatype Source = Reading | Breaking | Exhausted | Broken | Withdrawn

  datatype Chain = Running | Silenced | Failed

  datatype Exit = Drained | HandedOver | Cleared

  datatype Phase =
    | Playing
    | Draining
    | Returned(exit: Exit, complete: bool, heard: nat)
    | Thrown

  datatype Reply = Reply(
    current: bool, source: Source, requested: nat,
    clips: seq<seq<byte>>,  // the clips played to their end, whole
    part: seq<byte>,        // what was taken of the clip after them
    chain: Chain, failedAt: Option<nat>,
    outlet: Outlet, phase: Phase, ends: nat, clears: nat)
  {
    predicate IsCurrent() { current && source != Withdrawn }

    /** Everything handed to the outlet, in order. */
    function Given(): seq<byte> { Speech(clips) + Samples(part) }

    predicate Over() { phase.Returned? || phase.Thrown? }

    /** A clip is being played: its stream may be read, or may fail. */
    predicate PlaysClip() { phase.Playing? && chain.Running? && |clips| < requested }

    /** The player's main loop and its chain of clips are both done. */
    predicate Finished() {
      && phase.Playing? && source in {Exhausted, Broken, Withdrawn}
      && (!chain.Running? || |clips| == requested)
    }

    function GiveUp(): Reply {
      this.(chain := Failed, failedAt := Some(|clips| + (if |part| >= 2 then 1 else 0)))
    }

    /** One more sentence arrives from the source. */
    function Sentence(): Reply {
      if !IsCurrent() || failedAt.Some? then this.(source := Breaking)
      else this.(requested := requested + 1)
    }

    /** A read of the clip being played: a chunk, the end of the stream, or both. */
    function Read(value: seq<byte>, done: bool): Reply {
      var taken := part + value;
      if !IsCurrent() then this.(chain := Silenced)
      else if value != [] && |taken| > MAX_CLIP_BYTES then GiveUp()
      else if done && taken == [] then GiveUp()
      else
        var handed := this.(outlet := outlet.Enqueue(OwnItems(|Given()|, |Speech(clips) + Samples(taken)|)));
        if done then handed.(clips := clips + [taken], part := []) else handed.(part := taken)
    }

    /** The main function runs on once its loop and its clips are done. */
    function Finish(): Reply {
      var failed := if requested == 0 && failedAt.None? && IsCurrent() then Some(0) else failedAt;
      if source.Withdrawn? then Clear().(phase := Thrown)
      else if chain.Running? && IsCurrent() then this.(failedAt := failed, ends := ends + 1, phase := Draining)
      else if failed.Some? then this.(failedAt := failed, ends := ends + 1).Return(HandedOver)
      else Clear().Return(Cleared)
    }

    function Clear(): Reply { this.(outlet := outlet.Clear(), clears := clears + 1) }

    function Return(exit: Exit): Reply {
      this.(phase := Returned(exit,
        chain.Running? && failedAt.None? && IsCurrent(),
        CountHeard(clips, |Given()| - |outlet.dropped|, 0)))
    }

    function Lose(): Reply { this.(current := false) }
  }

  datatype Event =
    // the player
    | SentenceArrives | SourceEnds | SourceThrows
    | ClipRead(value: seq<byte>, done: bool) | ClipFails
    | MainRuns
    // its environment
    | LoseCurrency      // the reply stops being current
    | Silence           // the outlet is cleared because the reply stops being current
    | RegainCurrency
    | ForeignClear      // the outlet is cleared for another reason
    | Sends(n: nat)
    | ForeignAudio(n: nat)

  /** Any event may come at any time; one that is not enabled changes nothing. */
  function Step(r: Reply, e: Event): Reply {
    match e
    case SentenceArrives => if r.phase.Playing? && r.source.Reading? then r.Sentence() else r
    case SourceEnds =>
      if r.phase.Playing? && r.source.Reading? then r.(source := Exhausted)
      else if r.phase.Playing? && r.source.Breaking? then r.(source := Broken)
      else r
    case SourceThrows =>
      if r.phase.Playing? && (r.source.Reading? || r.source.Breaking?) then r.(source := Withdrawn) else r
    case ClipRead(value, done) => if r.PlaysClip() then r.Read(value, done) else r
    case ClipFails => if r.PlaysClip() then r.GiveUp() else r
    case MainRuns =>
      if r.Finished() then r.Finish()
      else if r.phase.Draining? && Places(r.outlet.waiting) == [] then r.Return(Drained)
      else r
    case LoseCurrency => r.Lose()
    case Silence => r.Lose().(outlet := r.outlet.Clear())
    case RegainCurrency => r.(current := true)
    case ForeignClear => r.(outlet := r.outlet.Clear())
    case Sends(n) => r.(outlet := r.outlet.Send(n))
    case ForeignAudio(n) => r.(outlet := r.outlet.Enqueue(ForeignItems(n)))
  }

  function RunFrom(r: Reply, events: seq<Event>): Reply {
    if events == [] then r
    else Step(RunFrom(r, events[..|events| - 1]), events[|events| - 1])
  }

  /** A reply about to start, on an outlet that may hold earlier audio. */
  function Begin(current: bool, earlier: nat): Reply {
    Reply(current, Reading, 0, [], [], Running, None,
          Outlet([], ForeignItems(earlier), []), Playing, 0, 0)
  }
}
