/** How clips are cut into chunks, in runs in which anything may happen between two chunks. */
module PlaybackCuts {
  import opened PlaybackSpec
  import opened PlaybackTheorems
  import opened Wrappers

  /** A read of the clip being played that is not refused: not silenced, not too long, not empty. */
  predicate Takes(r: Reply, e: Event) {
    e.ClipRead? && r.PlaysClip() && Step(r, e).chain.Running?
  }

  /** The reads a run takes, in order. */
  function ReadsOf(start: Reply, events: seq<Event>): seq<Event> {
    if events == [] then []
    else
      var front, e := events[..|events| - 1], events[|events| - 1];
      ReadsOf(start, front) + (if Takes(RunFrom(start, front), e) then [e] else [])
  }

  /** The whole clips that reads make, however they were cut. */
  function Whole(taken: seq<Event>): seq<seq<byte>> {
    if taken == [] then []
    else
      var front, e := taken[..|taken| - 1], taken[|taken| - 1];
      Whole(front) + (if e.ClipRead? && e.done then [Begun(front) + e.value] else [])
  }

  /** What they make of the clip after those. */
  function Begun(taken: seq<Event>): seq<byte> {
    if taken == [] || !taken[|taken| - 1].ClipRead? || taken[|taken| - 1].done then []
    else Begun(taken[..|taken| - 1]) + taken[|taken| - 1].value
  }

  lemma MoreReads(taken: seq<Event>, value: seq<byte>, done: bool)
    ensures var more := taken + [ClipRead(value, done)];
            && Whole(more) == Whole(taken) + (if done then [Begun(taken) + value] else [])
            && Begun(more) == if done then [] else Begun(taken) + value
  {
    var more := taken + [ClipRead(value, done)];
    assert more[..|more| - 1] == taken;
  }

  lemma StepTakes(r: Reply, e: Event)
    ensures var s := Step(r, e);
            && s.clips == r.clips + (if Takes(r, e) && e.done then [r.part + e.value] else [])
            && s.part == if !Takes(r, e) then r.part else if e.done then [] else r.part + e.value
  {
    hide Speech, Samples, Places, CountHeard, OwnItems;
  }

  /** In every run, the clips are what its reads make of them. */
  lemma {:induction false} ClipsAreRead(current: bool, earlier: nat, events: seq<Event>)
    ensures var r := RunFrom(Begin(current, earlier), events);
            var taken := ReadsOf(Begin(current, earlier), events);
            r.clips == Whole(taken) && r.part == Begun(taken)
  {
    hide Step, Takes, Whole, Begun;
    if events == [] {
      NoReads();
    } else {
      var front, e := events[..|events| - 1], events[|events| - 1];
      var before, taken := RunFrom(Begin(current, earlier), front), ReadsOf(Begin(current, earlier), front);
      ClipsAreRead(current, earlier, front);
      StepTakes(before, e);
      if Takes(before, e) {
        TakesARead(before, e);
        MoreReads(taken, e.value, e.done);
      } else {
        assert taken + [] == taken && before.clips + [] == before.clips;
      }
    }
  }

  lemma NoReads()
    ensures Whole([]) == [] && Begun([]) == []
  {
  }

  lemma TakesARead(r: Reply, e: Event)
    requires Takes(r, e)
    ensures e == ClipRead(e.value, e.done)
  {
  }

  /**
   * Two runs whose reads make the same clips hand over the same bytes, with every sentence ending
   * at the same place: however each clip was cut, whatever came between its chunks, and whatever
   * the outlet sent or held meanwhile.
   */
  lemma {:induction false} CutsDoNotMatter(
      current: bool, earlier: nat, one: seq<Event>, current': bool, earlier': nat, other: seq<Event>)
    requires var a, b := ReadsOf(Begin(current, earlier), one), ReadsOf(Begin(current', earlier'), other);
             Whole(a) == Whole(b) && Begun(a) == Begun(b)
    ensures var r, s := RunFrom(Begin(current, earlier), one), RunFrom(Begin(current', earlier'), other);
            && r.Given() == s.Given() && |r.clips| == |s.clips|
            && forall n: nat :: n <= |r.clips| ==> End(r.clips, n) == End(s.clips, n)
  {
    hide RunFrom, ReadsOf, Whole, Begun, Speech, Samples;
    ClipsAreRead(current, earlier, one);
    ClipsAreRead(current', earlier', other);
  }
}
