/** The player of a reply and the outlet it plays on, as they run. */
module Playback {
  import opened PlaybackBytes
  import opened PlaybackSpec
  import opened PlaybackTheorems
  import opened Wrappers

  /** A first-in-first-out queue of bytes that knows what it sent and what `Clear` made it drop. */
  class AudioOutlet {
    var waiting: seq<Item>
    var droppedBytes: nat
    var ending: bool
    /** What the reply handed over, in order. */
    var given: seq<byte>
    ghost var sent: seq<Item>
    ghost var dropped: seq<Item>

    constructor (earlier: nat, droppedBefore: nat)
      ensures Abstract() == Outlet([], ForeignItems(earlier), [])
      ensures given == [] && droppedBytes == droppedBefore
    {
      waiting, droppedBytes, ending := ForeignItems(earlier), droppedBefore, false;
      sent, dropped, given := [], [], [];
    }

    ghost function Abstract(): Outlet
      reads this
    {
      Outlet(sent, waiting, dropped)
    }

    method Enqueue(bytes: seq<byte>)
      modifies this`waiting, this`given
      ensures given == old(given) + bytes
      ensures Abstract() == old(Abstract()).Enqueue(OwnItems(|old(given)|, |given|))
    {
      var from := |given|;
      given := given + bytes;
      waiting := waiting + OwnItems(from, |given|);
    }

    method End()
      modifies this`ending
      ensures ending
    {
      ending := true;
    }

    method Clear()
      modifies this`waiting, this`droppedBytes, this`dropped, this`ending
      ensures Abstract() == old(Abstract()).Clear()
      ensures droppedBytes == old(droppedBytes) + |old(waiting)| && !ending
    {
      droppedBytes := droppedBytes + |waiting|;
      dropped := dropped + waiting;
      waiting := [];
      ending := false;
    }

    /** The outlet's clock sends the oldest bytes. */
    method Send(n: nat)
      modifies this`waiting, this`sent
      ensures Abstract() == old(Abstract()).Send(n)
    {
      var k := if n <= |waiting| then n else |waiting|;
      sent := sent + waiting[..k];
      waiting := waiting[k..];
    }
  }

  /** One call of `playParlumeAuraSentences`: a method runs what is between two awaits. */
  class Player {
    const outlet: AudioOutlet
    const droppedAtStart: nat
    /** What the caller's `isCurrent` answers. */
    var current: bool
    var source: Source
    /** For each requested sentence, whether its audio reached the outlet. */
    var ok: seq<bool>
    var sentenceEnds: seq<nat>
    var enqueuedBytes: nat
    var failedAt: Option<nat>
    /** Every clip so far was played to its end. */
    var chainOk: bool
    // The clip being played.
    var bytes: nat
    var carry: Option<byte>
    var phase: Phase

    ghost var clips: seq<seq<byte>>
    ghost var part: seq<byte>
    ghost var ends: nat
    ghost var clears: nat

    ghost function Abstract(): Reply
      reads this, outlet
    {
      var chain := if chainOk then Running else if failedAt.Some? then Failed else Silenced;
      Reply(current, source, |ok|, clips, part, chain, failedAt, outlet.Abstract(), phase, ends, clears)
    }

    /** The byte held back so that the outlet gets whole samples. */
    ghost function HeldBack(): Option<byte>
      reads this
    {
      if |part| % 2 == 0 then None else Some(part[|part| - 1])
    }

    ghost predicate Valid()
      reads this, outlet
    {
      Invariant(Abstract()) && Tracks()
    }

    /** The fields and the outlet hold what was taken of the clips. */
    ghost predicate Tracks()
      reads this, outlet
    {
      && outlet.given == Abstract().Given()
      && outlet.droppedBytes == droppedAtStart + |outlet.dropped|
      && enqueuedBytes == |outlet.given|
      && EndsMatch()
      && (chainOk ==> bytes == |part| && carry == HeldBack())
      && (|clips| < |ok| ==> ok[|clips|] == (|part| >= 2))
      && (forall i :: |clips| < i < |ok| ==> !ok[i])
    }

    /** Each played sentence's end is known. */
    ghost predicate EndsMatch()
      reads this`sentenceEnds, this`clips
    {
      && |sentenceEnds| == |clips|
      && forall i :: 0 <= i < |clips| ==> sentenceEnds[i] == End(clips, i + 1)
    }

    constructor (outlet: AudioOutlet, isCurrent: bool, ghost earlier: nat)
      requires outlet.given == [] && outlet.Abstract() == Outlet([], ForeignItems(earlier), [])
      ensures this.outlet == outlet && Valid() && Abstract() == Begin(isCurrent, earlier)
    {
      this.outlet := outlet;
      droppedAtStart := outlet.droppedBytes;
      current, source, ok, sentenceEnds, enqueuedBytes := isCurrent, Reading, [], [], 0;
      failedAt, chainOk, bytes, carry, phase := None, true, 0, None, Playing;
      clips, part, ends, clears := [], [], 0, 0;
    }

    predicate IsCurrent()
      reads this
    {
      source != Withdrawn && current
    }

    method SentenceArrives()
      requires Valid() && phase.Playing? && source.Reading?
      modifies this
      ensures Valid() && Abstract() == Step(old(Abstract()), PlaybackSpec.SentenceArrives)
    {
      hide Speech;
      if !IsCurrent() || failedAt.Some? {
        source := Breaking;
      } else {
        ok := ok + [false];
      }
    }

    /** One `read` of the clip being played resolves. */
    method ClipRead(value: seq<byte>, done: bool)
      requires Valid() && Abstract().PlaysClip()
      modifies this, outlet
      ensures Valid() && Abstract() == Step(old(Abstract()), PlaybackSpec.ClipRead(value, done))
    {
      hide Speech, Samples, OwnItems, End;
      ghost var before := Abstract();
      StepKeepsInvariant(before, PlaybackSpec.ClipRead(value, done));
      assert failedAt.None?;
      hide Invariant;
      if !IsCurrent() {
        chainOk := false;
        return;
      }
      ReadInTwo(before, value);
      if |value| > 0 {
        if bytes + |value| > MAX_CLIP_BYTES {
          Fail();
          return;
        }
        Take(value);
      }
      if done {
        EndClip();
      }
    }

    /** Hands a chunk's whole samples to the outlet, after the byte held back before it. */
    method Take(value: seq<byte>)
      requires Tracks() && Abstract().PlaysClip() && IsCurrent()
      requires value != [] && bytes + |value| <= MAX_CLIP_BYTES
      modifies this, outlet
      ensures Tracks() && Abstract() == old(Abstract()).Read(value, false)
    {
      hide Speech, OwnItems, End, Samples, Reply.Read, Reply.Given;
      ghost var before := Abstract();
      assert |sentenceEnds| == |clips|;
      hide EndsMatch;
      var chunk := Complete(value);
      ReadTakes(before, value, chunk);
      Hand(chunk, |sentenceEnds|);
      part := part + value;
    }

    /** The samples that a chunk completes, with the byte held back before it and the one it leaves. */
    method Complete(value: seq<byte>) returns (chunk: seq<byte>)
      requires bytes == |part| && carry == HeldBack() && value != []
      modifies this`bytes, this`carry
      ensures Samples(part) + chunk == Samples(part + value)
      ensures bytes == |part + value|
      ensures carry == if |part + value| % 2 == 0 then None else Some((part + value)[|part + value| - 1])
      ensures |part + value| >= 2 <==> |part| >= 2 || chunk != []
    {
      hide Samples;
      Realigned(part, value);
      SamplesAre((if carry.Some? then [carry.value] else []) + value);
      bytes := bytes + |value|;
      chunk := Align(value);
    }

    /** Gives the outlet what there is to give, and notes that the sentence is heard. */
    method Hand(chunk: seq<byte>, index: nat)
      requires index < |ok|
      modifies this`enqueuedBytes, this`ok, outlet
      ensures enqueuedBytes == old(enqueuedBytes) + |chunk|
      ensures outlet.given == old(outlet.given) + chunk
      ensures outlet.Abstract() == old(outlet.Abstract()).Enqueue(OwnItems(|old(outlet.given)|, |outlet.given|))
      ensures outlet.droppedBytes == old(outlet.droppedBytes)
      ensures ok == if chunk == [] then old(ok) else old(ok)[index := true]
    {
      if |chunk| > 0 {
        enqueuedBytes := enqueuedBytes + |chunk|;
        outlet.Enqueue(chunk);
        ok := ok[index := true];
      } else {
        NothingEnqueued(outlet.Abstract(), |outlet.given|);
      }
    }

    /** Joins the byte held back before the chunk, and holds back one that is half a sample. */
    method Align(value: seq<byte>) returns (chunk: seq<byte>)
      modifies this`carry
      ensures var joined := (if old(carry).Some? then [old(carry).value] else []) + value;
              && chunk == joined[..|joined| - |joined| % 2]
              && carry == if |joined| % 2 == 0 then None else Some(joined[|joined| - 1])
    {
      chunk := value;
      if carry.Some? {
        chunk := [carry.value] + chunk;
        carry := None;
      } else {
        assert [] + value == value;
      }
      if |chunk| % 2 != 0 {
        carry := Some(chunk[|chunk| - 1]);
        chunk := chunk[..|chunk| - 1];
      }
    }

    /** The clip's stream ended. */
    method EndClip()
      requires Tracks() && Abstract().PlaysClip() && IsCurrent()
      modifies this
      ensures Tracks() && Abstract() == old(Abstract()).Read([], true)
    {
      hide Speech, OwnItems;
      assert part + [] == part;
      if bytes == 0 {
        Fail();
        return;
      }
      NothingEnqueued(outlet.Abstract(), |outlet.given|);
      ClipEnds(clips, part);
      sentenceEnds := sentenceEnds + [enqueuedBytes];
      clips, part := clips + [part], [];
      bytes, carry := 0, None;
    }

    /** The clip fails: the caller continues after what was spoken of it. */
    method Fail()
      requires Tracks() && Abstract().PlaysClip()
      modifies this`failedAt, this`chainOk
      ensures Tracks() && Abstract() == old(Abstract()).GiveUp()
    {
      hide Speech, OwnItems;
      var index := |sentenceEnds|;
      failedAt := Some(if ok[index] then index + 1 else index);
      chainOk := false;
    }

    /** The clip could not be requested, or reading it threw. */
    method ClipFails()
      requires Valid() && Abstract().PlaysClip()
      modifies this
      ensures Valid() && Abstract() == Step(old(Abstract()), PlaybackSpec.ClipFails)
    {
      hide Tracks, Invariant;
      StepKeepsInvariant(Abstract(), PlaybackSpec.ClipFails);
      Fail();
    }

    /** The main function, after its loop and its clips are done. */
    method Finish()
      requires Valid() && Abstract().Finished()
      modifies this, outlet
      ensures Valid() && Abstract() == old(Abstract()).Finish()
      ensures outlet.ending <==> ends == old(ends) + 1
    {
      hide Speech, OwnItems, CountHeard, Samples, End, Invariant, Tracks;
      StoppedHadMore(Abstract());
      StepKeepsInvariant(Abstract(), PlaybackSpec.MainRuns);
      NothingToSay();
      if source == Withdrawn {
        ClearOutlet();
        Go(Thrown);
      } else if chainOk && IsCurrent() {
        EndReply();
        Go(Draining);
      } else if failedAt.Some? {
        EndReply();
        Return(HandedOver);
      } else {
        ClearOutlet();
        Return(Cleared);
      }
    }

    /** A current reply without a sentence counts as failed from the start. */
    method NothingToSay()
      requires Tracks() && (chainOk || |ok| > 0)
      modifies this`failedAt
      ensures Tracks()
      ensures var before := old(Abstract());
              Abstract() == if before.requested == 0 && before.failedAt.None? && before.IsCurrent()
                            then before.(failedAt := Some(0)) else before
    {
      hide Speech, Samples, End;
      if |ok| == 0 && failedAt.None? && IsCurrent() {
        failedAt := Some(0);
      }
    }

    method Go(to: Phase)
      requires Tracks()
      modifies this`phase
      ensures Tracks() && Abstract() == old(Abstract()).(phase := to)
    {
      hide Speech, Samples, End;
      phase := to;
    }

    method EndReply()
      requires Tracks()
      modifies this`ends, outlet`ending
      ensures Tracks() && Abstract() == old(Abstract()).(ends := old(ends) + 1) && outlet.ending
    {
      hide Speech, Samples, End;
      outlet.End();
      ends := ends + 1;
    }

    method ClearOutlet()
      requires Tracks()
      modifies this`clears, outlet
      ensures Tracks() && Abstract() == old(Abstract()).Clear() && !outlet.ending
    {
      hide Speech, Samples, End;
      outlet.Clear();
      clears := clears + 1;
    }

    /** Reports how many sentences were heard and whether the reply is complete. */
    method Return(exit: Exit)
      requires Tracks()
      modifies this`phase
      ensures Tracks() && Abstract() == old(Abstract()).Return(exit)
    {
      hide Speech, Samples, End, CountHeard;
      var heard := CountSentences(clips);
      phase := Returned(exit, chainOk && failedAt.None? && IsCurrent(), heard);
    }

    /** The main function, once the outlet drained. */
    method Drained()
      requires Valid() && phase.Draining? && Places(outlet.waiting) == []
      modifies this
      ensures Valid() && Abstract() == Step(old(Abstract()), PlaybackSpec.MainRuns)
    {
      hide Speech, OwnItems, CountHeard, Samples, Invariant;
      StepKeepsInvariant(Abstract(), PlaybackSpec.MainRuns);
      Return(PlaybackSpec.Drained);
    }

    /** Finds the largest leading number of sentences whose ends lie within the bytes not dropped. */
    method CountSentences(ghost played: seq<seq<byte>>) returns (heard: nat)
      requires |sentenceEnds| == |played| && outlet.droppedBytes >= droppedAtStart
      requires forall i :: 0 <= i < |played| ==> sentenceEnds[i] == End(played, i + 1)
      ensures heard == CountHeard(played, enqueuedBytes - (outlet.droppedBytes - droppedAtStart), 0)
    {
      hide End;
      var heardBytes := enqueuedBytes - (outlet.droppedBytes - droppedAtStart);
      heard := 0;
      while heard < |sentenceEnds| && sentenceEnds[heard] <= heardBytes
        invariant heard <= |played|
        invariant CountHeard(played, heardBytes, heard) == CountHeard(played, heardBytes, 0)
      {
        heard := heard + 1;
      }
    }
  }

  /** What the outlet was given is, byte for byte, the clips played and the start of the one begun. */
  lemma OutletByteForByte(player: Player)
    requires player.Valid()
    ensures ByteForByte(player.outlet.given, player.clips, player.part)
    ensures player.enqueuedBytes == |player.outlet.given|
  {
    hide Invariant, ByteForByte;
    GivenByteForByte(player.Abstract());
  }

  lemma StoppedHadMore(r: Reply)
    requires Invariant(r)
    ensures r.chain.Running? || r.requested > 0
  {
  }

  lemma SamplesAre(bytes: seq<byte>)
    ensures Samples(bytes) == bytes[..|bytes| - |bytes| % 2]
  {
  }

  /** Two chunks joined over the byte held back between them make the samples of both. */
  lemma Realigned(part: seq<byte>, value: seq<byte>)
    ensures var joined := (if |part| % 2 == 0 then [] else [part[|part| - 1]]) + value;
            && Samples(part) + Samples(joined) == Samples(part + value)
            && |joined| % 2 == |part + value| % 2
            && (value != [] && Samples(joined) == [] ==> (|part| >= 2 <==> |part + value| >= 2))
            && (value != [] && Samples(joined) != [] ==> |part + value| >= 2)
            && (joined != [] && value != [] ==> joined[|joined| - 1] == (part + value)[|part + value| - 1])
  {
    var joined := (if |part| % 2 == 0 then [] else [part[|part| - 1]]) + value;
    assert Samples(part) + joined == part + value;
    assert (|part| - |part| % 2 + |joined|) % 2 == |joined| % 2;
  }

  /** What a chunk that is played does to the reply. */
  lemma ReadTakes(r: Reply, value: seq<byte>, chunk: seq<byte>)
    requires r.PlaysClip() && r.IsCurrent() && value != [] && |r.part + value| <= MAX_CLIP_BYTES
    requires Samples(r.part) + chunk == Samples(r.part + value)
    ensures r.Read(value, false)
         == r.(part := r.part + value,
               outlet := r.outlet.Enqueue(OwnItems(|r.Given()|, |r.Given() + chunk|)))
    ensures r.Read(value, false).Given() == r.Given() + chunk
  {
    hide OwnItems, Speech, Samples;
    assert r.Given() + chunk == Speech(r.clips) + Samples(r.part + value);
  }

  /** A chunk and the end of the stream may come in one read or in two. */
  lemma ReadInTwo(r: Reply, value: seq<byte>)
    requires r.PlaysClip() && r.IsCurrent()
    ensures value == [] ==> r.Read(value, false) == r
    ensures r.Read(value, false).PlaysClip() ==> r.Read(value, true) == r.Read(value, false).Read([], true)
    ensures !r.Read(value, false).PlaysClip() ==> r.Read(value, true) == r.Read(value, false)
  {
    hide Speech, OwnItems;
    var from, to := |r.Given()|, |Speech(r.clips) + Samples(r.part + value)|;
    assert r.part + value + [] == r.part + value;
    NothingEnqueued(r.outlet, from);
    NothingEnqueued(r.outlet.Enqueue(OwnItems(from, to)), to);
  }

  lemma NothingEnqueued(o: Outlet, at: nat)
    ensures o.Enqueue(OwnItems(at, at)) == o
  {
    assert o.waiting + [] == o.waiting;
  }

  lemma ClipEnds(clips: seq<seq<byte>>, clip: seq<byte>)
    ensures Speech(clips + [clip]) + Samples([]) == Speech(clips) + Samples(clip)
    ensures End(clips + [clip], |clips| + 1) == |Speech(clips) + Samples(clip)|
    ensures forall n: nat :: n <= |clips| ==> End(clips + [clip], n) == End(clips, n)
  {
    SpeechMore(clips, clip);
    assert (clips + [clip])[..|clips| + 1] == clips + [clip];
    forall n: nat | n <= |clips|
      ensures End(clips + [clip], n) == End(clips, n)
    {
      assert (clips + [clip])[..n] == clips[..n];
    }
  }
}
