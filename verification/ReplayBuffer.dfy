/** A room's bounded message buffer: publishes are kept for those who join later. */
module ReplayBuffer {
  import opened Wrappers

  const REPLAY_LIMIT := 50
  const STORAGE_LIMIT := 100

  /** `kind` and `executionId` are empty, and `timestamp` zero, when the payload leaves them out. */
  datatype Message = Message(kind: string, executionId: string, timestamp: int, data: string)

  datatype Response = Published(kind: string) | Unauthorized | InvalidFormat | RoomMismatch | PublishFailed

  /** The last `n` of a history. */
  function Last<T>(history: seq<T>, n: nat): seq<T> {
    if |history| <= n then history else history[|history| - n..]
  }

  /** Said outright: the end of the history, as long as asked for, or all of it. */
  lemma LastExactly<T>(history: seq<T>, n: nat)
    ensures |Last(history, n)| == if |history| < n then |history| else n
    ensures Last(history, n) == history[|history| - |Last(history, n)|..]
  {
  }

  /** Keeping only the last `m` on the way loses nothing of the last `n`. */
  lemma {:induction false} LastOfLast<T>(history: seq<T>, more: seq<T>, m: nat, n: nat)
    requires n <= m + |more|
    ensures Last(Last(history, m) + more, n) == Last(history + more, n)
  {
  }

  class Orchestrator {
    const name: string
    /** What storage holds under the messages key. */
    var stored: Option<seq<Message>>
    /** The publishes accepted since the last cleanup. */
    ghost var history: seq<Message>

    ghost predicate Valid()
      reads this
    {
      && Messages() == Last(history, STORAGE_LIMIT)
      && forall m :: m in history ==> m.executionId == name && m.timestamp != 0 && m.kind != ""
    }

    function Messages(): seq<Message>
      reads this
    {
      match stored case Some(messages) => messages case None => []
    }

    constructor (name: string)
      ensures Valid() && history == [] && this.name == name
    {
      this.name := name;
      stored, history := None, [];
    }

    /**
     * A publish: `body` is none when it is not JSON. One that is accepted joins the history, with
     * the clock for a missing timestamp; any other leaves the room as it was.
     */
    method HandlePublish(authorized: bool, body: Option<Message>, clock: int)
      returns (response: Response, broadcast: seq<Message>)
      requires Valid() && clock != 0
      modifies this
      ensures Valid()
      ensures response.Published? <==>
                authorized && body.Some? && body.value.kind != "" && body.value.executionId == name != ""
      ensures response.Published? ==>
                && response.kind == body.value.kind
                && history == old(history) + broadcast && |broadcast| == 1
                && broadcast[0]
                     == body.value.(timestamp := if body.value.timestamp == 0 then clock else body.value.timestamp)
      ensures !response.Published? ==> unchanged(this) && broadcast == []
      ensures response.RoomMismatch? <==>
                authorized && body.Some? && body.value.kind != "" && body.value.executionId !in ["", name]
    {
      broadcast := [];
      if !authorized {
        return Unauthorized, [];
      }
      if body.None? {
        return PublishFailed, [];
      }
      var message := body.value;
      if message.kind == "" || message.executionId == "" {
        return InvalidFormat, [];
      }
      if message.executionId != name {
        return RoomMismatch, [];
      }
      if message.timestamp == 0 {
        message := message.(timestamp := clock);
      }
      var messages := Messages() + [message];
      LastOfLast(history, [message], STORAGE_LIMIT, STORAGE_LIMIT);
      if |messages| > STORAGE_LIMIT {
        messages := messages[|messages| - STORAGE_LIMIT..];
      }
      stored := Some(messages);
      history := history + [message];
      return Published(message.kind), [message];
    }

    /** A connection: none is replayed anything unless it may join. */
    method OnConnect(valid: bool) returns (replayed: seq<Message>)
      requires Valid()
      ensures replayed == if !valid then [] else if |history| <= 50 then history else history[|history| - 50..]
      ensures Messages() == if |history| <= 100 then history else history[|history| - 100..]
    {
      replayed := [];
      if valid && stored.Some? && |stored.value| > 0 {
        replayed := if |stored.value| <= REPLAY_LIMIT then stored.value
                    else stored.value[|stored.value| - REPLAY_LIMIT..];
      }
      LastOfLast(history, [], STORAGE_LIMIT, REPLAY_LIMIT);
      assert history + [] == history && Last(history, STORAGE_LIMIT) + [] == Last(history, STORAGE_LIMIT);
    }

    /** DELETE: the room is cleaned up. */
    method OnDelete(authorized: bool) returns (cleaned: bool)
      requires Valid()
      modifies this
      ensures Valid() && cleaned == authorized
      ensures cleaned ==> history == [] && stored.None?
      ensures !cleaned ==> unchanged(this)
    {
      if !authorized {
        return false;
      }
      stored := None;
      history := [];
      return true;
    }
  }
}
