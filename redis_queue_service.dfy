/**
 * The store adapter: a FIFO list of serialised envelopes and a "processed" id set whose
 * expiry is reset on the whole set each time an id is added. Time is in epoch milliseconds;
 * `up` says whether the store answers the call (when it does not, the client raises and
 * nothing changes).
 */
module RedisQueue {
  import opened Base

  /** What a store call gives back: its value, or the exception raised by an unreachable store. */
  datatype Reply<+T> = Reply(value: T) | ConnectionFailure

  /**
   * The store's contents: the queue (head first), the members of the processed set and the
   * set's expiry deadline (`None`: the set has no time to live).
   */
  datatype StoreState = StoreState(queue: seq<string>, members: set<string>, deadline: Option<int>)

  const PROCESSED_PREFIX: string := "processed_webhooks:"

  /** The key of the processed set of a queue. */
  function ProcessedSetKey(queueName: string): (key: string)
    ensures |key| == |PROCESSED_PREFIX| + |queueName|
    ensures key[..|PROCESSED_PREFIX|] == PROCESSED_PREFIX
  {
    PROCESSED_PREFIX + queueName
  }

  /** Distinct queue names never share a deduplication set. */
  lemma ProcessedSetKeyInjective(a: string, b: string)
    requires ProcessedSetKey(a) == ProcessedSetKey(b)
    ensures a == b
  {
    assert a == ProcessedSetKey(a)[|PROCESSED_PREFIX|..];
    assert b == ProcessedSetKey(b)[|PROCESSED_PREFIX|..];
  }

  /** The members visible at time `now`: an expired set has been deleted as a whole. */
  function Live(s: StoreState, now: int): set<string> {
    if s.deadline.Some? && now > s.deadline.value then {} else s.members
  }

  /** Right push: the payload goes to the tail. */
  function Pushed(s: StoreState, payload: string): StoreState {
    s.(queue := s.queue + [payload])
  }

  /** Left pop: the head comes out, or nothing when the queue is empty. */
  function Popped(s: StoreState): (StoreState, Option<string>) {
    if s.queue == [] then (s, None) else (s.(queue := s.queue[1..]), Some(s.queue[0]))
  }

  /**
   * Set add followed by an expiry of `windowSeconds` on the whole set. A positive window
   * makes the deadline `now` plus the window; a non-positive one deletes the set.
   */
  function Marked(s: StoreState, id: string, now: int, windowSeconds: int): StoreState {
    if windowSeconds > 0 then
      s.(members := Live(s, now) + {id}, deadline := Some(now + windowSeconds * 1000))
    else
      s.(members := {}, deadline := None)
  }

  class RedisQueueService {
    const webhookQueueName: string
    // The state below is the list at `webhookQueueName` and the set at `processedSetKey`; the
    // store holds no other keys that this service touches.
    const processedSetKey: string
    const deduplicationWindowSeconds: int

    var queue: seq<string>
    var members: set<string>
    var deadline: Option<int>

    function State(): StoreState
      reads this
    {
      StoreState(queue, members, deadline)
    }

    /**
     * Over whatever the store already holds (`initial`: the store outlives the process); the
     * set key is derived from the queue name.
     */
    constructor (queueName: string, windowSeconds: int, initial: StoreState)
      ensures webhookQueueName == queueName && deduplicationWindowSeconds == windowSeconds
      ensures processedSetKey == ProcessedSetKey(queueName)
      ensures State() == initial
    {
      webhookQueueName := queueName;
      processedSetKey := ProcessedSetKey(queueName);
      deduplicationWindowSeconds := windowSeconds;
      queue, members, deadline := initial.queue, initial.members, initial.deadline;
    }

    /** Appends the payload at the tail; the processed set and its expiry are untouched. */
    method EnqueueWebhook(payload: string, up: bool) returns (ok: bool)
      modifies this
      ensures ok == up
      ensures State() == if up then Pushed(old(State()), payload) else old(State())
      ensures members == old(members) && deadline == old(deadline)
    {
      if !up {
        return false;
      }
      queue := queue + [payload];
      ok := true;
    }

    /**
     * Removes and returns the head; `None` when the queue stays empty for the timeout
     * (how long the wait lasts is not modelled).
     */
    method DequeueWebhook(timeoutSeconds: int, up: bool) returns (r: Reply<Option<string>>)
      modifies this
      ensures r.ConnectionFailure? <==> !up
      ensures up ==> (State(), r.value) == Popped(old(State()))
      ensures !up ==> State() == old(State())
    {
      if !up {
        return ConnectionFailure;
      }
      if queue == [] {
        return Reply(None);
      }
      var head := queue[0];
      queue := queue[1..];
      r := Reply(Some(head));
    }

    /** Membership in the processed set as it stands at `now`; changes nothing. */
    method IsWebhookProcessed(webhookId: string, now: int, up: bool) returns (r: Reply<bool>)
      ensures r.ConnectionFailure? <==> !up
      ensures up ==> r.value == (webhookId in Live(State(), now))
    {
      if !up {
        return ConnectionFailure;
      }
      var expired := deadline.Some? && now > deadline.value;
      r := Reply(!expired && webhookId in members);
    }

    /** Adds the id, then resets the whole set's expiry to the deduplication window. */
    method MarkWebhookAsProcessed(webhookId: string, now: int, up: bool) returns (ok: bool)
      modifies this
      ensures ok == up
      ensures State() == if up then Marked(old(State()), webhookId, now, deduplicationWindowSeconds) else old(State())
      ensures queue == old(queue)
    {
      if !up {
        return false;
      }
      if deadline.Some? && now > deadline.value {
        members, deadline := {}, None;
      }
      members := members + {webhookId};
      if deduplicationWindowSeconds > 0 {
        deadline := Some(now + deduplicationWindowSeconds * 1000);
      } else {
        members, deadline := {}, None;
      }
      ok := true;
    }
  }

  // ----- Properties of the store operations -----

  function PushAll(s: StoreState, payloads: seq<string>): StoreState
    decreases |payloads|
  {
    if payloads == [] then s else PushAll(Pushed(s, payloads[0]), payloads[1..])
  }

  /** Pops `n` times; the popped values in order (an empty pop contributes nothing). */
  function PopN(s: StoreState, n: nat): (StoreState, seq<string>)
    decreases n
  {
    if n == 0 then (s, [])
    else
      var (s1, head) := Popped(s);
      var (s2, rest) := PopN(s1, n - 1);
      (s2, (if head.Some? then [head.value] else []) + rest)
  }

  lemma {:induction false} PushAllAppends(s: StoreState, payloads: seq<string>)
    ensures PushAll(s, payloads) == s.(queue := s.queue + payloads)
    decreases |payloads|
  {
    if payloads != [] {
      PushAllAppends(Pushed(s, payloads[0]), payloads[1..]);
      assert s.queue + [payloads[0]] + payloads[1..] == s.queue + payloads;
    }
  }

  lemma {:induction false} PopNTakesPrefix(s: StoreState, n: nat)
    requires n <= |s.queue|
    ensures PopN(s, n) == (s.(queue := s.queue[n..]), s.queue[..n])
    decreases n
  {
    if n > 0 {
      var s1 := Popped(s).0;
      PopNTakesPrefix(s1, n - 1);
      assert s1.queue[n - 1..] == s.queue[n..];
      assert [s.queue[0]] + s1.queue[..n - 1] == s.queue[..n];
    }
  }

  /**
   * FIFO: after pushing `payloads` behind what is queued, popping everything returns the old
   * contents and then the payloads, in push order, and leaves the queue empty.
   */
  lemma FifoOrder(s: StoreState, payloads: seq<string>)
    ensures PopN(PushAll(s, payloads), |s.queue| + |payloads|)
         == (s.(queue := []), s.queue + payloads)
  {
    PushAllAppends(s, payloads);
    var t := PushAll(s, payloads);
    PopNTakesPrefix(t, |t.queue|);
    assert t.queue[..|t.queue|] == t.queue;
    assert t.queue[|t.queue|..] == [];
  }

  lemma FifoThree(e1: string, e2: string, e3: string, members: set<string>, deadline: Option<int>)
    ensures PopN(PushAll(StoreState([], members, deadline), [e1, e2, e3]), 3).1 == [e1, e2, e3]
  {
    FifoOrder(StoreState([], members, deadline), [e1, e2, e3]);
  }

  /** Popping an empty queue yields nothing and changes nothing. */
  lemma PopEmptyUnchanged(s: StoreState)
    requires s.queue == []
    ensures Popped(s) == (s, None)
  {
  }

  /**
   * After a mark with a positive window, the id reads as processed from `now` until the
   * window has elapsed, and not after.
   */
  lemma MarkedIsProcessedWithinWindow(s: StoreState, id: string, now: int, windowSeconds: int, t: int)
    requires windowSeconds > 0 && now <= t
    ensures id in Live(Marked(s, id, now, windowSeconds), t) <==> t <= now + windowSeconds * 1000
  {
  }

  /**
   * The window is a rolling time to live on the whole set: a mark keeps every member that was
   * live alive until the new deadline, however old its own mark was.
   */
  lemma MarkExtendsEveryMember(s: StoreState, id: string, now: int, windowSeconds: int, x: string, t: int)
    requires windowSeconds > 0 && x in Live(s, now) && now <= t <= now + windowSeconds * 1000
    ensures x in Live(Marked(s, id, now, windowSeconds), t)
  {
  }

  /** Marking an id that is already live leaves the set's contents as they were. */
  lemma MarkIdempotent(s: StoreState, id: string, now: int, windowSeconds: int)
    requires windowSeconds > 0 && id in Live(s, now)
    ensures Marked(s, id, now, windowSeconds).members == Live(s, now)
    ensures Marked(Marked(s, id, now, windowSeconds), id, now, windowSeconds) == Marked(s, id, now, windowSeconds)
  {
  }

  /** With a non-positive window the expiry deletes the set: nothing reads as processed. */
  lemma NonPositiveWindowForgets(s: StoreState, id: string, now: int, windowSeconds: int, t: int)
    requires windowSeconds <= 0
    ensures Live(Marked(s, id, now, windowSeconds), t) == {}
  {
  }

  /** The queue and the processed set are independent: pushes and pops keep the set, marks keep the queue. */
  lemma QueueAndSetIndependent(s: StoreState, p: string, id: string, now: int, windowSeconds: int)
    ensures Pushed(s, p).members == s.members && Pushed(s, p).deadline == s.deadline
    ensures Popped(s).0.members == s.members && Popped(s).0.deadline == s.deadline
    ensures Marked(s, id, now, windowSeconds).queue == s.queue
  {
  }
}
