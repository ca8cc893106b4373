/**
 * The forwarding worker: pop an envelope, skip it if its id is in the processed set, otherwise
 * send it to the Splunk HTTP Event Collector (`/services/collector/event`) and mark the id only
 * when the send succeeded. The HTTP result, the clock and the store's reachability are inputs.
 */
module SplunkForwarder {
  import opened Base
  import opened JsonModel
  import opened RedisQueue

  const HEC_HOST: string := "stream-webhook-forwarder-java"
  const HEC_SOURCE: string := "stream-chat-webhook"
  const HEC_SOURCETYPE: string := "_json"

  /** The `fields` object of a HEC event. */
  datatype HecFields = HecFields(xWebhookId: string, xApiKey: string)

  /** A HEC event record as the worker posts it. */
  datatype HecEvent = HecEvent(event: Json, time: int, host: string, source: string, sourcetype: string, fields: HecFields)

  /**
   * The event `forwardToSplunk` builds from a parsed envelope. A missing `original_payload`
   * is written as null.
   */
  function HecPayload(webhookData: Json): (r: HecEvent)
    ensures r.event == (if webhookData.JObj? && "original_payload" in webhookData.fields
                        then webhookData.fields["original_payload"] else JNull)
    ensures InLongRange(r.time)
    ensures (webhookData.JObj? && "timestamp" in webhookData.fields && webhookData.fields["timestamp"].JNum?
             && InLongRange(webhookData.fields["timestamp"].n))
            ==> r.time == webhookData.fields["timestamp"].n
    ensures r.host == HEC_HOST && r.source == HEC_SOURCE && r.sourcetype == HEC_SOURCETYPE
    ensures r.fields.xWebhookId == WebhookIdOf(webhookData)
    ensures (webhookData.JObj? && "x_api_key" in webhookData.fields && webhookData.fields["x_api_key"].JStr?)
            ==> r.fields.xApiKey == webhookData.fields["x_api_key"].s
  {
    var payload := Path(webhookData, "original_payload");
    HecEvent(
      if payload.Some? then payload.value else JNull,
      AsLong(Path(webhookData, "timestamp")),
      HEC_HOST, HEC_SOURCE, HEC_SOURCETYPE,
      HecFields(WebhookIdOf(webhookData), AsText(Path(webhookData, "x_api_key"))))
  }

  /**
   * How the POST to the collector ends: it completes, or it raises an HTTP 4xx/5xx error, a
   * network error, or some other exception.
   */
  datatype PostOutcome = Completed | HttpStatusError(status: int) | ConnectionError | UnexpectedError

  /** `forwardToSplunk`: the event handed to the sink, and true only when the POST completed. */
  function ForwardToSplunk(webhookData: Json, post: PostOutcome): (r: (HecEvent, bool))
    ensures r.0 == HecPayload(webhookData)
    ensures r.1 <==> post.Completed?
    ensures !r.1 <==> post.HttpStatusError? || post.ConnectionError? || post.UnexpectedError?
  {
    (HecPayload(webhookData), post.Completed?)
  }

  /** How `processAndForward` ends for one popped envelope. */
  datatype ProcessResult =
    | Unparseable                                   // the envelope is not JSON; dropped
    | StoreFailed                                   // the store raised; dropped
    | Duplicate(webhookId: string)                  // already processed; the sink is not called
    | Forwarded(webhookId: string, sent: HecEvent)  // sink succeeded; id marked processed
    | ForwardFailed(webhookId: string, sent: HecEvent) // sink failed; not marked, not re-queued

  /** How many times the sink was called. */
  function SinkCalls(r: ProcessResult): nat {
    if r.Forwarded? || r.ForwardFailed? then 1 else 0
  }

  /** The id the worker reads from an envelope (`path("x_webhook_id").asText()`, never null). */
  function WebhookIdOf(webhookData: Json): string {
    AsText(Path(webhookData, "x_webhook_id"))
  }

  /** Specification of `processAndForward`: the new store and the outcome. */
  function Process(s: StoreState, raw: string, now: int, windowSeconds: int, mapper: Mapper, up: bool, post: PostOutcome)
    : (StoreState, ProcessResult)
  {
    match mapper.readText(raw)
    case None => (s, Unparseable)
    case Some(webhookData) =>
      var id := WebhookIdOf(webhookData);
      if !up then (s, StoreFailed)
      else if id in Live(s, now) then (s, Duplicate(id))
      else
        var (sent, success) := ForwardToSplunk(webhookData, post);
        if success then (Marked(s, id, now, windowSeconds), Forwarded(id, sent))
        else (s, ForwardFailed(id, sent))
  }

  /** The blocking-pop timeout: the poll interval in whole seconds, Java long division. */
  function PollTimeoutSeconds(pollIntervalMs: int): (t: int)
    ensures pollIntervalMs >= 0 ==> 0 <= t && t * 1000 <= pollIntervalMs < (t + 1) * 1000
    ensures pollIntervalMs < 0 ==> t <= 0 && (t - 1) * 1000 < pollIntervalMs <= t * 1000
  {
    JavaDiv(pollIntervalMs, 1000)
  }

  /**
   * What the environment does during one loop iteration: the clock, whether the store answers
   * the pop and the calls made while processing, how the POST ends, and whether the worker
   * thread is interrupted.
   */
  datatype Round = Round(now: int, popUp: bool, storeUp: bool, post: PostOutcome, interrupted: bool)

  /**
   * One pass of the worker loop: nothing popped, an envelope popped and processed, or a store
   * exception followed by the one-second pause (during which an interrupt stops the worker).
   */
  datatype Iteration = Idle | Handled(envelope: string, result: ProcessResult) | Backoff

  /** Specification of one iteration of `pollQueueAndForward`. */
  function Poll(s: StoreState, round: Round, windowSeconds: int, mapper: Mapper): (StoreState, Iteration) {
    if !round.popUp then (s, Backoff)
    else
      match Popped(s)
      case (_, None) => (s, Idle)
      case (s1, Some(raw)) =>
        var (s2, result) := Process(s1, raw, round.now, windowSeconds, mapper, round.storeUp, round.post);
        (s2, Handled(raw, result))
  }

  /** Whether the iteration clears `running`. */
  predicate Stops(it: Iteration, round: Round) {
    it.Backoff? && round.interrupted
  }

  /** Iterations of the worker loop over successive rounds, until an interrupt stops it. */
  function Run(s: StoreState, rounds: seq<Round>, windowSeconds: int, mapper: Mapper): (StoreState, seq<Iteration>)
    decreases |rounds|
  {
    if rounds == [] then (s, [])
    else
      var (s1, it) := Poll(s, rounds[0], windowSeconds, mapper);
      if Stops(it, rounds[0]) then (s1, [it])
      else
        var (s2, rest) := Run(s1, rounds[1..], windowSeconds, mapper);
        (s2, [it] + rest)
  }

  class SplunkForwarderService {
    const redisQueueService: RedisQueueService
    const mapper: Mapper
    const pollIntervalMs: int
    var running: bool

    constructor (store: RedisQueueService, m: Mapper, intervalMs: int)
      ensures redisQueueService == store && mapper == m && pollIntervalMs == intervalMs && running
    {
      redisQueueService := store;
      mapper := m;
      pollIntervalMs := intervalMs;
      running := true;
    }

    method ProcessAndForward(rawWebhookData: string, now: int, up: bool, post: PostOutcome) returns (r: ProcessResult)
      modifies redisQueueService
      ensures (redisQueueService.State(), r)
           == Process(old(redisQueueService.State()), rawWebhookData, now,
                      redisQueueService.deduplicationWindowSeconds, mapper, up, post)
    {
      var parsed := mapper.readText(rawWebhookData);
      if parsed.None? {
        return Unparseable;
      }
      var webhookData := parsed.value;
      var webhookId := WebhookIdOf(webhookData);
      var seen := redisQueueService.IsWebhookProcessed(webhookId, now, up);
      if seen.ConnectionFailure? {
        return StoreFailed;
      }
      if seen.value {
        return Duplicate(webhookId);
      }
      var (sent, success) := ForwardToSplunk(webhookData, post);
      if success {
        var _ := redisQueueService.MarkWebhookAsProcessed(webhookId, now, up);
        r := Forwarded(webhookId, sent);
      } else {
        r := ForwardFailed(webhookId, sent);
      }
    }

    /** The body of the `while (running)` loop. */
    method PollOnce(round: Round) returns (it: Iteration)
      modifies this, redisQueueService
      ensures (redisQueueService.State(), it)
           == Poll(old(redisQueueService.State()), round, redisQueueService.deduplicationWindowSeconds, mapper)
      ensures running == (old(running) && !Stops(it, round))
    {
      var timeout := PollTimeoutSeconds(pollIntervalMs);
      var popped := redisQueueService.DequeueWebhook(timeout, round.popUp);
      if popped.ConnectionFailure? {
        // logged, then a one-second pause; an interrupt during the pause stops the worker
        it := Backoff;
        if round.interrupted {
          running := false;
        }
        return;
      }
      if popped.value.None? {
        return Idle;
      }
      var result := ProcessAndForward(popped.value.value, round.now, round.storeUp, round.post);
      it := Handled(popped.value.value, result);
    }

    /** `pollQueueAndForward`: loop while running, one round of the environment per iteration. */
    method PollQueueAndForward(rounds: seq<Round>) returns (its: seq<Iteration>)
      modifies this, redisQueueService
      ensures old(running) ==>
                (redisQueueService.State(), its)
                == Run(old(redisQueueService.State()), rounds, redisQueueService.deduplicationWindowSeconds, mapper)
      ensures !old(running) ==> its == [] && redisQueueService.State() == old(redisQueueService.State()) && !running
      ensures old(running) && running ==> |its| == |rounds|
      ensures old(running) && !running ==> 0 < |its| <= |rounds| && Stops(its[|its| - 1], rounds[|its| - 1])
    {
      ghost var s0 := redisQueueService.State();
      ghost var wasRunning := running;
      var w := redisQueueService.deduplicationWindowSeconds;
      var i := 0;
      its := [];
      assert rounds[0..] == rounds;
      assert its + Run(s0, rounds, w, mapper).1 == Run(s0, rounds, w, mapper).1;
      while running && i < |rounds|
        invariant 0 <= i <= |rounds| && |its| == i
        invariant wasRunning && !running ==> 0 < i && Stops(its[i - 1], rounds[i - 1])
        invariant !wasRunning ==> !running && i == 0 && its == [] && redisQueueService.State() == s0
        invariant wasRunning && running ==> (Run(s0, rounds, w, mapper)
                               == (Run(redisQueueService.State(), rounds[i..], w, mapper).0,
                                   its + Run(redisQueueService.State(), rounds[i..], w, mapper).1))
        invariant wasRunning && !running ==> Run(s0, rounds, w, mapper) == (redisQueueService.State(), its)
        decreases |rounds| - i
      {
        ghost var before := redisQueueService.State();
        var it := PollOnce(rounds[i]);
        assert rounds[i..][0] == rounds[i] && rounds[i..][1..] == rounds[i + 1..];
        ghost var after := redisQueueService.State();
        if wasRunning && running {
          ghost var rest := Run(after, rounds[i + 1..], w, mapper).1;
          assert Run(before, rounds[i..], w, mapper) == (Run(after, rounds[i + 1..], w, mapper).0, [it] + rest);
          assert its + ([it] + rest) == (its + [it]) + rest;
        }
        its := its + [it];
        i := i + 1;
      }
      if wasRunning && running {
        assert rounds[i..] == [];
        assert its + [] == its;
      }
    }
  }

  // ----- Properties of one processing step -----

  /** An envelope whose id is already processed is skipped: no sink call, nothing marked. */
  lemma DuplicateIsNotForwarded(s: StoreState, raw: string, now: int, windowSeconds: int, mapper: Mapper, post: PostOutcome)
    requires mapper.readText(raw).Some? && WebhookIdOf(mapper.readText(raw).value) in Live(s, now)
    ensures Process(s, raw, now, windowSeconds, mapper, true, post)
         == (s, Duplicate(WebhookIdOf(mapper.readText(raw).value)))
    ensures SinkCalls(Process(s, raw, now, windowSeconds, mapper, true, post).1) == 0
  {
  }

  /**
   * The id is marked exactly when the sink succeeded; every other outcome leaves the store as
   * it was (a failed delivery is neither marked nor put back on the queue).
   */
  lemma MarkedIffDelivered(s: StoreState, raw: string, now: int, windowSeconds: int, mapper: Mapper, up: bool, post: PostOutcome)
    ensures var (s', r) := Process(s, raw, now, windowSeconds, mapper, up, post);
      (r.Forwarded? <==> mapper.readText(raw).Some? && up
                          && WebhookIdOf(mapper.readText(raw).value) !in Live(s, now) && post.Completed?)
      && s' == (if r.Forwarded? then Marked(s, r.webhookId, now, windowSeconds) else s)
      && s'.queue == s.queue
  {
  }

  /** After a successful delivery with a positive window the id reads as processed. */
  lemma DeliveredIdIsProcessed(s: StoreState, raw: string, now: int, windowSeconds: int, mapper: Mapper, post: PostOutcome)
    requires windowSeconds > 0
    requires Process(s, raw, now, windowSeconds, mapper, true, post).1.Forwarded?
    ensures var (s', r) := Process(s, raw, now, windowSeconds, mapper, true, post);
      r.webhookId in Live(s', now)
  {
  }

  /** Every failure branch of the POST reports failure, and the envelope is dropped unmarked. */
  lemma FailedPostDropsEnvelope(s: StoreState, raw: string, now: int, windowSeconds: int, mapper: Mapper, up: bool, post: PostOutcome)
    requires !post.Completed?
    ensures Process(s, raw, now, windowSeconds, mapper, up, post).0 == s
    ensures !Process(s, raw, now, windowSeconds, mapper, up, post).1.Forwarded?
  {
  }

  /**
   * Two envelopes with the same id processed one after the other, the first delivery
   * succeeding and the second inside the window: the sink is called exactly once.
   */
  lemma SameIdTwiceCallsSinkOnce(s: StoreState, raw1: string, raw2: string, now1: int, now2: int, windowSeconds: int,
                                 mapper: Mapper, post2: PostOutcome)
    requires mapper.readText(raw1).Some? && mapper.readText(raw2).Some?
    requires WebhookIdOf(mapper.readText(raw1).value) == WebhookIdOf(mapper.readText(raw2).value)
    requires WebhookIdOf(mapper.readText(raw1).value) !in Live(s, now1)
    requires windowSeconds > 0 && now1 <= now2 <= now1 + windowSeconds * 1000
    ensures var (s1, r1) := Process(s, raw1, now1, windowSeconds, mapper, true, Completed);
            var (s2, r2) := Process(s1, raw2, now2, windowSeconds, mapper, true, post2);
            SinkCalls(r1) + SinkCalls(r2) == 1 && r2.Duplicate?
  {
    var id := WebhookIdOf(mapper.readText(raw1).value);
    MarkedIsProcessedWithinWindow(s, id, now1, windowSeconds, now2);
  }

  /** A pop on an empty queue processes nothing and changes nothing. */
  lemma EmptyPollIsIdle(s: StoreState, round: Round, windowSeconds: int, mapper: Mapper)
    requires s.queue == [] && round.popUp
    ensures Poll(s, round, windowSeconds, mapper) == (s, Idle)
  {
  }

  // ----- Properties of the loop -----

  /** The envelopes the loop handled, in the order it handled them. */
  function HandledEnvelopes(its: seq<Iteration>): seq<string> {
    if its == [] then []
    else (if its[0].Handled? then [its[0].envelope] else []) + HandledEnvelopes(its[1..])
  }

  /** One iteration handles the head of the queue and removes it, or leaves the queue alone. */
  lemma PollTakesHead(s: StoreState, round: Round, windowSeconds: int, mapper: Mapper)
    ensures var (s1, it) := Poll(s, round, windowSeconds, mapper);
      if it.Handled? then s.queue != [] && it.envelope == s.queue[0] && s1.queue == s.queue[1..]
      else s1.queue == s.queue
  {
  }

  /** Handling the head and then a prefix of the tail handles a prefix of the queue. */
  lemma PrefixAfterHead(q: seq<string>, k: nat)
    requires q != [] && k <= |q| - 1
    ensures [q[0]] + q[1..][..k] == q[..k + 1]
    ensures q[1..][k..] == q[k + 1..]
  {
  }

  /**
   * The worker consumes the queue from the head, in FIFO order, each envelope once: the
   * envelopes it handled are a prefix of the queue and what is left is the rest.
   */
  lemma {:induction false} RunConsumesQueueInOrder(s: StoreState, rounds: seq<Round>, windowSeconds: int, mapper: Mapper)
    ensures var (s', its) := Run(s, rounds, windowSeconds, mapper);
      var k := |HandledEnvelopes(its)|;
      k <= |s.queue| && HandledEnvelopes(its) == s.queue[..k] && s'.queue == s.queue[k..]
    decreases |rounds|
  {
    if rounds != [] {
      var (s1, it) := Poll(s, rounds[0], windowSeconds, mapper);
      PollTakesHead(s, rounds[0], windowSeconds, mapper);
      if !Stops(it, rounds[0]) {
        RunConsumesQueueInOrder(s1, rounds[1..], windowSeconds, mapper);
        var (s2, rest) := Run(s1, rounds[1..], windowSeconds, mapper);
        assert ([it] + rest)[1..] == rest;
        if it.Handled? {
          PrefixAfterHead(s.queue, |HandledEnvelopes(rest)|);
        }
      } else {
        assert HandledEnvelopes([it]) == [];
      }
    }
  }

  /** Whether some iteration delivered `id` successfully. */
  predicate DeliveredSomewhere(its: seq<Iteration>, id: string) {
    exists j :: 0 <= j < |its| && its[j].Handled? && its[j].result.Forwarded? && its[j].result.webhookId == id
  }

  /**
   * A processed marker is only ever created by a successful delivery: every member of the
   * processed set after the loop was a member before it or was delivered by one of its iterations.
   */
  lemma {:induction false} MarkersComeFromDeliveries(s: StoreState, rounds: seq<Round>, windowSeconds: int, mapper: Mapper, x: string)
    requires x in Run(s, rounds, windowSeconds, mapper).0.members
    ensures x in s.members || DeliveredSomewhere(Run(s, rounds, windowSeconds, mapper).1, x)
    decreases |rounds|
  {
    if rounds != [] {
      var (s1, it) := Poll(s, rounds[0], windowSeconds, mapper);
      assert s1.members <= s.members + (if it.Handled? && it.result.Forwarded? then {it.result.webhookId} else {});
      if !Stops(it, rounds[0]) {
        var (s2, rest) := Run(s1, rounds[1..], windowSeconds, mapper);
        if x in s1.members {
          if x !in s.members {
            assert ([it] + rest)[0] == it;
          }
        } else {
          MarkersComeFromDeliveries(s1, rounds[1..], windowSeconds, mapper, x);
          var j :| 0 <= j < |rest| && rest[j].Handled? && rest[j].result.Forwarded? && rest[j].result.webhookId == x;
          assert ([it] + rest)[j + 1] == rest[j];
        }
      } else {
        assert [it][0] == it;
      }
    }
  }

  /** Pushing the same envelope twice and running the worker over both: one sink call in total. */
  lemma SameEnvelopeTwiceDeliveredOnce(s: StoreState, e: string, r1: Round, r2: Round, windowSeconds: int, mapper: Mapper)
    requires s.queue == [] && mapper.readText(e).Some? && WebhookIdOf(mapper.readText(e).value) !in Live(s, r1.now)
    requires r1.popUp && r1.storeUp && r1.post.Completed? && r2.popUp && r2.storeUp
    requires windowSeconds > 0 && r1.now <= r2.now <= r1.now + windowSeconds * 1000
    ensures var its := Run(Pushed(Pushed(s, e), e), [r1, r2], windowSeconds, mapper).1;
      |its| == 2 && its[0].Handled? && its[1].Handled?
      && SinkCalls(its[0].result) + SinkCalls(its[1].result) == 1
  {
    var t := Pushed(Pushed(s, e), e);
    assert t.queue == [e, e];
    var u := t.(queue := [e]);
    assert Popped(t) == (u, Some(e));
    SameIdTwiceCallsSinkOnce(u, e, e, r1.now, r2.now, windowSeconds, mapper, r2.post);
    var (s1, p1) := Process(u, e, r1.now, windowSeconds, mapper, true, r1.post);
    assert Poll(t, r1, windowSeconds, mapper) == (s1, Handled(e, p1));
    assert s1.queue == [e];
    var v := s1.(queue := []);
    assert Popped(s1) == (v, Some(e));
    var (s2, p2) := Process(v, e, r2.now, windowSeconds, mapper, true, r2.post);
    assert Process(s1.(queue := []), e, r2.now, windowSeconds, mapper, true, r2.post).1
        == Process(s1, e, r2.now, windowSeconds, mapper, true, r2.post).1;
    assert Poll(s1, r2, windowSeconds, mapper) == (s2, Handled(e, p2));
    assert [r1, r2][1..] == [r2] && [r2][1..] == [];
    assert Run(s2, [], windowSeconds, mapper) == (s2, []);
    assert [r2][0] == r2 && !Stops(Handled(e, p2), r2);
    assert [Handled(e, p2)] + [] == [Handled(e, p2)];
    assert Run(s1, [r2], windowSeconds, mapper) == (s2, [Handled(e, p2)]);
  }
}
