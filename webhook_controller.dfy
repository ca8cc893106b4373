/**
 * The ingress handler for `POST /webhook`: check the signature, wrap the parsed body in an
 * envelope with the receive time, the webhook id and the API key, and push it on the queue.
 */
module Webhook {
  import opened Base
  import opened JsonModel
  import opened SignatureVerifier
  import opened RedisQueue
  import opened SplunkForwarder

  /**
   * What the handler produces: a response, or an exception that escapes it (the web framework
   * then answers with its own error response).
   */
  datatype HttpReply = Response(status: int, body: string) | Escaped

  const OK: HttpReply := Response(200, "OK")
  const FORBIDDEN: HttpReply := Response(403, "Invalid X-Signature")
  const SERVER_ERROR: HttpReply := Response(500, "Internal Server Error")

  /**
   * One request: the raw body and the `X-Signature` header as UTF-8 bytes, and the
   * `X-Webhook-Id` and `X-Api-Key` headers. The framework rejects a request missing any of
   * them before the handler runs.
   */
  datatype Request = Request(rawBody: seq<jbyte>, xSignature: seq<jbyte>, xWebhookId: string, xApiKey: string)

  /** `Instant.getEpochSecond()` of an instant given in epoch milliseconds (rounds down). */
  function EpochSecond(nowMs: int): (t: int)
    ensures t * 1000 <= nowMs < (t + 1) * 1000
  {
    nowMs / 1000
  }

  /** The envelope pushed on the queue: metadata around the parsed body. */
  function Envelope(timestamp: int, xWebhookId: string, xApiKey: string, payload: Json): (r: Json)
    ensures r.JObj? && r.fields.Keys == {"timestamp", "x_webhook_id", "x_api_key", "original_payload"}
    ensures AsText(Path(r, "x_webhook_id")) == xWebhookId && AsText(Path(r, "x_api_key")) == xApiKey
    ensures Path(r, "original_payload") == Some(payload)
    ensures InLongRange(timestamp) ==> AsLong(Path(r, "timestamp")) == timestamp
  {
    JObj(map[
      "timestamp" := JNum(timestamp),
      "x_webhook_id" := JStr(xWebhookId),
      "x_api_key" := JStr(xApiKey),
      "original_payload" := payload])
  }

  /** Specification of `receiveWebhook`: the new store and the reply. */
  function Ingress(s: StoreState, req: Request, nowMs: int, apiSecret: seq<jbyte>, crypto: Crypto, mapper: Mapper, up: bool)
    : (StoreState, HttpReply)
  {
    match Verification(Some(req.rawBody), Some(req.xSignature), Some(apiSecret), crypto)
    case ThrowsIllegalArgument => (s, Escaped)
    case Returns(valid) =>
      if !valid then (s, FORBIDDEN)
      else
        match mapper.readBody(req.rawBody)
        case None => (s, SERVER_ERROR)
        case Some(payload) =>
          if up then (Pushed(s, mapper.write(Envelope(EpochSecond(nowMs), req.xWebhookId, req.xApiKey, payload))), OK)
          else (s, SERVER_ERROR)
  }

  class WebhookController {
    const redisQueueService: RedisQueueService
    const streamApiSecret: seq<jbyte>
    const crypto: Crypto
    const mapper: Mapper

    constructor (store: RedisQueueService, secret: seq<jbyte>, c: Crypto, m: Mapper)
      ensures redisQueueService == store && streamApiSecret == secret && crypto == c && mapper == m
    {
      redisQueueService := store;
      streamApiSecret := secret;
      crypto := c;
      mapper := m;
    }

    method ReceiveWebhook(rawBody: seq<jbyte>, xSignature: seq<jbyte>, xWebhookId: string, xApiKey: string,
                          nowMs: int, up: bool) returns (reply: HttpReply)
      modifies redisQueueService
      ensures (redisQueueService.State(), reply)
           == Ingress(old(redisQueueService.State()), Request(rawBody, xSignature, xWebhookId, xApiKey),
                      nowMs, streamApiSecret, crypto, mapper, up)
    {
      var verdict := VerifySignature(Some(rawBody), Some(xSignature), Some(streamApiSecret), crypto);
      if verdict.ThrowsIllegalArgument? {
        // raised outside the handler's try block
        return Escaped;
      }
      if !verdict.valid {
        return FORBIDDEN;
      }
      var parsed := mapper.readBody(rawBody);
      if parsed.None? {
        return SERVER_ERROR;
      }
      var webhookData := Envelope(EpochSecond(nowMs), xWebhookId, xApiKey, parsed.value);
      var ok := redisQueueService.EnqueueWebhook(mapper.write(webhookData), up);
      if !ok {
        return SERVER_ERROR;
      }
      reply := OK;
    }
  }

  // ----- Properties of the handler -----

  /**
   * The handler answers 200, 403 or 500, or lets the empty-secret exception escape; 403
   * exactly for a bad signature, and the exception exactly when the secret is empty.
   */
  lemma IngressReplies(s: StoreState, req: Request, nowMs: int, apiSecret: seq<jbyte>, crypto: Crypto, mapper: Mapper, up: bool)
    ensures var reply := Ingress(s, req, nowMs, apiSecret, crypto, mapper, up).1;
      (reply == OK || reply == FORBIDDEN || reply == SERVER_ERROR || reply == Escaped)
      && (reply == Escaped <==> apiSecret == [])
      && (reply == FORBIDDEN <==> apiSecret != [] && Verification(Some(req.rawBody), Some(req.xSignature), Some(apiSecret), crypto) == Returns(false))
  {
  }

  /**
   * Only a 200 changes the store, and then by exactly one envelope at the tail of the queue;
   * 200 comes exactly with a good signature, a parseable body and a reachable store.
   */
  lemma AcceptedAppendsOneEnvelope(s: StoreState, req: Request, nowMs: int, apiSecret: seq<jbyte>, crypto: Crypto,
                                   mapper: Mapper, up: bool)
    ensures var (s', reply) := Ingress(s, req, nowMs, apiSecret, crypto, mapper, up);
      (reply == OK <==> Verification(Some(req.rawBody), Some(req.xSignature), Some(apiSecret), crypto) == Returns(true)
                        && mapper.readBody(req.rawBody).Some? && up)
      && (reply == OK ==> s' == Pushed(s, mapper.write(Envelope(EpochSecond(nowMs), req.xWebhookId, req.xApiKey,
                                                                  mapper.readBody(req.rawBody).value))))
      && (reply != OK ==> s' == s)
  {
  }

  /** A request whose signature is not the HMAC of its body is refused with 403 and nothing is queued. */
  lemma ForgedRequestRejected(s: StoreState, req: Request, nowMs: int, apiSecret: seq<jbyte>, crypto: Crypto,
                              mapper: Mapper, up: bool)
    requires apiSecret != []
    requires DecodeHex(req.xSignature) != Some(crypto.hmacSha256(apiSecret, req.rawBody))
    ensures Ingress(s, req, nowMs, apiSecret, crypto, mapper, up) == (s, FORBIDDEN)
  {
    if crypto.providerAvailable {
      AcceptedIffDecodesToHmac(req.rawBody, req.xSignature, apiSecret, crypto);
    }
  }

  /** The handler never reads or changes the processed set. */
  lemma IngressKeepsProcessedSet(s: StoreState, req: Request, nowMs: int, apiSecret: seq<jbyte>, crypto: Crypto,
                                 mapper: Mapper, up: bool)
    ensures Ingress(s, req, nowMs, apiSecret, crypto, mapper, up).0.members == s.members
    ensures Ingress(s, req, nowMs, apiSecret, crypto, mapper, up).0.deadline == s.deadline
  {
  }

  /** Retrying an accepted request enqueues a second envelope: the handler does no deduplication. */
  lemma RepeatedRequestEnqueuesTwice(s: StoreState, req: Request, nowMs: int, apiSecret: seq<jbyte>, crypto: Crypto,
                                     mapper: Mapper)
    requires Ingress(s, req, nowMs, apiSecret, crypto, mapper, true).1 == OK
    ensures var (s1, _) := Ingress(s, req, nowMs, apiSecret, crypto, mapper, true);
      var (s2, reply2) := Ingress(s1, req, nowMs, apiSecret, crypto, mapper, true);
      var e := mapper.write(Envelope(EpochSecond(nowMs), req.xWebhookId, req.xApiKey, mapper.readBody(req.rawBody).value));
      reply2 == OK && s2.queue == s.queue + [e, e]
  {
  }

  /**
   * The keys the handler writes are the keys the worker reads: the HEC event built from an
   * envelope carries its payload, its timestamp and, as fields, its webhook id and API key.
   */
  lemma EnvelopeToHecEvent(timestamp: int, xWebhookId: string, xApiKey: string, payload: Json)
    requires InLongRange(timestamp)
    ensures WebhookIdOf(Envelope(timestamp, xWebhookId, xApiKey, payload)) == xWebhookId
    ensures HecPayload(Envelope(timestamp, xWebhookId, xApiKey, payload))
         == HecEvent(payload, timestamp, HEC_HOST, HEC_SOURCE, HEC_SOURCETYPE, HecFields(xWebhookId, xApiKey))
  {
    var e := Envelope(timestamp, xWebhookId, xApiKey, payload);
    assert Path(e, "original_payload") == Some(payload);
    assert Path(e, "timestamp") == Some(JNum(timestamp));
    assert Path(e, "x_webhook_id") == Some(JStr(xWebhookId));
    assert Path(e, "x_api_key") == Some(JStr(xApiKey));
  }

  /**
   * End to end: an accepted request on an empty queue, then one worker iteration whose delivery
   * succeeds, sends the HEC event for exactly that request and marks its webhook id.
   */
  lemma AcceptedRequestIsForwarded(s: StoreState, req: Request, nowMs: int, apiSecret: seq<jbyte>, crypto: Crypto,
                                   mapper: Mapper, round: Round, windowSeconds: int)
    requires ReadsBackWhatItWrites(mapper) && InLongRange(EpochSecond(nowMs))
    requires s.queue == [] && Ingress(s, req, nowMs, apiSecret, crypto, mapper, true).1 == OK
    requires req.xWebhookId !in Live(s, round.now) && round.popUp && round.storeUp && round.post.Completed? && windowSeconds > 0
    ensures var s1 := Ingress(s, req, nowMs, apiSecret, crypto, mapper, true).0;
      var (s2, it) := Poll(s1, round, windowSeconds, mapper);
      it.Handled?
      && it.result == Forwarded(req.xWebhookId,
                                HecEvent(mapper.readBody(req.rawBody).value, EpochSecond(nowMs),
                                         HEC_HOST, HEC_SOURCE, HEC_SOURCETYPE, HecFields(req.xWebhookId, req.xApiKey)))
      && s2.queue == [] && req.xWebhookId in Live(s2, round.now)
  {
    var envelope := Envelope(EpochSecond(nowMs), req.xWebhookId, req.xApiKey, mapper.readBody(req.rawBody).value);
    assert mapper.readText(mapper.write(envelope)) == Some(envelope);
    EnvelopeToHecEvent(EpochSecond(nowMs), req.xWebhookId, req.xApiKey, mapper.readBody(req.rawBody).value);
  }
}
