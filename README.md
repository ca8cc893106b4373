# Stream Chat → Splunk webhook relay, modelled in Dafny

The relay receives Stream Chat webhooks over HTTP, authenticates them and queues them in Redis. A
background worker then forwards each one to a Splunk HTTP Event Collector (HEC).

- **Ingress.** `POST /webhook` checks the `X-Signature` header. It must be the lowercase hex
  HMAC-SHA256 of the raw body under the shared Stream API secret, compared in constant time. The
  handler then wraps the parsed body in an envelope with the receive time (epoch seconds), the
  webhook id and the API key, and pushes the serialised envelope on the tail of a Redis list.
- **Worker.** A single thread loops while `running` is set. Each pass pops the head of the list,
  skips the envelope if its webhook id is in the "processed" Redis set, and otherwise posts a HEC
  event built from it. The id is added to the processed set only when the post succeeded. Each
  addition resets the time to live of the whole set to the deduplication window.

The model has one Dafny module per source class, plus two support modules:

| module | file | models |
|---|---|---|
| `Base` | `base.dfy` | Java value semantics used by the others: `null` as `Option`, signed bytes, `long` narrowing and truncating division |
| `JsonModel` | `json.dfy` | the Jackson tree accessors the relay uses (`path`, `asText`, `asLong`); the object mapper is a parameter |
| `SignatureVerifier` | `signature_verifier.dfy` | `verifySignature`, `toHexString` and `MessageDigestComparator.isEqual` |
| `RedisQueue` | `redis_queue_service.dfy` | the `RedisQueueService` class over an abstract store state (list, set, expiry deadline) |
| `SplunkForwarder` | `splunk_forwarder_service.dfy` | `processAndForward`, `forwardToSplunk` and the `pollQueueAndForward` loop |
| `Webhook` | `webhook_controller.dfy` | `receiveWebhook` |

Each state-changing operation is a method of a class, proved equal to a pure specification
function:

| method | specification function |
|---|---|
| `EnqueueWebhook` | `Pushed` |
| `DequeueWebhook` | `Popped` |
| `MarkWebhookAsProcessed` | `Marked` |
| `ProcessAndForward` | `Process` |
| `PollOnce` | `Poll` |
| `PollQueueAndForward` | `Run` |
| `ReceiveWebhook` | `Ingress` |

The lemmas state the relay's properties about these functions. Everything outside the process
becomes an explicit input:

- the HMAC function and provider availability (`Crypto`);
- the JSON parser and serialiser (`Mapper`);
- the clock, in epoch milliseconds;
- whether Redis answers a call (`up`);
- how the HTTP post to the collector ends (`PostOutcome`);
- whether the worker thread is interrupted (`Round`).

Where the design intends one thing and the code does another, the model follows the code:

- **Empty inputs to `verifySignature`.** The design intends the method to return false for any
  null or empty input and never to raise. In the code, only nulls return false. An empty body or
  signature goes through the normal comparison, and an empty signature is rejected by the length
  check. An empty secret makes `SecretKeySpec` throw `IllegalArgumentException`, which the
  `catch` clause does not cover. The call sits outside the controller's `try`, so the exception
  leaves the handler (`Outcome.ThrowsIllegalArgument`, `HttpReply.Escaped`).
- **Name of the processed set.** The design names it once as `processed:<queue>`. The code uses
  `"processed_webhooks:" + queueName`.
- **Retries.** The design intends retry and backoff for the worker. The code only pauses for
  one second after an exception escapes a pass, for example from the store. A failed post is
  logged and dropped, neither re-queued nor retried.

## Model

| member | source | states |
|---|---|---|
| `SignatureVerifier.ToHexString` | src/main/java/com/example/util/SignatureVerifier.java:48-54 | the Formatter loop yields the lowercase hex rendering `Hex` of the digest, two characters per byte |
| `SignatureVerifier.HexAt` | src/main/java/com/example/util/SignatureVerifier.java:50-51 | the rendering has length twice the digest, and positions 2i and 2i+1 hold the high and low nibble digits of byte i, read unsigned as "%02x" does |
| `SignatureVerifier.HexShape` | src/main/java/com/example/util/SignatureVerifier.java:48-54 | the rendering is 2n characters long and uses only 0-9 and a-f |
| `SignatureVerifier.HexBytesAt` | src/main/java/com/example/util/SignatureVerifier.java:50-51 | the UTF-8 bytes of the rendering at pair i are the two digits of digest byte i |
| `SignatureVerifier.HexBytesAreDigits` | src/main/java/com/example/util/SignatureVerifier.java:48-54 | every byte of the rendering is a lowercase hex digit |
| `SignatureVerifier.DecodeHexBytes` | src/main/java/com/example/util/SignatureVerifier.java:48-54 | round trip: decoding the rendering of any digest gives the digest back |
| `SignatureVerifier.DecodedAgreesAt` | src/main/java/com/example/util/SignatureVerifier.java:48-54 | a signature that decodes to a digest agrees with that digest's rendering at every position |
| `SignatureVerifier.DecodeHexOnlyFromRendering` | src/main/java/com/example/util/SignatureVerifier.java:48-54 | the rendering is the only byte string that decodes to a given digest |
| `SignatureVerifier.HexInjective` | src/main/java/com/example/util/SignatureVerifier.java:48-54 | distinct digests have distinct renderings |
| `SignatureVerifier.XorZero` | src/main/java/com/example/util/SignatureVerifier.java:64 | the XOR of two int bit patterns is zero exactly when they are equal |
| `SignatureVerifier.OrZero` | src/main/java/com/example/util/SignatureVerifier.java:64 | the OR of two int bit patterns is zero exactly when both are zero |
| `SignatureVerifier.AccumulateStep` | src/main/java/com/example/util/SignatureVerifier.java:64 | one `result \|= a ^ b` step keeps the accumulator at zero exactly when it was zero and the sign-extended bytes agree |
| `SignatureVerifier.IsEqual` | src/main/java/com/example/util/SignatureVerifier.java:57-67 | returns true exactly when the arrays are equal; with different lengths no index is examined, otherwise every index is examined (no early exit) |
| `SignatureVerifier.Verification` | src/main/java/com/example/util/SignatureVerifier.java:20-46 | any null input gives false; the exception occurs exactly when all inputs are present and the secret is empty; an unavailable algorithm or key never gives true |
| `SignatureVerifier.VerifySignature` | src/main/java/com/example/util/SignatureVerifier.java:20-46 | the method (HMAC, hex rendering, constant-time compare) computes exactly `Verification` |
| `SignatureVerifier.AcceptedIffDecodesToHmac` | src/main/java/com/example/util/SignatureVerifier.java:26-40 | with a non-empty secret and a working provider, a signature is accepted exactly when it decodes, as lowercase hex, to the HMAC of the body |
| `SignatureVerifier.RejectsMalformedSignature` | src/main/java/com/example/util/SignatureVerifier.java:40 | a signature of the wrong length, or with any byte outside 0-9a-f (upper case included), is never accepted |
| `SignatureVerifier.RejectsOneByteChange` | src/main/java/com/example/util/SignatureVerifier.java:40 | changing any single byte of the expected signature makes it rejected |
| `JsonModel.Path` | src/main/java/com/example/service/SplunkForwarderService.java:122 | `path(key)` gives the member named `key` exactly when the node is an object holding that key, and the missing node otherwise |
| `JsonModel.NatText` | src/main/java/com/example/service/SplunkForwarderService.java:130 | the decimal digits of a natural number read back as that number, with no leading zero |
| `JsonModel.IntText` | src/main/java/com/example/service/SplunkForwarderService.java:130 | Java's decimal rendering of an integer is decimal text (an optional minus sign, then digits) that reads back as exactly that integer |
| `JsonModel.AsText` | src/main/java/com/example/service/SplunkForwarderService.java:93 | `asText` of a missing node is the empty string (never null), and of a string node its text; a number node gives decimal text that reads back as exactly its value, so it is not narrowed to a long |
| `JsonModel.AsLong` | src/main/java/com/example/service/SplunkForwarderService.java:123 | `asLong` is always a Java long, equals an in-range number and is 0 for a missing node |
| `RedisQueue.ProcessedSetKey` | src/main/java/com/example/service/RedisQueueService.java:26 | the set key is the prefix `processed_webhooks:` followed by the queue name |
| `RedisQueue.ProcessedSetKeyInjective` | src/main/java/com/example/service/RedisQueueService.java:26 | distinct queue names never share a processed set |
| `RedisQueue.RedisQueueService.constructor` | src/main/java/com/example/service/RedisQueueService.java:23-28 | keeps the queue name and window, derives the set key from the queue name, and starts over whatever the store already holds (Redis outlives the process) |
| `RedisQueue.RedisQueueService.EnqueueWebhook` | src/main/java/com/example/service/RedisQueueService.java:30-33 | right push: the payload is appended at the tail, the processed set and its expiry are unchanged; an unreachable store raises and changes nothing |
| `RedisQueue.RedisQueueService.DequeueWebhook` | src/main/java/com/example/service/RedisQueueService.java:35-41 | left pop: removes and returns the head, or returns null and changes nothing on an empty list |
| `RedisQueue.RedisQueueService.IsWebhookProcessed` | src/main/java/com/example/service/RedisQueueService.java:43-45 | true exactly when the id is in the set and the set has not expired; changes nothing |
| `RedisQueue.RedisQueueService.MarkWebhookAsProcessed` | src/main/java/com/example/service/RedisQueueService.java:47-51 | adds the id, then sets the whole set's expiry to now plus the window, or deletes the set when the window is not positive; the queue is unchanged |
| `RedisQueue.PushAllAppends` | src/main/java/com/example/service/RedisQueueService.java:30-33 | successive pushes append the payloads in order |
| `RedisQueue.PopNTakesPrefix` | src/main/java/com/example/service/RedisQueueService.java:35-41 | n pops return the first n entries in order and leave the rest |
| `RedisQueue.FifoOrder` | src/main/java/com/example/service/RedisQueueService.java:30-41 | FIFO: pops return what was queued before and then the new payloads in push order, leaving the list empty |
| `RedisQueue.FifoThree` | src/main/java/com/example/service/RedisQueueService.java:30-41 | three envelopes pushed onto an empty list pop in push order |
| `RedisQueue.PopEmptyUnchanged` | src/main/java/com/example/service/RedisQueueService.java:37-40 | a pop on an empty list yields null and changes nothing |
| `RedisQueue.MarkedIsProcessedWithinWindow` | src/main/java/com/example/service/RedisQueueService.java:47-51 | after a mark with a positive window the id reads as processed exactly until the window has elapsed |
| `RedisQueue.MarkExtendsEveryMember` | src/main/java/com/example/service/RedisQueueService.java:50 | the expiry is on the whole set: any mark keeps every live member alive for a full window |
| `RedisQueue.MarkIdempotent` | src/main/java/com/example/service/RedisQueueService.java:48 | marking a live id adds nothing, and marking twice at once equals marking once |
| `RedisQueue.NonPositiveWindowForgets` | src/main/java/com/example/service/RedisQueueService.java:50 | with a window of zero or less the set is deleted and nothing reads as processed |
| `RedisQueue.QueueAndSetIndependent` | src/main/java/com/example/service/RedisQueueService.java:30-51 | pushes and pops leave the processed set alone; marks leave the queue alone |
| `SplunkForwarder.HecPayload` | src/main/java/com/example/service/SplunkForwarderService.java:120-132 | the HEC event: `event` is the envelope's `original_payload` (null when missing), `time` is `asLong` of `timestamp` (an in-range number is kept), host, source and sourcetype are the fixed strings, and `fields` holds the webhook id and API key |
| `SplunkForwarder.ForwardToSplunk` | src/main/java/com/example/service/SplunkForwarderService.java:115-152 | posts the `HecPayload` event; true exactly when the POST completed, false for an HTTP status error, a network error or any other exception |
| `SplunkForwarder.PollTimeoutSeconds` | src/main/java/com/example/service/SplunkForwarderService.java:71 | the blocking-pop timeout is the poll interval in whole seconds, truncated toward zero |
| `SplunkForwarder.SplunkForwarderService.constructor` | src/main/java/com/example/service/SplunkForwarderService.java:37-43 | the worker starts with `running` set |
| `SplunkForwarder.SplunkForwarderService.ProcessAndForward` | src/main/java/com/example/service/SplunkForwarderService.java:90-113 | the method's store and outcome are exactly `Process`: parse, duplicate check, post, mark on success |
| `SplunkForwarder.SplunkForwarderService.PollOnce` | src/main/java/com/example/service/SplunkForwarderService.java:69-87 | one pass of the loop is exactly `Poll`; `running` is cleared only by an interrupt during the pause after an exception |
| `SplunkForwarder.SplunkForwarderService.PollQueueAndForward` | src/main/java/com/example/service/SplunkForwarderService.java:68-88 | the loop's store and iterations are exactly `Run` over the given rounds; it stops only when `running` is cleared, after an iteration that `Stops` (an interrupt during the back-off), and otherwise has used every round; when not running it does nothing |
| `SplunkForwarder.DuplicateIsNotForwarded` | src/main/java/com/example/service/SplunkForwarderService.java:95-98 | an envelope whose id is already processed is skipped: no post, store unchanged |
| `SplunkForwarder.MarkedIffDelivered` | src/main/java/com/example/service/SplunkForwarderService.java:95-109 | delivery happens exactly for a parseable envelope with an unprocessed id, a reachable store and a completed post; the id is marked exactly then; the queue is untouched |
| `SplunkForwarder.DeliveredIdIsProcessed` | src/main/java/com/example/service/SplunkForwarderService.java:103-104 | after a successful delivery with a positive window the id reads as processed |
| `SplunkForwarder.FailedPostDropsEnvelope` | src/main/java/com/example/service/SplunkForwarderService.java:136-151 | every failing outcome of the post (HTTP error, network error, other exception) leaves the store unchanged and the id unmarked |
| `SplunkForwarder.SameIdTwiceCallsSinkOnce` | src/main/java/com/example/service/SplunkForwarderService.java:90-113 | two envelopes with one id, the first delivered and the second within the window: the collector is called once |
| `SplunkForwarder.EmptyPollIsIdle` | src/main/java/com/example/service/SplunkForwarderService.java:71-77 | a pass over an empty queue processes nothing and changes nothing |
| `SplunkForwarder.PollTakesHead` | src/main/java/com/example/service/SplunkForwarderService.java:71-73 | a pass handles the head of the queue and removes it, or leaves the queue unchanged |
| `SplunkForwarder.RunConsumesQueueInOrder` | src/main/java/com/example/service/SplunkForwarderService.java:68-88 | the loop handles envelopes from the head in FIFO order, each once: what it handled is a prefix of the queue and what is left is the rest |
| `SplunkForwarder.MarkersComeFromDeliveries` | src/main/java/com/example/service/SplunkForwarderService.java:101-104 | every processed marker after the loop was there before or comes from a successful delivery in the loop |
| `SplunkForwarder.SameEnvelopeTwiceDeliveredOnce` | src/main/java/com/example/service/SplunkForwarderService.java:68-113 | one envelope queued twice and both copies handled by the loop: exactly one post |
| `Webhook.EpochSecond` | src/main/java/com/example/controller/WebhookController.java:56 | the envelope timestamp is the epoch second containing the receive time (rounded down) |
| `Webhook.Envelope` | src/main/java/com/example/controller/WebhookController.java:55-59 | the envelope is an object with exactly the keys `timestamp`, `x_webhook_id`, `x_api_key` and `original_payload`, and `path`/`asText`/`asLong` read back the id, the key, the payload and an in-range timestamp |
| `Webhook.WebhookController.constructor` | src/main/java/com/example/controller/WebhookController.java:29-33 | keeps the store, secret, crypto provider and mapper it is given |
| `Webhook.WebhookController.ReceiveWebhook` | src/main/java/com/example/controller/WebhookController.java:35-70 | the handler's store change and reply are exactly `Ingress` |
| `Webhook.IngressReplies` | src/main/java/com/example/controller/WebhookController.java:45-69 | the reply is 200 "OK", 403 "Invalid X-Signature", 500 "Internal Server Error" or an escaping exception; 403 exactly on a failed check, and the exception exactly for an empty secret |
| `Webhook.AcceptedAppendsOneEnvelope` | src/main/java/com/example/controller/WebhookController.java:53-65 | 200 exactly for a valid signature, a parseable body and a reachable store, and then exactly one envelope is appended; any other reply leaves the store unchanged |
| `Webhook.ForgedRequestRejected` | src/main/java/com/example/controller/WebhookController.java:45-48 | a signature that is not the hex HMAC of the body gets 403 and queues nothing |
| `Webhook.IngressKeepsProcessedSet` | src/main/java/com/example/controller/WebhookController.java:61 | the handler never touches the processed set |
| `Webhook.RepeatedRequestEnqueuesTwice` | src/main/java/com/example/controller/WebhookController.java:53-65 | the handler does no deduplication: an accepted request sent twice is queued twice |
| `Webhook.EnvelopeToHecEvent` | src/main/java/com/example/controller/WebhookController.java:55-59 | the envelope keys the handler writes are the ones the worker reads: its HEC event has the original payload as event, the timestamp as time, the fixed host, source and sourcetype, and the id and API key as fields |
| `Webhook.AcceptedRequestIsForwarded` | src/main/java/com/example/controller/WebhookController.java:53-65 | end to end: an accepted request, then one worker pass with a successful post, sends exactly that request's HEC event and marks its id |

## Left out

- HMAC-SHA256 itself and the JCA provider are not modelled. They are the `Crypto` parameter: a function from key and message to digest, plus a flag for whether the algorithm and key are accepted.
- UTF-8 encoding is not modelled. Bodies, signatures and secrets are given as their bytes. The hex digest is ASCII, so its bytes are its character codes.
- JSON text is not parsed or written. Jackson's parsing and serialisation are the `Mapper` parameter. The end-to-end lemma assumes, as a hypothesis, that serialised trees parse back to themselves. JSON numbers are integers only. A request body holding fractional or exponent numbers is represented by whatever tree `Mapper.readBody` returns; no property depends on the contents of the original payload.
- JsonModel.AsLong: a textual number (a string node such as `"17"`) gives 0 here, whereas Jackson parses it. The relay always writes the timestamp as a number node.
- Redis is modelled by its observable effect only: one list, one set, the set's expiry deadline. The wire protocol, `RedisConfig`, connection pooling and the `List` shape of the blocking-pop reply are not part of this model.
- RedisQueue.RedisQueueService.DequeueWebhook: how long the blocking pop waits is not modelled. The timeout is passed but does not affect the result. A timeout of 0 (a poll interval under one second) blocks indefinitely in Redis, which the model does not distinguish from an empty poll.
- `startWorker`, `stopWorker` and the executor's thread lifecycle (including the five-second termination grace) are not modelled. `running` is cleared only by the path the loop itself takes. Concurrent requests and the handler running alongside the worker are not modelled: each operation is one atomic step on the store.
- One clock reading and one store-reachability flag apply to the whole of one `processAndForward` call. The case where the membership check succeeds but the mark after a successful post fails is therefore not represented.
- The HTTP post is reduced to its outcome (`PostOutcome`). The bearer-token header, content type, URL, TLS settings and the serialised request text are not modelled. The event object is modelled as the `HecEvent` record.
- The web framework's own behaviour is not modelled. That includes rejecting a request that lacks a header or body (400) and the response it produces for an escaping exception (`Escaped`).
- Logging and configuration loading (`AppConfig`) are not modelled. Configuration values are constructor arguments.
- RedisQueue.Marked: the `long` settings `deduplicationWindowSeconds` and `pollIntervalMs` are unbounded integers here. The 64-bit overflow of the window's conversion to milliseconds for a window beyond about 292 million years is not modelled.
