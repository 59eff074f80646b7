/**
 * The plain-SQS queue driver (src/Sqs/Queue.php): which handler a queue maps
 * to, what body is sent for a dispatcher job, and how a received SQS message
 * is rewritten into the framework's job envelope.
 *
 * The SQS client, the framework's base queue, the SqsJob wrapper and the
 * configuration store are outside the model: the configuration is a
 * parameter, the receive call's response is an input value, and the parent
 * driver's payload is represented by a marker.
 */
module PlainSqsQueue {
  import opened Wrappers
  import opened Php
  import opened PhpArrayMerge
  import opened PhpStrings
  import opened Json

  /** `sqs-plain.handlers` (queue short name to handler class) and `sqs-plain.default-handler`. */
  datatype Config = Config(handlers: map<string, string>, defaultHandler: string)

  /** A job given to createPayload: the package's DispatcherJob, or any other framework job. */
  datatype Job =
    | DispatcherJob(plain: bool, payload: Value)
    | OtherJob

  /** What createPayload produces: the parent driver's own payload, or this encoded body. */
  datatype Outbound = ParentPayload | Encoded(body: string)

  /** The part of the SQS receiveMessage response the driver reads: `Messages`, when set. */
  datatype ReceiveResult = ReceiveResult(messages: Option<seq<Value>>)

  const HandleSuffix: string := "@handle"

  /** `!$queue` for a queue name that is a string or null. */
  predicate Falsy(queue: Option<string>)
    ensures Falsy(queue) <==> queue.None? || queue.value == "" || queue.value == "0"
  {
    !Truthy(if queue.None? then Null else Str(queue.value))
  }

  /** The handler configured for `key`, falling back to the default handler. */
  function HandlerFor(cfg: Config, key: string): (h: string)
    ensures h == cfg.defaultHandler || h in cfg.handlers.Values
  {
    if key in cfg.handlers then cfg.handlers[key] else cfg.defaultHandler
  }

  /** getClass: `end(explode('/', $queue))` looked up in the handler map. */
  function GetClass(cfg: Config, queue: Option<string>): (h: string)
    ensures h == cfg.defaultHandler || h in cfg.handlers.Values
  {
    if Falsy(queue) then cfg.defaultHandler
    else HandlerFor(cfg, Last(Explode('/', queue.value)))
  }

  /** The framework's native envelope `{job: ..., data: ...}`. */
  function JobEnvelope(handlerJob: string, data: Value): Value {
    Arr([Entry(StrKey("job"), Str(handlerJob)), Entry(StrKey("data"), data)])
  }

  /** createPayload: a plain job is sent as its payload; any other dispatcher job is wrapped. */
  function CreatePayload(c: Codec, cfg: Config, job: Job, queue: Option<string>): (r: Outbound)
    ensures r.ParentPayload? <==> job.OtherJob?
  {
    if !job.DispatcherJob? then ParentPayload
    else
      var handlerJob := GetClass(cfg, queue) + HandleSuffix;
      if job.plain then Encoded(c.encode(job.payload))
      else Encoded(c.encode(JobEnvelope(handlerJob, job.payload)))
  }

  /** A message given as a JSON string is decoded into an array first. */
  function MessageRecord(c: Codec, payload: Value): (rec: Value)
    ensures payload.Arr? ==> rec == payload
    ensures Lawful(c) && WellFormed(payload) ==> WellFormed(rec)
  {
    if payload.Arr? then payload else JsonDecode(c, ScalarText(payload))
  }

  /** `isset($body['data']) ? $body['data'] : $body` */
  function DataOf(body: Value): (data: Value)
    ensures Isset(body, "data") ==> data == Read(body, "data")
    ensures !Isset(body, "data") ==> data == body
    ensures data == Null ==> body == Null
    ensures WellFormed(body) ==> WellFormed(data)
  {
    if Isset(body, "data") then Lookup(body.entries, StrKey("data")).value else body
  }

  /** The rewritten body: job, data, attributes, raw and uuid, in that order. */
  function InboundEnvelope(handler: string, data: Value, attributes: Value, raw: Value, uuid: Value): Value {
    Arr([
      Entry(StrKey("job"), Str(handler + HandleSuffix)),
      Entry(StrKey("data"), data),
      Entry(StrKey("attributes"), attributes),
      Entry(StrKey("raw"), raw),
      Entry(StrKey("uuid"), uuid)
    ])
  }

  /**
   * A record the rewrite goes through: an array whose Body is not an array and
   * whose Attributes and MessageAttributes are arrays.
   */
  predicate Rewritable(rec: Value) {
    && rec.Arr?
    && !Read(rec, "Body").Arr?
    && Read(rec, "Attributes").Arr?
    && Read(rec, "MessageAttributes").Arr?
  }

  /**
   * modifyPayload: replaces the message's Body by the encoded envelope
   * built from the old Body, the attributes and the message id.
   */
  function ModifyPayload(c: Codec, payload: Value, handler: string): (r: Result<Value, Failure>)
    ensures r.Success? <==> Rewritable(MessageRecord(c, payload))
    ensures r.Success? ==> r.value.Arr? && Read(r.value, "Body").Str?
  {
    var rec := MessageRecord(c, payload);
    if rec.Str? then Failure(StringOffset("Body"))  // the first read, `$payload['Body']`, raises
    else
      var raw := Read(rec, "Body");
      var bodyText :- StringArgument(raw);
      var body := JsonDecode(c, bodyText);
      var merged :- ArrayMerge(Read(rec, "Attributes"), Read(rec, "MessageAttributes"));
      var uuid := Read(rec, "MessageId");
      var envelope := InboundEnvelope(handler, DataOf(body), merged, raw, uuid);
      WriteOffset(rec, "Body", Str(c.encode(envelope)))
  }

  /** The handler pop uses: `array_pop(explode('/', $queue))` looked up in the handler map. */
  function PopHandler(cfg: Config, queueUrl: string): (h: string)
    ensures h == cfg.defaultHandler || h in cfg.handlers.Values
  {
    var queueId := Explode('/', queueUrl);
    HandlerFor(cfg, queueId[|queueId| - 1])
  }

  /**
   * The decision part of pop: no job when Messages is unset or empty;
   * otherwise the first message, rewritten for the queue's handler.
   */
  function Pop(c: Codec, cfg: Config, queueUrl: string, response: ReceiveResult): (r: Result<Option<Value>, Failure>)
    ensures response.messages.None? || response.messages.value == [] ==> r == Success(None)
    ensures r.Success? && r.value.Some? ==> response.messages.Some? && response.messages.value != []
  {
    if response.messages.Some? && |response.messages.value| > 0 then
      var rewritten :- ModifyPayload(c, response.messages.value[0], PopHandler(cfg, queueUrl));
      Success(Some(rewritten))
    else
      Success(None)
  }

  /** The JSON body a rewritten message carries, decoded. */
  function DecodedBody(c: Codec, message: Value): Value {
    match Read(message, "Body")
    case Str(t) => JsonDecode(c, t)
    case _ => Null
  }
}
