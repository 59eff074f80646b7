/**
 * What the queue driver guarantees: how a queue name resolves to a handler,
 * what body a dispatcher job is sent as, what a received message is rewritten
 * into, and what a handler receives for a job this driver sent.
 */
module PlainSqsProperties {
  import opened Wrappers
  import opened Php
  import opened PhpArrayMerge
  import opened PhpStrings
  import opened Json
  import opened PlainSqsQueue

  // ---- Handler resolution ----

  /**
   * A falsy queue name resolves to the default handler; any other name
   * resolves through the text after its last '/': the mapped handler when
   * that key is configured, the default handler otherwise.
   */
  lemma GetClassResolution(cfg: Config, queue: Option<string>, key: string)
    ensures Falsy(queue) ==> GetClass(cfg, queue) == cfg.defaultHandler
    ensures !Falsy(queue) && TextAfterLast('/', queue.value, key) ==>
              GetClass(cfg, queue) == if key in cfg.handlers then cfg.handlers[key] else cfg.defaultHandler
  {
    if !Falsy(queue) && TextAfterLast('/', queue.value, key) {
      LastPieceCharacterised('/', queue.value, key);
    }
  }

  /** Leading path segments do not matter: "a/b/orders" resolves as "orders" does. */
  lemma GetClassIgnoresPrefix(cfg: Config, prefix: string, name: string)
    requires !Falsy(Some(name))
    ensures GetClass(cfg, Some(prefix + "/" + name)) == GetClass(cfg, Some(name))
  {
    LastPieceIgnoresPrefix('/', prefix, name);
  }

  /** A queue URL resolves through its last segment. */
  lemma QueueUrlExample()
    ensures GetClass(Config(map["orders" := "OrdersHandler"], "DefaultHandler"),
                     Some("https://queue.example/123/orders")) == "OrdersHandler"
  {
    var cfg := Config(map["orders" := "OrdersHandler"], "DefaultHandler");
    assert "https://queue.example/123/orders" == "https://queue.example/123" + "/" + "orders";
    GetClassIgnoresPrefix(cfg, "https://queue.example/123", "orders");
    ExplodeNoSeparator('/', "orders");
  }

  /** The lookup written out inside pop agrees with getClass on every queue URL that is not falsy. */
  lemma PopHandlerMatchesGetClass(cfg: Config, queueUrl: string)
    requires !Falsy(Some(queueUrl))
    ensures PopHandler(cfg, queueUrl) == GetClass(cfg, Some(queueUrl))
  {
  }

  /**
   * pop resolves every queue URL, falsy or not, through the text after its
   * last '/': the mapped handler when that key is configured, the default
   * handler otherwise.
   */
  lemma PopHandlerResolution(cfg: Config, queueUrl: string, key: string)
    ensures TextAfterLast('/', queueUrl, key) ==>
              PopHandler(cfg, queueUrl) == if key in cfg.handlers then cfg.handlers[key] else cfg.defaultHandler
  {
    if TextAfterLast('/', queueUrl, key) {
      LastPieceCharacterised('/', queueUrl, key);
    }
  }

  /**
   * On the falsy URLs "0" and "" they part: pop looks the URL up as a key,
   * getClass goes straight to the default handler.
   */
  lemma PopHandlerDiffersOnFalsy()
    ensures PopHandler(Config(map["0" := "ZeroHandler"], "DefaultHandler"), "0") == "ZeroHandler"
    ensures GetClass(Config(map["0" := "ZeroHandler"], "DefaultHandler"), Some("0")) == "DefaultHandler"
    ensures PopHandler(Config(map["" := "EmptyHandler"], "DefaultHandler"), "") == "EmptyHandler"
    ensures GetClass(Config(map["" := "EmptyHandler"], "DefaultHandler"), Some("")) == "DefaultHandler"
  {
    PopHandlerResolution(Config(map["0" := "ZeroHandler"], "DefaultHandler"), "0", "0");
    PopHandlerResolution(Config(map["" := "EmptyHandler"], "DefaultHandler"), "", "");
  }

  // ---- Outbound payload ----

  lemma JobEnvelopeWellFormed(handlerJob: string, data: Value)
    requires WellFormed(data)
    ensures WellFormed(JobEnvelope(handlerJob, data))
  {
    NotIntString("job");
    NotIntString("data");
    var es := JobEnvelope(handlerJob, data).entries;
    KeysOfMembers(es);
    assert KeysOf(es) == [StrKey("job"), StrKey("data")];
  }

  /**
   * A plain job's body decodes to its payload; any other dispatcher job's
   * body decodes to `{job: <handler>@handle, data: <payload>}` with the
   * handler getClass resolves for the queue.
   */
  lemma CreatePayloadDecodes(c: Codec, cfg: Config, job: Job, queue: Option<string>)
    requires Lawful(c) && job.DispatcherJob? && WellFormed(job.payload)
    ensures CreatePayload(c, cfg, job, queue).Encoded?
    ensures job.plain ==> JsonDecode(c, CreatePayload(c, cfg, job, queue).body) == job.payload
    ensures !job.plain ==>
              var env := JsonDecode(c, CreatePayload(c, cfg, job, queue).body);
              && env.Arr?
              && KeysOf(env.entries) == [StrKey("job"), StrKey("data")]
              && Read(env, "job") == Str(GetClass(cfg, queue) + HandleSuffix)
              && Read(env, "data") == job.payload
  {
    if !job.plain {
      var env := JobEnvelope(GetClass(cfg, queue) + HandleSuffix, job.payload);
      JobEnvelopeWellFormed(GetClass(cfg, queue) + HandleSuffix, job.payload);
      DecodeEncoded(c, env);
      KeysOfMembers(env.entries);
    }
  }

  // ---- Inbound rewrite ----

  const InboundKeys: seq<Key> := [StrKey("job"), StrKey("data"), StrKey("attributes"), StrKey("raw"), StrKey("uuid")]

  /** The rewritten body has the five fields, once each, in that order. */
  lemma InboundEnvelopeKeys(handler: string, data: Value, attributes: Value, raw: Value, uuid: Value)
    ensures KeysOf(InboundEnvelope(handler, data, attributes, raw, uuid).entries) == InboundKeys
    ensures Distinct(InboundKeys)
  {
    KeysOfMembers(InboundEnvelope(handler, data, attributes, raw, uuid).entries);
    InboundKeysDistinct();
  }

  lemma InboundKeysDistinct()
    ensures Distinct(InboundKeys)
  {
    var heads := seq(|InboundKeys|, i requires 0 <= i < |InboundKeys| => InboundKeys[i].s[0]);
    assert heads == "jdaru";
    forall i, j | 0 <= i < j < |InboundKeys| ensures InboundKeys[i] != InboundKeys[j] {
      assert heads[i] != heads[j];
    }
  }

  /** The i-th field of the rewritten body is what a lookup of its name finds. */
  lemma InboundEnvelopeField(handler: string, data: Value, attributes: Value, raw: Value, uuid: Value, i: nat)
    requires i < 5
    ensures var es := InboundEnvelope(handler, data, attributes, raw, uuid).entries;
            Read(Arr(es), es[i].key.s) == es[i].val
  {
    var es := InboundEnvelope(handler, data, attributes, raw, uuid).entries;
    InboundEnvelopeKeys(handler, data, attributes, raw, uuid);
    LookupFindsEntry(es, es[i]);
  }

  /** What each of the five fields of the rewritten body holds. */
  lemma InboundEnvelopeFields(handler: string, data: Value, attributes: Value, raw: Value, uuid: Value)
    ensures var env := InboundEnvelope(handler, data, attributes, raw, uuid);
            && Read(env, "job") == Str(handler + HandleSuffix)
            && Read(env, "data") == data
            && Read(env, "attributes") == attributes
            && Read(env, "raw") == raw
            && Read(env, "uuid") == uuid
  {
    InboundEnvelopeField(handler, data, attributes, raw, uuid, 0);
    InboundEnvelopeField(handler, data, attributes, raw, uuid, 1);
    InboundEnvelopeField(handler, data, attributes, raw, uuid, 2);
    InboundEnvelopeField(handler, data, attributes, raw, uuid, 3);
    InboundEnvelopeField(handler, data, attributes, raw, uuid, 4);
  }

  lemma InboundEnvelopeWellFormed(handler: string, data: Value, attributes: Value, raw: Value, uuid: Value)
    requires WellFormed(data) && WellFormed(attributes) && WellFormed(raw) && WellFormed(uuid)
    ensures WellFormed(InboundEnvelope(handler, data, attributes, raw, uuid))
  {
    InboundEnvelopeKeys(handler, data, attributes, raw, uuid);
    NotIntString("job");
    NotIntString("data");
    NotIntString("attributes");
    NotIntString("raw");
    NotIntString("uuid");
  }

  /** Reading from a well-formed value gives a well-formed value. */
  lemma ReadWellFormed(v: Value, k: string)
    requires WellFormed(v)
    ensures WellFormed(Read(v, k))
  {
    if v.Arr? && Lookup(v.entries, StrKey(k)).Some? {
      LookupWellFormed(v.entries, StrKey(k));
    }
  }

  /** The body the rewrite decodes from the message. */
  function OriginalBody(c: Codec, rec: Value): Value
    requires !Read(rec, "Body").Arr?
  {
    JsonDecode(c, ScalarText(Read(rec, "Body")))
  }

  /** A message handed over as its JSON text is decoded into the same record. */
  lemma MessageTextDecodes(c: Codec, rec: Value)
    requires Lawful(c) && WellFormed(rec)
    ensures MessageRecord(c, Str(c.encode(rec))) == rec
  {
    DecodeEncoded(c, rec);
  }

  /** The envelope the rewrite builds from a record. */
  function RecordEnvelope(c: Codec, rec: Value, handler: string): Value
    requires Rewritable(rec)
  {
    InboundEnvelope(handler, DataOf(OriginalBody(c, rec)),
      Arr(MergeEntries(Read(rec, "Attributes").entries, Read(rec, "MessageAttributes").entries)),
      Read(rec, "Body"), Read(rec, "MessageId"))
  }

  /** A successful rewrite sets the record's Body to the encoded envelope. */
  lemma ModifyPayloadSetsBody(c: Codec, payload: Value, handler: string)
    requires ModifyPayload(c, payload, handler).Success?
    ensures var rec := MessageRecord(c, payload);
            && Rewritable(rec)
            && ModifyPayload(c, payload, handler).value ==
                 Arr(Set(rec.entries, StrKey("Body"), Str(c.encode(RecordEnvelope(c, rec, handler)))))
  {
    var rec := MessageRecord(c, payload);
    var raw, a, ma := Read(rec, "Body"), Read(rec, "Attributes"), Read(rec, "MessageAttributes");
    assert Rewritable(rec);
    assert StringArgument(raw) == Success(ScalarText(raw));
    assert ArrayMerge(a, ma) == Success(Arr(MergeEntries(a.entries, ma.entries)));
    var env := RecordEnvelope(c, rec, handler);
    assert WriteOffset(rec, "Body", Str(c.encode(env))) == Success(Arr(Set(rec.entries, StrKey("Body"), Str(c.encode(env)))));
  }

  /** The envelope built from a well-formed record is well formed. */
  lemma RecordEnvelopeWellFormed(c: Codec, rec: Value, handler: string)
    requires Lawful(c) && WellFormed(rec) && Rewritable(rec)
    ensures WellFormed(RecordEnvelope(c, rec, handler))
  {
    var body := OriginalBody(c, rec);
    var a, ma := Read(rec, "Attributes"), Read(rec, "MessageAttributes");
    ReadWellFormed(rec, "Attributes");
    ReadWellFormed(rec, "MessageAttributes");
    ReadWellFormed(rec, "Body");
    ReadWellFormed(rec, "MessageId");
    ArrayMergeWellFormed(a.entries, ma.entries);
    if Isset(body, "data") {
      LookupWellFormed(body.entries, StrKey("data"));
    }
    InboundEnvelopeWellFormed(handler, DataOf(body), Arr(MergeEntries(a.entries, ma.entries)),
                              Read(rec, "Body"), Read(rec, "MessageId"));
  }

  /**
   * A successful rewrite yields a well-formed message whose Body decodes to
   * the envelope built from the original message. `RecordEnvelope` only
   * restates how the rewrite builds that envelope; what its fields hold is
   * stated by ModifyPayloadEnvelope and ModifyPayloadAttributes, which rest
   * on this lemma.
   */
  lemma RewrittenBodyDecodes(c: Codec, payload: Value, handler: string)
    requires Lawful(c) && WellFormed(payload) && ModifyPayload(c, payload, handler).Success?
    ensures var rec := MessageRecord(c, payload);
            var out := ModifyPayload(c, payload, handler).value;
            && Rewritable(rec)
            && WellFormed(out)
            && DecodedBody(c, out) == RecordEnvelope(c, rec, handler)
  {
    var rec := MessageRecord(c, payload);
    ModifyPayloadSetsBody(c, payload, handler);
    SetBodyDecodes(c, rec, handler);
  }

  /** Setting a well-formed record's Body to its encoded envelope keeps it well formed and decodable. */
  lemma SetBodyDecodes(c: Codec, rec: Value, handler: string)
    requires Lawful(c) && WellFormed(rec) && Rewritable(rec)
    ensures var env := RecordEnvelope(c, rec, handler);
            var out := Arr(Set(rec.entries, StrKey("Body"), Str(c.encode(env))));
            WellFormed(out) && DecodedBody(c, out) == env
  {
    RecordEnvelopeWellFormed(c, rec, handler);
    var env := RecordEnvelope(c, rec, handler);
    NotIntString("Body");
    SetWellFormed(rec.entries, StrKey("Body"), Str(c.encode(env)));
    DecodeEncoded(c, env);
  }

  /**
   * The new Body holds exactly job, data, attributes, raw and uuid, in that
   * order: job is the handler with "@handle", raw is the original Body
   * unchanged, uuid is the MessageId, and data is the decoded body's `data`
   * entry when it is set and not null, the whole decoded body otherwise.
   */
  lemma ModifyPayloadEnvelope(c: Codec, payload: Value, handler: string)
    requires Lawful(c) && WellFormed(payload) && ModifyPayload(c, payload, handler).Success?
    ensures var rec := MessageRecord(c, payload);
            var env := DecodedBody(c, ModifyPayload(c, payload, handler).value);
            var body := JsonDecode(c, ScalarText(Read(rec, "Body")));
            && env.Arr?
            && KeysOf(env.entries) == InboundKeys
            && Read(env, "job") == Str(handler + HandleSuffix)
            && Read(env, "raw") == Read(rec, "Body")
            && Read(env, "uuid") == Read(rec, "MessageId")
            && (Isset(body, "data") ==> Read(env, "data") == Read(body, "data"))
            && (!Isset(body, "data") ==> Read(env, "data") == body)
  {
    RewrittenBodyDecodes(c, payload, handler);
    var rec := MessageRecord(c, payload);
    var data := DataOf(OriginalBody(c, rec));
    var merged := Arr(MergeEntries(Read(rec, "Attributes").entries, Read(rec, "MessageAttributes").entries));
    InboundEnvelopeKeys(handler, data, merged, Read(rec, "Body"), Read(rec, "MessageId"));
    InboundEnvelopeFields(handler, data, merged, Read(rec, "Body"), Read(rec, "MessageId"));
  }

  /**
   * The new attributes are Attributes merged with MessageAttributes: a name
   * in MessageAttributes wins over the same name in Attributes, and
   * integer-keyed entries are all kept, renumbered from 0.
   */
  lemma ModifyPayloadAttributes(c: Codec, payload: Value, handler: string, name: string)
    requires Lawful(c) && WellFormed(payload) && ModifyPayload(c, payload, handler).Success?
    ensures var rec := MessageRecord(c, payload);
            var attributes := Read(DecodedBody(c, ModifyPayload(c, payload, handler).value), "attributes");
            var a, ma := Read(rec, "Attributes").entries, Read(rec, "MessageAttributes").entries;
            && attributes.Arr?
            && Lookup(attributes.entries, StrKey(name)) ==
                 (if Lookup(ma, StrKey(name)).Some? then Lookup(ma, StrKey(name)) else Lookup(a, StrKey(name)))
            && IntEntries(attributes.entries) == Numbered(Values(IntEntries(a)) + Values(IntEntries(ma)), 0)
  {
    RewrittenBodyDecodes(c, payload, handler);
    var rec := MessageRecord(c, payload);
    var merged := Arr(MergeEntries(Read(rec, "Attributes").entries, Read(rec, "MessageAttributes").entries));
    InboundEnvelopeFields(handler, DataOf(OriginalBody(c, rec)), merged, Read(rec, "Body"), Read(rec, "MessageId"));
    ReadWellFormed(rec, "Attributes");
    ReadWellFormed(rec, "MessageAttributes");
    ArrayMergeStringKey(Read(rec, "Attributes").entries, Read(rec, "MessageAttributes").entries, name);
    ArrayMergeIntKeys(Read(rec, "Attributes").entries, Read(rec, "MessageAttributes").entries);
  }

  /**
   * Every field of the message other than Body is left as it was, and the
   * fields keep their order (Body is appended only when it was missing).
   */
  lemma ModifyPayloadKeepsOtherFields(c: Codec, payload: Value, handler: string, k: Key)
    requires ModifyPayload(c, payload, handler).Success? && k != StrKey("Body")
    ensures var rec := MessageRecord(c, payload);
            var out := ModifyPayload(c, payload, handler).value;
            && Lookup(out.entries, k) == Lookup(rec.entries, k)
            && KeysOf(out.entries) ==
                 if StrKey("Body") in KeysOf(rec.entries) then KeysOf(rec.entries)
                 else KeysOf(rec.entries) + [StrKey("Body")]
  {
  }

  /**
   * A Body that is not valid JSON does not stop the rewrite: json_decode gives
   * null, so data is null and raw still carries the text.
   */
  lemma UndecodableBodyIsKept(c: Codec, payload: Value, handler: string, text: string)
    requires Lawful(c) && WellFormed(payload)
    requires Rewritable(MessageRecord(c, payload))
    requires Read(MessageRecord(c, payload), "Body") == Str(text) && c.decode(text).None?
    ensures ModifyPayload(c, payload, handler).Success?
    ensures Read(DecodedBody(c, ModifyPayload(c, payload, handler).value), "data") == Null
    ensures Read(DecodedBody(c, ModifyPayload(c, payload, handler).value), "raw") == Str(text)
  {
    ModifyPayloadEnvelope(c, payload, handler);
  }

  /**
   * array_merge's arguments are read with `$payload['...']`, so a message
   * without MessageAttributes passes null to array_merge and the rewrite
   * fails with a TypeError, even though Body and Attributes are fine.
   */
  lemma MissingMessageAttributesFails(c: Codec, payload: Value, handler: string)
    requires payload.Arr? && !Read(payload, "Body").Arr?
    requires StrKey("MessageAttributes") !in KeysOf(payload.entries)
    ensures ModifyPayload(c, payload, handler) == Failure(MergeArgument)
  {
    assert Read(payload, "MessageAttributes") == Null;
  }

  /** SQS omits MessageAttributes for a message sent without any: `{Body: "{}", Attributes: []}` is not rewritten. */
  lemma NoMessageAttributesExample(c: Codec)
    ensures ModifyPayload(c, Arr([Entry(StrKey("Body"), Str("{}")), Entry(StrKey("Attributes"), Arr([]))]), "Handler")
              == Failure(MergeArgument)
  {
    var es := [Entry(StrKey("Body"), Str("{}")), Entry(StrKey("Attributes"), Arr([]))];
    KeysOfMembers(es);
    assert KeysOf(es) == [StrKey("Body"), StrKey("Attributes")];
    MissingMessageAttributesFails(c, Arr(es), "Handler");
  }

  // ---- pop ----

  /**
   * When messages are received, only the first is rewritten, for the handler
   * of the queue's last URL segment; the others play no part.
   */
  lemma PopRewritesFirstMessageOnly(c: Codec, cfg: Config, queueUrl: string, messages: seq<Value>)
    requires messages != []
    ensures Pop(c, cfg, queueUrl, ReceiveResult(Some(messages))) ==
            Pop(c, cfg, queueUrl, ReceiveResult(Some([messages[0]])))
    ensures var r := ModifyPayload(c, messages[0], PopHandler(cfg, queueUrl));
            Pop(c, cfg, queueUrl, ReceiveResult(Some(messages))) ==
              if r.Success? then Success(Some(r.value)) else Failure(r.error)
  {
  }

  // ---- A dispatcher job sent by this driver, as its handler receives it ----

  /** An SQS message that carries `body` and attribute arrays. */
  predicate CarriesBody(message: Value, body: string) {
    && message.Arr?
    && Read(message, "Body") == Str(body)
    && Read(message, "Attributes").Arr?
    && Read(message, "MessageAttributes").Arr?
  }

  /**
   * A non-plain job sent by createPayload and received by pop reaches its
   * handler with its payload as `data` when the payload is not null; a null
   * payload fails PHP's isset, so the handler gets the whole sent envelope.
   */
  lemma WrappedJobRoundTrip(c: Codec, cfg: Config, queue: Option<string>, payload: Value, message: Value, handler: string)
    requires Lawful(c) && WellFormed(payload) && WellFormed(message)
    requires CarriesBody(message, CreatePayload(c, cfg, DispatcherJob(false, payload), queue).body)
    ensures ModifyPayload(c, message, handler).Success?
    ensures var data := Read(DecodedBody(c, ModifyPayload(c, message, handler).value), "data");
            && (payload != Null ==> data == payload)
            && (payload == Null ==> data == JobEnvelope(GetClass(cfg, queue) + HandleSuffix, Null))
  {
    var sent := JobEnvelope(GetClass(cfg, queue) + HandleSuffix, payload);
    JobEnvelopeWellFormed(GetClass(cfg, queue) + HandleSuffix, payload);
    DecodeEncoded(c, sent);
    assert OriginalBody(c, message) == sent;
    assert Read(sent, "data") == payload by {
      CreatePayloadDecodes(c, cfg, DispatcherJob(false, payload), queue);
    }
    ModifyPayloadEnvelope(c, message, handler);
  }

  /**
   * The job a non-plain dispatcher job names when it is sent to queue `name`
   * is the job it names once pop, reading from a queue URL that ends in
   * `name`, has rewritten it: the received `job` is built again from pop's
   * own lookup, and that lookup agrees with the one createPayload made.
   */
  lemma WrappedJobKeepsHandler(c: Codec, cfg: Config, prefix: string, name: string, payload: Value, message: Value)
    requires Lawful(c) && WellFormed(payload) && WellFormed(message) && !Falsy(Some(name))
    requires CarriesBody(message, CreatePayload(c, cfg, DispatcherJob(false, payload), Some(name)).body)
    ensures var out := ModifyPayload(c, message, PopHandler(cfg, prefix + "/" + name));
            var sent := JsonDecode(c, CreatePayload(c, cfg, DispatcherJob(false, payload), Some(name)).body);
            && out.Success?
            && Read(DecodedBody(c, out.value), "job") == Read(sent, "job")
  {
    var url := prefix + "/" + name;
    assert url[|prefix|] == '/';
    PopHandlerMatchesGetClass(cfg, url);
    GetClassIgnoresPrefix(cfg, prefix, name);
    CreatePayloadDecodes(c, cfg, DispatcherJob(false, payload), Some(name));
    ModifyPayloadEnvelope(c, message, PopHandler(cfg, url));
  }

  /**
   * A plain job's payload reaches its handler whole, unless it is an array
   * with a non-null `data` entry: then only that entry arrives as `data`.
   */
  lemma PlainJobRoundTrip(c: Codec, cfg: Config, queue: Option<string>, payload: Value, message: Value, handler: string)
    requires Lawful(c) && WellFormed(payload) && WellFormed(message)
    requires CarriesBody(message, CreatePayload(c, cfg, DispatcherJob(true, payload), queue).body)
    ensures ModifyPayload(c, message, handler).Success?
    ensures var data := Read(DecodedBody(c, ModifyPayload(c, message, handler).value), "data");
            && (Isset(payload, "data") ==> data == Read(payload, "data"))
            && (!Isset(payload, "data") ==> data == payload)
  {
    CreatePayloadDecodes(c, cfg, DispatcherJob(true, payload), queue);
    ModifyPayloadEnvelope(c, message, handler);
  }
}
