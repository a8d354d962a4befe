/**
  The publish proxy (`SNSReverseProxy`): instead of calling a backend it
  reads the request body, wraps it in the topic envelope and publishes it,
  answering 202 on success and 502 on failure.

  The handler runs as a fixed sequence of steps over an immutable response
  writer. The writer records every `WriteHeader` call; as in Go's
  `net/http`, only the first one decides the status the caller sees, and a
  writer nobody wrote to answers 200.
 */
module SnsProxy {
  import opened Http
  import opened TopicEnvelope

  const StatusOK := 200
  const StatusAccepted := 202
  const StatusBadGateway := 502

  /** The messaging client's configuration, handed to the publish oracle. */
  datatype ClientConfig = ClientConfig(region: string, endpoint: string)

  datatype SnsReverseProxy = SnsReverseProxy(topicArn: string, config: ClientConfig,
                                             requestTranslator: Option<RequestTranslator>)

  /** `sns.PublishInput`. */
  datatype PublishInput = PublishInput(message: string, messageStructure: string, topicArn: string)

  /** What the messaging client reports for one publish call. */
  datatype PublishResult = Published | PublishFailed(reason: string)

  /** The messaging client, an oracle supplied by the caller of the model. */
  type Publisher = (ClientConfig, PublishInput) -> PublishResult

  /** The status codes written to the response, in order. */
  datatype Writer = Writer(writes: seq<int>)

  /** The status the caller receives: the first code written, or 200 if none was. */
  function Status(w: Writer): int
  {
    if w.writes == [] then StatusOK else w.writes[0]
  }

  /** `ResponseWriter.WriteHeader`: records the call; only the first call fixes the status. */
  function WriteHeader(w: Writer, code: int): (w': Writer)
    ensures w.writes == [] ==> Status(w') == code
    ensures w.writes != [] ==> Status(w') == Status(w)
    ensures w'.writes == w.writes + [code]
  {
    Writer(w.writes + [code])
  }

  /** `errorHandler`: answers 502 (the log line is not modelled). */
  function ErrorHandler(w: Writer): (w': Writer)
    ensures w.writes == [] ==> Status(w') == StatusBadGateway
    ensures w'.writes == w.writes + [StatusBadGateway]
  {
    WriteHeader(w, StatusBadGateway)
  }

  /** How one call of the handler ends: the handler aborts, or it answers having made one publish call. */
  datatype Handled = Aborted | Served(writer: Writer, sent: PublishInput)

  /** The publish request the handler builds for a body it has read. */
  function PublishRequest(p: SnsReverseProxy, body: seq<byte>): (input: PublishInput)
    ensures input.messageStructure == "json" && input.topicArn == p.topicArn
    ensures input.message == Envelope(body)
    ensures ParseEnvelope(input.message) == Some(body)
  {
    EnvelopeRoundTrip(body);
    PublishInput(Envelope(body), "json", p.topicArn)
  }

  /**
    `SNSReverseProxy.ServeHTTP`: translate, read the body (a failed read
    aborts), publish the envelope, then answer. On failure the error
    handler writes 502 and control falls through to the write of 202.
   */
  function ServeHTTP(p: SnsReverseProxy, req: Request, publish: Publisher): (h: Handled)
    ensures h.Aborted? <==> ApplyTranslator(p.requestTranslator, req).body.ReadFailure?
    ensures h.Served? ==> var body := ApplyTranslator(p.requestTranslator, req).body;
                          && body.Readable?
                          && h.sent.message == Envelope(body.data)
                          && ParseEnvelope(h.sent.message) == Some(body.data)
    ensures h.Served? ==> h.sent.topicArn == p.topicArn && h.sent.messageStructure == "json"
    ensures h.Served? ==> (Status(h.writer) == StatusAccepted <==> publish(p.config, h.sent).Published?)
    ensures h.Served? ==> (Status(h.writer) == StatusBadGateway <==> publish(p.config, h.sent).PublishFailed?)
  {
    var translated := ApplyTranslator(p.requestTranslator, req);
    match translated.body
    case ReadFailure => Aborted
    case Readable(body) =>
      var input := PublishRequest(p, body);
      var w := Writer([]);
      var w := if publish(p.config, input).PublishFailed? then ErrorHandler(w) else w;
      var w := WriteHeader(w, StatusAccepted);
      Served(w, input)
  }

  /** `NewSNSPassthroughReverseProxy`: publishes the body as it came in. */
  function NewSnsPassthroughReverseProxy(topicArn: string, config: ClientConfig): (p: SnsReverseProxy)
    ensures p.topicArn == topicArn && p.config == config && p.requestTranslator.None?
  {
    SnsReverseProxy(topicArn, config, None)
  }

  /** `NewSNSRequestTranslatorReverseProxy`: publishes the body the translator leaves. */
  function NewSnsRequestTranslatorReverseProxy(topicArn: string, config: ClientConfig,
                                               requestTranslator: RequestTranslator): (p: SnsReverseProxy)
    ensures p.topicArn == topicArn && p.config == config && p.requestTranslator == Some(requestTranslator)
  {
    SnsReverseProxy(topicArn, config, Some(requestTranslator))
  }

  /**
    The fall-through made explicit: a failed publish writes 502 and then
    202, and the first write is the one the caller sees; a successful
    publish writes 202 alone.
   */
  lemma PublishStatusTrace(p: SnsReverseProxy, req: Request, publish: Publisher)
    requires ServeHTTP(p, req, publish).Served?
    ensures var h := ServeHTTP(p, req, publish);
            && (publish(p.config, h.sent).PublishFailed? ==> h.writer.writes == [StatusBadGateway, StatusAccepted])
            && (publish(p.config, h.sent).Published? ==> h.writer.writes == [StatusAccepted])
  {
  }

  /** A body that cannot be read aborts the handler before anything is published or written. */
  lemma ReadFailureAborts(p: SnsReverseProxy, req: Request, publish: Publisher)
    requires ApplyTranslator(p.requestTranslator, req).body == ReadFailure
    ensures ServeHTTP(p, req, publish) == Aborted
  {
  }

  /** With a translator, the envelope carries the translator's body, never the caller's original one. */
  lemma PublishesTranslatedBody(topicArn: string, config: ClientConfig, f: RequestTranslator,
                                req: Request, publish: Publisher)
    requires f(req).body.Readable?
    ensures var h := ServeHTTP(NewSnsRequestTranslatorReverseProxy(topicArn, config, f), req, publish);
            h.Served? && ParseEnvelope(h.sent.message) == Some(f(req).body.data)
  {
  }

  const ExampleBody: seq<byte> := [116, 101, 115, 116, 95, 115, 110, 115, 95, 115, 113, 115]
  const ExampleText: string := "test_sns_sqs"
  /** `{"default":"test_sns_sqs"}`, spelled as envelope prefix, body text and suffix. */
  const ExampleMessage: string := "{\"default\":\"" + "test_sns_sqs" + "\"}"

  lemma ExampleLatin1()
    ensures Latin1(ExampleBody) == ExampleText
  {
    forall i | 0 <= i < |ExampleText| ensures Latin1(ExampleBody)[i] == ExampleText[i] {
      assert Latin1(ExampleBody)[i] as int == ExampleBody[i] as int;
    }
  }

  lemma ExampleEscape()
    ensures Escape(ExampleText) == ExampleText
  {
    assert forall i :: 0 <= i < |ExampleText| ==> !NeedsEscape(ExampleText[i]);
    EscapeKeepsPlain(ExampleText);
  }

  /** The envelope of the body `test_sns_sqs` used by the publish tests. */
  lemma ExampleEnvelope()
    ensures Envelope(ExampleBody) == ExampleMessage
  {
    ExampleLatin1();
    ExampleEscape();
    var e := Escape(Latin1(ExampleBody));
    assert e == ExampleText;
    assert Envelope(ExampleBody) == Prefix + e + Suffix;
    assert Prefix + ExampleText + Suffix == ExampleMessage;
  }

  /** The passthrough test: body `test_sns_sqs` is published as `{"default":"test_sns_sqs"}` and answered with 202. */
  lemma PassthroughExample(topicArn: string, config: ClientConfig, req: Request, publish: Publisher)
    requires req.body == Readable(ExampleBody)
    requires publish(config, PublishInput(ExampleMessage, "json", topicArn)).Published?
    ensures var h := ServeHTTP(NewSnsPassthroughReverseProxy(topicArn, config), req, publish);
            h == Served(Writer([StatusAccepted]), PublishInput(ExampleMessage, "json", topicArn))
  {
    ExampleEnvelope();
  }
}
