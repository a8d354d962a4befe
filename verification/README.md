# apigateway proxying engine, modelled in Dafny

This project models the proxying engine of the `apigateway` Go package: a
small HTTP gateway that forwards each inbound request to one fixed backend
target, or publishes the request body to an SNS topic instead.

The model covers three pieces of `apigateway.go`:

- **The request director** (`Proxy.Rewrite`, `Proxy.Director`). This is the closure inside
  `NewReverseProxy`. It points the request at the target's scheme, host and path. The target
  path replaces the inbound decoded path; it is not appended. The inbound encoded path
  (`RawPath`) is kept as it was. It sets the request's `Host` field and
  copies the inbound `Host` header into `X-Forwarded-Host`. It merges the raw queries, with the
  target's query first (`Query.MergeQuery`). It pins an absent `User-Agent` to `""`. Last, it
  runs the optional request translator.
- **Proxy construction** (`Proxy.NewReverseProxy` and its three variants). These decide which
  hooks a reverse proxy is wired with. The response hook is installed exactly when one is given.
- **The publish handler** (`SnsProxy.ServeHTTP`). It applies the translator and reads the body;
  a failed read aborts. It wraps the body in the envelope `{"default":"<body>"}`
  (`TopicEnvelope.Envelope`) and publishes it. A failed publish is answered with 502, a
  successful one with 202.

All records are immutable datatypes (`Http.Request`, `Http.URL`, `Http.Header`, `Http.Body`).
A translator is a function value `Request -> Request`, and `None` stands for Go's `nil`.
The SNS client is an oracle parameter, `Publisher`, that answers `Published` or
`PublishFailed` for each publish call.

The response writer records every status code written to it. The caller sees the first one,
as Go's `net/http` does for repeated `WriteHeader` calls. This makes one detail of
`ServeHTTP` explicit. On a failed publish the error handler writes 502, and control then
falls through to the unconditional write of 202 (`apigateway.go:83-85`). The 502 still
reaches the caller because the first write sticks. `SnsProxy.PublishStatusTrace` proves that
the failure path writes exactly `[502, 202]`.

Each operation has a partner property that is not just its body restated:
- The query merge is checked against an independent reading of a raw query as its list of
  `&`-separated parameters. Merging concatenates the parameter lists, target first, with
  nothing de-duplicated (`Query.MergeSegments`).
- The envelope has a parser. Parsing an envelope built by this model's escaper gives back
  exactly the published bytes (`TopicEnvelope.EnvelopeRoundTrip`). Go's `json.Marshal`
  gives the same guarantee only for bodies that are valid UTF-8 (see "## Left out").
- Applying the structural rewrite (the director without a translator) twice changes nothing
  exactly when the target has no query of its own (`Proxy.RewriteIdempotentIff`). With a
  translator this need not hold, since the translator itself may not be idempotent.

## Model

| member | source | states |
|---|---|---|
| Query.MergeQuery | apigateway.go:98-103 | merge("", q) = q; merge(t, "") = t; merge(t, q) = t + "&" + q when both are non-empty; the target query is a prefix of the result and the inbound query a suffix |
| Query.MergeSegments | apigateway.go:98-103 | read as `&`-separated parameter lists, the merged query is the target's parameters followed by the inbound ones; nothing is dropped or de-duplicated |
| Query.PiecesAround | apigateway.go:102 | splitting `t & q` on `&` gives the pieces of `t` followed by the pieces of `q` |
| Proxy.Rewrite | apigateway.go:91-108 | the outbound scheme, host and path are the target's (the inbound path is discarded); the `Host` field is the target host; `X-Forwarded-Host` holds the inbound `Host` header's first value, or "" if there is none; the raw query is the merge; an absent `User-Agent` becomes [""] and a present one is kept; method (`verb`), body, fragment, encoded path (`rawPath`) and every other header are unchanged; the header keys are the inbound ones plus the two it sets |
| Proxy.Director | apigateway.go:91-112 | with no translator the result is the structural rewrite, with every property of `Proxy.Rewrite` (the outbound path is the target's, the body is the inbound body, the only header keys added are `X-Forwarded-Host` and `User-Agent`); with a translator f it is f applied to that rewrite |
| Proxy.TranslatorRunsLast | apigateway.go:109-111 | the director with translator f equals f applied to the director without a translator, so the translator sees, and may override, every structural rewrite |
| Proxy.RewriteIdempotentIff | apigateway.go:91-108 | applying the structural rewrite to an already rewritten request changes nothing if and only if the target has no query; otherwise the second pass's query is the target query, `&`, and the first pass's query |
| Proxy.NewReverseProxy | apigateway.go:90-118 | the response hook is installed if and only if a response translator is given, and it is that translator; the director is the closure over the target and request translator |
| Proxy.NewPassthroughReverseProxy | apigateway.go:121-123 | no response hook; the director is the bare structural rewrite |
| Proxy.NewResponseTranslatorReverseProxy | apigateway.go:126-128 | the response hook is the given translator; the director is the bare structural rewrite |
| Proxy.NewRequestTranslatorReverseProxy | apigateway.go:131-133 | no response hook; the director applies the translator to the structural rewrite |
| Proxy.TargetPathVerbatim | examples/response.go:21-24 | with target path `/v1/orders/:code`, every request (for example one for `/v2/orders/42`) is forwarded to `/v1/orders/:code` literally |
| Proxy.TranslatedBodyIsForwarded | apigateway_test.go:103-131 | a request translator that replaces the body "original" makes the backend receive the replacement |
| TopicEnvelope.Envelope | apigateway.go:69 | the message starts with `{"default":"` and ends with `"}` and is at least as long as the body plus both |
| TopicEnvelope.EscapeRoundTrip | apigateway.go:69 | unescaping the escaped string literal body gives back the string, for every string |
| TopicEnvelope.EnvelopeRoundTrip | apigateway.go:69 | parsing the envelope, as this model's escaper builds it, gives back exactly the body bytes that were wrapped |
| TopicEnvelope.ParseEnvelopeExact | apigateway.go:69 | a message that parses to a body is exactly that body's envelope, so the parser accepts nothing else |
| TopicEnvelope.EnvelopeInjective | apigateway.go:69 | distinct bodies give distinct envelopes under this model's escaper |
| SnsProxy.WriteHeader | apigateway.go:85 | the code is appended to the response's write trace; the first status written is the one the caller sees, and later writes do not change it |
| SnsProxy.ErrorHandler | apigateway.go:44-47 | the error handler appends 502 to the write trace; on a fresh response that makes the status 502 |
| SnsProxy.PublishRequest | apigateway.go:69-78 | the publish input carries message structure "json", the proxy's topic, and as message exactly the body's envelope, which parses back to the body |
| SnsProxy.ServeHTTP | apigateway.go:49-86 | the handler aborts exactly when the translated body cannot be read; otherwise it publishes exactly the envelope of the translated body to the proxy's topic with structure "json", and the caller sees 202 exactly when the publish succeeded and 502 exactly when it failed |
| SnsProxy.PublishStatusTrace | apigateway.go:82-85 | a failed publish writes 502 then 202 (the fall-through); a successful one writes 202 alone |
| SnsProxy.ReadFailureAborts | apigateway.go:54-58 | a body read failure aborts the handler before any publish or status write |
| SnsProxy.PublishesTranslatedBody | apigateway.go:50-54 | with a request translator, the published envelope carries the translator's body, not the original |
| SnsProxy.NewSnsPassthroughReverseProxy | apigateway.go:136-138 | the publish proxy keeps the topic and client configuration and has no translator |
| SnsProxy.NewSnsRequestTranslatorReverseProxy | apigateway.go:141-143 | the publish proxy keeps the topic, the client configuration and the given translator |
| SnsProxy.ExampleEnvelope | apigateway_test.go:158-162 | the body `test_sns_sqs` is wrapped as `{"default":"test_sns_sqs"}` |
| SnsProxy.PassthroughExample | apigateway_test.go:151-162 | the passthrough publish proxy sends `{"default":"test_sns_sqs"}` with structure "json" to its topic and answers 202 when the client accepts it |

## Left out

- The HTTP round trip and the internals of `httputil.ReverseProxy` are library code. This
  includes the headers it adds itself (`X-Forwarded-For`) and how a `ModifyResponse` error
  becomes a response. The response translator is modelled only as installed or not installed.
- `Gateway`, `New`, `Handle` and `Router` (`apigateway.go:17-35`) are a thin wrapper over the
  `httprouter` library. They are not modelled.
- The AWS SDK is not modelled: session creation, the endpoint-based choice of client
  (`apigateway.go:61-67`), the form encoding of the publish request, and context
  cancellation. The client is the `Publisher` oracle. In the model it is always handed the
  proxy's `ClientConfig` (see the `SnsProxy.ServeHTTP` line below).
- TopicEnvelope.Envelope: the escaper quotes only `"` and `\`. Go's `json.Marshal` also escapes
  control characters and `<`, `>`, `&`, and it replaces invalid UTF-8. Bytes become one
  character each instead of being decoded as UTF-8.
- TopicEnvelope.EnvelopeRoundTrip: in Go the round trip holds only for bodies that are valid
  UTF-8. `json.Marshal` writes each invalid UTF-8 byte as `\ufffd`, so the body `[0xFF]`
  becomes `{"default":"\ufffd"}` and cannot be recovered from the message.
- TopicEnvelope.EnvelopeInjective: in Go distinct bodies give distinct envelopes only when
  both are valid UTF-8. The bodies `[0xFF]` and `[0xFE]` both become `{"default":"\ufffd"}`.
- The `json.Marshal` error branch (`apigateway.go:70-72`) cannot be taken for a
  `map[string]string`. It is not modelled.
- Logging in `errorHandler` (`apigateway.go:45`) is not modelled.
- Header names are assumed to be in canonical form already. Go's canonicalisation of
  header keys is not modelled.
- The request's `Host` header is taken as it appears in the header map. Go's server moves
  an inbound `Host` header into the request's `Host` field. With a real server, the header
  map usually has no `Host` entry, so `X-Forwarded-Host` is usually `""`.
- SnsProxy.ServeHTTP: aborts only on an unreadable body. The Go handler has two more abort
  paths that belong to the AWS SDK and are not modelled: `session.Must` panics when a session
  cannot be created (`apigateway.go:61`), and a proxy built with a nil `*aws.Config`
  (allowed by `apigateway.go:136`) panics on `p.Config.Endpoint` (`apigateway.go:65`). The Go
  handler also ignores `p.Config` when its `Endpoint` is unset (`apigateway.go:64-67`); the
  model always passes the `ClientConfig` to the `Publisher` oracle, which may ignore it.
- Go's URL escaping is not modelled. The director copies only the decoded `Path`
  (`apigateway.go:94`), and `Proxy.Rewrite` proves the inbound `RawPath` is kept. Go writes the
  request line from `RawPath` only when it is a valid encoding of `Path`. So a target path such
  as `/v1/a%2Fb` goes out as `/v1/a/b`, unless the inbound `RawPath` happens to encode the
  target path. The model does not decide which form goes on the wire.
- The `examples/*.go` programs are wiring plus `ListenAndServe`. Only the target path of
  `examples/response.go` is used, in `Proxy.TargetPathVerbatim`.
