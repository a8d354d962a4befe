/**
  The HTTP passthrough proxy: the director that rewrites every inbound
  request against one fixed backend target, and the constructors that
  decide which hooks a reverse proxy is wired with.
 */
module Proxy {
  import opened Http
  import opened Query

  /**
    The structural part of the director: point the request at the target,
    record the inbound `Host` header, merge the queries and pin an absent
    `User-Agent` to the empty string. The request translator is not applied.
   */
  function Rewrite(req: Request, target: URL): (r: Request)
    // The target's scheme, host and path replace the inbound ones; the inbound path is not appended.
    ensures r.url.scheme == target.scheme && r.url.host == target.host && r.url.path == target.path
    ensures r.host == target.host
    ensures r.url.rawQuery == MergeQuery(target.rawQuery, req.url.rawQuery)
    ensures r.header.Keys == req.header.Keys + {XForwardedHost, UserAgent}
    ensures r.header[XForwardedHost] == [Get(req.header, HostKey)]
    ensures UserAgent in req.header ==> r.header[UserAgent] == req.header[UserAgent]
    ensures UserAgent !in req.header ==> r.header[UserAgent] == [""]
    // Nothing else changes.
    ensures r.verb == req.verb && r.body == req.body && r.url.fragment == req.url.fragment
    // Only `Path` is copied from the target: the inbound encoded path stays as it was.
    ensures r.url.rawPath == req.url.rawPath
    ensures forall k :: k in req.header && k != XForwardedHost && k != UserAgent ==> r.header[k] == req.header[k]
  {
    var url := req.url.(scheme := target.scheme, host := target.host, path := target.path);
    var forwarded := Set(req.header, XForwardedHost, Get(req.header, HostKey));
    var query := MergeQuery(target.rawQuery, req.url.rawQuery);
    var header := if UserAgent in forwarded then forwarded else Set(forwarded, UserAgent, "");
    req.(url := url.(rawQuery := query), host := target.host, header := header)
  }

  /** The director closure of `NewReverseProxy`: the structural rewrite, then the optional translator. */
  function Director(req: Request, target: URL, translator: Option<RequestTranslator>): (r: Request)
    ensures translator.None? ==> r == Rewrite(req, target)
    ensures translator.Some? ==> r == translator.value(Rewrite(req, target))
    // A summary for readers, implied by the first clause and the contract of `Rewrite`.
    ensures translator.None? ==> r.url.path == target.path && r.body == req.body
    ensures translator.None? ==> r.header.Keys == req.header.Keys + {XForwardedHost, UserAgent}
  {
    ApplyTranslator(translator, Rewrite(req, target))
  }

  /** An `httputil.ReverseProxy` as far as this package configures it. */
  datatype ReverseProxy = ReverseProxy(director: RequestTranslator, modifyResponse: Option<ResponseTranslator>)

  /** `NewReverseProxy`: the director closes over the target and request translator; the response hook is installed only when given. */
  function NewReverseProxy(target: URL, responseTranslator: Option<ResponseTranslator>,
                           requestTranslator: Option<RequestTranslator>): (p: ReverseProxy)
    ensures p.modifyResponse.Some? <==> responseTranslator.Some?
    ensures p.modifyResponse == responseTranslator
    ensures forall req :: p.director(req) == Director(req, target, requestTranslator)
  {
    var director := (req: Request) => Director(req, target, requestTranslator);
    if responseTranslator.Some? then
      ReverseProxy(director, responseTranslator)
    else
      ReverseProxy(director, None)
  }

  /** `NewPassthroughReverseProxy`: no hooks; the director is the bare structural rewrite. */
  function NewPassthroughReverseProxy(target: URL): (p: ReverseProxy)
    ensures p.modifyResponse.None?
    ensures forall req :: p.director(req) == Rewrite(req, target)
  {
    NewReverseProxy(target, None, None)
  }

  /** `NewResponseTranslatorReverseProxy`: the response hook is installed, the director is the bare rewrite. */
  function NewResponseTranslatorReverseProxy(target: URL, responseTranslator: ResponseTranslator): (p: ReverseProxy)
    ensures p.modifyResponse == Some(responseTranslator)
    ensures forall req :: p.director(req) == Rewrite(req, target)
  {
    NewReverseProxy(target, Some(responseTranslator), None)
  }

  /** `NewRequestTranslatorReverseProxy`: no response hook; the translator runs after the rewrite. */
  function NewRequestTranslatorReverseProxy(target: URL, requestTranslator: RequestTranslator): (p: ReverseProxy)
    ensures p.modifyResponse.None?
    ensures forall req :: p.director(req) == requestTranslator(Rewrite(req, target))
  {
    NewReverseProxy(target, None, Some(requestTranslator))
  }

  /**
    The translator runs last: whatever it does is applied to the fully
    rewritten request, so it can override anything the director set.
   */
  lemma TranslatorRunsLast(req: Request, target: URL, f: RequestTranslator)
    ensures Director(req, target, Some(f)) == f(Director(req, target, None))
  {
  }

  /**
    The structural rewrite can be applied twice to the same request without
    change exactly when the target has no query of its own; otherwise every
    pass prepends the target's query again.
   */
  lemma RewriteIdempotentIff(req: Request, target: URL)
    ensures Rewrite(Rewrite(req, target), target) == Rewrite(req, target) <==> target.rawQuery == ""
    ensures target.rawQuery != "" ==>
              Rewrite(Rewrite(req, target), target).url.rawQuery
              == target.rawQuery + "&" + Rewrite(req, target).url.rawQuery
  {
    var once := Rewrite(req, target);
    var twice := Rewrite(once, target);
    if target.rawQuery == "" {
      assert once.url.rawQuery == req.url.rawQuery;
      assert twice.url == once.url;
      assert Get(once.header, HostKey) == Get(req.header, HostKey);
      assert twice.header == once.header;
    } else {
      var q := once.url.rawQuery;
      assert q != "" by { assert target.rawQuery <= q; }
      assert twice.url.rawQuery == target.rawQuery + "&" + q;
      assert |twice.url.rawQuery| > |q|;
    }
  }

  /**
    The response-translator example: a target path with a route parameter
    in it is forwarded literally, whatever path the caller used; a request
    for `/v2/orders/42` goes to `/v1/orders/:code`.
   */
  lemma TargetPathVerbatim(req: Request)
    ensures NewResponseTranslatorReverseProxy(
              URL("https", "api.example.com", "/v1/orders/:code", "", "", ""),
              (r: Response) => Ok(r)).director(req).url.path == "/v1/orders/:code"
  {
  }

  /**
    The request-translator test: the backend receives the translator's
    body, whatever body the caller sent.
   */
  lemma TranslatedBodyIsForwarded(req: Request, target: URL, changed: seq<byte>)
    ensures NewRequestTranslatorReverseProxy(target, (r: Request) => r.(body := Readable(changed))).director(req).body
            == Readable(changed)
  {
  }
}
