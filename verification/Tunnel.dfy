/** The PRINS tunnel end to end: the SBI server in front of the C-SEPP
    (src/api-server/sepp-http2-sbi-server.cpp), the consumer end of the tunnel (src/sepp_app/sepp_app.cpp)
    and the P-SEPP behind the peer's NBI server (src/api-server/sepp-http2-nbi-server.cpp). */
module Tunnel {
  import opened Octets
  import opened AadCodec
  import opened Jose
  import opened Decimal
  import opened N32fForward
  import opened SecurityModes

  // ---------------------------------------------------------------- consumer end

  /** What the peer's HTTP server answers; status 0 when nothing came back. The body is a message or
      anything else. */
  datatype PeerReply = PeerReply(status: int, body: Option<FlatJwe>)

  /** The answer of the peer unpacked; None wherever the code returns false. */
  function Consume(env: Env, key: Text, reply: PeerReply): Option<HttpResponse> {
    if (reply.status != 200 && reply.status != 201) || reply.body.None? then None
    else
      match UnpackBody(env, key, reply.body.value)
      case None => None
      case Some(body) => ConsumeHead(ParseAad(UrlDecode(reply.body.value.aad), EMPTY_HEAD), body)
  }

  function ConsumeHead(head: Option<Head>, body: Text): Option<HttpResponse> {
    if head.None? then None
    else
      match Stoi(head.value.first)
      case None => None
      case Some(status) =>
        if status < 100 || status > 599 then None else Some(HttpResponse(status, body, head.value.headers))
  }

  /** A C-SEPP as far as forwarding goes. */
  datatype Forwarder = Forwarder(capability: Text, key: Text, contextId: Text)

  /** handle_nf_service_request_prins. */
  function ServePrins(env: Env, c: Forwarder, nonce: Option<Nonce>, authority: Text, path: Text,
                      method_: Text, body: Text, peer: N32fRequest -> PeerReply): Option<HttpResponse>
    requires env.Lawful()
  {
    match CreateRequest(env, c.capability, c.key, c.contextId, nonce, authority, path, method_, body)
    case None => None
    case Some(req) => Consume(env, c.key, peer(req))
  }

  /** What the peer's NBI server makes of the handler's outcome. */
  function NbiReply(reply: Reply): PeerReply {
    match reply
    case Answer(data) => PeerReply(200, Some(data))
    case _ => PeerReply(400, None)
  }

  // ---------------------------------------------------------------- SBI server

  datatype SbiRequest = SbiRequest(headers: Headers, path: Text, rawQuery: Text, verb: Text, body: Text)

  datatype SbiReply = SbiReply(status: int, headers: Headers, body: Text)

  const HOST: Text := "host"

  function StripScheme(root: Text): Text {
    if HTTP <= root then root[7..] else if HTTPS <= root then root[8..] else root
  }

  function AuthorityHeader(headers: Headers): Text {
    if AUTHORITY in headers then headers[AUTHORITY]
    else if HOST in headers then headers[HOST]
    else ""
  }

  function ResolveAuthority(headers: Headers): Text {
    var fromRoot := if API_ROOT in headers then StripScheme(headers[API_ROOT]) else "";
    if fromRoot != "" then fromRoot else AuthorityHeader(headers)
  }

  function FullPath(req: SbiRequest): Text {
    if req.rawQuery == "" then req.path else req.path + "?" + req.rawQuery
  }

  const MISSING_AUTHORITY := SbiReply(400, map[], "Missing authority header")
  const BAD_GATEWAY := SbiReply(502, map[], "NF service forwarding failed")

  /** The reply written for a served request. */
  function SbiAnswer(served: Option<HttpResponse>): SbiReply {
    match served
    case None => BAD_GATEWAY
    case Some(r) => SbiReply(r.status, Relayed(r.headers), if r.status == 204 then "" else r.body)
  }

  /** The handler of the SBI server for everything but telescopic requests, on a PRINS C-SEPP. */
  function SbiServe(env: Env, c: Forwarder, req: SbiRequest, nonce: Option<Nonce>, peer: N32fRequest -> PeerReply)
    : SbiReply
    requires env.Lawful()
  {
    var authority := ResolveAuthority(req.headers);
    if authority == "" then MISSING_AUTHORITY
    else SbiAnswer(ServePrins(env, c, nonce, authority, FullPath(req), req.verb, req.body, peer))
  }

  method ComputeResolveAuthority(headers: Headers) returns (authority: Text)
    ensures authority == ResolveAuthority(headers)
  {
    authority := "";
    if API_ROOT in headers && headers[API_ROOT] != "" {
      var apiRoot := headers[API_ROOT];
      if HTTP <= apiRoot {
        authority := apiRoot[7..];
      } else if HTTPS <= apiRoot {
        authority := apiRoot[8..];
      } else {
        authority := apiRoot;
      }
    }
    if authority == "" {
      if AUTHORITY in headers {
        authority := headers[AUTHORITY];
      } else if HOST in headers {
        authority := headers[HOST];
      }
    }
  }

  // ---------------------------------------------------------------- api-root normalisation

  predicate HasScheme(s: Text) {
    HTTP <= s || HTTPS <= s
  }

  lemma HttpIsNotHttps(s: Text)
    requires HTTP <= s
    ensures !(HTTPS <= s)
  {
    assert HTTP[4] == s[4] && HTTP[4] != HTTPS[4];
  }

  lemma NormalizeIsIdempotent(root: Text)
    ensures HTTP <= Normalize(root) && Normalize(Normalize(root)) == Normalize(root)
  {
    HttpIsNotHttps(Normalize(root));
  }

  /** Stripping at the SBI server, adding a scheme in the builder and normalising at the P-SEPP amount
      to normalising the caller's api root once, exactly when the stripped root has no second scheme. */
  lemma ApiRootSurvivesIff(root: Text)
    ensures Normalize(Normalize(StripScheme(root))) == Normalize(root) <==> !HasScheme(StripScheme(root))
  {
    var s := StripScheme(root);
    NormalizeIsIdempotent(s);
    if HTTP <= root {
      HttpIsNotHttps(root);
      assert root == HTTP + s;
    }
    if HasScheme(s) {
      assert |Normalize(s)| < |HTTP + s|;
    }
  }

  // ---------------------------------------------------------------- one message

  /** When the forwarder can protect a body: nothing to protect, no key, or a 16-byte key and a nonce. */
  predicate CanProtect(key: Text, body: Text, nonce: Option<Nonce>) {
    body == "" || key == "" || (|key| == 16 && nonce.Some?)
  }

  /** Under a shared key the body comes back whenever it could be protected at all. */
  lemma BodySurvives(env: Env, key: Text, nonce: Option<Nonce>, aad: Text, body: Text, data: FlatJwe)
    requires env.Lawful()
    ensures var packed := PackBody(env, key, nonce, aad, body);
            && (packed.Some? <==> CanProtect(key, body, nonce))
            && (packed.Some? && data.aad == aad && Jwe(data.iv, data.ciphertext, data.tag) == packed.value
                ==> UnpackBody(env, key, data) == Some(body))
  {
    if body != "" {
      JweRoundTrip(env.aead, body, aad, key, nonce);
      RoundTrip(body);
      EncodedIsCanonical(body);
    }
  }

  /** What a packed message holds: its head text, its context id, its body. */
  lemma PackedParts(env: Env, key: Text, nonce: Option<Nonce>, first: Text, path: Text, authority: Text,
                    body: Text, contextId: Text, headers: Headers)
    requires env.Lawful()
    ensures var packed := Pack(env, key, nonce, first, path, authority, body, contextId, headers);
            && (packed.Some? <==> CanProtect(key, body, nonce))
            && (packed.Some? ==>
                  && UrlDecode(packed.value.aad) == PrintAad(first, path, authority, env.order(headers), headers)
                  && packed.value.contextId == Some(contextId)
                  && UnpackBody(env, key, packed.value) == Some(body))
  {
    var text := PrintAad(first, path, authority, env.order(headers), headers);
    RoundTrip(text);
    var packed := Pack(env, key, nonce, first, path, authority, body, contextId, headers);
    BodySurvives(env, key, nonce, UrlEncode(text), body,
                 if packed.Some? then packed.value else FlatJwe("", "", None, "", "", ""));
  }

  /** The message a PRINS C-SEPP sends for a request. */
  function RequestMessage(env: Env, c: Forwarder, nonce: Option<Nonce>, authority: Text, path: Text,
                          method_: Text, body: Text): Option<N32fRequest>
    requires env.Lawful()
  {
    CreateRequest(env, c.capability, c.key, c.contextId, nonce, authority, path, method_, body)
  }

  /** Request transparency: the peer unpacks exactly the method, path, authority and body that were
      packed if and only if method and path are words and the authority holds no LF; the context-id
      check never stands in the way, even before a context is established. */
  lemma RequestSurvivesIff(env: Env, c: Forwarder, nonce: Option<Nonce>, authority: Text, path: Text,
                           method_: Text, body: Text)
    requires env.Lawful() && c.capability == PRINS && CanProtect(c.key, body, nonce)
    ensures var message := RequestMessage(env, c, nonce, authority, path, method_, body);
            && message.Some? && message.value.Message? && ContextIdOf(message.value) != ""
            && (Unpack(env, PRINS, c.key, message.value)
                  == Some((Head(method_, path, authority, AuthorityHeaders(authority)), body))
                <==> IsToken(method_) && IsToken(path) && '\n' !in authority)
  {
    var id := if c.contextId == "" then DUMMY_CONTEXT_ID else c.contextId;
    PackedParts(env, c.key, nonce, method_, path, authority, body, id, map[]);
    RequestNeedsProtection(env, c, nonce, authority, path, method_, body);
    var message := RequestMessage(env, c, nonce, authority, path, method_, body).value;
    assert id != "" && ContextIdOf(message) == id;
    UnpackOf(env, c.key, message, body);
    BareHeadSurvivesIff(method_, path, authority, env.order(map[]));
  }

  lemma UnpackOf(env: Env, key: Text, req: N32fRequest, body: Text)
    requires req.Message? && ContextIdOf(req) != "" && UnpackBody(env, key, req.reformatted) == Some(body)
    ensures var head := ParseAad(UrlDecode(req.reformatted.aad), EMPTY_HEAD);
            Unpack(env, PRINS, key, req) == if head.None? then None else Some((head.value, body))
  {
  }

  /** A request carries no further headers. */
  lemma BareHeadSurvivesIff(method_: Text, path: Text, authority: Text, order: seq<Text>)
    requires Enumerates(order, map[])
    ensures ParseAad(PrintAad(method_, path, authority, order, map[]), EMPTY_HEAD)
         == Some(Head(method_, path, authority, AuthorityHeaders(authority)))
        <==> IsToken(method_) && IsToken(path) && '\n' !in authority
  {
    AadSurvivesIff(method_, path, authority, order, map[]);
    NoneKept(authority);
  }

  lemma NoneKept(authority: Text)
    ensures Kept(map[]) == map[] && AuthorityHeaders(authority) + map[] == AuthorityHeaders(authority)
  {
  }

  /** What the P-SEPP then sends on goes to the normalised authority, without one to the local NRF, and
      carries none of the two lines the envelope added. */
  lemma OutboundOfRequest(env: Env, authority: Text, path: Text, method_: Text, body: Text)
    ensures Outbound(env, Head(method_, path, authority, AuthorityHeaders(authority)), body)
         == HttpRequest(Normalize(if authority == "" then env.nrfUrl else authority) + path, VerbOf(method_), body,
                        if body != "" then env.jsonHeaders else map[])
  {
    NormalizeIsIdempotent(authority);
    assert AuthorityHeaders(authority) - {AUTHORITY, API_ROOT} == map[];
    assert env.jsonHeaders + map[] == env.jsonHeaders;
  }

  lemma RequestNeedsProtection(env: Env, c: Forwarder, nonce: Option<Nonce>, authority: Text, path: Text,
                               method_: Text, body: Text)
    requires env.Lawful() && c.capability == PRINS
    ensures RequestMessage(env, c, nonce, authority, path, method_, body).Some? <==> CanProtect(c.key, body, nonce)
    ensures var message := RequestMessage(env, c, nonce, authority, path, method_, body);
            var id := if c.contextId == "" then DUMMY_CONTEXT_ID else c.contextId;
            message.Some? ==> message.value.Message? && Pack(env, c.key, nonce, method_, path, authority, body, id, map[])
                              == Some(message.value.reformatted) && message.value.outerContextId == ""
  {
    var id := if c.contextId == "" then DUMMY_CONTEXT_ID else c.contextId;
    PackedParts(env, c.key, nonce, method_, path, authority, body, id, map[]);
  }

  predicate ValidStatus(status: int) {
    100 <= status <= 599
  }

  /** The headers of a response that reach the consumer. */
  function Visible(headers: Headers): Headers {
    map k | k in headers && IsRelayed(k) && Clean(headers[k]) :: headers[k]
  }

  lemma RelayedNames(headers: Headers, authority: Text)
    ensures NamesColonFree(Kept(Relayed(headers)))
    ensures Relayed(AuthorityHeaders(authority) + Kept(Relayed(headers))) == Visible(headers)
  {
    forall k | k in Kept(Relayed(headers)) ensures ':' !in k {
      RelayedNameIsPlain(k);
    }
    OwnLinesAreNotRelayed(authority, Kept(Relayed(headers)));
    KeptIsVisible(headers);
  }

  /** The two lines the envelope adds are not relayed. */
  lemma OwnLinesAreNotRelayed(authority: Text, others: Headers)
    ensures Relayed(AuthorityHeaders(authority) + others) == Relayed(others)
  {
  }

  lemma KeptIsVisible(headers: Headers)
    ensures Relayed(Kept(Relayed(headers))) == Visible(headers)
  {
    var kept := Kept(Relayed(headers));
    forall k ensures k in Relayed(kept) <==> k in Visible(headers) {
      if IsRelayed(k) {
        RelayedNameIsPlain(k);
      }
    }
  }

  lemma RelayedNameIsPlain(name: Text)
    requires IsRelayed(name)
    ensures Clean(name) && ':' !in name
  {
  }

  /** The head of a response is parsed as it was printed. */
  lemma ResponseHeadSurvives(order: seq<Text>, status: int, path: Text, authority: Text, headers: Headers)
    requires Enumerates(order, Relayed(headers)) && IsToken(path) && '\n' !in authority
    ensures ParseAad(PrintAad(ToString(status), path, authority, order, Relayed(headers)), EMPTY_HEAD)
         == Some(Head(ToString(status), path, authority, AuthorityHeaders(authority) + Kept(Relayed(headers))))
  {
    ToStringIsToken(status);
    RelayedNames(headers, authority);
    AadSurvivesIff(ToString(status), path, authority, order, Relayed(headers));
  }

  /** What the consumer gets of that head. */
  lemma HeadAnswers(status: int, path: Text, authority: Text, headers: Headers, body: Text)
    ensures var head := Head(ToString(status), path, authority, AuthorityHeaders(authority) + Kept(Relayed(headers)));
            SbiAnswer(ConsumeHead(Some(head), body))
            == (if ValidStatus(status) then SbiReply(status, Visible(headers), if status == 204 then "" else body)
                else BAD_GATEWAY)
  {
    StoiOfToString(status);
    RelayedNames(headers, authority);
  }

  /** Response transparency: for every status, body and header map of a producer that answered, the
      C-SEPP recovers status and body and the consumer's headers, or gives up, which it does exactly
      when the body could not be protected or the status is not in 100..599. */
  lemma ResponseSurvives(env: Env, key: Text, nonce: Option<Nonce>, head: Head, contextId: Text,
                         response: HttpResponse)
    requires env.Lawful() && response.status != 0
    requires IsToken(head.path) && '\n' !in head.authority
    ensures SbiAnswer(Consume(env, key, NbiReply(PackResponse(env, key, nonce, head, contextId, response))))
         == if CanProtect(key, response.body, nonce) && ValidStatus(response.status)
            then SbiReply(response.status, Visible(response.headers),
                          if response.status == 204 then "" else response.body)
            else BAD_GATEWAY
  {
    var first, headers := ToString(response.status), Relayed(response.headers);
    PackedParts(env, key, nonce, first, head.path, head.authority, response.body, contextId, headers);
    ResponseHeadSurvives(env.order(headers), response.status, head.path, head.authority, response.headers);
    HeadAnswers(response.status, head.path, head.authority, response.headers, response.body);
  }

  // ---------------------------------------------------------------- the whole tunnel

  /** The message a request of the SBI server is sent as, if any. */
  function MessageOf(env: Env, c: Forwarder, req: SbiRequest, nonce: Option<Nonce>): Option<N32fRequest>
    requires env.Lawful()
  {
    var authority := ResolveAuthority(req.headers);
    if authority == "" then None
    else RequestMessage(env, c, nonce, authority, FullPath(req), req.verb, req.body)
  }

  /** A request served by the SBI server of a PRINS C-SEPP whose peer is a PRINS P-SEPP with the same
      key: the request that reaches the producer, if any, and the reply the consumer gets. One Env serves
      both sides without loss: the C-SEPP uses nothing of it but the cipher. */
  function Relay(env: Env, c: Forwarder, req: SbiRequest, nonceOut: Option<Nonce>, nonceBack: Option<Nonce>,
                 producer: Producer): (Option<HttpRequest>, SbiReply)
    requires env.Lawful()
  {
    var message := MessageOf(env, c, req, nonceOut);
    var sent := if message.None? then None
      else ProcessPost(env, PRINS, c.key, nonceBack, message.value, producer).0;
    (sent, SbiServe(env, c, req, nonceOut, PSepp(env, c.key, nonceBack, producer)))
  }

  /** A PRINS P-SEPP behind its HTTP server. */
  function PSepp(env: Env, key: Text, nonce: Option<Nonce>, producer: Producer): N32fRequest -> PeerReply
    requires env.Lawful()
  {
    (m: N32fRequest) => NbiReply(ProcessPost(env, PRINS, key, nonce, m, producer).1)
  }

  /** What a transparent gateway would do: one plain HTTP exchange with the producer. */
  function Direct(env: Env, key: Text, req: SbiRequest, nonceOut: Option<Nonce>, nonceBack: Option<Nonce>,
                  producer: Producer): (Option<HttpRequest>, SbiReply)
  {
    if !CanProtect(key, req.body, nonceOut) then (None, BAD_GATEWAY)
    else
      var out := HttpRequest(Normalize(ResolveAuthority(req.headers)) + FullPath(req), VerbOf(req.verb), req.body,
                             if req.body != "" then env.jsonHeaders else map[]);
      var r := producer(out);
      (Some(out),
       if ValidStatus(r.status) && CanProtect(key, r.body, nonceBack)
       then SbiReply(r.status, Visible(r.headers), if r.status == 204 then "" else r.body)
       else BAD_GATEWAY)
  }

  /** The way of one message to the peer and back. */
  function Exchange(env: Env, key: Text, nonceBack: Option<Nonce>, message: N32fRequest, producer: Producer)
    : (Option<HttpRequest>, SbiReply)
    requires env.Lawful()
  {
    var (sent, reply) := ProcessPost(env, PRINS, key, nonceBack, message, producer);
    (sent, SbiAnswer(Consume(env, key, NbiReply(reply))))
  }

  lemma RelayIsExchange(env: Env, c: Forwarder, req: SbiRequest, nonceOut: Option<Nonce>,
                        nonceBack: Option<Nonce>, producer: Producer)
    requires env.Lawful() && ResolveAuthority(req.headers) != ""
    ensures var message := RequestMessage(env, c, nonceOut, ResolveAuthority(req.headers), FullPath(req),
                                          req.verb, req.body);
            Relay(env, c, req, nonceOut, nonceBack, producer)
            == (if message.None? then (None, BAD_GATEWAY)
                else Exchange(env, c.key, nonceBack, message.value, producer))
  {
  }

  predicate Carries(req: SbiRequest) {
    && ResolveAuthority(req.headers) != "" && '\n' !in ResolveAuthority(req.headers)
    && IsToken(FullPath(req)) && IsToken(req.verb)
  }

  /** The P-SEPP turns the message of a request into that request, and packs the producer's answer. */
  lemma MessageIsServed(env: Env, c: Forwarder, req: SbiRequest, nonceOut: Option<Nonce>,
                        nonceBack: Option<Nonce>, producer: Producer)
    requires env.Lawful() && c.capability == PRINS && Carries(req) && CanProtect(c.key, req.body, nonceOut)
    ensures var authority := ResolveAuthority(req.headers);
            var message := RequestMessage(env, c, nonceOut, authority, FullPath(req), req.verb, req.body);
            var head := Head(req.verb, FullPath(req), authority, AuthorityHeaders(authority));
            var out := Direct(env, c.key, req, nonceOut, nonceBack, producer).0;
            && message.Some? && message.value.Message? && out.Some?
            && ProcessPost(env, PRINS, c.key, nonceBack, message.value, producer)
            == (out, PackResponse(env, c.key, nonceBack, head, ContextIdOf(message.value), producer(out.value)))
  {
    var authority := ResolveAuthority(req.headers);
    RequestSurvivesIff(env, c, nonceOut, authority, FullPath(req), req.verb, req.body);
    OutboundOfRequest(env, authority, FullPath(req), req.verb, req.body);
  }

  /** The message of a request that can be protected, sent and answered, is one direct exchange. */
  lemma ExchangeIsDirect(env: Env, c: Forwarder, req: SbiRequest, nonceOut: Option<Nonce>,
                         nonceBack: Option<Nonce>, producer: Producer)
    requires env.Lawful() && c.capability == PRINS && Carries(req) && CanProtect(c.key, req.body, nonceOut)
    ensures var message := RequestMessage(env, c, nonceOut, ResolveAuthority(req.headers), FullPath(req),
                                          req.verb, req.body);
            message.Some? && Exchange(env, c.key, nonceBack, message.value, producer)
                             == Direct(env, c.key, req, nonceOut, nonceBack, producer)
  {
    var authority, path := ResolveAuthority(req.headers), FullPath(req);
    MessageIsServed(env, c, req, nonceOut, nonceBack, producer);
    var message := RequestMessage(env, c, nonceOut, authority, path, req.verb, req.body).value;
    var head := Head(req.verb, path, authority, AuthorityHeaders(authority));
    var response := producer(Direct(env, c.key, req, nonceOut, nonceBack, producer).0.value);
    if response.status != 0 {
      ResponseSurvives(env, c.key, nonceBack, head, ContextIdOf(message), response);
    }
  }

  /** The tunnel is transparent: for every cipher, shared key, context id, header iteration order,
      request and producer, the consumer sees what the direct exchange would have shown it. */
  lemma TunnelIsTransparent(env: Env, c: Forwarder, req: SbiRequest, nonceOut: Option<Nonce>,
                            nonceBack: Option<Nonce>, producer: Producer)
    requires env.Lawful() && c.capability == PRINS && Carries(req)
    ensures Relay(env, c, req, nonceOut, nonceBack, producer)
         == Direct(env, c.key, req, nonceOut, nonceBack, producer)
  {
    RelayIsExchange(env, c, req, nonceOut, nonceBack, producer);
    if CanProtect(c.key, req.body, nonceOut) {
      ExchangeIsDirect(env, c, req, nonceOut, nonceBack, producer);
    } else {
      RequestNeedsProtection(env, c, nonceOut, ResolveAuthority(req.headers), FullPath(req), req.verb, req.body);
    }
  }

  /** A request that names its target by api root reaches that root, with a plain http scheme, exactly
      when what follows the scheme does not start with another one. */
  lemma TargetIsApiRootIff(env: Env, c: Forwarder, req: SbiRequest, nonceOut: Option<Nonce>,
                           nonceBack: Option<Nonce>, producer: Producer)
    requires env.Lawful() && c.capability == PRINS && Carries(req) && CanProtect(c.key, req.body, nonceOut)
    requires API_ROOT in req.headers && StripScheme(req.headers[API_ROOT]) != ""
    ensures var root := req.headers[API_ROOT];
            var sent := Relay(env, c, req, nonceOut, nonceBack, producer).0;
            sent.Some? && (sent.value.uri == Normalize(root) + FullPath(req) <==> !HasScheme(StripScheme(root)))
  {
    TunnelIsTransparent(env, c, req, nonceOut, nonceBack, producer);
    var root, path := req.headers[API_ROOT], FullPath(req);
    var reached := Normalize(StripScheme(root));
    NormalizeIsIdempotent(StripScheme(root));
    ApiRootSurvivesIff(root);
    if reached + path == Normalize(root) + path {
      assert |reached| == |Normalize(root)|;
      assert reached == (reached + path)[..|reached|] == Normalize(root);
    }
  }

  // ---------------------------------------------------------------- where the tunnel is not transparent

  /** A key that is not 16 bytes long, such as this one, stops every request with a body. */
  const SHORT_KEY: Text := "short"

  lemma ShortKeyStopsBodies(env: Env, contextId: Text, req: SbiRequest, nonceOut: Option<Nonce>,
                            nonceBack: Option<Nonce>, producer: Producer)
    requires env.Lawful() && ResolveAuthority(req.headers) != "" && req.body != ""
    ensures Relay(env, Forwarder(PRINS, SHORT_KEY, contextId), req, nonceOut, nonceBack, producer) == (None, BAD_GATEWAY)
  {
    var c := Forwarder(PRINS, SHORT_KEY, contextId);
    RequestNeedsProtection(env, c, nonceOut, ResolveAuthority(req.headers), FullPath(req), req.verb, req.body);
    RelayIsExchange(env, c, req, nonceOut, nonceBack, producer);
  }

  const DOUBLE_ROOT: Text := "http://http://h"

  /** This api root names http://http://h; the request goes to http://h. */
  lemma SecondSchemeIsLost()
    ensures Normalize(DOUBLE_ROOT) == DOUBLE_ROOT
    ensures Normalize(Normalize(StripScheme(DOUBLE_ROOT))) == "http://h"
  {
    assert DOUBLE_ROOT == HTTP + "http://h";
    assert "http://h" == HTTP + "h";
    HttpIsNotHttps(DOUBLE_ROOT);
    HttpIsNotHttps("http://h");
    assert StripScheme(DOUBLE_ROOT) == "http://h";
  }

  // ---------------------------------------------------------------- the assumptions can be met

  /** Some order for a finite map. */
  ghost function SomeOrder(headers: Headers): (order: seq<Text>)
    ensures Enumerates(order, headers)
    decreases |headers|
  {
    if headers == map[] then []
    else
      var k :| k in headers;
      [k] + SomeOrder(headers - {k})
  }

  /** There are surroundings as the results above assume them. */
  lemma LawfulEnvExists() returns (env: Env)
    ensures env.Lawful()
  {
    var aead := LawfulAeadExists();
    env := Env(aead, (h: Headers) => SomeOrder(h), map[], "http://127.0.0.1:8080");
  }
}
