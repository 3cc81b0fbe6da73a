/** What the tunnel does, in the terms of those at its ends: which request the producer gets for a request of the
    consumer, which reply the consumer gets for a response of the producer, and what stands on N32-f between. */
module SbiExchange {
  import opened Octets
  import opened AadCodec
  import opened Jose
  import opened Decimal
  import opened N32fForward
  import opened SecurityModes
  import opened Tunnel

  // ---------------------------------------------------------------- whom a request is for

  function Value(headers: Headers, name: Text): Text {
    if name in headers then headers[name] else ""
  }

  /** host is the authority of a request: what follows the scheme of its api root, where there is anything to
      follow; else its authority header, else its host header. */
  predicate IsFor(headers: Headers, host: Text) {
    var root := Value(headers, "3gpp-sbi-target-apiroot");
    var authority: Text := "authority";
    if root != "" && root != "http://" && root != "https://" then
      || root == "http://" + host || root == "https://" + host
      || (root == host && !("http://" <= host) && !("https://" <= host))
    else if authority in headers then host == headers[authority]
    else host == Value(headers, "host")
  }

  lemma Names()
    ensures HTTP == "http://" && HTTPS == "https://" && AUTHORITY == "authority"
    ensures API_ROOT == "3gpp-sbi-target-apiroot" && HOST == "host"
  {
  }

  lemma StripIff(root: Text, host: Text)
    requires root != "" && root != "http://" && root != "https://"
    ensures StripScheme(root) != ""
    ensures StripScheme(root) == host
       <==> || root == "http://" + host || root == "https://" + host
            || (root == host && !("http://" <= host) && !("https://" <= host))
  {
    Names();
    if HTTP <= root {
      HttpIsNotHttps(root);
      assert root == HTTP + root[7..];
    } else if HTTPS <= root {
      assert root == HTTPS + root[8..];
    }
    if root == HTTPS + host {
      assert HTTPS <= root && root[8..] == host && root[4] == 's';
    }
    if root == HTTP + host {
      assert HTTP <= root && root[7..] == host;
    }
  }

  lemma EmptyRoots()
    ensures StripScheme("") == "" && StripScheme(HTTP) == "" && StripScheme(HTTPS) == ""
  {
    assert HTTPS[4] != HTTP[4];
  }

  lemma IsForIff(headers: Headers, host: Text)
    ensures IsFor(headers, host) <==> host == ResolveAuthority(headers)
  {
    Names();
    var root := Value(headers, API_ROOT);
    if root == "" || root == HTTP || root == HTTPS {
      EmptyRoots();
    } else {
      StripIff(root, host);
    }
  }

  // ---------------------------------------------------------------- what the producer gets

  /** Path and query, joined by a question mark where there is a query. */
  function Target(path: Text, query: Text): Text {
    path + if query == "" then "" else "?" + query
  }

  /** What a request must be for the tunnel to carry it: method and target are words, the host is one line. */
  predicate Sendable(req: SbiRequest, host: Text) {
    && IsFor(req.headers, host) && host != "" && '\n' !in host
    && req.verb != "" && SpaceFree(req.verb)
    && SpaceFree(req.path) && SpaceFree(req.rawQuery) && (req.path != "" || req.rawQuery != "")
  }

  lemma SendableIsCarried(req: SbiRequest, host: Text)
    requires Sendable(req, host)
    ensures Carries(req) && ResolveAuthority(req.headers) == host
    ensures FullPath(req) == Target(req.path, req.rawQuery)
  {
    IsForIff(req.headers, host);
    TokenIff(req.verb);
    TokenIff(FullPath(req));
  }

  /** The body can be sent: there is none, or no key, or a key of 16 bytes and a nonce. */
  predicate Protectable(body: Text, key: Text, nonce: Option<Nonce>) {
    body == "" || key == "" || (|key| == 16 && nonce.Some?)
  }

  /** One of the five methods by its name; any other is sent as GET. */
  predicate SentAs(method_: Text, verb: Verb) {
    match verb
    case POST => method_ == "POST"
    case PUT => method_ == "PUT"
    case DELETE => method_ == "DELETE"
    case PATCH => method_ == "PATCH"
    case GET => method_ !in {"POST", "PUT", "DELETE", "PATCH"}
  }

  lemma SentAsIff(method_: Text, verb: Verb)
    ensures SentAs(method_, verb) <==> verb == VerbOf(method_)
  {
  }

  /** The producer gets exactly the consumer's request: at the host with the scheme http, under the same path and
      query, with the same method and body. */
  lemma RequestReachesProducer(env: Env, c: Forwarder, req: SbiRequest, host: Text, nonceOut: Option<Nonce>,
                               nonceBack: Option<Nonce>, producer: Producer)
    requires env.Lawful() && c.capability == "PRINS" && Sendable(req, host) && Protectable(req.body, c.key, nonceOut)
    ensures var sent := Relay(env, c, req, nonceOut, nonceBack, producer).0;
            && sent.Some?
            && sent.value.uri == HttpRoot(host) + req.path + (if req.rawQuery == "" then "" else "?" + req.rawQuery)
            && SentAs(req.verb, sent.value.verb)
            && sent.value.body == req.body
            && sent.value.headers == if req.body != "" then env.jsonHeaders else map[]
  {
    assert PRINS == "PRINS";
    SendableIsCarried(req, host);
    TunnelIsTransparent(env, c, req, nonceOut, nonceBack, producer);
    RootIff(host);
    SentAsIff(req.verb, VerbOf(req.verb));
    TargetJoins(HttpRoot(host), req.path, req.rawQuery);
  }

  lemma TargetJoins(root: Text, path: Text, query: Text)
    ensures root + Target(path, query) == root + path + if query == "" then "" else "?" + query
  {
  }

  /** When the path holds no question mark, cutting what the P-SEPP unpacks at its first one gives path and query
      back; its other parts are the consumer's too. */
  lemma QueryIsUnpacked(env: Env, c: Forwarder, req: SbiRequest, host: Text, nonce: Option<Nonce>)
    requires env.Lawful() && c.capability == "PRINS" && Sendable(req, host) && Protectable(req.body, c.key, nonce)
    requires '?' !in req.path
    ensures var message := MessageOf(env, c, req, nonce);
            message.Some? &&
            var unpacked := Unpack(env, "PRINS", c.key, message.value);
            unpacked.Some? &&
            var (head, body) := unpacked.value;
            var cut := IndexOf(head.path, '?');
            && head.path[..cut] == req.path
            && (if req.rawQuery == "" then cut == |head.path|
                else cut < |head.path| && head.path[cut + 1..] == req.rawQuery)
            && head.first == req.verb && head.authority == host && body == req.body
  {
    assert PRINS == "PRINS";
    SendableIsCarried(req, host);
    RequestSurvivesIff(env, c, nonce, host, FullPath(req), req.verb, req.body);
    CutTarget(req.path, req.rawQuery);
  }

  lemma {:induction false} CutTarget(path: Text, query: Text)
    requires '?' !in path
    ensures var target := Target(path, query);
            var cut := IndexOf(target, '?');
            && target[..cut] == path
            && (if query == "" then cut == |target| else cut < |target| && target[cut + 1..] == query)
  {
    var target := Target(path, query);
    if query == "" {
      assert target == path;
    } else {
      IndexOfSplit(path, '?', query);
      assert target == path + ['?'] + query;
    }
  }

  /** A request without authority is refused, and one whose body cannot be protected is given up; the producer
      gets neither. */
  lemma RefusedRequests(env: Env, c: Forwarder, req: SbiRequest, host: Text, nonceOut: Option<Nonce>,
                        nonceBack: Option<Nonce>, producer: Producer)
    requires env.Lawful() && c.capability == "PRINS" && IsFor(req.headers, host)
    ensures var outcome := Relay(env, c, req, nonceOut, nonceBack, producer);
            && (host == "" ==> outcome == (None, SbiReply(400, map[], "Missing authority header")))
            && (host != "" && !Protectable(req.body, c.key, nonceOut) ==>
                  outcome == (None, SbiReply(502, map[], "NF service forwarding failed")))
  {
    assert PRINS == "PRINS";
    IsForIff(req.headers, host);
    if host != "" {
      RelayIsExchange(env, c, req, nonceOut, nonceBack, producer);
      RequestNeedsProtection(env, c, nonceOut, host, FullPath(req), req.verb, req.body);
    }
  }

  // ---------------------------------------------------------------- what the consumer gets

  /** The header has come through: exactly when it was set to a value of one line, and then with that value. */
  predicate ComesThrough(name: Text, from: Headers, to: Headers) {
    && (name in to <==> name in from && '\r' !in from[name] && '\n' !in from[name])
    && (name in to ==> to[name] == from[name])
  }

  /** The consumer gets the producer's status and body, and of its headers exactly location, content-type and
      retry-after; or 502 when the status is none of HTTP or the body cannot be sent back. */
  lemma ResponseReachesConsumer(env: Env, c: Forwarder, req: SbiRequest, host: Text, nonceOut: Option<Nonce>,
                                nonceBack: Option<Nonce>, producer: Producer)
    requires env.Lawful() && c.capability == "PRINS" && Sendable(req, host) && Protectable(req.body, c.key, nonceOut)
    ensures var (sent, reply) := Relay(env, c, req, nonceOut, nonceBack, producer);
            sent.Some? &&
            var response := producer(sent.value);
            if 100 <= response.status < 600 && Protectable(response.body, c.key, nonceBack) then
              && reply.status == response.status
              && reply.body == (if response.status == 204 then "" else response.body)
              && (forall k :: k in reply.headers ==> k in {"location", "content-type", "retry-after"})
              && ComesThrough("location", response.headers, reply.headers)
              && ComesThrough("content-type", response.headers, reply.headers)
              && ComesThrough("retry-after", response.headers, reply.headers)
            else reply == SbiReply(502, map[], "NF service forwarding failed")
  {
    assert PRINS == "PRINS";
    SendableIsCarried(req, host);
    TunnelIsTransparent(env, c, req, nonceOut, nonceBack, producer);
    var response := producer(Relay(env, c, req, nonceOut, nonceBack, producer).0.value);
    VisibleHeaders(response.headers);
  }

  lemma VisibleHeaders(headers: Headers)
    ensures var visible := Visible(headers);
            && (forall k :: k in visible ==> k in {"location", "content-type", "retry-after"})
            && ComesThrough("location", headers, visible)
            && ComesThrough("content-type", headers, visible)
            && ComesThrough("retry-after", headers, visible)
  {
    assert LOCATION == "location" && CONTENT_TYPE == "content-type" && RETRY_AFTER == "retry-after";
  }

  // ---------------------------------------------------------------- what stands on N32-f

  /** A body on its way: in clear without a key, sealed with the head as associated data under one. */
  predicate Carried(env: Env, key: Text, data: FlatJwe, body: Text) {
    if body == "" then data.ciphertext == ""
    else if key == "" then data.ciphertext != "" && UrlDecode(data.ciphertext) == body && data.iv == "" && data.tag == ""
    else
      && |UrlDecode(data.iv)| == 12 && |UrlDecode(data.tag)| == 16 && data.ciphertext != ""
      && env.aead.open(key, UrlDecode(data.iv), data.aad, UrlDecode(data.ciphertext), UrlDecode(data.tag)) == Some(body)
  }

  function JoseHeader(key: Text): Text {
    "{\"alg\":\"" + (if key == "" then "dir" else "A128GCMKW") + "\",\"enc\":\"A128GCM\",\"n32fMsgId\":\"1\"}"
  }

  lemma PackedIsCarried(env: Env, key: Text, nonce: Option<Nonce>, first: Text, path: Text, authority: Text,
                        body: Text, contextId: Text, headers: Headers)
    requires env.Lawful()
    ensures var packed := Pack(env, key, nonce, first, path, authority, body, contextId, headers);
            packed.Some? ==>
              && Carried(env, key, packed.value, body) && UrlDecode(packed.value.rProtected) == JoseHeader(key)
              && packed.value.contextId == Some(contextId)
  {
    var aad := UrlEncode(PrintAad(first, path, authority, env.order(headers), headers));
    RoundTrip(ProtectedHeader(key));
    RoundTrip(body);
    EncodedIsCanonical(body);
    HeaderIff(key);
    if body != "" && key != "" && |key| == 16 && nonce.Some? {
      SealedParts(env.aead, body, aad, key, nonce.value);
    }
  }

  lemma HeaderIff(key: Text)
    ensures ProtectedHeader(key) == JoseHeader(key)
  {
  }

  lemma SealedParts(aead: Aead, plain: Text, aad: Text, key: Text, nonce: Nonce)
    requires aead.Lawful() && |key| == 16 && plain != ""
    ensures var r := ApplyJwe(aead, plain, aad, key, Some(nonce));
            && r.Some? && |UrlDecode(r.value.iv)| == 12 && |UrlDecode(r.value.tag)| == 16 && r.value.ciphertext != ""
            && aead.open(key, UrlDecode(r.value.iv), aad, UrlDecode(r.value.ciphertext), UrlDecode(r.value.tag))
               == Some(plain)
  {
    var s := aead.seal(key, nonce, aad, plain);
    RoundTrip(nonce);
    RoundTrip(s.ciphertext);
    RoundTrip(s.tag);
    EncodedIsCanonical(s.ciphertext);
  }

  /** The message of a request, as the peer can read it off the wire. */
  lemma MessageOnTheWire(env: Env, c: Forwarder, req: SbiRequest, host: Text, nonce: Option<Nonce>)
    requires env.Lawful() && c.capability == "PRINS"
    requires IsFor(req.headers, host) && host != "" && Protectable(req.body, c.key, nonce)
    ensures var message := MessageOf(env, c, req, nonce);
            message.Some? && message.value.Message? &&
            var data := message.value.reformatted;
            && UrlDecode(data.aad)
               == (req.verb + " " + Target(req.path, req.rawQuery) + " HTTP/2.0\r\n")
                  + (("authority: " + host + "\r\n") + ("3gpp-sbi-target-apiroot: " + HttpRoot(host) + "\r\n"))
            && data.contextId == Some(if c.contextId == "" then "dummy_context_id" else c.contextId)
            && UrlDecode(data.rProtected) == JoseHeader(c.key)
            && Carried(env, c.key, data, req.body)
  {
    assert PRINS == "PRINS";
    IsForIff(req.headers, host);
    var id := if c.contextId == "" then DUMMY_CONTEXT_ID else c.contextId;
    var path := FullPath(req);
    assert path == Target(req.path, req.rawQuery);
    RequestNeedsProtection(env, c, nonce, host, path, req.verb, req.body);
    PackedParts(env, c.key, nonce, req.verb, path, host, req.body, id, map[]);
    PackedIsCarried(env, c.key, nonce, req.verb, path, host, req.body, id, map[]);
    HeadOfRequest(env.order(map[]), req.verb, path, host);
  }

  lemma HeadOfRequest(order: seq<Text>, verb: Text, path: Text, host: Text)
    requires Enumerates(order, map[]) && host != ""
    ensures PrintAad(verb, path, host, order, map[])
         == (verb + " " + path + " HTTP/2.0\r\n")
            + (("authority: " + host + "\r\n") + ("3gpp-sbi-target-apiroot: " + HttpRoot(host) + "\r\n"))
  {
    DistinctFit(order, {});
    PrintedTop(verb, path, host);
  }

  lemma {:induction false} DistinctFit(order: seq<Text>, keys: set<Text>)
    requires forall i :: 0 <= i < |order| ==> order[i] in keys
    requires forall i, j :: 0 <= i < j < |order| ==> order[i] != order[j]
    ensures |order| <= |keys|
  {
    if order == [] {
    } else {
      DistinctFit(order[1..], keys - {order[0]});
    }
  }

  /** A body is read as it was carried; one without nonce or tag is read as clear text under any key, and a nonce
      or tag of the wrong size, or another associated text than the sealed one, is left to the cipher or refused. */
  lemma BodyIsRead(env: Env, key: Text, data: FlatJwe, x: Text, iv: Text, tag: Text)
    requires x != "" && data.ciphertext == UrlEncode(x)
    ensures key == "" || data.iv == "" || data.tag == "" ==> UnpackBody(env, key, data) == Some(x)
    ensures key != "" && iv != "" && tag != "" && data.iv == UrlEncode(iv) && data.tag == UrlEncode(tag) ==>
              UnpackBody(env, key, data)
              == if |key| == 16 && |iv| == 12 && |tag| == 16 then env.aead.open(key, iv, data.aad, x, tag) else None
  {
    RoundTrip(x);
    RoundTrip(iv);
    RoundTrip(tag);
    EncodedIsCanonical(x);
    EncodedIsCanonical(iv);
    EncodedIsCanonical(tag);
  }

  // ---------------------------------------------------------------- any message at the P-SEPP

  /** In another mode every message is refused, and nothing is sent. */
  lemma OtherModesRefuse(env: Env, capability: Text, key: Text, nonce: Option<Nonce>, req: N32fRequest,
                         producer: Producer)
    requires env.Lawful() && capability != "PRINS"
    ensures ProcessPost(env, capability, key, nonce, req, producer)
         == (None, if req.NotAnObject? then Failed else Problem("INVALID_CAPABILITY_ENDPOINT"))
  {
    assert PRINS == "PRINS";
  }

  /** The context id inside the reformatted data, or else the one beside it, names the context. A message is sent on
      exactly when it has either, a head, and a readable body; an answer goes out under the id it came with. */
  lemma ContextIsEchoed(env: Env, key: Text, nonce: Option<Nonce>, req: N32fRequest, producer: Producer)
    requires env.Lawful() && req.Message?
    ensures var inner := req.reformatted.contextId;
            var id := if inner.Some? && inner.value != "" then inner.value else req.outerContextId;
            var (sent, reply) := ProcessPost(env, "PRINS", key, nonce, req, producer);
            && (sent.Some? <==> id != "" && UrlDecode(req.reformatted.aad) != ""
                                && UnpackBody(env, key, req.reformatted).Some?)
            && (sent.None? ==> reply.Failed?)
            && (reply.Answer? ==> reply.reformatted.contextId == Some(id)
                                  && UrlDecode(reply.reformatted.rProtected) == JoseHeader(key))
  {
    assert PRINS == "PRINS";
    match Unpack(env, PRINS, key, req)
    case None =>
    case Some(unpacked) =>
      var (head, body) := unpacked;
      var response := producer(Outbound(env, head, body));
      PackedIsCarried(env, key, nonce, ToString(response.status), head.path, head.authority, response.body,
                      ContextIdOf(req), Relayed(response.headers));
  }

  /** What a received head makes the P-SEPP send, whoever wrote it: to the api root it names, else to its authority,
      else to the local NRF; with its headers but those two. */
  lemma HeadIsForwarded(env: Env, key: Text, nonce: Option<Nonce>, req: N32fRequest, producer: Producer)
    requires env.Lawful() && Unpack(env, "PRINS", key, req).Some?
    ensures var (head, body) := Unpack(env, "PRINS", key, req).value;
            var sent := ProcessPost(env, "PRINS", key, nonce, req, producer).0;
            && sent.Some? && sent.value.body == body && SentAs(head.first, sent.value.verb)
            && sent.value.uri == HttpRoot(Addressee(env, head)) + head.path
            && HeadersGoOn(head.headers, if body != "" then env.jsonHeaders else map[], sent.value.headers)
  {
    assert PRINS == "PRINS";
    var (head, body) := Unpack(env, PRINS, key, req).value;
    AddresseeIff(env, head);
    SentAsIff(head.first, VerbOf(head.first));
    RestGoesOn(head.headers, if body != "" then env.jsonHeaders else map[]);
  }

  function Addressee(env: Env, head: Head): Text {
    var root := Value(head.headers, "3gpp-sbi-target-apiroot");
    if root != "" then root else if head.authority != "" then head.authority else env.nrfUrl
  }

  lemma AddresseeIff(env: Env, head: Head)
    ensures Normalize(TargetEndpoint(env, head)) == HttpRoot(Addressee(env, head))
  {
    Names();
    RootIff(TargetEndpoint(env, head));
  }

  /** The headers `from` but the two of the envelope, and those of `base` that they do not replace. */
  predicate HeadersGoOn(from: Headers, base: Headers, to: Headers) {
    && (forall k :: k in from && k != "authority" && k != "3gpp-sbi-target-apiroot" ==> k in to && to[k] == from[k])
    && (forall k :: k in to ==>
          (k in from && k != "authority" && k != "3gpp-sbi-target-apiroot") || (k in base && to[k] == base[k]))
    && (forall k :: k in base ==> k in to)
  }

  lemma RestGoesOn(from: Headers, base: Headers)
    ensures HeadersGoOn(from, base, base + (from - {AUTHORITY, API_ROOT}))
  {
    Names();
  }

  /** The exchange with the producer fails exactly when there is no response or its body cannot be sent back. */
  lemma FailsIff(env: Env, key: Text, nonce: Option<Nonce>, req: N32fRequest, producer: Producer)
    requires env.Lawful() && Unpack(env, "PRINS", key, req).Some?
    ensures var (sent, reply) := ProcessPost(env, "PRINS", key, nonce, req, producer);
            sent.Some? &&
            var response := producer(sent.value);
            && (reply.Failed? <==> response.status == 0 || !Protectable(response.body, key, nonce))
            && !reply.Problem?
  {
    assert PRINS == "PRINS";
    var (head, body) := Unpack(env, PRINS, key, req).value;
    var response := producer(Outbound(env, head, body));
    PackedParts(env, key, nonce, ToString(response.status), head.path, head.authority, response.body,
                ContextIdOf(req), Relayed(response.headers));
  }

  /** Of the peer's replies those with status 200 or 201 are read, both alike; every other one is given up. */
  lemma RepliesThatAreRead(env: Env, key: Text, reply: PeerReply)
    ensures Consume(env, key, reply)
         == if reply.status == 200 || reply.status == 201 then Consume(env, key, PeerReply(200, reply.body)) else None
    ensures Consume(env, key, reply).Some? ==> 100 <= Consume(env, key, reply).value.status <= 599
  {
  }
}
