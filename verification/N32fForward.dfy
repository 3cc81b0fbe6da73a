/** src/sepp_app/sepp_n32f_forward.cpp: the PRINS envelope on N32-f
    (sections 5.3.1 and 5.3.2 of 3GPP TS 29.573). */
module N32fForward {
  import opened Octets
  import opened AadCodec
  import opened Jose
  import opened Decimal
  import opened SecurityModes

  datatype Verb = GET | POST | PUT | DELETE | PATCH

  datatype HttpRequest = HttpRequest(uri: Text, verb: Verb, body: Text, headers: Headers)

  /** Status 0 stands for an exchange that got no response. */
  datatype HttpResponse = HttpResponse(status: int, body: Text, headers: Headers)

  /** `contextId` is None when the unprotected part is not an object. */
  datatype FlatJwe = FlatJwe(rProtected: Text, aad: Text, contextId: Option<Text>,
                             ciphertext: Text, iv: Text, tag: Text)

  /** The JSON body of POST n32f-process. `outerContextId` is "" when absent. */
  datatype N32fRequest = NotAnObject | BadModel | Message(reformatted: FlatJwe, outerContextId: Text)

  datatype Reply = Answer(reformatted: FlatJwe) | Problem(cause: Text) | Failed

  /** What the SEPP finds in its surroundings: the cipher, the order in which a header map is walked,
      the headers a JSON request starts with, and the URL of the local NRF. */
  datatype Env = Env(aead: Aead, order: Headers -> seq<Text>, jsonHeaders: Headers, nrfUrl: Text) {
    ghost predicate Lawful() {
      aead.Lawful() && forall h: Headers :: Enumerates(order(h), h)
    }
  }

  // ---------------------------------------------------------------- specification

  function ProtectedHeader(key: Text): Text {
    "{\"alg\":\"" + (if key == "" then "dir" else "A128GCMKW")
    + "\",\"enc\":\"A128GCM\",\"n32fMsgId\":\"1\"}"
  }

  function PackBody(env: Env, key: Text, nonce: Option<Nonce>, aad: Text, body: Text): Option<Jwe> {
    if body == "" then Some(Jwe("", "", ""))
    else if key != "" then ApplyJwe(env.aead, body, aad, key, nonce)
    else Some(Jwe("", UrlEncode(body), ""))
  }

  function UnpackBody(env: Env, key: Text, data: FlatJwe): Option<Text> {
    if data.ciphertext == "" then Some("")
    else if key != "" && data.iv != "" && data.tag != "" then
      DecryptJwe(env.aead, Jwe(data.iv, data.ciphertext, data.tag), data.aad, key)
    else Some(UrlDecode(data.ciphertext))
  }

  function Pack(env: Env, key: Text, nonce: Option<Nonce>, first: Text, path: Text, authority: Text,
                body: Text, contextId: Text, headers: Headers): Option<FlatJwe>
    requires env.Lawful()
  {
    var aad := UrlEncode(PrintAad(first, path, authority, env.order(headers), headers));
    match PackBody(env, key, nonce, aad, body)
    case None => None
    case Some(jwe) =>
      Some(FlatJwe(UrlEncode(ProtectedHeader(key)), aad, Some(contextId), jwe.ciphertext, jwe.iv, jwe.tag))
  }

  function ContextIdOf(req: N32fRequest): Text
    requires req.Message?
  {
    match req.reformatted.contextId
    case Some(id) => if id != "" then id else req.outerContextId
    case None => req.outerContextId
  }

  function TargetEndpoint(env: Env, head: Head): Text {
    if API_ROOT in head.headers && head.headers[API_ROOT] != "" then head.headers[API_ROOT]
    else if head.authority != "" then head.authority
    else env.nrfUrl
  }

  function VerbOf(method_: Text): Verb {
    if method_ == "POST" then POST
    else if method_ == "PUT" then PUT
    else if method_ == "DELETE" then DELETE
    else if method_ == "PATCH" then PATCH
    else GET
  }

  function NameOf(verb: Verb): Text {
    match verb
    case GET => "GET"
    case POST => "POST"
    case PUT => "PUT"
    case DELETE => "DELETE"
    case PATCH => "PATCH"
  }

  /** The five methods are kept; every other one is sent as GET. */
  lemma VerbIsKeptIff(method_: Text)
    ensures NameOf(VerbOf(method_)) == method_ <==> exists v: Verb :: NameOf(v) == method_
    ensures NameOf(VerbOf(method_)) != method_ ==> VerbOf(method_) == GET
  {
  }

  /** The request sent to the network function. */
  function Outbound(env: Env, head: Head, body: Text): HttpRequest {
    HttpRequest(Normalize(TargetEndpoint(env, head)) + head.path, VerbOf(head.first), body,
                (if body != "" then env.jsonHeaders else map[]) + (head.headers - {AUTHORITY, API_ROOT}))
  }

  const LOCATION: Text := "location"
  const CONTENT_TYPE: Text := "content-type"
  const RETRY_AFTER: Text := "retry-after"

  predicate IsRelayed(name: Text) {
    name == LOCATION || name == CONTENT_TYPE || name == RETRY_AFTER
  }

  /** The headers of a response that are relayed. */
  function Relayed(headers: Headers): (r: Headers)
    ensures AUTHORITY !in r && API_ROOT !in r
  {
    map k | k in headers && IsRelayed(k) :: headers[k]
  }

  /** What an incoming message makes the P-SEPP unpack: the head and the body. */
  function Unpack(env: Env, capability: Text, key: Text, req: N32fRequest): Option<(Head, Text)> {
    if !req.Message? || capability != PRINS || ContextIdOf(req) == "" then None
    else
      match ParseAad(UrlDecode(req.reformatted.aad), EMPTY_HEAD)
      case None => None
      case Some(head) =>
        match UnpackBody(env, key, req.reformatted)
        case None => None
        case Some(body) => Some((head, body))
  }

  function Refusal(capability: Text, req: N32fRequest): Reply {
    if !req.NotAnObject? && capability != PRINS then Problem("INVALID_CAPABILITY_ENDPOINT") else Failed
  }

  function PackResponse(env: Env, key: Text, nonce: Option<Nonce>, head: Head, contextId: Text,
                        response: HttpResponse): Reply
    requires env.Lawful()
  {
    if response.status == 0 then Failed
    else
      match Pack(env, key, nonce, ToString(response.status), head.path, head.authority, response.body,
                 contextId, Relayed(response.headers))
      case None => Failed
      case Some(data) => Answer(data)
  }

  type Producer = HttpRequest -> HttpResponse

  /** POST n32f-process: the request sent on, if any, and the reply. */
  function ProcessPost(env: Env, capability: Text, key: Text, nonce: Option<Nonce>, req: N32fRequest,
                       producer: Producer): (Option<HttpRequest>, Reply)
    requires env.Lawful()
  {
    match Unpack(env, capability, key, req)
    case None => (None, Refusal(capability, req))
    case Some(unpacked) =>
      var out := Outbound(env, unpacked.0, unpacked.1);
      (Some(out), PackResponse(env, key, nonce, unpacked.0, ContextIdOf(req), producer(out)))
  }

  const DUMMY_CONTEXT_ID: Text := "dummy_context_id"

  /** The body of the request to the peer; a TLS forwarder leaves it null. */
  function CreateRequest(env: Env, capability: Text, key: Text, contextId: Text, nonce: Option<Nonce>,
                         authority: Text, path: Text, method_: Text, body: Text): Option<N32fRequest>
    requires env.Lawful()
  {
    if capability == TLS then Some(NotAnObject)
    else
      match Pack(env, key, nonce, method_, path, authority, body,
                 if contextId == "" then DUMMY_CONTEXT_ID else contextId, map[])
      case None => None
      case Some(data) => Some(Message(data, ""))
  }

  function CopiedOf(order: seq<Text>, from: Headers): Headers {
    map k | k in order && k in from && k != AUTHORITY && k != API_ROOT :: from[k]
  }

  lemma CopiedOfSnoc(order: seq<Text>, name: Text, from: Headers, to: Headers)
    requires name in from
    ensures to + CopiedOf(order + [name], from) ==
      if name != AUTHORITY && name != API_ROOT then (to + CopiedOf(order, from))[name := from[name]]
      else to + CopiedOf(order, from)
  {
  }

  lemma CopiedOfAll(order: seq<Text>, from: Headers)
    requires Enumerates(order, from)
    ensures CopiedOf(order, from) == from - {AUTHORITY, API_ROOT}
  {
  }

  // ---------------------------------------------------------------- the class

  class N32fForward {
    var contextId: Text
    var capability: Text
    var encKey: Text

    constructor ()
      ensures contextId == "" && capability == PRINS && encKey == ""
    {
      contextId, capability, encKey := "", PRINS, "";
    }

    method SetEncKey(key: Text)
      modifies this`encKey
      ensures encKey == key
    {
      encKey := key;
    }

    method SetSelectedSecCapability(cap: Text)
      modifies this`capability
      ensures capability == cap
    {
      capability := cap;
    }

    method BuildReformattedData(env: Env, nonce: Option<Nonce>, first: Text, path: Text, authority: Text,
                                body: Text, context: Text, headers: Headers) returns (out: Option<FlatJwe>)
      requires env.Lawful()
      ensures out == Pack(env, encKey, nonce, first, path, authority, body, context, headers)
    {
      var aadRaw := BuildAad(first, path, authority, env.order(headers), headers);
      var aad := Base64UrlEncode(aadRaw);
      var rProtected := Base64UrlEncode(ProtectedHeader(encKey));
      var data := FlatJwe(rProtected, aad, Some(context), "", "", "");
      if body != "" {
        if encKey != "" {
          var jwe := ApplyJwe(env.aead, body, aad, encKey, nonce);
          if jwe.None? {
            return None;
          }
          data := data.(iv := jwe.value.iv, ciphertext := jwe.value.ciphertext, tag := jwe.value.tag);
        } else {
          var ciphertext := Base64UrlEncode(body);
          data := data.(ciphertext := ciphertext);
        }
      }
      out := Some(data);
    }

    method CreateN32fProcessRequest(env: Env, nonce: Option<Nonce>, authority: Text, path: Text,
                                    method_: Text, body: Text) returns (req: Option<N32fRequest>)
      requires env.Lawful()
      ensures req == CreateRequest(env, capability, encKey, contextId, nonce, authority, path, method_, body)
    {
      if capability == TLS {
        return Some(NotAnObject);
      }
      var id := if contextId == "" then DUMMY_CONTEXT_ID else contextId;
      var data := BuildReformattedData(env, nonce, method_, path, authority, body, id, map[]);
      if data.None? {
        return None;
      }
      req := Some(Message(data.value, ""));
    }

    /** The checks and decoding steps of handle_n32f_process_post before anything is sent. */
    method UnpackRequest(env: Env, req: N32fRequest) returns (r: Option<(Head, Text)>)
      ensures r == Unpack(env, capability, encKey, req)
    {
      if !req.Message? || capability != PRINS {
        return None;
      }
      var data := req.reformatted;
      var context := if data.contextId.Some? then data.contextId.value else "";
      if context == "" {
        context := req.outerContextId;
      }
      if context == "" {
        return None;
      }
      var decodedAad := Base64UrlDecode(data.aad);
      var ok, head := ComputeParseAad(decodedAad, EMPTY_HEAD);
      if !ok {
        return None;
      }
      var body := DecodeBody(env, data);
      if body.None? {
        return None;
      }
      return Some((head, body.value));
    }

    /** Decryption or decoding of the body. */
    method DecodeBody(env: Env, data: FlatJwe) returns (body: Option<Text>)
      ensures body == UnpackBody(env, encKey, data)
    {
      body := Some("");
      if data.ciphertext != "" {
        if encKey != "" && data.iv != "" && data.tag != "" {
          body := DecryptJwe(env.aead, Jwe(data.iv, data.ciphertext, data.tag), data.aad, encKey);
        } else {
          var decoded := Base64UrlDecode(data.ciphertext);
          body := Some(decoded);
        }
      }
    }

    /** send_http_request_to_target up to the exchange itself. */
    method PrepareRequest(env: Env, head: Head, body: Text) returns (req: HttpRequest)
      requires env.Lawful()
      ensures req == Outbound(env, head, body)
    {
      var endpoint;
      if API_ROOT in head.headers && head.headers[API_ROOT] != "" {
        endpoint := head.headers[API_ROOT];
      } else if head.authority != "" {
        endpoint := head.authority;
      } else {
        endpoint := env.nrfUrl;
      }
      if HTTPS <= endpoint {
        endpoint := HTTP + endpoint[8..];
      } else if !(HTTP <= endpoint) {
        endpoint := HTTP + endpoint;
      }
      var headers := if body != "" then env.jsonHeaders else map[];
      headers := CopyHeaders(env.order(head.headers), head.headers, headers);
      req := HttpRequest(endpoint + head.path, VerbOf(head.first), body, headers);
    }

    static method CopyHeaders(order: seq<Text>, from: Headers, to: Headers) returns (r: Headers)
      requires Enumerates(order, from)
      ensures r == to + (from - {AUTHORITY, API_ROOT})
    {
      r := to;
      for i := 0 to |order|
        invariant r == to + CopiedOf(order[..i], from)
      {
        var name: Text := order[i];
        assert order[..i + 1] == order[..i] + [name];
        CopiedOfSnoc(order[..i], name, from, to);
        if name != AUTHORITY && name != API_ROOT {
          r := r[name := from[name]];
        }
      }
      assert order[..|order|] == order;
      CopiedOfAll(order, from);
    }

    method HandleN32fProcessPost(env: Env, nonce: Option<Nonce>, req: N32fRequest, producer: Producer)
      returns (sent: Option<HttpRequest>, reply: Reply)
      requires env.Lawful()
      ensures (sent, reply) == ProcessPost(env, capability, encKey, nonce, req, producer)
    {
      if !req.NotAnObject? && capability != PRINS {
        return None, Problem("INVALID_CAPABILITY_ENDPOINT");
      }
      var unpacked := UnpackRequest(env, req);
      if unpacked.None? {
        return None, Failed;
      }
      var (head, body) := unpacked.value;
      var out := PrepareRequest(env, head, body);
      sent := Some(out);
      var response := producer(out);
      if response.status == 0 {
        return sent, Failed;
      }
      var packed := BuildReformattedData(env, nonce, ToString(response.status), head.path, head.authority,
                                         response.body, ContextIdOf(req), Relayed(response.headers));
      if packed.None? {
        return sent, Failed;
      }
      reply := Answer(packed.value);
    }
  }
}
