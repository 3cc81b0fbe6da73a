/** src/sepp_app/sepp_app.cpp: the application object that drives the handshake and the forwarder. */
module SeppApp {
  import opened Octets
  import opened AadCodec
  import opened Jose
  import opened Decimal
  import opened N32cHandshake
  import opened SecurityModes
  import opened TwoParty
  import Telescopic
  import F = N32fForward
  import T = Tunnel

  /** The peer as the HTTP client sees it, one function for each endpoint; status 0 is a loss. */
  datatype Peer = Peer(
    capability: CapabilityReq -> Outcome<CapabilityRsp>,
    params: ParamsReq -> Outcome<ParamsRsp>,
    terminate: ContextInfo -> int,
    process: F.N32fRequest -> T.PeerReply
  )

  /** The configuration read at start-up. */
  datatype Settings = Settings(security: Text, isCSepp: bool, tls: bool, port: nat, partners: seq<Telescopic.PlmnConfig>)

  function RemoteUrl(cfg: Settings): Option<Text> {
    if !cfg.isCSepp || cfg.partners == [] then None
    else
      Some((if cfg.tls then "https://" else "http://") + "sepp.5gc.mnc" + cfg.partners[0].mnc
           + ".mcc" + cfg.partners[0].mcc + ".3gppnetwork.org:" + ToString(cfg.port))
  }

  // ---------------------------------------------------------------- specification

  function ParamsExchange(c: CSide, peer: Peer, uuid: Text): CSide {
    var (asked, req) := SendParams(c, uuid);
    ReceiveParams(asked, peer.params(req))
  }

  function CapabilityExchange(c: CSide, peer: Peer, uuid: Text): CSide {
    var (met, goOn) := ReceiveCapability(c, peer.capability(CapabilityReqOf(c.session)));
    if goOn then ParamsExchange(met, peer, uuid) else met
  }

  function Termination(c: CSide, peer: Peer): CSide {
    match TerminateReqOf(c.session)
    case None => c
    case Some(req) => ReceiveTerminate(c, peer.terminate(req))
  }

  datatype Service = NotConfigured | ViaPrins(response: Option<F.HttpResponse>) | ViaTls

  /** A C-SEPP with a partner, and no other, has a remote SEPP: that of the first partner's network, over TLS or
      not, at the port of its own NBI. */
  lemma RemoteUrlNamesPartner(cfg: Settings) returns (host: Text)
    ensures RemoteUrl(cfg).Some? <==> cfg.isCSepp && cfg.partners != []
    ensures RemoteUrl(cfg).Some? ==>
              var mcc, mnc := cfg.partners[0].mcc, cfg.partners[0].mnc;
              && RemoteUrl(cfg).value == (if cfg.tls then "https://" else "http://") + host + ":" + ToString(cfg.port)
              && host == "sepp.5gc.mnc" + mnc + ".mcc" + mcc + ".3gppnetwork.org"
              && (mcc != "" && AllDigits(mnc) ==> Telescopic.ParseFqdn(host) == Some(("sepp", mcc + mnc)))
  {
    host := "";
    if cfg.isCSepp && cfg.partners != [] {
      var mcc, mnc := cfg.partners[0].mcc, cfg.partners[0].mnc;
      host := "sepp.5gc.mnc" + mnc + ".mcc" + mcc + ".3gppnetwork.org";
      assert host + ":" == "sepp.5gc.mnc" + mnc + ".mcc" + mcc + ".3gppnetwork.org:";
      if mcc != "" && AllDigits(mnc) {
        HostNamesPlmn(mcc, mnc);
      }
    }
  }

  lemma HostNamesPlmn(mcc: Text, mnc: Text)
    requires mcc != "" && AllDigits(mnc)
    ensures var host := "sepp.5gc.mnc" + mnc + ".mcc" + mcc + ".3gppnetwork.org";
            Telescopic.ParseFqdn(host) == Some(("sepp", mcc + mnc))
  {
    var host := "sepp.5gc.mnc" + mnc + ".mcc" + mcc + ".3gppnetwork.org";
    var nf: Text := "sepp";
    assert host == Telescopic.Fqdn(nf, mnc, mcc);
    Telescopic.ParseOfPrinted(nf, mnc, mcc);
    Telescopic.NoMarkInDigits(mnc);
  }

  // ---------------------------------------------------------------- the class

  class SeppApp {
    const cfg: Settings
    const handshake: N32cHandshake
    const forward: F.N32fForward
    const remoteUrl: Option<Text>

    /** Both objects work in the configured mode. */
    ghost predicate Valid()
      reads handshake, forward
    {
      handshake.capability == forward.capability == cfg.security && remoteUrl == RemoteUrl(cfg)
    }

    ghost function Side(): CSide
      reads handshake, forward
    {
      CSide(handshake.State(), forward.contextId, forward.capability)
    }

    constructor (cfg: Settings, peer: Peer, uuid: Text)
      ensures Valid() && this.cfg == cfg && fresh(handshake) && fresh(forward)
      ensures var start := CSide(FRESH.(capability := cfg.security), "", cfg.security);
              Side() == if RemoteUrl(cfg).Some? then CapabilityExchange(start, peer, uuid) else start
    {
      this.cfg := cfg;
      handshake := new N32cHandshake();
      forward := new F.N32fForward();
      remoteUrl := RemoteUrl(cfg);
      new;
      handshake.SetSecCapability(cfg.security);
      forward.SetSelectedSecCapability(cfg.security);
      if remoteUrl.Some? {
        CreateExchangeCapability(peer, uuid);
      }
    }

    method CreateExchangeCapability(peer: Peer, uuid: Text)
      requires Valid()
      modifies handshake, forward`contextId
      ensures Valid()
      ensures Side() == if remoteUrl.Some? then CapabilityExchange(old(Side()), peer, uuid) else old(Side())
    {
      var req := handshake.CreateExchangeCapabilityReq();
      if remoteUrl.None? {
        return;
      }
      var out := peer.capability(req);
      if Succeeded(out.status) {
        var ok := handshake.HandleExchangeCapabilityResponse(out.body);
        if ok && handshake.capability == PRINS {
          CreateExchangeParams(peer, uuid);
        }
      }
    }

    method CreateExchangeParams(peer: Peer, uuid: Text)
      requires Valid()
      modifies handshake, forward`contextId
      ensures Valid()
      ensures Side() == if remoteUrl.Some? then ParamsExchange(old(Side()), peer, uuid) else old(Side())
    {
      if remoteUrl.None? {
        return;
      }
      var req := handshake.CreateExchangeParamsReq(uuid);
      var out := peer.params(req);
      if Succeeded(out.status) {
        var ok := handshake.HandleExchangeParamsResponse(out.body);
        if ok {
          forward.contextId := handshake.contextId;
        }
      }
    }

    method SendN32fTerminate(peer: Peer)
      requires Valid()
      modifies handshake`contextId
      ensures Valid()
      ensures Side() == if remoteUrl.Some? then Termination(old(Side()), peer) else old(Side())
    {
      if remoteUrl.None? {
        return;
      }
      var req := handshake.CreateN32fTerminateReq();
      if req.None? {
        return;
      }
      var status := peer.terminate(req.value);
      if status == 200 || status == 204 {
        handshake.HandleN32fTerminateResponse();
      }
    }

    /** stop(), up to the deregistration at the NRF. */
    method Stop(peer: Peer)
      requires Valid()
      modifies handshake`contextId
      ensures Valid()
      ensures Side() == if remoteUrl.Some? then Termination(old(Side()), peer) else old(Side())
    {
      if cfg.isCSepp && handshake.contextId != "" {
        SendN32fTerminate(peer);
      }
    }

    method HandleNfServiceRequest(env: F.Env, nonce: Option<Nonce>, authority: Text, path: Text, method_: Text,
                                  body: Text, peer: Peer) returns (r: Service)
      requires Valid() && env.Lawful()
      ensures r == if remoteUrl.None? then NotConfigured
                   else if cfg.security == PRINS then
                     ViaPrins(T.ServePrins(env, T.Forwarder(PRINS, forward.encKey, forward.contextId), nonce,
                                           authority, path, method_, body, peer.process))
                   else ViaTls
    {
      if remoteUrl.None? {
        return NotConfigured;
      }
      if handshake.capability != PRINS {
        return ViaTls;
      }
      var response := HandleNfServiceRequestPrins(env, nonce, authority, path, method_, body, peer);
      r := ViaPrins(response);
    }

    method HandleNfServiceRequestPrins(env: F.Env, nonce: Option<Nonce>, authority: Text, path: Text,
                                       method_: Text, body: Text, peer: Peer)
      returns (r: Option<F.HttpResponse>)
      requires env.Lawful()
      ensures r == T.ServePrins(env, T.Forwarder(forward.capability, forward.encKey, forward.contextId), nonce,
                                authority, path, method_, body, peer.process)
    {
      var req := forward.CreateN32fProcessRequest(env, nonce, authority, path, method_, body);
      if req.None? {
        return None;
      }
      var reply := peer.process(req.value);
      if reply.status != 200 && reply.status != 201 {
        return None;
      }
      if reply.body.None? {
        return None;
      }
      var data := reply.body.value;
      var plain := F.UnpackBody(env, forward.encKey, data);
      if plain.None? {
        return None;
      }
      var text := Base64UrlDecode(data.aad);
      var ok, head := ComputeParseAad(text, EMPTY_HEAD);
      if !ok {
        return None;
      }
      var status := Stoi(head.first);
      if status.None? || status.value < 100 || status.value > 599 {
        return None;
      }
      r := Some(F.HttpResponse(status.value, plain.value, head.headers));
    }
  }

  // ---------------------------------------------------------------- the SBI server in front of it

  function Concat(chunks: seq<Text>): Text {
    if chunks == [] then "" else chunks[0] + Concat(chunks[1..])
  }

  lemma {:induction false} ConcatSnoc(chunks: seq<Text>, last: Text)
    ensures Concat([]) == "" && Concat(chunks + [last]) == Concat(chunks) + last
  {
    if chunks == [] {
      assert [last][1..] == [] && Concat([]) == "";
    } else {
      assert (chunks + [last])[1..] == chunks[1..] + [last];
      ConcatSnoc(chunks[1..], last);
    }
  }

  /** The generic handler; `tls` is what the direct path, which is not modelled, would return. */
  method ServeSbi(app: SeppApp, env: F.Env, nonce: Option<Nonce>, headers: Headers, path: Text, rawQuery: Text,
                  verb: Text, chunks: seq<Text>, peer: Peer, tls: Option<F.HttpResponse>) returns (reply: T.SbiReply)
    requires app.Valid() && env.Lawful()
    ensures reply == if T.ResolveAuthority(headers) == "" then T.MISSING_AUTHORITY
                     else if app.remoteUrl.None? then T.BAD_GATEWAY
                     else if app.cfg.security == PRINS then
                       T.SbiServe(env, T.Forwarder(PRINS, app.forward.encKey, app.forward.contextId),
                                  T.SbiRequest(headers, path, rawQuery, verb, Concat(chunks)), nonce, peer.process)
                     else T.SbiAnswer(tls)
  {
    var body := "";
    for i := 0 to |chunks|
      invariant body == Concat(chunks[..i])
    {
      ConcatSnoc(chunks[..i], chunks[i]);
      assert chunks[..i + 1] == chunks[..i] + [chunks[i]];
      body := body + chunks[i];
    }
    assert chunks[..|chunks|] == chunks;
    var authority := T.ComputeResolveAuthority(headers);
    if authority == "" {
      return T.MISSING_AUTHORITY;
    }
    var fullPath := path;
    if rawQuery != "" {
      fullPath := fullPath + "?" + rawQuery;
    }
    var service := app.HandleNfServiceRequest(env, nonce, authority, fullPath, verb, body, peer);
    match service
    case NotConfigured => reply := T.BAD_GATEWAY;
    case ViaPrins(response) => reply := T.SbiAnswer(response);
    case ViaTls => reply := T.SbiAnswer(tls);
  }

  /** The request body is null, which the peer's server cannot read as a message, exactly in TLS mode. */
  lemma OnlyTlsSendsNull(app: SeppApp, env: F.Env, nonce: Option<Nonce>, authority: Text, path: Text,
                         method_: Text, body: Text)
    requires app.Valid() && env.Lawful()
    ensures F.CreateRequest(env, app.forward.capability, app.forward.encKey, app.forward.contextId, nonce, authority,
                            path, method_, body) == Some(F.NotAnObject)
       <==> app.cfg.security == TLS
  {
  }

  // ---------------------------------------------------------------- the class and the two-party machine

  /** Where a message is lost. */
  datatype Loss =
    | Nowhere
    | CapabilityRequest
    | CapabilityResponse
    | ParamsRequest
    | ParamsResponse
    | TerminateRequest
    | TerminateResponse

  function Answer<T>(lost: bool, rsp: Option<T>): Outcome<T> {
    if lost || rsp.None? then Outcome(0, NotAnObject) else Outcome(200, Object(rsp.value, true))
  }

  /** What the HTTP client sees of a P-SEPP in state p when one message is lost. */
  function LossyPeer(cfg: Config, p: Session, uuid: Text, lost: Loss): Peer {
    Peer((req: CapabilityReq) => Answer(lost.CapabilityRequest? || lost.CapabilityResponse?,
                                        OnCapabilityReq(p, Object(req, true), cfg.pUrl).1),
         (req: ParamsReq) => Answer(lost.ParamsRequest? || lost.ParamsResponse?,
                                    OnParamsReq(p, Object(req, true), uuid, cfg.pUrl).1),
         (req: ContextInfo) => Answer(lost.TerminateRequest? || lost.TerminateResponse?,
                                      OnTerminateReq(p, Object(req, true)).1).status,
         (req: F.N32fRequest) => T.PeerReply(0, None))
  }

  /** The events of a handshake up to the loss; a C-SEPP that is not in PRINS mode ends it after the first
      exchange. */
  function HandshakeEvents(prins: bool, lost: Loss, uuid: Text, later: Text): seq<Event> {
    if lost.CapabilityRequest? then [Start, Lose]
    else if lost.CapabilityResponse? then [Start, Deliver(uuid), Lose]
    else [Start, Deliver(uuid), Deliver(uuid)] + if prins then ParamsEvents(lost, later) else []
  }

  function ParamsEvents(lost: Loss, later: Text): seq<Event> {
    if lost.ParamsRequest? then [Lose]
    else if lost.ParamsResponse? then [Deliver(later), Lose]
    else [Deliver(later), Deliver(later)]
  }

  function StopEvents(hasContext: bool, lost: Loss, uuid: Text): seq<Event> {
    if !hasContext then [Stop]
    else if lost.TerminateRequest? then [Stop, Lose]
    else if lost.TerminateResponse? then [Stop, Deliver(uuid), Lose]
    else [Stop, Deliver(uuid), Deliver(uuid)]
  }

  lemma RunOfOne(cfg: Config, from: World, e: Event)
    requires Enabled(from, e)
    ensures IsRun(cfg, from, [e], Next(cfg, from, e))
  {
    RunOf(cfg, from, e, [], Next(cfg, from, e));
  }

  /** The capability request reaches the P-SEPP. */
  lemma CapabilityReaches(cfg: Config, w: World, uuid: Text) returns (w2: World)
    requires w.wire.Idle? && Unused(w, uuid)
    ensures IsRun(cfg, w, [Start, Deliver(uuid)], w2)
    ensures w2.c == w.c && w2.p.contextId == w.p.contextId && w2.issued == w.issued && w2.wire.CapabilityAnswered?
    ensures OnCapabilityReq(w.p, Object(CapabilityReqOf(w.c.session), true), cfg.pUrl).1 == Some(w2.wire.capRsp)
  {
    var w1 := Next(cfg, w, Start);
    w2 := Next(cfg, w1, Deliver(uuid));
    RunOfTwo(cfg, w, w1, w2, Start, Deliver(uuid));
  }

  /** The answer reaches the C-SEPP. */
  lemma CapabilityReturns(cfg: Config, w2: World, uuid: Text) returns (w3: World)
    requires w2.wire.CapabilityAnswered? && Unused(w2, uuid)
    ensures IsRun(cfg, w2, [Deliver(uuid)], w3) && w3.p == w2.p
    ensures var (met, goOn) := ReceiveCapability(w2.c, Outcome(200, Object(w2.wire.capRsp, true)));
            if goOn then
              var (c, req) := SendParams(met, uuid);
              w3.c == c && w3.wire == ParamsAsked(req) && w3.issued == w2.issued + {req.contextId}
            else w3.c == met && w3.wire.Idle?
  {
    w3 := Next(cfg, w2, Deliver(uuid));
    RunOfOne(cfg, w2, Deliver(uuid));
  }

  /** The parameter exchange, wherever it is cut off. */
  lemma ParamsExchangeIsRun(cfg: Config, w: World, req: ParamsReq, later: Text, p: Session, lost: Loss)
    returns (w': World)
    requires w.wire == ParamsAsked(req) && Unused(w, later) && p.contextId == w.p.contextId
    ensures IsRun(cfg, w, ParamsEvents(lost, later), w') && w'.wire.Idle?
    ensures w'.c == ReceiveParams(w.c, LossyPeer(cfg, p, later, lost).params(req))
  {
    if lost.ParamsRequest? {
      w' := Next(cfg, w, Lose);
      RunOfOne(cfg, w, Lose);
    } else {
      var w1 := Next(cfg, w, Deliver(later));
      var e := if lost.ParamsResponse? then Lose else Deliver(later);
      w' := Next(cfg, w1, e);
      RunOfTwo(cfg, w, w1, w', Deliver(later), e);
    }
  }

  /** What create_exchange_capability does to the application object against a P-SEPP of any state, with a
      loss anywhere or nowhere, is what the two-party machine does to the C-SEPP in the corresponding run. */
  lemma HandshakeIsRun(cfg: Config, w: World, uuid: Text, later: Text, lost: Loss) returns (w': World)
    requires w.wire.Idle? && Unused(w, uuid) && Unused(w, later)
    requires later != uuid && later != w.c.session.contextId
    ensures IsRun(cfg, w, HandshakeEvents(w.c.session.capability == PRINS, lost, uuid, later), w') && w'.wire.Idle?
    ensures w'.c == CapabilityExchange(w.c, LossyPeer(cfg, w.p, later, lost), uuid)
  {
    if lost.CapabilityRequest? {
      var w1 := Next(cfg, w, Start);
      w' := Next(cfg, w1, Lose);
      RunOfTwo(cfg, w, w1, w', Start, Lose);
    } else {
      var w2 := CapabilityReaches(cfg, w, uuid);
      if lost.CapabilityResponse? {
        w' := Next(cfg, w2, Lose);
        RunOfOne(cfg, w2, Lose);
        RunsJoin(cfg, w, [Start, Deliver(uuid)], w2, [Lose], w');
      } else {
        w' := AfterCapability(cfg, w, w2, uuid, later, lost);
      }
    }
  }

  lemma AfterCapability(cfg: Config, w: World, w2: World, uuid: Text, later: Text, lost: Loss) returns (w': World)
    requires Unused(w, uuid) && Unused(w, later) && later != uuid && later != w.c.session.contextId
    requires IsRun(cfg, w, [Start, Deliver(uuid)], w2)
    requires w2.c == w.c && w2.p.contextId == w.p.contextId && w2.issued == w.issued && w2.wire.CapabilityAnswered?
    requires OnCapabilityReq(w.p, Object(CapabilityReqOf(w.c.session), true), cfg.pUrl).1 == Some(w2.wire.capRsp)
    requires !lost.CapabilityRequest? && !lost.CapabilityResponse?
    ensures IsRun(cfg, w, HandshakeEvents(w.c.session.capability == PRINS, lost, uuid, later), w') && w'.wire.Idle?
    ensures w'.c == CapabilityExchange(w.c, LossyPeer(cfg, w.p, later, lost), uuid)
  {
    var leg := [Start, Deliver(uuid), Deliver(uuid)];
    var w3 := CapabilityReturns(cfg, w2, uuid);
    RunsJoin(cfg, w, [Start, Deliver(uuid)], w2, [Deliver(uuid)], w3);
    assert [Start, Deliver(uuid)] + [Deliver(uuid)] == leg;
    var (met, goOn) := ReceiveCapability(w2.c, Outcome(200, Object(w2.wire.capRsp, true)));
    assert goOn <==> w.c.session.capability == PRINS;
    assert met.session.contextId == w.c.session.contextId;
    if goOn {
      w' := ParamsExchangeIsRun(cfg, w3, SendParams(met, uuid).1, later, w.p, lost);
      RunsJoin(cfg, w, leg, w3, ParamsEvents(lost, later), w');
    } else {
      w' := w3;
      assert leg + [] == leg;
    }
  }

  /** The same for stop(). */
  lemma StopIsRun(cfg: Config, w: World, uuid: Text, lost: Loss) returns (w': World)
    requires w.wire.Idle? && Unused(w, uuid)
    ensures IsRun(cfg, w, StopEvents(w.c.session.contextId != "", lost, uuid), w') && w'.wire.Idle?
    ensures w'.c == Termination(w.c, LossyPeer(cfg, w.p, uuid, lost))
  {
    var w1 := Next(cfg, w, Stop);
    if w.c.session.contextId == "" {
      w' := w1;
      RunOfOne(cfg, w, Stop);
    } else if lost.TerminateRequest? {
      w' := Next(cfg, w1, Lose);
      RunOfTwo(cfg, w, w1, w', Stop, Lose);
    } else {
      var w2 := Next(cfg, w1, Deliver(uuid));
      var e := if lost.TerminateResponse? then Lose else Deliver(uuid);
      w' := Next(cfg, w2, e);
      RunOfTwo(cfg, w1, w2, w', Deliver(uuid), e);
      RunOf(cfg, w, Stop, [Deliver(uuid), e], w');
    }
  }
}
