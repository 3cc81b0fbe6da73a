/** One C-SEPP and one P-SEPP over a lossy N32-c: the step relation built from the handlers of
    src/sepp_app/sepp_n32c_handshake.cpp in the order src/sepp_app/sepp_app.cpp drives them, and what
    every run keeps. */
module TwoParty {
  import opened Octets
  import opened N32cHandshake
  import opened SecurityModes

  // ---------------------------------------------------------------- the C-SEPP between messages

  /** The handshake object and what the forwarder knows of the handshake. */
  datatype CSide = CSide(session: Session, fwdContext: Text, fwdCapability: Text)

  /** What the HTTP client returns; status 0 when there was no response. */
  datatype Outcome<+T> = Outcome(status: int, body: Json<T>)

  predicate Succeeded(status: int) {
    status == 200 || status == 201
  }

  /** The new state, and whether a parameter exchange follows at once. */
  function ReceiveCapability(c: CSide, out: Outcome<CapabilityRsp>): (CSide, bool) {
    if !Succeeded(out.status) then (c, false)
    else
      var (session, ok) := OnCapabilityRsp(c.session, out.body);
      (c.(session := session), ok && session.capability == PRINS)
  }

  function SendParams(c: CSide, uuid: Text): (CSide, ParamsReq) {
    var (session, req) := ParamsReqOf(c.session, uuid);
    (c.(session := session), req)
  }

  function ReceiveParams(c: CSide, out: Outcome<ParamsRsp>): CSide {
    if !Succeeded(out.status) then c
    else
      var (session, ok) := OnParamsRsp(c.session, out.body);
      if ok then c.(session := session, fwdContext := session.contextId) else c.(session := session)
  }

  /** The body is not looked at: every branch of the handler clears the context. */
  function ReceiveTerminate(c: CSide, status: int): CSide {
    if status == 200 || status == 204 then c.(session := OnTerminateRsp(c.session)) else c
  }

  /** Exchanges succeed with status 200 or 201, a termination with 200 or 204, and with no other; an accepted
      parameter response gives the forwarder the id of the handshake. */
  lemma StatusesThatCount(c: CSide, cap: Outcome<CapabilityRsp>, par: Outcome<ParamsRsp>, status: int)
    ensures ReceiveCapability(c, cap)
         == if cap.status in {200, 201} then ReceiveCapability(c, Outcome(200, cap.body)) else (c, false)
    ensures ReceiveParams(c, par) == if par.status in {200, 201} then ReceiveParams(c, Outcome(200, par.body)) else c
    ensures ReceiveTerminate(c, status)
         == if status in {200, 204} then c.(session := c.session.(contextId := "")) else c
    ensures par.status in {200, 201} && par.body.Object? ==>
              ReceiveParams(c, par).fwdContext == ReceiveParams(c, par).session.contextId
  {
  }

  // ---------------------------------------------------------------- the two parties

  datatype Wire =
    | Idle
    | CapabilityAsked(capReq: CapabilityReq)
    | CapabilityAnswered(capRsp: CapabilityRsp)
    | ParamsAsked(parReq: ParamsReq)
    | ParamsAnswered(parRsp: ParamsRsp)
    | TerminateAsked(termReq: ContextInfo)
    | TerminateAnswered(termRsp: ContextInfo)

  datatype Config = Config(cCapability: Text, pCapability: Text, pUrl: Text)

  /** Both parties and the message in flight. The other components record the past and influence nothing:
      ids generated so far, ids the P-SEPP echoed, ids of the parameter responses the running C-SEPP
      accepted, in order, ids whose termination a C-SEPP has seen confirmed, and ids a C-SEPP held when it
      went down. */
  datatype World = World(c: CSide, p: Session, wire: Wire, issued: set<Text>, echoed: set<Text>,
                         accepted: seq<Text>, terminated: set<Text>, retired: set<Text>)

  /** Start: create_exchange_capability. Stop: stop(). Deliver: the message in flight is handled by its
      receiver, `uuid` being what the generator returns if it is asked. Lose: the message is lost, or the
      receiver answers with an error; either way the C-SEPP sees no success status. RestartC, RestartP: a
      process goes down and a new one takes its place. An answer dies with the exchange it belongs to. That
      a message arrives just before or just after the process at its other end goes down is covered by
      delivering it first: the two do not touch the same state. */
  datatype Event = Start | Stop | Deliver(uuid: Text) | Lose | RestartC | RestartP

  function FreshC(cfg: Config): CSide {
    CSide(FRESH.(capability := cfg.cCapability), "", cfg.cCapability)
  }

  function FreshP(cfg: Config): Session {
    FRESH.(capability := cfg.pCapability)
  }

  function Initial(cfg: Config): World {
    World(FreshC(cfg), FreshP(cfg), Idle, {}, {}, [], {}, {})
  }

  predicate Unused(w: World, id: Text) {
    id != "" && id !in w.issued
  }

  predicate Enabled(w: World, e: Event) {
    match e
    case Start => w.wire.Idle?
    case Stop => w.wire.Idle?
    case Deliver(uuid) => !w.wire.Idle? && Unused(w, uuid)
    case Lose => !w.wire.Idle?
    case RestartC => true
    case RestartP => true
  }

  predicate IsAnswer(wire: Wire) {
    wire.CapabilityAnswered? || wire.ParamsAnswered? || wire.TerminateAnswered?
  }

  function Next(cfg: Config, w: World, e: Event): World
    requires Enabled(w, e)
  {
    match e
    case Start => w.(wire := CapabilityAsked(CapabilityReqOf(w.c.session)))
    case Stop =>
      var req := TerminateReqOf(w.c.session);
      if req.None? then w else w.(wire := TerminateAsked(req.value))
    case Lose => w.(wire := Idle)
    case RestartC =>
      w.(c := FreshC(cfg), wire := Idle, accepted := [], retired := w.retired + {w.c.session.contextId} - {""})
    case RestartP => w.(p := FreshP(cfg), wire := if IsAnswer(w.wire) then Idle else w.wire)
    case Deliver(uuid) =>
      match w.wire
      case CapabilityAsked(req) =>
        var (p, rsp) := OnCapabilityReq(w.p, Object(req, true), cfg.pUrl);
        w.(p := p, wire := if rsp.Some? then CapabilityAnswered(rsp.value) else Idle)
      case CapabilityAnswered(rsp) =>
        var (c, goOn) := ReceiveCapability(w.c, Outcome(200, Object(rsp, true)));
        if goOn then
          var (c', req) := SendParams(c, uuid);
          w.(c := c', wire := ParamsAsked(req), issued := w.issued + {req.contextId})
        else w.(c := c, wire := Idle)
      case ParamsAsked(req) =>
        var (p, rsp) := OnParamsReq(w.p, Object(req, true), uuid, cfg.pUrl);
        if rsp.None? then w.(p := p, wire := Idle)
        else w.(p := p, wire := ParamsAnswered(rsp.value), echoed := w.echoed + {rsp.value.contextId})
      case ParamsAnswered(rsp) =>
        w.(c := ReceiveParams(w.c, Outcome(200, Object(rsp, true))), wire := Idle,
           accepted := w.accepted + [rsp.contextId])
      case TerminateAsked(req) =>
        var (p, rsp) := OnTerminateReq(w.p, Object(req, true));
        w.(p := p, wire := if rsp.Some? then TerminateAnswered(rsp.value) else Idle)
      case TerminateAnswered(rsp) =>
        w.(c := ReceiveTerminate(w.c, 200), wire := Idle, terminated := w.terminated + {w.c.session.contextId})
  }

  ghost predicate IsRun(cfg: Config, from: World, events: seq<Event>, to: World)
    decreases |events|
  {
    if events == [] then from == to
    else Enabled(from, events[0]) && IsRun(cfg, Next(cfg, from, events[0]), events[1..], to)
  }

  ghost predicate Reachable(cfg: Config, w: World) {
    exists events :: IsRun(cfg, Initial(cfg), events, w)
  }

  // ---------------------------------------------------------------- the invariant

  function Last(ids: seq<Text>): Text {
    if ids == [] then "" else ids[|ids| - 1]
  }

  ghost predicate Inv(cfg: Config, w: World) {
    var id, pid := w.c.session.contextId, w.p.contextId;
    && w.c.session.capability == w.c.fwdCapability == cfg.cCapability
    && w.p.capability == cfg.pCapability
    && (pid == "" || pid == id || pid in w.retired)
    && "" !in w.issued && w.terminated <= w.issued && w.echoed <= w.issued && w.retired <= w.issued
    && (id != "" ==> id in w.issued && id !in w.terminated && id !in w.retired)
    && w.c.fwdContext == Last(w.accepted)
    && (forall i :: 0 <= i < |w.accepted| ==> w.accepted[i] in w.echoed)
    && (forall i :: 0 <= i < |w.accepted| ==> w.accepted[i] == id || w.accepted[i] in w.terminated)
    && (id in w.accepted ==> Last(w.accepted) == id)
    && WireInv(cfg, w)
    && (cfg.cCapability != PRINS ==> id == "" && w.accepted == [] && w.retired == {} && Silent(w.wire))
  }

  /** Nothing but a capability exchange is under way. */
  predicate Silent(wire: Wire) {
    wire.Idle? || wire.CapabilityAsked? || wire.CapabilityAnswered?
  }

  ghost predicate WireInv(cfg: Config, w: World) {
    var id := w.c.session.contextId;
    match w.wire
    case Idle => true
    case CapabilityAsked(req) =>
      req.capabilities == Some([Some(cfg.cCapability)]) && req.purposes == ["ROAMING"]
    case CapabilityAnswered(rsp) => rsp.selected.Some?
    case ParamsAsked(req) =>
      req.contextId == id != "" && req.jweSuites == Some(OFFERED_JWE) && req.jwsSuites == Some(OFFERED_JWS)
    case ParamsAnswered(rsp) =>
      && rsp.contextId == id == w.p.contextId != "" && id in w.echoed
      && rsp.jweSuite == Some(w.p.jwe) && rsp.jwsSuite == Some(w.p.jws)
      && w.p.jwe == OFFERED_JWE[0] && w.p.jws == OFFERED_JWS[0]
    case TerminateAsked(req) => req.contextId == id != ""
    case TerminateAnswered(_) => id != "" && w.p.contextId != id
  }

  lemma SendKeepsInv(cfg: Config, w: World, e: Event)
    requires Inv(cfg, w) && Enabled(w, e) && !e.Deliver?
    ensures Inv(cfg, Next(cfg, w, e))
  {
  }

  lemma PeerKeepsInv(cfg: Config, w: World, e: Event)
    requires Inv(cfg, w) && Enabled(w, e) && e.Deliver?
    requires w.wire.CapabilityAsked? || w.wire.ParamsAsked? || w.wire.TerminateAsked?
    ensures Inv(cfg, Next(cfg, w, e))
  {
  }

  /** w' is w after the C-SEPP has read a capability response: it is done, or has asked for parameters under
      the id it had or else the new one. */
  predicate AnswerRead(w: World, w': World, uuid: Text) {
    var c, c' := w.c.session, w'.c.session;
    && w' == w.(c := w'.c, wire := w'.wire, issued := w'.issued)
    && w'.c.fwdContext == w.c.fwdContext && w'.c.fwdCapability == w.c.fwdCapability && c'.capability == c.capability
    && if w'.wire.ParamsAsked? then
         var req := w'.wire.parReq;
         && c.capability == PRINS && c'.contextId == (if c.contextId != "" then c.contextId else uuid)
         && req.contextId == c'.contextId && w'.issued == w.issued + {req.contextId}
         && req.jweSuites == Some(OFFERED_JWE) && req.jwsSuites == Some(OFFERED_JWS)
       else w'.wire.Idle? && c'.contextId == c.contextId && w'.issued == w.issued
  }

  lemma CapabilityAnswerIsRead(cfg: Config, w: World, e: Event)
    requires Enabled(w, e) && e.Deliver? && w.wire.CapabilityAnswered?
    ensures AnswerRead(w, Next(cfg, w, e), e.uuid)
  {
  }

  lemma AnswerReadKeepsInv(cfg: Config, w: World, w': World, uuid: Text)
    requires Inv(cfg, w) && w.wire.CapabilityAnswered? && Unused(w, uuid) && AnswerRead(w, w', uuid)
    ensures Inv(cfg, w')
  {
  }

  lemma CapabilityAnswerKeepsInv(cfg: Config, w: World, e: Event)
    requires Inv(cfg, w) && Enabled(w, e) && e.Deliver? && w.wire.CapabilityAnswered?
    ensures Inv(cfg, Next(cfg, w, e))
  {
    CapabilityAnswerIsRead(cfg, w, e);
    AnswerReadKeepsInv(cfg, w, Next(cfg, w, e), e.uuid);
  }

  lemma OtherAnswerKeepsInv(cfg: Config, w: World, e: Event)
    requires Inv(cfg, w) && Enabled(w, e) && e.Deliver?
    requires w.wire.ParamsAnswered? || w.wire.TerminateAnswered?
    ensures Inv(cfg, Next(cfg, w, e))
  {
  }

  lemma NextKeepsInv(cfg: Config, w: World, e: Event)
    requires Inv(cfg, w) && Enabled(w, e)
    ensures Inv(cfg, Next(cfg, w, e))
  {
    if !e.Deliver? {
      SendKeepsInv(cfg, w, e);
    } else if w.wire.CapabilityAnswered? {
      CapabilityAnswerKeepsInv(cfg, w, e);
    } else if w.wire.ParamsAnswered? || w.wire.TerminateAnswered? {
      OtherAnswerKeepsInv(cfg, w, e);
    } else {
      PeerKeepsInv(cfg, w, e);
    }
  }

  lemma {:induction false} RunKeepsInv(cfg: Config, from: World, events: seq<Event>, to: World)
    requires Inv(cfg, from) && IsRun(cfg, from, events, to)
    ensures Inv(cfg, to)
    decreases |events|
  {
    if events == [] {
    } else {
      NextKeepsInv(cfg, from, events[0]);
      RunKeepsInv(cfg, Next(cfg, from, events[0]), events[1..], to);
    }
  }

  lemma ReachableInv(cfg: Config, w: World)
    requires Reachable(cfg, w)
    ensures Inv(cfg, w)
  {
    var events :| IsRun(cfg, Initial(cfg), events, w);
    RunKeepsInv(cfg, Initial(cfg), events, w);
  }

  // ---------------------------------------------------------------- safety over all runs

  /** The P-SEPP holds no id, the C-SEPP's current one, or one that a C-SEPP held when it went down; so
      while no C-SEPP has gone down with a context, the P-SEPP holds none or the current one. */
  lemma ContextsAgree(cfg: Config, w: World)
    requires Reachable(cfg, w)
    ensures w.p.contextId == "" || w.p.contextId == w.c.session.contextId || w.p.contextId in w.retired
    ensures w.retired == {} ==> w.p.contextId == "" || w.p.contextId == w.c.session.contextId
  {
    ReachableInv(cfg, w);
  }

  /** Once the answer to a termination has been processed, the C-SEPP holds no context, and the P-SEPP none
      but one left over from before a restart; the forwarder still holds its id. */
  lemma TerminationClearsBoth(cfg: Config, w: World, uuid: Text)
    requires Reachable(cfg, w) && w.wire.TerminateAnswered? && Enabled(w, Deliver(uuid))
    ensures var w' := Next(cfg, w, Deliver(uuid));
            && w'.c.session.contextId == "" && (w'.p.contextId == "" || w'.p.contextId in w'.retired)
            && (w'.retired == {} ==> w'.p.contextId == "") && w'.c.fwdContext == w.c.fwdContext
  {
    ReachableInv(cfg, w);
  }

  /** The forwarder holds the id of the last accepted parameter response, and only ids the peer echoed. */
  lemma ForwarderFollowsAccepted(cfg: Config, w: World)
    requires Reachable(cfg, w)
    ensures w.c.fwdContext == Last(w.accepted)
    ensures w.c.fwdContext != "" ==> w.c.fwdContext in w.echoed
  {
    ReachableInv(cfg, w);
  }

  /** The forwarder agrees with the handshake exactly when the handshake's id has been accepted or, without
      an id, when none ever was. The two ways to disagree: a new id whose acceptance is outstanding, and a
      termination, which the forwarder is not told of. */
  lemma ForwarderAgreesIff(cfg: Config, w: World)
    requires Reachable(cfg, w)
    ensures var id := w.c.session.contextId;
            w.c.fwdContext == id <==> if id == "" then w.accepted == [] else id in w.accepted
    ensures w.c.fwdContext != "" && w.c.fwdContext != w.c.session.contextId ==> w.c.fwdContext in w.terminated
  {
    ReachableInv(cfg, w);
    if w.accepted != [] {
      assert Last(w.accepted) in w.issued;
    }
  }

  /** After an accepted parameter response both sides hold one context and the first suites offered. */
  lemma AcceptanceAgrees(cfg: Config, w: World, uuid: Text)
    requires Reachable(cfg, w) && w.wire.ParamsAnswered? && Enabled(w, Deliver(uuid))
    ensures var w' := Next(cfg, w, Deliver(uuid));
            && w'.c.session.contextId == w'.p.contextId == w'.c.fwdContext != ""
            && w'.c.session.jwe == w'.p.jwe == "A128GCM" && w'.c.session.jws == w'.p.jws == "ES256"
  {
    ReachableInv(cfg, w);
  }

  /** The capability in the handshake and in the forwarder stays the configured one, whatever the other
      side selected; so the two sides work in one mode exactly when they are configured alike. */
  lemma ModeIsConstant(cfg: Config, w: World)
    requires Reachable(cfg, w)
    ensures w.c.session.capability == w.c.fwdCapability == cfg.cCapability && w.p.capability == cfg.pCapability
    ensures w.c.session.capability == w.p.capability <==> cfg.cCapability == cfg.pCapability
  {
    ReachableInv(cfg, w);
  }

  /** Every capability request under way offers exactly the configured capability, for roaming; delivering it, the
      P-SEPP reports a mismatch exactly when the two are configured differently. */
  lemma OfferIsConfigured(cfg: Config, w: World)
    requires Reachable(cfg, w) && w.wire.CapabilityAsked?
    ensures w.wire.capReq.capabilities == Some([Some(cfg.cCapability)]) && w.wire.capReq.purposes == ["ROAMING"]
    ensures ReportsMismatch(w.p, Object(w.wire.capReq, true)) <==> cfg.cCapability != cfg.pCapability
  {
    ReachableInv(cfg, w);
    assert Offered(w.wire.capReq.capabilities) == [cfg.cCapability];
  }

  /** A C-SEPP not configured for PRINS never asks for parameters, never has a context, and its stop()
      sends nothing. */
  lemma OtherModesStaySilent(cfg: Config, w: World)
    requires Reachable(cfg, w) && cfg.cCapability != PRINS
    ensures Silent(w.wire) && w.c.session.contextId == "" && w.c.fwdContext == "" && w.p.contextId == ""
    ensures w.wire.Idle? ==> Next(cfg, w, Stop) == w
  {
    ReachableInv(cfg, w);
  }

  // ---------------------------------------------------------------- recovery

  lemma RunOf(cfg: Config, from: World, e: Event, rest: seq<Event>, to: World)
    requires Enabled(from, e) && IsRun(cfg, Next(cfg, from, e), rest, to)
    ensures IsRun(cfg, from, [e] + rest, to)
  {
    assert ([e] + rest)[1..] == rest;
  }

  lemma RunOfTwo(cfg: Config, w0: World, w1: World, w2: World, e1: Event, e2: Event)
    requires Enabled(w0, e1) && Next(cfg, w0, e1) == w1 && Enabled(w1, e2) && Next(cfg, w1, e2) == w2
    ensures IsRun(cfg, w0, [e1, e2], w2)
  {
    RunOf(cfg, w1, e2, [], w2);
    RunOf(cfg, w0, e1, [e2], w2);
  }

  lemma {:induction false} RunsJoin(cfg: Config, a: World, first: seq<Event>, b: World, second: seq<Event>, c: World)
    requires IsRun(cfg, a, first, b) && IsRun(cfg, b, second, c)
    ensures IsRun(cfg, a, first + second, c)
    decreases |first|
  {
    if first == [] {
      assert first + second == second;
    } else {
      RunsJoin(cfg, Next(cfg, a, first[0]), first[1..], b, second, c);
      assert (first + second)[1..] == first[1..] + second;
    }
  }

  ghost predicate Established(w: World) {
    && w.wire.Idle? && w.c.session.contextId == w.p.contextId == w.c.fwdContext != ""
    && w.c.session.jwe == w.p.jwe && w.c.session.jws == w.p.jws
  }

  /** Start to the parameter request, from any state of the two sessions. */
  lemma CapabilityLeg(cfg: Config, w: World, uuid: Text) returns (w3: World)
    requires w.wire.Idle? && w.c.session.capability == PRINS && Unused(w, uuid)
    ensures IsRun(cfg, w, [Start, Deliver(uuid), Deliver(uuid)], w3)
    ensures var (c, req) := SendParams(w3.c, uuid);
            w3.wire == ParamsAsked(req) && c == w3.c && w3.issued == w.issued + {w3.c.session.contextId}
    ensures w3.c.session.contextId == if w.c.session.contextId != "" then w.c.session.contextId else uuid
  {
    var w1 := Next(cfg, w, Start);
    var w2 := Next(cfg, w1, Deliver(uuid));
    w3 := Next(cfg, w2, Deliver(uuid));
    RunOfTwo(cfg, w1, w2, w3, Deliver(uuid), Deliver(uuid));
    RunOf(cfg, w, Start, [Deliver(uuid), Deliver(uuid)], w3);
  }

  lemma ParamsLeg(cfg: Config, w: World, uuid: Text) returns (w2: World)
    requires w.c.session.contextId != "" && w.wire == ParamsAsked(SendParams(w.c, uuid).1) && Unused(w, uuid)
    ensures IsRun(cfg, w, [Deliver(uuid), Deliver(uuid)], w2)
    ensures Established(w2) && w2.c.session.contextId == w.c.session.contextId
  {
    var w1 := Next(cfg, w, Deliver(uuid));
    w2 := Next(cfg, w1, Deliver(uuid));
    RunOfTwo(cfg, w, w1, w2, Deliver(uuid), Deliver(uuid));
  }

  function Handshake(uuid: Text, later: Text): seq<Event> {
    [Start, Deliver(uuid), Deliver(uuid), Deliver(later), Deliver(later)]
  }

  /** Whatever the two sessions hold, one loss-free handshake of a PRINS C-SEPP establishes one context, one
      pair of suites and a forwarder that knows the context. An id the C-SEPP has is kept, an id the P-SEPP
      has is replaced. */
  lemma HandshakeRecovers(cfg: Config, w: World, uuid: Text, later: Text) returns (w': World)
    requires w.wire.Idle? && w.c.session.capability == PRINS
    requires Unused(w, uuid) && Unused(w, later)
    requires later != uuid && later != w.c.session.contextId
    ensures IsRun(cfg, w, Handshake(uuid, later), w') && Established(w')
    ensures w'.c.session.contextId == if w.c.session.contextId != "" then w.c.session.contextId else uuid
  {
    var w3 := CapabilityLeg(cfg, w, uuid);
    w' := ParamsLeg(cfg, w3, later);
    var leg1, leg2 := [Start, Deliver(uuid), Deliver(uuid)], [Deliver(later), Deliver(later)];
    RunsJoin(cfg, w, leg1, w3, leg2, w');
    assert leg1 + leg2 == Handshake(uuid, later);
  }

  /** The case of the program, where only a new process starts a handshake: at any moment of any history a
      C-SEPP goes down; its successor's handshake gets a new context accepted, though the P-SEPP may still
      hold the old one. */
  lemma RestartRecovers(cfg: Config, w: World, uuid: Text, later: Text) returns (w': World)
    requires cfg.cCapability == PRINS
    requires Unused(w, uuid) && Unused(w, later) && later != uuid
    ensures IsRun(cfg, w, [RestartC] + Handshake(uuid, later), w')
    ensures Established(w') && w'.c.session.contextId == w'.p.contextId == uuid
  {
    w' := HandshakeRecovers(cfg, Next(cfg, w, RestartC), uuid, later);
    RunOf(cfg, w, RestartC, Handshake(uuid, later), w');
  }

  /** Whatever the two sessions hold, one loss-free stop() takes the C-SEPP's context away, and leaves the
      P-SEPP without one exactly when it had none or the same. */
  lemma StopRecovers(cfg: Config, w: World, uuid: Text) returns (w': World)
    requires w.wire.Idle? && w.c.session.contextId != "" && Unused(w, uuid)
    ensures IsRun(cfg, w, [Stop, Deliver(uuid), Deliver(uuid)], w')
    ensures w'.wire.Idle? && w'.c.session.contextId == ""
    ensures w'.p.contextId == "" <==> w.p.contextId == "" || w.p.contextId == w.c.session.contextId
  {
    var w1 := Next(cfg, w, Stop);
    var w2 := Next(cfg, w1, Deliver(uuid));
    w' := Next(cfg, w2, Deliver(uuid));
    RunOfTwo(cfg, w1, w2, w', Deliver(uuid), Deliver(uuid));
    RunOf(cfg, w, Stop, [Deliver(uuid), Deliver(uuid)], w');
  }

  // ---------------------------------------------------------------- the disagreements occur

  /** A lost parameter response leaves the P-SEPP and the C-SEPP's handshake with an id the forwarder does
      not know. */
  lemma ForwarderCanBeBehind(cfg: Config, uuid: Text, later: Text) returns (w: World)
    requires cfg.cCapability == PRINS && uuid != "" && later != "" && later != uuid
    ensures Reachable(cfg, w) && w.wire.Idle?
    ensures w.c.session.contextId == w.p.contextId == uuid && w.c.fwdContext == ""
  {
    var leg := [Start, Deliver(uuid), Deliver(uuid)];
    var w3 := CapabilityLeg(cfg, Initial(cfg), uuid);
    var w4 := Next(cfg, w3, Deliver(later));
    w := Next(cfg, w4, Lose);
    RunOfTwo(cfg, w3, w4, w, Deliver(later), Lose);
    RunsJoin(cfg, Initial(cfg), leg, w3, [Deliver(later), Lose], w);
    RunKeepsForwarder(cfg, uuid, w3);
  }

  lemma RunKeepsForwarder(cfg: Config, uuid: Text, w3: World)
    requires IsRun(cfg, Initial(cfg), [Start, Deliver(uuid), Deliver(uuid)], w3)
    ensures w3.c.fwdContext == ""
  {
    var w1 := Next(cfg, Initial(cfg), Start);
    FirstStep(cfg, Initial(cfg), Start, [Deliver(uuid), Deliver(uuid)], w3);
    var w2 := Next(cfg, w1, Deliver(uuid));
    FirstStep(cfg, w1, Deliver(uuid), [Deliver(uuid)], w3);
    FirstStep(cfg, w2, Deliver(uuid), [], w3);
  }

  lemma FirstStep(cfg: Config, from: World, e: Event, rest: seq<Event>, to: World)
    requires IsRun(cfg, from, [e] + rest, to)
    ensures Enabled(from, e) && IsRun(cfg, Next(cfg, from, e), rest, to)
  {
    assert ([e] + rest)[1..] == rest;
  }

  /** After a confirmed termination the forwarder still holds the terminated id. */
  lemma ForwarderCanBeStale(cfg: Config, uuid: Text, later: Text) returns (w: World)
    requires cfg.cCapability == PRINS && uuid != "" && later != "" && later != uuid
    ensures Reachable(cfg, w) && w.wire.Idle?
    ensures w.c.session.contextId == w.p.contextId == "" && w.c.fwdContext == uuid && uuid in w.terminated
  {
    var w5 := HandshakeRecovers(cfg, Initial(cfg), uuid, later);
    assert Reachable(cfg, w5);
    ReachableInv(cfg, w5);
    var further := FreshId(w5.issued);
    w := StopRecovers(cfg, w5, further);
    RunsJoin(cfg, Initial(cfg), Handshake(uuid, later), w5, [Stop, Deliver(further), Deliver(further)], w);
    StopKeepsForwarder(cfg, w5, further, w);
  }

  lemma StopKeepsForwarder(cfg: Config, w: World, uuid: Text, w': World)
    requires w.wire.Idle? && w.c.session.contextId != ""
    requires IsRun(cfg, w, [Stop, Deliver(uuid), Deliver(uuid)], w')
    ensures w'.c.fwdContext == w.c.fwdContext && w.c.session.contextId in w'.terminated
  {
    FirstStep(cfg, w, Stop, [Deliver(uuid), Deliver(uuid)], w');
    var w1 := Next(cfg, w, Stop);
    FirstStep(cfg, w1, Deliver(uuid), [Deliver(uuid)], w');
    FirstStep(cfg, Next(cfg, w1, Deliver(uuid)), Deliver(uuid), [], w');
  }

  /** When a C-SEPP goes down with a context, the P-SEPP may keep it. */
  lemma OldContextCanRemain(cfg: Config, uuid: Text, later: Text) returns (w: World)
    requires cfg.cCapability == PRINS && uuid != "" && later != "" && later != uuid
    ensures Reachable(cfg, w) && w.wire.Idle?
    ensures w.c.session.contextId == "" && w.p.contextId == uuid && uuid in w.retired
  {
    var w5 := HandshakeRecovers(cfg, Initial(cfg), uuid, later);
    w := Next(cfg, w5, RestartC);
    RunOf(cfg, w5, RestartC, [], w);
    RunsJoin(cfg, Initial(cfg), Handshake(uuid, later), w5, [RestartC], w);
  }

  /** There is always a further id. */
  lemma FreshId(issued: set<Text>) returns (id: Text)
    ensures id != "" && id !in issued
  {
    var k := Longest(issued);
    id := Repeat('a', k + 1);
  }

  lemma Longest(ids: set<Text>) returns (k: nat)
    ensures forall id :: id in ids ==> |id| <= k
    decreases |ids|
  {
    if ids == {} {
      k := 0;
    } else {
      var id :| id in ids;
      k := Longest(ids - {id});
      k := if |id| > k then |id| else k;
    }
  }
}
