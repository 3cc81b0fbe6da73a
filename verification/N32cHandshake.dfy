/** src/sepp_app/sepp_n32c_handshake.cpp: capability exchange, parameter exchange and context
    termination on N32-c (sections 5.2.2 to 5.2.4 of 3GPP TS 29.573). */
module N32cHandshake {
  import opened Octets
  import opened SecurityModes

  /** A JSON document seen through the model class that reads it; `valid` is validate()'s verdict. */
  datatype Json<+T> = NotAnObject | Malformed | Object(value: T, valid: bool)

  /** A boolean member as get<bool>() finds it; it throws on NotBool. */
  datatype Flag = Absent | Bool(value: bool) | NotBool

  /** `capabilities` is None when there is no such array; an item that is not a string is None. */
  datatype CapabilityReq = CapabilityReq(sender: Text, apiRootSupported: Option<bool>, purposes: seq<Text>,
                                         capabilities: Option<seq<Option<Text>>>)

  /** Absent members, and members of the wrong type, are None; so is a purpose item without a usagePurpose. */
  datatype CapabilityRsp = CapabilityRsp(sender: Option<Text>, apiRootSupported: Flag,
                                         selected: Option<Text>, purposes: Option<seq<Option<Text>>>)

  datatype ParamsReq = ParamsReq(contextId: Text, sender: Text, jweSuites: Option<seq<Text>>,
                                 jwsSuites: Option<seq<Text>>, policy: Option<Text>)

  datatype ParamsRsp = ParamsRsp(contextId: Text, sender: Text, jweSuite: Option<Text>,
                                 jwsSuite: Option<Text>, policy: Text)

  datatype ContextInfo = ContextInfo(contextId: Text)

  /** The fields of a handshake object. */
  datatype Session = Session(contextId: Text, peerFqdn: Text, senderFqdn: Text, peerApiRoot: bool,
                             capability: Text, purposes: seq<Text>, jwe: Text, jws: Text)

  const A128GCM: Text := "A128GCM"
  const ES256: Text := "ES256"
  const ROAMING: Text := "ROAMING"
  const EMPTY_POLICY: Text := "{\"apiIeMappingList\":[]}"
  const OFFERED_JWE: seq<Text> := ["A128GCM", "A256GCM"]
  const OFFERED_JWS: seq<Text> := ["ES256", "RS256"]

  const FRESH := Session("", "", "sepp.5gc.mnc22.mcc208.3gppnetwork.org", false, "PRINS", [], A128GCM, ES256)

  // ---------------------------------------------------------------- specification

  /** get<std::vector<std::string>>() succeeds. */
  predicate AllStrings(items: seq<Option<Text>>) {
    forall i :: 0 <= i < |items| ==> items[i].Some?
  }

  /** The strings of the offered list; none when there is no such array. */
  function Offered(capabilities: Option<seq<Option<Text>>>): seq<Text>
    requires capabilities.Some? ==> AllStrings(capabilities.value)
  {
    if capabilities.None? then []
    else seq(|capabilities.value|, i requires 0 <= i < |capabilities.value| => capabilities.value[i].value)
  }

  /** TLS where it is offered, else PRINS where it is or where nothing is offered, else the first offer. */
  function SelectedCapability(offered: seq<Text>): Text {
    if offered == [] || (TLS !in offered && PRINS in offered) then PRINS
    else if TLS in offered then TLS
    else offered[0]
  }

  /** The selection is only compared with the configured capability; a difference is reported. */
  predicate ReportsMismatch(s: Session, req: Json<CapabilityReq>) {
    && req.Object? && req.valid && (req.value.capabilities.Some? ==> AllStrings(req.value.capabilities.value))
    && SelectedCapability(Offered(req.value.capabilities)) != s.capability
  }

  /** None stands for a refusal or an exception; the latter, raised by an offered capability that is not a
      string, comes only after the sender and the api-root flag have been taken over. */
  function OnCapabilityReq(s: Session, req: Json<CapabilityReq>, ownUrl: Text): (Session, Option<CapabilityRsp>) {
    if !req.Object? || !req.valid then (s, None)
    else
      var v := req.value;
      var met := s.(peerFqdn := v.sender,
                    peerApiRoot := if v.apiRootSupported.Some? then v.apiRootSupported.value else s.peerApiRoot);
      if v.capabilities.Some? && !AllStrings(v.capabilities.value) then (met, None)
      else (met, Some(CapabilityRsp(Some(ownUrl), Bool(true), Some(s.capability), Some([Some(ROAMING)]))))
  }

  function CapabilityReqOf(s: Session): CapabilityReq {
    CapabilityReq(s.senderFqdn, Some(true), [ROAMING], Some([Some(s.capability)]))
  }

  function NamedPurposes(items: seq<Option<Text>>): seq<Text> {
    if items == [] then []
    else (if items[0].Some? then [items[0].value] else []) + NamedPurposes(items[1..])
  }

  /** The new state, and whether the response was accepted; the caller treats an exception as a refusal.
      The sender is taken over before the api-root flag is read, which throws when it is not a boolean, and
      both before a response without a selected capability is refused. */
  function OnCapabilityRsp(s: Session, rsp: Json<CapabilityRsp>): (Session, bool) {
    if !rsp.Object? then (s, false)
    else
      var v := rsp.value;
      var named := s.(peerFqdn := if v.sender.Some? then v.sender.value else s.peerFqdn);
      if v.apiRootSupported.NotBool? then (named, false)
      else
        var met := if v.apiRootSupported.Bool? then named.(peerApiRoot := v.apiRootSupported.value) else named;
        if v.selected.None? then (met, false)
        else (met.(purposes := if v.purposes.Some? then NamedPurposes(v.purposes.value) else []), true)
  }

  function ParamsReqOf(s: Session, uuid: Text): (Session, ParamsReq) {
    var t := if s.contextId == "" then s.(contextId := uuid) else s;
    (t, ParamsReq(t.contextId, t.senderFqdn, Some(OFFERED_JWE), Some(OFFERED_JWS), Some(EMPTY_POLICY)))
  }

  /** The first suite offered, or the default when none is. */
  function SelectSuite(offered: Option<seq<Text>>, default_: Text): Text {
    if offered.Some? && offered.value != [] then offered.value[0] else default_
  }

  function OnParamsReq(s: Session, req: Json<ParamsReq>, uuid: Text, ownUrl: Text): (Session, Option<ParamsRsp>) {
    if !req.Object? then (s, None)
    else
      var v := req.value;
      var id := if v.contextId != "" then v.contextId else if s.contextId == "" then uuid else s.contextId;
      var jwe, jws := SelectSuite(v.jweSuites, A128GCM), SelectSuite(v.jwsSuites, ES256);
      (s.(contextId := id, jwe := jwe, jws := jws),
       Some(ParamsRsp(id, ownUrl, Some(jwe), Some(jws), if v.policy.Some? then v.policy.value else EMPTY_POLICY)))
  }

  function OnParamsRsp(s: Session, rsp: Json<ParamsRsp>): (Session, bool) {
    if !rsp.Object? then (s, false)
    else
      var v := rsp.value;
      (s.(contextId := if v.contextId != "" then v.contextId else s.contextId,
          jwe := if v.jweSuite.Some? then v.jweSuite.value else s.jwe,
          jws := if v.jwsSuite.Some? then v.jwsSuite.value else s.jws), true)
  }

  function TerminateReqOf(s: Session): Option<ContextInfo> {
    if s.contextId == "" then None else Some(ContextInfo(s.contextId))
  }

  function OnTerminateReq(s: Session, req: Json<ContextInfo>): (Session, Option<ContextInfo>) {
    if !req.Object? then (s, None)
    else (if s.contextId == req.value.contextId then s.(contextId := "") else s, Some(ContextInfo(req.value.contextId)))
  }

  function OnTerminateRsp(s: Session): Session {
    s.(contextId := "")
  }

  // ---------------------------------------------------------------- the class

  class N32cHandshake {
    var contextId: Text
    var peerFqdn: Text
    var senderFqdn: Text
    var peerApiRoot: bool
    var capability: Text
    var purposes: seq<Text>
    var jwe: Text
    var jws: Text

    function State(): Session
      reads this
    {
      Session(contextId, peerFqdn, senderFqdn, peerApiRoot, capability, purposes, jwe, jws)
    }

    constructor ()
      ensures State() == FRESH
    {
      contextId, peerFqdn, senderFqdn, peerApiRoot := "", "", FRESH.senderFqdn, false;
      capability, purposes, jwe, jws := "PRINS", [], A128GCM, ES256;
    }

    method SetSecCapability(cap: Text)
      modifies this`capability
      ensures State() == old(State()).(capability := cap)
    {
      capability := cap;
    }

    method HandleExchangeCapabilityRequest(req: Json<CapabilityReq>, ownUrl: Text)
      returns (rsp: Option<CapabilityRsp>, mismatch: bool)
      modifies this
      ensures (State(), rsp) == OnCapabilityReq(old(State()), req, ownUrl)
      ensures mismatch == ReportsMismatch(old(State()), req)
    {
      if !req.Object? || !req.valid {
        return None, false;
      }
      if req.value.apiRootSupported.Some? {
        peerApiRoot := req.value.apiRootSupported.value;
      }
      peerFqdn := req.value.sender;
      if req.value.capabilities.Some? && !AllStrings(req.value.capabilities.value) {
        return None, false;
      }
      var supported := Offered(req.value.capabilities);
      var selected := PRINS;
      if supported != [] {
        if TLS in supported {
          selected := TLS;
        } else if PRINS in supported {
          selected := PRINS;
        } else {
          selected := supported[0];
        }
      }
      mismatch := selected != capability;
      rsp := Some(CapabilityRsp(Some(ownUrl), Bool(true), Some(capability), Some([Some(ROAMING)])));
    }

    method CreateExchangeCapabilityReq() returns (req: CapabilityReq)
      ensures req == CapabilityReqOf(State())
    {
      req := CapabilityReq(senderFqdn, Some(true), [ROAMING], Some([Some(capability)]));
    }

    method HandleExchangeCapabilityResponse(rsp: Json<CapabilityRsp>) returns (ok: bool)
      modifies this
      ensures (State(), ok) == OnCapabilityRsp(old(State()), rsp)
    {
      if !rsp.Object? {
        return false;
      }
      var v := rsp.value;
      if v.sender.Some? {
        peerFqdn := v.sender.value;
      }
      match v.apiRootSupported {
        case NotBool => return false;
        case Bool(supported) => peerApiRoot := supported;
        case Absent =>
      }
      if v.selected.None? {
        return false;
      }
      purposes := [];
      if v.purposes.Some? {
        purposes := CollectPurposes(v.purposes.value);
      }
      ok := true;
    }

    /** The loop over allowedUsagePurpose. */
    static method CollectPurposes(items: seq<Option<Text>>) returns (names: seq<Text>)
      ensures names == NamedPurposes(items)
    {
      names := [];
      for i := 0 to |items|
        invariant names + NamedPurposes(items[i..]) == NamedPurposes(items)
      {
        assert items[i..][1..] == items[i + 1..];
        if items[i].Some? {
          names := names + [items[i].value];
        }
      }
    }

    method CreateExchangeParamsReq(uuid: Text) returns (req: ParamsReq)
      modifies this`contextId
      ensures (State(), req) == ParamsReqOf(old(State()), uuid)
    {
      if contextId == "" {
        contextId := uuid;
      }
      req := ParamsReq(contextId, senderFqdn, Some(OFFERED_JWE), Some(OFFERED_JWS), Some(EMPTY_POLICY));
    }

    method HandleExchangeParams(req: Json<ParamsReq>, uuid: Text, ownUrl: Text) returns (rsp: Option<ParamsRsp>)
      modifies this
      ensures (State(), rsp) == OnParamsReq(old(State()), req, uuid, ownUrl)
    {
      if !req.Object? {
        return None;
      }
      var v := req.value;
      if v.contextId != "" {
        contextId := v.contextId;
      } else if contextId == "" {
        contextId := uuid;
      }
      var selectedJwe := A128GCM;
      if v.jweSuites.Some? && v.jweSuites.value != [] {
        selectedJwe := v.jweSuites.value[0];
      }
      jwe := selectedJwe;
      var selectedJws := ES256;
      if v.jwsSuites.Some? && v.jwsSuites.value != [] {
        selectedJws := v.jwsSuites.value[0];
      }
      jws := selectedJws;
      var policy := if v.policy.Some? then v.policy.value else EMPTY_POLICY;
      rsp := Some(ParamsRsp(contextId, ownUrl, Some(selectedJwe), Some(selectedJws), policy));
    }

    method HandleExchangeParamsResponse(rsp: Json<ParamsRsp>) returns (ok: bool)
      modifies this
      ensures (State(), ok) == OnParamsRsp(old(State()), rsp)
    {
      if !rsp.Object? {
        return false;
      }
      if rsp.value.contextId != "" {
        contextId := rsp.value.contextId;
      }
      if rsp.value.jweSuite.Some? {
        jwe := rsp.value.jweSuite.value;
      }
      if rsp.value.jwsSuite.Some? {
        jws := rsp.value.jwsSuite.value;
      }
      ok := true;
    }

    method CreateN32fTerminateReq() returns (req: Option<ContextInfo>)
      ensures req == TerminateReqOf(State())
    {
      if contextId == "" {
        return None;
      }
      req := Some(ContextInfo(contextId));
    }

    method HandleN32fTerminateReq(req: Json<ContextInfo>) returns (rsp: Option<ContextInfo>)
      modifies this`contextId
      ensures (State(), rsp) == OnTerminateReq(old(State()), req)
    {
      if !req.Object? {
        return None;
      }
      var incoming := req.value.contextId;
      rsp := Some(ContextInfo(incoming));
      if contextId == incoming || contextId == "" {
        contextId := "";
      }
    }

    method HandleN32fTerminateResponse()
      modifies this`contextId
      ensures State() == OnTerminateRsp(old(State()))
    {
      contextId := "";
    }
  }

  // ---------------------------------------------------------------- one exchange

  /** After one capability exchange each end knows the other's name, both know that the api-root header is
      supported, the asking end has the allowed purposes, and neither end has changed its mode: a selection
      that differs is only reported. */
  lemma CapabilityExchangeAgrees(c: Session, p: Session, url: Text)
    ensures var (p', rsp) := OnCapabilityReq(p, Object(CapabilityReqOf(c), true), url);
            rsp.Some? &&
            var (c', ok) := OnCapabilityRsp(c, Object(rsp.value, true));
            && ok && p'.peerFqdn == c.senderFqdn && c'.peerFqdn == url
            && p'.peerApiRoot && c'.peerApiRoot && c'.purposes == ["ROAMING"]
            && c'.capability == c.capability && p'.capability == p.capability
            && rsp.value.selected == Some(p.capability)
            && c'.contextId == c.contextId && p'.contextId == p.contextId
  {
    var items: seq<Option<Text>> := [Some(ROAMING)];
    assert items[1..] == [];
    assert NamedPurposes(items) == [ROAMING] + NamedPurposes([]);
  }

  /** What is selected from any offers: TLS, PRINS or the first, in this order; PRINS without offers. */
  lemma SelectionOrder(offered: seq<Text>)
    ensures "TLS" in offered ==> SelectedCapability(offered) == "TLS"
    ensures "TLS" !in offered && "PRINS" in offered ==> SelectedCapability(offered) == "PRINS"
    ensures "TLS" !in offered && "PRINS" !in offered ==>
              SelectedCapability(offered) == if offered == [] then "PRINS" else offered[0]
  {
    assert TLS == "TLS" && PRINS == "PRINS";
  }

  /** The request offers the asking end's capability and nothing else, for roaming; it is what the other end
      selects, so that a mismatch is reported exactly when the two are configured differently. */
  lemma OfferIsSelected(c: Session, p: Session)
    ensures var req := CapabilityReqOf(c);
            && req.capabilities == Some([Some(c.capability)]) && req.purposes == ["ROAMING"]
            && req.sender == c.senderFqdn && req.apiRootSupported == Some(true)
            && (ReportsMismatch(p, Object(req, true)) <==> c.capability != p.capability)
  {
    assert Offered(CapabilityReqOf(c).capabilities) == [c.capability];
  }

  /** What is taken over of any valid request: its sender, and its flag where it has one; it is answered with the
      configured capability unless an offered capability is no string. */
  lemma RequestIsTakenOver(s: Session, v: CapabilityReq, url: Text)
    ensures var (t, rsp) := OnCapabilityReq(s, Object(v, true), url);
            && t.peerFqdn == v.sender
            && t.peerApiRoot == (if v.apiRootSupported.Some? then v.apiRootSupported.value else s.peerApiRoot)
            && t == s.(peerFqdn := t.peerFqdn, peerApiRoot := t.peerApiRoot)
            && (rsp.None? <==>
                  v.capabilities.Some?
                  && exists i :: 0 <= i < |v.capabilities.value| && v.capabilities.value[i] == None)
            && (rsp.Some? ==>
                  rsp.value == CapabilityRsp(Some(url), Bool(true), Some(s.capability), Some([Some("ROAMING")])))
  {
    assert ROAMING == "ROAMING";
  }

  /** What is taken over of any response: its sender; then its flag, where it has one that is a boolean; and when
      it names a selected capability too, its purposes, whatever the capability is. */
  lemma ResponseIsTakenOver(s: Session, v: CapabilityRsp, valid: bool)
    ensures var (t, ok) := OnCapabilityRsp(s, Object(v, valid));
            && (ok <==> v.selected.Some? && !v.apiRootSupported.NotBool?)
            && t.peerFqdn == (if v.sender.Some? then v.sender.value else s.peerFqdn)
            && t.peerApiRoot == (if v.apiRootSupported.Bool? then v.apiRootSupported.value else s.peerApiRoot)
            && (ok && v.purposes.None? ==> t.purposes == [])
            && (forall names: seq<Text> :: ok && v.purposes == Some(Present(names)) ==> t.purposes == names)
            && (!ok ==> t.purposes == s.purposes)
            && t.capability == s.capability && t.contextId == s.contextId && t.jwe == s.jwe && t.jws == s.jws
  {
    forall names: seq<Text> ensures NamedPurposes(Present(names)) == names {
      PurposesOf(names);
    }
  }

  function Present(names: seq<Text>): seq<Option<Text>> {
    if names == [] then [] else [Some(names[0])] + Present(names[1..])
  }

  lemma {:induction false} PurposesOf(names: seq<Text>)
    ensures NamedPurposes(Present(names)) == names
  {
    if names == [] {
    } else {
      PurposesOf(names[1..]);
      assert Present(names)[1..] == Present(names[1..]);
    }
  }

  /** Items without a purpose are left out, the others keep their order. */
  lemma {:induction false} PurposesJoin(before: seq<Option<Text>>, after: seq<Option<Text>>)
    ensures NamedPurposes(before + after) == NamedPurposes(before) + NamedPurposes(after)
    ensures NamedPurposes([None] + after) == NamedPurposes(after)
  {
    assert ([None] + after)[1..] == after;
    if before == [] {
      assert before + after == after;
    } else {
      PurposesJoin(before[1..], after);
      assert (before + after)[1..] == before[1..] + after;
    }
  }

  /** A body that is no JSON object, or that the model class cannot read, changes nothing and is not answered. */
  lemma UnreadableChangesNothing(s: Session, uuid: Text, url: Text)
    ensures OnCapabilityReq(s, NotAnObject, url) == OnCapabilityReq(s, Malformed, url) == (s, None)
    ensures OnCapabilityRsp(s, NotAnObject) == OnCapabilityRsp(s, Malformed) == (s, false)
    ensures OnParamsReq(s, NotAnObject, uuid, url) == OnParamsReq(s, Malformed, uuid, url) == (s, None)
    ensures OnParamsRsp(s, NotAnObject) == OnParamsRsp(s, Malformed) == (s, false)
    ensures OnTerminateReq(s, NotAnObject) == OnTerminateReq(s, Malformed) == (s, None)
    ensures forall req :: OnCapabilityReq(s, Object(req, false), url) == (s, None)
  {
  }

  /** Whatever is offered, after one parameter exchange both ends hold the same context id, the one named in the
      request, else the one the answering end has, else a new one; and the same suites, the first ones offered, or
      the defaults. The policy comes back as it was sent. */
  lemma ParamsExchangeAgrees(c: Session, p: Session, req: ParamsReq, valid: bool, uuid: Text, url: Text)
    requires uuid != ""
    ensures var (p', rsp) := OnParamsReq(p, Object(req, valid), uuid, url);
            rsp.Some? && forall verdict :: var (c', ok) := OnParamsRsp(c, Object(rsp.value, verdict));
              && ok && c'.contextId == p'.contextId != "" && c'.jwe == p'.jwe && c'.jws == p'.jws
    ensures var (p', rsp) := OnParamsReq(p, Object(req, valid), uuid, url);
            && p'.contextId == (if req.contextId != "" then req.contextId
                                else if p.contextId != "" then p.contextId else uuid)
            && p'.jwe == (if req.jweSuites.Some? && req.jweSuites.value != [] then req.jweSuites.value[0] else "A128GCM")
            && p'.jws == (if req.jwsSuites.Some? && req.jwsSuites.value != [] then req.jwsSuites.value[0] else "ES256")
            && rsp.value.sender == url
            && rsp.value.policy == if req.policy.Some? then req.policy.value else "{\"apiIeMappingList\":[]}"
  {
    assert A128GCM == "A128GCM" && ES256 == "ES256" && EMPTY_POLICY == "{\"apiIeMappingList\":[]}";
  }

  /** The request for parameters names the context there is, or else a new one, and offers two suites of each kind;
      what a response leaves out stays as it is. */
  lemma ParamsAreKept(c: Session, uuid: Text, rsp: ParamsRsp, valid: bool)
    ensures var (c', req) := ParamsReqOf(c, uuid);
            && req.contextId == c'.contextId == (if c.contextId == "" then uuid else c.contextId)
            && c' == c.(contextId := c'.contextId)
            && req.sender == c.senderFqdn && req.policy == Some("{\"apiIeMappingList\":[]}")
            && req.jweSuites == Some(["A128GCM", "A256GCM"]) && req.jwsSuites == Some(["ES256", "RS256"])
    ensures var (c', ok) := OnParamsRsp(c, Object(rsp, valid));
            && ok && (rsp.contextId == "" ==> c'.contextId == c.contextId)
            && (rsp.jweSuite.None? ==> c'.jwe == c.jwe) && (rsp.jwsSuite.None? ==> c'.jws == c.jws)
            && c'.capability == c.capability && c'.peerFqdn == c.peerFqdn && c'.purposes == c.purposes
  {
    assert EMPTY_POLICY == "{\"apiIeMappingList\":[]}";
  }

  /** Termination requests handled one after the other. */
  function AfterTerminations(s: Session, ids: seq<Text>): Session
    decreases |ids|
  {
    if ids == [] then s
    else AfterTerminations(OnTerminateReq(s, Object(ContextInfo(ids[0]), true)).0, ids[1..])
  }

  /** Every termination is answered with the id it named. */
  lemma TerminationIsEchoed(s: Session, id: Text, valid: bool)
    ensures OnTerminateReq(s, Object(ContextInfo(id), valid)).1 == Some(ContextInfo(id))
  {
  }

  /** However many terminations arrive, a context ends exactly when one of them names it, and nothing else
      of the session changes. */
  lemma {:induction false} OnlyNamedContextEnds(s: Session, ids: seq<Text>)
    ensures AfterTerminations(s, ids) == s.(contextId := if s.contextId in ids then "" else s.contextId)
    decreases |ids|
  {
    if ids == [] {
    } else {
      OnlyNamedContextEnds(OnTerminateReq(s, Object(ContextInfo(ids[0]), true)).0, ids[1..]);
      assert ids == [ids[0]] + ids[1..];
    }
  }
}
