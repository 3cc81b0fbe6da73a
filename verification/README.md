# OAI SEPP in Dafny

A model of the Security Edge Protection Proxy `oai-cn5g-sepp`, with proofs of what its protocol code is for.
A consumer's SEPP (C-SEPP) and a producer's SEPP (P-SEPP) stand between two mobile networks. They agree on
a security mode and a context over N32-c and then carry HTTP requests and responses over N32-f
(3GPP TS 29.573). Run `dafny verify dfyconfig.toml` to check everything.

How the files follow the system:

- `Octets.dfy`: byte strings (`std::string`) and searches in them.
- `Jose.dfy`: base64url over OpenSSL's base64 filter, and AES-128-GCM protection.
- `AadCodec.dfy`: the text form of a message head, its printer and its parser.
- `Decimal.dfy`: `std::to_string` and `std::stoi`.
- `QueryString.dfy`: `url_decode` and `extract_plmn_from_path`.
- `SecurityModes.dfy`: the two security capabilities.
- `N32fForward.dfy`: the PRINS forwarder.
- `Tunnel.dfy`: SBI server, consumer end, P-SEPP and producer put together; the transparency results.
- `SbiExchange.dfy`: the same in the terms of consumer and producer, and what stands on N32-f between them.
- `N32cHandshake.dfy`: the handshake object. `TwoParty.dfy`: one C-SEPP, one P-SEPP and a wire that may lose
  any message, and processes that may restart. `SeppApp.dfy`: the application object, its SBI handler, and its
  link to the two-party machine.
- `Telescopic.dfy`: FQDNs against telescopic labels.
- `Heartbeat.dfy`: tick loop, period filter and heartbeat subscriber.
- `StableSort.dfy`, `Pcap.dfy`, `PcapFiles.dfy`, `Splice.dfy`: the two byte and text algorithms of the test scripts.

Each object whose methods update its fields is a class here, and each loop of the code is a loop in a method.
Such a method is proved against a function of its inputs (`ProcessPost`, `OnParamsReq`, `Run`, ...), and the
results are lemmas about these functions. Each operation also has laws that say what it does without naming its
functions: as texts, numbers and headers at its ends. What the program gets from outside is a parameter:

- The AEAD is a pair of functions. The results assume only `Aead.Lawful`: ciphertext as long as the plaintext,
  a 16-byte tag, and what was sealed opens under the same key, nonce and associated data. The nonce is a parameter
  too; its absence stands for a failure of the random generator or of any other OpenSSL call.
- The order in which an `unordered_map` is walked is an arbitrary function that lists every key once.
- Producers, peers, JSON readers and NRF responses are arbitrary functions; status 0 is a lost exchange.
- Generated ids are parameters; in `TwoParty` they are non-empty and not generated before.
- JSON between the two SEPPs is the identity on records, with malformed documents and failed validation as cases.

What the proofs say about the code that reading it does not show at once:

- An authority may hold CR, but not LF, and still survive (`AadCodec.AadSurvivesIff`).
- With a key that is neither empty nor 16 bytes long, requests and responses without a body still pass, all others
  end in 502 (`Tunnel.TunnelIsTransparent`, at a key `Tunnel.ShortKeyStopsBodies`).
- The forwarder does not always know the handshake's context (`TwoParty.ForwarderAgreesIff`): it has no id when the
  parameter response is lost (`TwoParty.ForwarderCanBeBehind`), and after a confirmed termination it keeps the
  terminated id until the next accepted parameter response (`TwoParty.ForwarderCanBeStale`).
- A P-SEPP can hold a context of a C-SEPP that has gone down; the next handshake replaces it
  (`TwoParty.ContextsAgree`, reached in `TwoParty.OldContextCanRemain`; `TwoParty.RestartRecovers`).
- An api root whose remainder starts with a second scheme loses one of them (`Tunnel.ApiRootSurvivesIff`, at
  http://http://h `Tunnel.SecondSchemeIsLost`).
- Two telescopic labels, with and without the padding zero, stand for one FQDN (`Telescopic.LabelsAreDistinct`).
- A pcap file cut off inside a record spoils the merged file, unless that record sorts behind all others; so does a
  first file cut off inside its file header (`Pcap.RereadIff`, at two files `Pcap.CutRecordMisreads`).

## Model

| member | source | states |
|---|---|---|
| SbiExchange.RequestReachesProducer | src/api-server/sepp-http2-sbi-server.cpp:156-196 | End to end, in the terms of the two ends: the producer gets the consumer's request at its api root, authority or host (in this order) with the scheme http, under the same path, with ? and the query where there is one, with the same method, body and nothing else |
| SbiExchange.ResponseReachesConsumer | src/api-server/sepp-http2-sbi-server.cpp:197-209 | End to end: the consumer gets the producer's status and body, and of its headers location, content-type and retry-after, each exactly when its value holds no CR or LF, and no other; or 502 exactly when the status is not in 100..599 or the body cannot be protected |
| SbiExchange.QueryIsUnpacked | src/sepp_app/sepp_n32f_forward.cpp:183-194 | For a path without ?, cutting what the P-SEPP unpacks at its first ? gives path and query back; method, authority and body are the consumer's |
| SbiExchange.RefusedRequests | src/api-server/sepp-http2-sbi-server.cpp:184-188 | Without api root, authority and host a request gets 400, with a body that cannot be protected 502; the producer gets nothing |
| SbiExchange.MessageOnTheWire | src/sepp_app/sepp_n32f_forward.cpp:254-325 | What stands on N32-f for a request: the head text letter by letter, the context id or the dummy id, the protected header, and the body in clear or sealed with the transmitted head as associated data |
| SbiExchange.BodyIsRead | src/sepp_app/sepp_n32f_forward.cpp:196-213 | A received body: in clear without key, nonce or tag; else opened under the received head, after the checks of the 16, 12 and 16 bytes |
| SbiExchange.OtherModesRefuse | src/sepp_app/sepp_n32f_forward.cpp:148-156 | Outside PRINS mode every message is refused, with the problem cause for an object, and nothing is sent |
| SbiExchange.ContextIsEchoed | src/sepp_app/sepp_n32f_forward.cpp:167-184 | The context id inside the reformatted data, else the one beside it, decides and comes back in the answer; a message is sent on exactly when it has one, a head and a readable body |
| SbiExchange.HeadIsForwarded | src/sepp_app/sepp_n32f_forward.cpp:369-413 | For every received head, whoever wrote it: sent to the api root it names, else its authority, else the NRF, with its headers but those two |
| SbiExchange.FailsIff | src/sepp_app/sepp_n32f_forward.cpp:219-237 | An unpacked message fails exactly when the producer does not respond or the response body cannot be protected |
| SbiExchange.RepliesThatAreRead | src/sepp_app/sepp_app.cpp:378-383 | Of the peer's replies exactly those with status 200 or 201 are read |
| Tunnel.TunnelIsTransparent | src/sepp_app/sepp_n32f_forward.cpp:142-267 | For every AEAD, shared key of any length, context id, header iteration order, nonces, request and producer: what a PRINS C-SEPP and P-SEPP do to a request with a word for method and path and an LF-free authority is one direct HTTP exchange with the producer. The request sent on and the consumer's reply agree with it, including every 502 |
| Tunnel.RequestSurvivesIff | src/sepp_app/sepp_n32f_forward.cpp:246-325 | Request transparency: the P-SEPP unpacks exactly the packed method, path, authority and body if and only if method and path are non-empty without white space and the authority holds no LF; the context-id check passes before and after a context is established |
| Tunnel.OutboundOfRequest | src/sepp_app/sepp_n32f_forward.cpp:362-413 | The request sent on goes to the normalised authority, without an authority to the NRF, followed by the path, with the mapped method, the body, and none of the lines the envelope added |
| Tunnel.ResponseSurvives | src/sepp_app/sepp_app.cpp:390-424 | Response transparency for every status, body and header map: status, body and the three relayed CR/LF-free headers reach the consumer exactly when the body can be protected and the status lies in 100..599; otherwise it gets 502 |
| Tunnel.MessageIsServed | src/sepp_app/sepp_n32f_forward.cpp:198-231 | Served by the P-SEPP, the message of a request causes that request and the packed answer to it |
| Tunnel.BodySurvives | src/sepp_app/sepp_n32f_forward.cpp:308-322 | A body can be packed exactly when there is nothing to protect, no key, or a 16-byte key and a nonce; then the other side of the same key gets it back |
| Tunnel.TargetIsApiRootIff | src/api-server/sepp-http2-sbi-server.cpp:158-182 | A request that names its target by api root reaches the normalised root through the whole tunnel exactly when the stripped root carries no second scheme |
| Tunnel.ApiRootSurvivesIff | src/sepp_app/sepp_n32f_forward.cpp:276-285 | Strip, re-add, re-normalise equals one normalisation exactly when the stripped root carries no second scheme |
| Tunnel.SecondSchemeIsLost | src/sepp_app/sepp_n32f_forward.cpp:276-285 | The case at an input: the api root http://http://h is reached as http://h |
| Tunnel.ShortKeyStopsBodies | src/sepp_app/sepp_JOSE.cpp:95-99 | The case at a key: under a key of five bytes every request with a body ends in 502 and nothing is sent to the producer |
| Tunnel.NormalizeIsIdempotent | src/sepp_app/sepp_n32f_forward.cpp:380-385 | Normalisation always yields an http:// prefix and is idempotent |
| Tunnel.RelayedNames | src/api-server/sepp-http2-sbi-server.cpp:199-203 | Of the headers that come out of the response AAD, those relayed are exactly the producer's location, content-type and retry-after without CR or LF, although the AAD also carries authority and api root |
| Tunnel.ComputeResolveAuthority | src/api-server/sepp-http2-sbi-server.cpp:156-182 | The authority of a request: stripped api root, else authority header, else host header |
| Tunnel.LawfulEnvExists | src/sepp_app/sepp_JOSE.cpp:88-219 | The assumptions made of the cipher and of map iteration can be met |
| AadCodec.AadSurvivesIff | src/sepp_app/sepp_n32f_forward.cpp:275-291 | Parser after printer, for every header map and every iteration order of it: both words, the authority and exactly the CR/LF-free headers plus the two authority lines come back if and only if both words are non-empty without white space, the authority holds no LF, no printed header name holds a colon, and a printed header named authority has the authority for its value |
| AadCodec.WordsSurviveIff | src/sepp_app/sepp_n32f_forward.cpp:334-341 | Whatever follows, the first line gives method (or status) and path back exactly when both are words; otherwise some other text is read in their place |
| AadCodec.HeadersSurvive | src/sepp_app/sepp_n32f_forward.cpp:343-357 | For every header map: the lines after the first give exactly the kept headers, and the authority unless a kept header of that name replaces it; values with leading spaces and empty values are verbatim, and a dropped header changes no other |
| AadCodec.ParsedNamesHaveNoColon | src/sepp_app/sepp_n32f_forward.cpp:346-348 | No parse of any text yields a header name with a colon |
| AadCodec.ParsedAuthorityHasNoLf | src/sepp_app/sepp_n32f_forward.cpp:343-354 | No parse of any text yields an authority with an LF |
| AadCodec.WordsAreIndependent | src/sepp_app/sepp_n32f_forward.cpp:343-357 | Header lines are read the same whatever the first line said |
| AadCodec.BuildAad | src/sepp_app/sepp_n32f_forward.cpp:275-286 | The appending code builds the printed text, for the iteration order given |
| AadCodec.AppendHeaders | src/sepp_app/sepp_n32f_forward.cpp:287-290 | The header loop appends one line for each CR/LF-free header |
| AadCodec.ComputeParseAad | src/sepp_app/sepp_n32f_forward.cpp:327-360 | The getline loops compute the specified head; they fail, leaving all out-parameters alone, only on an empty text |
| AadCodec.PrintedTop | src/sepp_app/sepp_n32f_forward.cpp:275-286 | The printed head letter by letter: request line, authority and api root with the scheme http |
| AadCodec.PrintedHeader | src/sepp_app/sepp_n32f_forward.cpp:287-290 | Each further header adds the line name, colon, space, value, CR LF, unless a CR or LF stands in it |
| AadCodec.FirstLineIsRead | src/sepp_app/sepp_n32f_forward.cpp:334-341 | The two words are read between any white space, from lines ending in LF or CR LF; what follows them is not looked at |
| AadCodec.MissingWords | src/sepp_app/sepp_n32f_forward.cpp:334-341 | A first line of one word gives no path, an empty one gives neither |
| AadCodec.HeaderLineIsRead | src/sepp_app/sepp_n32f_forward.cpp:343-357 | Header lines are read with or without the space after the colon, ending in LF or CR LF; one named authority gives the authority too |
| AadCodec.OtherLineIsSkipped | src/sepp_app/sepp_n32f_forward.cpp:346-347 | A line without a colon is skipped |
| AadCodec.TokenIff | src/sepp_app/sepp_n32f_forward.cpp:338-341 | The words of the results above are the non-empty texts without blank, tab, LF, VT, FF and CR |
| Decimal.StoiOfToString | src/sepp_app/sepp_app.cpp:421-422 | stoi of to_string is the identity on the int range and throws outside it |
| Decimal.StoiOfNumberInText | src/sepp_app/sepp_app.cpp:421-422 | stoi reads a number after any white space and an optional sign, whatever but a digit follows it, and throws exactly outside the int range |
| Decimal.PrintedInDecimal | src/sepp_app/sepp_n32f_forward.cpp:219-222 | to_string prints decimal digits |
| Jose.RoundTrip | src/sepp_app/sepp_JOSE.cpp:19-83 | decode(encode(x)) = x for every byte string |
| Jose.EncodedIsCanonical | src/sepp_app/sepp_JOSE.cpp:35-44 | The encoded form has length ceil(4n/3), only A-Z a-z 0-9 - _, no padding, no stray bits |
| Jose.EncodesNumbers | src/sepp_app/sepp_JOSE.cpp:19-44 | The encoding as RFC 4648 describes it: three bytes as one number of 24 bits, its digits to base 64 in the URL alphabet; one or two last bytes filled up with zero bits |
| Jose.DecodeEncodeIffCanonical | src/sepp_app/sepp_JOSE.cpp:56-83 | encode(decode(t)) = t exactly for the texts encode can produce |
| Jose.RepadRestores | src/sepp_app/sepp_JOSE.cpp:57-66 | Mapping back and re-padding restores the library's text with exactly the stripped padding |
| Jose.BioDecodeRepad | src/sepp_app/sepp_JOSE.cpp:68-82 | A re-padded core decodes, and to the regrouped digits of the core |
| Jose.PaddedIsDecoded | src/sepp_app/sepp_JOSE.cpp:56-83 | The library's own text, with + and / and padding, is decoded too |
| Jose.UnusedBitsAreIgnored | src/sepp_app/sepp_JOSE.cpp:68-82 | The bits of the last character that no byte has room for do not matter |
| Jose.ForeignTextIsRefused | src/sepp_app/sepp_JOSE.cpp:68-82 | A text with a foreign character before its last two gives nothing |
| Jose.ImpossibleLengthIsRefused | src/sepp_app/sepp_JOSE.cpp:63-82 | A text of a length that no encoding has gives nothing |
| Jose.Base64UrlEncode | src/sepp_app/sepp_JOSE.cpp:35-44 | The character loop computes the URL form of the library's output |
| Jose.Base64UrlDecode | src/sepp_app/sepp_JOSE.cpp:56-83 | The in-place rewriting and padding loops compute the specified decoder |
| Jose.JweRoundTrip | src/sepp_app/sepp_JOSE.cpp:88-219 | Assuming only the AEAD and size laws: protection succeeds exactly with a 16-byte key and a nonce; what it produced passes the 16/12/16 length checks and opens to the plaintext; encoded sizes |
| QueryString.ComputeUrlDecode | src/sepp_app/sepp_n32f_forward.cpp:28-53 | The index-skipping loop refines the recursive decoder and terminates |
| QueryString.DecodesIffEncodes | src/sepp_app/sepp_n32f_forward.cpp:31-51 | For every text without a bare %: decoding yields s exactly when the text is a percent-encoding of s in the words of RFC 3986 (hex digits in either case, + for space, any choice of escaped bytes); each such encoding decodes |
| QueryString.DecodeUndoesEncode | src/sepp_app/sepp_n32f_forward.cpp:28-53 | Decoding undoes percent-encoding for every byte string |
| QueryString.UnchangedIff | src/sepp_app/sepp_n32f_forward.cpp:32-50 | A text is copied through unchanged exactly when it has no + and no complete escape: malformed and cut-off escapes are literal |
| QueryString.UrlDecode | src/sepp_app/sepp_n32f_forward.cpp:28-53 | Decoding never lengthens its input |
| QueryString.ScanQuery | src/sepp_app/sepp_n32f_forward.cpp:61-97 | The shrinking-view loop refines the recursive scan and terminates |
| QueryString.SelectPlmnValue | src/sepp_app/sepp_n32f_forward.cpp:57-97 | For every path the value selected is that of the first PLMN parameter after the first question mark |
| QueryString.ScanFindsFirst | src/sepp_app/sepp_n32f_forward.cpp:62-97 | Scanning the view is: split on &, take the first parameter with an = whose key names a PLMN |
| QueryString.ExtractPlmn | src/sepp_app/sepp_n32f_forward.cpp:55-98 | The selected value is decoded and read; without one, nothing is assigned |
| QueryString.EncodedPlmnIsRead | src/sepp_app/sepp_n32f_forward.cpp:61-92 | A percent-encoded plmn-id or target-plmn-id is read back whatever parameters without a PLMN precede it and whatever follows; the codes the JSON reader finds in it are taken over |
| QueryString.NothingToRead | src/sepp_app/sepp_n32f_forward.cpp:59-66 | Without a question mark, or without a PLMN parameter behind it, nothing is assigned |
| QueryString.FallbackKeeps | src/sepp_app/sepp_n32f_forward.cpp:79-90 | Where the fallback finds neither code, what had been assigned stays |
| QueryString.FallbackReadsCompactPlmn | src/sepp_app/sepp_n32f_forward.cpp:79-90 | When the JSON reader throws, whatever it had assigned, the textual fallback still reads both codes of a compact PLMN object |
| QueryString.SplitJoin | src/sepp_app/sepp_n32f_forward.cpp:63-66 | Splitting undoes joining for pieces without the separator |
| N32fForward.N32fForward.constructor | src/sepp_app/sepp_n32f_forward.hpp:106-111 | Initial field values |
| N32fForward.N32fForward.BuildReformattedData | src/sepp_app/sepp_n32f_forward.cpp:269-325 | Builds the specified message; none when the body cannot be protected |
| N32fForward.N32fForward.CreateN32fProcessRequest | src/sepp_app/sepp_n32f_forward.cpp:246-267 | Builds the request message, under the dummy id before a context exists; null body in TLS mode |
| N32fForward.N32fForward.UnpackRequest | src/sepp_app/sepp_n32f_forward.cpp:145-213 | All checks and decoding steps up to the forwarding |
| N32fForward.N32fForward.PrepareRequest | src/sepp_app/sepp_n32f_forward.cpp:369-413 | Target selection, normalisation, method mapping and header filter give the specified request |
| N32fForward.N32fForward.CopyHeaders | src/sepp_app/sepp_n32f_forward.cpp:409-413 | The header loop copies all but the two envelope headers, in any iteration order |
| N32fForward.N32fForward.HandleN32fProcessPost | src/sepp_app/sepp_n32f_forward.cpp:142-237 | The whole handler: what is sent, and the answer, problem or failure |
| N32cHandshake.CapabilityExchangeAgrees | src/sepp_app/sepp_n32c_handshake.cpp:44-216 | After one capability exchange both ends know each other and the api-root flag, the asking end holds the purposes, and no end has changed its mode or context |
| N32cHandshake.ParamsExchangeAgrees | src/sepp_app/sepp_n32c_handshake.cpp:252-367 | Whatever is offered, after one parameter exchange both ends hold one non-empty context id, the requested one, else that of the answering end, else a new one, and the first suites offered, or A128GCM and ES256; the policy comes back |
| N32cHandshake.OfferIsSelected | src/sepp_app/sepp_n32c_handshake.cpp:85-113 | The capability request offers exactly the configured capability, for roaming; the other end selects it, so a mismatch is reported exactly when the two are configured differently |
| N32cHandshake.SelectionOrder | src/sepp_app/sepp_n32c_handshake.cpp:92-104 | From any list TLS is selected where offered, else PRINS, else the first offer; PRINS from none |
| N32cHandshake.RequestIsTakenOver | src/sepp_app/sepp_n32c_handshake.cpp:64-127 | What is taken over of any valid capability request, and its answer; none exactly when an offered capability is no string |
| N32cHandshake.ResponseIsTakenOver | src/sepp_app/sepp_n32c_handshake.cpp:169-215 | What is taken over of any capability response, and when it is accepted, whatever capability it names |
| N32cHandshake.ParamsAreKept | src/sepp_app/sepp_n32c_handshake.cpp:219-367 | The parameter request names the context there is, or else a new one; what a response leaves out stays as it was |
| N32cHandshake.UnreadableChangesNothing | src/sepp_app/sepp_n32c_handshake.cpp:30-64 | A body that is no object or cannot be read changes nothing and is not answered |
| N32cHandshake.OnlyNamedContextEnds | src/sepp_app/sepp_n32c_handshake.cpp:396-438 | However many termination requests arrive, a context ends exactly when one of them names it, and nothing else changes |
| N32cHandshake.N32cHandshake.constructor | src/sepp_app/sepp_n32c_handshake.hpp:97-106 | Initial field values |
| N32cHandshake.N32cHandshake.HandleExchangeCapabilityRequest | src/sepp_app/sepp_n32c_handshake.cpp:44-127 | A refused request changes nothing; any other changes name and flag only, also when an offered capability that is no string then raises the exception; the answer carries the configured capability, and a mismatch with the selection is reported |
| N32cHandshake.N32cHandshake.CreateExchangeCapabilityReq | src/sepp_app/sepp_n32c_handshake.cpp:130-158 | The request offers exactly the configured capability, with purpose ROAMING and the api-root flag |
| N32cHandshake.N32cHandshake.HandleExchangeCapabilityResponse | src/sepp_app/sepp_n32c_handshake.cpp:161-216 | New state: the sender is taken over even when a flag that is no boolean then throws, sender and flag even when a missing selection then refuses the response |
| N32cHandshake.N32cHandshake.CreateExchangeParamsReq | src/sepp_app/sepp_n32c_handshake.cpp:219-249 | A context id is generated only when there is none |
| N32cHandshake.N32cHandshake.HandleExchangeParams | src/sepp_app/sepp_n32c_handshake.cpp:252-321 | The named context id wins over an existing one, which wins over a new one; the answer carries what is stored |
| N32cHandshake.N32cHandshake.HandleExchangeParamsResponse | src/sepp_app/sepp_n32c_handshake.cpp:324-367 | Exactly the members present in the response are taken over; nothing changes when it is no object or malformed |
| N32cHandshake.N32cHandshake.CreateN32fTerminateReq | src/sepp_app/sepp_n32c_handshake.cpp:369-393 | Names the current context; fails without one |
| N32cHandshake.N32cHandshake.HandleN32fTerminateReq | src/sepp_app/sepp_n32c_handshake.cpp:396-438 | Clears the context only when it is the one named; echoes the named id |
| N32cHandshake.N32cHandshake.HandleN32fTerminateResponse | src/sepp_app/sepp_n32c_handshake.cpp:440-468 | Clears the context in every branch |
| TwoParty.NextKeepsInv | src/sepp_app/sepp_app.cpp:104-299 | Every step of C-SEPP, P-SEPP, lossy wire and restarts of either process keeps the invariant |
| TwoParty.RunKeepsInv | src/sepp_app/sepp_app.cpp:104-299 | Every run keeps it |
| TwoParty.ContextsAgree | src/sepp_app/sepp_n32c_handshake.cpp:279-284 | In every reachable state the P-SEPP holds no context, the C-SEPP's current one, or one that a C-SEPP held when it went down; without restarts, none or the current one |
| TwoParty.OldContextCanRemain | src/sepp_app/sepp_app.cpp:37-77 | The last case, reached: after a restart of the C-SEPP the P-SEPP still holds the old context |
| TwoParty.TerminationClearsBoth | src/sepp_app/sepp_n32c_handshake.cpp:431-466 | Once a termination answer is processed the C-SEPP holds no context and the P-SEPP none but one left over from before a restart; the forwarder keeps its id |
| TwoParty.ForwarderFollowsAccepted | src/sepp_app/sepp_app.cpp:212-220 | The forwarder holds the id of the last accepted parameter response, and never one the peer has not echoed |
| TwoParty.ForwarderAgreesIff | src/sepp_app/sepp_app.cpp:212-299 | In every reachable state the forwarder's id is the handshake's exactly when the handshake's id has been accepted or, without an id, when none ever was; another id that it holds is one whose termination was confirmed |
| TwoParty.ForwarderCanBeBehind | src/sepp_app/sepp_app.cpp:174-230 | The first way to differ, reached: the parameter response is lost and the forwarder has no id while both handshakes hold one |
| TwoParty.ForwarderCanBeStale | src/sepp_app/sepp_app.cpp:264-299 | The second, reached: after a confirmed termination the forwarder holds the terminated id |
| TwoParty.AcceptanceAgrees | src/sepp_app/sepp_n32c_handshake.cpp:290-364 | After each accepted parameter response both sides hold one context, and the first JWE and JWS suite offered |
| TwoParty.StatusesThatCount | src/sepp_app/sepp_app.cpp:137-299 | Capability and parameter responses count with status 200 and 201, terminations with 200 and 204, and with no other; an accepted parameter response gives the forwarder the id |
| TwoParty.ModeIsConstant | src/sepp_app/sepp_n32c_handshake.cpp:184-199 | Capability stays the configured one in handshake and forwarder of both sides; the modes agree exactly when the configurations do |
| TwoParty.OfferIsConfigured | src/sepp_app/sepp_n32c_handshake.cpp:85-113 | In every reachable state a capability request under way offers exactly the configured capability, for roaming, and makes the P-SEPP report a mismatch exactly when the configurations differ |
| TwoParty.OtherModesStaySilent | src/sepp_app/sepp_app.cpp:155-159 | A C-SEPP not configured for PRINS never asks for parameters, never holds a context, and its stop sends nothing |
| TwoParty.HandshakeRecovers | src/sepp_app/sepp_app.cpp:104-230 | Whatever the two sessions hold, one loss-free handshake of a PRINS C-SEPP puts both sides and the forwarder in agreement, under the C-SEPP's id if it has one |
| TwoParty.RestartRecovers | src/sepp_app/sepp_app.cpp:37-77 | At any moment of any history a C-SEPP goes down; its successor's handshake gets a new context accepted, though the P-SEPP may still hold the old one |
| TwoParty.StopRecovers | src/sepp_app/sepp_app.cpp:503-511 | Whatever the two sessions hold, one loss-free stop takes the C-SEPP's context away, and leaves the P-SEPP without one exactly when it had none or the same |
| SeppApp.SeppApp.constructor | src/sepp_app/sepp_app.cpp:37-77 | Both objects take the configured mode; a C-SEPP with a partner runs the handshake |
| SeppApp.RemoteUrlNamesPartner | src/sepp_app/sepp_app.cpp:56-71 | Exactly a C-SEPP with a partner has a remote SEPP: the one whose FQDN names the first partner's MCC and MNC, at the configured scheme and port |
| SeppApp.SeppApp.CreateExchangeCapability | src/sepp_app/sepp_app.cpp:104-171 | The capability exchange against any peer, followed by the parameter exchange exactly in PRINS mode |
| SeppApp.SeppApp.CreateExchangeParams | src/sepp_app/sepp_app.cpp:174-230 | The parameter exchange against any peer; the forwarder takes the accepted id |
| SeppApp.SeppApp.SendN32fTerminate | src/sepp_app/sepp_app.cpp:264-299 | The termination against any peer |
| SeppApp.SeppApp.Stop | src/sepp_app/sepp_app.cpp:503-511 | Terminates an existing context |
| SeppApp.SeppApp.HandleNfServiceRequest | src/sepp_app/sepp_app.cpp:328-355 | Dispatch by the configured mode; in PRINS mode the forwarder is in PRINS mode too |
| SeppApp.SeppApp.HandleNfServiceRequestPrins | src/sepp_app/sepp_app.cpp:358-430 | The consumer end of the tunnel, with all its failure branches |
| SeppApp.ServeSbi | src/api-server/sepp-http2-sbi-server.cpp:148-212 | The generic handler in every case: missing authority, no remote SEPP, the tunnel with the collected body and full path, or the direct path |
| SeppApp.HandshakeIsRun | src/sepp_app/sepp_app.cpp:104-230 | Against a P-SEPP in any state, with the loss of any message or none, the capability exchange of the application object is a run of the two-party machine |
| SeppApp.StopIsRun | src/sepp_app/sepp_app.cpp:264-299 | The same for the termination |
| SeppApp.OnlyTlsSendsNull | src/sepp_app/sepp_n32f_forward.cpp:250-251 | A valid application object makes a null request body exactly when it is configured for TLS |
| Telescopic.RoundTrip | src/sepp_app/sepp_telescopic_fqdn_mapping.cpp:32-52 | For every FQDN of an allowed function: both directions succeed exactly for roaming partners, and resolving its label gives the FQDN with the MNC padded |
| Telescopic.LabelResolves | src/sepp_app/sepp_telescopic_fqdn_mapping.cpp:155-190 | For digit MNCs, letter by letter: a label of a mapped function and a partner resolves to the FQDN with an MNC of two digits behind a zero and any other as it is, of the same value; every other label to nothing |
| Telescopic.FqdnIsLabelled | src/sepp_app/sepp_telescopic_fqdn_mapping.cpp:111-152 | Letter by letter: an FQDN of a mapped function and a partner gets its label, every other one none |
| Telescopic.NothingIsMapped | src/sepp_app/sepp_telescopic_fqdn_mapping.cpp:40-52 | Both arguments or none, an FQDN without .5gc. or another ending, a label of no mapped function: not mapped |
| Telescopic.LettersAreNotRead | src/sepp_app/sepp_telescopic_fqdn_mapping.cpp:83-108 | The three letters before the MNC are skipped unread; where .mcc starts within them the MNC runs to the end of the text |
| Telescopic.ShortPlmnThrows | src/sepp_app/sepp_telescopic_fqdn_mapping.cpp:164-169 | A partner PLMN of less than three characters ends in the exception of substr |
| Telescopic.LabelsAreDistinct | src/sepp_app/sepp_telescopic_fqdn_mapping.cpp:149-179 | Distinct functions or PLMNs have distinct labels; two labels resolve alike exactly when only the padding of the MNC differs |
| Telescopic.ResolveIsStableIff | src/sepp_app/sepp_telescopic_fqdn_mapping.cpp:155-190 | For any partners and any label that resolves: relabelling the result succeeds exactly when the PLMN read from it is a partner's; unless the MNC holds .mcc this is the padded PLMN, and the new label resolves to the same FQDN |
| Telescopic.ResolveIsStable | src/sepp_app/sepp_telescopic_fqdn_mapping.cpp:12-29 | With three-character partner MCCs and partner MNCs without .mcc it always does |
| Telescopic.ParseOfPrinted | src/sepp_app/sepp_telescopic_fqdn_mapping.cpp:71-108 | Parsing a printed FQDN gives its function and, for any MNC whatever, the PLMN cut at the first .mcc |
| Telescopic.LabelOfFqdn | src/sepp_app/sepp_telescopic_fqdn_mapping.cpp:111-146 | Label of a printed FQDN for any codes, or none for a PLMN that is not a partner |
| Telescopic.FqdnOfLabel | src/sepp_app/sepp_telescopic_fqdn_mapping.cpp:155-190 | FQDN of a label, or none for a PLMN that is not a partner |
| Telescopic.TelescopicFqdnMapping.IsRoamingPartner | src/sepp_app/sepp_telescopic_fqdn_mapping.cpp:12-29 | The loop finds a partner exactly when some MCC and MNC are the PLMN, or the MNC has two characters and MCC, zero and MNC are |
| Telescopic.TelescopicFqdnMapping.ComputeFqdnToMapping | src/sepp_app/sepp_telescopic_fqdn_mapping.cpp:111-146 | The mapping, for every text |
| Telescopic.TelescopicFqdnMapping.ComputeMappingToFqdn | src/sepp_app/sepp_telescopic_fqdn_mapping.cpp:155-198 | The resolution, for every text, including the exception for PLMNs shorter than three |
| Telescopic.TelescopicFqdnMapping.GetTelescopicMapping | src/sepp_app/sepp_telescopic_fqdn_mapping.cpp:32-52 | Exactly one of FQDN and label must be given; the matching direction is taken |
| Heartbeat.RunIsInstants | src/sepp_app/task_manager.cpp:34-45 | Every run in closed form: the instants start + k period inside the window, in order, cut off after the first failing heartbeat; whether ticking begins before or after the start |
| Heartbeat.ConnectedIff | src/sepp_app/sepp_nrf.cpp:150-160 | The heartbeat is still connected exactly when every one sent was answered 200 or 204, and then every instant has been served |
| Heartbeat.Spacing | src/sepp_app/sepp_event.cpp:17-20 | While heartbeats succeed: the exact number of firings, one period apart, at exactly the ticks the filter passes |
| Heartbeat.OneInEachWindow | src/sepp_app/sepp_event.cpp:17-20 | Every window of `period` ticks at or after the start contains exactly one firing tick |
| Heartbeat.StopsForGood | src/sepp_app/sepp_nrf.cpp:150-160 | After the first response other than 200 and 204 nothing more is sent |
| Heartbeat.FiresIff | src/sepp_app/sepp_event.cpp:18-18 | The modulo filter passes exactly the instants start + k period |
| Heartbeat.FiresPeriodically | src/sepp_app/sepp_event.cpp:17-20 | The filter in its own words: nothing before the start, the start, nothing until one period later, and the same again after every period |
| Heartbeat.TaskManager.ManageTasks | src/sepp_app/task_manager.cpp:34-45 | The first n turns of the tick loop do what the run specification says, for every n |
| Heartbeat.SeppEvent.SubscribeTaskNfHeartbeat | src/sepp_app/sepp_event.cpp:9-22 | A slot with the period and start given is connected under a new connection; the slots already connected stay |
| Heartbeat.SeppNrf.StartEventNfHeartbeat | src/sepp_app/sepp_nrf.cpp:117-127 | Period 10 s, first instant one period from now, under a connection that is remembered |
| Heartbeat.SeppNrf.TriggerNfHeartbeatProcedure | src/sepp_app/sepp_nrf.cpp:130-161 | Disconnects the remembered connection, and no other, on a response that is neither 200 nor 204 |
| Pcap.MergeConserves | scripts/test/capture_pcap.py:54-65 | For well-formed files: reading the merged file back gives a stable sort of all records of all files, hence all of them and nothing else; exact length; header of the first |
| PcapFiles.MergeOfCaptures | scripts/test/capture_pcap.py:54-65 | Of files written from captured packets the merge is the file written from all of them, each once, by second, microsecond, file and position, under the first header |
| PcapFiles.PacketsAreRead | scripts/test/capture_pcap.py:59-62 | Written packets are framed off as they were written, under their second and microsecond |
| Pcap.RereadIff | scripts/test/capture_pcap.py:54-65 | For every choice of files: the merged file reads back as the sorted records exactly when there is no record, or the first non-empty file has its whole header and every record cut short sorts behind all others |
| Pcap.CutRecordMisreads | scripts/test/capture_pcap.py:54-65 | The case at two files: a capture stopped inside its record, merged with another, does not read back |
| Pcap.CutGoLastIff | scripts/test/capture_pcap.py:64-64 | On the records read: none but the last of the sorted list is cut exactly when every cut record sorts behind all others |
| Pcap.ReframeIff | scripts/test/capture_pcap.py:59-62 | Framing a concatenation of framed records gives them back exactly when none but the last is cut short |
| Pcap.ReadRecords | scripts/test/capture_pcap.py:58-62 | The framing loop computes the records and terminates |
| Pcap.ComputeMerge | scripts/test/capture_pcap.py:54-65 | The merge loops, with the error when there is no file |
| StableSort.SortIsStable | scripts/test/capture_pcap.py:64-64 | The sort orders, keeps every item and keeps items of one key in order |
| StableSort.SortIsTheStableSort | scripts/test/capture_pcap.py:64-64 | Nothing else is a stable sort of the input: modelling the library's sort by insertion loses nothing |
| StableSort.SortInOrder | scripts/test/capture_pcap.py:64-64 | What comes in some order comes out by key, and within one key in that order |
| Splice.SplicingIsSimultaneous | scripts/test/align_sepp_interfaces.py:18-18 | Splicing disjoint non-empty spans in descending order equals replacing all of them at once; exact length |
| Splice.EditsReplacePieces | scripts/test/align_sepp_interfaces.py:13-18 | In pieces of text: from the collected (start, end, replacement) tuples, in whatever order, each piece is replaced by its replacement and all between them is kept |
| Splice.CollectionOrderIsIrrelevant | scripts/test/align_sepp_interfaces.py:13-18 | The order in which the edits were collected does not matter |
| Splice.ApplyEdits | scripts/test/align_sepp_interfaces.py:18-18 | The loop applies the replacements one after the other |

## Left out

- Jose.BioDecode: on texts outside section 4 of RFC 4648 it reports an error where OpenSSL may trim white space or read a stray padding character as zero; the unused bits of the last character are ignored as in the library.
- Jose.Base64UrlDecode: off the base64 grammar it gives the empty text, where OpenSSL may return what it had decoded before the error.
- Jose.Aead: AES-GCM itself is not modelled, nor is any property of opening under another key.
- N32fForward.Outbound: the headers that prepare_json_request sets are a parameter, because the HTTP client is not part of this model; the PLMN extracted from the path is computed in QueryString only, because the handler does not use it.
- N32fForward.N32fForward.HandleN32fProcessPost: validation by the generated model class in the NBI server (src/api-server/sepp-http2-nbi-server.cpp:268-282) is not modelled; it can only refuse a message.
- QueryString.ReadPlmn: parsing the decoded value as JSON is a parameter.
- TwoParty.Next: a message is delivered at most once and each exchange ends before the next begins, as with the blocking HTTP client.
- SeppApp.SeppApp: models the configuration with NRF registration, in which the handshake and forwarder objects exist; the null checks of the other configuration are not modelled.
- SeppApp.ServeSbi: the TLS path (src/sepp_app/sepp_app.cpp:433-480) is a parameter; so is what it returns.
- Heartbeat.TaskManager.ManageTasks: runs the first n turns of the endless loop, for every n; times are unbounded where the code has 64 bits of milliseconds; no slot but the heartbeat's is connected, as in the program.
- Splice.Descending: equal spans, which disjoint edits do not have, would be ordered by their replacement text in the script.
- The TLS endpoint handle_n32f_forward (src/sepp_app/sepp_n32f_forward.cpp:100-140), which always sends GET with an empty body.
- handle_n32f_error and handle_n32f_process_options, which answer constants and change nothing.
- HTTP servers and clients, TLS contexts, threads, timers, logging, configuration files, the NF profile and the generated 3GPP model classes.
- The telescopic handler of the SBI server, which discards the computed mapping and echoes its inputs.
- Collecting the edits from the YAML tree (scripts/test/align_sepp_interfaces.py:13-17); any collection of disjoint spans is covered.
