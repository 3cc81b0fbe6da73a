/** src/sepp_app/sepp_n32f_forward.cpp: url_decode and extract_plmn_from_path. */
module QueryString {
  import opened Octets

  // ---------------------------------------------------------------- url_decode

  /** Value of a hexadecimal digit, -1 for any other character. */
  function HexValue(c: Octet): (v: int)
    ensures -1 <= v < 16
  {
    if '0' <= c <= '9' then c as int - '0' as int
    else if 'a' <= c <= 'f' then c as int - 'a' as int + 10
    else if 'A' <= c <= 'F' then c as int - 'A' as int + 10
    else -1
  }

  /** A complete escape stands at position i. */
  predicate EscapeAt(s: Text, i: nat) {
    i + 2 < |s| && s[i] == '%' && HexValue(s[i + 1]) != -1 && HexValue(s[i + 2]) != -1
  }

  function EscapedByte(s: Text, i: nat): Octet
    requires EscapeAt(s, i)
  {
    (HexValue(s[i + 1]) * 16 + HexValue(s[i + 2])) as char
  }

  function PlusToSpace(c: Octet): Octet {
    if c == '+' then ' ' else c
  }

  function UrlDecode(s: Text): (r: Text)
    ensures |r| <= |s|
  {
    if s == "" then ""
    else if EscapeAt(s, 0) then [EscapedByte(s, 0)] + UrlDecode(s[3..])
    else [PlusToSpace(s[0])] + UrlDecode(s[1..])
  }

  lemma DecodeStep(s: Text, i: nat)
    requires i < |s|
    ensures UrlDecode(s[i..]) == if EscapeAt(s, i) then [EscapedByte(s, i)] + UrlDecode(s[i + 3..])
                                 else [PlusToSpace(s[i])] + UrlDecode(s[i + 1..])
  {
    assert EscapeAt(s[i..], 0) == EscapeAt(s, i);
    if EscapeAt(s, i) {
      assert s[i..][3..] == s[i + 3..];
    } else {
      assert s[i..][1..] == s[i + 1..];
    }
  }

  method ComputeUrlDecode(input: Text) returns (out: Text)
    ensures out == UrlDecode(input)
  {
    out := "";
    var i := 0;
    while i < |input|
      invariant 0 <= i <= |input|
      invariant out + UrlDecode(input[i..]) == UrlDecode(input)
    {
      DecodeStep(input, i);
      if input[i] == '%' && i + 2 < |input| {
        var hi, lo := HexValue(input[i + 1]), HexValue(input[i + 2]);
        if hi != -1 && lo != -1 {
          assert EscapeAt(input, i);
          AppendOne(out, EscapedByte(input, i), UrlDecode(input[i + 3..]));
          out := out + [(hi * 16 + lo) as char];
          i := i + 3;
          continue;
        }
      }
      AppendOne(out, PlusToSpace(input[i]), UrlDecode(input[i + 1..]));
      out := out + [if input[i] == '+' then ' ' else input[i]];
      i := i + 1;
    }
  }

  /** c is a hexadecimal digit, in either case, for n. */
  predicate IsHex(c: Octet, n: nat) {
    (n < 10 && c as int == '0' as int + n)
    || (10 <= n < 16 && (c as int == 'a' as int + (n - 10) || c as int == 'A' as int + (n - 10)))
  }

  lemma HexIff(c: Octet, n: nat)
    ensures HexValue(c) == n <==> IsHex(c, n)
  {
  }

  /** e is a percent-encoding of s (section 2.1 of RFC 3986): each byte stands for itself or is written as '%'
      and its two hexadecimal digits, a space possibly as '+', and no '%' or '+' stands for itself. */
  predicate Encodes(e: Text, s: Text) {
    if s == "" then e == ""
    else if e != "" && e[0] == '%' then
      |e| >= 3 && IsHex(e[1], s[0] as int / 16) && IsHex(e[2], s[0] as int % 16) && Encodes(e[3..], s[1..])
    else e != "" && s[0] == (if e[0] == '+' then ' ' else e[0]) && Encodes(e[1..], s[1..])
  }

  /** Read from the left, every '%' starts a complete escape. */
  predicate NoBareEscape(e: Text) {
    e == "" || if EscapeAt(e, 0) then NoBareEscape(e[3..]) else e[0] != '%' && NoBareEscape(e[1..])
  }

  /** The two digits of a byte are those of its escape. */
  lemma FirstEscape(e: Text, c: Octet)
    ensures EscapeAt(e, 0) && EscapedByte(e, 0) == c
       <==> |e| >= 3 && e[0] == '%' && IsHex(e[1], c as int / 16) && IsHex(e[2], c as int % 16)
  {
    if |e| >= 3 {
      HexIff(e[1], c as int / 16);
      HexIff(e[2], c as int % 16);
    }
  }

  /** Decoding finds s in e exactly when e is an encoding of s, for every e without a bare '%'. */
  lemma {:induction false} DecodesIffEncodes(e: Text, s: Text)
    ensures Encodes(e, s) <==> NoBareEscape(e) && UrlDecode(e) == s
  {
    if s == "" || e == "" {
    } else {
      var n := if EscapeAt(e, 0) then 3 else 1;
      DecodesIffEncodes(e[n..], s[1..]);
      FirstEscape(e, s[0]);
      assert s == [s[0]] + s[1..];
    }
  }

  function HexDigit(n: int): (c: Octet)
    requires 0 <= n < 16
    ensures HexValue(c) == n && c != '%' && c != '&'
  {
    if n < 10 then ('0' as int + n) as char else ('A' as int + (n - 10)) as char
  }

  predicate Unreserved(c: Octet) {
    'A' <= c <= 'Z' || 'a' <= c <= 'z' || '0' <= c <= '9' || c == '-' || c == '.' || c == '_' || c == '~'
  }

  /** The encoder of RFC 3986: unreserved characters as they are, all other bytes escaped. */
  function PercentEncode(s: Text): (e: Text)
    ensures forall i :: 0 <= i < |e| ==> e[i] != '&'
  {
    if s == "" then ""
    else
      (if Unreserved(s[0]) then [s[0]]
       else ['%', HexDigit(s[0] as int / 16), HexDigit(s[0] as int % 16)]) + PercentEncode(s[1..])
  }

  /** url_decode undoes percent-encoding for every byte string. */
  lemma {:induction false} DecodeUndoesEncode(s: Text)
    ensures UrlDecode(PercentEncode(s)) == s
  {
    if s == "" {
    } else {
      DecodeUndoesEncode(s[1..]);
      var e := PercentEncode(s);
      var n := if Unreserved(s[0]) then 1 else 3;
      assert e[n..] == PercentEncode(s[1..]);
      assert s == [s[0]] + s[1..];
    }
  }

  predicate IsHexDigit(c: Octet) {
    '0' <= c <= '9' || 'a' <= c <= 'f' || 'A' <= c <= 'F'
  }

  /** A '%' and two hexadecimal digits stand at i. */
  predicate HexEscape(s: Text, i: nat) {
    i + 2 < |s| && s[i] == '%' && IsHexDigit(s[i + 1]) && IsHexDigit(s[i + 2])
  }

  lemma HexEscapeIff(s: Text)
    ensures EscapeAt(s, 0) <==> HexEscape(s, 0)
  {
  }

  /** Only texts without '+' and without a complete escape are copied through unchanged. */
  lemma {:induction false} UnchangedIff(s: Text)
    ensures UrlDecode(s) == s
       <==> '+' !in s
            && forall i :: 0 <= i < |s| ==> !HexEscape(s, i)
  {
    if s == "" {
    } else {
      UnchangedIff(s[1..]);
      HexEscapeIff(s);
      assert s == [s[0]] + s[1..];
      assert forall i :: 0 <= i < |s| - 1 ==> HexEscape(s[1..], i) == HexEscape(s, i + 1);
      assert forall i :: 0 < i < |s| ==> HexEscape(s, i) == HexEscape(s[1..], i - 1);
    }
  }

  // ---------------------------------------------------------------- extract_plmn_from_path

  function SplitOn(s: Text, c: Octet): (pieces: seq<Text>)
    ensures |pieces| > 0
  {
    var k := IndexOf(s, c);
    if k == |s| then [s] else [s[..k]] + SplitOn(s[k + 1..], c)
  }

  function Join(pieces: seq<Text>, c: Octet): Text
    requires |pieces| > 0
  {
    if |pieces| == 1 then pieces[0] else pieces[0] + [c] + Join(pieces[1..], c)
  }

  predicate FreeOf(pieces: seq<Text>, c: Octet) {
    forall i :: 0 <= i < |pieces| ==> c !in pieces[i]
  }

  lemma SplitStep(s: Text, c: Octet, t: Text)
    requires c !in s
    ensures SplitOn(s + [c] + t, c) == [s] + SplitOn(t, c)
  {
    IndexOfSplit(s, c, t);
    var u := s + [c] + t;
    assert u[..|s|] == s && u[|s| + 1..] == t;
  }

  lemma {:induction false} SplitJoin(pieces: seq<Text>, c: Octet)
    requires |pieces| > 0 && FreeOf(pieces, c)
    ensures SplitOn(Join(pieces, c), c) == pieces
  {
    if |pieces| == 1 {
      assert IndexOf(pieces[0], c) == |pieces[0]|;
    } else {
      SplitStep(pieces[0], c, Join(pieces[1..], c));
      SplitJoin(pieces[1..], c);
    }
  }

  const PLMN_ID: Text := "plmn-id"
  const TARGET_PLMN_ID: Text := "target-plmn-id"

  predicate IsPlmnKey(key: Text) {
    key == PLMN_ID || key == TARGET_PLMN_ID
  }

  /** A parameter with an '=' whose key names a PLMN. */
  predicate IsPlmnParam(param: Text) {
    var eq := IndexOf(param, '=');
    eq < |param| && IsPlmnKey(param[..eq])
  }

  function ParamValue(param: Text): Text
    requires IsPlmnParam(param)
  {
    param[IndexOf(param, '=') + 1..]
  }

  /** Index of the first PLMN parameter, |params| when there is none. */
  function FirstPlmnParam(params: seq<Text>): (i: nat)
    ensures i <= |params|
    ensures i < |params| ==> IsPlmnParam(params[i])
    ensures forall j :: 0 <= j < i ==> !IsPlmnParam(params[j])
  {
    if params == [] || IsPlmnParam(params[0]) then 0 else 1 + FirstPlmnParam(params[1..])
  }

  datatype Plmn = Plmn(mcc: Text, mnc: Text)

  /** What parsing the value as JSON and reading "mcc" and "mnc" does: both read, or an exception,
      which may come after mcc has already been assigned. */
  datatype JsonOutcome = Read(mcc: Text, mnc: Text) | Threw(mccAssigned: Option<Text>)

  type JsonReader = Text -> JsonOutcome

  const MCC_MARK: Text := "\"mcc\":\""
  const MNC_MARK: Text := "\"mnc\":\""

  function Min(a: nat, b: nat): nat { if a < b then a else b }

  /** The try block and, after an exception, the textual fallback. */
  function ReadPlmn(json: JsonReader, value: Text, was: Plmn): Plmn {
    match json(value)
    case Read(mcc, mnc) => Plmn(mcc, mnc)
    case Threw(early) =>
      var start := if early.Some? then was.(mcc := early.value) else was;
      var withMcc := match Find(value, MCC_MARK)
        case None => start
        case Some(p) => start.(mcc := value[p + 7..Min(p + 10, |value|)]);
      match Find(value, MNC_MARK)
      case None => withMcc
      case Some(p) =>
        match FindFrom(value, "\"", p + 7)
        case None => withMcc
        case Some(end) => withMcc.(mnc := value[p + 7..end])
  }

  /** The value of the first PLMN parameter, None when there is none. */
  function PlmnValue(params: seq<Text>): Option<Text> {
    var i := FirstPlmnParam(params);
    if i == |params| then None else Some(ParamValue(params[i]))
  }

  function PlmnValueOfQuery(query: Text): Option<Text> {
    PlmnValue(SplitOn(query, '&'))
  }

  /** The value that decides: split the text after the first '?' on '&', take the first PLMN parameter. */
  function PlmnValueOfPath(path: Text): Option<Text> {
    var q := IndexOf(path, '?');
    if q == |path| then None else PlmnValueOfQuery(path[q + 1..])
  }

  function PlmnOfPath(json: JsonReader, path: Text, was: Plmn): Plmn {
    match PlmnValueOfPath(path)
    case None => was
    case Some(value) => ReadPlmn(json, UrlDecode(value), was)
  }

  lemma PlmnValueStep(param: Text, rest: seq<Text>)
    ensures PlmnValue([param] + rest) == if IsPlmnParam(param) then Some(ParamValue(param)) else PlmnValue(rest)
  {
    assert ([param] + rest)[1..] == rest;
  }

  /** The search loop as a recursion over the shrinking view of the query. */
  function Scan(query: Text): Option<Text> {
    var amp := IndexOf(query, '&');
    var param := query[..amp];
    if IsPlmnParam(param) then Some(ParamValue(param))
    else if amp == |query| then None
    else Scan(query[amp + 1..])
  }

  lemma {:induction false} ScanFindsFirst(query: Text)
    ensures Scan(query) == PlmnValueOfQuery(query)
  {
    var amp := IndexOf(query, '&');
    var rest := if amp < |query| then SplitOn(query[amp + 1..], '&') else [];
    if amp == |query| {
      assert query[..amp] == query && [query] + rest == [query];
    }
    assert SplitOn(query, '&') == [query[..amp]] + rest;
    PlmnValueStep(query[..amp], rest);
    if amp < |query| {
      ScanFindsFirst(query[amp + 1..]);
    }
  }

  /** The search loop; the value found is returned undecoded. */
  method ScanQuery(query: Text) returns (value: Option<Text>)
    ensures value == Scan(query)
  {
    var view := query;
    while view != ""
      invariant Scan(view) == Scan(query)
      decreases |view|
    {
      var amp := IndexOf(view, '&');
      var param := view[..amp];
      if IsPlmnParam(param) {
        return Some(ParamValue(param));
      }
      if amp == |view| {
        return None;
      }
      view := view[amp + 1..];
    }
    return None;
  }

  method SearchQuery(query: Text) returns (value: Option<Text>)
    ensures value == PlmnValueOfQuery(query)
  {
    ScanFindsFirst(query);
    value := ScanQuery(query);
  }

  method SelectPlmnValue(path: Text) returns (value: Option<Text>)
    ensures value == PlmnValueOfPath(path)
  {
    var pos := IndexOf(path, '?');
    if pos == |path| {
      return None;
    }
    value := SearchQuery(path[pos + 1..]);
  }

  method ExtractPlmn(json: JsonReader, path: Text, was: Plmn) returns (plmn: Plmn)
    ensures plmn == PlmnOfPath(json, path, was)
  {
    var value := SelectPlmnValue(path);
    if value.None? {
      return was;
    }
    var decoded := ComputeUrlDecode(value.value);
    plmn := ReadPlmn(json, decoded, was);
  }

  lemma PlmnParamParts(key: Text, value: Text)
    requires IsPlmnKey(key)
    ensures IsPlmnParam(key + "=" + value) && ParamValue(key + "=" + value) == value
  {
    var param := key + "=" + value;
    assert '=' !in key;
    IndexOfSplit(key, '=', value);
    assert param[..|key|] == key && param[|key| + 1..] == value;
  }

  lemma {:induction false} FirstPlmnParamAt(before: seq<Text>, param: Text, after: seq<Text>)
    requires forall i :: 0 <= i < |before| ==> !IsPlmnParam(before[i])
    requires IsPlmnParam(param)
    ensures PlmnValue(before + [param] + after) == Some(ParamValue(param))
  {
    var params := before + [param] + after;
    assert params[|before|] == param;
    assert forall i :: 0 <= i < |before| ==> params[i] == before[i];
  }

  lemma QueryAfterMark(path: Text, query: Text)
    requires '?' !in path
    ensures PlmnValueOfPath(path + "?" + query) == PlmnValueOfQuery(query)
  {
    IndexOfSplit(path, '?', query);
    assert (path + "?" + query)[|path| + 1..] == query;
  }

  lemma FreeOfJoined(before: seq<Text>, piece: Text, after: seq<Text>, c: Octet)
    requires FreeOf(before, c) && c !in piece && FreeOf(after, c)
    ensures FreeOf(before + [piece] + after, c)
  {
  }

  lemma EncodedValueIsSelected(path: Text, before: seq<Text>, param: Text, after: seq<Text>)
    requires '?' !in path && '&' !in param && IsPlmnParam(param)
    requires FreeOf(before, '&') && FreeOf(after, '&')
    requires forall i :: 0 <= i < |before| ==> !IsPlmnParam(before[i])
    ensures PlmnValueOfPath(path + "?" + Join(before + [param] + after, '&')) == Some(ParamValue(param))
  {
    var params := before + [param] + after;
    FirstPlmnParamAt(before, param, after);
    FreeOfJoined(before, param, after, '&');
    SplitJoin(params, '&');
    QueryAfterMark(path, Join(params, '&'));
  }

  /** A parameter that gives a PLMN. */
  predicate GivesPlmn(param: Text) {
    "plmn-id=" <= param || "target-plmn-id=" <= param
  }

  lemma GivesPlmnIff(param: Text)
    ensures GivesPlmn(param) <==> IsPlmnParam(param)
  {
    KeyIff(param, PLMN_ID);
    KeyIff(param, TARGET_PLMN_ID);
    assert PLMN_ID + "=" == "plmn-id=" && TARGET_PLMN_ID + "=" == "target-plmn-id=";
  }

  lemma {:induction false} KeyIff(param: Text, key: Text)
    requires '=' !in key
    ensures var eq := IndexOf(param, '=');
            key + "=" <= param <==> eq < |param| && param[..eq] == key
  {
    var eq, start: Text := IndexOf(param, '='), key + "=";
    if start <= param {
      assert param[|key|] == start[|key|] == '=';
      assert forall i :: 0 <= i < |key| ==> param[i] == start[i] == key[i] && key[i] != '=';
      assert eq == |key|;
    }
    if eq < |param| && param[..eq] == key {
      assert param[..eq + 1] == start;
    }
  }

  /** The first PLMN parameter of a query is read back as it was encoded, whatever surrounds it; what the JSON
      reader finds in it is taken over. */
  lemma EncodedPlmnIsRead(json: JsonReader, path: Text, before: seq<Text>, key: Text, value: Text,
                          after: seq<Text>, was: Plmn)
    requires '?' !in path && key in {"plmn-id", "target-plmn-id"}
    requires FreeOf(before, '&') && FreeOf(after, '&')
    requires forall i :: 0 <= i < |before| ==> !GivesPlmn(before[i])
    ensures var query := Join(before + [key + "=" + PercentEncode(value)] + after, '&');
            var read := PlmnOfPath(json, path + "?" + query, was);
            && read == ReadPlmn(json, value, was)
            && (json(value).Read? ==> read.mcc == json(value).mcc && read.mnc == json(value).mnc)
  {
    forall i | 0 <= i < |before| ensures !IsPlmnParam(before[i]) {
      GivesPlmnIff(before[i]);
    }
    PlmnParamParts(key, PercentEncode(value));
    NoSeparatorIn(key, PercentEncode(value));
    EncodedValueIsSelected(path, before, key + "=" + PercentEncode(value), after);
    DecodeUndoesEncode(value);
  }

  /** Without a PLMN parameter behind a question mark nothing is assigned. */
  lemma NothingToRead(json: JsonReader, path: Text, params: seq<Text>, was: Plmn)
    requires '?' !in path && |params| > 0 && FreeOf(params, '&')
    requires forall i :: 0 <= i < |params| ==> !GivesPlmn(params[i])
    ensures PlmnOfPath(json, path, was) == was
    ensures PlmnOfPath(json, path + "?" + Join(params, '&'), was) == was
  {
    forall i | 0 <= i < |params| ensures !IsPlmnParam(params[i]) {
      GivesPlmnIff(params[i]);
    }
    assert IndexOf(path, '?') == |path|;
    SplitJoin(params, '&');
    QueryAfterMark(path, Join(params, '&'));
  }

  lemma NoSeparatorIn(key: Text, encoded: Text)
    requires IsPlmnKey(key) && '&' !in encoded
    ensures '&' !in key + "=" + encoded
  {
  }

  /** The start of a PLMN object without white space. */
  function CompactPlmn(mcc: Text, mnc: Text): Text {
    "{\"mcc\":\"" + mcc + "\",\"mnc\":\"" + mnc + "\""
  }

  lemma MccMarkIsFirst(mcc: Text, mnc: Text, rest: Text)
    requires |mcc| == 3
    ensures var value := CompactPlmn(mcc, mnc) + rest;
            Find(value, MCC_MARK) == Some(1) && |value| > 11 && value[8..11] == mcc
  {
    var value := CompactPlmn(mcc, mnc) + rest;
    var afterMcc := mcc + "\"," + MNC_MARK + mnc + "\"" + rest;
    assert value == "{" + MCC_MARK + afterMcc;
    FindAtFirstChar("{", MCC_MARK, afterMcc);
  }

  lemma MncMarkIsFound(mcc: Text, mnc: Text, rest: Text)
    requires |mcc| == 3 && AllDigits(mcc)
    ensures var value := CompactPlmn(mcc, mnc) + rest;
            && Find(value, MNC_MARK) == Some(13)
            && 20 + |mnc| < |value| && value[20..20 + |mnc|] == mnc && value[20 + |mnc|] == '\"'
  {
    var value := CompactPlmn(mcc, mnc) + rest;
    var prefix := "{" + MCC_MARK + mcc + "\",";
    assert value == prefix + MNC_MARK + (mnc + "\"" + rest);
    FindByThirdLetter(prefix, MNC_MARK, mnc + "\"" + rest);
  }

  /** When the JSON reader throws, whatever it has assigned before, the fallback still reads both codes of a
      compact PLMN object, whatever follows them. */
  lemma FallbackReadsCompactPlmn(json: JsonReader, mcc: Text, mnc: Text, rest: Text, was: Plmn)
    requires |mcc| == 3 && AllDigits(mcc) && AllDigits(mnc)
    ensures var value := CompactPlmn(mcc, mnc) + rest;
            json(value).Threw? ==> ReadPlmn(json, value, was) == Plmn(mcc, mnc)
  {
    MccMarkIsFirst(mcc, mnc, rest);
    MncMarkIsFound(mcc, mnc, rest);
    FindQuote(CompactPlmn(mcc, mnc) + rest, 20, mnc);
  }

  /** Where neither code is marked, the fallback leaves what the reader has assigned, or what was there. */
  lemma FallbackKeeps(json: JsonReader, value: Text, was: Plmn)
    requires json(value).Threw?
    requires forall i: nat :: !OccursAt(value, "\"mcc\":\"", i) && !OccursAt(value, "\"mnc\":\"", i)
    ensures ReadPlmn(json, value, was).mnc == was.mnc
    ensures ReadPlmn(json, value, was).mcc
         == if json(value).mccAssigned.Some? then json(value).mccAssigned.value else was.mcc
  {
    assert MCC_MARK == "\"mcc\":\"" && MNC_MARK == "\"mnc\":\"";
  }

  /** A pattern whose third character is absent from the text before it, and is neither of its first two,
      is found exactly where it was put. */
  lemma FindByThirdLetter(prefix: Text, pattern: Text, rest: Text)
    requires |pattern| >= 3 && pattern[2] !in prefix && pattern[2] != pattern[0] && pattern[2] != pattern[1]
    ensures Find(prefix + pattern + rest, pattern) == Some(|prefix|)
  {
    var s := prefix + pattern + rest;
    assert s[|prefix|..|prefix| + |pattern|] == pattern;
    assert OccursAt(s, pattern, |prefix|);
    assert forall j :: 1 < j <= |prefix| + 1 ==> s[j] != pattern[2];
  }

  lemma FindQuote(s: Text, at: nat, digits: Text)
    requires at + |digits| < |s| && s[at..at + |digits|] == digits && AllDigits(digits)
    requires s[at + |digits|] == '\"'
    ensures FindFrom(s, "\"", at) == Some(at + |digits|)
  {
    var end := at + |digits|;
    assert s[end..end + 1] == "\"";
    assert OccursAt(s, "\"", end);
    forall i | at <= i < end ensures !OccursAt(s, "\"", i) {
      assert s[i] == digits[i - at];
    }
  }
}
