/** The text form of an HTTP message head that travels as the AAD of the N32-f envelope:
    the printer inside build_reformatted_data and the parser parse_aad of
    src/sepp_app/sepp_n32f_forward.cpp. */
module AadCodec {
  import opened Octets

  const CRLF: Text := "\r\n"
  const AUTHORITY: Text := "authority"
  const API_ROOT: Text := "3gpp-sbi-target-apiroot"
  const HTTP: Text := "http://"
  const HTTPS: Text := "https://"

  /** The api root with a plain http scheme. */
  function Normalize(root: Text): Text {
    if HTTPS <= root then HTTP + root[8..]
    else if HTTP <= root then root
    else HTTP + root
  }

  // ---------------------------------------------------------------- printer

  function RequestLine(first: Text, path: Text): Text {
    first + " " + path + " HTTP/2.0"
  }

  function HeaderLine(name: Text, value: Text): Text {
    name + ": " + value
  }

  function AuthorityLines(authority: Text): seq<Text> {
    if authority == "" then []
    else [HeaderLine(AUTHORITY, authority), HeaderLine(API_ROOT, Normalize(authority))]
  }

  /** No CR and no LF. */
  predicate Clean(s: Text) {
    '\r' !in s && '\n' !in s
  }

  type Headers = map<Text, Text>

  /** The line of a header; none when there is a CR or LF in it. */
  function LineFor(name: Text, value: Text): seq<Text> {
    if Clean(name) && Clean(value) then [HeaderLine(name, value)] else []
  }

  /** The lines of the headers, in the given order. */
  function HeaderLines(order: seq<Text>, headers: Headers): seq<Text>
    requires forall i :: 0 <= i < |order| ==> order[i] in headers
  {
    if order == [] then [] else LineFor(order[0], headers[order[0]]) + HeaderLines(order[1..], headers)
  }

  function Unlines(lines: seq<Text>): Text {
    if lines == [] then "" else lines[0] + CRLF + Unlines(lines[1..])
  }

  function AadLines(first: Text, path: Text, authority: Text, order: seq<Text>, headers: Headers): seq<Text>
    requires forall i :: 0 <= i < |order| ==> order[i] in headers
  {
    [RequestLine(first, path)] + AuthorityLines(authority) + HeaderLines(order, headers)
  }

  function PrintAad(first: Text, path: Text, authority: Text, order: seq<Text>, headers: Headers): Text
    requires forall i :: 0 <= i < |order| ==> order[i] in headers
  {
    Unlines(AadLines(first, path, authority, order, headers))
  }

  /** An order in which an unordered_map may be walked: every key once. */
  ghost predicate Enumerates(order: seq<Text>, headers: Headers) {
    && (forall i :: 0 <= i < |order| ==> order[i] in headers)
    && (forall i, j :: 0 <= i < j < |order| ==> order[i] != order[j])
    && (forall k :: k in headers ==> k in order)
  }

  // ---------------------------------------------------------------- parser

  /** The out-parameters of parse_aad; `first` is the method of a request, the status of a response. */
  datatype Head = Head(first: Text, path: Text, authority: Text, headers: Headers)

  const EMPTY_HEAD := Head("", "", "", map[])

  predicate IsSpace(c: Octet) {
    c == ' ' || c == '\t' || c == '\n' || c == '\U{0B}' || c == '\U{0C}' || c == '\r'
  }

  function SkipSpace(s: Text): (r: Text)
    ensures r == "" || !IsSpace(r[0])
  {
    if s == "" || !IsSpace(s[0]) then s else SkipSpace(s[1..])
  }

  /** The six characters of isspace: the blank, and from the tab to the carriage return. */
  predicate IsWhite(c: Octet) {
    c == ' ' || '\t' <= c <= '\r'
  }

  predicate AllSpace(s: Text) {
    forall i :: 0 <= i < |s| ==> IsWhite(s[i])
  }

  predicate SpaceFree(s: Text) {
    forall i :: 0 <= i < |s| ==> !IsWhite(s[i])
  }

  lemma {:induction false} SkipRun(blank: Text, s: Text)
    requires AllSpace(blank) && (s == "" || !IsSpace(s[0]))
    ensures SkipSpace(blank + s) == s
  {
    if blank == "" {
      assert blank + s == s;
    } else {
      assert (blank + s)[1..] == blank[1..] + s;
      SkipRun(blank[1..], s);
    }
  }

  function WordLength(s: Text): (n: nat)
    ensures n <= |s|
    ensures forall i :: 0 <= i < n ==> !IsSpace(s[i])
    ensures n < |s| ==> IsSpace(s[n])
  {
    if s == "" || IsSpace(s[0]) then 0 else 1 + WordLength(s[1..])
  }

  /** operator>> for strings: the word read and the text after it; the target keeps its value when
      only white space is left. */
  function ReadWord(s: Text, target: Text): (Text, Text) {
    var t := SkipSpace(s);
    if t == "" then (target, "") else (t[..WordLength(t)], t[WordLength(t)..])
  }

  function LineOf(text: Text): Text { text[..IndexOf(text, '\n')] }

  function AfterLine(text: Text): (r: Text)
    ensures text != "" ==> |r| < |text|
  {
    var k := IndexOf(text, '\n');
    if k == |text| then "" else text[k + 1..]
  }

  function StripCr(line: Text): Text {
    if line != "" && line[|line| - 1] == '\r' then line[..|line| - 1] else line
  }

  function ParseRequestLine(line: Text, head: Head): Head {
    var (first, rest) := ReadWord(line, head.first);
    var (path, _) := ReadWord(rest, head.path);
    head.(first := first, path := path)
  }

  function StripSpace(value: Text): Text {
    if value != "" && value[0] == ' ' then value[1..] else value
  }

  function AddHeader(head: Head, name: Text, value: Text): Head {
    head.(authority := if name == AUTHORITY then value else head.authority,
          headers := head.headers[name := value])
  }

  function ParseHeaderLine(line: Text, head: Head): Head {
    var k := IndexOf(line, ':');
    if k == |line| then head else AddHeader(head, line[..k], StripSpace(line[k + 1..]))
  }

  function ParseHeaderLines(text: Text, head: Head): Head
    decreases |text|
  {
    if text == "" then head
    else ParseHeaderLines(AfterLine(text), ParseHeaderLine(StripCr(LineOf(text)), head))
  }

  /** None when there is no line at all. */
  function ParseAad(text: Text, head: Head): Option<Head> {
    if text == "" then None
    else Some(ParseHeaderLines(AfterLine(text), ParseRequestLine(StripCr(LineOf(text)), head)))
  }

  // ---------------------------------------------------------------- the code's loops

  /** The AAD text of build_reformatted_data, appended piece by piece. */
  method BuildAad(first: Text, path: Text, authority: Text, order: seq<Text>, headers: Headers) returns (aad: Text)
    requires Enumerates(order, headers)
    ensures aad == PrintAad(first, path, authority, order, headers)
  {
    ghost var lines := [RequestLine(first, path)];
    aad := first + " " + path + " HTTP/2.0\r\n";
    UnlinesOne(lines[0]);
    assert aad == Unlines(lines);
    if authority != "" {
      UnlinesSnoc(lines, HeaderLine(AUTHORITY, authority));
      lines := lines + [HeaderLine(AUTHORITY, authority)];
      aad := aad + (AUTHORITY + ": " + authority + CRLF);
      var apiRoot := authority;
      if HTTPS <= apiRoot {
        apiRoot := HTTP + apiRoot[8..];
      } else if !(HTTP <= apiRoot) {
        apiRoot := HTTP + apiRoot;
      }
      assert apiRoot == Normalize(authority);
      UnlinesSnoc(lines, HeaderLine(API_ROOT, apiRoot));
      lines := lines + [HeaderLine(API_ROOT, apiRoot)];
      aad := aad + (API_ROOT + ": " + apiRoot + CRLF);
    }
    assert lines == [RequestLine(first, path)] + AuthorityLines(authority);
    aad := AppendHeaders(aad, lines, order, headers);
  }

  /** The loop over the response headers. */
  method AppendHeaders(start: Text, ghost top: seq<Text>, order: seq<Text>, headers: Headers) returns (aad: Text)
    requires forall i :: 0 <= i < |order| ==> order[i] in headers
    requires start == Unlines(top)
    ensures aad == Unlines(top + HeaderLines(order, headers))
  {
    aad := start;
    ghost var lines := top;
    for i := 0 to |order|
      invariant lines == top + HeaderLines(order[..i], headers)
      invariant aad == Unlines(lines)
    {
      var key: Text := order[i];
      var value := headers[key];
      HeaderLinesStep(top, order, i, headers);
      if Clean(key) && Clean(value) {
        UnlinesSnoc(lines, HeaderLine(key, value));
        lines := lines + [HeaderLine(key, value)];
        aad := aad + (key + ": " + value + CRLF);
      }
    }
    assert order[..|order|] == order;
  }

  /** parse_aad: false and untouched out-parameters when there is no line. */
  method ComputeParseAad(text: Text, head: Head) returns (ok: bool, r: Head)
    ensures (if ok then Some(r) else None) == ParseAad(text, head)
    ensures !ok ==> r == head
  {
    if text == "" {
      return false, head;
    }
    var (first, afterFirst) := ReadWord(StripCr(LineOf(text)), head.first);
    var (path, _) := ReadWord(afterFirst, head.path);
    r := head.(first := first, path := path);
    var rest := AfterLine(text);
    ghost var goal := ParseHeaderLines(rest, r);
    while rest != ""
      invariant ParseHeaderLines(rest, r) == goal
      decreases |rest|
    {
      ParseStep(rest, r);
      r := ComputeHeaderLine(StripCr(LineOf(rest)), r);
      rest := AfterLine(rest);
    }
    ok := true;
  }

  /** The body of the loop. */
  method ComputeHeaderLine(line: Text, head: Head) returns (r: Head)
    ensures r == ParseHeaderLine(line, head)
  {
    r := head;
    var pos := IndexOf(line, ':');
    if pos < |line| {
      var name: Text, value: Text := line[..pos], line[pos + 1..];
      if value != "" && value[0] == ' ' {
        value := value[1..];
      }
      if name == AUTHORITY {
        r := r.(authority := value);
      }
      r := r.(headers := r.headers[name := value]);
    }
  }

  lemma ParseStep(text: Text, head: Head)
    requires text != ""
    ensures ParseHeaderLines(text, head)
         == ParseHeaderLines(AfterLine(text), ParseHeaderLine(StripCr(LineOf(text)), head))
  {
  }

  lemma UnlinesCons(line: Text, rest: seq<Text>)
    ensures Unlines([line] + rest) == line + CRLF + Unlines(rest)
  {
    assert ([line] + rest)[1..] == rest;
  }

  lemma UnlinesOne(line: Text)
    ensures Unlines([line]) == line + CRLF
  {
    assert [line][1..] == [];
    assert Unlines([]) == "";
  }

  lemma {:induction false} UnlinesSnoc(lines: seq<Text>, line: Text)
    ensures Unlines(lines + [line]) == Unlines(lines) + (line + CRLF)
  {
    if lines == [] {
      UnlinesOne(line);
    } else {
      assert (lines + [line])[1..] == lines[1..] + [line];
      UnlinesSnoc(lines[1..], line);
    }
  }

  lemma {:induction false} HeaderLinesSnoc(order: seq<Text>, key: Text, headers: Headers)
    requires forall i :: 0 <= i < |order| ==> order[i] in headers
    requires key in headers
    ensures HeaderLines(order + [key], headers) == HeaderLines(order, headers) + LineFor(key, headers[key])
  {
    if order == [] {
      HeaderLinesCons(key, [], headers);
      assert order + [key] == [key] == [key] + [];
    } else {
      var k, rest := order[0], order[1..];
      HeaderLinesSnoc(rest, key, headers);
      HeaderLinesCons(k, rest + [key], headers);
      assert order + [key] == [k] + (rest + [key]);
      LinesJoin(LineFor(k, headers[k]), HeaderLines(rest, headers), LineFor(key, headers[key]));
    }
  }

  lemma LinesJoin(a: seq<Text>, b: seq<Text>, c: seq<Text>)
    ensures a + (b + c) == (a + b) + c
  {
  }

  lemma HeaderLinesCons(first: Text, rest: seq<Text>, headers: Headers)
    requires first in headers && forall i :: 0 <= i < |rest| ==> rest[i] in headers
    ensures HeaderLines([first] + rest, headers) == LineFor(first, headers[first]) + HeaderLines(rest, headers)
  {
    assert ([first] + rest)[1..] == rest;
  }

  lemma HeaderLinesStep(top: seq<Text>, order: seq<Text>, i: nat, headers: Headers)
    requires i < |order| && forall j :: 0 <= j < |order| ==> order[j] in headers
    ensures top + HeaderLines(order[..i + 1], headers)
         == top + HeaderLines(order[..i], headers) + LineFor(order[i], headers[order[i]])
  {
    HeaderLinesSnoc(order[..i], order[i], headers);
    assert order[..i + 1] == order[..i] + [order[i]];
  }

  // ---------------------------------------------------------------- lines come back

  lemma NextLineOfUnlines(line: Text, rest: Text)
    requires '\n' !in line
    ensures StripCr(LineOf(line + CRLF + rest)) == line && AfterLine(line + CRLF + rest) == rest
  {
    var text := line + CRLF + rest;
    assert text == (line + "\r") + ['\n'] + rest;
    IndexOfSplit(line + "\r", '\n', rest);
    assert LineOf(text) == line + "\r";
  }

  /** Header lines applied one after the other. */
  function ApplyLines(lines: seq<Text>, head: Head): Head {
    if lines == [] then head else ApplyLines(lines[1..], ParseHeaderLine(lines[0], head))
  }

  ghost predicate LfFree(lines: seq<Text>) {
    forall i :: 0 <= i < |lines| ==> '\n' !in lines[i]
  }

  lemma {:induction false} ParseUnlines(lines: seq<Text>, head: Head)
    requires LfFree(lines)
    ensures ParseHeaderLines(Unlines(lines), head) == ApplyLines(lines, head)
  {
    if lines == [] {
    } else {
      NextLineOfUnlines(lines[0], Unlines(lines[1..]));
      ParseUnlines(lines[1..], ParseHeaderLine(lines[0], head));
    }
  }

  lemma {:induction false} ApplyLinesAppend(a: seq<Text>, b: seq<Text>, head: Head)
    ensures ApplyLines(a + b, head) == ApplyLines(b, ApplyLines(a, head))
  {
    if a == [] {
      assert a + b == b;
    } else {
      assert (a + b)[1..] == a[1..] + b;
      ApplyLinesAppend(a[1..], b, ParseHeaderLine(a[0], head));
    }
  }

  lemma HeaderLineParses(name: Text, value: Text, head: Head)
    requires ':' !in name
    ensures ParseHeaderLine(HeaderLine(name, value), head) == AddHeader(head, name, value)
  {
    var line := HeaderLine(name, value);
    assert line == name + [':'] + (" " + value);
    IndexOfSplit(name, ':', " " + value);
    assert line[..|name|] == name && line[|name| + 1..] == " " + value;
    assert (" " + value)[1..] == value;
  }

  // ---------------------------------------------------------------- the words of the first line

  /** A non-empty word without white space. */
  predicate IsToken(s: Text) {
    s != "" && forall i :: 0 <= i < |s| ==> !IsSpace(s[i])
  }

  lemma ReadToken(token: Text, rest: Text, target: Text)
    requires IsToken(token) && (rest == "" || IsSpace(rest[0]))
    ensures ReadWord(token + rest, target) == (token, rest)
  {
    var s := token + rest;
    assert s[0] == token[0];
    assert SkipSpace(s) == s;
    var n := WordLength(s);
    assert forall i :: 0 <= i < |token| ==> s[i] == token[i];
    assert rest != "" ==> s[|token|] == rest[0];
    assert n == |token|;
    assert s[..|token|] == token && s[|token|..] == rest;
  }

  lemma ReadAfterSpace(s: Text, target: Text)
    ensures ReadWord([' '] + s, target) == ReadWord(s, target)
  {
    assert ([' '] + s)[1..] == s;
  }

  lemma ReadGivesToken(s: Text, target: Text)
    ensures var w := ReadWord(s, target).0;
            w == target || IsToken(w)
  {
  }

  const VERSION: Text := "HTTP/2.0"

  lemma RequestLineParts(first: Text, path: Text)
    ensures RequestLine(first, path) == first + ([' '] + (path + ([' '] + VERSION)))
  {
    assert " HTTP/2.0" == [' '] + VERSION;
  }

  lemma RequestLineParses(first: Text, path: Text, head: Head)
    requires IsToken(first) && IsToken(path)
    ensures ParseRequestLine(RequestLine(first, path), head) == head.(first := first, path := path)
  {
    RequestLineParts(first, path);
    var afterPath := [' '] + VERSION;
    ReadToken(first, [' '] + (path + afterPath), head.first);
    ReadAfterSpace(path + afterPath, head.path);
    ReadToken(path, afterPath, head.path);
  }

  lemma VersionIsToken()
    ensures IsToken(VERSION)
  {
  }

  /** With an empty path the version is read in its place. */
  lemma EmptyPathIsMisread(first: Text, head: Head)
    requires IsToken(first)
    ensures ParseRequestLine(RequestLine(first, ""), head).path == VERSION
  {
    RequestLineParts(first, "");
    var tail: Text := [' '] + VERSION;
    assert "" + tail == tail;
    ReadToken(first, [' '] + tail, head.first);
    ReadAfterSpace(tail, head.path);
    ReadAfterSpace(VERSION, head.path);
    ReadVersion(head.path);
  }

  /** With an empty method the next word is read in its place: the version when the path is empty too, ... */
  lemma EmptyWordsAreMisread(target: Text)
    ensures ReadWord(RequestLine("", ""), target).0 == VERSION
  {
    RequestLineParts("", "");
    var line: Text := [' '] + ([' '] + VERSION);
    assert RequestLine("", "") == line;
    ReadAfterSpace([' '] + VERSION, target);
    ReadAfterSpace(VERSION, target);
    ReadVersion(target);
  }

  lemma ReadVersion(target: Text)
    ensures ReadWord(VERSION, target) == (VERSION, "")
  {
    VersionIsToken();
    assert VERSION + "" == VERSION;
    ReadToken(VERSION, "", target);
  }

  /** ... the path otherwise. */
  lemma EmptyFirstIsMisread(path: Text, target: Text)
    requires IsToken(path)
    ensures ReadWord(RequestLine("", path), target).0 == path
  {
    var tail: Text := [' '] + VERSION;
    RequestLineParts("", path);
    assert RequestLine("", path) == [' '] + (path + tail);
    ReadAfterSpace(path + tail, target);
    ReadToken(path, tail, target);
  }

  /** The head parsed from the first line of a printed AAD. */
  function FirstHead(first: Text, path: Text, rest: Text): Head {
    ParseRequestLine(StripCr(LineOf(RequestLine(first, path) + CRLF + rest)), EMPTY_HEAD)
  }

  lemma LfFreeRequestLine(first: Text, path: Text, rest: Text)
    requires '\n' !in first && '\n' !in path
    ensures '\n' !in RequestLine(first, path)
    ensures FirstHead(first, path, rest) == ParseRequestLine(RequestLine(first, path), EMPTY_HEAD)
  {
    NextLineOfUnlines(RequestLine(first, path), rest);
  }

  lemma TokenHasNoLf(s: Text)
    requires IsToken(s)
    ensures '\n' !in s
  {
  }

  /** Method (or status) and path come back exactly when both are non-empty and without white space. */
  lemma WordsSurviveIff(first: Text, path: Text, rest: Text)
    ensures var head := FirstHead(first, path, rest);
            head.first == first && head.path == path <==> IsToken(first) && IsToken(path)
  {
    if IsToken(first) && IsToken(path) {
      TokenHasNoLf(first);
      TokenHasNoLf(path);
      LfFreeRequestLine(first, path, rest);
      RequestLineParses(first, path, EMPTY_HEAD);
    } else {
      var line := StripCr(LineOf(RequestLine(first, path) + CRLF + rest));
      var after := ReadWord(line, "").1;
      ReadGivesToken(line, "");
      ReadGivesToken(after, "");
      var head := FirstHead(first, path, rest);
      if head.first == first && head.path == path {
        assert first == "" || IsToken(first);
        assert path == "" || IsToken(path);
        LfFreeRequestLine(first, path, rest);
        if first == "" && path == "" {
          EmptyWordsAreMisread("");
        } else if first == "" {
          EmptyFirstIsMisread(path, "");
        } else {
          EmptyPathIsMisread(first, EMPTY_HEAD);
          VersionIsToken();
        }
        assert false;
      }
    }
  }

  // ---------------------------------------------------------------- what any parse keeps

  lemma {:induction false} ParseKeepsWords(text: Text, head: Head)
    ensures var r := ParseHeaderLines(text, head); r.first == head.first && r.path == head.path
    decreases |text|
  {
    if text == "" {
    } else {
      ParseKeepsWords(AfterLine(text), ParseHeaderLine(StripCr(LineOf(text)), head));
    }
  }

  lemma {:induction false} ParsedAuthorityHasNoLf(text: Text, head: Head)
    requires '\n' !in head.authority
    ensures '\n' !in ParseHeaderLines(text, head).authority
    decreases |text|
  {
    if text == "" {
    } else {
      var line := StripCr(LineOf(text));
      assert '\n' !in line;
      ParsedAuthorityHasNoLf(AfterLine(text), ParseHeaderLine(line, head));
    }
  }

  ghost predicate NamesColonFree(headers: Headers) {
    forall k :: k in headers ==> ':' !in k
  }

  lemma {:induction false} ParsedNamesHaveNoColon(text: Text, head: Head)
    requires NamesColonFree(head.headers)
    ensures NamesColonFree(ParseHeaderLines(text, head).headers)
    decreases |text|
  {
    if text == "" {
    } else {
      var line := StripCr(LineOf(text));
      var next := ParseHeaderLine(line, head);
      assert ':' !in line[..IndexOf(line, ':')];
      ParsedNamesHaveNoColon(AfterLine(text), next);
    }
  }

  // ---------------------------------------------------------------- the main result

  /** The headers that are printed: those without CR and LF. */
  function Kept(headers: Headers): Headers {
    map k | k in headers && Clean(k) && Clean(headers[k]) :: headers[k]
  }

  function KeptOf(order: seq<Text>, headers: Headers): Headers {
    map k | k in order && k in headers && Clean(k) && Clean(headers[k]) :: headers[k]
  }

  function AuthorityHeaders(authority: Text): Headers {
    if authority == "" then map[] else map[AUTHORITY := authority, API_ROOT := Normalize(authority)]
  }

  lemma AuthorityLinesApply(authority: Text)
    ensures var r := ApplyLines(AuthorityLines(authority), EMPTY_HEAD);
            r == EMPTY_HEAD.(authority := authority, headers := AuthorityHeaders(authority))
  {
    if authority == "" {
    } else {
      var root := Normalize(authority);
      OwnNames();
      HeaderLineParses(AUTHORITY, authority, EMPTY_HEAD);
      HeaderLineParses(API_ROOT, root, AddHeader(EMPTY_HEAD, AUTHORITY, authority));
      ApplyTwo(HeaderLine(AUTHORITY, authority), HeaderLine(API_ROOT, root), EMPTY_HEAD);
      AddOwn(authority, root);
    }
  }

  lemma OwnNames()
    ensures ':' !in AUTHORITY && ':' !in API_ROOT && AUTHORITY != API_ROOT
  {
  }

  lemma AddOwn(authority: Text, root: Text)
    ensures AddHeader(AddHeader(EMPTY_HEAD, AUTHORITY, authority), API_ROOT, root)
         == EMPTY_HEAD.(authority := authority, headers := map[AUTHORITY := authority, API_ROOT := root])
  {
    OwnNames();
  }

  lemma ApplyTwo(line1: Text, line2: Text, head: Head)
    ensures ApplyLines([line1, line2], head) == ParseHeaderLine(line2, ParseHeaderLine(line1, head))
  {
    assert [line1] + [line2] == [line1, line2] && [line2] + [] == [line2];
    ApplyCons(line1, [line2], head);
    ApplyCons(line2, [], ParseHeaderLine(line1, head));
  }

  lemma ApplyCons(line: Text, rest: seq<Text>, head: Head)
    ensures ApplyLines([line] + rest, head) == ApplyLines(rest, ParseHeaderLine(line, head))
  {
    assert ([line] + rest)[1..] == rest;
  }

  /** A header of that name replaces the authority. */
  function LastAuthority(authority: Text, kept: Headers): Text {
    if AUTHORITY in kept then kept[AUTHORITY] else authority
  }

  /** Adding the first kept header and then the others is adding all of them. */
  lemma KeptOfStep(order: seq<Text>, headers: Headers, base: Headers)
    requires order != [] && order[0] in headers
    ensures var k := order[0];
            var next := if Clean(k) && Clean(headers[k]) then base[k := headers[k]] else base;
            next + KeptOf(order[1..], headers) == base + KeptOf(order, headers)
    ensures var k := order[0];
            forall authority: Text ::
              LastAuthority(authority, KeptOf(order, headers))
              == LastAuthority(if k == AUTHORITY && Clean(k) && Clean(headers[k]) then headers[k] else authority,
                               KeptOf(order[1..], headers))
  {
  }

  lemma {:induction false} HeaderLinesApply(order: seq<Text>, headers: Headers, head: Head)
    requires forall i :: 0 <= i < |order| ==> order[i] in headers
    requires NamesColonFree(Kept(headers))
    ensures var kept := KeptOf(order, headers);
            ApplyLines(HeaderLines(order, headers), head)
            == head.(authority := LastAuthority(head.authority, kept), headers := head.headers + kept)
  {
    if order == [] {
      assert KeptOf(order, headers) == map[];
    } else {
      var k, rest := order[0], HeaderLines(order[1..], headers);
      KeptOfStep(order, headers, head.headers);
      if Clean(k) && Clean(headers[k]) {
        assert k in Kept(headers);
        HeaderLineParses(k, headers[k], head);
        assert HeaderLines(order, headers) == [HeaderLine(k, headers[k])] + rest;
        ApplyCons(HeaderLine(k, headers[k]), rest, head);
        HeaderLinesApply(order[1..], headers, AddHeader(head, k, headers[k]));
      } else {
        assert HeaderLines(order, headers) == rest;
        HeaderLinesApply(order[1..], headers, head);
      }
    }
  }

  lemma {:induction false} HeaderLinesLfFree(order: seq<Text>, headers: Headers)
    requires forall i :: 0 <= i < |order| ==> order[i] in headers
    ensures LfFree(HeaderLines(order, headers))
  {
    if order == [] {
    } else {
      HeaderLinesLfFree(order[1..], headers);
    }
  }

  lemma AuthorityLinesLfFree(authority: Text)
    requires '\n' !in authority
    ensures LfFree(AuthorityLines(authority))
  {
    assert '\n' !in Normalize(authority);
    LfFreeHeaderLine(AUTHORITY, authority);
    LfFreeHeaderLine(API_ROOT, Normalize(authority));
  }

  lemma LfFreeHeaderLine(name: Text, value: Text)
    requires '\n' !in name && '\n' !in value
    ensures '\n' !in HeaderLine(name, value)
  {
  }

  /** The lines after the first one, applied: the authority, unless a header of that name replaces it, and
      exactly the headers that are kept. */
  lemma HeadersSurvive(authority: Text, order: seq<Text>, headers: Headers)
    requires Enumerates(order, headers)
    requires '\n' !in authority && NamesColonFree(Kept(headers))
    ensures ParseHeaderLines(Unlines(AuthorityLines(authority) + HeaderLines(order, headers)), EMPTY_HEAD)
         == EMPTY_HEAD.(authority := LastAuthority(authority, Kept(headers)),
                        headers := AuthorityHeaders(authority) + Kept(headers))
  {
    var a, b := AuthorityLines(authority), HeaderLines(order, headers);
    LinesLfFree(authority, order, headers);
    ParseUnlines(a + b, EMPTY_HEAD);
    ApplyLinesAppend(a, b, EMPTY_HEAD);
    AuthorityLinesApply(authority);
    HeaderLinesApply(order, headers, ApplyLines(a, EMPTY_HEAD));
    KeptOfAll(order, headers);
  }

  lemma LinesLfFree(authority: Text, order: seq<Text>, headers: Headers)
    requires '\n' !in authority && forall i :: 0 <= i < |order| ==> order[i] in headers
    ensures LfFree(AuthorityLines(authority) + HeaderLines(order, headers))
  {
    AuthorityLinesLfFree(authority);
    HeaderLinesLfFree(order, headers);
  }

  lemma KeptOfAll(order: seq<Text>, headers: Headers)
    requires Enumerates(order, headers)
    ensures KeptOf(order, headers) == Kept(headers)
  {
  }

  /** The words of the first line do not influence how the other lines are read. */
  lemma {:induction false} WordsAreIndependent(text: Text, head: Head, first: Text, path: Text)
    ensures ParseHeaderLines(text, head.(first := first, path := path))
         == ParseHeaderLines(text, head).(first := first, path := path)
    decreases |text|
  {
    if text == "" {
    } else {
      WordsAreIndependent(AfterLine(text), ParseHeaderLine(StripCr(LineOf(text)), head), first, path);
    }
  }

  /** When the printed text may be sent: every part survives the trip. */
  ghost predicate Printable(first: Text, path: Text, authority: Text, headers: Headers) {
    && IsToken(first) && IsToken(path) && '\n' !in authority && NamesColonFree(Kept(headers))
    && (AUTHORITY in Kept(headers) ==> headers[AUTHORITY] == authority)
  }

  function AadTail(authority: Text, order: seq<Text>, headers: Headers): Text
    requires forall i :: 0 <= i < |order| ==> order[i] in headers
  {
    Unlines(AuthorityLines(authority) + HeaderLines(order, headers))
  }

  lemma PrintAadParts(first: Text, path: Text, authority: Text, order: seq<Text>, headers: Headers)
    requires forall i :: 0 <= i < |order| ==> order[i] in headers
    ensures PrintAad(first, path, authority, order, headers)
         == RequestLine(first, path) + CRLF + AadTail(authority, order, headers)
  {
    var rest := AuthorityLines(authority) + HeaderLines(order, headers);
    assert AadLines(first, path, authority, order, headers) == [RequestLine(first, path)] + rest;
    UnlinesCons(RequestLine(first, path), rest);
  }

  /** Parser after printer, for every iteration order of the header map: method (or status), path,
      authority and exactly the CR/LF-free headers come back if and only if method and path are words, the
      authority holds no LF, no printed header name holds a colon, and a printed header named like the
      authority's line has its value. */
  lemma AadSurvivesIff(first: Text, path: Text, authority: Text, order: seq<Text>, headers: Headers)
    requires Enumerates(order, headers)
    ensures ParseAad(PrintAad(first, path, authority, order, headers), EMPTY_HEAD)
         == Some(Head(first, path, authority, AuthorityHeaders(authority) + Kept(headers)))
        <==> Printable(first, path, authority, headers)
  {
    var tail := AadTail(authority, order, headers);
    var text := RequestLine(first, path) + CRLF + tail;
    PrintAadParts(first, path, authority, order, headers);
    WordsSurviveIff(first, path, tail);
    var head := FirstHead(first, path, tail);
    var rest := AfterLine(text);
    ParseKeepsWords(rest, head);
    ParsedAuthorityHasNoLf(rest, head);
    ParsedNamesHaveNoColon(rest, head);
    if IsToken(first) && IsToken(path) && '\n' !in authority && NamesColonFree(Kept(headers)) {
      TokenHasNoLf(first);
      TokenHasNoLf(path);
      LfFreeRequestLine(first, path, tail);
      NextLineOfUnlines(RequestLine(first, path), tail);
      HeadersSurvive(authority, order, headers);
      WordsAreIndependent(tail, EMPTY_HEAD, first, path);
    } else if ParseAad(text, EMPTY_HEAD)
              == Some(Head(first, path, authority, AuthorityHeaders(authority) + Kept(headers))) {
      assert false;
    }
  }

  // ---------------------------------------------------------------- the texts themselves

  function Eol(crlf: bool): Text {
    if crlf then "\r\n" else "\n"
  }

  predicate EndsInCr(s: Text) {
    s != "" && s[|s| - 1] == '\r'
  }

  lemma TokenIff(s: Text)
    ensures IsToken(s) <==> s != "" && SpaceFree(s)
  {
    assert forall i :: 0 <= i < |s| ==> IsSpace(s[i]) == IsWhite(s[i]);
  }

  /** The target with the scheme http, whatever scheme it had. */
  function HttpRoot(target: Text): Text {
    if "https://" <= target then "http://" + target[8..]
    else if "http://" <= target then target
    else "http://" + target
  }

  lemma RootIff(target: Text)
    ensures Normalize(target) == HttpRoot(target)
  {
    assert HTTP == "http://" && HTTPS == "https://";
  }

  lemma OwnLines(first: Text, path: Text, authority: Text)
    ensures RequestLine(first, path) + CRLF == first + " " + path + " HTTP/2.0\r\n"
    ensures HeaderLine(AUTHORITY, authority) + CRLF == "authority: " + authority + "\r\n"
    ensures HeaderLine(API_ROOT, Normalize(authority)) + CRLF
         == "3gpp-sbi-target-apiroot: " + HttpRoot(authority) + "\r\n"
  {
    RootIff(authority);
    assert " HTTP/2.0" + CRLF == " HTTP/2.0\r\n";
  }

  lemma UnlinesThree(a: Text, b: Text, c: Text)
    ensures Unlines([a]) == a + CRLF && Unlines([a, b, c]) == (a + CRLF) + (b + CRLF) + (c + CRLF)
  {
    UnlinesOne(a);
    UnlinesSnoc([a], b);
    UnlinesSnoc([a, b], c);
    assert [a] + [b] == [a, b] && [a, b] + [c] == [a, b, c];
  }

  /** What is printed before the headers. */
  lemma PrintedTop(first: Text, path: Text, authority: Text)
    ensures PrintAad(first, path, authority, [], map[])
         == (first + " " + path + " HTTP/2.0\r\n")
            + (if authority == "" then ""
               else ("authority: " + authority + "\r\n")
                    + ("3gpp-sbi-target-apiroot: " + HttpRoot(authority) + "\r\n"))
  {
    var top, line1, line2 := RequestLine(first, path), HeaderLine(AUTHORITY, authority),
                             HeaderLine(API_ROOT, Normalize(authority));
    OwnLines(first, path, authority);
    UnlinesThree(top, line1, line2);
    BareLines(first, path, authority);
  }

  lemma BareLines(first: Text, path: Text, authority: Text)
    ensures AadLines(first, path, authority, [], map[])
         == if authority == "" then [RequestLine(first, path)]
            else [RequestLine(first, path), HeaderLine(AUTHORITY, authority), HeaderLine(API_ROOT, Normalize(authority))]
  {
    assert HeaderLines([], map[]) == [];
  }

  /** Each header adds its line, unless it holds a CR or LF. */
  lemma PrintedHeader(first: Text, path: Text, authority: Text, order: seq<Text>, name: Text, headers: Headers)
    requires name in headers && forall i :: 0 <= i < |order| ==> order[i] in headers
    ensures var before := PrintAad(first, path, authority, order, headers);
            var line := name + ": " + headers[name];
            PrintAad(first, path, authority, order + [name], headers)
            == (if '\r' in line || '\n' in line then before else before + (line + "\r\n"))
  {
    var value := headers[name];
    var lines := AadLines(first, path, authority, order, headers);
    HeaderLinesSnoc(order, name, headers);
    assert AadLines(first, path, authority, order + [name], headers) == lines + LineFor(name, value);
    CleanIff(name, value);
    if Clean(name) && Clean(value) {
      UnlinesSnoc(lines, HeaderLine(name, value));
    } else {
      assert lines + [] == lines;
    }
  }

  lemma CleanIff(name: Text, value: Text)
    ensures var line := name + ": " + value;
            Clean(name) && Clean(value) <==> '\r' !in line && '\n' !in line
  {
  }

  /** Lines may end in LF or in CR LF. */
  lemma AnyLine(line: Text, crlf: bool, rest: Text)
    requires '\n' !in line && (crlf || !EndsInCr(line))
    ensures var text := line + Eol(crlf) + rest;
            text != "" && StripCr(LineOf(text)) == line && AfterLine(text) == rest
  {
    if crlf {
      NextLineOfUnlines(line, rest);
    } else {
      IndexOfSplit(line, '\n', rest);
      var text := line + Eol(crlf) + rest;
      assert text == line + ['\n'] + rest && LineOf(text) == line;
    }
  }

  /** A header line, with a space after its colon or without. */
  function AnyHeaderLine(name: Text, space: bool, value: Text): Text {
    name + ":" + (if space then " " + value else value)
  }

  lemma LineIsRead(name: Text, space: bool, value: Text, head: Head)
    requires ':' !in name && (space || value == "" || value[0] != ' ')
    ensures ParseHeaderLine(AnyHeaderLine(name, space, value), head) == AddHeader(head, name, value)
  {
    var tail: Text := if space then " " + value else value;
    var line := AnyHeaderLine(name, space, value);
    IndexOfSplit(name, ':', tail);
    assert line == name + [':'] + tail;
    assert line[..|name|] == name && line[|name| + 1..] == tail;
    assert space ==> tail[1..] == value;
  }

  /** Header lines are read with or without that space; a header named authority gives the authority too. */
  lemma HeaderLineIsRead(name: Text, space: bool, value: Text, crlf: bool, rest: Text, head: Head)
    requires ':' !in name && '\n' !in name && '\n' !in value
    requires (space || value == "" || value[0] != ' ') && (crlf || !EndsInCr(value))
    ensures ParseHeaderLines(AnyHeaderLine(name, space, value) + Eol(crlf) + rest, head)
         == ParseHeaderLines(rest, head.(authority := if name == "authority" then value else head.authority,
                                         headers := head.headers[name := value]))
  {
    var line := AnyHeaderLine(name, space, value);
    AnyLine(line, crlf, rest);
    ParseStep(line + Eol(crlf) + rest, head);
    LineIsRead(name, space, value, head);
    assert AUTHORITY == "authority";
  }

  /** A line without a colon is skipped. */
  lemma OtherLineIsSkipped(line: Text, crlf: bool, rest: Text, head: Head)
    requires ':' !in line && '\n' !in line && (crlf || !EndsInCr(line))
    ensures ParseHeaderLines(line + Eol(crlf) + rest, head) == ParseHeaderLines(rest, head)
  {
    AnyLine(line, crlf, rest);
    ParseStep(line + Eol(crlf) + rest, head);
    assert IndexOf(line, ':') == |line|;
  }

  lemma ReadAfterBlank(blank: Text, s: Text, target: Text)
    requires AllSpace(blank) && (s == "" || !IsSpace(s[0]))
    ensures ReadWord(blank + s, target) == ReadWord(s, target)
  {
    SkipRun(blank, s);
    SkipRun("", s);
    assert "" + s == s;
  }

  /** The words of the first line may stand between any white space; what follows them is not read. */
  lemma {:induction false} SpacedWords(blank: Text, first: Text, gap: Text, path: Text, tail: Text, head: Head)
    requires AllSpace(blank) && AllSpace(gap) && gap != "" && (tail == "" || IsWhite(tail[0]))
    requires first != "" && SpaceFree(first) && path != "" && SpaceFree(path)
    ensures ParseRequestLine(blank + (first + (gap + (path + tail))), head) == head.(first := first, path := path)
  {
    TokenIff(first);
    TokenIff(path);
    ReadAfterBlank(blank, first + (gap + (path + tail)), head.first);
    ReadToken(first, gap + (path + tail), head.first);
    ReadAfterBlank(gap, path + tail, head.path);
    ReadToken(path, tail, head.path);
  }

  /** A first line of one word gives no path, an empty one gives neither. */
  lemma MissingWords(first: Text, blank: Text, crlf: bool, rest: Text)
    requires first == "" || SpaceFree(first)
    requires AllSpace(blank) && var line := first + blank; '\n' !in line && (crlf || !EndsInCr(line))
    ensures ParseAad(first + blank + Eol(crlf) + rest, EMPTY_HEAD)
         == Some(ParseHeaderLines(rest, Head(first, "", "", map[])))
  {
    AnyLine(first + blank, crlf, rest);
    SkipRun(blank, "");
    assert blank + "" == blank;
    if first == "" {
      assert first + blank == blank;
    } else {
      TokenIff(first);
      ReadToken(first, blank, "");
    }
  }

  lemma FirstLineIsRead(blank: Text, first: Text, gap: Text, path: Text, tail: Text, crlf: bool, rest: Text)
    requires AllSpace(blank) && AllSpace(gap) && gap != "" && (tail == "" || IsWhite(tail[0]))
    requires first != "" && SpaceFree(first) && path != "" && SpaceFree(path)
    requires var line := blank + (first + (gap + (path + tail))); '\n' !in line && (crlf || !EndsInCr(line))
    ensures ParseAad(blank + (first + (gap + (path + tail))) + Eol(crlf) + rest, EMPTY_HEAD)
         == Some(ParseHeaderLines(rest, Head(first, path, "", map[])))
  {
    AnyLine(blank + (first + (gap + (path + tail))), crlf, rest);
    SpacedWords(blank, first, gap, path, tail, EMPTY_HEAD);
  }
}
