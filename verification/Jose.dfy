/** src/sepp_app/sepp_JOSE.cpp: base64url over the BIO codec of OpenSSL, and AES-128-GCM
    protection of a payload over an abstract AEAD. */
module Jose {
  import opened Octets

  // ---------------------------------------------------------------- base64, section 4 of RFC 4648

  type Sextet = n: int | 0 <= n < 64

  /** Regroups bytes into 6-bit digits; the last digit is filled up with zero bits. */
  function Digits(x: Text): (d: seq<Sextet>)
    ensures |d| == EncodedLength(|x|)
  {
    if |x| == 0 then []
    else if |x| == 1 then Pair(x[0] as int)
    else if |x| == 2 then Triple(x[0] as int, x[1] as int)
    else Quad(x[0] as int, x[1] as int, x[2] as int) + Digits(x[3..])
  }

  type Byte = n: int | 0 <= n < 256

  function Pair(a: Byte): (d: seq<Sextet>) { [a / 4, a % 4 * 16] }

  function Triple(a: Byte, b: Byte): (d: seq<Sextet>) { [a / 4, a % 4 * 16 + b / 16, b % 16 * 4] }

  function Quad(a: Byte, b: Byte, c: Byte): (d: seq<Sextet>) {
    [a / 4, a % 4 * 16 + b / 16, b % 16 * 4 + c / 64, c % 64]
  }

  /** ceil(4n/3) */
  function EncodedLength(n: nat): nat { (4 * n + 2) / 3 }

  /** Regroups 6-bit digits into bytes and drops what does not fill a byte. */
  function Undigits(d: seq<Sextet>): (x: Text) {
    if |d| < 2 then ""
    else if |d| == 2 then [First(d[0], d[1]) as char]
    else if |d| == 3 then [First(d[0], d[1]) as char, Second(d[1], d[2]) as char]
    else [First(d[0], d[1]) as char, Second(d[1], d[2]) as char, Third(d[2], d[3]) as char] + Undigits(d[4..])
  }

  function First(p: Sextet, q: Sextet): Byte { p * 4 + q / 16 }

  function Second(q: Sextet, r: Sextet): Byte { q % 16 * 16 + r / 4 }

  function Third(r: Sextet, s: Sextet): Byte { r % 4 * 64 + s }

  lemma RegroupBytes(a: Byte, b: Byte, c: Byte)
    ensures First(a / 4, a % 4 * 16 + b / 16) == a
    ensures Second(a % 4 * 16 + b / 16, b % 16 * 4 + c / 64) == b
    ensures Third(b % 16 * 4 + c / 64, c % 64) == c
  {
  }

  lemma RegroupDigits(p: Sextet, q: Sextet, r: Sextet, s: Sextet)
    ensures First(p, q) / 4 == p && First(p, q) % 4 == q / 16
    ensures Second(q, r) / 16 == q % 16 && Second(q, r) % 16 == r / 4
    ensures Third(r, s) / 64 == r % 4 && Third(r, s) % 64 == s
  {
  }

  lemma RegroupLast(a: Byte, b: Byte)
    ensures First(a / 4, a % 4 * 16) == a
    ensures First(a / 4, a % 4 * 16 + b / 16) == a && Second(a % 4 * 16 + b / 16, b % 16 * 4) == b
  {
    RegroupBytes(a, b, 0);
  }

  lemma UndigitsOfFew(p: Sextet, q: Sextet, r: Sextet)
    ensures Undigits([p, q]) == [First(p, q) as char]
    ensures Undigits([p, q, r]) == [First(p, q) as char, Second(q, r) as char]
  {
  }

  lemma UndigitsShort(a: Byte, b: Byte)
    ensures Undigits(Pair(a)) == [a as char] && Undigits(Triple(a, b)) == [a as char, b as char]
  {
    RegroupLast(a, b);
    UndigitsOfFew(a / 4, a % 4 * 16, 0);
    UndigitsOfFew(a / 4, a % 4 * 16 + b / 16, b % 16 * 4);
  }

  lemma UndigitsOfQuad(a: Byte, b: Byte, c: Byte, tail: seq<Sextet>)
    ensures Undigits(Quad(a, b, c) + tail) == [a as char, b as char, c as char] + Undigits(tail)
  {
    RegroupBytes(a, b, c);
    assert (Quad(a, b, c) + tail)[4..] == tail;
  }

  lemma {:induction false} UndigitsDigits(x: Text)
    ensures Undigits(Digits(x)) == x
  {
    if x == "" {
    } else if |x| == 1 {
      UndigitsShort(x[0] as int, 0);
    } else if |x| == 2 {
      UndigitsShort(x[0] as int, x[1] as int);
    } else {
      UndigitsDigits(x[3..]);
      UndigitsOfQuad(x[0] as int, x[1] as int, x[2] as int, Digits(x[3..]));
      assert x == [x[0], x[1], x[2]] + x[3..];
    }
  }

  /** Digits that some byte string has: a possible number of them, no stray bits in the last one. */
  predicate Tidy(d: seq<Sextet>) {
    |d| % 4 != 1 && (|d| % 4 == 2 ==> d[|d| - 1] % 16 == 0) && (|d| % 4 == 3 ==> d[|d| - 1] % 4 == 0)
  }

  lemma TidyTail(d: seq<Sextet>)
    requires |d| >= 4
    ensures Tidy(d) <==> Tidy(d[4..])
  {
    assert |d[4..]| % 4 == |d| % 4;
    assert |d| > 4 ==> d[4..][|d| - 5] == d[|d| - 1];
  }

  lemma DigitsStep(a: Byte, b: Byte, c: Byte, tail: Text)
    ensures Digits([a as char, b as char, c as char] + tail) == Quad(a, b, c) + Digits(tail)
  {
    assert ([a as char, b as char, c as char] + tail)[3..] == tail;
  }

  lemma {:induction false} DigitsUndigitsShort(d: seq<Sextet>)
    requires |d| < 4 && Tidy(d)
    ensures Digits(Undigits(d)) == d
  {
    if |d| == 3 {
      RegroupDigits(d[0], d[1], d[2], 0);
      assert d[2] / 4 * 4 == d[2];
    } else if |d| == 2 {
      RegroupDigits(d[0], d[1], 0, 0);
      assert d[1] / 16 * 16 == d[1];
    }
  }

  lemma QuadOfRegrouped(p: Sextet, q: Sextet, r: Sextet, s: Sextet)
    ensures Quad(First(p, q), Second(q, r), Third(r, s)) == [p, q, r, s]
  {
    RegroupDigits(p, q, r, s);
    assert q % 16 + q / 16 * 16 == q && r % 4 + r / 4 * 4 == r;
  }

  lemma UndigitsStep(d: seq<Sextet>)
    requires |d| >= 4
    ensures Undigits(d) == [First(d[0], d[1]) as char, Second(d[1], d[2]) as char, Third(d[2], d[3]) as char]
                           + Undigits(d[4..])
  {
  }

  lemma DigitsUndigitsStep(d: seq<Sextet>)
    requires |d| >= 4
    ensures Digits(Undigits(d)) == [d[0], d[1], d[2], d[3]] + Digits(Undigits(d[4..]))
  {
    var a, b, c := First(d[0], d[1]), Second(d[1], d[2]), Third(d[2], d[3]);
    UndigitsStep(d);
    DigitsStep(a, b, c, Undigits(d[4..]));
    QuadOfRegrouped(d[0], d[1], d[2], d[3]);
  }

  lemma {:induction false} DigitsUndigits(d: seq<Sextet>)
    requires Tidy(d)
    ensures Digits(Undigits(d)) == d
  {
    if |d| < 4 {
      DigitsUndigitsShort(d);
    } else {
      TidyTail(d);
      DigitsUndigits(d[4..]);
      DigitsUndigitsStep(d);
      assert d == [d[0], d[1], d[2], d[3]] + d[4..];
    }
  }

  lemma ShortIsTidy(a: Byte, b: Byte)
    ensures Tidy(Pair(a)) && Tidy(Triple(a, b))
  {
  }

  lemma {:induction false} DigitsAreTidy(x: Text)
    ensures Tidy(Digits(x))
  {
    if x == "" {
    } else if |x| == 1 {
      ShortIsTidy(x[0] as int, 0);
    } else if |x| == 2 {
      ShortIsTidy(x[0] as int, x[1] as int);
    } else {
      DigitsAreTidy(x[3..]);
      var quad := Quad(x[0] as int, x[1] as int, x[2] as int);
      assert (quad + Digits(x[3..]))[4..] == Digits(x[3..]);
      TidyTail(Digits(x));
    }
  }

  function ToChar(n: Sextet): (c: Octet)
    ensures IsBase64Char(c) && FromChar(c) == n
  {
    if n < 26 then ('A' as int + n) as char
    else if n < 52 then ('a' as int + (n - 26)) as char
    else if n < 62 then ('0' as int + (n - 52)) as char
    else if n == 62 then '+'
    else '/'
  }

  predicate IsBase64Char(c: Octet) {
    'A' <= c <= 'Z' || 'a' <= c <= 'z' || '0' <= c <= '9' || c == '+' || c == '/'
  }

  function FromChar(c: Octet): (n: Sextet)
    requires IsBase64Char(c)
  {
    if 'A' <= c <= 'Z' then c as int - 'A' as int
    else if 'a' <= c <= 'z' then c as int - 'a' as int + 26
    else if '0' <= c <= '9' then c as int - '0' as int + 52
    else if c == '+' then 62
    else 63
  }

  function ToChars(d: seq<Sextet>): (s: Text)
    ensures |s| == |d| && forall i :: 0 <= i < |d| ==> s[i] == ToChar(d[i])
  {
    seq(|d|, i requires 0 <= i < |d| => ToChar(d[i]))
  }

  predicate IsBase64Text(s: Text) {
    forall i :: 0 <= i < |s| ==> IsBase64Char(s[i])
  }

  function FromChars(s: Text): (d: seq<Sextet>)
    requires IsBase64Text(s)
    ensures |d| == |s| && forall i :: 0 <= i < |s| ==> d[i] == FromChar(s[i])
  {
    seq(|s|, i requires 0 <= i < |s| => FromChar(s[i]))
  }

  /** The number of '=' that brings a length up to a multiple of four. */
  function PadCount(n: nat): (k: nat)
    ensures k < 4 && (n + k) % 4 == 0
  {
    (4 - n % 4) % 4
  }

  function Repad(s: Text): Text {
    s + Repeat('=', PadCount(|s|))
  }

  /** BIO_write through BIO_f_base64 without newlines. */
  function BioEncode(x: Text): Text {
    Repad(ToChars(Digits(x)))
  }

  /** How many of the last two characters are padding, counted from the end. */
  function TrailingPads(t: Text): (k: nat)
    ensures k <= |t|
  {
    if |t| == 0 || t[|t| - 1] != '=' then 0
    else if |t| == 1 || t[|t| - 2] != '=' then 1
    else 2
  }

  /** BIO_read through BIO_f_base64: None where the library reports an error. As in the library,
      the unused bits before the padding are not looked at. */
  function BioDecode(t: Text): (r: Option<Text>) {
    var core := t[..|t| - TrailingPads(t)];
    if |t| % 4 != 0 || !IsBase64Text(core) then None else Some(Undigits(FromChars(core)))
  }

  // ---------------------------------------------------------------- the URL form

  function UrlChar(c: Octet): Text {
    if c == '+' then "-" else if c == '/' then "_" else if c == '=' then "" else [c]
  }

  /** What the loop of base64url_encode makes of the library's output. */
  function UrlForm(b64: Text): (r: Text) {
    if b64 == "" then "" else UrlChar(b64[0]) + UrlForm(b64[1..])
  }

  function UrlEncode(x: Text): Text {
    UrlForm(BioEncode(x))
  }

  function FromUrlChar(c: Octet): Octet {
    if c == '-' then '+' else if c == '_' then '/' else c
  }

  function FromUrl(s: Text): (r: Text)
    ensures |r| == |s| && forall i :: 0 <= i < |s| ==> r[i] == FromUrlChar(s[i])
  {
    seq(|s|, i requires 0 <= i < |s| => FromUrlChar(s[i]))
  }

  function UrlDecode(s: Text): Text {
    match BioDecode(Repad(FromUrl(s)))
    case None => ""
    case Some(x) => x
  }

  method Base64UrlEncode(input: Text) returns (b64url: Text)
    ensures b64url == UrlEncode(input)
  {
    var ret := BioEncode(input);
    b64url := "";
    for i := 0 to |ret|
      invariant b64url == UrlForm(ret[..i])
    {
      var c := ret[i];
      UrlFormStep(ret, i);
      if c == '+' {
        b64url := b64url + "-";
      } else if c == '/' {
        b64url := b64url + "_";
      } else if c != '=' {
        b64url := b64url + [c];
      }
    }
    assert ret[..|ret|] == ret;
  }

  method Base64UrlDecode(input: Text) returns (r: Text)
    ensures r == UrlDecode(input)
  {
    var b64 := input;
    for i := 0 to |b64|
      invariant |b64| == |input|
      invariant forall j :: 0 <= j < |input| ==> b64[j] == if j < i then FromUrlChar(input[j]) else input[j]
    {
      if b64[i] == '-' {
        b64 := b64[i := '+'];
      } else if b64[i] == '_' {
        b64 := b64[i := '/'];
      }
    }
    ghost var core := FromUrl(input);
    assert b64 == core;
    while |b64| % 4 != 0
      invariant |core| <= |b64| <= |core| + PadCount(|core|)
      invariant b64 == core + Repeat('=', |b64| - |core|)
      decreases |core| + PadCount(|core|) - |b64|
    {
      b64 := b64 + "=";
      assert b64 == core + Repeat('=', |b64| - |core|);
    }
    assert |b64| == |core| + PadCount(|core|);
    assert b64 == Repad(core);
    match BioDecode(b64)
    case None => return "";
    case Some(x) => return x;
  }

  lemma {:induction false} UrlFormAppend(s: Text, t: Text)
    ensures UrlForm(s + t) == UrlForm(s) + UrlForm(t)
  {
    if s == "" {
      assert s + t == t;
    } else {
      assert (s + t)[1..] == s[1..] + t;
      UrlFormAppend(s[1..], t);
    }
  }

  lemma UrlFormStep(s: Text, i: nat)
    requires i < |s|
    ensures UrlForm(s[..i + 1]) == UrlForm(s[..i]) + UrlChar(s[i])
  {
    assert s[..i + 1] == s[..i] + [s[i]];
    UrlFormAppend(s[..i], [s[i]]);
    assert [s[i]][1..] == "" && UrlForm("") == "";
  }

  lemma {:induction false} UrlFormOfPadding(n: nat)
    ensures UrlForm(Repeat('=', n)) == ""
  {
    if n == 0 {
    } else {
      UrlFormOfPadding(n - 1);
      assert Repeat('=', n)[1..] == Repeat('=', n - 1);
    }
  }

  lemma UrlCharPlain(c: Octet)
    requires IsBase64Char(c)
    ensures |UrlChar(c)| == 1 && IsUrlChar(UrlChar(c)[0]) && FromUrlChar(UrlChar(c)[0]) == c
  {
  }

  /** Outside the padding the translation is one for one. */
  lemma {:induction false} UrlFormPlain(q: Text)
    requires IsBase64Text(q)
    ensures |UrlForm(q)| == |q|
    ensures forall i :: 0 <= i < |q| ==> IsUrlChar(UrlForm(q)[i]) && FromUrlChar(UrlForm(q)[i]) == q[i]
    ensures FromUrl(UrlForm(q)) == q
  {
    if q == "" {
    } else {
      UrlCharPlain(q[0]);
      UrlFormPlain(q[1..]);
      var c := UrlChar(q[0])[0];
      assert UrlForm(q) == [c] + UrlForm(q[1..]);
    }
  }

  lemma {:induction false} UrlFormOfFromUrl(s: Text)
    requires forall i :: 0 <= i < |s| ==> IsUrlChar(s[i])
    ensures UrlForm(FromUrl(s)) == s
  {
    if s == "" {
    } else {
      UrlFormOfFromUrl(s[1..]);
      assert s == [s[0]] + s[1..];
      assert FromUrl(s)[1..] == FromUrl(s[1..]);
    }
  }

  // ---------------------------------------------------------------- main results on the codec

  predicate IsUrlChar(c: Octet) {
    'A' <= c <= 'Z' || 'a' <= c <= 'z' || '0' <= c <= '9' || c == '-' || c == '_'
  }

  /** The URL form is the library's text without its padding. */
  lemma UrlEncodeIsCore(x: Text)
    ensures UrlEncode(x) == UrlForm(ToChars(Digits(x))) && FromUrl(UrlEncode(x)) == ToChars(Digits(x))
  {
    var core := ToChars(Digits(x));
    UrlFormAppend(core, Repeat('=', PadCount(|core|)));
    UrlFormOfPadding(PadCount(|core|));
    UrlFormPlain(core);
  }

  /** Translating back and re-padding restores the library's text, with as many '=' as were stripped. */
  lemma RepadRestores(x: Text)
    ensures Repad(FromUrl(UrlEncode(x))) == BioEncode(x)
  {
    UrlEncodeIsCore(x);
  }

  lemma PadsOfRepad(core: Text)
    requires IsBase64Text(core) && |core| % 4 != 1
    ensures TrailingPads(Repad(core)) == PadCount(|core|)
  {
    assert PadCount(|core|) <= 2;
    assert core != "" ==> core[|core| - 1] != '=';
  }

  /** The padding the library strips before decoding is the padding that was added. */
  lemma BioDecodeRepad(core: Text)
    requires IsBase64Text(core) && |core| % 4 != 1
    ensures BioDecode(Repad(core)) == Some(Undigits(FromChars(core)))
  {
    var t := Repad(core);
    PadsOfRepad(core);
    assert t[..|t| - TrailingPads(t)] == core;
  }

  lemma RoundTrip(x: Text)
    ensures UrlDecode(UrlEncode(x)) == x
  {
    RepadRestores(x);
    var core := ToChars(Digits(x));
    DigitsAreTidy(x);
    BioDecodeRepad(core);
    assert FromChars(core) == Digits(x);
    UndigitsDigits(x);
  }

  /** The vectors "fo" -> "Zm8=" and "foo" -> "Zm9v" of section 10 of RFC 4648, digit by digit. */
  lemma Vectors()
    ensures Digits("fo") == [25, 38, 60] && Digits("foo") == [25, 38, 61, 47]
    ensures ToChar(25) == 'Z' && ToChar(38) == 'm' && ToChar(60) == '8' && ToChar(61) == '9' && ToChar(47) == 'v'
    ensures PadCount(3) == 1 && PadCount(4) == 0
  {
  }

  /** The digit n of the URL alphabet, table 2 of RFC 4648. */
  function UrlDigit(n: Sextet): Octet {
    if n < 26 then ('A' as int + n) as char
    else if n < 52 then ('a' as int + (n - 26)) as char
    else if n < 62 then ('0' as int + (n - 52)) as char
    else if n == 62 then '-'
    else '_'
  }

  lemma AlphabetIsStandard(n: Sextet)
    ensures UrlChar(ToChar(n)) == [UrlDigit(n)]
  {
  }

  /** The characters of some digits. */
  function CharsOf(d: seq<Sextet>): (s: Text)
    ensures |s| == |d|
  {
    seq(|d|, i requires 0 <= i < |d| => UrlDigit(d[i]))
  }

  lemma {:induction false} UrlFormOfChars(d: seq<Sextet>)
    ensures UrlForm(ToChars(d)) == CharsOf(d)
  {
    if d == [] {
    } else {
      AlphabetIsStandard(d[0]);
      UrlFormOfChars(d[1..]);
      assert ToChars(d)[1..] == ToChars(d[1..]);
      assert CharsOf(d) == [UrlDigit(d[0])] + CharsOf(d[1..]);
    }
  }

  lemma DigitsToBase64(v: nat, d0: Sextet, d1: Sextet, d2: Sextet, d3: Sextet)
    requires v == ((d0 * 64 + d1) * 64 + d2) * 64 + d3
    ensures v % 64 == d3 && v / 64 % 64 == d2 && v / 0x1000 % 64 == d1 && v / 0x4_0000 % 64 == d0
  {
  }

  /** The digit to base 64 that counts w. */
  function DigitOf(v: nat, w: nat): Octet
    requires w > 0
  {
    UrlDigit(v / w % 64)
  }

  lemma FourDigits(v: nat, a: Byte, b: Byte, c: Byte)
    requires v == a * 0x1_0000 + b * 0x100 + c
    ensures Quad(a, b, c) == [v / 0x4_0000 % 64, v / 0x1000 % 64, v / 64 % 64, v % 64]
  {
    assert a == a / 4 * 4 + a % 4 && b == b / 16 * 16 + b % 16 && c == c / 64 * 64 + c % 64;
    DigitsToBase64(v, a / 4, a % 4 * 16 + b / 16, b % 16 * 4 + c / 64, c % 64);
  }

  lemma TwoDigits(v: nat, a: Byte)
    requires v == a * 16
    ensures Pair(a) == [v / 64 % 64, v % 64]
  {
    DigitsToBase64(v, 0, 0, a / 4, a % 4 * 16);
  }

  lemma ThreeDigits(v: nat, a: Byte, b: Byte)
    requires v == (a * 0x100 + b) * 4
    ensures Triple(a, b) == [v / 0x1000 % 64, v / 64 % 64, v % 64]
  {
    assert a == a / 4 * 4 + a % 4 && b == b / 16 * 16 + b % 16;
    DigitsToBase64(v, 0, a / 4, a % 4 * 16 + b / 16, b % 16 * 4);
  }

  lemma {:induction false} EncodedDigits(x: Text)
    ensures UrlEncode(x) == CharsOf(Digits(x))
  {
    UrlEncodeIsCore(x);
    UrlFormOfChars(Digits(x));
  }

  lemma EncodesOne(a: Byte)
    ensures UrlEncode("") == "" && UrlEncode([a as char]) == [DigitOf(a * 16, 64), DigitOf(a * 16, 1)]
  {
    EncodedDigits("");
    EncodedDigits([a as char]);
    TwoDigits(a * 16, a);
    assert a * 16 / 1 == a * 16;
    assert Digits([a as char]) == Pair(a);
  }

  lemma EncodesTwo(v: nat, a: Byte, b: Byte)
    requires v == (a * 0x100 + b) * 4
    ensures UrlEncode([a as char, b as char]) == [DigitOf(v, 0x1000), DigitOf(v, 64), DigitOf(v, 1)]
  {
    EncodedDigits([a as char, b as char]);
    ThreeDigits(v, a, b);
    assert v / 1 == v;
    assert Digits([a as char, b as char]) == Triple(a, b);
  }

  lemma {:induction false} EncodesThree(v: nat, a: Byte, b: Byte, c: Byte, rest: Text)
    requires v == a * 0x1_0000 + b * 0x100 + c
    ensures UrlEncode([a as char, b as char, c as char] + rest)
         == [DigitOf(v, 0x4_0000), DigitOf(v, 0x1000), DigitOf(v, 64), DigitOf(v, 1)] + UrlEncode(rest)
  {
    EncodedDigits([a as char, b as char, c as char] + rest);
    EncodedDigits(rest);
    DigitsStep(a, b, c, rest);
    QuadToChars(v, a, b, c);
    CharsJoin(Quad(a, b, c), Digits(rest));
  }

  lemma CharsJoin(d: seq<Sextet>, e: seq<Sextet>)
    ensures CharsOf(d + e) == CharsOf(d) + CharsOf(e)
  {
  }

  lemma QuadToChars(v: nat, a: Byte, b: Byte, c: Byte)
    requires v == a * 0x1_0000 + b * 0x100 + c
    ensures CharsOf(Quad(a, b, c)) == [DigitOf(v, 0x4_0000), DigitOf(v, 0x1000), DigitOf(v, 64), DigitOf(v, 1)]
  {
    FourDigits(v, a, b, c);
    assert v / 1 == v;
  }

  /** Encoding as section 4 of RFC 4648 describes it: three bytes are one number of 24 bits and give its four
      digits to base 64; one or two bytes at the end are filled up with zero bits. */
  lemma {:induction false} EncodesNumbers(a: Byte, b: Byte, c: Byte, rest: Text)
    ensures UrlEncode("") == "" && UrlEncode([a as char]) == [DigitOf(a * 16, 64), DigitOf(a * 16, 1)]
    ensures var v := (a * 0x100 + b) * 4;
            UrlEncode([a as char, b as char]) == [DigitOf(v, 0x1000), DigitOf(v, 64), DigitOf(v, 1)]
    ensures var v := a * 0x1_0000 + b * 0x100 + c;
            UrlEncode([a as char, b as char, c as char] + rest)
            == [DigitOf(v, 0x4_0000), DigitOf(v, 0x1000), DigitOf(v, 64), DigitOf(v, 1)] + UrlEncode(rest)
  {
    EncodesOne(a);
    EncodesTwo((a * 0x100 + b) * 4, a, b);
    EncodesThree(a * 0x1_0000 + b * 0x100 + c, a, b, c, rest);
  }

  /** A text base64url_encode can produce: the alphabet of section 5 of RFC 4648, no padding,
      a possible length, and no stray bits in the last character. */
  predicate Canonical(t: Text) {
    && (forall i :: 0 <= i < |t| ==> IsUrlChar(t[i]))
    && |t| % 4 != 1
    && (|t| % 4 == 2 ==> FromChar(FromUrlChar(t[|t| - 1])) % 16 == 0)
    && (|t| % 4 == 3 ==> FromChar(FromUrlChar(t[|t| - 1])) % 4 == 0)
  }

  lemma EncodedIsCanonical(x: Text)
    ensures Canonical(UrlEncode(x)) && |UrlEncode(x)| == EncodedLength(|x|)
  {
    UrlEncodeIsCore(x);
    DigitsAreTidy(x);
    UrlFormPlain(ToChars(Digits(x)));
    TidyIsCanonical(UrlEncode(x), Digits(x));
  }

  lemma TidyIsCanonical(t: Text, d: seq<Sextet>)
    requires |t| == |d| && forall i :: 0 <= i < |t| ==> IsUrlChar(t[i]) && FromUrlChar(t[i]) == ToChar(d[i])
    requires Tidy(d)
    ensures Canonical(t)
  {
  }

  lemma CanonicalSurvives(t: Text)
    requires Canonical(t)
    ensures UrlEncode(UrlDecode(t)) == t
  {
    var core := FromUrl(t);
    var d := FromChars(core);
    BioDecodeRepad(core);
    DigitsUndigits(d);
    ToCharsFromChars(core);
    UrlEncodeIsCore(UrlDecode(t));
    UrlFormOfFromUrl(t);
  }

  /** Decoding then encoding gives a text back exactly when the text is canonical. */
  lemma DecodeEncodeIffCanonical(t: Text)
    ensures UrlEncode(UrlDecode(t)) == t <==> Canonical(t)
  {
    EncodedIsCanonical(UrlDecode(t));
    if Canonical(t) {
      CanonicalSurvives(t);
    }
  }

  lemma ToCharsFromChars(s: Text)
    requires IsBase64Text(s)
    ensures ToChars(FromChars(s)) == s
  {
    forall i | 0 <= i < |s| ensures ToChar(FromChar(s[i])) == s[i] { ToCharFromChar(s[i]); }
  }

  lemma ToCharFromChar(c: Octet)
    requires IsBase64Char(c)
    ensures ToChar(FromChar(c)) == c
  {
  }

  // ---------------------------------------------------------------- other texts than those encoded

  /** The library's own text is decoded too, padding and all. */
  lemma PaddedIsDecoded(x: Text)
    ensures UrlDecode(BioEncode(x)) == x
  {
    RepadRestores(x);
    RoundTrip(x);
    NoUrlCharIn(x);
    StandardIsUntouched(BioEncode(x));
    SameDecoded(UrlEncode(x), BioEncode(x));
  }

  lemma SameDecoded(s: Text, t: Text)
    requires Repad(FromUrl(s)) == Repad(FromUrl(t))
    ensures UrlDecode(s) == UrlDecode(t)
  {
  }

  lemma NoUrlCharIn(x: Text)
    ensures |BioEncode(x)| % 4 == 0
    ensures '-' !in BioEncode(x) && '_' !in BioEncode(x)
  {
    var t := BioEncode(x);
    forall i | 0 <= i < |t| ensures t[i] != '-' && t[i] != '_' {
      assert t[i] == '=' || IsBase64Char(t[i]);
    }
  }

  lemma StandardIsUntouched(t: Text)
    requires |t| % 4 == 0 && '-' !in t && '_' !in t
    ensures Repad(FromUrl(t)) == t
  {
  }

  lemma {:induction false} UndigitsFew(d: seq<Sextet>, p: Sextet, q: Sextet)
    requires (|d| == 1 && p / 16 == q / 16) || (|d| == 2 && p / 4 == q / 4)
    ensures Undigits(d + [p]) == Undigits(d + [q])
  {
    if |d| == 1 {
      assert d + [p] == [d[0], p] && d + [q] == [d[0], q];
      UndigitsOfFew(d[0], p, 0);
      UndigitsOfFew(d[0], q, 0);
    } else {
      assert d + [p] == [d[0], d[1], p] && d + [q] == [d[0], d[1], q];
      UndigitsOfFew(d[0], d[1], p);
      UndigitsOfFew(d[0], d[1], q);
    }
  }

  lemma UndigitsOfFour(p: Sextet, q: Sextet, r: Sextet, s: Sextet, tail: seq<Sextet>)
    ensures Undigits([p, q, r, s] + tail)
         == [First(p, q) as char, Second(q, r) as char, Third(r, s) as char] + Undigits(tail)
  {
    UndigitsStep([p, q, r, s] + tail);
    assert ([p, q, r, s] + tail)[4..] == tail;
  }

  lemma {:induction false} UndigitsLast(d: seq<Sextet>, p: Sextet, q: Sextet)
    requires (|d| % 4 == 1 && p / 16 == q / 16) || (|d| % 4 == 2 && p / 4 == q / 4)
    ensures Undigits(d + [p]) == Undigits(d + [q])
  {
    if |d| < 4 {
      UndigitsFew(d, p, q);
    } else {
      var tail := d[4..];
      UndigitsLast(tail, p, q);
      UndigitsOfFour(d[0], d[1], d[2], d[3], tail + [p]);
      UndigitsOfFour(d[0], d[1], d[2], d[3], tail + [q]);
      assert d + [p] == [d[0], d[1], d[2], d[3]] + (tail + [p]);
      assert d + [q] == [d[0], d[1], d[2], d[3]] + (tail + [q]);
    }
  }

  /** The bits of the last character that no byte has room for are not looked at. */
  lemma UnusedBitsAreIgnored(t: Text, p: Octet, q: Octet)
    requires (forall i :: 0 <= i < |t| ==> IsUrlChar(t[i])) && IsUrlChar(p) && IsUrlChar(q)
    requires var m, n := FromChar(FromUrlChar(p)), FromChar(FromUrlChar(q));
             (|t| % 4 == 1 && m / 16 == n / 16) || (|t| % 4 == 2 && m / 4 == n / 4)
    ensures UrlDecode(t + [p]) == UrlDecode(t + [q])
  {
    UrlTextIsBase64(t);
    DecodedDigits(t, p);
    DecodedDigits(t, q);
    UndigitsLast(FromChars(FromUrl(t)), FromChar(FromUrlChar(p)), FromChar(FromUrlChar(q)));
  }

  lemma UrlTextIsBase64(t: Text)
    requires forall i :: 0 <= i < |t| ==> IsUrlChar(t[i])
    ensures IsBase64Text(FromUrl(t))
  {
  }

  lemma DecodedDigits(t: Text, p: Octet)
    requires IsBase64Text(FromUrl(t)) && IsUrlChar(p) && |t| % 4 != 0
    ensures UrlDecode(t + [p]) == Undigits(FromChars(FromUrl(t)) + [FromChar(FromUrlChar(p))])
  {
    var core := FromUrl(t + [p]);
    assert core == FromUrl(t) + [FromUrlChar(p)];
    BioDecodeRepad(core);
    assert FromChars(core) == FromChars(FromUrl(t)) + [FromChar(FromUrlChar(p))];
  }

  /** A text with a foreign character before its last two gives nothing. */
  lemma ForeignTextIsRefused(t: Text, i: nat)
    requires i + 2 < |t| && !IsUrlChar(t[i]) && t[i] != '+' && t[i] != '/'
    ensures UrlDecode(t) == ""
  {
    var padded := Repad(FromUrl(t));
    assert padded[i] == t[i] && !IsBase64Char(padded[i]);
    RefusedByCore(padded, i);
  }

  lemma RefusedByCore(padded: Text, i: nat)
    requires i + 2 < |padded| && !IsBase64Char(padded[i])
    ensures BioDecode(padded).None?
  {
    var core := padded[..|padded| - TrailingPads(padded)];
    assert TrailingPads(padded) <= 2 && core[i] == padded[i];
  }

  /** So does one whose length no encoding has. */
  lemma ImpossibleLengthIsRefused(t: Text)
    requires |t| % 4 == 1
    ensures UrlDecode(t) == ""
  {
    var padded := Repad(FromUrl(t));
    assert |padded| == |t| + 3 && padded[|t|] == '=';
    RefusedByCore(padded, |t|);
  }

  // ---------------------------------------------------------------- AES-128-GCM protection

  type Nonce = t: Text | |t| == 12 witness "012345678901"

  datatype Sealed = Sealed(ciphertext: Text, tag: Text)

  /** An AEAD: seal(key, iv, aad, plaintext) and open(key, iv, aad, ciphertext, tag). */
  datatype Aead = Aead(
    seal: (Text, Text, Text, Text) -> Sealed,
    open: (Text, Text, Text, Text, Text) -> Option<Text>
  ) {
    /** Sizes of AES-128-GCM, and: what was sealed opens under the same key, nonce and data. */
    ghost predicate Lawful() {
      forall key: Text, iv: Text, aad: Text, plain: Text :: |key| == 16 && |iv| == 12 ==>
        var s := seal(key, iv, aad, plain);
        |s.ciphertext| == |plain| && |s.tag| == 16 && open(key, iv, aad, s.ciphertext, s.tag) == Some(plain)
    }
  }

  lemma LawfulAeadExists() returns (aead: Aead)
    ensures aead.Lawful()
  {
    aead := Aead((key: Text, iv: Text, aad: Text, plain: Text) => Sealed(plain, "0123456789abcdef"),
                 (key: Text, iv: Text, aad: Text, cipher: Text, tag: Text) => Some(cipher));
  }

  datatype Jwe = Jwe(iv: Text, ciphertext: Text, tag: Text)

  /** `nonce` is what RAND_bytes delivered; None when it or any EVP call failed. */
  function ApplyJwe(aead: Aead, plain: Text, aad: Text, key: Text, nonce: Option<Nonce>): (r: Option<Jwe>) {
    if |key| != 16 || nonce.None? then None
    else
      var s := aead.seal(key, nonce.value, aad, plain);
      Some(Jwe(UrlEncode(nonce.value), UrlEncode(s.ciphertext), UrlEncode(s.tag)))
  }

  function DecryptJwe(aead: Aead, jwe: Jwe, aad: Text, key: Text): (r: Option<Text>) {
    var cipher, iv, tag := UrlDecode(jwe.ciphertext), UrlDecode(jwe.iv), UrlDecode(jwe.tag);
    if |key| != 16 || |iv| != 12 || |tag| != 16 then None
    else aead.open(key, iv, aad, cipher, tag)
  }

  /** Under one 16-byte key, whatever was protected passes the length checks and comes back. */
  lemma JweRoundTrip(aead: Aead, plain: Text, aad: Text, key: Text, nonce: Option<Nonce>)
    requires aead.Lawful()
    ensures var r := ApplyJwe(aead, plain, aad, key, nonce);
            && (r.Some? <==> |key| == 16 && nonce.Some?)
            && (r.Some? ==> DecryptJwe(aead, r.value, aad, key) == Some(plain))
            && (r.Some? ==> |r.value.iv| == 16 && |r.value.tag| == 22
                            && |r.value.ciphertext| == EncodedLength(|plain|))
  {
    if |key| == 16 && nonce.Some? {
      var s := aead.seal(key, nonce.value, aad, plain);
      RoundTrip(nonce.value);
      RoundTrip(s.ciphertext);
      RoundTrip(s.tag);
      EncodedIsCanonical(nonce.value);
      EncodedIsCanonical(s.ciphertext);
      EncodedIsCanonical(s.tag);
    }
  }
}
