/** Byte strings, as std::string holds them, and the searches the C++ code makes in them. */
module Octets {

  datatype Option<+T> = None | Some(value: T)

  /** One byte, written as a character so that string literals can be used. */
  type Octet = c: char | c <= '\U{FF}' witness 'a'

  type Text = seq<Octet>

  /** The text of n copies of c. */
  function Repeat(c: Octet, n: nat): (r: Text)
    ensures |r| == n && forall i :: 0 <= i < n ==> r[i] == c
  {
    if n == 0 then "" else [c] + Repeat(c, n - 1)
  }

  /** Position of the first c in s; |s| stands for npos. */
  function IndexOf(s: Text, c: Octet): (k: nat)
    ensures k <= |s|
    ensures k < |s| ==> s[k] == c
    ensures forall i :: 0 <= i < k ==> s[i] != c
  {
    if s == "" || s[0] == c then 0 else 1 + IndexOf(s[1..], c)
  }

  lemma IndexOfSplit(s: Text, c: Octet, t: Text)
    requires c !in s
    ensures IndexOf(s + [c] + t, c) == |s|
  {
    var u := s + [c] + t;
    assert u[|s|] == c;
    assert forall i :: 0 <= i < |s| ==> u[i] == s[i];
  }

  predicate IsDigit(c: Octet) {
    '0' <= c <= '9'
  }

  predicate AllDigits(s: Text) {
    forall i :: 0 <= i < |s| ==> IsDigit(s[i])
  }

  lemma AppendOne(s: Text, c: Octet, t: Text)
    ensures s + ([c] + t) == (s + [c]) + t
  {
  }

  /** pattern stands in s at position k. */
  predicate OccursAt(s: Text, pattern: Text, k: nat) {
    k + |pattern| <= |s| && s[k..k + |pattern|] == pattern
  }

  /** First occurrence of pattern at position `from` or later. */
  function FindFrom(s: Text, pattern: Text, from: nat): (r: Option<nat>)
    ensures r.Some? ==> from <= r.value && OccursAt(s, pattern, r.value)
    ensures r.Some? ==> forall i :: from <= i < r.value ==> !OccursAt(s, pattern, i)
    ensures r.None? ==> forall i :: from <= i ==> !OccursAt(s, pattern, i)
    decreases |s| - from
  {
    if from + |pattern| > |s| then None
    else if OccursAt(s, pattern, from) then Some(from)
    else FindFrom(s, pattern, from + 1)
  }

  function Find(s: Text, pattern: Text): (r: Option<nat>)
    ensures r.Some? ==> OccursAt(s, pattern, r.value)
    ensures r.Some? ==> forall i :: 0 <= i < r.value ==> !OccursAt(s, pattern, i)
    ensures r.None? ==> forall i: nat :: !OccursAt(s, pattern, i)
  {
    FindFrom(s, pattern, 0)
  }

  /** When the text before it holds none of its characters but possibly the first,
      and the first is not repeated, the pattern is found exactly where it was put. */
  lemma FindAfterPrefix(prefix: Text, pattern: Text, rest: Text)
    requires |pattern| >= 2 && pattern[1] != pattern[0]
    requires pattern[1] !in prefix
    ensures Find(prefix + pattern + rest, pattern) == Some(|prefix|)
  {
    var s := prefix + pattern + rest;
    assert s[|prefix|..|prefix| + |pattern|] == pattern;
    assert OccursAt(s, pattern, |prefix|);
    assert forall j :: 0 < j <= |prefix| ==> s[j] != pattern[1];
  }

  /** When the first character of the pattern is not in the text before it, the pattern is found
      exactly where it was put. */
  lemma FindAtFirstChar(prefix: Text, pattern: Text, rest: Text)
    requires pattern != "" && pattern[0] !in prefix
    ensures Find(prefix + pattern + rest, pattern) == Some(|prefix|)
  {
    var s := prefix + pattern + rest;
    assert s[|prefix|..|prefix| + |pattern|] == pattern;
    assert OccursAt(s, pattern, |prefix|);
    assert forall j :: 0 <= j < |prefix| ==> s[j] != pattern[0];
  }

  lemma FindIs(s: Text, pattern: Text, k: nat)
    requires OccursAt(s, pattern, k) && forall i :: 0 <= i < k ==> !OccursAt(s, pattern, i)
    ensures Find(s, pattern) == Some(k)
  {
  }

  lemma OverlapRepeats(s: Text, pattern: Text, j: nat, k: nat)
    requires 0 < k < |pattern| && OccursAt(s, pattern, j) && OccursAt(s, pattern, j + k)
    ensures pattern[0] in pattern[1..]
  {
    assert s[j..j + |pattern|][k] == s[j + k] == s[j + k..j + k + |pattern|][0];
    assert pattern[1..][k - 1] == pattern[0];
  }

  /** When the text before it does not hold the pattern, and the pattern's first character does not come
      again in it, the pattern is found exactly where it was put. */
  lemma FindFirstPut(prefix: Text, pattern: Text, rest: Text)
    requires pattern != "" && pattern[0] !in pattern[1..] && Find(prefix, pattern).None?
    ensures Find(prefix + pattern + rest, pattern) == Some(|prefix|)
  {
    var s := prefix + pattern + rest;
    assert s[|prefix|..|prefix| + |pattern|] == pattern;
    forall j | 0 <= j < |prefix| ensures !OccursAt(s, pattern, j) {
      if j + |pattern| <= |prefix| {
        assert s[j..j + |pattern|] == prefix[j..j + |pattern|];
        assert !OccursAt(prefix, pattern, j);
      } else if OccursAt(s, pattern, j) {
        OverlapRepeats(s, pattern, j, |prefix| - j);
      }
    }
    FindIs(s, pattern, |prefix|);
  }
}
