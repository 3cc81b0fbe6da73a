/** scripts/test/align_sepp_interfaces.py, lines 13-18: replacements whose offsets were all taken from one
    text, applied from right to left. */
module Splice {
  import opened StableSort

  /** Replace the text from key.major up to key.minor by value. */
  type Edit = Item<string>

  function From(e: Edit): int { e.key.major }

  function To(e: Edit): int { e.key.minor }

  ghost predicate InText(edits: seq<Edit>, n: nat) {
    forall i :: 0 <= i < |edits| ==> 0 <= From(edits[i]) < To(edits[i]) <= n
  }

  ghost predicate Disjoint(edits: seq<Edit>) {
    forall i, j :: 0 <= i < j < |edits| ==> To(edits[i]) <= From(edits[j]) || To(edits[j]) <= From(edits[i])
  }

  /** Python's slices text[:a] and text[b:], total. */
  function Before(text: string, a: int): string {
    if a <= 0 then "" else if a <= |text| then text[..a] else text
  }

  function After(text: string, b: int): string {
    if b <= 0 then text else if b <= |text| then text[b..] else ""
  }

  function ReplaceOne(text: string, e: Edit): string {
    Before(text, From(e)) + e.value + After(text, To(e))
  }

  function Reverse(s: seq<Edit>): (r: seq<Edit>)
    ensures |r| == |s|
  {
    if s == [] then [] else Reverse(s[1..]) + [s[0]]
  }

  /** One replacement after the other. */
  function ApplyAll(text: string, edits: seq<Edit>): string
    decreases |edits|
  {
    if edits == [] then text else ApplyAll(ReplaceOne(text, edits[0]), edits[1..])
  }

  /** sorted(edits, reverse=True), for edits of which no two have the same span. */
  function Descending(edits: seq<Edit>): seq<Edit> {
    Reverse(Sort(edits))
  }

  method ApplyEdits(original: string, edits: seq<Edit>) returns (text: string)
    ensures text == ApplyAll(original, Descending(edits))
  {
    text := original;
    var order := Descending(edits);
    for i := 0 to |order|
      invariant ApplyAll(text, order[i..]) == ApplyAll(original, order)
    {
      assert order[i..][0] == order[i] && order[i..][1..] == order[i + 1..];
      text := Before(text, From(order[i])) + order[i].value + After(text, To(order[i]));
    }
    assert order[|order|..] == [];
  }

  // ---------------------------------------------------------------- all replacements at once

  /** The spans follow each other between `from` and n. */
  ghost predicate Ascending(edits: seq<Edit>, from: int, n: int)
    decreases |edits|
  {
    if edits == [] then from <= n
    else from <= From(edits[0]) < To(edits[0]) && Ascending(edits[1..], To(edits[0]), n)
  }

  lemma {:induction false} AscendingFits(edits: seq<Edit>, from: int, n: int)
    requires Ascending(edits, from, n)
    ensures from <= n
    ensures forall m :: n <= m ==> Ascending(edits, from, m)
    decreases |edits|
  {
    if edits == [] {
    } else {
      AscendingFits(edits[1..], To(edits[0]), n);
    }
  }

  lemma {:induction false} AscendingSnoc(edits: seq<Edit>, last: Edit, from: int, n: int)
    ensures Ascending(edits + [last], from, n)
       <==> Ascending(edits, from, From(last)) && From(last) < To(last) <= n
    decreases |edits|
  {
    var all := edits + [last];
    if edits == [] {
      assert all[1..] == [];
    } else {
      assert all[1..] == edits[1..] + [last];
      AscendingSnoc(edits[1..], last, To(edits[0]), n);
    }
  }

  /** Reading the original once from `from` on: untouched stretch, replacement, untouched stretch, ... */
  function Simultaneous(text: string, edits: seq<Edit>, from: nat): string
    requires Ascending(edits, from, |text|)
    decreases |edits|
  {
    AscendingFits(edits, from, |text|);
    if edits == [] then text[from..]
    else
      AscendingFits(edits[1..], To(edits[0]), |text|);
      text[from..From(edits[0])] + edits[0].value + Simultaneous(text, edits[1..], To(edits[0]))
  }

  lemma PrefixSlice(text: string, m: nat, i: nat, j: nat)
    requires i <= j <= m <= |text|
    ensures text[..m][i..j] == text[i..j]
  {
  }

  lemma SpliceAppend(a: string, v: string, s: string, t: string)
    ensures a + v + (s + t) == (a + v + s) + t
  {
  }

  /** What follows the last span is copied. */
  lemma {:induction false} TailIsCopied(text: string, edits: seq<Edit>, from: nat, m: nat)
    requires m <= |text| && Ascending(edits, from, m)
    ensures Ascending(edits, from, |text|)
    ensures Simultaneous(text, edits, from) == Simultaneous(text[..m], edits, from) + text[m..]
    decreases |edits|
  {
    AscendingFits(edits, from, m);
    if edits == [] {
      assert text[from..] == text[..m][from..] + text[m..];
    } else {
      var rest, next := edits[1..], To(edits[0]);
      AscendingFits(rest, next, m);
      TailIsCopied(text, rest, next, m);
      PrefixSlice(text, m, from, From(edits[0]));
      SpliceAppend(text[from..From(edits[0])], edits[0].value, Simultaneous(text[..m], rest, next), text[m..]);
    }
  }

  /** The last edit replaces its span at the end of what the others produce. */
  lemma {:induction false} LastAtEnd(text: string, edits: seq<Edit>, last: Edit, from: nat)
    requires From(last) < To(last) <= |text| && Ascending(edits, from, From(last))
    ensures from <= From(last) && Ascending(edits + [last], from, |text|)
    ensures Simultaneous(text, edits + [last], from)
         == Simultaneous(text[..From(last)], edits, from) + (last.value + text[To(last)..])
    decreases |edits|
  {
    var all, m := edits + [last], From(last);
    AscendingFits(edits, from, m);
    AscendingSnoc(edits, last, from, |text|);
    if edits == [] {
      assert all == [last] && all[1..] == [];
      PrefixSlice(text, m, from, m);
    } else {
      var rest, next := edits[1..], To(edits[0]);
      assert all[0] == edits[0] && all[1..] == rest + [last];
      AscendingFits(rest, next, m);
      LastAtEnd(text, rest, last, next);
      PrefixSlice(text, m, from, From(edits[0]));
      SpliceAppend(text[from..From(edits[0])], edits[0].value, Simultaneous(text[..m], rest, next),
                   last.value + text[To(last)..]);
    }
  }

  /** Doing the last replacement first leaves the others as they were. */
  lemma LastFirst(text: string, edits: seq<Edit>, last: Edit)
    requires Ascending(edits + [last], 0, |text|)
    ensures var next := ReplaceOne(text, last);
            && Ascending(edits, 0, |next|)
            && Simultaneous(next, edits, 0) == Simultaneous(text, edits + [last], 0)
  {
    AscendingSnoc(edits, last, 0, |text|);
    var m := From(last);
    AscendingFits(edits, 0, m);
    var next := ReplaceOne(text, last);
    assert next[..m] == text[..m] && next[m..] == last.value + text[To(last)..];
    TailIsCopied(next, edits, 0, m);
    LastAtEnd(text, edits, last, 0);
  }

  lemma {:induction false} ReverseSnoc(s: seq<Edit>, e: Edit)
    ensures Reverse(s + [e]) == [e] + Reverse(s)
  {
    if s == [] {
      assert s + [e] == [e] && [e][1..] == [];
    } else {
      assert (s + [e])[1..] == s[1..] + [e];
      ReverseSnoc(s[1..], e);
    }
  }

  lemma {:induction false} RightToLeft(text: string, edits: seq<Edit>)
    requires Ascending(edits, 0, |text|)
    ensures ApplyAll(text, Reverse(edits)) == Simultaneous(text, edits, 0)
    decreases |edits|
  {
    if edits == [] {
      assert text[0..] == text;
    } else {
      var init, last := edits[..|edits| - 1], edits[|edits| - 1];
      assert edits == init + [last];
      ReverseSnoc(init, last);
      LastFirst(text, init, last);
      assert ([last] + Reverse(init))[1..] == Reverse(init);
      RightToLeft(ReplaceOne(text, last), init);
    }
  }

  lemma DistinctSpans(edits: seq<Edit>, n: nat)
    requires InText(edits, n) && Disjoint(edits)
    ensures forall i, j :: 0 <= i < j < |edits| ==> edits[i] != edits[j] && From(edits[i]) != From(edits[j])
  {
  }

  /** Sorting disjoint edits puts each before the next. */
  lemma SortAscends(edits: seq<Edit>, n: nat)
    requires InText(edits, n) && Disjoint(edits)
    ensures Ascending(Sort(edits), 0, n)
  {
    SortIsStable(edits);
    var s := Sort(edits);
    DistinctSpans(edits, n);
    forall i | 0 <= i < |s| ensures 0 <= From(s[i]) < To(s[i]) <= n {
      assert s[i] in multiset(s);
    }
    forall i, j | 0 <= i < j < |s| ensures To(s[i]) <= From(s[j]) {
      PairOfSorted(edits, s, i, j);
    }
    PairwiseAscends(s, 0, n);
  }

  lemma {:induction false} PairwiseAscends(s: seq<Edit>, from: int, n: nat)
    requires InText(s, n) && 0 <= from <= n && forall i :: 0 <= i < |s| ==> from <= From(s[i])
    requires forall i, j :: 0 <= i < j < |s| ==> To(s[i]) <= From(s[j])
    ensures Ascending(s, from, n)
    decreases |s|
  {
    if s == [] {
    } else {
      var rest := s[1..];
      assert forall i :: 0 <= i < |rest| ==> rest[i] == s[i + 1];
      PairwiseAscends(rest, To(s[0]), n);
    }
  }

  /** Two places of a rearranged list are two places of the list. */
  lemma PairOfSorted(edits: seq<Edit>, s: seq<Edit>, i: nat, j: nat)
    requires multiset(s) == multiset(edits) && i < j < |s|
    requires Disjoint(edits) && forall x :: 0 <= x < |edits| ==> From(edits[x]) < To(edits[x])
    requires Leq(s[i].key, s[j].key)
    ensures To(s[i]) <= From(s[j])
  {
    assert s[i] in multiset(s) && s[j] in multiset(s);
    var x :| 0 <= x < |edits| && edits[x] == s[i];
    var y :| 0 <= y < |edits| && edits[y] == s[j];
    if x == y {
      TwiceInMultiset(s, i, j);
      OnceInMultiset(edits, x);
    }
  }

  lemma TwiceInMultiset(s: seq<Edit>, i: nat, j: nat)
    requires i < j < |s| && s[i] == s[j]
    ensures multiset(s)[s[i]] >= 2
  {
    assert s == s[..i] + [s[i]] + s[i + 1..j] + [s[j]] + s[j + 1..];
  }

  lemma OnceInMultiset(edits: seq<Edit>, x: nat)
    requires x < |edits| && forall y :: 0 <= y < |edits| && y != x ==> edits[y] != edits[x]
    ensures multiset(edits)[edits[x]] == 1
  {
    assert edits == edits[..x] + [edits[x]] + edits[x + 1..];
    assert edits[x] !in edits[..x] && edits[x] !in edits[x + 1..];
  }

  function Growth(edits: seq<Edit>): int {
    if edits == [] then 0 else |edits[0].value| - (To(edits[0]) - From(edits[0])) + Growth(edits[1..])
  }

  lemma {:induction false} SimultaneousLength(text: string, edits: seq<Edit>, from: nat)
    requires Ascending(edits, from, |text|)
    ensures |Simultaneous(text, edits, from)| == |text| - from + Growth(edits)
    decreases |edits|
  {
    AscendingFits(edits, from, |text|);
    if edits == [] {
    } else {
      AscendingFits(edits[1..], To(edits[0]), |text|);
      SimultaneousLength(text, edits[1..], To(edits[0]));
    }
  }

  lemma {:induction false} InsertGrowth(x: Edit, s: seq<Edit>)
    ensures Growth(Insert(x, s)) == Growth([x]) + Growth(s)
  {
    assert [x][1..] == [];
    if s == [] || Leq(x.key, s[0].key) {
      assert ([x] + s)[1..] == s;
    } else {
      InsertGrowth(x, s[1..]);
      assert ([s[0]] + Insert(x, s[1..]))[1..] == Insert(x, s[1..]);
    }
  }

  lemma {:induction false} SortGrowth(s: seq<Edit>)
    ensures Growth(Sort(s)) == Growth(s)
  {
    if s == [] {
    } else {
      SortGrowth(s[1..]);
      InsertGrowth(s[0], Sort(s[1..]));
      assert [s[0]][1..] == [];
    }
  }

  /** Splicing disjoint, non-empty spans from right to left is replacing all of them at once, in whatever
      order they were collected; the length changes by the sum of the differences. */
  lemma SplicingIsSimultaneous(text: string, edits: seq<Edit>)
    requires InText(edits, |text|) && Disjoint(edits)
    ensures Ascending(Sort(edits), 0, |text|)
    ensures ApplyAll(text, Descending(edits)) == Simultaneous(text, Sort(edits), 0)
    ensures |ApplyAll(text, Descending(edits))| == |text| + Growth(edits)
  {
    SortAscends(edits, |text|);
    RightToLeft(text, Sort(edits));
    SimultaneousLength(text, Sort(edits), 0);
    SortGrowth(edits);
  }

  ghost predicate DistinctKeys(edits: seq<Edit>) {
    forall i, j :: 0 <= i < j < |edits| ==> edits[i].key != edits[j].key
  }

  lemma {:induction false} AtMostOneWithKey(edits: seq<Edit>, k: Key)
    requires DistinctKeys(edits)
    ensures |WithKey(edits, k)| <= 1
  {
    if edits == [] {
    } else {
      var rest := edits[1..];
      AtMostOneWithKey(rest, k);
      if WithKey(rest, k) != [] {
        var x := WithKey(rest, k)[0];
        WithKeyIff(rest, k, x);
        var i :| 0 <= i < |rest| && rest[i] == x;
        assert edits[i + 1] == x;
      }
    }
  }

  lemma SameWithKey(a: seq<Edit>, b: seq<Edit>, k: Key)
    requires multiset(a) == multiset(b) && DistinctKeys(a) && DistinctKeys(b)
    ensures WithKey(a, k) == WithKey(b, k)
  {
    AtMostOneWithKey(a, k);
    AtMostOneWithKey(b, k);
    var wa, wb := WithKey(a, k), WithKey(b, k);
    if wa != [] {
      FoundInBoth(a, b, k);
      assert wa == [wa[0]] && wb == [wa[0]];
    } else if wb != [] {
      FoundInBoth(b, a, k);
    }
  }

  lemma FoundInBoth(a: seq<Edit>, b: seq<Edit>, k: Key)
    requires multiset(a) == multiset(b) && WithKey(a, k) != []
    ensures WithKey(a, k)[0] in WithKey(b, k)
  {
    var x := WithKey(a, k)[0];
    WithKeyIff(a, k, x);
    assert x in multiset(a);
    WithKeyIff(b, k, x);
  }

  /** The order in which the edits were collected does not matter. */
  lemma CollectionOrderIsIrrelevant(text: string, a: seq<Edit>, b: seq<Edit>)
    requires multiset(a) == multiset(b)
    requires InText(a, |text|) && Disjoint(a) && InText(b, |text|) && Disjoint(b)
    ensures ApplyAll(text, Descending(a)) == ApplyAll(text, Descending(b))
  {
    DistinctSpans(a, |text|);
    DistinctSpans(b, |text|);
    SortIsStable(b);
    assert DistinctKeys(a) && DistinctKeys(b);
    forall k ensures WithKey(Sort(b), k) == WithKey(a, k) {
      SameWithKey(a, b, k);
    }
    SortIsTheStableSort(a, Sort(b));
  }

  // ---------------------------------------------------------------- in pieces of text

  /** A stretch that is kept, and one behind it that is replaced. */
  datatype Piece = Piece(kept: string, was: string, becomes: string)

  function TextBefore(pieces: seq<Piece>, tail: string): string {
    if pieces == [] then tail else pieces[0].kept + pieces[0].was + TextBefore(pieces[1..], tail)
  }

  function TextAfter(pieces: seq<Piece>, tail: string): string {
    if pieces == [] then tail else pieces[0].kept + pieces[0].becomes + TextAfter(pieces[1..], tail)
  }

  /** The tuples (start, end, replacement) of the pieces, the first of which starts at `at`. */
  function EditsOf(pieces: seq<Piece>, at: nat): seq<Edit> {
    if pieces == [] then []
    else
      var start := at + |pieces[0].kept|;
      var end := start + |pieces[0].was|;
      [Item(Key(start, end), pieces[0].becomes)] + EditsOf(pieces[1..], end)
  }

  ghost predicate NothingEmpty(pieces: seq<Piece>) {
    forall i :: 0 <= i < |pieces| ==> pieces[i].was != ""
  }

  lemma {:induction false} EditsAscend(pieces: seq<Piece>, at: nat, tail: string)
    requires NothingEmpty(pieces)
    ensures Ascending(EditsOf(pieces, at), at, at + |TextBefore(pieces, tail)|)
    decreases |pieces|
  {
    if pieces == [] {
    } else {
      var end := at + |pieces[0].kept| + |pieces[0].was|;
      EditsAscend(pieces[1..], end, tail);
      assert EditsOf(pieces, at)[1..] == EditsOf(pieces[1..], end);
    }
  }

  lemma {:induction false} AscendingPairs(edits: seq<Edit>, from: int, n: int)
    requires Ascending(edits, from, n)
    ensures forall i :: 0 <= i < |edits| ==> from <= From(edits[i]) < To(edits[i]) <= n
    ensures forall i, j :: 0 <= i < j < |edits| ==> To(edits[i]) <= From(edits[j])
    decreases |edits|
  {
    if edits == [] {
    } else {
      AscendingPairs(edits[1..], To(edits[0]), n);
      AscendingFits(edits[1..], To(edits[0]), n);
      assert forall i :: 0 < i < |edits| ==> edits[i] == edits[1..][i - 1];
    }
  }

  lemma SortedAlready(edits: seq<Edit>, n: int)
    requires Ascending(edits, 0, n)
    ensures Sort(edits) == edits && DistinctKeys(edits)
  {
    AscendingPairs(edits, 0, n);
    forall i, j | 0 <= i < j < |edits| ensures Leq(edits[i].key, edits[j].key) && edits[i].key != edits[j].key {
      assert To(edits[i]) <= From(edits[j]);
    }
    SortIsTheStableSort(edits, edits);
  }

  lemma {:induction false} PiecesAreReplaced(before: string, pieces: seq<Piece>, tail: string)
    requires NothingEmpty(pieces)
    ensures var text, at := before + TextBefore(pieces, tail), |before|;
            && Ascending(EditsOf(pieces, at), at, |text|)
            && Simultaneous(text, EditsOf(pieces, at), at) == TextAfter(pieces, tail)
    decreases |pieces|
  {
    EditsAscend(pieces, |before|, tail);
    if pieces == [] {
    } else {
      var p, rest := pieces[0], pieces[1..];
      var next := before + p.kept + p.was;
      var text := before + TextBefore(pieces, tail);
      PiecesAreReplaced(next, rest, tail);
      TextsJoin(before, p, rest, tail);
      assert pieces == [p] + rest;
      FirstEdit(text, |before|, p, EditsOf(rest, |next|));
    }
  }

  lemma TextsJoin(before: string, p: Piece, rest: seq<Piece>, tail: string)
    ensures var text, next := before + TextBefore([p] + rest, tail), before + p.kept + p.was;
            && text == next + TextBefore(rest, tail)
            && |before| + |p.kept| <= |text| && text[|before|..|before| + |p.kept|] == p.kept
            && TextAfter([p] + rest, tail) == p.kept + p.becomes + TextAfter(rest, tail)
            && EditsOf([p] + rest, |before|)
               == [Item(Key(|before| + |p.kept|, |next|), p.becomes)] + EditsOf(rest, |next|)
  {
    assert ([p] + rest)[1..] == rest;
    KeptStands(before, p.kept, p.was + TextBefore(rest, tail));
    assert before + TextBefore([p] + rest, tail) == before + p.kept + (p.was + TextBefore(rest, tail));
  }

  lemma KeptStands(before: string, kept: string, after: string)
    ensures (before + kept + after)[|before|..|before| + |kept|] == kept
  {
  }

  lemma {:induction false} FirstEdit(text: string, at: nat, p: Piece, rest: seq<Edit>)
    requires var start, end := at + |p.kept|, at + |p.kept| + |p.was|;
             Ascending([Item(Key(start, end), p.becomes)] + rest, at, |text|) && Ascending(rest, end, |text|)
    ensures var start, end := at + |p.kept|, at + |p.kept| + |p.was|;
            && start <= |text|
            && Simultaneous(text, [Item(Key(start, end), p.becomes)] + rest, at)
               == text[at..start] + p.becomes + Simultaneous(text, rest, end)
  {
    var end := at + |p.kept| + |p.was|;
    var edits := [Item(Key(at + |p.kept|, end), p.becomes)] + rest;
    assert edits[1..] == rest;
    AscendingFits(rest, end, |text|);
  }

  lemma SameKeySame(edits: seq<Edit>, x: Edit, y: Edit)
    requires DistinctKeys(edits) && x in edits && y in edits && x.key == y.key
    ensures x == y
  {
  }

  lemma PermutedKeys(a: seq<Edit>, b: seq<Edit>)
    requires multiset(a) == multiset(b) && DistinctKeys(b)
    ensures DistinctKeys(a)
  {
    forall i, j | 0 <= i < j < |a| ensures a[i].key != a[j].key {
      assert a[i] in multiset(a) && a[j] in multiset(a);
      if a[i].key == a[j].key {
        SameKeySame(b, a[i], a[j]);
        TwiceInMultiset(a, i, j);
        var x :| 0 <= x < |b| && b[x] == a[i];
        OnceInMultiset(b, x);
      }
    }
  }

  /** Sorting and splicing the tuples of a text's pieces, in whatever order they were collected, replaces each
      piece by its replacement and keeps everything between them. */
  lemma EditsReplacePieces(pieces: seq<Piece>, tail: string, collected: seq<Edit>)
    requires NothingEmpty(pieces) && multiset(collected) == multiset(EditsOf(pieces, 0))
    ensures ApplyAll(TextBefore(pieces, tail), Descending(collected)) == TextAfter(pieces, tail)
  {
    var text, edits := TextBefore(pieces, tail), EditsOf(pieces, 0);
    PiecesAreReplaced("", pieces, tail);
    assert "" + text == text;
    SortedAlready(edits, |text|);
    PermutedKeys(collected, edits);
    SortIsStable(collected);
    forall k ensures WithKey(Sort(collected), k) == WithKey(edits, k) {
      SameWithKey(collected, edits, k);
    }
    SortIsTheStableSort(edits, Sort(collected));
    RightToLeft(text, edits);
  }
}
