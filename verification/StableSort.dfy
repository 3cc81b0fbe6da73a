/** Python's list.sort with a two-part key: sorted, stable, and determined by these two properties. */
module StableSort {

  datatype Key = Key(major: int, minor: int)

  predicate Leq(a: Key, b: Key) {
    a.major < b.major || (a.major == b.major && a.minor <= b.minor)
  }

  datatype Item<T> = Item(key: Key, value: T)

  ghost predicate Sorted<T>(s: seq<Item<T>>) {
    forall i, j :: 0 <= i < j < |s| ==> Leq(s[i].key, s[j].key)
  }

  /** The items with one key, in their order. */
  ghost function WithKey<T>(s: seq<Item<T>>, k: Key): seq<Item<T>> {
    if s == [] then []
    else (if s[0].key == k then [s[0]] else []) + WithKey(s[1..], k)
  }

  /** x goes before the items that are not smaller. */
  function Insert<T>(x: Item<T>, s: seq<Item<T>>): (r: seq<Item<T>>)
    ensures |r| == |s| + 1
  {
    if s == [] || Leq(x.key, s[0].key) then [x] + s else [s[0]] + Insert(x, s[1..])
  }

  function Sort<T>(s: seq<Item<T>>): (r: seq<Item<T>>)
    ensures |r| == |s|
  {
    if s == [] then [] else Insert(s[0], Sort(s[1..]))
  }

  lemma {:induction false} InsertKeeps<T>(x: Item<T>, s: seq<Item<T>>)
    ensures multiset(Insert(x, s)) == multiset(s) + multiset{x}
  {
    if s == [] || Leq(x.key, s[0].key) {
    } else {
      InsertKeeps(x, s[1..]);
      assert s == [s[0]] + s[1..];
    }
  }

  lemma {:induction false} InsertSorted<T>(x: Item<T>, s: seq<Item<T>>)
    requires Sorted(s)
    ensures Sorted(Insert(x, s))
  {
    if s == [] || Leq(x.key, s[0].key) {
    } else {
      InsertSorted(x, s[1..]);
      InsertKeeps(x, s[1..]);
      var t := Insert(x, s[1..]);
      forall j | 0 <= j < |t| ensures Leq(s[0].key, t[j].key) {
        assert t[j] in multiset(t);
        assert t[j] == x || t[j] in s[1..];
      }
    }
  }

  lemma {:induction false} InsertStable<T>(x: Item<T>, s: seq<Item<T>>, k: Key)
    requires Sorted(s)
    ensures WithKey(Insert(x, s), k) == (if x.key == k then [x] else []) + WithKey(s, k)
  {
    if s == [] || Leq(x.key, s[0].key) {
      assert ([x] + s)[1..] == s;
    } else {
      InsertStable(x, s[1..], k);
      assert ([s[0]] + Insert(x, s[1..]))[1..] == Insert(x, s[1..]);
    }
  }

  /** Sort orders its input, keeps every item, and keeps items of one key in their order. */
  lemma {:induction false} SortIsStable<T>(s: seq<Item<T>>)
    ensures Sorted(Sort(s)) && multiset(Sort(s)) == multiset(s)
    ensures forall k :: WithKey(Sort(s), k) == WithKey(s, k)
  {
    if s == [] {
    } else {
      SortIsStable(s[1..]);
      InsertSorted(s[0], Sort(s[1..]));
      InsertKeeps(s[0], Sort(s[1..]));
      assert s == [s[0]] + s[1..];
      forall k ensures WithKey(Sort(s), k) == WithKey(s, k) {
        InsertStable(s[0], Sort(s[1..]), k);
      }
    }
  }

  lemma {:induction false} WithKeyMember<T>(s: seq<Item<T>>, k: Key)
    ensures forall x :: x in WithKey(s, k) ==> x in s && x.key == k
    ensures forall i :: 0 <= i < |s| && s[i].key == k ==> WithKey(s, k) != []
  {
    if s == [] {
    } else {
      WithKeyMember(s[1..], k);
    }
  }

  lemma {:induction false} WithKeyIff<T>(s: seq<Item<T>>, k: Key, x: Item<T>)
    ensures x in WithKey(s, k) <==> x in s && x.key == k
  {
    if s == [] {
    } else {
      WithKeyIff(s[1..], k, x);
      assert s == [s[0]] + s[1..];
    }
  }

  lemma FirstKeyIsLeast<T>(a: seq<Item<T>>, b: seq<Item<T>>)
    requires a != [] && Sorted(b) && WithKey(a, a[0].key) == WithKey(b, a[0].key)
    ensures b != [] && Leq(b[0].key, a[0].key)
  {
    WithKeyMember(a, a[0].key);
    WithKeyMember(b, a[0].key);
    assert a[0].key == a[0].key && WithKey(a, a[0].key)[0] == a[0];
    assert a[0] in WithKey(b, a[0].key);
  }

  /** Any other stable sort gives the same list. */
  lemma {:induction false} StableSortIsUnique<T>(a: seq<Item<T>>, b: seq<Item<T>>)
    requires Sorted(a) && Sorted(b) && forall k :: WithKey(a, k) == WithKey(b, k)
    ensures a == b
  {
    if a == [] {
      if b != [] {
        FirstKeyIsLeast(b, a);
      }
    } else {
      FirstKeyIsLeast(a, b);
      FirstKeyIsLeast(b, a);
      var k0 := a[0].key;
      assert WithKey(a, k0)[0] == a[0] && WithKey(b, k0)[0] == b[0];
      forall k ensures WithKey(a[1..], k) == WithKey(b[1..], k) {
        assert WithKey(a, k) == WithKey(b, k);
        var head := if a[0].key == k then [a[0]] else [];
        assert WithKey(a, k)[|head|..] == WithKey(a[1..], k);
        assert WithKey(b, k)[|head|..] == WithKey(b[1..], k);
      }
      StableSortIsUnique(a[1..], b[1..]);
      assert a == [a[0]] + a[1..] && b == [b[0]] + b[1..];
    }
  }

  ghost predicate StableSortOf<T>(r: seq<Item<T>>, s: seq<Item<T>>) {
    Sorted(r) && forall k :: WithKey(r, k) == WithKey(s, k)
  }

  lemma SortIsTheStableSort<T>(s: seq<Item<T>>, r: seq<Item<T>>)
    ensures StableSortOf(r, s) <==> r == Sort(s)
  {
    SortIsStable(s);
    if StableSortOf(r, s) {
      StableSortIsUnique(r, Sort(s));
    }
  }

  // ---------------------------------------------------------------- the last item

  /** Item i sorts behind all others. */
  ghost predicate GoesLast<T>(s: seq<Item<T>>, i: nat)
    requires i < |s|
  {
    forall j :: 0 <= j < |s| && j != i ==> Leq(s[j].key, s[i].key) && (j > i ==> s[j].key != s[i].key)
  }

  function Without<T>(s: seq<Item<T>>, i: nat): (r: seq<Item<T>>)
    requires i < |s|
    ensures |r| == |s| - 1
  {
    s[..i] + s[i + 1..]
  }

  lemma {:induction false} OneGoesLast<T>(s: seq<Item<T>>) returns (i: nat)
    requires s != []
    ensures i < |s| && GoesLast(s, i)
    ensures forall j :: 0 <= j < |s| && GoesLast(s, j) ==> j == i
  {
    if |s| == 1 {
      i := 0;
    } else {
      var rest := s[1..];
      var k := OneGoesLast(rest);
      i := if Leq(s[0].key, s[k + 1].key) then k + 1 else 0;
      assert forall j :: 0 < j < |s| ==> s[j] == rest[j - 1];
    }
  }

  lemma {:induction false} InsertBeforeLast<T>(x: Item<T>, s: seq<Item<T>>, last: Item<T>)
    requires Leq(x.key, last.key)
    ensures Insert(x, s + [last]) == Insert(x, s) + [last]
  {
    if s == [] {
      assert [x] + [last] == [x, last];
    } else {
      assert (s + [last])[1..] == s[1..] + [last];
      InsertBeforeLast(x, s[1..], last);
    }
  }

  lemma {:induction false} InsertAtEnd<T>(x: Item<T>, s: seq<Item<T>>)
    requires forall y :: y in s ==> !Leq(x.key, y.key)
    ensures Insert(x, s) == s + [x]
  {
    if s == [] {
    } else {
      InsertAtEnd(x, s[1..]);
      assert s == [s[0]] + s[1..];
    }
  }

  lemma GreatestFirst<T>(s: seq<Item<T>>)
    requires s != [] && GoesLast(s, 0)
    ensures Sort(s) == Sort(s[1..]) + [s[0]]
  {
    var rest := s[1..];
    SortIsStable(rest);
    forall y | y in Sort(rest) ensures !Leq(s[0].key, y.key) {
      assert y in multiset(rest);
      var j :| 0 <= j < |rest| && rest[j] == y;
      assert s[j + 1] == y;
    }
    InsertAtEnd(s[0], Sort(rest));
  }

  lemma GoesLastInTail<T>(s: seq<Item<T>>, i: nat)
    requires 0 < i < |s| && GoesLast(s, i)
    ensures s[1..][i - 1] == s[i] && GoesLast(s[1..], i - 1) && Leq(s[0].key, s[i].key)
    ensures Without(s, i) == [s[0]] + Without(s[1..], i - 1)
  {
    assert s[1..][..i - 1] == s[1..i] && s[1..][i..] == s[i + 1..];
    assert s[..i] == [s[0]] + s[1..i];
  }

  /** Sorting puts the item that goes last behind the sorted others. */
  lemma {:induction false} SortLast<T>(s: seq<Item<T>>, i: nat)
    requires i < |s| && GoesLast(s, i)
    ensures Sort(s) == Sort(Without(s, i)) + [s[i]]
  {
    if i == 0 {
      GreatestFirst(s);
      assert Without(s, 0) == s[1..];
    } else {
      GoesLastInTail(s, i);
      SortLast(s[1..], i - 1);
      InsertBeforeLast(s[0], Sort(Without(s[1..], i - 1)), s[i]);
      assert ([s[0]] + Without(s[1..], i - 1))[1..] == Without(s[1..], i - 1);
    }
  }

  // ---------------------------------------------------------------- what sorting does not look at

  /** The same keys with other values. */
  function MapValues<T, U>(s: seq<Item<T>>, f: T -> U): (r: seq<Item<U>>)
    ensures |r| == |s| && forall i :: 0 <= i < |s| ==> r[i] == Item(s[i].key, f(s[i].value))
  {
    if s == [] then [] else [Item(s[0].key, f(s[0].value))] + MapValues(s[1..], f)
  }

  lemma {:induction false} InsertMaps<T, U>(x: Item<T>, s: seq<Item<T>>, f: T -> U)
    ensures Insert(Item(x.key, f(x.value)), MapValues(s, f)) == MapValues(Insert(x, s), f)
  {
    if s == [] || Leq(x.key, s[0].key) {
      assert ([x] + s)[1..] == s;
    } else {
      InsertMaps(x, s[1..], f);
      assert MapValues(s, f)[1..] == MapValues(s[1..], f);
      assert ([s[0]] + Insert(x, s[1..]))[1..] == Insert(x, s[1..]);
    }
  }

  /** Sorting goes by the keys only. */
  lemma {:induction false} SortMaps<T, U>(s: seq<Item<T>>, f: T -> U)
    ensures Sort(MapValues(s, f)) == MapValues(Sort(s), f)
  {
    if s == [] {
    } else {
      SortMaps(s[1..], f);
      InsertMaps(s[0], Sort(s[1..]), f);
      assert MapValues(s, f)[1..] == MapValues(s[1..], f);
    }
  }

  /** By key, and within one key by `earlier`. */
  predicate Before<T>(a: Item<T>, b: Item<T>, earlier: (T, T) -> bool) {
    Leq(a.key, b.key) && (a.key == b.key ==> earlier(a.value, b.value))
  }

  ghost predicate InOrder<T>(s: seq<Item<T>>, earlier: (T, T) -> bool) {
    forall i, j :: 0 <= i < j < |s| ==> Before(s[i], s[j], earlier)
  }

  ghost predicate AllEarlier<T>(s: seq<Item<T>>, earlier: (T, T) -> bool) {
    forall i, j :: 0 <= i < j < |s| ==> earlier(s[i].value, s[j].value)
  }

  lemma {:induction false} InsertInOrder<T>(x: Item<T>, s: seq<Item<T>>, earlier: (T, T) -> bool)
    requires InOrder(s, earlier) && forall i :: 0 <= i < |s| ==> earlier(x.value, s[i].value)
    ensures InOrder(Insert(x, s), earlier)
  {
    if s == [] || Leq(x.key, s[0].key) {
      HeadInOrder(x, s, earlier);
    } else {
      var t := Insert(x, s[1..]);
      InsertInOrder(x, s[1..], earlier);
      InsertKeeps(x, s[1..]);
      forall j | 0 <= j < |t| ensures Before(s[0], t[j], earlier) {
        assert t[j] in multiset(t);
        assert t[j] == x || t[j] in s[1..];
      }
    }
  }

  lemma HeadInOrder<T>(x: Item<T>, s: seq<Item<T>>, earlier: (T, T) -> bool)
    requires InOrder(s, earlier) && forall i :: 0 <= i < |s| ==> earlier(x.value, s[i].value)
    requires s == [] || Leq(x.key, s[0].key)
    ensures InOrder([x] + s, earlier)
  {
    forall j | 0 <= j < |s| ensures Before(x, s[j], earlier) {
      assert j > 0 ==> Before(s[0], s[j], earlier);
    }
  }

  /** Items that come in the order `earlier` are sorted by key, and within one key keep that order. */
  lemma {:induction false} SortInOrder<T>(s: seq<Item<T>>, earlier: (T, T) -> bool)
    requires AllEarlier(s, earlier)
    ensures InOrder(Sort(s), earlier)
  {
    if s == [] {
    } else {
      var rest := s[1..];
      assert forall i, j :: 0 <= i < j < |rest| ==> rest[i] == s[i + 1] && rest[j] == s[j + 1];
      SortInOrder(rest, earlier);
      SortIsStable(rest);
      forall i | 0 <= i < |rest| ensures earlier(s[0].value, Sort(rest)[i].value) {
        assert Sort(rest)[i] in multiset(Sort(rest));
        assert Sort(rest)[i] in rest;
      }
      InsertInOrder(s[0], Sort(rest), earlier);
    }
  }

  lemma SameItems<T>(s: seq<Item<T>>, x: Item<T>)
    ensures x in Sort(s) <==> x in s
  {
    SortIsStable(s);
    assert x in Sort(s) <==> x in multiset(Sort(s));
  }
}
