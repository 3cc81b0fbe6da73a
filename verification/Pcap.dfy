/** scripts/test/capture_pcap.py, lines 53-65: several pcap files merged in time order. */
module Pcap {
  import opened Octets
  import opened StableSort

  /** A record with its 16-byte header, keyed by (seconds, microseconds). */
  type Record = Item<Text>

  /** The 32-bit number at position i, least significant byte first. */
  function U32(s: Text, i: nat): nat
    requires i + 4 <= |s|
  {
    (s[i] as int) + 0x100 * (s[i + 1] as int) + 0x1_0000 * (s[i + 2] as int) + 0x100_0000 * (s[i + 3] as int)
  }

  /** Slices as Python takes them: bounds beyond the end are moved to the end. */
  function Take(s: Text, n: nat): Text {
    if n <= |s| then s[..n] else s
  }

  function Drop(s: Text, n: nat): (r: Text)
    ensures |r| <= |s| - n || r == ""
  {
    if n <= |s| then s[n..] else ""
  }

  /** The length the header at the start of s announces, header included. */
  function Announced(s: Text): (n: nat)
    requires |s| >= 16
    ensures n >= 16
  {
    16 + U32(s, 8)
  }

  function KeyOf(s: Text): Key
    requires |s| >= 16
  {
    Key(U32(s, 0), U32(s, 4))
  }

  function FirstRecord(s: Text): Record
    requires |s| >= 16
  {
    Item(KeyOf(s), Take(s, Announced(s)))
  }

  /** The framing loop on what follows the file header. The last record may be cut short. */
  function Records(s: Text): seq<Record>
    decreases |s|
  {
    if |s| < 16 then [] else [FirstRecord(s)] + Records(Drop(s, Announced(s)))
  }

  function RecordsOf(part: Text): seq<Record> {
    Records(Drop(part, 24))
  }

  function AllRecords(parts: seq<Text>): seq<Record> {
    if parts == [] then [] else RecordsOf(parts[0]) + AllRecords(parts[1..])
  }

  /** `header or data[:24]`: the first 24 bytes of the first non-empty file. */
  function HeaderOf(parts: seq<Text>): Text {
    if parts == [] then ""
    else if parts[0] != "" then Take(parts[0], 24)
    else HeaderOf(parts[1..])
  }

  function Flatten(rs: seq<Record>): Text {
    if rs == [] then "" else rs[0].value + Flatten(rs[1..])
  }

  /** The merged file; None stands for the exception raised when there is no part at all. */
  function Merge(parts: seq<Text>): Option<Text> {
    if parts == [] then None else Some(HeaderOf(parts) + Flatten(Sort(AllRecords(parts))))
  }

  // ---------------------------------------------------------------- the loops

  method ComputeMerge(parts: seq<Text>) returns (out: Option<Text>)
    ensures out == Merge(parts)
  {
    if parts == [] {
      return None;
    }
    var header, records := ReadParts(parts);
    records := Sort(records);
    out := Some(header + Flatten(records));
  }

  /** The loop over the files. */
  method ReadParts(parts: seq<Text>) returns (header: Text, records: seq<Record>)
    ensures header == HeaderOf(parts) && records == AllRecords(parts)
  {
    header, records := "", [];
    for i := 0 to |parts|
      invariant records + AllRecords(parts[i..]) == AllRecords(parts)
      invariant HeaderOf(parts) == if header != "" then header else HeaderOf(parts[i..])
    {
      var data := parts[i];
      PartsStep(parts, i);
      if header == "" {
        header := Take(data, 24);
      }
      var found := ReadRecords(data);
      RecordsJoin(records, found, AllRecords(parts[i + 1..]));
      records := records + found;
    }
    assert parts[|parts|..] == [];
  }

  lemma RecordsJoin(a: seq<Record>, b: seq<Record>, c: seq<Record>)
    ensures a + (b + c) == (a + b) + c
  {
  }

  lemma PartsStep(parts: seq<Text>, i: nat)
    requires i < |parts|
    ensures AllRecords(parts[i..]) == RecordsOf(parts[i]) + AllRecords(parts[i + 1..])
    ensures HeaderOf(parts[i..]) == if parts[i] != "" then Take(parts[i], 24) else HeaderOf(parts[i + 1..])
  {
    assert parts[i..][0] == parts[i] && parts[i..][1..] == parts[i + 1..];
  }

  /** The framing loop over one file; the offset grows by at least 16 each turn. */
  method ReadRecords(data: Text) returns (records: seq<Record>)
    ensures records == RecordsOf(data)
  {
    records := [];
    var offset := 24;
    ghost var rest := Drop(data, 24);
    while offset + 16 <= |data|
      invariant offset >= 24 && rest == Drop(data, offset)
      invariant records + Records(rest) == RecordsOf(data)
      decreases |data| - offset
    {
      var record;
      record, offset, rest := ReadOne(data, offset, rest);
      RecordsJoin(records, [record], Records(rest));
      records := records + [record];
    }
    assert |rest| < 16;
  }

  /** The body of the loop: one record and where the next one starts. */
  method ReadOne(data: Text, offset: nat, ghost rest: Text) returns (record: Record, next: nat, ghost after: Text)
    requires offset + 16 <= |data| && rest == Drop(data, offset)
    ensures next >= offset + 16 && after == Drop(data, next) && Records(rest) == [record] + Records(after)
  {
    var packet := data[offset..];
    record := FirstRecord(packet);
    next := offset + Announced(packet);
    after := Drop(rest, Announced(rest));
    DropDrop(data, offset, Announced(rest));
    RecordsUnfold(rest);
  }

  lemma {:induction false} RecordsUnfold(s: Text)
    requires |s| >= 16
    ensures Records(s) == [FirstRecord(s)] + Records(Drop(s, Announced(s)))
  {
  }

  lemma DropDrop(s: Text, m: nat, n: nat)
    requires m <= |s|
    ensures Drop(Drop(s, m), n) == Drop(s, m + n)
  {
  }

  // ---------------------------------------------------------------- records and bytes

  /** A record as long as its header says, under the key of its header. */
  predicate Complete(r: Record) {
    |r.value| >= 16 && |r.value| == Announced(r.value) && r.key == KeyOf(r.value)
  }

  /** Complete, or cut short after the header. */
  predicate Framed(r: Record) {
    16 <= |r.value| <= Announced(r.value) && r.key == KeyOf(r.value)
  }

  lemma PrefixHeader(s: Text, t: Text)
    requires |s| >= 16
    ensures Announced(s + t) == Announced(s) && KeyOf(s + t) == KeyOf(s)
  {
    assert forall i :: 0 <= i < 16 ==> (s + t)[i] == s[i];
  }

  lemma {:induction false} RecordsAreFramed(s: Text)
    ensures forall i :: 0 <= i < |Records(s)| ==> Framed(Records(s)[i])
    decreases |s|
  {
    if |s| < 16 {
    } else {
      var first := Take(s, Announced(s));
      assert s == first + Drop(s, Announced(s));
      PrefixHeader(first, Drop(s, Announced(s)));
      RecordsAreFramed(Drop(s, Announced(s)));
    }
  }

  ghost predicate AllFramed(rs: seq<Record>) {
    forall i :: 0 <= i < |rs| ==> Framed(rs[i])
  }

  /** Every record but the last has its announced length. */
  predicate CompleteButLast(rs: seq<Record>) {
    |rs| <= 1 || (Complete(rs[0]) && CompleteButLast(rs[1..]))
  }

  lemma FlattenCons(r: Record, rs: seq<Record>)
    ensures Flatten([r] + rs) == r.value + Flatten(rs)
  {
    assert ([r] + rs)[1..] == rs;
  }

  /** One record and what follows it: it is framed off exactly when it is complete or nothing follows. */
  lemma FirstOf(r: Record, rest: Text)
    requires Framed(r)
    ensures Complete(r) ==> Records(r.value + rest) == [r] + Records(rest)
    ensures rest == "" ==> Records(r.value + rest) == [r]
    ensures !Complete(r) && rest != "" ==> |Records(r.value + rest)[0].value| > |r.value|
  {
    var s := r.value + rest;
    PrefixHeader(r.value, rest);
    RecordsUnfold(s);
    if Complete(r) {
      assert Take(s, Announced(s)) == r.value && Drop(s, Announced(s)) == rest;
    } else if rest == "" {
      assert s == r.value;
    }
  }

  lemma RestIsEmptyIff(rs: seq<Record>)
    requires AllFramed(rs)
    ensures Flatten(rs) == "" <==> rs == []
  {
    if rs == [] {
    } else {
      assert Framed(rs[0]);
    }
  }

  lemma ConsIsEqual(r: Record, a: seq<Record>, b: seq<Record>)
    ensures [r] + a == [r] + b <==> a == b
  {
    assert ([r] + a)[1..] == a && ([r] + b)[1..] == b;
  }

  /** `follows` says whether what follows the record is framed as it should be. */
  lemma ReframeStep(r: Record, rest: seq<Record>, follows: bool)
    requires Framed(r) && AllFramed(rest) && (follows <==> Records(Flatten(rest)) == rest)
    ensures Records(Flatten([r] + rest)) == [r] + rest <==> rest == [] || (Complete(r) && follows)
  {
    FlattenCons(r, rest);
    FirstOf(r, Flatten(rest));
    RestIsEmptyIff(rest);
    ConsIsEqual(r, Records(Flatten(rest)), rest);
    if rest != [] && !Complete(r) {
      assert ([r] + rest)[0].value == r.value;
    }
  }

  /** Framing a concatenation gives its records back exactly when none but the last is cut short. */
  lemma {:induction false} ReframeIff(rs: seq<Record>)
    requires AllFramed(rs)
    ensures Records(Flatten(rs)) == rs <==> CompleteButLast(rs)
  {
    if rs == [] {
    } else {
      ReframeIff(rs[1..]);
      ReframeStep(rs[0], rs[1..], CompleteButLast(rs[1..]));
      assert rs == [rs[0]] + rs[1..];
    }
  }

  // ---------------------------------------------------------------- the merge

  /** A 24-byte file header, then complete records. */
  predicate WellFormed(part: Text) {
    |part| >= 24 && WholeRecords(part[24..])
  }

  predicate WholeRecords(s: Text)
    decreases |s|
  {
    s == "" || (|s| >= 16 && Announced(s) <= |s| && WholeRecords(s[Announced(s)..]))
  }

  /** The record bytes of a file are its content after the header when nothing is left over at the end. */
  lemma {:induction false} WholeRecordsFlatten(s: Text)
    requires WholeRecords(s)
    ensures Flatten(Records(s)) == s
    ensures forall i :: 0 <= i < |Records(s)| ==> Complete(Records(s)[i])
    decreases |s|
  {
    if s == "" {
    } else {
      var n := Announced(s);
      WholeRecordsFlatten(s[n..]);
      FirstOfWhole(s);
      FlattenCons(FirstRecord(s), Records(s[n..]));
    }
  }

  lemma FirstOfWhole(s: Text)
    requires |s| >= 16 && Announced(s) <= |s|
    ensures var n := Announced(s);
            && Records(s) == [FirstRecord(s)] + Records(s[n..])
            && Complete(FirstRecord(s)) && FirstRecord(s).value + s[n..] == s
  {
    var n := Announced(s);
    assert s == s[..n] + s[n..];
    PrefixHeader(s[..n], s[n..]);
    RecordsUnfold(s);
  }

  function TotalLength(rs: seq<Record>): nat {
    if rs == [] then 0 else |rs[0].value| + TotalLength(rs[1..])
  }

  lemma {:induction false} FlattenLength(rs: seq<Record>)
    ensures |Flatten(rs)| == TotalLength(rs)
  {
    if rs == [] {
    } else {
      FlattenLength(rs[1..]);
    }
  }

  lemma {:induction false} TotalLengthAppend(a: seq<Record>, b: seq<Record>)
    ensures TotalLength(a + b) == TotalLength(a) + TotalLength(b)
  {
    if a == [] {
      assert a + b == b;
    } else {
      assert (a + b)[1..] == a[1..] + b;
      TotalLengthAppend(a[1..], b);
    }
  }

  lemma {:induction false} InsertLength(x: Record, s: seq<Record>)
    ensures TotalLength(Insert(x, s)) == |x.value| + TotalLength(s)
  {
    if s == [] || Leq(x.key, s[0].key) {
      assert ([x] + s)[1..] == s;
    } else {
      InsertLength(x, s[1..]);
      assert ([s[0]] + Insert(x, s[1..]))[1..] == Insert(x, s[1..]);
    }
  }

  lemma {:induction false} SortLength(s: seq<Record>)
    ensures TotalLength(Sort(s)) == TotalLength(s)
  {
    if s == [] {
    } else {
      SortLength(s[1..]);
      InsertLength(s[0], Sort(s[1..]));
    }
  }

  /** The sum of the lengths of the files, each without its header. */
  function PayloadLength(parts: seq<Text>): nat {
    if parts == [] then 0 else (if |parts[0]| >= 24 then |parts[0]| - 24 else 0) + PayloadLength(parts[1..])
  }

  predicate AllComplete(rs: seq<Record>) {
    forall i :: 0 <= i < |rs| ==> Complete(rs[i])
  }

  lemma {:induction false} AllRecordsOfWellFormed(parts: seq<Text>)
    requires forall i :: 0 <= i < |parts| ==> WellFormed(parts[i])
    ensures AllComplete(AllRecords(parts)) && TotalLength(AllRecords(parts)) == PayloadLength(parts)
  {
    if parts == [] {
    } else {
      var body := Drop(parts[0], 24);
      WholeRecordsFlatten(body);
      FlattenLength(Records(body));
      AllRecordsOfWellFormed(parts[1..]);
      TotalLengthAppend(Records(body), AllRecords(parts[1..]));
    }
  }

  lemma {:induction false} AllRecordsAreFramed(parts: seq<Text>)
    ensures AllFramed(AllRecords(parts))
  {
    if parts == [] {
    } else {
      RecordsAreFramed(Drop(parts[0], 24));
      AllRecordsAreFramed(parts[1..]);
    }
  }

  lemma SameMembers(a: seq<Record>, b: seq<Record>)
    requires multiset(a) == multiset(b)
    ensures AllFramed(a) ==> AllFramed(b)
    ensures AllComplete(a) ==> AllComplete(b)
  {
    forall i | 0 <= i < |b| ensures b[i] in a {
      assert b[i] in multiset(b);
    }
  }

  /** Every record that is cut short sorts behind all others. */
  ghost predicate CutGoLast(all: seq<Record>) {
    forall i :: 0 <= i < |all| && !Complete(all[i]) ==> GoesLast(all, i)
  }

  lemma CutGoLastIff(all: seq<Record>)
    ensures CompleteButLast(Sort(all)) <==> CutGoLast(all)
  {
    if all == [] {
    } else {
      var k := OneGoesLast(all);
      var others := Without(all, k);
      SortLast(all, k);
      SortIsStable(others);
      SameMembers(others, Sort(others));
      SameMembers(Sort(others), others);
      ButLast(Sort(others), all[k]);
      OthersComplete(all, k);
    }
  }

  lemma {:induction false} ButLast(rs: seq<Record>, last: Record)
    ensures CompleteButLast(rs + [last]) <==> AllComplete(rs)
  {
    if rs == [] {
    } else {
      ButLast(rs[1..], last);
      assert (rs + [last])[1..] == rs[1..] + [last];
      assert AllComplete(rs) <==> Complete(rs[0]) && AllComplete(rs[1..]) by {
        assert forall i :: 0 < i < |rs| ==> rs[i] == rs[1..][i - 1];
      }
    }
  }

  lemma OthersComplete(all: seq<Record>, k: nat)
    requires k < |all|
    ensures AllComplete(Without(all, k)) <==> forall i :: 0 <= i < |all| && i != k ==> Complete(all[i])
  {
    var others := Without(all, k);
    if AllComplete(others) {
      forall i | 0 <= i < |all| && i != k ensures Complete(all[i]) {
        assert all[i] == others[if i < k then i else i - 1];
      }
    } else {
      var i :| 0 <= i < |others| && !Complete(others[i]);
      assert others[i] == all[if i < k then i else i + 1];
    }
  }

  lemma {:induction false} RecordsFit(s: Text)
    ensures TotalLength(Records(s)) <= |s|
    decreases |s|
  {
    if |s| < 16 {
    } else {
      var rest := Drop(s, Announced(s));
      RecordsFit(rest);
      RecordsUnfold(s);
      assert Records(s)[1..] == Records(rest);
    }
  }

  /** Behind a header of less than 24 bytes some bytes of the records are taken for header. */
  lemma ShortHeaderMisreads(header: Text, rs: seq<Record>)
    requires |header| < 24 && AllFramed(rs)
    ensures RecordsOf(header + Flatten(rs)) == rs <==> rs == []
  {
    if rs == [] {
    } else {
      RecordsFit(Drop(header + Flatten(rs), 24));
      FlattenLength(rs);
      assert Framed(rs[0]);
    }
  }

  lemma SortedAreFramed(parts: seq<Text>)
    ensures AllFramed(Sort(AllRecords(parts)))
    ensures Sort(AllRecords(parts)) == [] <==> AllRecords(parts) == []
  {
    SortIsStable(AllRecords(parts));
    AllRecordsAreFramed(parts);
    SameMembers(AllRecords(parts), Sort(AllRecords(parts)));
  }

  lemma {:induction false} HeaderFits(parts: seq<Text>)
    ensures |HeaderOf(parts)| <= 24
  {
    if parts == [] {
    } else {
      HeaderFits(parts[1..]);
    }
  }

  /** For every choice of files: reading the merged file back gives the sorted records exactly when there is
      none, or the first non-empty file has its whole header and every record cut short sorts last. */
  lemma RereadIff(parts: seq<Text>)
    ensures Merge(parts).Some? <==> parts != []
    ensures parts != [] ==>
              var all := AllRecords(parts);
              (RecordsOf(Merge(parts).value) == Sort(all)
               <==> all == [] || (|HeaderOf(parts)| == 24 && CutGoLast(all)))
  {
    var all := AllRecords(parts);
    SortedAreFramed(parts);
    HeaderFits(parts);
    if |HeaderOf(parts)| == 24 {
      ReframeIff(Sort(all));
      CutGoLastIff(all);
      assert Drop(HeaderOf(parts) + Flatten(Sort(all)), 24) == Flatten(Sort(all));
    } else {
      ShortHeaderMisreads(HeaderOf(parts), Sort(all));
    }
  }

  /** The merge of well-formed files holds all their records and nothing else, in time order, records of
      one instant in the order of the files and of their places in them; its length is one header and the
      payloads. */
  lemma MergeConserves(parts: seq<Text>)
    requires parts != [] && forall i :: 0 <= i < |parts| ==> WellFormed(parts[i])
    ensures Merge(parts).Some?
    ensures var out, all := Merge(parts).value, AllRecords(parts);
            && StableSortOf(RecordsOf(out), all)
            && multiset(RecordsOf(out)) == multiset(all)
            && |out| == 24 + PayloadLength(parts)
            && out[..24] == Take(parts[0], 24)
  {
    var all := AllRecords(parts);
    AllRecordsOfWellFormed(parts);
    SortIsStable(all);
    SameMembers(all, Sort(all));
    RereadIff(parts);
    FlattenLength(Sort(all));
    SortLength(all);
  }

  // ---------------------------------------------------------------- a merge that does not read back

  /** A file header, and a record header that announces one byte which is not there: a capture stopped
      between the two. */
  const CUT_FILE: Text := Repeat('\0', 32) + ['\U{1}'] + Repeat('\0', 7)

  /** A file header and an empty record. */
  const WHOLE_FILE: Text := Repeat('\0', 40)

  /** Merged with another capture, the cut record runs into the record that sorts behind it. */
  lemma CutRecordMisreads()
    ensures var parts := [CUT_FILE, WHOLE_FILE];
            |AllRecords(parts)| == 2 && RecordsOf(Merge(parts).value) != Sort(AllRecords(parts))
  {
    var parts := [CUT_FILE, WHOLE_FILE];
    RecordOfFile(CUT_FILE);
    RecordOfFile(WHOLE_FILE);
    TwoFiles(CUT_FILE, WHOLE_FILE);
    var all := AllRecords(parts);
    assert !Complete(all[0]);
    assert all[1].key == all[0].key && !GoesLast(all, 0);
    RereadIff(parts);
  }

  lemma TwoFiles(a: Text, b: Text)
    ensures AllRecords([a, b]) == RecordsOf(a) + RecordsOf(b)
  {
    assert [a, b][1..] == [b] && [b][1..] == [];
    assert AllRecords([b]) == RecordsOf(b) + AllRecords([]);
  }

  lemma RecordOfFile(s: Text)
    requires |s| == 40 && forall i :: 24 <= i < 40 && i != 32 ==> s[i] == '\0'
    ensures RecordsOf(s) == [Item(Key(0, 0), s[24..])] && Announced(s[24..]) == 16 + s[32] as int
  {
    OneRecord(s[24..]);
    assert s[24..][8] == s[32];
  }

  /** Sixteen bytes, all zero but perhaps the first of the length. */
  lemma OneRecord(s: Text)
    requires |s| == 16 && forall i :: 0 <= i < 16 && i != 8 ==> s[i] == '\0'
    ensures Announced(s) == 16 + s[8] as int
    ensures Records(s) == [Item(Key(0, 0), s)]
  {
    RecordsUnfold(s);
    assert Take(s, Announced(s)) == s;
    assert Drop(s, Announced(s)) == "";
  }
}
