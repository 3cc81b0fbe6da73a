/** scripts/test/capture_pcap.py, lines 53-65, on captures as the pcap format describes them: which file the merge of
    written files is. */
module PcapFiles {
  import opened Octets
  import opened StableSort
  import opened Pcap

  // ---------------------------------------------------------------- files as they are written

  /** A number of 32 bits, least significant byte first. */
  function Le32(n: nat): (s: Text)
    requires n < 0x1_0000_0000
    ensures |s| == 4
  {
    [(n % 256) as char, (n / 256 % 256) as char, (n / 256 / 256 % 256) as char, (n / 256 / 256 / 256) as char]
  }

  /** A captured packet: when, how long it was on the line, and what of it was captured. */
  datatype Packet = Packet(sec: nat, usec: nat, orig: nat, payload: Text)

  predicate Writable(p: Packet) {
    p.sec < 0x1_0000_0000 && p.usec < 0x1_0000_0000 && p.orig < 0x1_0000_0000 && |p.payload| < 0x1_0000_0000
  }

  predicate AllWritable(ps: seq<Packet>) {
    forall i :: 0 <= i < |ps| ==> Writable(ps[i])
  }

  function PrintPacket(p: Packet): Text
    requires Writable(p)
  {
    Le32(p.sec) + Le32(p.usec) + Le32(|p.payload|) + Le32(p.orig) + p.payload
  }

  function PrintPackets(ps: seq<Packet>): Text
    requires AllWritable(ps)
  {
    if ps == [] then "" else PrintPacket(ps[0]) + PrintPackets(ps[1..])
  }

  /** A capture: its file header and its packets. */
  datatype Capture = Capture(header: Text, packets: seq<Packet>)

  predicate WellWritten(c: Capture) {
    |c.header| == 24 && AllWritable(c.packets)
  }

  function PrintCapture(c: Capture): Text
    requires WellWritten(c)
  {
    c.header + PrintPackets(c.packets)
  }

  function PrintCaptures(cs: seq<Capture>): seq<Text>
    requires forall i :: 0 <= i < |cs| ==> WellWritten(cs[i])
  {
    if cs == [] then [] else [PrintCapture(cs[0])] + PrintCaptures(cs[1..])
  }

  /** A packet by its file and its position there. */
  datatype Place = Place(file: nat, position: nat)

  predicate IsPlace(cs: seq<Capture>, p: Place) {
    p.file < |cs| && p.position < |cs[p.file].packets|
  }

  function At(cs: seq<Capture>, p: Place): Packet
    requires IsPlace(cs, p)
  {
    cs[p.file].packets[p.position]
  }

  predicate ArePlaces(cs: seq<Capture>, places: seq<Place>) {
    forall i :: 0 <= i < |places| ==> IsPlace(cs, places[i])
  }

  function PacketsAt(cs: seq<Capture>, places: seq<Place>): seq<Packet>
    requires ArePlaces(cs, places)
  {
    if places == [] then [] else [At(cs, places[0])] + PacketsAt(cs, places[1..])
  }

  /** The packet at a was captured before the one at b: in an earlier second, or in the same at an earlier
      microsecond, or at the same instant in an earlier file, or in the same file before it. */
  predicate Precedes(cs: seq<Capture>, a: Place, b: Place)
    requires IsPlace(cs, a) && IsPlace(cs, b)
  {
    var p, q := At(cs, a), At(cs, b);
    || p.sec < q.sec || (p.sec == q.sec && p.usec < q.usec)
    || (p.sec == q.sec && p.usec == q.usec && Earlier(a, b))
  }

  predicate Earlier(a: Place, b: Place) {
    a.file < b.file || (a.file == b.file && a.position < b.position)
  }

  // ---------------------------------------------------------------- written records are read back

  lemma DigitsToBase256(n: nat)
    requires n < 0x1_0000_0000
    ensures n == n % 256 + 0x100 * (n / 256 % 256) + 0x1_0000 * (n / 256 / 256 % 256)
                 + 0x100_0000 * (n / 256 / 256 / 256)
  {
    var q := n / 256;
    var r := q / 256;
    assert n == 256 * q + n % 256 && q == 256 * r + q % 256 && r == 256 * (r / 256) + r % 256;
  }

  lemma NumberIsRead(s: Text, i: nat, n: nat)
    requires n < 0x1_0000_0000 && i + 4 <= |s| && s[i..i + 4] == Le32(n)
    ensures U32(s, i) == n
  {
    var t := s[i..i + 4];
    assert s[i] == t[0] && s[i + 1] == t[1] && s[i + 2] == t[2] && s[i + 3] == t[3];
    DigitsToBase256(n);
  }

  function RecordOf(p: Packet): Record
    requires Writable(p)
  {
    Item(Key(p.sec, p.usec), PrintPacket(p))
  }

  lemma PacketIsComplete(p: Packet)
    requires Writable(p)
    ensures Complete(RecordOf(p))
  {
    var s := PrintPacket(p);
    assert s[0..4] == Le32(p.sec) && s[4..8] == Le32(p.usec) && s[8..12] == Le32(|p.payload|);
    NumberIsRead(s, 0, p.sec);
    NumberIsRead(s, 4, p.usec);
    NumberIsRead(s, 8, |p.payload|);
  }

  function RecordsOfPackets(ps: seq<Packet>): seq<Record>
    requires AllWritable(ps)
  {
    if ps == [] then [] else [RecordOf(ps[0])] + RecordsOfPackets(ps[1..])
  }

  lemma {:induction false} PacketsAreRead(ps: seq<Packet>)
    requires AllWritable(ps)
    ensures Records(PrintPackets(ps)) == RecordsOfPackets(ps) && Flatten(RecordsOfPackets(ps)) == PrintPackets(ps)
  {
    if ps == [] {
    } else {
      PacketsAreRead(ps[1..]);
      PacketIsComplete(ps[0]);
      FirstOf(RecordOf(ps[0]), PrintPackets(ps[1..]));
      FlattenCons(RecordOf(ps[0]), RecordsOfPackets(ps[1..]));
    }
  }

  lemma RecordsCons(p: Packet, ps: seq<Packet>)
    requires Writable(p) && AllWritable(ps)
    ensures RecordsOfPackets([p] + ps) == [RecordOf(p)] + RecordsOfPackets(ps)
    ensures PrintPackets([p] + ps) == PrintPacket(p) + PrintPackets(ps)
  {
    assert ([p] + ps)[1..] == ps;
  }

  lemma RecordsOfCapture(c: Capture)
    requires WellWritten(c)
    ensures RecordsOf(PrintCapture(c)) == RecordsOfPackets(c.packets)
  {
    PacketsAreRead(c.packets);
    assert Drop(PrintCapture(c), 24) == PrintPackets(c.packets);
  }

  // ---------------------------------------------------------------- places in their order

  /** A place under the time of its packet. */
  function ItemAt(cs: seq<Capture>, p: Place): Item<Place>
    requires IsPlace(cs, p)
  {
    Item(Key(At(cs, p).sec, At(cs, p).usec), p)
  }

  function FileItems(cs: seq<Capture>, f: nat, k: nat): (r: seq<Item<Place>>)
    requires f < |cs| && k <= |cs[f].packets|
    ensures |r| == |cs[f].packets| - k && forall i :: 0 <= i < |r| ==> r[i] == ItemAt(cs, Place(f, k + i))
    decreases |cs[f].packets| - k
  {
    if k == |cs[f].packets| then [] else [ItemAt(cs, Place(f, k))] + FileItems(cs, f, k + 1)
  }

  function AllItems(cs: seq<Capture>, f: nat): (r: seq<Item<Place>>)
    requires f <= |cs|
    ensures forall i :: 0 <= i < |r| ==> IsPlace(cs, r[i].value) && r[i] == ItemAt(cs, r[i].value) && r[i].value.file >= f
    decreases |cs| - f
  {
    if f == |cs| then [] else FileItems(cs, f, 0) + AllItems(cs, f + 1)
  }

  lemma {:induction false} EveryPlace(cs: seq<Capture>, f: nat, p: Place)
    requires f <= |cs| && IsPlace(cs, p) && p.file >= f
    ensures ItemAt(cs, p) in AllItems(cs, f)
    decreases |cs| - f
  {
    if p.file == f {
      assert FileItems(cs, f, 0)[p.position] == ItemAt(cs, p);
    } else {
      EveryPlace(cs, f + 1, p);
    }
  }

  lemma {:induction false} PlacesAscend(cs: seq<Capture>, f: nat)
    requires f <= |cs|
    ensures AllEarlier(AllItems(cs, f), Earlier)
    decreases |cs| - f
  {
    if f == |cs| {
    } else {
      PlacesAscend(cs, f + 1);
    }
  }

  predicate AllWellWritten(cs: seq<Capture>) {
    forall i :: 0 <= i < |cs| ==> WellWritten(cs[i])
  }

  /** The printed packet at a place. */
  function Printer(cs: seq<Capture>): Place -> Text
    requires AllWellWritten(cs)
  {
    (p: Place) => if IsPlace(cs, p) then PrintPacket(At(cs, p)) else ""
  }

  lemma MapCons<T, U>(x: Item<T>, s: seq<Item<T>>, f: T -> U)
    ensures MapValues([x] + s, f) == [Item(x.key, f(x.value))] + MapValues(s, f)
  {
    assert ([x] + s)[1..] == s;
  }

  lemma {:induction false} MapJoins<T, U>(a: seq<Item<T>>, b: seq<Item<T>>, f: T -> U)
    ensures MapValues(a + b, f) == MapValues(a, f) + MapValues(b, f)
  {
  }

  lemma {:induction false} RecordsOfFile(cs: seq<Capture>, f: nat, k: nat)
    requires AllWellWritten(cs) && f < |cs| && k <= |cs[f].packets|
    ensures MapValues(FileItems(cs, f, k), Printer(cs)) == RecordsOfPackets(cs[f].packets[k..])
    decreases |cs[f].packets| - k
  {
    var packets := cs[f].packets;
    if k == |packets| {
    } else {
      RecordsOfFile(cs, f, k + 1);
      FirstOfFile(cs, f, k);
      RecordsCons(packets[k], packets[k + 1..]);
      assert packets[k..] == [packets[k]] + packets[k + 1..];
    }
  }

  lemma FirstOfFile(cs: seq<Capture>, f: nat, k: nat)
    requires AllWellWritten(cs) && f < |cs| && k < |cs[f].packets|
    ensures MapValues(FileItems(cs, f, k), Printer(cs))
         == [RecordOf(cs[f].packets[k])] + MapValues(FileItems(cs, f, k + 1), Printer(cs))
  {
    MapCons(ItemAt(cs, Place(f, k)), FileItems(cs, f, k + 1), Printer(cs));
  }

  lemma RecordsOfOne(cs: seq<Capture>, f: nat)
    requires AllWellWritten(cs) && f < |cs|
    ensures RecordsOf(PrintCapture(cs[f])) == MapValues(FileItems(cs, f, 0), Printer(cs))
  {
    RecordsOfCapture(cs[f]);
    RecordsOfFile(cs, f, 0);
    assert cs[f].packets[0..] == cs[f].packets;
  }

  lemma PrintedCons(cs: seq<Capture>, f: nat)
    requires AllWellWritten(cs) && f < |cs|
    ensures PrintCaptures(cs[f..]) == [PrintCapture(cs[f])] + PrintCaptures(cs[f + 1..])
    ensures AllRecords(PrintCaptures(cs[f..])) == RecordsOf(PrintCapture(cs[f])) + AllRecords(PrintCaptures(cs[f + 1..]))
  {
    assert cs[f..][1..] == cs[f + 1..];
    var rest := PrintCaptures(cs[f + 1..]);
    assert ([PrintCapture(cs[f])] + rest)[1..] == rest;
  }

  lemma {:induction false} RecordsOfAll(cs: seq<Capture>, f: nat)
    requires AllWellWritten(cs) && f <= |cs|
    ensures AllRecords(PrintCaptures(cs[f..])) == MapValues(AllItems(cs, f), Printer(cs))
    decreases |cs| - f
  {
    if f == |cs| {
    } else {
      RecordsOfAll(cs, f + 1);
      PrintedCons(cs, f);
      RecordsOfOne(cs, f);
      MapJoins(FileItems(cs, f, 0), AllItems(cs, f + 1), Printer(cs));
    }
  }

  // ---------------------------------------------------------------- the merge

  function Values(items: seq<Item<Place>>): (r: seq<Place>)
    ensures |r| == |items| && forall i :: 0 <= i < |r| ==> r[i] == items[i].value
  {
    seq(|items|, i requires 0 <= i < |items| => items[i].value)
  }

  lemma PacketsAtCons(cs: seq<Capture>, p: Place, places: seq<Place>)
    requires IsPlace(cs, p) && ArePlaces(cs, places)
    ensures ArePlaces(cs, [p] + places) && PacketsAt(cs, [p] + places) == [At(cs, p)] + PacketsAt(cs, places)
  {
    assert ([p] + places)[1..] == places;
  }

  lemma ValuesCons(item: Item<Place>, items: seq<Item<Place>>)
    ensures Values([item] + items) == [item.value] + Values(items)
  {
  }

  lemma PrintedFirst(cs: seq<Capture>, item: Item<Place>, items: seq<Item<Place>>)
    requires AllWellWritten(cs) && IsPlace(cs, item.value)
    ensures Flatten(MapValues([item] + items, Printer(cs)))
         == PrintPacket(At(cs, item.value)) + Flatten(MapValues(items, Printer(cs)))
  {
    MapCons(item, items, Printer(cs));
    FlattenCons(Item(item.key, PrintPacket(At(cs, item.value))), MapValues(items, Printer(cs)));
  }

  lemma {:induction false} PrintedAt(cs: seq<Capture>, items: seq<Item<Place>>)
    requires AllWellWritten(cs) && ArePlaces(cs, Values(items))
    ensures AllWritable(PacketsAt(cs, Values(items)))
    ensures Flatten(MapValues(items, Printer(cs))) == PrintPackets(PacketsAt(cs, Values(items)))
  {
    if items == [] {
    } else {
      var p, rest := items[0].value, items[1..];
      assert items == [items[0]] + rest;
      ValuesCons(items[0], rest);
      assert Values(rest) == Values(items)[1..];
      PrintedAt(cs, rest);
      PrintedFirst(cs, items[0], rest);
      PacketsAtCons(cs, p, Values(rest));
      RecordsCons(At(cs, p), PacketsAt(cs, Values(rest)));
    }
  }

  /** The merge of written captures is the written capture of their packets: of all of them, each once, by second, then
      microsecond, then file, then position; under the first file header. */
  lemma MergeOfCaptures(cs: seq<Capture>) returns (merged: seq<Place>)
    requires cs != [] && AllWellWritten(cs)
    ensures ArePlaces(cs, merged) && forall p :: IsPlace(cs, p) ==> p in merged
    ensures forall i, j :: 0 <= i < j < |merged| ==> Precedes(cs, merged[i], merged[j])
    ensures AllWritable(PacketsAt(cs, merged))
    ensures Merge(PrintCaptures(cs)) == Some(PrintCapture(Capture(cs[0].header, PacketsAt(cs, merged))))
  {
    var sorted := Sort(AllItems(cs, 0));
    merged := Values(sorted);
    SortedPlaces(cs, sorted);
    PlacesPrecede(cs, sorted);
    RecordsOfAll(cs, 0);
    assert cs[0..] == cs;
    SortMaps(AllItems(cs, 0), Printer(cs));
    PrintedAt(cs, sorted);
    assert PrintCaptures(cs)[0] == PrintCapture(cs[0]);
    assert Take(PrintCapture(cs[0]), 24) == cs[0].header;
  }

  lemma SortedPlaces(cs: seq<Capture>, sorted: seq<Item<Place>>)
    requires sorted == Sort(AllItems(cs, 0))
    ensures ArePlaces(cs, Values(sorted)) && forall p :: IsPlace(cs, p) ==> p in Values(sorted)
    ensures forall i :: 0 <= i < |sorted| ==> sorted[i] in AllItems(cs, 0)
  {
    forall i | 0 <= i < |sorted| ensures sorted[i] in AllItems(cs, 0) {
      SameItems(AllItems(cs, 0), sorted[i]);
    }
    forall p | IsPlace(cs, p) ensures p in Values(sorted) {
      PlaceIsSorted(cs, sorted, p);
    }
  }

  lemma PlaceIsSorted(cs: seq<Capture>, sorted: seq<Item<Place>>, p: Place)
    requires sorted == Sort(AllItems(cs, 0)) && IsPlace(cs, p)
    ensures p in Values(sorted)
  {
    EveryPlace(cs, 0, p);
    SameItems(AllItems(cs, 0), ItemAt(cs, p));
    var j :| 0 <= j < |sorted| && sorted[j] == ItemAt(cs, p);
    assert Values(sorted)[j] == p;
  }

  lemma PlacesPrecede(cs: seq<Capture>, sorted: seq<Item<Place>>)
    requires sorted == Sort(AllItems(cs, 0)) && ArePlaces(cs, Values(sorted))
    requires forall i :: 0 <= i < |sorted| ==> sorted[i] in AllItems(cs, 0)
    ensures forall i, j :: 0 <= i < j < |sorted| ==> Precedes(cs, Values(sorted)[i], Values(sorted)[j])
  {
    PlacesAscend(cs, 0);
    SortInOrder(AllItems(cs, 0), Earlier);
    forall i, j | 0 <= i < j < |sorted| ensures Precedes(cs, Values(sorted)[i], Values(sorted)[j]) {
      assert Before(sorted[i], sorted[j], Earlier);
    }
  }
}
