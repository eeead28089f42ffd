/** Records as their values: section, name, type, class, time to live and data. What any run of operations makes of the
    values is what is read back from the bytes. */
module DnsItems {
  import opened Bytes
  import opened Wrappers
  import opened DnsRecords
  import opened DnsList
  import opened DnsLayer
  import opened DnsRuns
  import Names = DnsNames

  /** A query has time to live 0 and no data. */
  datatype Item = Item(kind: nat, name: Text, dnsType: nat, dnsClass: nat, ttl: nat, rdata: seq<Byte>)

  // ---------------------------------------------------------------------------------------------
  // What the operations do to values
  // ---------------------------------------------------------------------------------------------

  /** How many items do not come after section `kind`. */
  function Before(items: seq<Item>, kind: nat): (n: nat)
    ensures n <= |items|
  {
    if items == [] then 0
    else Before(items[..|items| - 1], kind) + if items[|items| - 1].kind <= kind then 1 else 0
  }

  function Put(items: seq<Item>, it: Item): seq<Item> {
    var p := Before(items, it.kind);
    items[..p] + [it] + items[p..]
  }

  /** A change of size needs room. */
  function ItemsAfter(items: seq<Item>, op: Op): seq<Item> {
    match op
    case AddQuery(name, dnsType, dnsClass, room) =>
      if room then Put(items, Item(0, name, dnsType, dnsClass, 0, [])) else items
    case AddRecord(kind, name, dnsType, dnsClass, ttl, rdata, room) =>
      if room && rdata.Some? then Put(items, Item(kind, name, dnsType, dnsClass, ttl, rdata.value)) else items
    case Remove(i, room) => if room && i < |items| then items[..i] + items[i + 1..] else items
    case SetName(i, name, room) =>
      if i < |items| && (room || |Names.EncodeName(name)| == |Names.EncodeName(items[i].name)|)
      then items[i := items[i].(name := name)] else items
    case SetData(i, rdata, room) =>
      if i < |items| && items[i].kind != 0 && rdata.Some? && (room || |rdata.value| == |items[i].rdata|)
      then items[i := items[i].(rdata := rdata.value)] else items
  }

  function ItemsAfterAll(items: seq<Item>, ops: seq<Op>): seq<Item>
    decreases |ops|
  {
    if ops == [] then items else ItemsAfterAll(ItemsAfter(items, ops[0]), ops[1..])
  }

  // ---------------------------------------------------------------------------------------------
  // Records hold values
  // ---------------------------------------------------------------------------------------------

  ghost predicate Holds(r: Rec, it: Item) {
    r.kind == it.kind && NamedBy(r, it.name) && FieldsAre(r, it.dnsType, it.dnsClass, it.ttl, it.rdata)
  }

  ghost predicate AllHold(recs: seq<Rec>, items: seq<Item>) {
    |recs| == |items| && forall p | 0 <= p < |recs| :: Holds(recs[p], items[p])
  }

  lemma KindHolds(r: Rec, it: Item)
    requires Holds(r, it)
    ensures r.kind == it.kind && r.nameLen == |Names.EncodeName(it.name)|
    ensures r.kind != QUERY ==> |r.bytes| == r.nameLen + 10 + |it.rdata|
  {
    hide Names.EncodeName, Plain, Number;
  }

  lemma {:induction false} SamePlace(recs: seq<Rec>, items: seq<Item>, kind: nat)
    requires AllHold(recs, items)
    ensures UpTo(recs, kind) == Before(items, kind)
  {
    hide Holds;
    if recs != [] {
      var n := |recs| - 1;
      KindHolds(recs[n], items[n]);
      SamePlace(recs[..n], items[..n], kind);
    }
  }

  lemma InsertHolds(recs: seq<Rec>, items: seq<Item>, r: Rec, it: Item)
    requires AllHold(recs, items) && Holds(r, it)
    ensures AllHold(Insert(recs, UpTo(recs, r.kind), r), Put(items, it))
  {
    hide Holds;
    KindHolds(r, it);
    SamePlace(recs, items, r.kind);
  }

  lemma FrontNames(name: Text, r: Rec, rest: seq<Byte>)
    requires Plain(name) && r.nameLen == |Names.EncodeName(name)| && r.bytes == Names.EncodeName(name) + rest
    ensures NamedBy(r, name)
  {
    hide Names.EncodeName, Plain;
  }

  lemma NewQueryHolds(op: Op)
    requires OpOk(op) && OpNamed(op) && op.AddQuery?
    ensures Holds(NewQuery(op), Item(0, op.name, op.dnsType, op.dnsClass, 0, []))
  {
    hide Names.EncodeName, Plain, Be16, FieldsAre, NamedBy;
    FrontNames(op.name, NewQuery(op), Be16(op.dnsType) + Be16(op.dnsClass));
    QueryFields(op.name, op.dnsType, op.dnsClass);
  }

  lemma NewRecordHolds(op: Op)
    requires OpOk(op) && OpNamed(op) && op.AddRecord? && op.rdata.Some?
    ensures Holds(NewRecord(op), Item(op.kind, op.name, op.dnsType, op.dnsClass, op.ttl, op.rdata.value))
  {
    hide Names.EncodeName, Plain, Be16, Be32, FieldsAre, NamedBy;
    var d := op.rdata.value;
    var rest := Be16(op.dnsType) + Be16(op.dnsClass) + Be32(op.ttl) + Be16(|d|) + d;
    assert NewRecord(op).bytes == Names.EncodeName(op.name) + rest;
    FrontNames(op.name, NewRecord(op), rest);
    ResourceFields(op.kind, op.name, op.dnsType, op.dnsClass, op.ttl, d);
  }

  lemma RenamedHolds(r: Rec, it: Item, name: Text)
    requires Holds(r, it) && Plain(name) && r.nameLen <= |r.bytes|
    ensures Holds(Renamed(r, Names.EncodeName(name)), it.(name := name))
  {
    hide Names.EncodeName, Plain, FieldsAre, NamedBy;
    var e := Names.EncodeName(name);
    FrontNames(name, Renamed(r, e), r.bytes[r.nameLen..]);
    RenamedFields(r, e, it.dnsType, it.dnsClass, it.ttl, it.rdata);
  }

  lemma WithDataHolds(r: Rec, it: Item, d: seq<Byte>)
    requires Holds(r, it) && r.kind != QUERY && |d| < 0x1_0000 && r.nameLen + 10 <= |r.bytes|
    ensures Holds(WithData(r, d), it.(rdata := d))
  {
    hide Names.EncodeName, Plain, FieldsAre, Be16;
    WithDataFields(r, d, it.dnsType, it.dnsClass, it.ttl, it.rdata);
  }

  /** One operation does to the records what it does to the values. */
  lemma AfterHolds(recs: seq<Rec>, items: seq<Item>, op: Op)
    requires RecsOk(recs) && OpOk(op) && OpNamed(op) && AllHold(recs, items)
    ensures AllHold(After(recs, op), ItemsAfter(items, op))
  {
    hide Holds, Plain, QueryBytes, ResourceBytes, Names.EncodeName, UpTo, NewQuery, NewRecord, Renamed, WithData, Put,
         Insert, RecOk;
    match op
    case AddQuery(name, dnsType, dnsClass, _) =>
      NewQueryHolds(op);
      KindHolds(NewQuery(op), Item(0, name, dnsType, dnsClass, 0, []));
      InsertHolds(recs, items, NewQuery(op), Item(0, name, dnsType, dnsClass, 0, []));
    case AddRecord(kind, name, dnsType, dnsClass, ttl, rdata, _) =>
      if rdata.Some? {
        NewRecordHolds(op);
        KindHolds(NewRecord(op), Item(kind, name, dnsType, dnsClass, ttl, rdata.value));
        InsertHolds(recs, items, NewRecord(op), Item(kind, name, dnsType, dnsClass, ttl, rdata.value));
      }
    case Remove(i, _) =>
    case SetName(i, name, _) =>
      if i < |recs| {
        KindHolds(recs[i], items[i]);
        RenamedOk(recs[i]);
        RenamedHolds(recs[i], items[i], name);
      }
    case SetData(i, rdata, _) =>
      if i < |recs| {
        KindHolds(recs[i], items[i]);
        if recs[i].kind != QUERY && rdata.Some? {
          WithDataOk(recs[i], rdata.value);
          WithDataHolds(recs[i], items[i], rdata.value);
        }
      }
  }

  lemma {:induction false} AllAfterHold(recs: seq<Rec>, items: seq<Item>, ops: seq<Op>)
    requires RecsOk(recs) && OpsOk(ops) && AllHold(recs, items) && forall k | 0 <= k < |ops| :: OpNamed(ops[k])
    ensures AllHold(AfterAll(recs, ops), ItemsAfterAll(items, ops))
    decreases |ops|
  {
    hide RecsOk, AllHold, After, ItemsAfter, OpNamed, OpOk;
    if ops != [] {
      AfterOk(recs, ops[0]);
      AfterHolds(recs, items, ops[0]);
      AllAfterHold(After(recs, ops[0]), ItemsAfter(items, ops[0]), ops[1..]);
    }
  }

  // ---------------------------------------------------------------------------------------------
  // Reading values
  // ---------------------------------------------------------------------------------------------

  /** The type, class and time to live of the record at `o`, and its data. */
  function GetDnsType(data: seq<Byte>, o: nat, nameLen: nat): int
    requires o + nameLen + 2 <= |data|
  {
    FromBe16(data[o + nameLen..])
  }

  function GetDnsClass(data: seq<Byte>, o: nat, nameLen: nat): int
    requires o + nameLen + 4 <= |data|
  {
    FromBe16(data[o + nameLen + 2..])
  }

  function GetTtl(data: seq<Byte>, o: nat, nameLen: nat): int
    requires o + nameLen + 8 <= |data|
  {
    FromBe32(data[o + nameLen + 4..])
  }

  function GetData(data: seq<Byte>, o: nat, nameLen: nat): seq<Byte>
    requires o + nameLen + 10 + DataLength(data, o, nameLen) <= |data|
  {
    data[o + nameLen + 10..o + nameLen + 10 + DataLength(data, o, nameLen)]
  }

  lemma NumberAt(data: seq<Byte>, o: nat, b: seq<Byte>, i: nat, k: nat)
    requires o + |b| <= |data| && data[o..o + |b|] == b && i + k <= |b|
    ensures data[o + i..][..k] == b[i..i + k] == data[o + i..o + i + k]
  {
    var a, c := data[o + i..][..k], b[i..i + k];
    forall j | 0 <= j < k ensures a[j] == c[j] {
      assert data[o..o + |b|][i + j] == b[i + j];
    }
    assert data[o + i..][..k] == data[o + i..o + i + k];
  }

  /** Reading the record's fields from the message gives the values it holds. */
  lemma FieldsRead(data: seq<Byte>, recs: seq<Rec>, tail: seq<Byte>, p: nat, it: Item)
    requires Tiles(data, recs, tail) && p < |recs| && RecOk(recs[p]) && Holds(recs[p], it)
    ensures var o, n := Start(recs, p), recs[p].nameLen;
            && o + n + 4 <= |data| && GetDnsType(data, o, n) == it.dnsType && GetDnsClass(data, o, n) == it.dnsClass
            && (recs[p].kind != QUERY ==>
                  && o + n + 10 + DataLength(data, o, n) <= |data|
                  && GetTtl(data, o, n) == it.ttl && GetData(data, o, n) == it.rdata)
  {
    hide Tiles, Start, Number, Names.EncodeName, Plain, DataLength, FromBe16, FromBe32;
    var o, n, b := Start(recs, p), recs[p].nameLen, recs[p].bytes;
    RecAt(data, recs, tail, p);
    NumberAt(data, o, b, n, 2);
    NumberAt(data, o, b, n + 2, 2);
    FromBe16Is(data[o + n..]);
    FromBe16Is(data[o + n + 2..]);
    if recs[p].kind != QUERY {
      DataLengthIs(data, recs, tail, p);
      NumberAt(data, o, b, n + 4, 4);
      FromBe32Is(data[o + n + 4..]);
      NumberAt(data, o, b, n + 10, |b| - n - 10);
      assert b[n + 10..|b|] == b[n + 10..];
    }
  }

  lemma NameRead(data: seq<Byte>, recs: seq<Rec>, tail: seq<Byte>, p: nat, name: Text)
    requires Tiles(data, recs, tail) && p < |recs| && NamedBy(recs[p], name)
    ensures Names.DecodeName(data, Start(recs, p), 0).text == name
  {
    hide Tiles, Start, Names.EncodeName, Names.DecodeName, Names.LabelsOk, Names.Dotted, Names.Name;
    var r, o := recs[p], Start(recs, p);
    var labels: seq<Text> :| PlainName(name, labels);
    RecAt(data, recs, tail, p);
    assert data[o..o + r.nameLen] == data[o..o + |r.bytes|][..r.nameLen];
    Names.RoundTrip(data, o, 0, labels);
  }

  lemma RecInside(data: seq<Byte>, recs: seq<Rec>, tail: seq<Byte>, p: nat)
    requires Tiles(data, recs, tail) && p < |recs| && RecOk(recs[p])
    ensures var o, n := Start(recs, p), recs[p].nameLen;
            && o + n + 4 <= |data|
            && (recs[p].kind != QUERY ==> o + n + 10 + DataLength(data, o, n) <= |data|)
  {
    hide Tiles, Start, DataLength;
    RecAt(data, recs, tail, p);
    if recs[p].kind != QUERY {
      DataLengthIs(data, recs, tail, p);
    }
  }

  lemma HeldIs(r: Rec, it: Item)
    requires Holds(r, it)
    ensures r.kind == it.kind && NamedBy(r, it.name) && (r.kind == QUERY ==> it.ttl == 0 && it.rdata == [])
  {
  }

  lemma NumbersFit(data: seq<Byte>, o: nat, n: nat)
    requires o + n + 4 <= |data|
    ensures GetDnsType(data, o, n) >= 0 && GetDnsClass(data, o, n) >= 0
    ensures o + n + 8 <= |data| ==> GetTtl(data, o, n) >= 0
  {
  }

  /** Reads a record from the message. */
  method ReadItem(l: Layer, n: Node, ghost p: nat) returns (it: Item)
    requires l.Valid() && p < |l.nodes| == |l.recs| && n == l.nodes[p]
    ensures forall held | Holds(l.recs[p], held) :: it == held
  {
    hide Tiles, Start, Distinct, Linked, FirstsOk, RecsOk, Sorted, Placed, CountsOk, NodeAt, Holds, DataLength,
         Names.DecodeName, FromBe16, FromBe32, RecOk;
    NodeFacts(l.nodes, l.recs, p);
    RecInside(l.data, l.recs, l.tail, p);
    var name := Names.Decode(l.data, n.offset, 0);
    var dnsType := GetDnsType(l.data, n.offset, n.nameLen);
    var dnsClass := GetDnsClass(l.data, n.offset, n.nameLen);
    NumbersFit(l.data, n.offset, n.nameLen);
    it := Item(n.kind, name.text, dnsType, dnsClass, 0, []);
    if n.kind != QUERY {
      it := it.(ttl := GetTtl(l.data, n.offset, n.nameLen), rdata := GetData(l.data, n.offset, n.nameLen));
    }
    forall held | Holds(l.recs[p], held) ensures it == held {
      HeldIs(l.recs[p], held);
      NameRead(l.data, l.recs, l.tail, p, held.name);
      FieldsRead(l.data, l.recs, l.tail, p, held);
    }
  }

  /** Reads all records, walking the list. */
  method ReadItems(l: Layer) returns (items: seq<Item>)
    requires l.Valid()
    ensures forall held | AllHold(l.recs, held) :: items == held
  {
    hide Tiles, Start, Distinct, FirstsOk, RecsOk, Sorted, Placed, CountsOk, Holds;
    PlacedSize(l.nodes, l.recs);
    items := [];
    var n := l.head;
    while n != null
      invariant |items| <= |l.nodes| == |l.recs| && n == NodeAt(l.nodes, |items|)
      invariant forall k, held | 0 <= k < |items| && Holds(l.recs[k], held) :: items[k] == held
      decreases |l.nodes| - |items|
    {
      var it := ReadItem(l, n, |items|);
      items := items + [it];
      n := n.next;
    }
  }

  /** Each section's count stands in the header, two bytes each from the fifth on. */
  lemma HeaderShows(data: seq<Byte>, recs: seq<Rec>, k: nat)
    requires CountsOk(data, recs) && k < 4
    ensures Number(data[4 + 2 * k..6 + 2 * k]) == Count(recs, k) % 0x1_0000
  {
    FromBe16Is(data[4 + 2 * k..]);
    assert data[4 + 2 * k..][..2] == data[4 + 2 * k..6 + 2 * k];
  }

  function NumberOf(items: seq<Item>, kind: nat): nat {
    if items == [] then 0
    else NumberOf(items[..|items| - 1], kind) + if items[|items| - 1].kind == kind then 1 else 0
  }

  lemma NothingHeld()
    ensures RecsOk([]) && AllHold([], [])
  {
  }

  lemma {:induction false} SameNumber(recs: seq<Rec>, items: seq<Item>, kind: nat)
    requires AllHold(recs, items)
    ensures Count(recs, kind) == NumberOf(items, kind)
  {
    hide Holds;
    if recs != [] {
      var n := |recs| - 1;
      KindHolds(recs[n], items[n]);
      SameNumber(recs[..n], items[..n], kind);
    }
  }

  lemma SameNumbers(recs: seq<Rec>, items: seq<Item>)
    requires AllHold(recs, items)
    ensures |recs| == |items| && forall k: nat :: Count(recs, k) == NumberOf(items, k)
  {
    forall k: nat ensures Count(recs, k) == NumberOf(items, k) {
      SameNumber(recs, items, k);
    }
  }

  /** A message built by any run of operations with plain names, of at most 100 records in the end: who receives it
      reads the values the operations make, and finds their numbers in the header. */
  method BuildAndRead(ops: seq<Op>) returns (data: seq<Byte>, ok: bool, items: seq<Item>)
    requires OpsOk(ops) && AllAllowed([], ops) && forall k | 0 <= k < |ops| :: OpNamed(ops[k])
    ensures |ItemsAfterAll([], ops)| <= 100 ==> ok && items == ItemsAfterAll([], ops)
    ensures |data| >= 12 && forall k | 0 <= k < 4 ::
              Number(data[4 + 2 * k..6 + 2 * k]) == NumberOf(ItemsAfterAll([], ops), k) % 0x1_0000
  {
    hide OpOk, OpNamed, AfterAll, AllAllowed, ItemsAfterAll, Tiles, RecsOk, Sorted, CountsOk, Distinct, Linked, Placed,
         FirstsOk, AllHold;
    ghost var all := ItemsAfterAll([], ops);
    NothingHeld();
    AllAfterHold([], [], ops);
    var l, m;
    l, m, ok := BuildAndParse(ops);
    data := l.data;
    SameNumbers(l.recs, all);
    TilesSize(l.data, l.recs, l.tail);
    forall k | 0 <= k < 4 ensures Number(data[4 + 2 * k..6 + 2 * k]) == NumberOf(all, k) % 0x1_0000 {
      HeaderShows(l.data, l.recs, k);
    }
    items := [];
    if ok {
      items := ReadItems(m);
    }
  }
}
