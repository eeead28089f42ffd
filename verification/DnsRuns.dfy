/** Every run of operations on a message: a first parse, then adds, removals, renamings and changes of data, in any
    order. */
module DnsRuns {
  import opened Bytes
  import opened Wrappers
  import opened DnsRecords
  import opened DnsList
  import opened DnsLayer
  import Names = DnsNames
  import Parse = DnsParse

  /** An operation; records are numbered from the first, and `room` says whether the layer can be resized. */
  datatype Op =
    | AddQuery(name: Text, dnsType: nat, dnsClass: nat, room: bool)
    | AddRecord(kind: nat, name: Text, dnsType: nat, dnsClass: nat, ttl: nat, rdata: Option<seq<Byte>>, room: bool)
    | Remove(i: nat, room: bool)
    | SetName(i: nat, name: Text, room: bool)
    | SetData(i: nat, rdata: Option<seq<Byte>>, room: bool)

  predicate DataFits(rdata: Option<seq<Byte>>) {
    rdata.Some? ==> |rdata.value| < 0x1_0000
  }

  /** Fields are within their widths. */
  predicate OpOk(op: Op) {
    match op
    case AddQuery(_, dnsType, dnsClass, _) => dnsType < 0x1_0000 && dnsClass < 0x1_0000
    case AddRecord(kind, _, dnsType, dnsClass, ttl, rdata, _) =>
      0 < kind < SECTIONS && dnsType < 0x1_0000 && dnsClass < 0x1_0000 && ttl < 0x1_0000_0000 && DataFits(rdata)
    case SetData(_, rdata, _) => DataFits(rdata)
    case _ => true
  }

  /** What a caller has to see to: a record is not added before the section of the first one. */
  predicate Allowed(recs: seq<Rec>, op: Op) {
    op.AddRecord? ==> HeadFits(recs, op.kind)
  }

  // ---------------------------------------------------------------------------------------------
  // What the operations make of the records
  // ---------------------------------------------------------------------------------------------

  function NewQuery(op: Op): Rec
    requires op.AddQuery? && OpOk(op)
  {
    Rec(QUERY, |Names.EncodeName(op.name)|, QueryBytes(op.name, op.dnsType, op.dnsClass))
  }

  function NewRecord(op: Op): Rec
    requires op.AddRecord? && OpOk(op) && op.rdata.Some?
  {
    Rec(op.kind, |Names.EncodeName(op.name)|, ResourceBytes(op.name, op.dnsType, op.dnsClass, op.ttl, op.rdata.value))
  }

  function After(recs: seq<Rec>, op: Op): seq<Rec>
    requires RecsOk(recs) && OpOk(op)
  {
    match op
    case AddQuery(_, _, _, room) => if room then Insert(recs, UpTo(recs, QUERY), NewQuery(op)) else recs
    case AddRecord(kind, _, _, _, _, rdata, room) =>
      if room && rdata.Some? then Insert(recs, UpTo(recs, kind), NewRecord(op)) else recs
    case Remove(i, room) => if room && i < |recs| then DnsRecords.Remove(recs, i) else recs
    case SetName(i, name, room) =>
      if i < |recs| && (room || |Names.EncodeName(name)| == recs[i].nameLen)
      then recs[i := Renamed(recs[i], Names.EncodeName(name))] else recs
    case SetData(i, rdata, room) =>
      if i < |recs| && recs[i].kind != QUERY && rdata.Some?
          && (room || |rdata.value| == |recs[i].bytes| - recs[i].nameLen - 10)
      then recs[i := WithData(recs[i], rdata.value)] else recs
  }

  lemma AfterOk(recs: seq<Rec>, op: Op)
    requires RecsOk(recs) && OpOk(op)
    ensures RecsOk(After(recs, op))
  {
    hide RecOk, QueryBytes, ResourceBytes, Names.EncodeName;
    match op
    case AddQuery(name, dnsType, dnsClass, _) =>
      QueryOk(name, dnsType, dnsClass);
      InsertOk(recs, UpTo(recs, QUERY), NewQuery(op));
    case AddRecord(kind, name, dnsType, dnsClass, ttl, rdata, _) =>
      if rdata.Some? {
        ResourceOk(kind, name, dnsType, dnsClass, ttl, rdata.value);
        InsertOk(recs, UpTo(recs, kind), NewRecord(op));
      }
    case Remove(_, _) =>
    case SetName(i, name, _) =>
      if i < |recs| {
        RenamedOk(recs[i]);
      }
    case SetData(i, rdata, _) =>
      if i < |recs| && recs[i].kind != QUERY && rdata.Some? {
        WithDataOk(recs[i], rdata.value);
      }
  }

  predicate OpsOk(ops: seq<Op>) {
    forall k | 0 <= k < |ops| :: OpOk(ops[k])
  }

  /** The records after all of them. */
  function AfterAll(recs: seq<Rec>, ops: seq<Op>): seq<Rec>
    requires RecsOk(recs) && OpsOk(ops)
    decreases |ops|
  {
    if ops == [] then recs else
      AfterOk(recs, ops[0]);
      AfterAll(After(recs, ops[0]), ops[1..])
  }

  predicate AllAllowed(recs: seq<Rec>, ops: seq<Op>)
    requires RecsOk(recs) && OpsOk(ops)
    decreases |ops|
  {
    ops == [] ||
    (Allowed(recs, ops[0]) &&
     (AfterOk(recs, ops[0]);
      AllAllowed(After(recs, ops[0]), ops[1..])))
  }

  // ---------------------------------------------------------------------------------------------
  // Running them
  // ---------------------------------------------------------------------------------------------

  /** Walks to a node of the list. */
  method NodeOf(l: Layer, i: nat) returns (n: Node?)
    requires l.Valid()
    ensures n == NodeAt(l.nodes, i)
  {
    hide Distinct, Placed, FirstsOk, Sorted, RecsOk, Tiles, CountsOk;
    n := l.head;
    var k := 0;
    while n != null && k < i
      invariant 0 <= k <= i && n == NodeAt(l.nodes, k)
    {
      n := n.next;
      k := k + 1;
    }
  }

  lemma InsertedNodes(nodes: seq<Node>, p: nat, n: Node?, nodes': seq<Node>)
    requires if n == null then nodes' == nodes else p <= |nodes| && nodes' == InsertNode(nodes, p, n)
    ensures forall m | m in nodes' :: m in nodes || m == n
  {
  }

  /** In a list of distinct nodes there is only one place to remove a node from. */
  lemma OnlyPlace(nodes: seq<Node>, recs: seq<Rec>, n: Node, nodes': seq<Node>, recs': seq<Rec>, p: nat, i: nat)
    requires Distinct(nodes) && RemovedAt(nodes, recs, n, nodes', recs', p) && i < |nodes| && nodes[i] == n
    ensures p == i && recs' == DnsRecords.Remove(recs, i) && forall m | m in nodes' :: m in nodes
  {
  }

  lemma KindBounds(nodes: seq<Node>, recs: seq<Rec>, i: nat)
    requires Placed(nodes, recs) && RecsOk(recs) && i < |nodes|
    ensures nodes[i].kind < SECTIONS
  {
  }

  method RemoveAt(l: Layer, n: Node, room: bool, ghost i: nat)
    requires l.Valid() && i < |l.nodes| == |l.recs| && n == l.nodes[i]
    modifies l, l.nodes
    ensures l.Valid() && l.tail == old(l.tail) && forall m | m in l.nodes :: m in old(l.nodes)
    ensures SameFront(old(l.data), l.data)
    ensures l.recs == if room then DnsRecords.Remove(old(l.recs), i) else old(l.recs)
    ensures l.parsed == old(l.parsed)
  {
    hide Distinct, Linked, Placed, FirstsOk, Sorted, RecsOk, Tiles, CountsOk, DnsRecords.Remove, RemovedAt;
    KindBounds(l.nodes, l.recs, i);
    var ok := l.RemoveRecord(n.kind, n, room);
    if ok {
      ghost var p :| RemovedAt(old(l.nodes), old(l.recs), n, l.nodes, l.recs, p);
      OnlyPlace(old(l.nodes), old(l.recs), n, l.nodes, l.recs, p, i);
    }
  }

  /** Nodes of the list that were not there before are new. */
  twostate predicate OldOrNew(l: Layer, nodes: seq<Node>)
    reads l
  {
    forall i | 0 <= i < |l.nodes| :: l.nodes[i] in nodes || fresh(l.nodes[i])
  }

  /** One operation. The nodes are then old ones or new ones. */
  method Do(l: Layer, op: Op)
    requires l.Valid() && OpOk(op) && Allowed(l.recs, op)
    modifies l, l.nodes
    ensures l.Valid() && RecsOk(old(l.recs)) && l.recs == After(old(l.recs), op) && l.tail == old(l.tail)
    ensures OldOrNew(l, old(l.nodes)) && l.parsed == old(l.parsed) && SameFront(old(l.data), l.data)
  {
    hide Distinct, Linked, Placed, FirstsOk, Sorted, RecsOk, Tiles, CountsOk, Insert, DnsRecords.Remove, UpTo,
         InsertNode, RemoveNode, QueryBytes, ResourceBytes, Renamed, WithData, Names.EncodeName, HeadFits, FieldsAre;
    PlacedSize(l.nodes, l.recs);
    TilesSize(l.data, l.recs, l.tail);
    AfterOk(l.recs, op);
    match op
    case AddQuery(name, dnsType, dnsClass, room) =>
      var n := l.AddQuery(name, dnsType, dnsClass, room);
      InsertedNodes(old(l.nodes), UpTo(old(l.recs), QUERY), n, l.nodes);
    case AddRecord(kind, name, dnsType, dnsClass, ttl, rdata, room) =>
      var n := l.AddRecord(kind, name, dnsType, dnsClass, ttl, rdata, room);
      InsertedNodes(old(l.nodes), UpTo(old(l.recs), kind), n, l.nodes);
    case Remove(i, room) =>
      var n := NodeOf(l, i);
      if n != null {
        KindsMatch(l.nodes, l.recs);
        RemoveAt(l, n, room, i);
      }
    case SetName(i, name, room) =>
      var n := NodeOf(l, i);
      if n != null {
        var _ := l.SetName(n, name, room, i);
      }
    case SetData(i, rdata, room) =>
      var n := NodeOf(l, i);
      if n != null {
        KindsMatch(l.nodes, l.recs);
        if n.kind != QUERY {
          var _ := l.SetData(n, rdata, room, i);
        }
      }
  }

  /** Any run of operations that are allowed keeps list, section pointers, bytes and header counts in agreement, and
      makes of the records what the operations make of them one after the other. */
  method DoAll(l: Layer, ops: seq<Op>)
    requires l.Valid() && OpsOk(ops) && RecsOk(l.recs) && AllAllowed(l.recs, ops)
    modifies l, l.nodes
    ensures l.Valid() && l.tail == old(l.tail) && RecsOk(old(l.recs)) && l.recs == AfterAll(old(l.recs), ops)
    ensures OldOrNew(l, old(l.nodes)) && l.parsed == old(l.parsed) && SameFront(old(l.data), l.data)
  {
    hide Distinct, Linked, Placed, FirstsOk, Sorted, RecsOk, Tiles, CountsOk, After, Allowed, OpOk;
    TilesSize(l.data, l.recs, l.tail);
    var k := 0;
    assert ops[0..] == ops;
    while k < |ops|
      invariant k <= |ops| && l.Valid() && l.tail == old(l.tail) && RecsOk(l.recs) && OpsOk(ops[k..])
      invariant AllAllowed(l.recs, ops[k..]) && AfterAll(l.recs, ops[k..]) == AfterAll(old(l.recs), ops)
      invariant OldOrNew(l, old(l.nodes)) && l.parsed == old(l.parsed) && SameFront(old(l.data), l.data)
    {
      assert ops[k..][0] == ops[k] && ops[k..][1..] == ops[k + 1..];
      AfterOk(l.recs, ops[k]);
      Do(l, ops[k]);
      k := k + 1;
    }
  }

  lemma ParsedRecsOk(data: seq<Byte>)
    requires |data| >= HEADER_SIZE && ParsedRecs(data).Some?
    ensures RecsOk(ParsedRecs(data).value)
  {
    hide RecsOk, Parse.ParseFrom;
    Parse.ParsedOk(data, HEADER_SIZE, 0, HeaderCounts(data));
  }

  /** A message that is received, parsed in full, and then operated on. */
  method ParseAndDo(bytes: seq<Byte>, ops: seq<Op>) returns (l: Layer, ok: bool)
    requires |bytes| >= HEADER_SIZE && OpsOk(ops)
    requires ParsedRecs(bytes).Some? ==> (ParsedRecsOk(bytes); AllAllowed(ParsedRecs(bytes).value, ops))
    ensures ok <==> ParsedRecs(bytes).Some?
    ensures ok ==> (ParsedRecsOk(bytes); l.Valid() && l.recs == AfterAll(ParsedRecs(bytes).value, ops))
    ensures ok ==> SameFront(bytes, l.data)
  {
    hide ParsedRecs, AfterAll, AllAllowed;
    l := new Layer.Received(bytes);
    ok := l.ParseResources();
    if ok {
      DoAll(l, ops);
    }
  }

  // ---------------------------------------------------------------------------------------------
  // Parsing what was built
  // ---------------------------------------------------------------------------------------------

  /** A name of labels that are read back as they are written. */
  ghost predicate PlainName(name: Text, labels: seq<Text>) {
    Names.LabelsOk(labels) && |Names.Dotted(labels)| <= 256 && name == Names.Name(labels)
  }

  ghost predicate Plain(name: Text) {
    exists labels: seq<Text> :: PlainName(name, labels)
  }

  /** A record that starts with its own plain name. */
  ghost predicate NamedBy(r: Rec, name: Text) {
    Plain(name) && r.nameLen == |Names.EncodeName(name)| <= |r.bytes| && r.bytes[..r.nameLen] == Names.EncodeName(name)
  }

  ghost predicate Named(r: Rec) {
    exists name: Text :: NamedBy(r, name)
  }

  ghost predicate AllNamed(recs: seq<Rec>) {
    forall p | 0 <= p < |recs| :: Named(recs[p])
  }

  ghost predicate OpNamed(op: Op) {
    op.AddQuery? || op.AddRecord? || op.SetName? ==> Plain(op.name)
  }

  /** A plain name in front of anything names it. */
  lemma NamedFront(kind: nat, name: Text, rest: seq<Byte>)
    requires Plain(name)
    ensures var e := Names.EncodeName(name); Named(Rec(kind, |e|, e + rest))
  {
    hide Names.EncodeName, Plain;
    var e := Names.EncodeName(name);
    assert NamedBy(Rec(kind, |e|, e + rest), name);
  }

  lemma NewNamed(op: Op)
    requires OpOk(op) && OpNamed(op)
    ensures op.AddQuery? ==> Named(NewQuery(op))
    ensures op.AddRecord? && op.rdata.Some? ==> Named(NewRecord(op))
  {
    hide Names.EncodeName, Plain, Named;
    if op.AddQuery? {
      var rest := Be16(op.dnsType) + Be16(op.dnsClass);
      NamedFront(QUERY, op.name, rest);
      assert NewQuery(op).bytes == Names.EncodeName(op.name) + rest;
    } else if op.AddRecord? && op.rdata.Some? {
      var rest := Be16(op.dnsType) + Be16(op.dnsClass) + Be32(op.ttl) + Be16(|op.rdata.value|) + op.rdata.value;
      NamedFront(op.kind, op.name, rest);
      assert NewRecord(op).bytes == Names.EncodeName(op.name) + rest;
    }
  }

  /** Other data leaves the name. */
  lemma WithDataNamed(r: Rec, d: seq<Byte>)
    requires Named(r) && r.nameLen + 10 <= |r.bytes| && |d| < 0x1_0000
    ensures Named(WithData(r, d))
  {
    hide Names.EncodeName, Plain, Be16;
    var name: Text :| NamedBy(r, name);
    assert WithData(r, d).bytes[..r.nameLen] == r.bytes[..r.nameLen];
    assert NamedBy(WithData(r, d), name);
  }

  lemma AfterNamed(recs: seq<Rec>, op: Op)
    requires RecsOk(recs) && OpOk(op) && OpNamed(op) && AllNamed(recs)
    ensures AllNamed(After(recs, op))
  {
    hide Named, Plain, QueryBytes, ResourceBytes, Names.EncodeName, UpTo, NewQuery, NewRecord;
    NewNamed(op);
    match op
    case SetName(i, name, _) =>
      if i < |recs| {
        RenamedOk(recs[i]);
        NamedFront(recs[i].kind, name, recs[i].bytes[recs[i].nameLen..]);
      }
    case SetData(i, rdata, _) =>
      if i < |recs| && recs[i].kind != QUERY && rdata.Some? {
        WithDataOk(recs[i], rdata.value);
        WithDataNamed(recs[i], rdata.value);
      }
    case _ =>
  }

  lemma {:induction false} AllStayNamed(recs: seq<Rec>, ops: seq<Op>)
    requires RecsOk(recs) && OpsOk(ops) && AllNamed(recs) && forall k | 0 <= k < |ops| :: OpNamed(ops[k])
    ensures AllNamed(AfterAll(recs, ops))
    decreases |ops|
  {
    hide RecsOk, AllNamed, After, OpNamed, OpOk;
    if ops != [] {
      AfterOk(recs, ops[0]);
      AfterNamed(recs, ops[0]);
      AllStayNamed(After(recs, ops[0]), ops[1..]);
    }
  }

  lemma NamedReads(data: seq<Byte>, recs: seq<Rec>, tail: seq<Byte>, p: nat)
    requires Tiles(data, recs, tail) && p < |recs| && Named(recs[p])
    ensures Parse.NameReads(data, recs, p)
  {
    hide Tiles, Start, Names.EncodeName, Names.DecodeName, Names.LabelsOk, Names.Dotted, Names.Name;
    var r, o := recs[p], Start(recs, p);
    var name: Text :| NamedBy(r, name);
    var labels: seq<Text> :| PlainName(name, labels);
    RecAt(data, recs, tail, p);
    assert data[o..o + r.nameLen] == data[o..o + |r.bytes|][..r.nameLen];
    Names.RoundTrip(data, o, 0, labels);
  }

  lemma {:induction false} CountBound(recs: seq<Rec>, kind: nat)
    ensures Count(recs, kind) <= |recs|
  {
    if recs != [] {
      CountBound(recs[..|recs| - 1], kind);
    }
  }

  lemma SmallCounts(data: seq<Byte>, recs: seq<Rec>)
    requires CountsOk(data, recs) && |recs| <= MAX_RECORDS
    ensures |HeaderCounts(data)| == SECTIONS && forall k | 0 <= k < SECTIONS :: HeaderCounts(data)[k] == Count(recs, k)
  {
    hide Count;
    forall k | 0 <= k < SECTIONS ensures HeaderCounts(data)[k] == Count(recs, k) {
      CountBound(recs, k);
    }
  }

  /** A message of at most 100 records with plain names of their own is parsed to exactly these records. */
  lemma ParsesToItself(data: seq<Byte>, recs: seq<Rec>, tail: seq<Byte>)
    requires Tiles(data, recs, tail) && RecsOk(recs) && Sorted(recs) && CountsOk(data, recs)
    requires AllNamed(recs) && |recs| <= MAX_RECORDS
    ensures ParsedRecs(data) == Some(recs)
  {
    hide Tiles, Start, RecsOk, Sorted, CountsOk, Named, Parse.NameReads, Parse.ParseFrom, HeaderCounts;
    forall p | 0 <= p < |recs| ensures Parse.NameReads(data, recs, p) {
      NamedReads(data, recs, tail, p);
    }
    TilesSize(data, recs, tail);
    SmallCounts(data, recs);
    Parse.TotalIs(recs, HeaderCounts(data));
    Parse.ParsesBack(data, recs, tail, HeaderCounts(data), 0);
    StartFirst(recs);
    assert recs[0..] == recs;
  }

  /** The records are all of a message, by section, as many of each as the header says and at most 100, and each name is
      read as long as its record says. */
  predicate IsMessage(data: seq<Byte>, recs: seq<Rec>) {
    && |data| >= 12 && |recs| <= 100 && RecsOk(recs) && Sorted(recs) && Parse.StandsAt(data, 12, recs)
    && forall k | 0 <= k < 4 :: Number(data[4 + 2 * k..6 + 2 * k]) == Count(recs, k)
  }

  lemma HeaderIs(data: seq<Byte>, k: nat)
    requires |data| >= HEADER_SIZE && k < SECTIONS
    ensures HeaderCounts(data)[k] == Number(data[4 + 2 * k..6 + 2 * k])
  {
    FromBe16Is(data[4 + 2 * k..]);
    assert data[4 + 2 * k..][..2] == data[4 + 2 * k..6 + 2 * k];
  }

  lemma FourCounts(data: seq<Byte>)
    requires |data| >= HEADER_SIZE
    ensures |HeaderCounts(data)| == SECTIONS
  {
  }

  lemma StandsTiles(data: seq<Byte>, recs: seq<Rec>) returns (tail: seq<Byte>)
    requires |data| >= HEADER_SIZE && Parse.StandsAt(data, HEADER_SIZE, recs)
    ensures Tiles(data, recs, tail) && forall p | 0 <= p < |recs| :: Parse.NameReads(data, recs, p)
  {
    hide Concat, Names.DecodeName;
    assert recs[..|recs|] == recs;
    var n := |Concat(recs)|;
    tail := data[HEADER_SIZE + n..];
    assert data[HEADER_SIZE..] == data[HEADER_SIZE..HEADER_SIZE + n] + tail;
  }

  lemma ParsedIsMessage(data: seq<Byte>, recs: seq<Rec>)
    requires |data| >= HEADER_SIZE && ParsedRecs(data) == Some(recs)
    ensures IsMessage(data, recs)
  {
    hide HeaderCounts, RecsOk, Sorted, Parse.StandsAt, Count, Number, Parse.KindAt;
    var counts := HeaderCounts(data);
    FourCounts(data);
    ParsedRecsOk(data);
    Parse.ParsedStands(data, HEADER_SIZE, 0, counts);
    Parse.KindAtSorted(counts, recs);
    forall k | 0 <= k < 4 ensures Number(data[4 + 2 * k..6 + 2 * k]) == Count(recs, k) {
      HeaderIs(data, k);
      Parse.FullCounts(counts, recs, k);
    }
  }

  lemma MessageIsParsed(data: seq<Byte>, recs: seq<Rec>)
    requires |data| >= HEADER_SIZE && IsMessage(data, recs)
    ensures ParsedRecs(data) == Some(recs)
  {
    hide HeaderCounts, RecsOk, Sorted, Parse.StandsAt, Count, Number, Tiles, Parse.NameReads, Parse.ParseFrom;
    var counts := HeaderCounts(data);
    FourCounts(data);
    forall k | 0 <= k < SECTIONS ensures counts[k] == Count(recs, k) {
      HeaderIs(data, k);
    }
    var tail := StandsTiles(data, recs);
    Parse.TotalIs(recs, counts);
    Parse.ParsesBack(data, recs, tail, counts, 0);
    StartFirst(recs);
    assert recs[0..] == recs;
  }

  /** A first parse finds certain records exactly if they are the message's. */
  lemma ParsedIff(data: seq<Byte>, recs: seq<Rec>)
    requires |data| >= HEADER_SIZE
    ensures ParsedRecs(data) == Some(recs) <==> IsMessage(data, recs)
  {
    hide ParsedRecs, IsMessage;
    if ParsedRecs(data) == Some(recs) {
      ParsedIsMessage(data, recs);
    }
    if IsMessage(data, recs) {
      MessageIsParsed(data, recs);
    }
  }

  /** A message built by any run of operations with plain names, of at most 100 records in the end, and received by
      another, is parsed there to the same records. */
  method BuildAndParse(ops: seq<Op>) returns (l: Layer, m: Layer, ok: bool)
    requires OpsOk(ops) && AllAllowed([], ops) && forall k | 0 <= k < |ops| :: OpNamed(ops[k])
    ensures l.Valid() && l.recs == AfterAll([], ops) && m.data == l.data && fresh(l) && fresh(m)
    ensures (ok ==> m.Valid()) && (|l.recs| <= MAX_RECORDS ==> ok && m.recs == l.recs)
  {
    hide OpOk, OpNamed, AfterAll, AllAllowed, ParsedRecs, Tiles, RecsOk, Sorted, CountsOk, Distinct, Linked, Placed,
         FirstsOk;
    l := new Layer();
    DoAll(l, ops);
    AllStayNamed([], ops);
    TilesSize(l.data, l.recs, l.tail);
    if |l.recs| <= MAX_RECORDS {
      ParsesToItself(l.data, l.recs, l.tail);
    }
    m := new Layer.Received(l.data);
    ok := m.ParseResources();
  }

  // ---------------------------------------------------------------------------------------------
  // What is not allowed
  // ---------------------------------------------------------------------------------------------

  lemma FirstIsRead(data: seq<Byte>)
    requires |data| >= HEADER_SIZE && ParsedRecs(data).Some? && ParsedRecs(data).value != []
    ensures ReadsAny(data)
  {
    hide Parse.RecordAt, Parse.KindAt, HeaderCounts;
  }

  /** A message that was built and is then parsed where it was built: sound exactly if it has no records. */
  method BuildThenParse(ops: seq<Op>) returns (l: Layer, ok: bool)
    requires OpsOk(ops) && AllAllowed([], ops) && forall k | 0 <= k < |ops| :: OpNamed(ops[k])
    ensures |AfterAll([], ops)| <= MAX_RECORDS ==> ok && (l.Shape() <==> AfterAll([], ops) == [])
  {
    hide OpOk, OpNamed, AfterAll, AllAllowed, ParsedRecs, Tiles, RecsOk, Sorted, CountsOk, Distinct, Linked, Placed,
         FirstsOk, ReadsAny;
    l := new Layer();
    DoAll(l, ops);
    AllStayNamed([], ops);
    TilesSize(l.data, l.recs, l.tail);
    if |l.recs| <= MAX_RECORDS {
      ParsesToItself(l.data, l.recs, l.tail);
      if l.recs != [] {
        FirstIsRead(l.data);
      }
    }
    ok := l.ParseResources();
  }

  lemma CycleIsNoShape(l: Layer)
    requires l.head != null && l.head.next != null && l.head.next.next == l.head
    ensures !l.Shape()
  {
    hide Placed, FirstsOk, Sorted, RecsOk, Tiles;
    if l.Shape() {
      assert false;
    }
  }

  /** An answer added to a message that has an additional record: the two nodes lead to each other, and no sequence of
      nodes that starts at the head is a list. */
  method AnswerAfterAdditional() returns (l: Layer)
    ensures l.head != null && l.head.next != null && l.head.next.next == l.head && !l.Shape()
  {
    hide Names.EncodeName, QueryBytes, ResourceBytes;
    l := new Layer();
    var n := l.AddRecord(3, [97], 1, 1, 0, Some([0, 0, 0, 0]), true);
    assert !HeadFits(l.recs, 1);
    var r := AssembleResource(1, [98], 1, 1, 0, [0, 0, 0, 0]);
    n := l.AddResource(r, true);
    CycleIsNoShape(l);
  }
}
