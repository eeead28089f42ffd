/** A DNS message: its bytes, the list of its records, and the operations that add, remove and resize records in
    place. */
module DnsLayer {
  import opened Bytes
  import opened DnsRecords
  import opened DnsList
  import Names = DnsNames
  import Parse = DnsParse
  import opened Wrappers

  /** The number of records of a section that the header gives. */
  function HeaderCount(data: seq<Byte>, kind: nat): int
    requires |data| >= HEADER_SIZE && kind < SECTIONS
  {
    FromBe16(data[4 + 2 * kind..])
  }

  /** The header counts the records of each section, in 16 bits. */
  predicate CountsOk(data: seq<Byte>, recs: seq<Rec>) {
    |data| >= HEADER_SIZE && forall k | 0 <= k < SECTIONS :: HeaderCount(data, k) == Count(recs, k) % 0x1_0000
  }

  /** A record of this section may be added: no record comes before it that belongs after it. */
  predicate HeadFits(recs: seq<Rec>, kind: nat) {
    recs == [] || recs[0].kind <= kind
  }

  /** The counts the header gives. */
  function HeaderCounts(data: seq<Byte>): seq<nat>
    requires |data| >= HEADER_SIZE
  {
    [HeaderCount(data, 0), HeaderCount(data, 1), HeaderCount(data, 2), HeaderCount(data, 3)]
  }

  /** The message's number and flags are the same. */
  predicate SameFront(was: seq<Byte>, now: seq<Byte>) {
    |was| >= 4 && |now| >= 4 && now[..4] == was[..4]
  }

  lemma FrontOfHeader(was: seq<Byte>, now: seq<Byte>)
    requires |was| >= HEADER_SIZE && |now| >= HEADER_SIZE && now[..HEADER_SIZE] == was[..HEADER_SIZE]
    ensures SameFront(was, now)
  {
    assert now[..4] == now[..HEADER_SIZE][..4] && was[..4] == was[..HEADER_SIZE][..4];
  }

  /** More records than this are taken for a bad message. */
  const MAX_RECORDS := 100

  function ParsedRecs(data: seq<Byte>): Option<seq<Rec>>
    requires |data| >= HEADER_SIZE
  {
    if Parse.Total(HeaderCounts(data)) > MAX_RECORDS then None
    else Parse.ParseFrom(data, HEADER_SIZE, 0, HeaderCounts(data))
  }

  /** Whether a parse gets as far as reading a record. */
  predicate ReadsAny(data: seq<Byte>)
    requires |data| >= HEADER_SIZE
  {
    var counts := HeaderCounts(data);
    0 < Parse.Total(counts) <= MAX_RECORDS && Parse.RecordAt(data, HEADER_SIZE, Parse.KindAt(counts, 0)).Some?
  }

  function Written(data: seq<Byte>, o: nat, b: seq<Byte>): seq<Byte>
    requires o + |b| <= |data|
  {
    data[..o] + b + data[o + |b|..]
  }

  function QueryBytes(name: Text, dnsType: nat, dnsClass: nat): seq<Byte>
    requires dnsType < 0x1_0000 && dnsClass < 0x1_0000
  {
    Names.EncodeName(name) + Be16(dnsType) + Be16(dnsClass)
  }

  function ResourceBytes(name: Text, dnsType: nat, dnsClass: nat, ttl: nat, rdata: seq<Byte>): seq<Byte>
    requires dnsType < 0x1_0000 && dnsClass < 0x1_0000 && ttl < 0x1_0000_0000 && |rdata| < 0x1_0000
  {
    QueryBytes(name, dnsType, dnsClass) + Be32(ttl) + Be16(|rdata|) + rdata
  }

  /** What stands after a record's name: its type and its class, and, unless it is a query, its time to live, the length
      of its data and the data; each number with its most significant byte first. */
  predicate FieldsAre(r: Rec, dnsType: int, dnsClass: int, ttl: int, rdata: seq<Byte>) {
    var b, n := r.bytes, r.nameLen;
    && n + 4 <= |b| && Number(b[n..n + 2]) == dnsType && Number(b[n + 2..n + 4]) == dnsClass
    && if r.kind == QUERY then |b| == n + 4 && ttl == 0 && rdata == []
       else
         && n + 10 <= |b| && Number(b[n + 4..n + 8]) == ttl && Number(b[n + 8..n + 10]) == |rdata|
         && b[n + 10..] == rdata
  }

  // ---------------------------------------------------------------------------------------------
  // Putting a record together
  // ---------------------------------------------------------------------------------------------

  lemma FieldSizes(dnsType: nat, dnsClass: nat, ttl: nat, size: nat)
    requires dnsType < 0x1_0000 && dnsClass < 0x1_0000 && ttl < 0x1_0000_0000 && size < 0x1_0000
    ensures |Be16(dnsType)| == |Be16(dnsClass)| == |Be16(size)| == 2 && |Be32(ttl)| == 4
  {
  }

  lemma QueryFields(name: Text, dnsType: nat, dnsClass: nat)
    requires dnsType < 0x1_0000 && dnsClass < 0x1_0000
    ensures FieldsAre(Rec(QUERY, |Names.EncodeName(name)|, QueryBytes(name, dnsType, dnsClass)),
                      dnsType, dnsClass, 0, [])
  {
    hide Names.EncodeName, Be16, Number;
    Be16Is(dnsType);
    Be16Is(dnsClass);
    var b, n := QueryBytes(name, dnsType, dnsClass), |Names.EncodeName(name)|;
    assert b[n..n + 2] == Be16(dnsType) && b[n + 2..n + 4] == Be16(dnsClass);
  }

  lemma ResourceFields(kind: nat, name: Text, dnsType: nat, dnsClass: nat, ttl: nat, rdata: seq<Byte>)
    requires 0 < kind < SECTIONS
    requires dnsType < 0x1_0000 && dnsClass < 0x1_0000 && ttl < 0x1_0000_0000 && |rdata| < 0x1_0000
    ensures FieldsAre(Rec(kind, |Names.EncodeName(name)|, ResourceBytes(name, dnsType, dnsClass, ttl, rdata)),
                      dnsType, dnsClass, ttl, rdata)
  {
    hide Names.EncodeName, Be16, Be32, Number;
    Be16Is(dnsType);
    Be16Is(dnsClass);
    Be32Is(ttl);
    Be16Is(|rdata|);
    var b, n := ResourceBytes(name, dnsType, dnsClass, ttl, rdata), |Names.EncodeName(name)|;
    assert b[n..n + 2] == Be16(dnsType) && b[n + 2..n + 4] == Be16(dnsClass);
    assert b[n + 4..n + 8] == Be32(ttl) && b[n + 8..n + 10] == Be16(|rdata|) && b[n + 10..] == rdata;
  }

  /** A query is put together in a buffer of its own: its fields, then its name in front of them. */
  method AssembleQuery(name: Text, dnsType: nat, dnsClass: nat) returns (r: Rec)
    requires dnsType < 0x1_0000 && dnsClass < 0x1_0000
    ensures RecOk(r) && r == Rec(QUERY, |Names.EncodeName(name)|, QueryBytes(name, dnsType, dnsClass))
    ensures FieldsAre(r, dnsType, dnsClass, 0, [])
  {
    QueryFields(name, dnsType, dnsClass);
    var raw: seq<Byte> := [0, 0, 0, 0];
    raw := Written(raw, 2, Be16(dnsClass));
    raw := Written(raw, 0, Be16(dnsType));
    assert raw == Be16(dnsType) + Be16(dnsClass);
    var encoded := Names.Encode(name);
    raw := encoded + raw;
    r := Rec(QUERY, |encoded|, raw);
  }

  /** So is any other record, with its time to live and its data. */
  method AssembleResource(kind: nat, name: Text, dnsType: nat, dnsClass: nat, ttl: nat, rdata: seq<Byte>)
    returns (r: Rec)
    requires 0 < kind < SECTIONS
    requires dnsType < 0x1_0000 && dnsClass < 0x1_0000 && ttl < 0x1_0000_0000 && |rdata| < 0x1_0000
    ensures RecOk(r) && r == Rec(kind, |Names.EncodeName(name)|, ResourceBytes(name, dnsType, dnsClass, ttl, rdata))
    ensures FieldsAre(r, dnsType, dnsClass, ttl, rdata)
  {
    hide Be16, Be32, Names.EncodeName, Written, FieldsAre;
    ResourceFields(kind, name, dnsType, dnsClass, ttl, rdata);
    FieldSizes(dnsType, dnsClass, ttl, |rdata|);
    var two: seq<Byte>, four: seq<Byte> := [0, 0], [0, 0, 0, 0];
    var raw := two + two + (four + two);
    WrittenAt(two, two, four + two, Be16(dnsClass));
    raw := Written(raw, 2, Be16(dnsClass));
    WrittenAt([], two, Be16(dnsClass) + (four + two), Be16(dnsType));
    assert raw == [] + two + (Be16(dnsClass) + (four + two));
    raw := Written(raw, 0, Be16(dnsType));
    var encoded := Names.Encode(name);
    var n := |encoded|;
    raw := encoded + raw;
    ghost var fixed := encoded + Be16(dnsType) + Be16(dnsClass);
    assert raw == fixed + four + two;
    WrittenAt(fixed, four, two, Be32(ttl));
    raw := Written(raw, n + 4, Be32(ttl));
    assert raw[..n + 10] == raw;
    raw := raw[..n + 10] + rdata;
    assert raw == fixed + Be32(ttl) + two + rdata;
    WrittenAt(fixed + Be32(ttl), two, rdata, Be16(|rdata|));
    raw := Written(raw, n + 8, Be16(|rdata|));
    AssembledOk(kind, n, fixed + Be32(ttl), rdata);
    r := Rec(kind, n, raw);
  }

  /** What either puts together is a well-formed record. */
  lemma QueryOk(name: Text, dnsType: nat, dnsClass: nat)
    requires dnsType < 0x1_0000 && dnsClass < 0x1_0000
    ensures RecOk(Rec(QUERY, |Names.EncodeName(name)|, QueryBytes(name, dnsType, dnsClass)))
  {
    hide Names.EncodeName;
  }

  lemma ResourceOk(kind: nat, name: Text, dnsType: nat, dnsClass: nat, ttl: nat, rdata: seq<Byte>)
    requires 0 < kind < SECTIONS
    requires dnsType < 0x1_0000 && dnsClass < 0x1_0000 && ttl < 0x1_0000_0000 && |rdata| < 0x1_0000
    ensures RecOk(Rec(kind, |Names.EncodeName(name)|, ResourceBytes(name, dnsType, dnsClass, ttl, rdata)))
  {
    hide Names.EncodeName, Be32, Be16;
    FieldSizes(dnsType, dnsClass, ttl, |rdata|);
    AssembledOk(kind, |Names.EncodeName(name)|, QueryBytes(name, dnsType, dnsClass) + Be32(ttl), rdata);
  }

  lemma AssembledOk(kind: nat, n: nat, fixed: seq<Byte>, rdata: seq<Byte>)
    requires 0 < kind < SECTIONS && |fixed| == n + 8 && |rdata| < 0x1_0000
    ensures RecOk(Rec(kind, n, fixed + Be16(|rdata|) + rdata))
  {
    Be16RoundTrip(|rdata|, rdata);
    assert (fixed + Be16(|rdata|) + rdata)[n + 8..] == Be16(|rdata|) + rdata;
  }

  lemma WrittenAt(a: seq<Byte>, b: seq<Byte>, c: seq<Byte>, l: seq<Byte>)
    requires |l| == |b|
    ensures Written(a + b + c, |a|, l) == a + l + c
  {
    Middle(a, b, c);
  }

  // ---------------------------------------------------------------------------------------------
  // Reading
  // ---------------------------------------------------------------------------------------------

  /** The counts still to be read after `i` records. */
  predicate LeftOver(left: seq<nat>, counts: seq<nat>, i: nat) {
    && |left| == |counts| == SECTIONS
    && left[0] == (if i < counts[0] then counts[0] - i else 0)
    && left[1] == Rest(counts[0], counts[1], i)
    && left[2] == Rest(counts[0] + counts[1], counts[2], i)
    && left[3] == Rest(counts[0] + counts[1] + counts[2], counts[3], i)
  }

  function Rest(before: nat, size: nat, i: nat): nat {
    if i <= before then size else if i < before + size then before + size - i else 0
  }

  /** The section of the next record: the first one with records left. */
  method NextKind(left: seq<nat>, ghost counts: seq<nat>, ghost i: nat, ghost total: nat)
    returns (kind: nat, left': seq<nat>)
    requires |counts| == SECTIONS && LeftOver(left, counts, i) && total == Parse.Total(counts) && i < total
    ensures kind == Parse.KindAt(counts, i) < SECTIONS && LeftOver(left', counts, i + 1)
  {
    if left[0] > 0 {
      kind := 0;
    } else if left[1] > 0 {
      kind := 1;
    } else if left[2] > 0 {
      kind := 2;
    } else {
      kind := 3;
    }
    left' := left[kind := left[kind] - 1];
  }

  lemma AllLeft(counts: seq<nat>)
    requires |counts| == SECTIONS
    ensures LeftOver(counts, counts, 0)
  {
  }

  lemma LastNode(nodes: seq<Node>)
    requires nodes != []
    ensures NodeAt(nodes, |nodes| - 1) == nodes[|nodes| - 1]
  {
  }

  lemma CountsSize(data: seq<Byte>)
    requires |data| >= HEADER_SIZE
    ensures |HeaderCounts(data)| == SECTIONS
  {
  }

  lemma EmptyOk(data: seq<Byte>, first: seq<Node?>)
    requires |data| >= HEADER_SIZE && first == [null, null, null, null]
    ensures Tiles(data, [], data[HEADER_SIZE..]) && FirstsOk(first, [], [])
  {
    Parse.NothingRead(data);
    forall k | 0 <= k < SECTIONS ensures first[k] == null {
    }
  }

  lemma NoCounts()
    ensures CountsOk(seq(HEADER_SIZE, _ => 0), [])
  {
    forall k | 0 <= k < SECTIONS ensures Count([], k) == 0 {
    }
  }

  lemma NoneRead(all: Option<seq<Rec>>)
    ensures Prepended([], all) == all
  {
    if all.Some? {
      assert [] + all.value == all.value;
    }
  }

  lemma NoNodes(nodes: seq<Node>, recs: seq<Rec>)
    requires Placed(nodes, recs) && recs == []
    ensures nodes == [] && NodeAt(nodes, 0) == null == NodeAt(nodes, -1)
  {
  }

  /** The header counts are those of a full parse. */
  lemma CountsRead(data: seq<Byte>, recs: seq<Rec>)
    requires |data| >= HEADER_SIZE && |recs| == Parse.Total(HeaderCounts(data))
    requires forall i | 0 <= i < |recs| :: recs[i].kind == Parse.KindAt(HeaderCounts(data), i)
    ensures CountsOk(data, recs)
  {
    hide Parse.KindAt;
    forall k | 0 <= k < SECTIONS ensures HeaderCount(data, k) == Count(recs, k) % 0x1_0000 {
      Parse.FullCounts(HeaderCounts(data), recs, k);
      assert HeaderCounts(data)[k] == HeaderCount(data, k);
    }
  }

  lemma PutLast(nodes: seq<Node>, recs: seq<Rec>, n: Node, r: Rec)
    ensures InsertNode(nodes, |nodes|, n) == nodes + [n] && Insert(recs, |recs|, r) == recs + [r]
  {
  }

  lemma NoneOfKind(first: seq<Node?>, nodes: seq<Node>, recs: seq<Rec>, kind: nat)
    requires FirstsOk(first, nodes, recs) && Sorted(recs) && kind < SECTIONS
    requires forall k | 0 <= k < |recs| :: recs[k].kind <= kind
    ensures kind < |first| && |nodes| == |recs| && (first[kind] == null <==> FirstOfKind(recs, |recs|, kind))
  {
    FirstOfOk(recs, kind);
  }

  /** The pointers to the first of each section, when a record is put last. */
  lemma Appended(first: seq<Node?>, nodes: seq<Node>, recs: seq<Rec>, n: Node, r: Rec, counts: seq<nat>)
    requires FirstsOk(first, nodes, recs) && Sorted(recs) && RecsOk(recs) && RecOk(r) && |counts| == SECTIONS
    requires r.kind == Parse.KindAt(counts, |recs|)
    requires forall k | 0 <= k < |recs| :: recs[k].kind == Parse.KindAt(counts, k)
    ensures var recs' := Insert(recs, |recs|, r);
            && r.kind < |first| && |nodes| == |recs|
            && FirstsOk(if first[r.kind] == null then first[r.kind := n] else first, InsertNode(nodes, |nodes|, n),
                        recs')
            && Sorted(recs') && RecsOk(recs') && InsertNode(nodes, |nodes|, n) == nodes + [n] && recs' == recs + [r]
  {
    hide FirstsOk, FirstOfKind, Sorted, RecsOk, InsertNode, Insert;
    Parse.KindAtSorted(counts, recs);
    LastUpTo(recs, r.kind);
    Inserted(first, nodes, recs, n, r);
    NoneOfKind(first, nodes, recs, r.kind);
    PutLast(nodes, recs, n, r);
  }

  lemma LastUpTo(recs: seq<Rec>, kind: nat)
    requires Sorted(recs) && forall k | 0 <= k < |recs| :: recs[k].kind <= kind
    ensures UpTo(recs, kind) == |recs|
  {
    UpToIs(recs, kind, |recs|);
  }

  lemma AppendPlaced(nodes: seq<Node>, recs: seq<Rec>, n: Node, r: Rec)
    requires Placed(nodes, recs) && n.kind == r.kind && n.nameLen == r.nameLen && n.offset == Start(recs, |recs|)
    ensures Placed(InsertNode(nodes, |nodes|, n), Insert(recs, |recs|, r))
  {
    InsertPlaced(nodes, recs, |recs|, r, n);
  }

  /** Two nodes that lead to each other are no list. */
  lemma CycleIsNoList(nodes: seq<Node>, n: Node)
    requires nodes != [] && nodes[0] == n && n.next != null && n.next.next == n
    ensures !(Distinct(nodes) && Linked(nodes))
  {
    if Distinct(nodes) && Linked(nodes) {
      assert false;
    }
  }

  // ---------------------------------------------------------------------------------------------
  // Inserting and removing
  // ---------------------------------------------------------------------------------------------

  /** The nodes describe these records, except that those from position `j` on are `delta` further. */
  predicate PlacedBut(nodes: seq<Node>, recs: seq<Rec>, j: nat, delta: int)
    reads nodes`offset, nodes`nameLen
  {
    && |nodes| == |recs|
    && (forall i | 0 <= i < |nodes| :: nodes[i].kind == recs[i].kind && nodes[i].nameLen == recs[i].nameLen)
    && (forall i | 0 <= i < |nodes| :: nodes[i].offset == Start(recs, i) + if i < j then 0 else delta)
  }

  lemma InsertPlaced(nodes: seq<Node>, recs: seq<Rec>, p: nat, r: Rec, n: Node)
    requires p <= |recs| && PlacedBut(nodes, recs, p, |r.bytes|)
    requires n.kind == r.kind && n.nameLen == r.nameLen && n.offset == Start(recs, p)
    ensures Placed(InsertNode(nodes, p, n), Insert(recs, p, r))
  {
    hide Concat;
    var nodes', recs' := InsertNode(nodes, p, n), Insert(recs, p, r);
    forall i | 0 <= i < |nodes'|
      ensures nodes'[i].kind == recs'[i].kind && nodes'[i].nameLen == recs'[i].nameLen
      ensures nodes'[i].offset == Start(recs', i)
    {
      if i < p {
        InsertStarts(recs, p, r, i);
      } else if i == p {
        assert recs'[..p] == recs[..p];
      } else {
        InsertStarts(recs, p, r, i - 1);
      }
    }
  }

  /** The lists without the record of node `n`. */
  predicate RemovedAt(nodes: seq<Node>, recs: seq<Rec>, n: Node, nodes': seq<Node>, recs': seq<Rec>, p: nat) {
    && p < |nodes| == |recs| && nodes[p] == n
    && nodes' == RemoveNode(nodes, p) && recs' == Remove(recs, p)
  }

  lemma Witness(nodes: seq<Node>, recs: seq<Rec>, n: Node, nodes': seq<Node>, recs': seq<Rec>, p: nat)
    requires RemovedAt(nodes, recs, n, nodes', recs', p)
    ensures exists p :: RemovedAt(nodes, recs, n, nodes', recs', p)
  {
  }

  /** The next node if it is of this section. */
  function NextAlike(kind: nat, next: Node?): Node? {
    if next != null && next.kind == kind then next else null
  }

  /** The bytes of the record at a position can be taken out. */
  lemma RemovedBytes(recs: seq<Rec>, data: seq<Byte>, tail: seq<Byte>, p: nat)
    requires Tiles(data, recs, tail) && p < |recs|
    ensures var o, size := Start(recs, p), |recs[p].bytes|;
            && HEADER_SIZE <= o && o + size <= |data| && Start(recs, p + 1) == o + size
            && Tiles(data[..o] + data[o + size..], Remove(recs, p), tail)
            && (data[..o] + data[o + size..])[..HEADER_SIZE] == data[..HEADER_SIZE]
  {
    RemoveTiles(data, recs, tail, p);
    ConcatSplit(recs, p);
    StartLow(recs, p);
  }

  /** What is known of the node at a position. */
  lemma NodeFacts(nodes: seq<Node>, recs: seq<Rec>, p: nat)
    requires Linked(nodes) && Placed(nodes, recs) && RecsOk(recs) && p < |recs|
    ensures nodes[p].offset == Start(recs, p) && nodes[p].kind == recs[p].kind < SECTIONS && RecOk(recs[p])
    ensures nodes[p].nameLen == recs[p].nameLen && nodes[p].next == NodeAt(nodes, p + 1)
    ensures NextOfKind(nodes, recs, p) == NextAlike(nodes[p].kind, NodeAt(nodes, p + 1))
    ensures forall i | p + 1 <= i < |nodes| :: |recs[p].bytes| <= nodes[i].offset
  {
    ConcatSplit(recs, p);
    hide Concat;
    forall i | p + 1 <= i < |nodes| ensures |recs[p].bytes| <= nodes[i].offset {
      StartsGrow(recs, p + 1, i);
    }
  }

  lemma {:induction false} StartsGrow(recs: seq<Rec>, i: nat, k: nat)
    requires i <= k <= |recs|
    ensures Start(recs, i) <= Start(recs, k)
  {
    if i < k {
      StartsGrow(recs, i, k - 1);
      ConcatSplit(recs, k - 1);
    }
  }

  lemma Removed(first: seq<Node?>, nodes: seq<Node>, recs: seq<Rec>, p: nat)
    requires FirstsOk(first, nodes, recs) && Sorted(recs) && Distinct(nodes) && RecsOk(recs) && p < |recs|
    ensures var k := recs[p].kind;
            && k < |first| && (NodeAt(nodes, 0) == nodes[p] <==> p == 0)
            && FirstsOk(if first[k] == nodes[p] then first[k := NextOfKind(nodes, recs, p)] else first,
                        RemoveNode(nodes, p), Remove(recs, p))
            && Sorted(Remove(recs, p)) && RecsOk(Remove(recs, p))
  {
    FirstsRemoved(first, nodes, recs, p);
    RemoveSorted(recs, p);
  }

  lemma RemovePlaced(nodes: seq<Node>, recs: seq<Rec>, p: nat)
    requires p < |recs| && PlacedBut(nodes, recs, p + 1, -|recs[p].bytes|)
    ensures Placed(RemoveNode(nodes, p), Remove(recs, p))
  {
    hide Concat;
    var nodes', recs' := RemoveNode(nodes, p), Remove(recs, p);
    forall i | 0 <= i < |nodes'|
      ensures nodes'[i].kind == recs'[i].kind && nodes'[i].nameLen == recs'[i].nameLen
      ensures nodes'[i].offset == Start(recs', i)
    {
      RemoveStarts(recs, p, i);
      ConcatSplit(recs, p);
    }
  }

  lemma KindsMatch(nodes: seq<Node>, recs: seq<Rec>)
    requires Placed(nodes, recs)
    ensures |nodes| == |recs| && forall i | 0 <= i < |nodes| :: nodes[i].kind == recs[i].kind
  {
  }

  lemma RemovedMeans(nodes: seq<Node>, recs: seq<Rec>, n: Node, nodes': seq<Node>, recs': seq<Rec>, p: nat)
    requires RemovedAt(nodes, recs, n, nodes', recs', p)
    ensures p < |nodes| == |recs| && nodes[p] == n && recs' == Remove(recs, p)
  {
  }

  // ---------------------------------------------------------------------------------------------
  // A record with another name or other data
  // ---------------------------------------------------------------------------------------------

  function Renamed(r: Rec, encoded: seq<Byte>): Rec
    requires r.nameLen <= |r.bytes|
  {
    r.(nameLen := |encoded|, bytes := encoded + r.bytes[r.nameLen..])
  }

  function WithData(r: Rec, d: seq<Byte>): Rec
    requires r.nameLen + 10 <= |r.bytes| && |d| < 0x1_0000
  {
    r.(bytes := r.bytes[..r.nameLen + 8] + Be16(|d|) + d)
  }

  /** Another name leaves everything after it. */
  lemma RenamedFields(r: Rec, e: seq<Byte>, dnsType: int, dnsClass: int, ttl: int, rdata: seq<Byte>)
    requires FieldsAre(r, dnsType, dnsClass, ttl, rdata)
    ensures FieldsAre(Renamed(r, e), dnsType, dnsClass, ttl, rdata)
  {
    hide Number;
    var b, b', n, n' := r.bytes, Renamed(r, e).bytes, r.nameLen, |e|;
    assert b'[n'..n' + 2] == b[n..n + 2] && b'[n' + 2..n' + 4] == b[n + 2..n + 4];
    if r.kind != QUERY {
      assert b'[n' + 4..n' + 8] == b[n + 4..n + 8] && b'[n' + 8..n' + 10] == b[n + 8..n + 10];
      assert b'[n' + 10..] == b[n + 10..];
    }
  }

  /** Other data leaves everything before its length. */
  lemma WithDataFields(r: Rec, d: seq<Byte>, dnsType: int, dnsClass: int, ttl: int, rdata: seq<Byte>)
    requires FieldsAre(r, dnsType, dnsClass, ttl, rdata) && r.kind != QUERY && |d| < 0x1_0000
    ensures FieldsAre(WithData(r, d), dnsType, dnsClass, ttl, d)
    ensures WithData(r, d).bytes[..r.nameLen] == r.bytes[..r.nameLen]
  {
    hide Number, Be16;
    Be16Is(|d|);
    var b, b', n := r.bytes, WithData(r, d).bytes, r.nameLen;
    assert b'[n..n + 2] == b[n..n + 2] && b'[n + 2..n + 4] == b[n + 2..n + 4] && b'[n + 4..n + 8] == b[n + 4..n + 8];
    assert b'[n + 8..n + 10] == Be16(|d|) && b'[n + 10..] == d;
  }

  lemma RenamedOk(r: Rec)
    requires RecOk(r)
    ensures r.nameLen <= |r.bytes| && forall e: seq<Byte> :: RecOk(Renamed(r, e))
  {
    forall e: seq<Byte> ensures RecOk(Renamed(r, e)) {
      assert r.kind != QUERY ==> Renamed(r, e).bytes[|e| + 8..] == r.bytes[r.nameLen + 8..];
    }
  }

  lemma WithDataOk(r: Rec, d: seq<Byte>)
    requires RecOk(r) && r.kind != QUERY && |d| < 0x1_0000
    ensures r.nameLen + 10 <= |r.bytes| && RecOk(WithData(r, d))
  {
    Be16RoundTrip(|d|, d);
    assert WithData(r, d).bytes[r.nameLen + 8..] == Be16(|d|) + d;
  }

  lemma ExtendedRest(was: seq<Byte>, now: seq<Byte>, o: nat, size: nat, n: nat, ok: bool)
    requires o + size <= |was| && n > size
    requires ok ==> |now| == |was| + (n - size) && now[..o] == was[..o] && now[o + (n - size)..] == was[o..]
    ensures ok ==> now[o + n..] == was[o + size..]
  {
    if ok {
      assert now[o + n..] == now[o + (n - size)..][size..];
      assert was[o + size..] == was[o..][size..];
    }
  }

  lemma ShortenedRest(was: seq<Byte>, now: seq<Byte>, o: nat, size: nat, n: nat, ok: bool)
    requires o + size <= |was| && n < size
    requires ok ==> now == was[..o] + was[o + (size - n)..]
    ensures ok ==> |now| == |was| - (size - n) && now[..o] == was[..o] && now[o + n..] == was[o + size..]
  {
  }

  /** The bytes of a renamed record in place of the record's. */
  lemma RenamedBytes(data: seq<Byte>, recs: seq<Rec>, tail: seq<Byte>, p: nat, encoded: seq<Byte>)
    requires Tiles(data, recs, tail) && p < |recs| && recs[p].nameLen <= |recs[p].bytes|
    ensures Start(recs, p) + recs[p].nameLen <= |data| && HEADER_SIZE <= Start(recs, p)
    ensures var o, r := Start(recs, p), Renamed(recs[p], encoded);
            var data' := data[..o] + encoded + data[o + recs[p].nameLen..];
            && Tiles(data', recs[p := r], tail) && |data'| >= HEADER_SIZE && data'[..HEADER_SIZE] == data[..HEADER_SIZE]
  {
    hide Tiles, Start;
    var o, n, r := Start(recs, p), recs[p].nameLen, Renamed(recs[p], encoded);
    RecAt(data, recs, tail, p);
    ReplaceTiles(data, recs, tail, p, r);
    PieceOf(data, o, recs[p].bytes, n);
    var data' := data[..o] + encoded + data[o + n..];
    assert data' == data[..o] + r.bytes + data[o + |recs[p].bytes|..];
    HeaderFirst(data, o, encoded + data[o + n..]);
    assert data' == data[..o] + (encoded + data[o + n..]);
  }

  /** The rest of a record, and what follows it. */
  lemma PieceOf(data: seq<Byte>, o: nat, b: seq<Byte>, n: nat)
    requires o + |b| <= |data| && data[o..o + |b|] == b && n <= |b|
    ensures data[o + n..] == b[n..] + data[o + |b|..] && data[..o + n] == data[..o] + b[..n]
  {
    assert data[o..] == data[o..o + |b|] + data[o + |b|..];
    assert data[o + n..] == data[o..][n..];
  }

  lemma HeaderFirst(data: seq<Byte>, o: nat, rest: seq<Byte>)
    requires HEADER_SIZE <= o <= |data|
    ensures |data[..o] + rest| >= HEADER_SIZE && (data[..o] + rest)[..HEADER_SIZE] == data[..HEADER_SIZE]
  {
  }

  /** The data length in the message is what the record has after its fixed fields. */
  lemma DataLengthIs(data: seq<Byte>, recs: seq<Rec>, tail: seq<Byte>, p: nat)
    requires Tiles(data, recs, tail) && p < |recs| && RecOk(recs[p]) && recs[p].kind != QUERY
    ensures DataLength(data, Start(recs, p), recs[p].nameLen) == |recs[p].bytes| - recs[p].nameLen - 10
  {
    SizeOfRec(data, recs, tail, p);
  }

  /** The bytes of a record with other data in place of the record's, once the length is written too. */
  lemma WithDataBytes(data: seq<Byte>, recs: seq<Rec>, tail: seq<Byte>, p: nat, d: seq<Byte>)
    requires Tiles(data, recs, tail) && p < |recs| && recs[p].nameLen + 10 <= |recs[p].bytes| && |d| < 0x1_0000
    ensures var o, n, size := Start(recs, p), recs[p].nameLen, |recs[p].bytes|;
            && HEADER_SIZE <= o && o + size <= |data|
            && var mid := data[..o + n + 10] + d + data[o + size..];
               && o + n + 10 <= |mid|
               && var data' := Written(mid, o + n + 8, Be16(|d|));
                  && Tiles(data', recs[p := WithData(recs[p], d)], tail)
                  && |data'| >= HEADER_SIZE && data'[..HEADER_SIZE] == data[..HEADER_SIZE]
  {
    hide Tiles, Start, Be16, Written;
    var o, n, b, r := Start(recs, p), recs[p].nameLen, recs[p].bytes, WithData(recs[p], d);
    RecAt(data, recs, tail, p);
    ReplaceTiles(data, recs, tail, p, r);
    LengthSize(|d|);
    var before, after := data[..o], data[o + |b|..];
    PieceOf(data, o, b, n + 10);
    LengthWritten(before, b, after, n, d, Be16(|d|));
    HeaderFirst(data, o, r.bytes + after);
    assert before + r.bytes + after == before + (r.bytes + after);
  }

  lemma LengthWritten(before: seq<Byte>, b: seq<Byte>, after: seq<Byte>, n: nat, d: seq<Byte>, l: seq<Byte>)
    requires n + 10 <= |b| && |l| == 2
    ensures Written(before + b[..n + 10] + d + after, |before| + n + 8, l) == before + (b[..n + 8] + l + d) + after
  {
    hide Written;
    var head, rest := before + b[..n + 8], d + after;
    var two := b[n + 8..n + 10];
    assert before + b[..n + 10] + d + after == head + two + rest;
    WrittenAt(head, two, rest, l);
    assert head + l + rest == before + (b[..n + 8] + l + d) + after;
  }

  lemma LengthSize(n: nat)
    requires n < 0x1_0000
    ensures |Be16(n)| == 2
  {
  }

  /** The nodes, once node `p` has the length of its record's new name. */
  lemma ReplacedPlaced(nodes: seq<Node>, recs: seq<Rec>, p: nat, r: Rec)
    requires |nodes| == |recs| && p < |recs| && r.kind == recs[p].kind && nodes[p].nameLen == r.nameLen
    requires forall i | 0 <= i < |nodes| :: nodes[i].kind == recs[i].kind
    requires forall i | 0 <= i < |nodes| && i != p :: nodes[i].nameLen == recs[i].nameLen
    requires forall i | 0 <= i < |nodes| ::
      nodes[i].offset == Start(recs, i) + if i < p + 1 then 0 else |r.bytes| - |recs[p].bytes|
    ensures Placed(nodes, recs[p := r])
  {
    hide Start;
    forall i | 0 <= i < |nodes| ensures nodes[i].offset == Start(recs[p := r], i) {
      ReplaceStarts(recs, p, r, i);
    }
  }

  lemma PlacedButAt(nodes: seq<Node>, recs: seq<Rec>, j: nat, delta: int, p: nat)
    requires PlacedBut(nodes, recs, j, delta) && p < j && p < |nodes|
    ensures |nodes| == |recs| && nodes[p].offset == Start(recs, p) && nodes[p].nameLen == recs[p].nameLen
  {
  }

  lemma ResizedPlaced(nodes: seq<Node>, recs: seq<Rec>, p: nat, r: Rec)
    requires p < |nodes| == |recs| && r.kind == recs[p].kind && r.nameLen == recs[p].nameLen
    requires PlacedBut(nodes, recs, p + 1, |r.bytes| - |recs[p].bytes|)
    ensures Placed(nodes, recs[p := r])
  {
    hide Start;
    ReplacedPlaced(nodes, recs, p, r);
  }

  method SetNameLen(n: Node, len: nat, ghost nodes: seq<Node>, ghost recs: seq<Rec>, ghost p: nat, ghost r: Rec)
    requires Distinct(nodes) && p < |nodes| == |recs| && n == nodes[p] && r.kind == n.kind && r.nameLen == len
    requires PlacedBut(nodes, recs, p + 1, |r.bytes| - |recs[p].bytes|)
    modifies n`nameLen
    ensures Placed(nodes, recs[p := r])
  {
    n.nameLen := len;
    ReplacedPlaced(nodes, recs, p, r);
  }

  /** Replacing a record by one of the same section changes no order, no first record and no count. */
  lemma Replaced(first: seq<Node?>, nodes: seq<Node>, recs: seq<Rec>, data: seq<Byte>, p: nat, r: Rec)
    requires FirstsOk(first, nodes, recs) && Sorted(recs) && RecsOk(recs) && CountsOk(data, recs)
    requires p < |recs| && r.kind == recs[p].kind && RecOk(r)
    ensures var recs' := recs[p := r];
            FirstsOk(first, nodes, recs') && Sorted(recs') && RecsOk(recs') && CountsOk(data, recs')
  {
    FirstsReplaced(first, nodes, recs, p, r);
    ReplaceCounts(data, recs, p, r);
  }

  // ---------------------------------------------------------------------------------------------
  // Counts
  // ---------------------------------------------------------------------------------------------

  /** The counts of all sections but one are the same. */
  predicate SameCountsBut(data: seq<Byte>, data': seq<Byte>, kind: nat) {
    && |data| >= HEADER_SIZE && |data'| >= HEADER_SIZE
    && forall k | 0 <= k < SECTIONS && k != kind :: HeaderCount(data', k) == HeaderCount(data, k)
  }

  lemma CountWritten(data: seq<Byte>, recs: seq<Rec>, tail: seq<Byte>, kind: nat, v: int)
    requires kind < SECTIONS && 0 <= v < 0x1_0000 && Tiles(data, recs, tail)
    ensures |data| >= HEADER_SIZE
    ensures var data' := Written(data, 4 + 2 * kind, Be16(v));
            Tiles(data', recs, tail) && SameCountsBut(data, data', kind) && HeaderCount(data', kind) == v
  {
    TilesSize(data, recs, tail);
    var data' := Written(data, 4 + 2 * kind, Be16(v));
    hide Start, Concat;
    assert data'[HEADER_SIZE..] == data[HEADER_SIZE..];
    forall k | 0 <= k < SECTIONS ensures HeaderCount(data', k) == if k == kind then v else HeaderCount(data, k) {
      assert data'[4 + 2 * k] == if k == kind then Be16(v)[0] else data[4 + 2 * k];
      assert data'[5 + 2 * k] == if k == kind then Be16(v)[1] else data[5 + 2 * k];
    }
  }

  /** The same header gives the same counts. */
  lemma CountsKept(data: seq<Byte>, data': seq<Byte>, recs: seq<Rec>)
    requires CountsOk(data, recs) && |data'| >= HEADER_SIZE && data'[..HEADER_SIZE] == data[..HEADER_SIZE]
    ensures CountsOk(data', recs) && forall k | 0 <= k < SECTIONS :: HeaderCount(data', k) == HeaderCount(data, k)
    ensures SameFront(data, data')
  {
    FrontOfHeader(data, data');
    forall k | 0 <= k < SECTIONS ensures HeaderCount(data', k) == HeaderCount(data, k) {
      assert data'[4 + 2 * k] == data'[..HEADER_SIZE][4 + 2 * k] == data[4 + 2 * k];
      assert data'[5 + 2 * k] == data'[..HEADER_SIZE][5 + 2 * k] == data[5 + 2 * k];
    }
  }

  /** One more record, and its section's count one more. */
  lemma InsertCounts(data': seq<Byte>, recs: seq<Rec>, p: nat, r: Rec, data: seq<Byte>)
    requires CountsOk(data, recs) && p <= |recs| && r.kind < SECTIONS && SameCountsBut(data, data', r.kind)
    requires HeaderCount(data', r.kind) == (HeaderCount(data, r.kind) + 1) % 0x1_0000
    ensures CountsOk(data', Insert(recs, p, r))
  {
    hide HeaderCount;
    forall k | 0 <= k < SECTIONS ensures HeaderCount(data', k) == Count(Insert(recs, p, r), k) % 0x1_0000 {
      InsertCount(recs, p, r, k);
    }
  }

  lemma RemoveCounts(data': seq<Byte>, recs: seq<Rec>, p: nat, data: seq<Byte>)
    requires CountsOk(data, recs) && p < |recs| && recs[p].kind < SECTIONS && SameCountsBut(data, data', recs[p].kind)
    requires HeaderCount(data', recs[p].kind) == (HeaderCount(data, recs[p].kind) - 1) % 0x1_0000
    ensures CountsOk(data', Remove(recs, p))
  {
    hide HeaderCount;
    forall k | 0 <= k < SECTIONS ensures HeaderCount(data', k) == Count(Remove(recs, p), k) % 0x1_0000 {
      RemoveCount(recs, p, k);
    }
  }

  lemma ReplaceCounts(data: seq<Byte>, recs: seq<Rec>, p: nat, r: Rec)
    requires CountsOk(data, recs) && p < |recs| && r.kind == recs[p].kind
    ensures CountsOk(data, recs[p := r])
  {
    hide HeaderCount;
    forall k | 0 <= k < SECTIONS ensures HeaderCount(data, k) == Count(recs[p := r], k) % 0x1_0000 {
      ReplaceCount(recs, p, r, k);
    }
  }

  // ---------------------------------------------------------------------------------------------
  // Where a record goes
  // ---------------------------------------------------------------------------------------------

  lemma FirstQuery(first: seq<Node?>, nodes: seq<Node>, recs: seq<Rec>)
    requires FirstsOk(first, nodes, recs) && Sorted(recs)
    ensures |first| == SECTIONS && first[QUERY] == if recs != [] && recs[0].kind == QUERY then nodes[0] else null
  {
    FirstOfIs(recs, QUERY, if recs != [] && recs[0].kind == QUERY then 0 else |recs|);
  }

  lemma NextQueryIs(nodes: seq<Node>, recs: seq<Rec>, p: nat)
    requires Linked(nodes) && Placed(nodes, recs) && p <= |nodes|
    ensures p > 0 ==> nodes[p - 1].next == NodeAt(nodes, p) && nodes[p - 1].kind == recs[p - 1].kind
  {
  }

  lemma StartFirst(recs: seq<Rec>)
    ensures Start(recs, 0) == HEADER_SIZE
  {
  }

  lemma UpToBefore(recs: seq<Rec>, kind: nat)
    requires Sorted(recs)
    ensures var p := UpTo(recs, kind); p > 0 ==> recs[p - 1].kind <= kind
  {
    UpToOk(recs, kind);
  }

  lemma Inserted(first: seq<Node?>, nodes: seq<Node>, recs: seq<Rec>, n: Node, r: Rec)
    requires FirstsOk(first, nodes, recs) && Sorted(recs) && RecsOk(recs) && RecOk(r)
    ensures var p := UpTo(recs, r.kind); var recs' := Insert(recs, p, r);
            && FirstsOk(if FirstOfKind(recs, p, r.kind) then first[r.kind := n] else first, InsertNode(nodes, p, n),
                        recs')
            && Sorted(recs') && RecsOk(recs') && r.kind < |first| && (p > 0 ==> recs[p - 1].kind <= r.kind)
  {
    FirstsInserted(first, nodes, recs, n, r);
    InsertSorted(recs, r);
    InsertOk(recs, UpTo(recs, r.kind), r);
    UpToBefore(recs, r.kind);
  }

  lemma InsertOk(recs: seq<Rec>, p: nat, r: Rec)
    requires RecsOk(recs) && RecOk(r) && p <= |recs|
    ensures RecsOk(Insert(recs, p, r))
  {
    hide RecOk;
  }

  /** The node that a new one of this section goes in front of. */
  lemma NextIs(nodes: seq<Node>, recs: seq<Rec>, p: nat, kind: nat, head: Node?, cur: Node?, next: Node?)
    requires Linked(nodes) && Placed(nodes, recs) && Sorted(recs) && p == UpTo(recs, kind) && head == NodeAt(nodes, 0)
    requires cur == (if p > 0 then nodes[p - 1] else head)
    requires next == if cur != null && cur.kind <= kind then cur.next else head
    ensures next == NodeAt(nodes, p) && (cur != null && cur.kind > kind <==> !HeadFits(recs, kind))
    ensures if HeadFits(recs, kind) then cur == NodeAt(nodes, p - 1) else p == 0 && cur == head != null
    ensures p > 0 ==> nodes[p - 1].kind == recs[p - 1].kind
  {
    UpToOk(recs, kind);
  }

  lemma InsertNodeIn(nodes: seq<Node>, p: nat, n: Node)
    requires p <= |nodes|
    ensures n in InsertNode(nodes, p, n)
  {
  }

  lemma TilesSize(data: seq<Byte>, recs: seq<Rec>, tail: seq<Byte>)
    requires Tiles(data, recs, tail)
    ensures |data| >= HEADER_SIZE
  {
  }

  lemma FirstsSize(first: seq<Node?>, nodes: seq<Node>, recs: seq<Rec>, r: Rec)
    requires FirstsOk(first, nodes, recs) && RecOk(r)
    ensures r.kind < |first| == SECTIONS
  {
  }

  lemma PlacedSize(nodes: seq<Node>, recs: seq<Rec>)
    requires Placed(nodes, recs)
    ensures |nodes| == |recs|
  {
  }

  lemma StartLow(recs: seq<Rec>, p: nat)
    requires p <= |recs|
    ensures HEADER_SIZE <= Start(recs, p)
  {
  }

  lemma HeaderKept(data: seq<Byte>, o: nat, b: seq<Byte>)
    requires HEADER_SIZE <= o <= |data|
    ensures (data[..o] + b + data[o..])[..HEADER_SIZE] == data[..HEADER_SIZE]
  {
  }

  // ---------------------------------------------------------------------------------------------
  // The message
  // ---------------------------------------------------------------------------------------------

  /** Two records at the same place cannot be the first two of a sound message. */
  lemma SameOffset(l: Layer)
    requires l.head != null && l.head.next != null && l.head.next.offset == l.head.offset
    ensures !l.Shape()
  {
    hide Distinct, FirstsOk, Sorted, Tiles;
    if l.Shape() {
      SecondLater(l.nodes, l.recs);
      assert false;
    }
  }

  lemma SecondLater(nodes: seq<Node>, recs: seq<Rec>)
    requires Placed(nodes, recs) && RecsOk(recs)
    ensures |nodes| > 1 ==> nodes[0].offset < nodes[1].offset
  {
    if |nodes| > 1 {
      ConcatSplit(recs, 0);
      assert RecOk(recs[0]);
    }
  }

  lemma EmptyIff(head: Node?, nodes: seq<Node>, recs: seq<Rec>)
    requires head == NodeAt(nodes, 0) && Placed(nodes, recs)
    ensures head == null <==> recs == []
  {
  }

  lemma HeadFirst(head: Node?, nodes: seq<Node>, recs: seq<Rec>)
    requires head == NodeAt(nodes, 0) && Placed(nodes, recs) && head != null
    ensures head.offset == HEADER_SIZE && head in nodes
  {
    StartFirst(recs);
  }

  lemma FirstsLength(first: seq<Node?>, nodes: seq<Node>, recs: seq<Rec>)
    requires FirstsOk(first, nodes, recs)
    ensures |first| == SECTIONS
  {
  }

  lemma TailIsRest(data: seq<Byte>, recs: seq<Rec>, tail: seq<Byte>)
    requires Tiles(data, recs, tail) && recs == []
    ensures tail == data[HEADER_SIZE..]
  {
    assert Concat(recs) == [];
  }

  class Layer {
    var data: seq<Byte>
    var head: Node?
    var first: seq<Node?>
    var parsed: bool
    var parseResult: bool
    ghost var nodes: seq<Node>
    ghost var recs: seq<Rec>
    ghost var tail: seq<Byte>

    /** The list, the pointers into it and the bytes agree on the records. */
    ghost predicate Shape()
      reads this, nodes
    {
      && Distinct(nodes) && Linked(nodes) && Placed(nodes, recs) && head == NodeAt(nodes, 0)
      && FirstsOk(first, nodes, recs) && Sorted(recs) && RecsOk(recs) && Tiles(data, recs, tail)
    }

    ghost predicate Valid()
      reads this, nodes
    {
      Shape() && CountsOk(data, recs)
    }

    /** A new message: a header of zeros. */
    constructor ()
      ensures Valid() && recs == [] && nodes == [] && data == seq(HEADER_SIZE, _ => 0) && tail == [] && !parsed
    {
      data, head, first, parsed, parseResult := seq(HEADER_SIZE, _ => 0), null, [null, null, null, null], false, false;
      nodes, recs, tail := [], [], [];
      new;
      hide Tiles, FirstsOk, CountsOk;
      EmptyOk(data, [null, null, null, null]);
      assert data[HEADER_SIZE..] == [];
      NoCounts();
    }

    /** A message as it was received, not read yet. */
    constructor Received(bytes: seq<Byte>)
      requires |bytes| >= HEADER_SIZE
      ensures Shape() && data == bytes && recs == [] && nodes == [] && tail == bytes[HEADER_SIZE..] && !parsed
    {
      data, head, first, parsed, parseResult := bytes, null, [null, null, null, null], false, false;
      nodes, recs, tail := [], [], bytes[HEADER_SIZE..];
      new;
      hide Tiles, FirstsOk;
      EmptyOk(data, [null, null, null, null]);
    }

    /** Reads all records of a message, once. A message whose records were added before that gets the ones it reads put
        after its first node: if it reads any, the two nodes at the front stand for the same bytes. */
    method ParseResources() returns (ok: bool)
      requires !parsed ==> Shape()
      modifies this, nodes
      ensures parsed && parseResult == ok && data == old(data)
      ensures old(parsed) ==> ok == old(parseResult) && unchanged(this) && unchanged(nodes)
      ensures !old(parsed) ==> (ok <==> ParsedRecs(data).Some?)
      ensures !old(parsed) && old(recs) == [] ==>
                Shape() && fresh(nodes)
                && (ok ==> Valid() && recs == ParsedRecs(data).value)
      ensures !old(parsed) && old(recs) != [] ==> recs == old(recs) && nodes == old(nodes) && head == old(head) != null
      ensures !old(parsed) && old(recs) != [] ==>
        if ReadsAny(data) then head.next != null && head.next.offset == head.offset && !Shape() else Shape()
    {
      hide Tiles, Start, Placed, Distinct, Linked, FirstsOk, RecsOk, Sorted, NodeAt, CountsOk, ParsedRecs, ReadsAny;
      if parsed {
        return parseResult;
      }
      ok := ParseOnce();
      parsed, parseResult := true, ok;
      if old(recs) != [] && ReadsAny(data) {
        SameOffset(this);
      }
    }

    method ParseOnce() returns (ok: bool)
      requires Shape()
      modifies this, nodes
      ensures data == old(data) && |data| >= HEADER_SIZE && (ok <==> ParsedRecs(data).Some?)
      ensures old(recs) == [] ==> Shape() && fresh(nodes) && (ok ==> Valid() && recs == ParsedRecs(data).value)
      ensures old(recs) != [] ==> recs == old(recs) && nodes == old(nodes) && head == old(head) != null
      ensures old(recs) != [] ==>
        if ReadsAny(data) then head.next != null && head.next.offset == head.offset else Shape()
    {
      hide Tiles, Start, Placed, Distinct, Linked, FirstsOk, RecsOk, Sorted, Parse.ParseFrom, HeaderCounts, NodeAt,
           CountsOk, Parse.RecordAt, Parse.KindAt;
      TilesSize(data, recs, tail);
      EmptyIff(head, nodes, recs);
      CountsSize(data);
      var counts := HeaderCounts(data);
      ghost var none := recs == [];
      if none {
        NoNodes(nodes, recs);
      }
      if Parse.Total(counts) > MAX_RECORDS {
        return false;
      }
      if head == null {
        TailIsRest(data, recs, tail);
        ok := ReadRecords(counts);
      } else {
        HeadFirst(head, nodes, recs);
        ok := ReadOnto(counts);
      }
    }

    /** Reads records and puts them after the head, which leads to other records. */
    method ReadOnto(counts: seq<nat>) returns (ok: bool)
      requires Shape() && head != null && |data| >= HEADER_SIZE && |counts| == SECTIONS
      modifies this`first, head`next
      ensures ok <==> Parse.ParseFrom(data, HEADER_SIZE, 0, counts).Some?
      ensures if Parse.Total(counts) > 0 && Parse.RecordAt(data, HEADER_SIZE, Parse.KindAt(counts, 0)).Some?
              then head.next != null && head.next.offset == head.offset
              else Shape()
    {
      hide Tiles, Start, Placed, Distinct, Linked, FirstsOk, RecsOk, Sorted, Parse.ParseFrom, Parse.KindAt, NodeAt,
           Parse.RecordAt, LeftOver;
      HeadFirst(head, nodes, recs);
      FirstsLength(first, nodes, recs);
      var total := Parse.Total(counts);
      var o: nat, cur := HEADER_SIZE, head;
      ghost var all, rs := Parse.ParseFrom(data, HEADER_SIZE, 0, counts), [];
      NoneRead(all);
      AllLeft(counts);
      var left := counts;
      var i := 0;
      while i < total
        invariant 0 <= i <= total && |first| == SECTIONS && LeftOver(left, counts, i)
        invariant all == Prepended(rs, Parse.ParseFrom(data, o, i, counts))
        invariant i == 0 ==> cur == head && head.next == old(head.next) && first == old(first) && o == HEADER_SIZE
        invariant i > 0 ==> cur != head && fresh(cur) && head.next != null && head.next.offset == HEADER_SIZE
        invariant i > 0 ==> Parse.RecordAt(data, HEADER_SIZE, Parse.KindAt(counts, 0)).Some?
      {
        var kind;
        kind, left := NextKind(left, counts, i, total);
        Parse.ParseNext(data, o, i, counts);
        var r := Parse.RecordAt(data, o, kind);
        if r.None? {
          return false;
        }
        PrependedNext(rs, r.value, Parse.ParseFrom(data, o + |r.value.bytes|, i + 1, counts));
        rs := rs + [r.value];
        var n := new Node(kind, o, r.value.nameLen);
        cur.next := n;
        cur := n;
        if first[kind] == null {
          first := first[kind := n];
        }
        o := o + |r.value.bytes|;
        i := i + 1;
      }
      Parse.ParseEnd(data, o, counts, rs);
      return true;
    }

    /** Reads records until there are as many as the header counts, or one does not fit. */
    method ReadRecords(counts: seq<nat>) returns (ok: bool)
      requires Shape() && recs == [] && nodes == [] && |data| >= HEADER_SIZE && tail == data[HEADER_SIZE..]
      requires |counts| == SECTIONS && counts == HeaderCounts(data)
      modifies this
      ensures data == old(data) && parsed == old(parsed) && parseResult == old(parseResult) && fresh(nodes)
      ensures var all := Parse.ParseFrom(data, HEADER_SIZE, 0, counts);
              (ok <==> all.Some?) && (ok ==> recs == all.value)
      ensures Shape() && (ok ==> Valid())
    {
      hide Tiles, Start, Placed, Distinct, Linked, FirstsOk, RecsOk, Sorted, Parse.ParseFrom, Parse.KindAt,
           HeaderCount, NodeAt, Parse.RecordAt, CountsOk, LeftOver, HeaderCounts;
      var total := Parse.Total(counts);
      var o, cur := HEADER_SIZE, head;
      ghost var all := Parse.ParseFrom(data, HEADER_SIZE, 0, counts);
      StartFirst(recs);
      NoneRead(all);
      NoNodes(nodes, recs);
      AllLeft(counts);
      var left := counts;
      var i := 0;
      while i < total
        invariant 0 <= i <= total && i == |recs| && Shape() && fresh(nodes)
        invariant data == old(data) && parsed == old(parsed) && parseResult == old(parseResult)
        invariant LeftOver(left, counts, i)
        invariant o == Start(recs, |recs|) <= |data| && tail == data[o..] && cur == NodeAt(nodes, |nodes| - 1)
        invariant all == Prepended(recs, Parse.ParseFrom(data, o, i, counts))
        invariant forall k | 0 <= k < i :: recs[k].kind == Parse.KindAt(counts, k)
      {
        var kind;
        kind, left := NextKind(left, counts, i, total);
        Parse.ParseNext(data, o, i, counts);
        var r := Parse.RecordAt(data, o, kind);
        if r.None? {
          return false;
        }
        Parse.RecordOk(data, o, kind);
        PrependedNext(recs, r.value, Parse.ParseFrom(data, o + |r.value.bytes|, i + 1, counts));
        cur := AppendRecord(cur, r.value, o, counts);
        LastNode(nodes);
        o := o + |r.value.bytes|;
        i := i + 1;
      }
      Parse.ParseEnd(data, o, counts, recs);
      CountsRead(data, recs);
      return true;
    }

    /** Makes one more record the last. */
    method AppendRecord(cur: Node?, r: Rec, o: nat, ghost counts: seq<nat>) returns (n: Node)
      requires |counts| == SECTIONS && r.kind == Parse.KindAt(counts, |recs|)
      requires forall k | 0 <= k < |recs| :: recs[k].kind == Parse.KindAt(counts, k)
      requires o + |r.bytes| <= |data| && r.bytes == data[o..o + |r.bytes|] && tail == data[o..]
      requires o == Start(recs, |recs|) && cur == NodeAt(nodes, |nodes| - 1) && RecOk(r) && Shape()
      modifies this, nodes
      ensures data == old(data) && parsed == old(parsed) && parseResult == old(parseResult)
      ensures tail == data[o + |r.bytes|..] && Start(recs, |recs|) == o + |r.bytes|
      ensures recs == old(recs) + [r] && nodes == old(nodes) + [n] && fresh(n) && Shape()
    {
      hide Tiles, Start, Placed, Distinct, Linked, FirstsOk, RecOk, RecsOk, Sorted, Parse.KindAt;
      ghost var ns, rs := nodes, recs;
      n := new Node(r.kind, o, r.nameLen);
      Appended(first, ns, rs, n, r, counts);
      AppendPlaced(ns, rs, n, r);
      Parse.ReadTiles(data, rs, r);
      if first[r.kind] == null {
        first := first[r.kind := n];
      }
      tail := data[o + |r.bytes|..];
      nodes, recs := InsertNode(ns, |ns|, n), Insert(rs, |rs|, r);
      if head == null {
        LinkFront(ns, n);
        head := n;
      } else {
        LinkAfter(cur, n, ns, |ns|);
      }
    }

    /** Layer bytes inserted; what they are is not said. */
    method GrowBytes(o: nat, n: nat, room: bool) returns (ok: bool)
      requires o <= |data|
      modifies this`data
      ensures ok == room
      ensures !ok ==> data == old(data)
      ensures ok ==> |data| == |old(data)| + n && data[..o] == old(data)[..o] && data[o + n..] == old(data)[o..]
    {
      if !room {
        return false;
      }
      var filler: seq<Byte> := seq(n, _ => 0);
      data := data[..o] + filler + data[o..];
      return true;
    }

    method ShrinkBytes(o: nat, n: nat, room: bool) returns (ok: bool)
      requires o + n <= |data|
      modifies this`data
      ensures ok == room
      ensures data == if ok then old(data)[..o] + old(data)[o + n..] else old(data)
    {
      if !room {
        return false;
      }
      data := data[..o] + data[o + n..];
      return true;
    }

    /** Fills the bytes that were made room for. */
    method PutBytes(o: nat, b: seq<Byte>, ghost was: seq<Byte>)
      requires HEADER_SIZE <= o <= |was| && |data| == |was| + |b| && data[..o] == was[..o]
      requires data[o + |b|..] == was[o..]
      modifies this`data
      ensures data == was[..o] + b + was[o..] && data[..HEADER_SIZE] == was[..HEADER_SIZE]
    {
      data := Written(data, o, b);
      HeaderKept(was, o, b);
    }

    /** Inserts bytes and moves the nodes from `next` on. */
    method ExtendLayer(o: nat, n: nat, next: Node?, room: bool, ghost p: nat) returns (ok: bool)
      requires Distinct(nodes) && Linked(nodes) && Placed(nodes, recs) && p <= |nodes| && next == NodeAt(nodes, p)
      requires o <= |data|
      modifies this`data, nodes`offset
      ensures ok == room && Linked(nodes)
      ensures !ok ==> data == old(data) && Placed(nodes, recs)
      ensures ok ==> |data| == |old(data)| + n && data[..o] == old(data)[..o] && data[o + n..] == old(data)[o..]
      ensures ok ==> PlacedBut(nodes, recs, p, n)
    {
      hide Distinct, Linked, Start, NodeAt;
      ok := GrowBytes(o, n, room);
      if !ok {
        return;
      }
      MoveFollowing(next, n, nodes, p);
    }

    /** Removes bytes and moves the nodes from `next` on. */
    method ShortenLayer(o: nat, n: int, next: Node?, room: bool, ghost p: nat) returns (ok: bool)
      requires Distinct(nodes) && Linked(nodes) && Placed(nodes, recs) && p <= |nodes| && next == NodeAt(nodes, p)
      requires 0 <= n && o + n <= |data| && forall i | p <= i < |nodes| :: n <= nodes[i].offset
      modifies this`data, nodes`offset
      ensures ok == room && Linked(nodes)
      ensures !ok ==> data == old(data) && Placed(nodes, recs)
      ensures ok ==> data == old(data)[..o] + old(data)[o + n..]
      ensures ok ==> PlacedBut(nodes, recs, p, -n)
    {
      hide Distinct, Linked, Start, NodeAt;
      ok := ShrinkBytes(o, n, room);
      if !ok {
        return;
      }
      MoveFollowing(next, -n, nodes, p);
    }

    /** Makes room for a new record at position `p`, puts its bytes there and its node in front of `next`; the node is
        not yet in the list. */
    method InsertRecord(next: Node?, o: nat, r: Rec, room: bool, ghost p: nat) returns (n: Node?)
      requires Distinct(nodes) && Linked(nodes) && Placed(nodes, recs) && Tiles(data, recs, tail)
      requires p <= |recs| && o == Start(recs, p) && next == NodeAt(nodes, p)
      modifies this`data, nodes`offset
      ensures n != null <==> room
      ensures Linked(nodes)
      ensures n == null ==> data == old(data) && Placed(nodes, recs)
      ensures n != null ==> fresh(n) && n.next == NodeAt(nodes, p) && n.kind == r.kind
      ensures n != null ==> Placed(InsertNode(nodes, p, n), Insert(recs, p, r))
      ensures n != null ==> Tiles(data, Insert(recs, p, r), tail)
      ensures |data| >= HEADER_SIZE && data[..HEADER_SIZE] == old(data)[..HEADER_SIZE]
    {
      hide Tiles, Start, Distinct, Linked, InsertNode, Insert, NodeAt, PlacedBut;
      PlacedSize(nodes, recs);
      InsertTiles(data, recs, tail, p, r);
      StartLow(recs, p);
      var node := new Node(r.kind, 0, r.nameLen);
      node.next := next;
      var ok := ExtendLayer(o, |r.bytes|, node.next, room, p);
      if !ok {
        return null;
      }
      node.offset := o;
      PutBytes(o, r.bytes, old(data));
      InsertPlaced(nodes, recs, p, r, node);
      return node;
    }

    /** A node's record size, as read from the bytes. */
    method GetSize(n: Node, ghost k: nat) returns (size: nat)
      requires Placed(nodes, recs) && RecsOk(recs) && Tiles(data, recs, tail) && k < |nodes| && n == nodes[k]
      ensures size == |recs[k].bytes| && Start(recs, k + 1) == Start(recs, k) + size
    {
      SizeOfRec(data, recs, tail, k);
      ConcatSplit(recs, k);
      size := SizeAt(data, n.kind, n.offset, n.nameLen);
    }

    /** The last node that does not come after section `kind`, or the head, and where that record ends. */
    method FindLast(kind: nat) returns (cur: Node?, o: nat, ghost p: nat)
      requires Shape()
      ensures p == UpTo(recs, kind) && o == Start(recs, p)
      ensures cur == if p > 0 then nodes[p - 1] else head
    {
      hide Tiles, Start, Distinct, FirstsOk, RecsOk;
      StartFirst(recs);
      o, cur, p := HEADER_SIZE, head, 0;
      ghost var k := 0;
      while cur != null && cur.kind <= kind
        invariant 0 <= k <= |nodes| && cur == NodeAt(nodes, k) && o == Start(recs, k)
        invariant k > 0 ==> k < |nodes| && recs[k].kind <= kind
        decreases |nodes| - k
      {
        var size := GetSize(cur, k);
        o := o + size;
        var next := cur.next;
        if next == null || next.kind > kind {
          p := k + 1;
          break;
        }
        cur := next;
        k := k + 1;
      }
      UpToIs(recs, kind, p);
    }

    /** Puts a node in the list after `cur`, or first, and makes it the first of its section if it is. */
    method LinkIn(cur: Node?, n: Node, r: Rec, ghost p: nat)
      requires Distinct(nodes) && Linked(nodes) && head == NodeAt(nodes, 0) && n !in nodes && |nodes| == |recs|
      requires p == UpTo(recs, r.kind) && cur == NodeAt(nodes, p - 1) && n.next == NodeAt(nodes, p) && n.kind == r.kind
      requires p > 0 ==> nodes[p - 1].kind == recs[p - 1].kind
      requires Placed(InsertNode(nodes, p, n), Insert(recs, p, r)) && Tiles(data, Insert(recs, p, r), tail)
      requires FirstsOk(first, nodes, recs) && Sorted(recs) && RecsOk(recs) && RecOk(r)
      modifies this`head, this`first, this`nodes, this`recs, nodes`next
      ensures Shape() && recs == Insert(old(recs), p, r) && nodes == InsertNode(old(nodes), p, n)
    {
      hide Tiles, Placed, Distinct, Linked, FirstsOk, RecOk, RecsOk, Sorted, InsertNode, Insert, UpTo;
      ghost var ns, rs := nodes, recs;
      Inserted(first, ns, rs, n, r);
      if cur == null {
        head := n;
      }
      if cur == null || cur.kind < n.kind {
        first := first[n.kind := n];
      }
      nodes, recs := InsertNode(ns, p, n), Insert(rs, p, r);
      if cur != null {
        LinkAfter(cur, n, ns, p);
      } else {
        LinkFront(ns, n);
      }
    }

    /** Adds a record other than a query at the end of its section. If the list starts with a later section, the new
        node and the old head end up leading to each other. */
    method AddResource(r: Rec, room: bool) returns (n: Node?)
      requires Shape() && RecOk(r)
      modifies this`data, this`head, this`first, this`nodes, this`recs, nodes
      ensures n != null <==> room
      ensures |data| >= HEADER_SIZE && data[..HEADER_SIZE] == old(data)[..HEADER_SIZE]
      ensures n == null ==> Shape() && recs == old(recs) && data == old(data) && nodes == old(nodes)
      ensures n != null && HeadFits(old(recs), r.kind) ==>
        Shape() && n in nodes && fresh(n) && recs == Insert(old(recs), UpTo(old(recs), r.kind), r)
        && nodes == InsertNode(old(nodes), UpTo(old(recs), r.kind), n)
      ensures n != null && !HeadFits(old(recs), r.kind) ==> head == n && n.next == old(head) != null && n.next.next == n
    {
      hide Tiles, Start, Distinct, Linked, FirstsOk, RecsOk, RecOk, Sorted, Insert, InsertNode, Placed, UpTo,
           HeadFits;
      PlacedSize(nodes, recs);
      TilesSize(data, recs, tail);
      FirstsSize(first, nodes, recs, r);
      var cur, o; ghost var p;
      cur, o, p := FindLast(r.kind);
      var next := if cur != null && cur.kind <= r.kind then cur.next else head;
      NextIs(nodes, recs, p, r.kind, head, cur, next);
      n := InsertRecord(next, o, r, room, p);
      if n == null {
        return;
      }
      if cur != null && cur.kind > r.kind {
        cur.next := n;
        head := n;
        first := first[r.kind := n];
        return;
      }
      LinkIn(cur, n, r, p);
      InsertNodeIn(old(nodes), p, n);
    }

    /** The last query, and where it ends. */
    method FindLastQuery() returns (cur: Node?, o: nat, ghost p: nat)
      requires Shape()
      ensures p == UpTo(recs, QUERY) && o == Start(recs, p) && cur == NodeAt(nodes, p - 1)
    {
      hide Tiles, Start, Distinct, FirstsOk, RecsOk, Sorted;
      StartFirst(recs);
      FirstQuery(first, nodes, recs);
      o, cur, p := HEADER_SIZE, first[QUERY], 0;
      while cur != null
        invariant p < |nodes| || cur == null
        invariant cur != null ==> cur == nodes[p] && recs[p].kind == QUERY && o == Start(recs, p)
        invariant cur == null ==> p == 0 && o == Start(recs, 0) && (recs == [] || recs[0].kind != QUERY)
        decreases |nodes| - p
      {
        var size := GetSize(cur, p);
        o := o + size;
        p := p + 1;
        var next := if cur.next == null || cur.kind != QUERY || cur.next.kind != QUERY then null else cur.next;
        if next == null {
          break;
        }
        cur := next;
      }
      UpToIs(recs, QUERY, p);
    }

    /** Adds a query after the last one. */
    method AddQuery(name: Text, dnsType: nat, dnsClass: nat, room: bool) returns (n: Node?)
      requires Valid() && dnsType < 0x1_0000 && dnsClass < 0x1_0000
      modifies this`data, this`head, this`first, this`nodes, this`recs, nodes
      ensures Valid() && (n != null <==> room)
      ensures n == null ==> recs == old(recs) && data == old(data) && nodes == old(nodes)
      ensures n != null ==> n in nodes && fresh(n) && recs == Insert(old(recs), UpTo(old(recs), QUERY),
        Rec(QUERY, |Names.EncodeName(name)|, QueryBytes(name, dnsType, dnsClass)))
      ensures n != null ==> |old(nodes)| == |old(recs)| && nodes == InsertNode(old(nodes), UpTo(old(recs), QUERY), n)
      ensures SameFront(old(data), data)
    {
      hide Tiles, Start, Distinct, Linked, FirstsOk, RecsOk, RecOk, Sorted, Insert, InsertNode, Placed, UpTo,
           CountsOk;
      PlacedSize(nodes, recs);
      TilesSize(data, recs, tail);
      var r := AssembleQuery(name, dnsType, dnsClass);
      var cur, o; ghost var p;
      cur, o, p := FindLastQuery();
      NextQueryIs(nodes, recs, p);
      var next := if cur != null then cur.next else head;
      n := InsertRecord(next, o, r, room, p);
      FrontOfHeader(old(data), data);
      if n == null {
        return;
      }
      LinkIn(cur, n, r, p);
      InsertNodeIn(old(nodes), p, n);
      ghost var was := data;
      CountsKept(old(data), was, old(recs));
      SetCount(QUERY, HeaderCount(data, QUERY) + 1);
      InsertCounts(data, old(recs), p, r, was);
    }

    /** Adds an answer, authority or additional record; none if its data could not be made. */
    method AddRecord(kind: nat, name: Text, dnsType: nat, dnsClass: nat, ttl: nat, rdata: Option<seq<Byte>>, room: bool)
      returns (n: Node?)
      requires Valid() && 0 < kind < SECTIONS && HeadFits(recs, kind)
      requires dnsType < 0x1_0000 && dnsClass < 0x1_0000 && ttl < 0x1_0000_0000
      requires rdata.Some? ==> |rdata.value| < 0x1_0000
      modifies this`data, this`head, this`first, this`nodes, this`recs, nodes
      ensures Valid() && (n != null <==> room && rdata.Some?)
      ensures n == null ==> recs == old(recs) && data == old(data) && nodes == old(nodes)
      ensures n != null ==> n in nodes && fresh(n) && recs == Insert(old(recs), UpTo(old(recs), kind),
        Rec(kind, |Names.EncodeName(name)|, ResourceBytes(name, dnsType, dnsClass, ttl, rdata.value)))
      ensures n != null ==> |old(nodes)| == |old(recs)| && nodes == InsertNode(old(nodes), UpTo(old(recs), kind), n)
      ensures SameFront(old(data), data)
    {
      hide Tiles, Start, Distinct, Linked, FirstsOk, RecsOk, RecOk, Sorted, Insert, InsertNode, Placed, UpTo,
           CountsOk, HeadFits;
      PlacedSize(nodes, recs);
      TilesSize(data, recs, tail);
      if rdata.None? {
        return null;
      }
      var r := AssembleResource(kind, name, dnsType, dnsClass, ttl, rdata.value);
      n := AddResource(r, room);
      FrontOfHeader(old(data), data);
      if n == null {
        return;
      }
      ghost var was := data;
      CountsKept(old(data), was, old(recs));
      SetCount(kind, HeaderCount(data, kind) + 1);
      InsertCounts(data, old(recs), UpTo(old(recs), kind), r, was);
    }

    /** Takes a record out of the list and its bytes out of the message. */
    method RemoveResource(n: Node, room: bool) returns (ok: bool)
      requires Shape()
      modifies this`data, this`head, this`first, this`nodes, this`recs, nodes
      ensures Shape() && (ok <==> room && n in old(nodes))
      ensures |data| >= HEADER_SIZE && data[..HEADER_SIZE] == old(data)[..HEADER_SIZE]
      ensures !ok ==> recs == old(recs) && data == old(data) && nodes == old(nodes)
      ensures ok ==> exists p :: RemovedAt(old(nodes), old(recs), n, nodes, recs, p)
    {
      hide Tiles, Start, Distinct, Linked, FirstsOk, RecsOk, Sorted, Placed, RemoveNode, Remove, NodeAt;
      PlacedSize(nodes, recs);
      TilesSize(data, recs, tail);
      ghost var ns, rs := nodes, recs;
      var prev; ghost var p;
      prev, p := FindBefore(head, n, ns);
      if prev == null {
        return false;
      }
      RemovedBytes(rs, data, tail, p);
      NodeFacts(ns, rs, p);
      Removed(first, ns, rs, p);
      var size := GetSize(n, p);
      ok := ShortenLayer(n.offset, size, n.next, room, p + 1);
      if !ok {
        return;
      }
      RemovePlaced(ns, rs, p);
      LinkOut(prev, n, p);
      Witness(ns, rs, n, nodes, recs, p);
    }

    /** Removes a record of section `kind`, and counts one less there. */
    method RemoveRecord(kind: nat, n: Node, room: bool) returns (ok: bool)
      requires Valid() && kind < SECTIONS && n.kind == kind
      modifies this`data, this`head, this`first, this`nodes, this`recs, nodes
      ensures Valid() && (ok <==> room && n in old(nodes))
      ensures !ok ==> recs == old(recs) && data == old(data) && nodes == old(nodes)
      ensures ok ==> exists p :: RemovedAt(old(nodes), old(recs), n, nodes, recs, p)
      ensures SameFront(old(data), data)
    {
      hide Tiles, Start, Distinct, Linked, FirstsOk, RecsOk, Sorted, Placed, RemovedAt, CountsOk, NodeAt;
      ghost var ns, rs := nodes, recs;
      KindsMatch(ns, rs);
      TilesSize(data, rs, tail);
      ok := RemoveResource(n, room);
      FrontOfHeader(old(data), data);
      if !ok {
        return;
      }
      ghost var p :| RemovedAt(ns, rs, n, nodes, recs, p);
      RemovedMeans(ns, rs, n, nodes, recs, p);
      ghost var was := data;
      CountsKept(old(data), was, rs);
      SetCount(kind, HeaderCount(data, kind) - 1);
      RemoveCounts(data, rs, p, was);
    }

    /** Replaces `size` bytes of a record by others, moving the records after it. */
    method ReplaceBytes(o: nat, size: nat, b: seq<Byte>, next: Node?, room: bool, ghost p: nat) returns (ok: bool)
      requires Distinct(nodes) && Linked(nodes) && Placed(nodes, recs) && p <= |nodes| && next == NodeAt(nodes, p)
      requires o + size <= |data| && forall i | p <= i < |nodes| :: size <= nodes[i].offset
      modifies this`data, nodes`offset
      ensures ok <==> room || |b| == size
      ensures Linked(nodes)
      ensures !ok ==> data == old(data) && Placed(nodes, recs)
      ensures ok ==> data == old(data)[..o] + b + old(data)[o + size..] && PlacedBut(nodes, recs, p, |b| - size)
    {
      hide Distinct, Linked, Start, NodeAt;
      ghost var was := data;
      ok := true;
      if |b| > size {
        ok := ExtendLayer(o, |b| - size, next, room, p);
        ExtendedRest(was, data, o, size, |b|, ok);
      } else if |b| < size {
        ok := ShortenLayer(o, size - |b|, next, room, p);
        ShortenedRest(was, data, o, size, |b|, ok);
      }
      if !ok {
        return;
      }
      data := Written(data, o, b);
    }

    /** Renames a record: its new name is written in place of the old one. */
    method SetName(n: Node, name: Text, room: bool, ghost p: nat) returns (ok: bool)
      requires Valid() && p < |nodes| && n == nodes[p]
      modifies this`data, this`recs, nodes`offset, nodes`nameLen
      ensures Valid() && nodes == old(nodes)
      ensures ok <==> room || |Names.EncodeName(name)| == old(recs)[p].nameLen
      ensures recs == if ok then old(recs)[p := Renamed(old(recs)[p], Names.EncodeName(name))] else old(recs)
      ensures !ok ==> data == old(data)
      ensures SameFront(old(data), data)
    {
      hide Tiles, Start, Distinct, Linked, FirstsOk, RecsOk, RecOk, Sorted, Placed, CountsOk, NodeAt, PlacedBut,
           Names.EncodeName, SameFront, SameCountsBut;
      ghost var ns, rs := nodes, recs;
      TilesSize(data, rs, tail);
      FrontOfHeader(data, data);
      PlacedSize(ns, rs);
      NodeFacts(ns, rs, p);
      RenamedOk(rs[p]);
      RemovedBytes(rs, data, tail, p);
      var encoded := Names.Encode(name);
      ghost var r := Renamed(rs[p], encoded);
      ok := ReplaceBytes(n.offset, n.nameLen, encoded, n.next, room, p + 1);
      if !ok {
        return;
      }
      RenamedBytes(old(data), rs, tail, p, encoded);
      SetNameLen(n, |encoded|, ns, rs, p, r);
      CountsKept(old(data), data, rs);
      Replaced(first, ns, rs, data, p, r);
      recs := rs[p := r];
    }

    /** Replaces a record's data, if there is any to replace it by, and the length before it. */
    method SetData(n: Node, rdata: Option<seq<Byte>>, room: bool, ghost p: nat) returns (ok: bool)
      requires Valid() && p < |nodes| && n == nodes[p] && n.kind != QUERY
      requires rdata.Some? ==> |rdata.value| < 0x1_0000
      modifies this`data, this`recs, nodes`offset
      ensures Valid() && nodes == old(nodes)
      ensures ok <==> rdata.Some? && (room || |rdata.value| == |old(recs)[p].bytes| - old(recs)[p].nameLen - 10)
      ensures recs == if ok then old(recs)[p := WithData(old(recs)[p], rdata.value)] else old(recs)
      ensures !ok ==> data == old(data)
      ensures SameFront(old(data), data)
    {
      hide Tiles, Start, Distinct, Linked, FirstsOk, RecsOk, RecOk, Sorted, Placed, CountsOk, NodeAt, PlacedBut,
           DataLength, Written, Be16, FromBe16, HeaderCount, SameFront;
      TilesSize(data, recs, tail);
      FrontOfHeader(data, data);
      if rdata.None? {
        return false;
      }
      var d := rdata.value;
      ghost var ns, rs := nodes, recs;
      PlacedSize(ns, rs);
      NodeFacts(ns, rs, p);
      WithDataOk(rs[p], d);
      LengthSize(|d|);
      RemovedBytes(rs, data, tail, p);
      DataLengthIs(data, rs, tail, p);
      ghost var r := WithData(rs[p], d);
      var size := DataLength(data, n.offset, n.nameLen);
      ok := ReplaceBytes(n.offset + n.nameLen + 10, size, d, n.next, room, p + 1);
      if !ok {
        return;
      }
      WithDataBytes(old(data), rs, tail, p, d);
      PlacedButAt(ns, rs, p + 1, |d| - size, p);
      assert n.offset + n.nameLen + 10 + size == Start(rs, p) + |rs[p].bytes|;
      data := Written(data, n.offset + n.nameLen + 8, Be16(|d|));
      ResizedPlaced(ns, rs, p, r);
      CountsKept(old(data), data, rs);
      Replaced(first, ns, rs, data, p, r);
      recs := rs[p := r];
    }

    /** Takes a node out of the list, and makes the next one the first of its section if this one was. */
    method LinkOut(prev: Node, n: Node, ghost p: nat)
      requires Distinct(nodes) && Linked(nodes) && head == NodeAt(nodes, 0) && |nodes| == |recs|
      requires p < |nodes| && n == nodes[p] && (p > 0 ==> prev == nodes[p - 1]) && n.kind == recs[p].kind
      requires n.next == NodeAt(nodes, p + 1) && NextOfKind(nodes, recs, p) == NextAlike(n.kind, NodeAt(nodes, p + 1))
      requires Placed(RemoveNode(nodes, p), Remove(recs, p)) && Tiles(data, Remove(recs, p), tail)
      requires FirstsOk(first, nodes, recs) && Sorted(recs) && RecsOk(recs)
      modifies this`head, this`first, this`nodes, this`recs, nodes`next
      ensures Shape() && nodes == RemoveNode(old(nodes), p) && recs == Remove(old(recs), p)
    {
      hide Tiles, Placed, Distinct, Linked, FirstsOk, RecsOk, Sorted, RemoveNode, Remove, NextOfKind;
      ghost var ns, rs := nodes, recs;
      Removed(first, ns, rs, p);
      var wasHead := head == n;
      if wasHead {
        head := n.next;
      }
      if first[n.kind] == n {
        first := first[n.kind := NextAlike(n.kind, n.next)];
      }
      nodes, recs := RemoveNode(ns, p), Remove(rs, p);
      if wasHead {
        UnlinkFront(ns);
      } else {
        UnlinkAfter(prev, n, ns, p);
      }
    }

    /** Writes the count of a section. */
    method SetCount(kind: nat, v: int)
      requires kind < SECTIONS && Tiles(data, recs, tail)
      modifies this`data
      ensures Tiles(data, recs, tail) && SameCountsBut(old(data), data, kind) && HeaderCount(data, kind) == v % 0x1_0000
      ensures SameFront(old(data), data)
    {
      TilesSize(data, recs, tail);
      data := Written(data, 4 + 2 * kind, Be16(v % 0x1_0000));
      CountWritten(old(data), recs, tail, kind, v % 0x1_0000);
      assert data[..4] == old(data)[..4];
    }
  }
}
