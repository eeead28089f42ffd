/** DNS records as they stand in a message, one after the other, and what inserting, replacing and removing bytes does
    to them. */
module DnsRecords {
  import opened Bytes

  const HEADER_SIZE := 12
  const QUERY := 0
  const SECTIONS := 4

  /** A record of section `kind` (query, answer, authority, additional), with the bytes it takes. */
  datatype Rec = Rec(kind: nat, nameLen: nat, bytes: seq<Byte>)

  /** A query ends two fields after its name; any other record holds the length of its data. */
  predicate RecOk(r: Rec) {
    && r.kind < SECTIONS
    && if r.kind == QUERY then |r.bytes| == r.nameLen + 4
       else r.nameLen + 10 <= |r.bytes| && |r.bytes| == r.nameLen + 10 + FromBe16(r.bytes[r.nameLen + 8..])
  }

  predicate RecsOk(recs: seq<Rec>) {
    forall i | 0 <= i < |recs| :: RecOk(recs[i])
  }

  /** Records come by section. */
  predicate Sorted(recs: seq<Rec>) {
    forall i, k | 0 <= i < k < |recs| :: recs[i].kind <= recs[k].kind
  }

  function Concat(recs: seq<Rec>): seq<Byte> {
    if recs == [] then [] else Concat(recs[..|recs| - 1]) + recs[|recs| - 1].bytes
  }

  /** Where record `i` starts. */
  function Start(recs: seq<Rec>, i: nat): nat
    requires i <= |recs|
  {
    HEADER_SIZE + |Concat(recs[..i])|
  }

  /** The message is the header, the records, and whatever follows them. */
  predicate Tiles(data: seq<Byte>, recs: seq<Rec>, tail: seq<Byte>) {
    |data| == Start(recs, |recs|) + |tail| && data[HEADER_SIZE..] == Concat(recs) + tail
  }

  // ---------------------------------------------------------------------------------------------
  // Counting and finding
  // ---------------------------------------------------------------------------------------------

  function Count(recs: seq<Rec>, kind: nat): nat {
    if recs == [] then 0 else Count(recs[..|recs| - 1], kind) + if recs[|recs| - 1].kind == kind then 1 else 0
  }

  /** How many records do not come after section `kind`. */
  function UpTo(recs: seq<Rec>, kind: nat): (n: nat)
    ensures n <= |recs|
  {
    if recs == [] then 0 else UpTo(recs[..|recs| - 1], kind) + if recs[|recs| - 1].kind <= kind then 1 else 0
  }

  /** The first record of a section. */
  function FirstOf(recs: seq<Rec>, kind: nat): (n: nat)
    ensures n <= |recs|
  {
    if recs == [] then 0
    else var n := FirstOf(recs[..|recs| - 1], kind);
      if n < |recs| - 1 || recs[|recs| - 1].kind == kind then n else n + 1
  }

  lemma {:induction false} FirstOfOk(recs: seq<Rec>, kind: nat)
    ensures forall i | 0 <= i < FirstOf(recs, kind) :: recs[i].kind != kind
    ensures FirstOf(recs, kind) < |recs| ==> recs[FirstOf(recs, kind)].kind == kind
  {
    if recs != [] {
      FirstOfOk(recs[..|recs| - 1], kind);
    }
  }

  lemma FirstOfIs(recs: seq<Rec>, kind: nat, n: nat)
    requires n <= |recs| && (forall i | 0 <= i < n :: recs[i].kind != kind) && (n < |recs| ==> recs[n].kind == kind)
    ensures FirstOf(recs, kind) == n
  {
    FirstOfOk(recs, kind);
  }

  /** In sorted records, exactly the first `UpTo` do not come after the section. */
  lemma {:induction false} UpToOk(recs: seq<Rec>, kind: nat)
    requires Sorted(recs)
    ensures forall i | 0 <= i < |recs| :: recs[i].kind <= kind <==> i < UpTo(recs, kind)
  {
    if recs != [] {
      UpToOk(recs[..|recs| - 1], kind);
    }
  }

  lemma UpToIs(recs: seq<Rec>, kind: nat, n: nat)
    requires Sorted(recs) && n <= |recs| && (n > 0 ==> recs[n - 1].kind <= kind) && (n < |recs| ==> recs[n].kind > kind)
    ensures UpTo(recs, kind) == n
  {
    UpToOk(recs, kind);
  }

  // ---------------------------------------------------------------------------------------------
  // Inserting, replacing and removing
  // ---------------------------------------------------------------------------------------------

  function Insert(recs: seq<Rec>, p: nat, r: Rec): seq<Rec>
    requires p <= |recs|
  {
    recs[..p] + [r] + recs[p..]
  }

  function Remove(recs: seq<Rec>, p: nat): seq<Rec>
    requires p < |recs|
  {
    recs[..p] + recs[p + 1..]
  }

  lemma {:induction false} ConcatAppend(a: seq<Rec>, b: seq<Rec>)
    ensures Concat(a + b) == Concat(a) + Concat(b)
  {
    if b == [] {
      assert a + b == a;
    } else {
      var n := |b| - 1;
      ConcatAppend(a, b[..n]);
      assert (a + b)[..|a| + n] == a + b[..n] && (a + b)[|a| + n] == b[n];
      assert Concat(a) + (Concat(b[..n]) + b[n].bytes) == Concat(a) + Concat(b[..n]) + b[n].bytes;
    }
  }

  lemma ConcatOne(r: Rec)
    ensures Concat([r]) == r.bytes
  {
    assert [r][..0] == [];
  }

  /** The records before, at and from a position on. */
  lemma ConcatSplit(recs: seq<Rec>, p: nat)
    requires p < |recs|
    ensures Concat(recs) == Concat(recs[..p]) + recs[p].bytes + Concat(recs[p + 1..])
    ensures Start(recs, p + 1) == Start(recs, p) + |recs[p].bytes|
  {
    assert recs[..p + 1] == recs[..p] + [recs[p]];
    assert recs == recs[..p + 1] + recs[p + 1..];
    ConcatAppend(recs[..p + 1], recs[p + 1..]);
    ConcatAppend(recs[..p], [recs[p]]);
    ConcatOne(recs[p]);
  }

  /** Where record `p` stands in the message. */
  lemma RecBytes(data: seq<Byte>, recs: seq<Rec>, tail: seq<Byte>, p: nat)
    requires Tiles(data, recs, tail) && p < |recs|
    ensures HEADER_SIZE <= Start(recs, p) && Start(recs, p + 1) == Start(recs, p) + |recs[p].bytes| <= |data|
    ensures data[Start(recs, p)..Start(recs, p + 1)] == recs[p].bytes
    ensures data == data[..HEADER_SIZE] + Concat(recs[..p]) + recs[p].bytes + (Concat(recs[p + 1..]) + tail)
  {
    ConcatSplit(recs, p);
    hide Concat;
    assert recs[..|recs|] == recs;
    var a, b, c := Concat(recs[..p]), recs[p].bytes, Concat(recs[p + 1..]);
    assert data == data[..HEADER_SIZE] + data[HEADER_SIZE..];
    assert data == data[..HEADER_SIZE] + a + b + (c + tail);
    Middle(data[..HEADER_SIZE] + a, b, c + tail);
  }

  lemma RecAt(data: seq<Byte>, recs: seq<Rec>, tail: seq<Byte>, p: nat)
    requires Tiles(data, recs, tail) && p < |recs|
    ensures HEADER_SIZE <= Start(recs, p) && Start(recs, p + 1) == Start(recs, p) + |recs[p].bytes| <= |data|
    ensures data[Start(recs, p)..Start(recs, p) + |recs[p].bytes|] == recs[p].bytes
  {
    hide Tiles, Start;
    RecBytes(data, recs, tail, p);
  }

  lemma Middle(a: seq<Byte>, b: seq<Byte>, c: seq<Byte>)
    ensures var s := a + b + c; s[|a|..|a| + |b|] == b && s[..|a|] == a && s[|a| + |b|..] == c
  {
  }

  /** A header, records and a rest make a message of these. */
  lemma TilesIntro(head: seq<Byte>, recs: seq<Rec>, tail: seq<Byte>)
    requires |head| == HEADER_SIZE
    ensures Tiles(head + Concat(recs) + tail, recs, tail)
  {
    hide Concat;
    assert recs[..|recs|] == recs;
    assert head + Concat(recs) + tail == head + (Concat(recs) + tail);
  }

  lemma Regroup(head: seq<Byte>, a: seq<Byte>, b: seq<Byte>, c: seq<Byte>, tail: seq<Byte>)
    ensures head + (a + b + c) + tail == head + a + b + (c + tail)
  {
  }

  lemma RegroupTwo(head: seq<Byte>, a: seq<Byte>, b: seq<Byte>, tail: seq<Byte>)
    ensures head + (a + b) + tail == head + a + (b + tail)
  {
  }

  /** The message up to a position and from it on. */
  lemma SplitAt(data: seq<Byte>, recs: seq<Rec>, tail: seq<Byte>, p: nat)
    requires Tiles(data, recs, tail) && p <= |recs|
    ensures HEADER_SIZE <= Start(recs, p) <= |data|
    ensures data[..Start(recs, p)] == data[..HEADER_SIZE] + Concat(recs[..p])
    ensures data[Start(recs, p)..] == Concat(recs[p..]) + tail
  {
    ConcatAppend(recs[..p], recs[p..]);
    hide Concat;
    assert recs == recs[..p] + recs[p..] && recs[..|recs|] == recs;
    var head, a, b := data[..HEADER_SIZE], Concat(recs[..p]), Concat(recs[p..]);
    assert data == head + data[HEADER_SIZE..];
    assert data == head + a + (b + tail);
    Middle(head + a, [], b + tail);
    assert head + a + [] == head + a;
  }

  /** Bytes put in at the start of record `p`, or at the end, make a new record there. */
  lemma InsertTiles(data: seq<Byte>, recs: seq<Rec>, tail: seq<Byte>, p: nat, r: Rec)
    requires Tiles(data, recs, tail) && p <= |recs|
    ensures Start(recs, p) <= |data| && Start(Insert(recs, p, r), p) == Start(recs, p)
    ensures Tiles(data[..Start(recs, p)] + r.bytes + data[Start(recs, p)..], Insert(recs, p, r), tail)
  {
    var recs', head := Insert(recs, p, r), data[..HEADER_SIZE];
    SplitAt(data, recs, tail, p);
    assert recs'[..p] == recs[..p] && recs'[p + 1..] == recs[p..] && recs'[p] == r;
    ConcatSplit(recs', p);
    hide Concat, Tiles;
    TilesIntro(head, recs', tail);
    Regroup(head, Concat(recs[..p]), r.bytes, Concat(recs[p..]), tail);
  }

  /** The bytes of record `p` replaced by others. */
  lemma ReplaceTiles(data: seq<Byte>, recs: seq<Rec>, tail: seq<Byte>, p: nat, r: Rec)
    requires Tiles(data, recs, tail) && p < |recs|
    ensures Start(recs, p) <= Start(recs, p + 1) <= |data|
    ensures Tiles(data[..Start(recs, p)] + r.bytes + data[Start(recs, p + 1)..], recs[p := r], tail)
  {
    var recs', head := recs[p := r], data[..HEADER_SIZE];
    SplitAt(data, recs, tail, p);
    SplitAt(data, recs, tail, p + 1);
    ConcatSplit(recs, p);
    assert recs'[..p] == recs[..p] && recs'[p + 1..] == recs[p + 1..];
    ConcatSplit(recs', p);
    hide Concat, Tiles;
    TilesIntro(head, recs', tail);
    Regroup(head, Concat(recs[..p]), r.bytes, Concat(recs[p + 1..]), tail);
  }

  /** The bytes of record `p` taken out. */
  lemma RemoveTiles(data: seq<Byte>, recs: seq<Rec>, tail: seq<Byte>, p: nat)
    requires Tiles(data, recs, tail) && p < |recs|
    ensures Start(recs, p) <= Start(recs, p + 1) <= |data|
    ensures Tiles(data[..Start(recs, p)] + data[Start(recs, p + 1)..], Remove(recs, p), tail)
  {
    hide Concat, Tiles;
    SplitAt(data, recs, tail, p);
    SplitAt(data, recs, tail, p + 1);
    var recs', head := Remove(recs, p), data[..HEADER_SIZE];
    ConcatSplit(recs, p);
    ConcatAppend(recs[..p], recs[p + 1..]);
    TilesIntro(head, recs', tail);
    RegroupTwo(head, Concat(recs[..p]), Concat(recs[p + 1..]), tail);
  }

  /** Records before the position stay where they are, and those from it on move. */
  lemma InsertStarts(recs: seq<Rec>, p: nat, r: Rec, i: nat)
    requires p <= |recs| && i <= |recs|
    ensures Start(Insert(recs, p, r), if i < p then i else i + 1) == Start(recs, i) + if i < p then 0 else |r.bytes|
  {
    var recs' := Insert(recs, p, r);
    if i < p {
      assert recs'[..i] == recs[..i];
    } else {
      assert recs'[..i + 1] == recs[..p] + [r] + recs[p..i];
      assert recs[..i] == recs[..p] + recs[p..i];
      ConcatAppend(recs[..p] + [r], recs[p..i]);
      ConcatAppend(recs[..p], [r]);
      ConcatAppend(recs[..p], recs[p..i]);
      ConcatOne(r);
    }
  }

  lemma ReplaceStarts(recs: seq<Rec>, p: nat, r: Rec, i: nat)
    requires p < |recs| && i <= |recs|
    ensures Start(recs[p := r], i) == Start(recs, i) + if i <= p then 0 else |r.bytes| - |recs[p].bytes|
  {
    var recs' := recs[p := r];
    if i <= p {
      assert recs'[..i] == recs[..i];
    } else {
      assert recs'[..i] == recs[..p] + [r] + recs[p + 1..i];
      assert recs[..i] == recs[..p] + [recs[p]] + recs[p + 1..i];
      ConcatAppend(recs[..p] + [r], recs[p + 1..i]);
      ConcatAppend(recs[..p], [r]);
      ConcatAppend(recs[..p] + [recs[p]], recs[p + 1..i]);
      ConcatAppend(recs[..p], [recs[p]]);
      ConcatOne(r);
      ConcatOne(recs[p]);
    }
  }

  lemma RemoveStarts(recs: seq<Rec>, p: nat, i: nat)
    requires p < |recs| && i < |recs|
    ensures Start(Remove(recs, p), i) == if i <= p then Start(recs, i) else Start(recs, i + 1) - |recs[p].bytes|
  {
    var recs' := Remove(recs, p);
    if i <= p {
      assert recs'[..i] == recs[..i];
    } else {
      assert recs'[..i] == recs[..p] + recs[p + 1..i + 1];
      assert recs[..i + 1] == recs[..p] + [recs[p]] + recs[p + 1..i + 1];
      ConcatAppend(recs[..p], recs[p + 1..i + 1]);
      ConcatAppend(recs[..p] + [recs[p]], recs[p + 1..i + 1]);
      ConcatAppend(recs[..p], [recs[p]]);
      ConcatOne(recs[p]);
    }
  }

  lemma {:induction false} CountAppend(a: seq<Rec>, b: seq<Rec>, kind: nat)
    ensures Count(a + b, kind) == Count(a, kind) + Count(b, kind)
  {
    if b == [] {
      assert a + b == a;
    } else {
      var n := |b| - 1;
      CountAppend(a, b[..n], kind);
      assert (a + b)[..|a| + n] == a + b[..n];
    }
  }

  lemma CountOne(r: Rec, kind: nat)
    ensures Count([r], kind) == if r.kind == kind then 1 else 0
  {
    assert [r][..0] == [];
  }

  lemma InsertCount(recs: seq<Rec>, p: nat, r: Rec, kind: nat)
    requires p <= |recs|
    ensures Count(Insert(recs, p, r), kind) == Count(recs, kind) + if r.kind == kind then 1 else 0
  {
    CountAppend(recs[..p] + [r], recs[p..], kind);
    CountAppend(recs[..p], [r], kind);
    CountAppend(recs[..p], recs[p..], kind);
    CountOne(r, kind);
    assert recs == recs[..p] + recs[p..];
  }

  lemma RemoveCount(recs: seq<Rec>, p: nat, kind: nat)
    requires p < |recs|
    ensures Count(recs, kind) == Count(Remove(recs, p), kind) + if recs[p].kind == kind then 1 else 0
  {
    CountAppend(recs[..p] + [recs[p]], recs[p + 1..], kind);
    CountAppend(recs[..p], [recs[p]], kind);
    CountAppend(recs[..p], recs[p + 1..], kind);
    CountOne(recs[p], kind);
    assert recs == recs[..p] + [recs[p]] + recs[p + 1..];
  }

  lemma {:induction false} ReplaceCount(recs: seq<Rec>, p: nat, r: Rec, kind: nat)
    requires p < |recs| && r.kind == recs[p].kind
    ensures Count(recs[p := r], kind) == Count(recs, kind)
  {
    var n := |recs| - 1;
    if p < n {
      ReplaceCount(recs[..n], p, r, kind);
      assert recs[p := r][..n] == recs[..n][p := r];
    } else {
      assert recs[p := r][..n] == recs[..n];
    }
  }

  // ---------------------------------------------------------------------------------------------
  // Reading a record's length
  // ---------------------------------------------------------------------------------------------

  /** The data length of a record at `off`, 0 if that field is not in the message. */
  function DataLength(data: seq<Byte>, off: nat, nameLen: nat): nat {
    var at := off + nameLen + 8;
    if at >= |data| - 1 then 0 else FromBe16(data[at..])
  }

  function SizeAt(data: seq<Byte>, kind: nat, off: nat, nameLen: nat): nat {
    if kind == QUERY then nameLen + 4 else nameLen + 10 + DataLength(data, off, nameLen)
  }

  /** A record's size read from the message is the length of its bytes. */
  lemma SizeOfRec(data: seq<Byte>, recs: seq<Rec>, tail: seq<Byte>, p: nat)
    requires Tiles(data, recs, tail) && p < |recs| && RecOk(recs[p])
    ensures SizeAt(data, recs[p].kind, Start(recs, p), recs[p].nameLen) == |recs[p].bytes|
  {
    var r, o := recs[p], Start(recs, p);
    RecBytes(data, recs, tail, p);
    hide Concat, Tiles;
    if r.kind != QUERY {
      var at := r.nameLen + 8;
      assert data[o..o + |r.bytes|] == r.bytes;
      assert r.bytes[at] == data[o + at] && r.bytes[at + 1] == data[o + at + 1];
    }
  }
}
