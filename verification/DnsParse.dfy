/** Reading the records of a message: which sections they belong to, and where each ends. */
module DnsParse {
  import opened Bytes
  import opened DnsRecords
  import Names = DnsNames
  import opened Wrappers

  /** The section of record `i` if the sections have these many records. */
  function KindAt(counts: seq<nat>, i: nat): nat
    requires |counts| == SECTIONS
  {
    if i < counts[0] then 0
    else if i < counts[0] + counts[1] then 1
    else if i < counts[0] + counts[1] + counts[2] then 2 else 3
  }

  function Total(counts: seq<nat>): nat
    requires |counts| == SECTIONS
  {
    counts[0] + counts[1] + counts[2] + counts[3]
  }

  /** The record of section `kind` that starts at `off`; none if it does not fit. */
  function RecordAt(data: seq<Byte>, off: nat, kind: nat): Option<Rec> {
    var len := Names.DecodeName(data, off, 0).len;
    var size := SizeAt(data, kind, off, len);
    if off + size > |data| then None else Some(Rec(kind, len, data[off..off + size]))
  }

  /** The records from number `i` on, one after the other from `off`. */
  function ParseFrom(data: seq<Byte>, off: nat, i: nat, counts: seq<nat>): Option<seq<Rec>>
    requires |counts| == SECTIONS
    decreases Total(counts) - i
  {
    if i >= Total(counts) then Some([])
    else match RecordAt(data, off, KindAt(counts, i))
      case None => None
      case Some(r) =>
        match ParseFrom(data, off + |r.bytes|, i + 1, counts)
        case None => None
        case Some(rest) => Some([r] + rest)
  }

  lemma ParseNext(data: seq<Byte>, off: nat, i: nat, counts: seq<nat>)
    requires |counts| == SECTIONS && i < Total(counts)
    ensures var r := RecordAt(data, off, KindAt(counts, i));
            ParseFrom(data, off, i, counts)
            == if r.None? then None else Prepended([r.value], ParseFrom(data, off + |r.value.bytes|, i + 1, counts))
  {
    hide RecordAt, KindAt;
  }

  lemma ParseEnd(data: seq<Byte>, off: nat, counts: seq<nat>, recs: seq<Rec>)
    requires |counts| == SECTIONS
    ensures Prepended(recs, ParseFrom(data, off, Total(counts), counts)) == Some(recs)
  {
    assert recs + [] == recs;
  }

  /** A record that fits is well-formed. */
  lemma RecordOk(data: seq<Byte>, off: nat, kind: nat)
    requires kind < SECTIONS && RecordAt(data, off, kind).Some?
    ensures var r := RecordAt(data, off, kind).value;
            RecOk(r) && r.kind == kind && off + |r.bytes| <= |data| && r.bytes == data[off..off + |r.bytes|]
  {
    hide Names.DecodeName;
    var r := RecordAt(data, off, kind).value;
    if kind != QUERY {
      var at := r.nameLen + 8;
      assert r.bytes[at] == data[off + at] && r.bytes[at + 1] == data[off + at + 1];
    }
  }

  /** Sections come in order. */
  lemma KindAtSorted(counts: seq<nat>, recs: seq<Rec>)
    requires |counts| == SECTIONS && forall i | 0 <= i < |recs| :: recs[i].kind == KindAt(counts, i)
    ensures Sorted(recs) && forall k | 0 <= k < |recs| :: recs[k].kind <= KindAt(counts, |recs|)
  {
  }

  /** Where a section's records start. */
  function Before(counts: seq<nat>, kind: nat): nat
    requires |counts| == SECTIONS && kind < SECTIONS
  {
    if kind == 0 then 0 else Before(counts, kind - 1) + counts[kind - 1]
  }

  lemma KindAtIff(counts: seq<nat>, kind: nat, i: nat)
    requires |counts| == SECTIONS && kind < SECTIONS && i < Total(counts)
    ensures KindAt(counts, i) == kind <==> Before(counts, kind) <= i < Before(counts, kind) + counts[kind]
  {
    assert Before(counts, 1) == counts[0];
    assert Before(counts, 2) == counts[0] + counts[1];
    assert Before(counts, 3) == counts[0] + counts[1] + counts[2];
  }

  /** How many of the first `n` numbers are in a range. */
  function Within(n: nat, from: nat, size: nat): nat {
    if n <= from then 0 else if n <= from + size then n - from else size
  }

  lemma {:induction false} KindCounts(counts: seq<nat>, recs: seq<Rec>, kind: nat)
    requires |counts| == SECTIONS && kind < SECTIONS && |recs| <= Total(counts)
    requires forall i | 0 <= i < |recs| :: recs[i].kind == KindAt(counts, i)
    ensures Count(recs, kind) == Within(|recs|, Before(counts, kind), counts[kind])
  {
    hide KindAt;
    if recs != [] {
      var n := |recs| - 1;
      KindCounts(counts, recs[..n], kind);
      KindAtIff(counts, kind, n);
    }
  }

  /** A full parse counts each section as the header does. */
  lemma FullCounts(counts: seq<nat>, recs: seq<Rec>, kind: nat)
    requires |counts| == SECTIONS && kind < SECTIONS && |recs| == Total(counts)
    requires forall i | 0 <= i < |recs| :: recs[i].kind == KindAt(counts, i)
    ensures Count(recs, kind) == counts[kind]
  {
    KindCounts(counts, recs, kind);
    assert Before(counts, 1) == counts[0];
    assert Before(counts, 2) == counts[0] + counts[1];
    assert Before(counts, 3) == counts[0] + counts[1] + counts[2];
  }

  /** One more record read: the message is what was read, this record, and the rest. */
  lemma ReadTiles(data: seq<Byte>, recs: seq<Rec>, r: Rec)
    requires |data| >= Start(recs, |recs|) && Tiles(data, recs, data[Start(recs, |recs|)..])
    requires Start(recs, |recs|) + |r.bytes| <= |data|
    requires r.bytes == data[Start(recs, |recs|)..Start(recs, |recs|) + |r.bytes|]
    ensures var recs' := Insert(recs, |recs|, r);
            && Start(recs', |recs'|) == Start(recs, |recs|) + |r.bytes|
            && Tiles(data, recs', data[Start(recs', |recs'|)..])
  {
    var recs' := Insert(recs, |recs|, r);
    var o := Start(recs, |recs|);
    assert recs' == recs + [r] && recs[..|recs|] == recs && recs'[..|recs'|] == recs';
    ConcatAppend(recs, [r]);
    ConcatOne(r);
    hide Concat;
    assert data[HEADER_SIZE..] == Concat(recs) + data[o..];
    assert data[o..] == r.bytes + data[o + |r.bytes|..];
  }

  lemma NothingRead(data: seq<Byte>)
    requires |data| >= HEADER_SIZE
    ensures Tiles(data, [], data[HEADER_SIZE..])
  {
    assert Concat([]) == [];
  }

  /** What is parsed is well-formed. */
  lemma {:induction false} ParsedOk(data: seq<Byte>, off: nat, i: nat, counts: seq<nat>)
    requires |counts| == SECTIONS && ParseFrom(data, off, i, counts).Some?
    ensures RecsOk(ParseFrom(data, off, i, counts).value)
    decreases Total(counts) - i
  {
    hide RecordAt, RecOk;
    if i < Total(counts) {
      var kind := KindAt(counts, i);
      var r := RecordAt(data, off, kind).value;
      RecordOk(data, off, kind);
      ParsedOk(data, off + |r.bytes|, i + 1, counts);
    }
  }

  // ---------------------------------------------------------------------------------------------
  // Parsing what was put together
  // ---------------------------------------------------------------------------------------------

  /** The name of record `p`, decoded where it stands, is as long as the record says. */
  predicate NameReads(data: seq<Byte>, recs: seq<Rec>, p: nat)
    requires p < |recs|
  {
    Names.DecodeName(data, Start(recs, p), 0).len == recs[p].nameLen
  }

  lemma {:induction false} UpToCounts(recs: seq<Rec>, kind: nat)
    ensures UpTo(recs, kind) == Count(recs, kind) + if kind == 0 then 0 else UpTo(recs, kind - 1)
  {
    if recs != [] {
      UpToCounts(recs[..|recs| - 1], kind);
    }
  }

  /** Sorted records have the sections that their numbers per section give. */
  lemma SortedKinds(recs: seq<Rec>, counts: seq<nat>, i: nat)
    requires Sorted(recs) && RecsOk(recs) && |counts| == SECTIONS && i < |recs|
    requires forall k | 0 <= k < SECTIONS :: counts[k] == Count(recs, k)
    ensures recs[i].kind == KindAt(counts, i)
  {
    hide UpTo, Count;
    forall k | 0 <= k < SECTIONS ensures recs[i].kind <= k <==> i < UpTo(recs, k) {
      UpToOk(recs, k);
    }
    UpToCounts(recs, 0);
    UpToCounts(recs, 1);
    UpToCounts(recs, 2);
    assert RecOk(recs[i]);
  }

  lemma KindSmall(r: Rec)
    requires RecOk(r)
    ensures r.kind < SECTIONS
  {
  }

  lemma {:induction false} UpToAll(recs: seq<Rec>)
    requires RecsOk(recs)
    ensures UpTo(recs, SECTIONS - 1) == |recs|
  {
    hide RecOk;
    if recs != [] {
      UpToAll(recs[..|recs| - 1]);
      KindSmall(recs[|recs| - 1]);
    }
  }

  lemma TotalIs(recs: seq<Rec>, counts: seq<nat>)
    requires RecsOk(recs) && |counts| == SECTIONS && forall k | 0 <= k < SECTIONS :: counts[k] == Count(recs, k)
    ensures Total(counts) == |recs|
  {
    hide UpTo, Count;
    UpToAll(recs);
    UpToCounts(recs, 0);
    UpToCounts(recs, 1);
    UpToCounts(recs, 2);
    UpToCounts(recs, 3);
  }

  /** A record is read where it stands. */
  lemma ReadsBack(data: seq<Byte>, recs: seq<Rec>, tail: seq<Byte>, p: nat)
    requires Tiles(data, recs, tail) && p < |recs| && RecOk(recs[p]) && NameReads(data, recs, p)
    ensures RecordAt(data, Start(recs, p), recs[p].kind) == Some(recs[p])
  {
    hide Names.DecodeName, Tiles, Start, SizeAt;
    SizeOfRec(data, recs, tail, p);
    RecAt(data, recs, tail, p);
  }

  /** Sorted records whose names are read as long as they are, and that the counts are right for, are read back. */
  lemma {:induction false} ParsesBack(data: seq<Byte>, recs: seq<Rec>, tail: seq<Byte>, counts: seq<nat>, i: nat)
    requires Tiles(data, recs, tail) && RecsOk(recs) && Sorted(recs) && |counts| == SECTIONS && i <= |recs|
    requires forall k | 0 <= k < SECTIONS :: counts[k] == Count(recs, k)
    requires forall p | 0 <= p < |recs| :: NameReads(data, recs, p)
    ensures ParseFrom(data, Start(recs, i), i, counts) == Some(recs[i..])
    decreases |recs| - i
  {
    hide Tiles, Start, RecOk, NameReads, Count, Sorted, RecordAt, KindAt, Total;
    TotalIs(recs, counts);
    if i < |recs| {
      ParsesBack(data, recs, tail, counts, i + 1);
      SortedKinds(recs, counts, i);
      ReadsBack(data, recs, tail, i);
      ConcatSplit(recs, i);
      assert [recs[i]] + recs[i + 1..] == recs[i..];
    } else {
      assert recs[i..] == [];
    }
  }

  // ---------------------------------------------------------------------------------------------
  // What a parse finds
  // ---------------------------------------------------------------------------------------------

  /** From `off` on, the bytes are those of the records, and each name is read as long as its record says. */
  predicate StandsAt(data: seq<Byte>, off: nat, recs: seq<Rec>) {
    && off + |Concat(recs)| <= |data| && data[off..off + |Concat(recs)|] == Concat(recs)
    && forall k | 0 <= k < |recs| :: Names.DecodeName(data, off + |Concat(recs[..k])|, 0).len == recs[k].nameLen
  }

  lemma ConcatFirst(r: Rec, rest: seq<Rec>)
    ensures Concat([r] + rest) == r.bytes + Concat(rest)
  {
    ConcatAppend([r], rest);
    ConcatOne(r);
  }

  lemma ConcatNone()
    ensures Concat([]) == []
  {
  }

  lemma StandsNext(data: seq<Byte>, off: nat, r: Rec, rest: seq<Rec>)
    requires off + |r.bytes| <= |data| && r.bytes == data[off..off + |r.bytes|]
    requires Names.DecodeName(data, off, 0).len == r.nameLen && StandsAt(data, off + |r.bytes|, rest)
    ensures StandsAt(data, off, [r] + rest)
  {
    hide Names.DecodeName, Concat;
    var all, o := [r] + rest, off + |r.bytes|;
    ConcatFirst(r, rest);
    assert data[off..o + |Concat(rest)|] == data[off..o] + data[o..o + |Concat(rest)|];
    forall k | 0 <= k < |all| ensures Names.DecodeName(data, off + |Concat(all[..k])|, 0).len == all[k].nameLen {
      if k == 0 {
        ConcatNone();
        assert all[..0] == [];
      } else {
        assert all[..k] == [r] + rest[..k - 1];
        ConcatFirst(r, rest[..k - 1]);
      }
    }
  }

  lemma RecordNamed(data: seq<Byte>, off: nat, kind: nat)
    requires RecordAt(data, off, kind).Some?
    ensures Names.DecodeName(data, off, 0).len == RecordAt(data, off, kind).value.nameLen
  {
    hide Names.DecodeName, SizeAt;
  }

  lemma KindRange(counts: seq<nat>, i: nat)
    requires |counts| == SECTIONS
    ensures KindAt(counts, i) < SECTIONS
  {
  }

  lemma NothingStands(data: seq<Byte>, off: nat)
    requires off <= |data|
    ensures StandsAt(data, off, [])
  {
  }

  lemma {:induction false} ParsedStands(data: seq<Byte>, off: nat, i: nat, counts: seq<nat>)
    requires |counts| == SECTIONS && i <= Total(counts) && off <= |data| && ParseFrom(data, off, i, counts).Some?
    ensures var rs := ParseFrom(data, off, i, counts).value;
            && |rs| == Total(counts) - i && StandsAt(data, off, rs)
            && forall k | 0 <= k < |rs| :: rs[k].kind == KindAt(counts, i + k)
    decreases Total(counts) - i
  {
    hide RecordAt, KindAt, Total, StandsAt;
    if i < Total(counts) {
      var kind := KindAt(counts, i);
      var r := RecordAt(data, off, kind).value;
      KindRange(counts, i);
      RecordOk(data, off, kind);
      RecordNamed(data, off, kind);
      ParsedStands(data, off + |r.bytes|, i + 1, counts);
      var rest := ParseFrom(data, off + |r.bytes|, i + 1, counts).value;
      StandsNext(data, off, r, rest);
    } else {
      NothingStands(data, off);
    }
  }
}
