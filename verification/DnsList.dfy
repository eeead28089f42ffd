/** The linked list of a message's records, and the pointers into it. */
module DnsList {
  import opened DnsRecords

  class Node {
    const kind: nat
    var offset: nat
    var nameLen: nat
    var next: Node?

    constructor (kind: nat, offset: nat, nameLen: nat)
      ensures this.kind == kind && this.offset == offset && this.nameLen == nameLen && next == null
    {
      this.kind, this.offset, this.nameLen, next := kind, offset, nameLen, null;
    }
  }

  function NodeAt(nodes: seq<Node>, i: int): Node? {
    if 0 <= i < |nodes| then nodes[i] else null
  }

  predicate Distinct(nodes: seq<Node>) {
    forall i, k | 0 <= i < k < |nodes| :: nodes[i] != nodes[k]
  }

  /** Each node leads to the one after it, and the last to none. */
  predicate Linked(nodes: seq<Node>)
    reads nodes`next
  {
    forall i {:trigger nodes[i].next} | 0 <= i < |nodes| :: nodes[i].next == NodeAt(nodes, i + 1)
  }

  /** Each node describes the record at its position. */
  predicate Placed(nodes: seq<Node>, recs: seq<Rec>)
    reads nodes`offset, nodes`nameLen
  {
    && |nodes| == |recs|
    && forall i | 0 <= i < |nodes| ::
         nodes[i].kind == recs[i].kind && nodes[i].nameLen == recs[i].nameLen && nodes[i].offset == Start(recs, i)
  }

  /** For each section, the first node of it. */
  predicate FirstsOk(first: seq<Node?>, nodes: seq<Node>, recs: seq<Rec>) {
    |first| == SECTIONS && |nodes| == |recs|
        && forall k | 0 <= k < SECTIONS :: first[k] == NodeAt(nodes, FirstOf(recs, k))
  }

  function InsertNode(nodes: seq<Node>, p: nat, n: Node): seq<Node>
    requires p <= |nodes|
  {
    nodes[..p] + [n] + nodes[p..]
  }

  function RemoveNode(nodes: seq<Node>, p: nat): seq<Node>
    requires p < |nodes|
  {
    nodes[..p] + nodes[p + 1..]
  }

  // ---------------------------------------------------------------------------------------------
  // The first node of each section
  // ---------------------------------------------------------------------------------------------

  lemma InsertSorted(recs: seq<Rec>, r: Rec)
    requires Sorted(recs)
    ensures Sorted(Insert(recs, UpTo(recs, r.kind), r))
  {
    UpToOk(recs, r.kind);
  }

  lemma RemoveSorted(recs: seq<Rec>, p: nat)
    requires Sorted(recs) && p < |recs|
    ensures Sorted(Remove(recs, p))
  {
  }

  /** Whether there is no record yet of the section of a new one. */
  predicate FirstOfKind(recs: seq<Rec>, p: nat, kind: nat)
    requires p <= |recs|
  {
    p == 0 || recs[p - 1].kind != kind
  }

  lemma FirstOfInsert(recs: seq<Rec>, r: Rec, k: nat)
    requires Sorted(recs)
    ensures var p := UpTo(recs, r.kind); var n := FirstOf(recs, k);
            FirstOf(Insert(recs, p, r), k)
            == if k == r.kind && FirstOfKind(recs, p, k) then p else if n < p then n else n + 1
    ensures r.kind == k && !FirstOfKind(recs, UpTo(recs, r.kind), k) ==> FirstOf(recs, k) < UpTo(recs, r.kind)
  {
    var p, n := UpTo(recs, r.kind), FirstOf(recs, k);
    var recs' := Insert(recs, p, r);
    UpToOk(recs, r.kind);
    FirstOfOk(recs, k);
    var n' := if k == r.kind && FirstOfKind(recs, p, k) then p else if n < p then n else n + 1;
    if k == r.kind && !FirstOfKind(recs, p, k) {
      assert n <= p - 1;
    }
    forall i | 0 <= i < n' ensures recs'[i].kind != k {
      assert recs'[i] == if i < p then recs[i] else if i == p then r else recs[i - 1];
    }
    FirstOfIs(recs', k, n');
  }

  lemma FirstsInserted(first: seq<Node?>, nodes: seq<Node>, recs: seq<Rec>, n: Node, r: Rec)
    requires FirstsOk(first, nodes, recs) && Sorted(recs) && r.kind < SECTIONS
    ensures var p := UpTo(recs, r.kind);
            FirstsOk(if FirstOfKind(recs, p, r.kind) then first[r.kind := n] else first,
                     InsertNode(nodes, p, n), Insert(recs, p, r))
  {
    var p := UpTo(recs, r.kind);
    var nodes' := InsertNode(nodes, p, n);
    var first' := if FirstOfKind(recs, p, r.kind) then first[r.kind := n] else first;
    hide FirstOf, UpTo;
    forall k | 0 <= k < SECTIONS ensures first'[k] == NodeAt(nodes', FirstOf(Insert(recs, p, r), k)) {
      FirstOfInsert(recs, r, k);
      var i := FirstOf(recs, k);
      assert i < p ==> nodes'[i] == nodes[i];
      assert p <= i < |nodes| ==> nodes'[i + 1] == nodes[i];
      assert nodes'[p] == n;
    }
  }

  lemma FirstOfRemove(recs: seq<Rec>, p: nat, k: nat)
    requires Sorted(recs) && p < |recs|
    ensures var n := FirstOf(recs, k);
            FirstOf(Remove(recs, p), k)
            == if n < p then n
               else if n > p then n - 1
               else if p + 1 < |recs| && recs[p + 1].kind == k then p else |recs| - 1
  {
    var n := FirstOf(recs, k);
    var recs' := Remove(recs, p);
    FirstOfOk(recs, k);
    var n' := if n < p then n else if n > p then n - 1
              else if p + 1 < |recs| && recs[p + 1].kind == k then p else |recs| - 1;
    forall i | 0 <= i < n' ensures recs'[i].kind != k {
      assert recs'[i] == if i < p then recs[i] else recs[i + 1];
    }
    assert n' < |recs'| ==> recs'[n'] == if n' < p then recs[n'] else recs[n' + 1];
    FirstOfIs(recs', k, n');
  }

  /** The next node, if it is of the same section. */
  function NextOfKind(nodes: seq<Node>, recs: seq<Rec>, p: nat): Node?
    requires |nodes| == |recs| && p < |nodes|
  {
    if p + 1 < |nodes| && recs[p + 1].kind == recs[p].kind then nodes[p + 1] else null
  }

  lemma FirstsRemoved(first: seq<Node?>, nodes: seq<Node>, recs: seq<Rec>, p: nat)
    requires FirstsOk(first, nodes, recs) && Sorted(recs) && Distinct(nodes) && p < |recs| && recs[p].kind < SECTIONS
    ensures var k := recs[p].kind;
            FirstsOk(if first[k] == nodes[p] then first[k := NextOfKind(nodes, recs, p)] else first,
                     RemoveNode(nodes, p), Remove(recs, p))
  {
    var kind := recs[p].kind;
    var nodes' := RemoveNode(nodes, p);
    var first' := if first[kind] == nodes[p] then first[kind := NextOfKind(nodes, recs, p)] else first;
    hide FirstOf;
    forall k | 0 <= k < SECTIONS ensures first'[k] == NodeAt(nodes', FirstOf(Remove(recs, p), k)) {
      FirstOfRemove(recs, p, k);
      FirstOfOk(recs, k);
      var i := FirstOf(recs, k);
      assert i < p ==> nodes'[i] == nodes[i];
      assert p < i < |nodes| ==> nodes'[i - 1] == nodes[i];
      assert p + 1 < |nodes| ==> nodes'[p] == nodes[p + 1];
    }
  }

  lemma FirstsReplaced(first: seq<Node?>, nodes: seq<Node>, recs: seq<Rec>, p: nat, r: Rec)
    requires FirstsOk(first, nodes, recs) && p < |recs| && r.kind == recs[p].kind
    ensures FirstsOk(first, nodes, recs[p := r])
  {
    hide FirstOf;
    forall k | 0 <= k < SECTIONS ensures FirstOf(recs[p := r], k) == FirstOf(recs, k) {
      FirstOfOk(recs, k);
      FirstOfIs(recs[p := r], k, FirstOf(recs, k));
    }
  }

  // ---------------------------------------------------------------------------------------------
  // Pointers
  // ---------------------------------------------------------------------------------------------

  method MoveOne(cur: Node, delta: int, ghost nodes: seq<Node>, ghost k: nat) returns (next: Node?)
    requires Distinct(nodes) && Linked(nodes) && k < |nodes| && cur == nodes[k] && cur.offset + delta >= 0
    modifies cur`offset
    ensures Linked(nodes) && next == NodeAt(nodes, k + 1)
    ensures forall i | 0 <= i < |nodes| :: nodes[i].offset == old(nodes[i].offset) + if i == k then delta else 0
  {
    cur.offset := cur.offset + delta;
    next := cur.next;
  }

  /** Moves the offsets of the nodes from position `j` on. */
  method MoveFollowing(from: Node?, delta: int, ghost nodes: seq<Node>, ghost j: nat)
    requires Distinct(nodes) && Linked(nodes) && j <= |nodes| && from == NodeAt(nodes, j)
    requires forall i | j <= i < |nodes| :: nodes[i].offset + delta >= 0
    modifies nodes`offset
    ensures Linked(nodes)
    ensures forall i | 0 <= i < |nodes| :: nodes[i].offset == old(nodes[i].offset) + if j <= i then delta else 0
  {
    hide Distinct, Linked;
    var cur := from;
    ghost var k := j;
    while cur != null
      invariant j <= k <= |nodes| && cur == NodeAt(nodes, k) && Linked(nodes)
      invariant forall i | 0 <= i < |nodes| :: nodes[i].offset == old(nodes[i].offset) + if j <= i < k then delta else 0
      decreases |nodes| - k
    {
      cur := MoveOne(cur, delta, nodes, k);
      k := k + 1;
    }
  }

  lemma InsertDistinct(nodes: seq<Node>, p: nat, n: Node)
    requires Distinct(nodes) && p <= |nodes| && n !in nodes
    ensures Distinct(InsertNode(nodes, p, n))
  {
  }

  lemma InsertLinked(nodes: seq<Node>, p: nat, n: Node)
    requires p <= |nodes| && n.next == NodeAt(nodes, p) && (p > 0 ==> nodes[p - 1].next == n)
    requires forall i | 0 <= i < |nodes| && i != p - 1 :: nodes[i].next == NodeAt(nodes, i + 1)
    ensures Linked(InsertNode(nodes, p, n))
  {
    var nodes' := InsertNode(nodes, p, n);
    forall i | 0 <= i < |nodes'| ensures nodes'[i].next == NodeAt(nodes', i + 1) {
      if i < p {
        assert nodes'[i] == nodes[i];
      } else if i == p {
        assert nodes'[i] == n;
      } else {
        assert nodes'[i] == nodes[i - 1];
      }
    }
  }

  /** Puts a node in front of the list. */
  lemma LinkFront(nodes: seq<Node>, n: Node)
    requires Distinct(nodes) && Linked(nodes) && n !in nodes && n.next == NodeAt(nodes, 0)
    ensures Distinct(InsertNode(nodes, 0, n)) && Linked(InsertNode(nodes, 0, n))
    ensures NodeAt(InsertNode(nodes, 0, n), 0) == n
  {
    InsertDistinct(nodes, 0, n);
    assert forall i | 0 <= i < |nodes| :: nodes[i].next == NodeAt(nodes, i + 1);
    InsertLinked(nodes, 0, n);
  }

  method LinkAfter(prev: Node, n: Node, ghost nodes: seq<Node>, ghost p: nat)
    requires Distinct(nodes) && Linked(nodes) && 0 < p <= |nodes| && prev == nodes[p - 1]
    requires n !in nodes && n.next == NodeAt(nodes, p)
    modifies prev`next
    ensures Distinct(InsertNode(nodes, p, n)) && Linked(InsertNode(nodes, p, n))
    ensures NodeAt(InsertNode(nodes, p, n), 0) == nodes[0]
  {
    InsertDistinct(nodes, p, n);
    assert forall i | 0 <= i < |nodes| :: nodes[i].next == NodeAt(nodes, i + 1);
    prev.next := n;
    InsertLinked(nodes, p, n);
  }

  lemma RemoveDistinct(nodes: seq<Node>, p: nat)
    requires Distinct(nodes) && p < |nodes|
    ensures Distinct(RemoveNode(nodes, p))
  {
  }

  lemma RemoveLinked(nodes: seq<Node>, p: nat)
    requires p < |nodes| && (p > 0 ==> nodes[p - 1].next == NodeAt(nodes, p + 1))
    requires forall i | 0 <= i < |nodes| && i != p - 1 && i != p :: nodes[i].next == NodeAt(nodes, i + 1)
    ensures Linked(RemoveNode(nodes, p))
  {
    var nodes' := RemoveNode(nodes, p);
    forall i | 0 <= i < |nodes'| ensures nodes'[i].next == NodeAt(nodes', i + 1) {
      if i < p {
        assert nodes'[i] == nodes[i];
      } else {
        assert nodes'[i] == nodes[i + 1];
      }
    }
  }

  lemma UnlinkFront(nodes: seq<Node>)
    requires Distinct(nodes) && Linked(nodes) && nodes != []
    ensures Distinct(RemoveNode(nodes, 0)) && Linked(RemoveNode(nodes, 0))
    ensures NodeAt(RemoveNode(nodes, 0), 0) == nodes[0].next
  {
    RemoveDistinct(nodes, 0);
    assert forall i | 0 <= i < |nodes| :: nodes[i].next == NodeAt(nodes, i + 1);
    RemoveLinked(nodes, 0);
  }

  method UnlinkAfter(prev: Node, n: Node, ghost nodes: seq<Node>, ghost p: nat)
    requires Distinct(nodes) && Linked(nodes) && 0 < p < |nodes| && prev == nodes[p - 1] && n == nodes[p]
    modifies prev`next
    ensures Distinct(RemoveNode(nodes, p)) && Linked(RemoveNode(nodes, p))
    ensures NodeAt(RemoveNode(nodes, p), 0) == nodes[0] && n.next == old(n.next)
  {
    RemoveDistinct(nodes, p);
    assert forall i | 0 <= i < |nodes| :: nodes[i].next == NodeAt(nodes, i + 1);
    prev.next := n.next;
    RemoveLinked(nodes, p);
  }

  /** The node before `n`, or `n` itself if it is the head, as a walk from the head finds it; none if `n` is not
      there. */
  method FindBefore(head: Node?, n: Node, ghost nodes: seq<Node>) returns (prev: Node?, ghost p: nat)
    requires Linked(nodes) && head == NodeAt(nodes, 0)
    ensures prev == null <==> n !in nodes
    ensures prev != null ==> p < |nodes| && nodes[p] == n && prev == if p == 0 then n else nodes[p - 1]
  {
    prev, p := head, 0;
    if head != n {
      ghost var k := 0;
      while prev != null
        invariant 0 <= k <= |nodes| && prev == NodeAt(nodes, k)
        invariant forall i | 0 <= i <= k && i < |nodes| :: nodes[i] != n
        decreases |nodes| - k
      {
        var temp := prev.next;
        if temp == n {
          p := k + 1;
          return;
        }
        prev := temp;
        k := k + 1;
      }
    }
  }
}
