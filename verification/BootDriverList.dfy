/** The boot driver list: a circular doubly linked list through `BootNode` links, and the
    in-place sort of one group by tag. */
module BootDriverList {
  import opened Options
  import opened Seqs
  import opened Inversions

  type ulong = x: int | 0 <= x < 0x1_0000_0000

  class BootNode {
    var flink: BootNode
    var blink: BootNode
    const group: Option<string>  // None: no group buffer
    const tag: ulong

    constructor (group: Option<string>, tag: ulong)
      ensures flink == this && blink == this && this.group == group && this.tag == tag
    {
      this.flink, this.blink := this, this;
      this.group, this.tag := group, tag;
    }
  }

  /** `r` lists the nodes of a well-formed circular list, in order, starting anywhere. */
  ghost predicate Ring(r: seq<BootNode>)
    reads r
  {
    && |r| >= 1 && Distinct(r)
    && (forall i {:trigger r[i].flink} :: 0 <= i < |r| - 1 ==> r[i].flink == r[i + 1])
    && (forall i {:trigger r[i].blink} :: 1 <= i < |r| ==> r[i].blink == r[i - 1])
    && r[|r| - 1].flink == r[0] && r[0].blink == r[|r| - 1]
  }

  function Tags(r: seq<BootNode>): (t: seq<nat>)
    ensures |t| == |r| && forall i :: 0 <= i < |r| ==> t[i] == r[i].tag
  {
    seq(|r|, i requires 0 <= i < |r| => r[i].tag)
  }

  /** `r` rearranges r0[lo..hi + 1] only, and is sorted by tag from `lo` to `c`. */
  ghost predicate Scanned(r0: seq<BootNode>, r: seq<BootNode>, lo: nat, hi: nat, c: nat)
  {
    && |r| == |r0| && 1 <= lo <= c <= hi < |r|
    && (forall i :: 0 <= i < |r| && !(lo <= i <= hi) ==> r[i] == r0[i])
    && multiset(r) == multiset(r0) && SortedBetween(Tags(r), lo, c)
  }

  function Inversion(r: seq<BootNode>): nat
  {
    Count(Tags(r))
  }

  function Descent(r: seq<BootNode>, c: nat): (d: nat)
    requires c < |r|
    ensures c <= d
  {
    FirstDescent(Tags(r), c)
  }

  lemma {:induction false} AfterMove(r0: seq<BootNode>, r: seq<BootNode>, lo: nat, hi: nat, c: nat, p: nat)
    requires Scanned(r0, r, lo, hi, c) && c < hi && Insertable(Tags(r), lo, c, p)
    ensures var t := MoveEarlier(r, c, p);
            && Scanned(r0, t, lo, hi, p) && Inversion(t) <= Inversion(r)
            && (Inversion(t) == Inversion(r) ==> Descent(t, p) < Descent(r, c))
            && t[p] == r[c + 1] && t[hi] == (if c + 1 == hi then r[c] else r[hi])
            && t[lo] == (if p == lo then r[c + 1] else r[lo])
  {
    assert Tags(MoveEarlier(r, c, p)) == MoveEarlier(Tags(r), c, p);
    MoveKeepsElements(r, c, p);
    MoveStep(Tags(r), lo, c, p);
  }

  lemma {:induction false} AfterAdvance(r0: seq<BootNode>, r: seq<BootNode>, lo: nat, hi: nat, c: nat)
    requires Scanned(r0, r, lo, hi, c) && c < hi && r[c].tag <= r[c + 1].tag
    ensures Scanned(r0, r, lo, hi, c + 1) && Descent(r, c + 1) == Descent(r, c)
  {
  }

  class DriverList {
    const head: BootNode
    ghost var ring: seq<BootNode>  // the head, then the drivers in order
    ghost var nodes: set<BootNode>  // every node whose links this list may write

    ghost predicate Valid()
      reads this, nodes
    {
      && (forall i :: 0 <= i < |ring| ==> ring[i] in nodes)
      && Ring(ring) && ring[0] == head
    }

    ghost function Drivers(): seq<BootNode>
      reads this
    {
      if ring == [] then [] else ring[1..]
    }

    constructor ()
      ensures Valid() && Drivers() == [] && fresh(nodes)
    {
      var h := new BootNode(None, 0);
      head, ring, nodes := h, [h], {h};
    }

    method RemoveEntryList(e: BootNode, ghost k: nat)
      requires Valid() && 1 <= k < |ring| && ring[k] == e
      modifies this, nodes
      ensures Valid() && nodes == old(nodes) && ring == Without(old(ring), k) && e !in ring
    {
      var f, b := e.flink, e.blink;
      f.blink := b;
      b.flink := f;
      ring := Without(ring, k);
    }

    /** Inserts `e` in front of `at`, the entry at position `k`. */
    method InsertTailList(at: BootNode, e: BootNode, ghost k: nat)
      requires Valid() && 1 <= k < |ring| && ring[k] == at && e in nodes && e !in ring
      modifies this, nodes
      ensures Valid() && nodes == old(nodes) && ring == InsertAt(old(ring), k, e)
    {
      var b := at.blink;
      e.flink := at;
      e.blink := b;
      b.flink := e;
      at.blink := e;
      ring := InsertAt(ring, k, e);
    }

    /** Inserts `e` at the front of the list. */
    method InsertHeadList(e: BootNode)
      requires Valid() && e in nodes && e !in ring
      modifies this, nodes
      ensures Valid() && nodes == old(nodes) && ring == InsertAt(old(ring), 1, e)
    {
      var f := head.flink;
      e.flink := f;
      e.blink := head;
      f.blink := e;
      head.flink := e;
      ring := InsertAt(ring, 1, e);
    }

    /** Relinks the driver at position `k` at the front. */
    method MoveToFront(e: BootNode, ghost k: nat)
      requires Valid() && 1 <= k < |ring| && ring[k] == e
      modifies this, nodes
      ensures Valid() && nodes == old(nodes) && ring == InsertAt(Without(old(ring), k), 1, e)
    {
      RemoveEntryList(e, k);
      InsertHeadList(e);
    }

    /** Where the moved driver goes: in front of the nearest earlier driver, no further back than
        `start`, whose tag does not exceed its own. */
    method FindPlace(current: BootNode, from: BootNode, start: BootNode, ghost lo: nat, ghost c: nat)
      returns (previous: BootNode, ghost p: nat)
      requires Valid() && 1 <= lo <= c < |ring| && ring[lo] == start && ring[c] == from
      ensures lo <= p <= c && ring[p] == previous && (previous == start <==> p == lo)
      ensures forall k :: p < k <= c ==> ring[k].tag > current.tag
      ensures p == lo || previous.tag <= current.tag
    {
      previous, p := from, c;
      while previous.tag > current.tag && previous != start
        invariant lo <= p <= c && ring[p] == previous
        invariant forall k :: p < k <= c ==> ring[k].tag > current.tag
        decreases p
      {
        previous := previous.blink;
        p := p - 1;
      }
    }

    /** Takes `current` out and puts it back at the place found. */
    method MoveBack(current: BootNode, start: BootNode, ghost lo: nat, ghost c: nat)
      returns (previous: BootNode, ghost p: nat)
      requires Valid() && 1 <= lo <= c && c + 1 < |ring|
      requires ring[lo] == start && ring[c + 1] == current
      requires SortedBetween(Tags(ring), lo, c) && ring[c].tag > current.tag
      modifies this, nodes
      ensures Valid() && nodes == old(nodes)
      ensures Insertable(Tags(old(ring)), lo, c, p) && ring == MoveEarlier(old(ring), c, p)
      ensures previous == start <==> p == lo
    {
      var from := current.blink;
      ghost var r := ring;
      RemoveEntryList(current, c + 1);
      assert forall k :: 0 <= k <= c ==> ring[k] == r[k];
      previous, p := FindPlace(current, from, start, lo, c);
      MoveByRemoveInsert(r, c, p);
      InsertTailList(previous, current, p);
    }

    /** One turn of the sort: advance by one driver, or move the next one back. */
    method OrderStep(cur: BootNode, start: BootNode, end: BootNode,
                     ghost r0: seq<BootNode>, ghost lo: nat, ghost hi: nat, ghost c: nat)
      returns (current: BootNode, startNode: BootNode, endNode: BootNode, ghost c': nat)
      requires Valid() && Scanned(r0, ring, lo, hi, c) && c < hi
      requires ring[lo] == start && ring[hi] == end && ring[c] == cur
      modifies this, nodes
      ensures Valid() && nodes == old(nodes) && Scanned(r0, ring, lo, hi, c')
      ensures ring[lo] == startNode && ring[hi] == endNode && ring[c'] == current
      ensures Inversion(ring) <= old(Inversion(ring))
      ensures Inversion(ring) == old(Inversion(ring)) ==>
                || Descent(ring, c') < old(Descent(ring, c))
                || (Descent(ring, c') == old(Descent(ring, c)) && c' > c)
    {
      ghost var r := ring;
      startNode, endNode := start, end;
      current := cur.flink;
      if cur.tag > current.tag {
        if current == endNode {
          endNode := current.blink;
        }
        var previous;
        previous, c' := MoveBack(current, startNode, lo, c);
        if previous == startNode {
          startNode := current;
        }
        AfterMove(r0, r, lo, hi, c, c');
      } else {
        c' := c + 1;
        AfterAdvance(r0, r, lo, hi, c);
      }
    }

    /** Sorts the drivers from `start` to `end` by tag, in place. A driver found out of order is put
        back in front of the first driver whose tag does not exceed its own, which is one place too
        early; the scan then resumes from there. */
    method OrderGroup(start: BootNode, end: BootNode, ghost lo: nat, ghost hi: nat)
      requires Valid() && 1 <= lo <= hi < |ring| && ring[lo] == start && ring[hi] == end
      modifies this, nodes
      ensures Valid() && nodes == old(nodes)
      ensures Scanned(old(ring), ring, lo, hi, hi)
    {
      var startNode, endNode, current := start, end, start;
      ghost var c := lo;
      while current != endNode
        invariant Valid() && nodes == old(nodes) && Scanned(old(ring), ring, lo, hi, c)
        invariant ring[lo] == startNode && ring[hi] == endNode && ring[c] == current
        decreases Inversion(ring), Descent(ring, c), Descent(ring, c) - c
      {
        current, startNode, endNode, c := OrderStep(current, startNode, endNode, old(ring), lo, hi, c);
      }
    }
  }
}
