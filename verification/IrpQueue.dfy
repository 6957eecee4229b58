/** A driver's queue of IRPs, at the level of its list links. */
module IrpQueue {
  import opened Seqs

  datatype Node = Head | Of(irp: nat)

  /** The forward and backward link stored in every list entry. */
  datatype Links = Links(flink: Node -> Node, blink: Node -> Node)

  function Store(f: Node -> Node, x: Node, y: Node): Node -> Node
  {
    n => if n == x then y else f(n)
  }

  function RemoveEntryList(l: Links, x: Node): Links
  {
    var f, b := l.flink(x), l.blink(x);
    Links(Store(l.flink, b, f), Store(l.blink, f, b))
  }

  function InsertTailList(l: Links, x: Node): Links
  {
    var b := l.blink(Head);
    Links(Store(Store(l.flink, x, Head), b, x), Store(Store(l.blink, x, b), Head, x))
  }

  function InitializeListHead(l: Links, x: Node): Links
  {
    Links(Store(l.flink, x, x), Store(l.blink, x, x))
  }

  ghost predicate SelfLinked(l: Links, x: Node)
  {
    l.flink(x) == x && l.blink(x) == x
  }

  ghost predicate LinkedAt(l: Links, q: seq<nat>, i: nat)
    requires i < |q|
  {
    && l.flink(Of(q[i])) == (if i + 1 < |q| then Of(q[i + 1]) else Head)
    && l.blink(Of(q[i])) == (if i > 0 then Of(q[i - 1]) else Head)
  }

  /** Following the links from the head gives exactly the IRPs of `q`, in order, both ways. */
  ghost predicate ListIs(l: Links, q: seq<nat>)
  {
    && Distinct(q)
    && l.flink(Head) == (if q == [] then Head else Of(q[0]))
    && l.blink(Head) == (if q == [] then Head else Of(q[|q| - 1]))
    && (forall i :: 0 <= i < |q| ==> LinkedAt(l, q, i))
  }

  /** Unlinking a member leaves all others linked in the same order. */
  lemma {:induction false} RemoveMember(l: Links, q: seq<nat>, k: nat)
    requires ListIs(l, q) && k < |q|
    ensures ListIs(RemoveEntryList(l, Of(q[k])), Without(q, k))
  {
    var m, r := RemoveEntryList(l, Of(q[k])), Without(q, k);
    assert LinkedAt(l, q, k);
    forall i | 0 <= i < |r|
      ensures LinkedAt(m, r, i)
    {
      var o := if i < k then i else i + 1;
      assert r[i] == q[o];
      assert LinkedAt(l, q, o);
    }
  }

  /** Unlinking an entry that points to itself changes no list. */
  lemma {:induction false} RemoveSelfLinkedKeepsList(l: Links, q: seq<nat>, x: Node)
    requires ListIs(l, q) && SelfLinked(l, x)
    ensures ListIs(RemoveEntryList(l, x), q)
  {
    forall i | 0 <= i < |q| ensures LinkedAt(RemoveEntryList(l, x), q, i) {
      assert LinkedAt(l, q, i);
    }
  }

  lemma {:induction false} InsertMember(l: Links, q: seq<nat>, x: nat)
    requires ListIs(l, q) && x !in q
    ensures ListIs(InsertTailList(l, Of(x)), q + [x])
  {
    var m, r := InsertTailList(l, Of(x)), q + [x];
    forall i | 0 <= i < |r|
      ensures LinkedAt(m, r, i)
    {
      if i < |q| {
        assert LinkedAt(l, q, i);
      }
    }
  }

  lemma {:induction false} InitializeOutsider(l: Links, q: seq<nat>, x: nat)
    requires ListIs(l, q) && x !in q
    ensures ListIs(InitializeListHead(l, Of(x)), q)
  {
    var m := InitializeListHead(l, Of(x));
    forall i | 0 <= i < |q|
      ensures LinkedAt(m, q, i)
    {
      assert LinkedAt(l, q, i);
    }
  }

  // An entry outside the list is not written by what happens to the list's members.
  lemma {:induction false} OutsiderUntouched(l: Links, q: seq<nat>, k: nat, x: nat)
    requires ListIs(l, q) && k < |q| && x !in q && SelfLinked(l, Of(x))
    ensures SelfLinked(RemoveEntryList(l, Of(q[k])), Of(x))
  {
    assert LinkedAt(l, q, k);
  }

  lemma {:induction false} OutsiderUntouchedByInsert(l: Links, q: seq<nat>, y: nat, x: nat)
    requires ListIs(l, q) && x !in q && x != y && SelfLinked(l, Of(x))
    ensures SelfLinked(InsertTailList(l, Of(y)), Of(x))
  {
  }
}
