/** The cache of key control blocks: the hash table, the reference counts along the tree, the delayed-close
    list and the deferred dereferences. Each method is one section under the locks it takes. */
module KcbCache {
  import opened Options
  import opened Seqs
  import opened KcbState
  import opened KcbTable

  class KcbManager {
    const hash: nat -> nat
    var kcbs: map<nat, Kcb>
    var table: seq<seq<nat>>
    var lru: seq<nat>
    var elements: nat        // CmpDelayedCloseElements
    var queue: seq<nat>
    var closeActive: bool    // CmpDelayCloseWorkItemActive
    var derefActive: bool    // CmpDelayDerefKCBWorkItemActive
    var holdLazyFlush: bool
    var nextId: nat
    ghost var holds: map<nat, nat>
    ghost var waiting: map<nat, nat>

    ghost function T(): Tree
      reads this
    {
      Tree(kcbs, lru, queue, holds, waiting)
    }

    /** The table, the element count, and a worker scheduled wherever there is work for it. */
    ghost predicate Rest()
      reads this
    {
      && TableOk(kcbs, table, hash) && elements == |lru| && (forall k :: k in kcbs ==> k < nextId)
      && (queue != [] ==> derefActive) && (elements > CLOSE_SIZE ==> closeActive)
    }

    /** As `Valid`, except that `z` has just lost its last reference and is to be closed. */
    ghost predicate Closing(z: nat)
      reads this
    {
      Ok(T(), Some(z)) && z in kcbs && Rest()
    }

    ghost predicate Valid()
      reads this
    {
      Ok(T(), None) && Rest()
    }

    constructor (hash: nat -> nat, size: nat)
      requires size > 0
      ensures Valid() && kcbs == map[]
    {
      this.hash := hash;
      kcbs, lru, elements, queue := map[], [], 0, [];
      table := seq(size, _ => []);
      closeActive, derefActive, holdLazyFlush, nextId := false, false, true, 0;
      holds, waiting := map[], map[];
    }

    /** CmpRemoveKeyHash. */
    method RemoveKeyHash(k: nat)
      requires |table| > 0 && k in kcbs && k in table[Slot(hash, |table|, kcbs[k].key.conv)]
      modifies this`table
      ensures var b := Slot(hash, |old(table)|, kcbs[k].key.conv); table == old(table)[b := Removed(old(table)[b], k)]
    {
      var b := Slot(hash, |table|, kcbs[k].key.conv);
      var chain := table[b];
      var i := 0;
      while chain[i] != k
        invariant i < |chain| && k !in chain[..i] && k in chain
        decreases |chain| - i
      {
        i := i + 1;
      }
      RemovedIs(chain, i, k);
      table := table[b := chain[..i] + chain[i + 1..]];
    }

    /** CmpInsertKeyHash: an existing KCB with the key, or the new one put first in its chain. */
    method InsertKeyHash(k: nat, key: Key) returns (found: Option<nat>)
      requires TableOk(kcbs, table, hash)
      modifies this`table
      ensures found.Some? ==>
                found.value in kcbs && !kcbs[found.value].delete && kcbs[found.value].key == key && table == old(table)
      ensures found.None? ==>
                var b := Slot(hash, |old(table)|, key.conv);
                && table == old(table)[b := [k] + old(table)[b]]
                && forall u :: u in old(table)[b] && u in kcbs ==> kcbs[u].key != key
    {
      var b := Slot(hash, |table|, key.conv);
      assert ChainOk(kcbs, table[b], b, |table|, hash);
      var chain := table[b];
      var i := 0;
      while i < |chain|
        invariant i <= |chain| && forall j :: 0 <= j < i ==> chain[j] in kcbs && kcbs[chain[j]].key != key
      {
        assert chain[i] in chain;
        if kcbs[chain[i]].key == key {
          return Some(chain[i]);
        }
        i := i + 1;
      }
      table := table[b := [k] + chain];
      found := None;
    }

    /** CmpReferenceKeyControlBlock with the KCB locked exclusively. It fails only at the 64K limit. */
    method Reference(k: nat) returns (ok: bool)
      requires Valid() && k in kcbs
      modifies this
      ensures Valid() && k in old(holds) && table == old(table) && nextId == old(nextId)
      ensures ok <==> old(kcbs[k]).refs < MAX_REFS
      ensures T() == if ok then Referenced(old(T()), k) else old(T())
    {
      hide Ok, TableOk;
      OkLists(T(), None);
      ok := (kcbs[k].refs + 1) % 0x10000 != 0;
      RefsBelow(T(), k);
      if !ok {
        return;
      }
      ReferenceKeeps(T(), k);
      ghost var t := T();
      kcbs := kcbs[k := kcbs[k].(refs := kcbs[k].refs + 1)];
      holds := holds[k := holds[k] + 1];
      if kcbs[k].closeIndex == 0 {
        RemoveFromDelayedClose(k);
      }
      SameTable(t, T(), table, hash, k);
    }

    /** CmpRemoveFromDelayedClose. */
    method RemoveFromDelayedClose(k: nat)
      requires k in kcbs && k in lru && elements == |lru| && Distinct(lru) && kcbs[k].inDelayClose
      requires kcbs[k].closeIndex != CLOSE_SIZE
      modifies this`kcbs, this`lru, this`elements
      ensures T() == Reopened(old(T()), k) && elements == |lru| && elements == old(elements) - 1
    {
      RemovedMembers(lru, k);
      lru := Removed(lru, k);
      elements := elements - 1;
      kcbs := kcbs[k := kcbs[k].(inDelayClose := false, closeIndex := CLOSE_SIZE)];
    }

    /** CmpReferenceKeyControlBlock with the KCB locked shared, up to the wait for the exclusive lock. */
    method AwaitExclusive(k: nat)
      requires Valid() && k in kcbs && k in lru && kcbs[k].refs < MAX_REFS
      modifies this
      ensures Valid() && k in old(waiting) && T() == Awaited(old(T()), k)
    {
      hide Ok, TableOk;
      AwaitKeeps(T(), k);
      ghost var t := T();
      kcbs := kcbs[k := kcbs[k].(closeIndex := 1, refs := kcbs[k].refs + 1)];
      waiting := waiting[k := waiting[k] + 1];
      SameTable(t, T(), table, hash, k);
    }

    /** The rest of it, once the exclusive lock is there: the reference is taken whatever happened meanwhile. */
    method ReferenceAwaited(k: nat)
      requires Valid() && k in kcbs && k in waiting && waiting[k] > 0
      modifies this
      ensures Valid() && k in old(holds) && T() == Arrived(old(T()), k)
    {
      hide Ok, TableOk;
      ArriveKeeps(T(), k);
      ArriveFacts(T(), k);
      OkLists(T(), None);
      ghost var t := T();
      var x := kcbs[k].(refs := kcbs[k].refs - 1);
      if x.closeIndex == 1 {
        x := x.(closeIndex := 0);
      } else {
        assert x.closeIndex == CLOSE_SIZE;
      }
      x := x.(refs := x.refs + 1);
      assert x.refs % 0x10000 != 0;
      kcbs, waiting, holds := kcbs[k := x], waiting[k := waiting[k] - 1], holds[k := holds[k] + 1];
      if x.closeIndex == 0 {
        RemoveFromDelayedClose(k);
        assert kcbs == Arrived(t, k).kcbs;
      } else {
        assert kcbs == t.kcbs;
      }
      SameTable(t, T(), table, hash, k);
    }

    /** Whether an unreferenced KCB is freed at once. */
    predicate Direct(x: Kcb)
      reads this
    {
      holdLazyFlush || x.noDelay || x.delete
    }

    /** CmpAddToDelayedClose. */
    method AddToDelayedClose(k: nat)
      requires Closing(k) && kcbs[k].closeIndex == CLOSE_SIZE && !kcbs[k].inDelayClose
      modifies this`kcbs, this`lru, this`elements, this`closeActive
      ensures Valid() && T() == Delayed(old(T()), k) && (old(closeActive) ==> closeActive)
    {
      hide Ok, TableOk;
      DelayKeeps(T(), k);
      ghost var t := T();
      kcbs := kcbs[k := kcbs[k].(inDelayClose := true, closeIndex := 0)];
      elements := elements + 1;
      lru := [k] + lru;
      if elements > CLOSE_SIZE && !closeActive {
        closeActive := true;
      }
      SameTable(t, T(), table, hash, k);
    }

    /** CmpDelayDerefKeyControlBlock: a reference that may be the last, or whose exchange is lost to another
        thread, is given back later. */
    method DelayDeref(k: nat)
      requires Valid() && k in kcbs && k in holds && holds[k] > 0
      modifies this`kcbs, this`queue, this`derefActive, this`holds
      ensures Valid() && Released(old(T()), T(), Some(k)) && kcbs.Keys == old(kcbs).Keys
      ensures || (kcbs == old(kcbs) && queue == old(queue) + [k] && derefActive)
              || (&& old(kcbs)[k].refs > 1 && queue == old(queue)
                  && kcbs == old(kcbs)[k := old(kcbs)[k].(refs := old(kcbs)[k].refs - 1)])
    {
      hide Ok, TableOk, Released;
      ghost var t := T();
      DereferenceKeeps(t, k);
      QueueKeeps(t, k);
      OkLists(t, None);
      var lost: bool := *;
      if kcbs[k].refs - 1 > 0 && !lost {
        kcbs := kcbs[k := kcbs[k].(refs := kcbs[k].refs - 1)];
        holds := holds[k := holds[k] - 1];
      } else {
        queue := queue + [k];
        derefActive := true;
        holds := holds[k := holds[k] - 1];
        assert kcbs == t.kcbs[k := kcbs[k]];
      }
      GivenBack(t, T(), k);
      SameTable(t, T(), table, hash, k);
    }

    /** Takes the KCB out of the table, unless it was deleted, and frees it. */
    method Free(k: nat)
      requires k in kcbs && TableOk(kcbs, table, hash)
      modifies this`kcbs, this`table
      ensures kcbs == old(kcbs) - {k} && TableOk(kcbs, table, hash)
    {
      hide TableOk;
      if !kcbs[k].delete {
        InTable(kcbs, table, hash, k);
        TableWithout(kcbs, table, hash, k, kcbs - {k});
        RemoveKeyHash(k);
      } else {
        TableSkips(kcbs, table, hash, k);
      }
      kcbs := kcbs - {k};
    }

    /** CmpCleanUpKcbCacheWithLock: frees the KCB and gives back its reference on the parent. */
    method CleanUp(k: nat, exclusive: bool)
      requires Closing(k) && kcbs[k].refs == 0
      modifies this
      ensures Valid() && Released(old(T()), T(), None) && k !in kcbs
      ensures !exclusive ==> lru == old(lru) && SameFree(old(kcbs), kcbs, k)
      ensures nextId == old(nextId) && holdLazyFlush == old(holdLazyFlush) && (old(closeActive) ==> closeActive)
      decreases kcbs[k].level, 0
    {
      hide Ok, TableOk, Released, SameFree;
      ghost var t := T();
      FreeKeeps(t, k);
      var p := kcbs[k].parent;
      Free(k);
      ghost var n := Freed(t, k);
      holds, waiting := n.holds, n.waiting;
      if p.Some? {
        if exclusive {
          DereferenceWithLock(p.value, exclusive);
        } else {
          DelayDeref(p.value);
        }
      }
      ReleasedFree(t, k, T());
      if !exclusive { FreedSameFree(t.kcbs, kcbs, k, p); }
    }

    /** CmpDereferenceKeyControlBlockWithLock: gives a held reference back. With the last one the KCB is
        freed or its close is delayed; freeing it gives the parent's reference back in turn. The recursion
        ends because the level falls along the parents. */
    method DereferenceWithLock(k: nat, exclusive: bool)
      requires Valid() && k in kcbs && k in holds && holds[k] > 0
      modifies this
      ensures Valid() && Released(old(T()), T(), Some(k))
      ensures k in kcbs <==> !(old(kcbs)[k].refs == 1 && old(Direct(kcbs[k])))
      ensures nextId == old(nextId) && holdLazyFlush == old(holdLazyFlush) && (old(closeActive) ==> closeActive)
      ensures kcbs.Keys == old(kcbs).Keys ==> queue == old(queue)
      decreases kcbs[k].level, 1
    {
      hide Ok, TableOk, Released;
      ghost var t := T();
      DereferenceKeeps(t, k);
      OkLists(t, None);
      kcbs := kcbs[k := kcbs[k].(refs := kcbs[k].refs - 1)];
      holds := holds[k := holds[k] - 1];
      SameTable(t, T(), table, hash, k);
      ghost var n := T();
      if kcbs[k].refs == 0 {
        if Direct(kcbs[k]) {
          CleanUp(k, exclusive);
          ReleasedAfter(t, k, T());
          return;
        }
        AddToDelayedClose(k);
      }
      GivenBack(t, T(), k);
    }

    /** CmpDereferenceKeyControlBlock: without the lock unless the reference may be the last. */
    method Dereference(k: nat)
      requires Valid() && k in kcbs && k in holds && holds[k] > 0
      modifies this
      ensures Valid() && Released(old(T()), T(), Some(k))
      ensures k in kcbs <==> !(old(kcbs)[k].refs == 1 && old(Direct(kcbs[k])))
      ensures nextId == old(nextId) && holdLazyFlush == old(holdLazyFlush) && (old(closeActive) ==> closeActive)
      ensures kcbs.Keys == old(kcbs).Keys ==> queue == old(queue)
    {
      hide Ok, TableOk, Released;
      ghost var t := T();
      DereferenceKeeps(t, k);
      RefsBelow(t, k);
      OkLists(t, None);
      if (kcbs[k].refs - 1) % 0x10000 > 0 {
        kcbs := kcbs[k := kcbs[k].(refs := kcbs[k].refs - 1)];
        holds := holds[k := holds[k] - 1];
        SameTable(t, T(), table, hash, k);
        GivenBack(t, T(), k);
        return;
      }
      DereferenceWithLock(k, false);
    }

    /** One turn of CmpDelayDerefKCBWorker. A reference is queued only when a KCB is freed. */
    method DerefNext()
      requires Valid() && queue != []
      modifies this
      ensures Valid() && Released(old(T()), T(), None)
      ensures |kcbs| < |old(kcbs)| || (|kcbs| == |old(kcbs)| && |queue| < |old(queue)|)
    {
      hide Ok, TableOk, Released;
      ghost var t := T();
      DequeueKeeps(t);
      OkLists(t, None);
      var k := queue[0];
      queue := queue[1..];
      holds := holds[k := holds[k] + 1];
      assert T() == Dequeued(t);
      hide Dequeued;
      Dereference(k);
      ReleasedQueued(t, T());
      FewerOrSame(t, T());
    }

    /** CmpDelayDerefKCBWorker: gives every queued reference back, and those queued meanwhile. */
    method DelayDerefWorker()
      requires Valid() && derefActive
      modifies this
      ensures Valid() && queue == [] && !derefActive && Released(old(T()), T(), None)
    {
      hide Ok, TableOk, Released;
      ReleasedNothing(T());
      while queue != []
        invariant Valid() && Released(old(T()), T(), None)
        decreases |kcbs|, |queue|
      {
        ghost var t := T();
        DerefNext();
        ReleasedTransitive(old(T()), t, T());
      }
      derefActive := false;
    }

    /** One turn of CmpDelayCloseWorker: the KCB closed longest ago is freed, or spared if it is in use. */
    method CloseOldest()
      requires Valid() && elements > CLOSE_SIZE
      modifies this
      ensures Valid() && Released(old(T()), T(), None) && (old(closeActive) ==> closeActive)
      ensures var k := old(lru)[|old(lru)| - 1];
              && k in old(kcbs)
              && (if old(kcbs)[k].refs == 0 then k !in kcbs && lru == old(lru)[..|old(lru)| - 1]
                  else kcbs == old(kcbs) && lru == [k] + old(lru)[..|old(lru)| - 1])
              && SameFree(old(kcbs), kcbs, k)
    {
      hide Ok, TableOk, Released;
      ghost var t := T();
      OkLists(t, None);
      var k := lru[|lru| - 1];
      assert k in lru;
      LastOfLru(t);
      RefsBelow(t, k);
      if kcbs[k].refs != 0 || kcbs[k].closeIndex != 0 {
        lru := [k] + lru[..|lru| - 1];
        ReorderKeeps(t, T());
        ReleasedSame(t, T());
      } else {
        lru := lru[..|lru| - 1];
        TakeKeeps(t, k, T());
        ReleasedSame(t, T());
        ghost var n := T();
        elements := elements - 1;
        CleanUp(k, false);
        ReleasedTransitive(t, n, T());
      }
    }

    /** CmpDelayCloseWorker: while there are too many delayed closes it looks at the 512 oldest, each once, and
        frees those that nobody refers to. It stays scheduled exactly when there are still too many. */
    method DelayCloseWorker()
      requires Valid() && closeActive
      modifies this
      ensures Valid() && Released(old(T()), T(), None)
      ensures closeActive <==> elements > CLOSE_SIZE
      ensures old(elements) <= CLOSE_SIZE ==> elements == old(elements)
      ensures old(elements) > CLOSE_SIZE ==>
                && |old(lru)| > 512
                && elements ==
                     old(elements) - Min(old(elements) - CLOSE_SIZE, CountFree(old(kcbs), Oldest(old(lru), 512)))
    {
      hide Ok, TableOk, Released, SameFree, CountFree, Turned, Oldest;
      ReleasedNothing(T());
      ghost var l, x := lru, kcbs;
      var i: nat := 0;
      OkLists(T(), None);
      FreeNothing(x, l);
      while i < 512
        invariant i <= 512 && Valid() && Released(old(T()), T(), None) && closeActive && l == old(lru) && x == old(kcbs)
        invariant old(elements) <= CLOSE_SIZE ==> i == 0 && elements == old(elements)
        invariant old(elements) > CLOSE_SIZE ==>
                    elements == old(elements) - CountFree(x, Oldest(l, i)) >= CLOSE_SIZE && Turned(x, kcbs, l, lru, i)
      {
        if elements <= CLOSE_SIZE {
          FreeMore(x, l, i, 512);
          break;
        }
        ghost var t := T();
        TailIs(x, kcbs, l, lru, i);
        CloseOldest();
        ReleasedTransitive(old(T()), t, T());
        NextOldest(x, t.kcbs, kcbs, l, t.lru, lru, i);
        i := i + 1;
      }
      closeActive := elements > CLOSE_SIZE;
    }

    /** CmpCreateKeyControlBlock for an existing key: the KCB that has the key already, or a new one below
        `parent`; either way with one more reference for the caller. It fails exactly when the references or
        the levels run out, and then changes nothing. */
    method Create(key: Key, parent: Option<nat>, frozen: bool) returns (r: Option<nat>)
      requires Valid() && (parent.Some? ==> parent.value in kcbs)
      modifies this
      ensures Valid()
      ensures r.Some? ==> r.value in kcbs && kcbs[r.value].key == key && !kcbs[r.value].delete
      ensures r.Some? ==> Created(old(T()), T(), r.value, parent, frozen, key)
      ensures r.None? ==> T() == old(T()) && table == old(table)
      ensures r.None? <==> Refuses(old(T()), key, parent)
    {
      hide Ok, TableOk, Linked, Referenced, Flagged, Created, Refuses;
      ghost var t, tb := T(), table;
      var k := nextId;
      var found := InsertKeyHash(k, key);
      if found.Some? {
        r := ReferenceFound(found.value, frozen);
        RefusesFound(t, tb, hash, found.value, key, parent);
        if r.Some? {
          FoundIsCreated(t, T(), r.value, parent, frozen, key);
        }
        return;
      }
      RefusesNew(t, tb, hash, key, parent);
      NewEntry(t, tb, hash, k, frozen, key);
      NewRoot(t, k, frozen, key);
      kcbs := kcbs[k := Kcb(None, 1, 1, CLOSE_SIZE, false, false, frozen, key)];
      holds, waiting := holds[k := 1], waiting[k := 0];
      nextId := k + 1;
      r := Some(k);
      if parent.Some? {
        r := Attach(k, parent.value, frozen, key, t, tb);
      }
      if r.Some? {
        NewIsCreated(t, T(), k, parent, frozen, key);
      }
    }

    /** The end of `Create` when the key has a KCB. */
    method ReferenceFound(k: nat, frozen: bool) returns (r: Option<nat>)
      requires Valid() && k in kcbs
      modifies this
      ensures Valid() && table == old(table)
      ensures r.Some? ==>
                r.value == k && k in old(holds) && k in kcbs && T() == Flagged(Referenced(old(T()), k), k, frozen)
      ensures r.None? ==> T() == old(T())
      ensures r.None? <==> old(kcbs)[k].refs == MAX_REFS
    {
      hide Ok, TableOk;
      RefsBelow(T(), k);
      var ok := Reference(k);
      if !ok {
        return None;
      }
      ghost var t := T();
      if frozen {
        FlagKeeps(t, k, kcbs[k].(noDelay := true));
        kcbs := kcbs[k := kcbs[k].(noDelay := true)];
        SameTable(t, T(), table, hash, k);
      } else {
        assert kcbs == kcbs[k := kcbs[k]];
      }
      r := Some(k);
    }

    /** The end of `Create` for a new KCB with a parent: `t` and `tb` are the tree and the table before. */
    method Attach(k: nat, p: nat, frozen: bool, key: Key, ghost t: Tree,
                  ghost tb: seq<seq<nat>>) returns (r: Option<nat>)
      requires Ok(t, None) && k !in t.kcbs && p in t.kcbs && Valid() && T() == Linked(t, k, None, frozen, key)
      requires TableOk(t.kcbs, tb, hash)
      requires var b := Slot(hash, |tb|, key.conv); table == tb[b := [k] + tb[b]]
      modifies this
      ensures Valid()
      ensures r.Some? ==> r.value == k && p in t.holds && T() == Linked(Referenced(t, p), k, Some(p), frozen, key)
      ensures r.None? ==> T() == t && table == tb
      ensures r.None? <==> t.kcbs[p].level + 1 >= MAX_LEVELS || t.kcbs[p].refs == MAX_REFS
    {
      hide Ok, TableOk, Linked, Referenced;
      LinkedShape(t, k, frozen, key);
      RefsBelow(T(), p);
      var ok := kcbs[p].level + 1 < MAX_LEVELS;
      if ok {
        ok := Reference(p);
      }
      if !ok {
        Detach(k, frozen, key, t, tb);
        return None;
      }
      Attached(t, k, p, frozen, key);
      ghost var m := T();
      kcbs := kcbs[k := kcbs[k].(parent := Some(p), level := kcbs[p].level + 1)];
      holds := holds[p := holds[p] - 1];
      SameTable(m, T(), table, hash, k);
      r := Some(k);
    }

    /** The failure exit of `Create`: the new KCB is taken out of the table and freed. */
    method Detach(k: nat, frozen: bool, key: Key, ghost t: Tree, ghost tb: seq<seq<nat>>)
      requires Ok(t, None) && k !in t.kcbs && Valid() && T() == Linked(t, k, None, frozen, key)
      requires TableOk(t.kcbs, tb, hash)
      requires var b := Slot(hash, |tb|, key.conv); table == tb[b := [k] + tb[b]]
      modifies this`kcbs, this`table, this`holds, this`waiting
      ensures Valid() && T() == t && table == tb
    {
      hide Ok, TableOk;
      LinkedShape(t, k, frozen, key);
      InTable(kcbs, table, hash, k);
      RemoveKeyHash(k);
      assert table == tb;
      Detached(t, k, frozen, key);
      hide Linked;
      kcbs, holds, waiting := kcbs - {k}, holds - {k}, waiting - {k};
    }

    /** CmDeleteKey's change of the KCB: marked deleted, and out of the table. */
    method MarkDeleted(k: nat)
      requires Valid() && k in kcbs && !kcbs[k].delete
      modifies this
      ensures Valid() && T() == Put(old(T()), k, old(kcbs)[k].(delete := true))
      ensures forall b, u :: 0 <= b < |table| && u in table[b] ==> u != k
    {
      hide Ok, TableOk;
      ghost var t := T();
      InTable(kcbs, table, hash, k);
      FlagKeeps(t, k, kcbs[k].(delete := true));
      TableWithout(kcbs, table, hash, k, kcbs[k := kcbs[k].(delete := true)]);
      RemoveKeyHash(k);
      kcbs := kcbs[k := kcbs[k].(delete := true)];
      NowhereInTable(kcbs, table, hash, k);
    }

    /** CmpHoldLazyFlush is changed elsewhere, at any time. */
    method SetHoldLazyFlush(hold: bool)
      requires Valid()
      modifies this`holdLazyFlush
      ensures Valid() && holdLazyFlush == hold
    {
      holdLazyFlush := hold;
    }
  }

  /** Opening a key and closing it again leaves every reference of every other opener as it was, and frees
      nothing that is in use. */
  method OpenAndClose(m: KcbManager, key: Key, parent: Option<nat>, frozen: bool)
    requires m.Valid() && (parent.Some? ==> parent.value in m.kcbs)
    modifies m
    ensures m.Valid() && forall u :: u in old(m.kcbs) ==> HeldAsBefore(old(m.T()), m.T(), u)
  {
    hide Ok, TableOk, Released, Created, HeldAsBefore;
    ghost var t := m.T();
    var r := m.Create(key, parent, frozen);
    if r.None? {
      forall u | u in t.kcbs ensures HeldAsBefore(t, m.T(), u) {
        Untouched(t, u);
      }
      return;
    }
    ghost var b := m.T();
    CreatedHeld(t, b, r.value, parent, frozen, key);
    m.Dereference(r.value);
    forall u | u in t.kcbs ensures HeldAsBefore(t, m.T(), u) {
      OpenedAndClosed(t, b, m.T(), r.value, parent, frozen, key, u);
    }
  }

  /** From nothing: a root key and a key below it, opened and closed. */
  method FirstKeys(hash: nat -> nat, size: nat, root: Key, sub: Key) returns (m: KcbManager)
    requires size > 0
    ensures fresh(m) && m.Valid()
  {
    hide Ok, TableOk, Created;
    m := new KcbManager(hash, size);
    var r := m.Create(root, None, false);
    if r.Some? {
      OpenAndClose(m, sub, r, false);
    }
  }
}
