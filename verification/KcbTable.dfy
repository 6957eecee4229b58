/** The hash table of key control blocks, and what giving a reference back may change. */
module KcbTable {
  import opened Options
  import opened Seqs
  import opened KcbState

  // ----- The hash table

  function Slot(hash: nat -> nat, size: nat, conv: nat): (b: nat)
    requires size > 0
    ensures b < size
  {
    hash(conv) % size
  }

  ghost predicate Hashed(kcbs: map<nat, Kcb>, k: nat)
  {
    k in kcbs && !kcbs[k].delete
  }

  ghost predicate ChainOk(kcbs: map<nat, Kcb>, chain: seq<nat>, b: nat, size: nat, hash: nat -> nat)
    requires size > 0
  {
    Distinct(chain) && forall k :: k in chain ==> Hashed(kcbs, k) && Slot(hash, size, kcbs[k].key.conv) == b
  }

  ghost predicate UniqueKeys(kcbs: map<nat, Kcb>)
  {
    forall k, u :: Hashed(kcbs, k) && Hashed(kcbs, u) && kcbs[k].key == kcbs[u].key ==> k == u
  }

  /** The chains hold the KCBs that are not deleted, each once and in its own slot; no two have the same key. */
  ghost predicate TableOk(kcbs: map<nat, Kcb>, table: seq<seq<nat>>, hash: nat -> nat)
  {
    && |table| > 0 && UniqueKeys(kcbs)
    && (forall b :: 0 <= b < |table| ==> ChainOk(kcbs, table[b], b, |table|, hash))
    && (forall k :: Hashed(kcbs, k) ==> k in table[Slot(hash, |table|, kcbs[k].key.conv)])
  }

  // Reference counts and close flags are of no concern to the table.
  ghost predicate SameKey(kcbs: map<nat, Kcb>, n: map<nat, Kcb>, k: nat)
  {
    (k in n <==> k in kcbs) && (k in n && k in kcbs ==> n[k].key == kcbs[k].key && n[k].delete == kcbs[k].delete)
  }

  lemma {:induction false} ChainSame(kcbs: map<nat, Kcb>, n: map<nat, Kcb>, chain: seq<nat>, b: nat, size: nat,
                                     hash: nat -> nat)
    requires size > 0 && ChainOk(kcbs, chain, b, size, hash) && forall u :: u in chain ==> SameKey(kcbs, n, u)
    ensures ChainOk(n, chain, b, size, hash)
  {
    hide Slot;
    forall k | k in chain ensures Hashed(n, k) && Slot(hash, size, n[k].key.conv) == b {
      assert SameKey(kcbs, n, k);
    }
  }

  lemma {:induction false} TableSame(kcbs: map<nat, Kcb>, n: map<nat, Kcb>, table: seq<seq<nat>>, hash: nat -> nat)
    requires TableOk(kcbs, table, hash) && forall u :: SameKey(kcbs, n, u)
    ensures TableOk(n, table, hash)
  {
    hide Slot, ChainOk;
    forall u ensures Hashed(n, u) <==> Hashed(kcbs, u) {
      assert SameKey(kcbs, n, u);
    }
    forall b | 0 <= b < |table| ensures ChainOk(n, table[b], b, |table|, hash) {
      ChainSame(kcbs, n, table[b], b, |table|, hash);
    }
    forall u | Hashed(n, u) ensures n[u].key == kcbs[u].key {
      assert SameKey(kcbs, n, u);
    }
  }

  // `k` leaves the table: it is freed, or marked deleted.
  lemma {:induction false} TableWithout(kcbs: map<nat, Kcb>, table: seq<seq<nat>>, hash: nat -> nat, k: nat,
                                        n: map<nat, Kcb>)
    requires TableOk(kcbs, table, hash) && Hashed(kcbs, k) && !Hashed(n, k)
    requires forall u :: u != k ==> SameKey(kcbs, n, u)
    ensures var b := Slot(hash, |table|, kcbs[k].key.conv); TableOk(n, table[b := Removed(table[b], k)], hash)
  {
    hide Slot, ChainOk;
    var b := Slot(hash, |table|, kcbs[k].key.conv);
    var t := table[b := Removed(table[b], k)];
    forall u | u != k ensures (Hashed(n, u) <==> Hashed(kcbs, u)) && (Hashed(n, u) ==> n[u].key == kcbs[u].key) {
      assert SameKey(kcbs, n, u);
    }
    forall c | 0 <= c < |table| ensures ChainOk(n, t[c], c, |t|, hash) {
      ChainWithout(kcbs, n, table[c], c, |table|, hash, k);
    }
    forall u | Hashed(n, u) ensures u in t[Slot(hash, |t|, n[u].key.conv)] {
      ChainWithout(kcbs, n, table[b], b, |table|, hash, k);
    }
  }

  lemma {:induction false} ChainWithout(kcbs: map<nat, Kcb>, n: map<nat, Kcb>, chain: seq<nat>, c: nat, size: nat,
                                        hash: nat -> nat, k: nat)
    requires size > 0 && ChainOk(kcbs, chain, c, size, hash) && Hashed(kcbs, k)
    requires forall u :: u != k ==> SameKey(kcbs, n, u)
    ensures if c == Slot(hash, size, kcbs[k].key.conv) then ChainOk(n, Removed(chain, k), c, size, hash)
        else ChainOk(n, chain, c, size, hash)
    ensures forall u :: u in Removed(chain, k) <==> u in chain && u != k
  {
    hide Slot;
    RemovedMembers(chain, k);
    forall u | u != k && u in chain ensures Hashed(n, u) && n[u].key == kcbs[u].key {
      assert SameKey(kcbs, n, u);
    }
  }

  // A new KCB, whose key is not in its chain.
  lemma {:induction false} TableWith(kcbs: map<nat, Kcb>, table: seq<seq<nat>>, hash: nat -> nat, k: nat, x: Kcb)
    requires TableOk(kcbs, table, hash) && k !in kcbs && !x.delete
    requires forall u :: u in table[Slot(hash, |table|, x.key.conv)] && u in kcbs ==> kcbs[u].key != x.key
    ensures var b := Slot(hash, |table|, x.key.conv); TableOk(kcbs[k := x], table[b := [k] + table[b]], hash)
  {
    hide Slot, ChainOk;
    var b := Slot(hash, |table|, x.key.conv);
    var n := kcbs[k := x];
    var t := table[b := [k] + table[b]];
    forall u | Hashed(kcbs, u) ensures kcbs[u].key != x.key {
      assert u in table[Slot(hash, |table|, kcbs[u].key.conv)];
    }
    forall c | 0 <= c < |table| ensures ChainOk(n, t[c], c, |t|, hash) {
      ChainWith(kcbs, table[c], c, |table|, hash, k, x);
    }
  }

  lemma {:induction false} ChainWith(kcbs: map<nat, Kcb>, chain: seq<nat>, c: nat, size: nat, hash: nat -> nat,
                                     k: nat, x: Kcb)
    requires size > 0 && ChainOk(kcbs, chain, c, size, hash) && k !in kcbs && !x.delete
    ensures if c == Slot(hash, size, x.key.conv) then ChainOk(kcbs[k := x], [k] + chain, c, size, hash)
            else ChainOk(kcbs[k := x], chain, c, size, hash)
  {
    hide Slot;
    assert k !in chain;
  }

  // ----- What a dereference may change

  ghost predicate SamePlace(x: Kcb, y: Kcb)
  {
    y.parent == x.parent && y.level == x.level && y.key == x.key && y.delete == x.delete && y.noDelay == x.noDelay
  }

  ghost predicate KeptOrFreed(t: Tree, n: Tree, h: Option<nat>, u: nat)
    requires u in t.kcbs
  {
    && u in t.holds && u in t.waiting
    && if u in n.kcbs then
         && u in n.holds && u in n.waiting && SamePlace(t.kcbs[u], n.kcbs[u])
         && t.holds[u] == n.holds[u] + Bit(h == Some(u)) && n.waiting[u] == t.waiting[u]
       else t.holds[u] == Bit(h == Some(u)) && t.waiting[u] == 0
  }

  /** The reference `h` is given back, all other references are still there, and what was freed had none. */
  ghost predicate Released(t: Tree, n: Tree, h: Option<nat>)
  {
    n.kcbs.Keys <= t.kcbs.Keys && forall u :: u in t.kcbs ==> KeptOrFreed(t, n, h, u)
  }

  lemma {:induction false} ReleasedAt(t: Tree, n: Tree, h: Option<nat>, u: nat)
    requires Released(t, n, h) && u in t.kcbs
    ensures KeptOrFreed(t, n, h, u)
  {
  }

  // The parent's reference passes from the freed KCB to the caller, who gives it back.
  lemma {:induction false} ReleasedFree(t: Tree, k: nat, n: Tree)
    requires Ok(t, Some(k)) && k in t.kcbs && t.kcbs[k].refs == 0
    requires t.kcbs[k].parent.Some? ==> t.kcbs[k].parent.value in t.holds && t.kcbs[k].parent.value != k
    requires if t.kcbs[k].parent.Some? then Released(Freed(t, k), n, t.kcbs[k].parent) else n == Freed(t, k)
    ensures Released(t, n, None) && k !in n.kcbs
  {
    hide Ok;
    Unreferenced(t, Some(k), k);
    OkLists(t, Some(k));
    forall u | u in t.kcbs ensures KeptOrFreed(t, n, None, u) {
      if u != k && t.kcbs[k].parent.Some? {
        ReleasedAt(Freed(t, k), n, t.kcbs[k].parent, u);
      }
    }
  }

  lemma {:induction false} ReleasedAfter(t: Tree, k: nat, n: Tree)
    requires k in t.kcbs && k in t.holds && t.kcbs[k].refs > 0 && t.holds[k] > 0
    requires t.holds.Keys == t.kcbs.Keys == t.waiting.Keys
    requires Released(Dereferenced(t, k), n, None)
    ensures Released(t, n, Some(k))
  {
    forall u | u in t.kcbs ensures KeptOrFreed(t, n, Some(k), u) {
      ReleasedAt(Dereferenced(t, k), n, None, u);
      hide Released;
    }
  }

  lemma {:induction false} ReleasedTransitive(a: Tree, b: Tree, c: Tree)
    requires Released(a, b, None) && Released(b, c, None)
    ensures Released(a, c, None)
  {
  }

  // Changes of one KCB that leave its key and its deletion mark alone.
  lemma {:induction false} SameTable(t: Tree, n: Tree, table: seq<seq<nat>>, hash: nat -> nat, k: nat)
    requires TableOk(t.kcbs, table, hash) && k in t.kcbs && k in n.kcbs && n.kcbs == t.kcbs[k := n.kcbs[k]]
    requires n.kcbs[k].key == t.kcbs[k].key && n.kcbs[k].delete == t.kcbs[k].delete
    ensures TableOk(n.kcbs, table, hash)
  {
    hide TableOk;
    TableSame(t.kcbs, n.kcbs, table, hash);
  }

  lemma {:induction false} InTable(kcbs: map<nat, Kcb>, table: seq<seq<nat>>, hash: nat -> nat, k: nat)
    requires TableOk(kcbs, table, hash) && Hashed(kcbs, k)
    ensures |table| > 0 && k in table[Slot(hash, |table|, kcbs[k].key.conv)]
  {
  }

  // A KCB marked deleted is in no chain.
  lemma {:induction false} TableSkips(kcbs: map<nat, Kcb>, table: seq<seq<nat>>, hash: nat -> nat, k: nat)
    requires TableOk(kcbs, table, hash) && !Hashed(kcbs, k)
    ensures TableOk(kcbs - {k}, table, hash)
  {
    hide Slot, ChainOk;
    var n := kcbs - {k};
    forall u | u != k ensures SameKey(kcbs, n, u) {
    }
    forall u ensures Hashed(n, u) <==> Hashed(kcbs, u) {
    }
    forall b | 0 <= b < |table| ensures ChainOk(n, table[b], b, |table|, hash) {
      ChainHashed(kcbs, table[b], b, |table|, hash);
      ChainSame(kcbs, n, table[b], b, |table|, hash);
    }
  }

  lemma {:induction false} ChainHashed(kcbs: map<nat, Kcb>, chain: seq<nat>, b: nat, size: nat, hash: nat -> nat)
    requires size > 0 && ChainOk(kcbs, chain, b, size, hash)
    ensures forall u :: u in chain ==> Hashed(kcbs, u)
  {
  }

  // A dereference that frees nothing.
  lemma {:induction false} GivenBack(t: Tree, n: Tree, k: nat)
    requires k in t.kcbs && t.holds.Keys == t.kcbs.Keys == t.waiting.Keys && t.holds[k] > 0 && k in n.kcbs
    requires n.kcbs == t.kcbs[k := n.kcbs[k]] && SamePlace(t.kcbs[k], n.kcbs[k])
    requires n.holds == t.holds[k := t.holds[k] - 1] && n.waiting == t.waiting
    ensures Released(t, n, Some(k))
  {
  }

  lemma {:induction false} NowhereInTable(kcbs: map<nat, Kcb>, table: seq<seq<nat>>, hash: nat -> nat, k: nat)
    requires TableOk(kcbs, table, hash) && !Hashed(kcbs, k)
    ensures forall b, u :: 0 <= b < |table| && u in table[b] ==> u != k
  {
    hide Slot;
    forall b, u | 0 <= b < |table| && u in table[b] ensures u != k {
      assert ChainOk(kcbs, table[b], b, |table|, hash);
    }
  }

  lemma {:induction false} ReleasedNothing(t: Tree)
    requires Ok(t, None)
    ensures Released(t, t, None)
  {
    hide Ok;
    OkLists(t, None);
    hide *;
    ReleasedSame(t, t);
  }

  lemma {:induction false} ReleasedSame(t: Tree, n: Tree)
    requires n == t.(lru := n.lru) && t.holds.Keys == t.kcbs.Keys == t.waiting.Keys
    ensures Released(t, n, None)
  {
  }

  // The worker takes a queued reference over and gives it back.
  lemma {:induction false} ReleasedQueued(t: Tree, n: Tree)
    requires t.queue != [] && t.queue[0] in t.kcbs && t.holds.Keys == t.kcbs.Keys
    requires Released(Dequeued(t), n, Some(t.queue[0]))
    ensures Released(t, n, None)
  {
    forall u | u in t.kcbs ensures KeptOrFreed(t, n, None, u) {
      ReleasedAt(Dequeued(t), n, Some(t.queue[0]), u);
      hide Released;
    }
  }

  lemma {:induction false} FewerOrSame(t: Tree, n: Tree)
    requires Released(t, n, None)
    ensures n.kcbs.Keys == t.kcbs.Keys || |n.kcbs| < |t.kcbs|
  {
    if n.kcbs.Keys != t.kcbs.Keys {
      SmallerSet(n.kcbs.Keys, t.kcbs.Keys);
      assert |n.kcbs| == |n.kcbs.Keys| && |t.kcbs| == |t.kcbs.Keys|;
    }
  }

  lemma {:induction false} LastOfLru(t: Tree)
    requires ListsOk(t) && t.lru != []
    ensures var p, k := t.lru[..|t.lru| - 1], t.lru[|t.lru| - 1];
            && k in t.kcbs && Distinct(p) && Distinct([k] + p) && (forall u :: u in p <==> u in t.lru && u != k)
            && (forall u :: u in [k] + p <==> u in t.lru)
  {
    var p, k := t.lru[..|t.lru| - 1], t.lru[|t.lru| - 1];
    assert k in t.lru && t.lru == p + [k];
    assert k !in p;
  }

  /** A KCB kept out of the delayed closes, if `frozen`. */
  function Flagged(t: Tree, k: nat, frozen: bool): Tree
    requires k in t.kcbs
  {
    Put(t, k, if frozen then t.kcbs[k].(noDelay := true) else t.kcbs[k])
  }

  lemma {:induction false} NewEntry(t: Tree, tb: seq<seq<nat>>, hash: nat -> nat, k: nat, frozen: bool, key: Key)
    requires Ok(t, None) && k !in t.kcbs && TableOk(t.kcbs, tb, hash)
    requires forall u :: u in tb[Slot(hash, |tb|, key.conv)] && u in t.kcbs ==> t.kcbs[u].key != key
    ensures var n := Linked(t, k, None, frozen, key);
            var b := Slot(hash, |tb|, key.conv);
            Ok(n, None) && TableOk(n.kcbs, tb[b := [k] + tb[b]], hash)
  {
    LinkKeeps(t, k, None, frozen, key);
    TableWith(t.kcbs, tb, hash, k, Kcb(None, 1, 1, CLOSE_SIZE, false, false, frozen, key));
  }

  lemma {:induction false} Detached(t: Tree, k: nat, frozen: bool, key: Key)
    requires Ok(t, None) && k !in t.kcbs
    ensures var n := Linked(t, k, None, frozen, key);
            n.kcbs - {k} == t.kcbs && n.holds - {k} == t.holds && n.waiting - {k} == t.waiting
  {
    hide Ok;
    OkLists(t, None);
  }

  lemma {:induction false} LinkedShape(t: Tree, k: nat, frozen: bool, key: Key)
    requires k !in t.kcbs
    ensures var n := Linked(t, k, None, frozen, key);
            && n.kcbs == t.kcbs[k := Kcb(None, 1, 1, CLOSE_SIZE, false, false, frozen, key)]
            && n.lru == t.lru && n.queue == t.queue && k in n.holds && k in n.waiting
  {
  }

  // Linking the new KCB first and referencing its parent then comes to the same.
  lemma {:induction false} Attached(t: Tree, k: nat, p: nat, frozen: bool, key: Key)
    requires Ok(t, None) && k !in t.kcbs && p in t.kcbs && t.kcbs[p].level + 1 < MAX_LEVELS && t.kcbs[p].refs < MAX_REFS
    ensures p in t.holds
    ensures var m := Referenced(Linked(t, k, None, frozen, key), p);
            var n := Linked(Referenced(t, p), k, Some(p), frozen, key);
            && Ok(n, None) && k in m.kcbs && p in m.kcbs && p in m.holds && m.holds[p] > 0
            && n.kcbs == m.kcbs[k := m.kcbs[k].(parent := Some(p), level := m.kcbs[p].level + 1)]
            && n == m.(kcbs := n.kcbs, holds := m.holds[p := m.holds[p] - 1])
            && n.kcbs[k].key == m.kcbs[k].key && n.kcbs[k].delete == m.kcbs[k].delete
  {
    hide Ok;
    OkLists(t, None);
    ReferenceKeeps(t, p);
    LinkKeeps(Referenced(t, p), k, Some(p), frozen, key);
  }

  /** `k` was there and has one more reference, or it is new and has its first one. */
  ghost predicate Created(t: Tree, n: Tree, k: nat, parent: Option<nat>, frozen: bool, key: Key)
  {
    if k in t.kcbs then k in t.holds && n == Flagged(Referenced(t, k), k, frozen)
    else if parent.None? then n == Linked(t, k, None, frozen, key)
    else
      && parent.value in t.kcbs && parent.value in t.holds
      && n == Linked(Referenced(t, parent.value), k, parent, frozen, key)
  }

  /** References of `u` are what they were, or it had none and is gone. */
  ghost predicate HeldAsBefore(t: Tree, n: Tree, u: nat)
  {
    && u in t.holds && u in t.waiting
    && if u in n.kcbs then u in n.holds && u in n.waiting && n.holds[u] == t.holds[u] && n.waiting[u] == t.waiting[u]
       else t.holds[u] == 0 && t.waiting[u] == 0
  }

  // A reference taken by creating or finding a KCB, and given back.
  lemma {:induction false} OpenedAndClosed(t: Tree, b: Tree, n: Tree, k: nat, parent: Option<nat>, frozen: bool,
                                           key: Key, u: nat)
    requires Ok(t, None) && Created(t, b, k, parent, frozen, key) && Released(b, n, Some(k)) && u in t.kcbs
    ensures HeldAsBefore(t, n, u)
  {
    hide Ok, Released;
    OkLists(t, None);
    assert u in b.kcbs;
    ReleasedAt(b, n, Some(k), u);
  }

  lemma {:induction false} Untouched(t: Tree, u: nat)
    requires Ok(t, None) && u in t.kcbs
    ensures HeldAsBefore(t, t, u)
  {
    hide Ok;
    OkLists(t, None);
  }

  lemma {:induction false} CreatedHeld(t: Tree, n: Tree, k: nat, parent: Option<nat>, frozen: bool, key: Key)
    requires Created(t, n, k, parent, frozen, key)
    ensures k in n.kcbs && k in n.holds && n.holds[k] > 0
  {
  }

  lemma {:induction false} FoundIsCreated(t: Tree, n: Tree, k: nat, parent: Option<nat>, frozen: bool, key: Key)
    requires k in t.kcbs && k in t.holds && !t.kcbs[k].delete && t.kcbs[k].key == key
    requires n == Flagged(Referenced(t, k), k, frozen)
    ensures Created(t, n, k, parent, frozen, key) && k in n.kcbs && n.kcbs[k].key == key && !n.kcbs[k].delete
  {
  }

  lemma {:induction false} NewIsCreated(t: Tree, n: Tree, k: nat, parent: Option<nat>, frozen: bool, key: Key)
    requires k !in t.kcbs
    requires if parent.None? then n == Linked(t, k, None, frozen, key)
             else
               && parent.value in t.kcbs && parent.value in t.holds
               && n == Linked(Referenced(t, parent.value), k, parent, frozen, key)
    ensures Created(t, n, k, parent, frozen, key) && k in n.kcbs && n.kcbs[k].key == key && !n.kcbs[k].delete
  {
  }

  lemma {:induction false} NewRoot(t: Tree, k: nat, frozen: bool, key: Key)
    ensures Linked(t, k, None, frozen, key) ==
              Tree(t.kcbs[k := Kcb(None, 1, 1, CLOSE_SIZE, false, false, frozen, key)], t.lru, t.queue,
                  t.holds[k := 1], t.waiting[k := 0])
  {
  }

  /** The key's KCB has all the references it can have, or there is none yet and no room below the parent. */
  ghost predicate Refuses(t: Tree, key: Key, parent: Option<nat>)
  {
    if exists k :: Hashed(t.kcbs, k) && t.kcbs[k].key == key then
      exists k :: Hashed(t.kcbs, k) && t.kcbs[k].key == key && t.kcbs[k].refs == MAX_REFS
    else
      parent.Some? && parent.value in t.kcbs &&
          (t.kcbs[parent.value].level + 1 >= MAX_LEVELS || t.kcbs[parent.value].refs == MAX_REFS)
  }

  lemma {:induction false} RefusesFound(t: Tree, table: seq<seq<nat>>, hash: nat -> nat, k: nat, key: Key,
                                        parent: Option<nat>)
    requires TableOk(t.kcbs, table, hash) && Hashed(t.kcbs, k) && t.kcbs[k].key == key
    ensures Refuses(t, key, parent) <==> t.kcbs[k].refs == MAX_REFS
  {
    hide Slot, ChainOk;
  }

  lemma {:induction false} RefusesNew(t: Tree, table: seq<seq<nat>>, hash: nat -> nat, key: Key, parent: Option<nat>)
    requires TableOk(t.kcbs, table, hash) && (parent.Some? ==> parent.value in t.kcbs)
    requires forall u :: u in table[Slot(hash, |table|, key.conv)] && u in t.kcbs ==> t.kcbs[u].key != key
    ensures Refuses(t, key, parent) <==>
              parent.Some? && (t.kcbs[parent.value].level + 1 >= MAX_LEVELS || t.kcbs[parent.value].refs == MAX_REFS)
  {
    hide Slot, ChainOk;
    forall k | Hashed(t.kcbs, k) ensures t.kcbs[k].key != key {
      assert k in table[Slot(hash, |table|, t.kcbs[k].key.conv)];
    }
  }
}
