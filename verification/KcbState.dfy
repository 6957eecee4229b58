/** The registry's key control blocks (KCBs): a tree with reference counts, a list of KCBs whose close is
    delayed, and a queue of references to be given back later. */
module KcbState {
  import opened Options
  import opened Seqs

  const CLOSE_SIZE: nat := 2048       // CmpDelayedCloseSize
  const MAX_LEVELS: nat := 512
  const MAX_REFS: nat := 0xFFFF

  datatype Key = Key(conv: nat, cell: nat, hive: nat)

  datatype Kcb = Kcb(parent: Option<nat>, level: nat, refs: nat, closeIndex: nat, inDelayClose: bool,
                     delete: bool, noDelay: bool, key: Key)

  datatype Tree = Tree(
    kcbs: map<nat, Kcb>,      // the live KCBs
    lru: seq<nat>,            // delayed closes, the most recent first
    queue: seq<nat>,          // delayed dereferences
    holds: map<nat, nat>,     // history: references of open keys and of callers
    waiting: map<nat, nat>)   // history: threads that wait to lock the KCB for their own exclusive use

  ghost function Children(kcbs: map<nat, Kcb>, k: nat): set<nat>
  {
    set c | c in kcbs && kcbs[c].parent == Some(k)
  }

  /** The parent is live, and one level up. */
  ghost predicate ParentOk(t: Tree, k: nat)
    requires k in t.kcbs
  {
    var x := t.kcbs[k];
    if x.parent.None? then x.level == 1
    else x.parent.value in t.kcbs && x.level == t.kcbs[x.parent.value].level + 1 && x.level < MAX_LEVELS
  }

  /** Every reference is accounted for: children, holders, waiting threads and queued dereferences. */
  ghost predicate CountOk(t: Tree, k: nat)
    requires k in t.kcbs
  {
    && k in t.holds && k in t.waiting && t.kcbs[k].refs <= MAX_REFS
    && t.kcbs[k].refs == |Children(t.kcbs, k)| + t.holds[k] + t.waiting[k] + multiset(t.queue)[k]
  }

  /** Unreferenced KCBs are on the delayed-close list; a KCB that some thread waits for may still be. */
  ghost predicate CloseOk(t: Tree, k: nat)
    requires k in t.kcbs && k in t.waiting
  {
    var x := t.kcbs[k];
    && (k in t.lru <==> x.closeIndex != CLOSE_SIZE) && (x.inDelayClose <==> k in t.lru)
    && (x.closeIndex == 0 || x.closeIndex == 1 || x.closeIndex == CLOSE_SIZE)
    && (x.closeIndex == 0 <==> x.refs == 0) && (x.closeIndex == 1 ==> t.waiting[k] > 0)
  }

  ghost predicate KcbOk(t: Tree, k: nat, z: Option<nat>)
    requires k in t.kcbs
  {
    ParentOk(t, k) && CountOk(t, k) && (if z == Some(k) then k !in t.lru && t.kcbs[k].refs == 0 else CloseOk(t, k))
  }

  ghost predicate ListsOk(t: Tree)
  {
    Distinct(t.lru) && (forall k :: k in t.lru ==> k in t.kcbs) && (forall k :: k in t.queue ==> k in t.kcbs)
  }

  /** The invariant; `z` is a KCB whose last reference has just gone, and that is to be closed. */
  ghost predicate Ok(t: Tree, z: Option<nat>)
  {
    && t.holds.Keys == t.kcbs.Keys && t.waiting.Keys == t.kcbs.Keys && ListsOk(t)
    && (forall k :: k in t.kcbs ==> KcbOk(t, k, z)) && (z.Some? ==> z.value in t.kcbs)
  }

  lemma {:induction false} Facts(t: Tree, z: Option<nat>, k: nat)
    requires Ok(t, z) && k in t.kcbs
    ensures KcbOk(t, k, z)
  {
  }

  lemma {:induction false} RefsBelow(t: Tree, k: nat)
    requires Ok(t, None) && k in t.kcbs
    ensures t.kcbs[k].refs <= MAX_REFS
    ensures (t.kcbs[k].refs + 1) % 0x10000 == 0 <==> t.kcbs[k].refs == MAX_REFS
    ensures t.kcbs[k].closeIndex == 0 <==> t.kcbs[k].refs == 0
    ensures t.kcbs[k].closeIndex == 0 ==> k in t.lru && t.kcbs[k].inDelayClose
  {
    hide Ok;
    Facts(t, None, k);
  }

  // ----- Changing one KCB

  // What the others see of a change to `k`.
  ghost predicate OthersSame(t: Tree, n: Tree, k: nat)
  {
    && n.kcbs.Keys == t.kcbs.Keys && n.holds.Keys == t.holds.Keys && n.waiting.Keys == t.waiting.Keys
    && (forall u :: u in t.kcbs && u != k ==>
          n.kcbs[u] == t.kcbs[u] && (u in n.lru <==> u in t.lru) && multiset(n.queue)[u] == multiset(t.queue)[u])
    && (forall u :: u in t.holds && u != k ==> n.holds[u] == t.holds[u])
    && (forall u :: u in t.waiting && u != k ==> n.waiting[u] == t.waiting[u])
  }

  lemma {:induction false} SameChildren(t: Tree, n: Tree, k: nat, u: nat)
    requires k in t.kcbs && OthersSame(t, n, k) && n.kcbs[k].parent == t.kcbs[k].parent
    ensures Children(n.kcbs, u) == Children(t.kcbs, u)
  {
  }

  lemma {:induction false} TouchOther(t: Tree, n: Tree, k: nat, u: nat, z: Option<nat>, z': Option<nat>)
    requires u in t.kcbs && u != k && k in t.kcbs && OthersSame(t, n, k)
    requires n.kcbs[k].parent == t.kcbs[k].parent && n.kcbs[k].level == t.kcbs[k].level
    requires KcbOk(t, u, z) && z != Some(u) && z' != Some(u)
    ensures KcbOk(n, u, z')
  {
    SameChildren(t, n, k, u);
    hide Children;
  }

  lemma {:induction false} TouchSelf(t: Tree, n: Tree, k: nat, z: Option<nat>, z': Option<nat>)
    requires k in t.kcbs && OthersSame(t, n, k) && KcbOk(t, k, z)
    requires n.kcbs[k].parent == t.kcbs[k].parent && n.kcbs[k].level == t.kcbs[k].level && n.kcbs[k].refs <= MAX_REFS
    requires k in n.holds && k in n.waiting
    requires n.kcbs[k].refs + t.holds[k] + t.waiting[k] + multiset(t.queue)[k]
          == t.kcbs[k].refs + n.holds[k] + n.waiting[k] + multiset(n.queue)[k]
    requires if z' == Some(k) then k !in n.lru && n.kcbs[k].refs == 0 else CloseOk(n, k)
    ensures KcbOk(n, k, z')
  {
    SameChildren(t, n, k, k);
    hide Children;
  }

  lemma {:induction false} Touch(t: Tree, n: Tree, k: nat, z: Option<nat>, z': Option<nat>)
    requires Ok(t, z) && k in t.kcbs && (z == None || z == Some(k)) && (z' == None || z' == Some(k))
    requires OthersSame(t, n, k) && ListsOk(n)
    requires n.kcbs[k].parent == t.kcbs[k].parent && n.kcbs[k].level == t.kcbs[k].level && n.kcbs[k].refs <= MAX_REFS
    requires n.kcbs[k].refs + t.holds[k] + t.waiting[k] + multiset(t.queue)[k]
          == t.kcbs[k].refs + n.holds[k] + n.waiting[k] + multiset(n.queue)[k]
    requires if z' == Some(k) then k !in n.lru && n.kcbs[k].refs == 0 else CloseOk(n, k)
    ensures Ok(n, z')
  {
    hide KcbOk, ListsOk, CloseOk;
    forall u | u in n.kcbs ensures KcbOk(n, u, z') {
      Facts(t, z, u);
      if u == k {
        TouchSelf(t, n, k, z, z');
      } else {
        TouchOther(t, n, k, u, z, z');
      }
    }
  }

  function Put(t: Tree, k: nat, x: Kcb): Tree
  {
    t.(kcbs := t.kcbs[k := x])
  }

  /** A reference taken; a KCB on the delayed-close list leaves it. */
  function Referenced(t: Tree, k: nat): Tree
    requires k in t.kcbs && k in t.holds
  {
    var x := t.kcbs[k].(refs := t.kcbs[k].refs + 1);
    var n := Put(t, k, x).(holds := t.holds[k := t.holds[k] + 1]);
    if x.closeIndex == 0 then Reopened(n, k) else n
  }

  function Reopened(t: Tree, k: nat): Tree
    requires k in t.kcbs
  {
    Put(t, k, t.kcbs[k].(closeIndex := CLOSE_SIZE, inDelayClose := false)).(lru := Removed(t.lru, k))
  }

  lemma {:induction false} ReferenceKeeps(t: Tree, k: nat)
    requires Ok(t, None) && k in t.kcbs && t.kcbs[k].refs < MAX_REFS
    ensures k in t.holds && Ok(Referenced(t, k), None)
  {
    hide Ok, Children;
    Facts(t, None, k);
    OkLists(t, None);
    RemovedMembers(t.lru, k);
    var n := Referenced(t, k);
    assert OthersSame(t, n, k) by {
      hide KcbOk;
    }
    assert ListsOk(n) by {
      hide KcbOk;
    }
    assert CloseOk(n, k) by {
      hide OthersSame, ListsOk;
    }
    hide OthersSame, ListsOk, CloseOk, KcbOk;
    Touch(t, n, k, None, None);
  }

  lemma {:induction false} OkLists(t: Tree, z: Option<nat>)
    requires Ok(t, z)
    ensures ListsOk(t) && t.holds.Keys == t.kcbs.Keys && t.waiting.Keys == t.kcbs.Keys
  {
  }

  /** A held reference given back. */
  function Dereferenced(t: Tree, k: nat): Tree
    requires k in t.kcbs && k in t.holds && t.kcbs[k].refs > 0 && t.holds[k] > 0
  {
    Put(t, k, t.kcbs[k].(refs := t.kcbs[k].refs - 1)).(holds := t.holds[k := t.holds[k] - 1])
  }

  lemma {:induction false} DereferenceKeeps(t: Tree, k: nat)
    requires Ok(t, None) && k in t.kcbs && k in t.holds && t.holds[k] > 0
    ensures t.kcbs[k].refs > 0
    ensures var n := Dereferenced(t, k);
            if t.kcbs[k].refs == 1 then Ok(n, Some(k)) && n.kcbs[k].closeIndex == CLOSE_SIZE && !n.kcbs[k].inDelayClose
            else Ok(n, None)
  {
    hide Ok, Children;
    Facts(t, None, k);
    OkLists(t, None);
    var n := Dereferenced(t, k);
    assert OthersSame(t, n, k) by {
      hide KcbOk;
    }
    assert ListsOk(n) by {
      hide KcbOk;
    }
    hide OthersSame, ListsOk;
    Touch(t, n, k, None, if t.kcbs[k].refs == 1 then Some(k) else None);
  }

  /** Onto the delayed-close list. */
  function Delayed(t: Tree, k: nat): Tree
    requires k in t.kcbs
  {
    Put(t, k, t.kcbs[k].(closeIndex := 0, inDelayClose := true)).(lru := [k] + t.lru)
  }

  lemma {:induction false} DelayKeeps(t: Tree, k: nat)
    requires Ok(t, Some(k)) && k in t.kcbs
    ensures Ok(Delayed(t, k), None)
  {
    hide Ok, Children;
    Facts(t, Some(k), k);
    OkLists(t, Some(k));
    var n := Delayed(t, k);
    assert OthersSame(t, n, k) by {
      hide KcbOk;
    }
    assert ListsOk(n) by {
      hide KcbOk;
    }
    assert CloseOk(n, k) by {
      hide OthersSame, ListsOk;
    }
    hide OthersSame, ListsOk, CloseOk, KcbOk;
    Touch(t, n, k, Some(k), None);
  }

  /** A held reference becomes one to be given back later. */
  function Queued(t: Tree, k: nat): Tree
    requires k in t.holds && t.holds[k] > 0
  {
    t.(holds := t.holds[k := t.holds[k] - 1], queue := t.queue + [k])
  }

  lemma {:induction false} QueueKeeps(t: Tree, k: nat)
    requires Ok(t, None) && k in t.kcbs && k in t.holds && t.holds[k] > 0
    ensures Ok(Queued(t, k), None)
  {
    hide Ok, Children;
    Facts(t, None, k);
    OkLists(t, None);
    var n := Queued(t, k);
    assert OthersSame(t, n, k) by {
      hide KcbOk;
    }
    assert ListsOk(n) by {
      hide KcbOk;
    }
    assert CloseOk(n, k) by {
      hide OthersSame, ListsOk;
    }
    hide OthersSame, ListsOk, CloseOk, KcbOk;
    Touch(t, n, k, None, None);
  }

  /** The reverse: the first queued dereference is taken over by the worker. */
  function Dequeued(t: Tree): Tree
    requires t.queue != [] && t.queue[0] in t.holds
  {
    t.(holds := t.holds[t.queue[0] := t.holds[t.queue[0]] + 1], queue := t.queue[1..])
  }

  lemma {:induction false} DequeueKeeps(t: Tree)
    requires Ok(t, None) && t.queue != []
    ensures t.queue[0] in t.kcbs && t.queue[0] in t.holds && Ok(Dequeued(t), None)
  {
    hide Ok, Children;
    OkLists(t, None);
    var k := t.queue[0];
    assert k in t.queue;
    Facts(t, None, k);
    assert t.queue == [k] + t.queue[1..];
    var n := Dequeued(t);
    assert OthersSame(t, n, k) && ListsOk(n) by {
      hide KcbOk;
    }
    assert CloseOk(n, k);
    hide OthersSame, ListsOk, CloseOk, KcbOk;
    Touch(t, n, k, None, None);
  }

  /** A thread waits for the lock; its reference keeps the KCB, the index 1 keeps the worker away. */
  function Awaited(t: Tree, k: nat): Tree
    requires k in t.kcbs && k in t.waiting
  {
    Put(t, k, t.kcbs[k].(closeIndex := 1, refs := t.kcbs[k].refs + 1)).(waiting := t.waiting[k := t.waiting[k] + 1])
  }

  lemma {:induction false} AwaitKeeps(t: Tree, k: nat)
    requires Ok(t, None) && k in t.lru && k in t.kcbs && t.kcbs[k].refs < MAX_REFS
    ensures k in t.waiting && Ok(Awaited(t, k), None)
  {
    hide Ok, Children;
    Facts(t, None, k);
    OkLists(t, None);
    var n := Awaited(t, k);
    assert OthersSame(t, n, k) by {
      hide KcbOk;
    }
    assert ListsOk(n) by {
      hide KcbOk;
    }
    assert CloseOk(n, k) by {
      hide OthersSame, ListsOk;
    }
    hide OthersSame, ListsOk, CloseOk, KcbOk;
    Touch(t, n, k, None, None);
  }

  /** The thread has the lock: its waiting reference becomes a held one, and the KCB is open again. */
  function Arrived(t: Tree, k: nat): Tree
    requires k in t.kcbs && k in t.waiting && k in t.holds && t.waiting[k] > 0
  {
    var n := t.(waiting := t.waiting[k := t.waiting[k] - 1], holds := t.holds[k := t.holds[k] + 1]);
    if t.kcbs[k].closeIndex == CLOSE_SIZE then n else Reopened(n, k)
  }

  lemma {:induction false} ArriveKeeps(t: Tree, k: nat)
    requires Ok(t, None) && k in t.kcbs && k in t.waiting && t.waiting[k] > 0
    ensures k in t.holds && t.kcbs[k].refs > 0 && t.kcbs[k].closeIndex != 0 && Ok(Arrived(t, k), None)
  {
    hide Ok, Children;
    Facts(t, None, k);
    OkLists(t, None);
    RemovedMembers(t.lru, k);
    var n := Arrived(t, k);
    assert OthersSame(t, n, k) by {
      hide KcbOk;
    }
    assert ListsOk(n) by {
      hide KcbOk;
    }
    assert CloseOk(n, k) by {
      hide OthersSame, ListsOk;
    }
    hide OthersSame, ListsOk, CloseOk, KcbOk;
    Touch(t, n, k, None, None);
  }

  lemma {:induction false} ArriveFacts(t: Tree, k: nat)
    requires Ok(t, None) && k in t.kcbs && k in t.waiting && t.waiting[k] > 0
    ensures t.kcbs[k].closeIndex == CLOSE_SIZE || (t.kcbs[k].closeIndex == 1 && k in t.lru && t.kcbs[k].inDelayClose)
    ensures 0 < t.kcbs[k].refs <= MAX_REFS
  {
    hide Ok, Children;
    Facts(t, None, k);
  }

  /** Flags that the counts do not depend on. */
  lemma {:induction false} FlagKeeps(t: Tree, k: nat, x: Kcb)
    requires Ok(t, None) && k in t.kcbs && x == t.kcbs[k].(delete := x.delete, noDelay := x.noDelay, key := x.key)
    ensures Ok(Put(t, k, x), None)
  {
    hide Ok, Children;
    Facts(t, None, k);
    OkLists(t, None);
    var n := Put(t, k, x);
    assert OthersSame(t, n, k) by {
      hide KcbOk;
    }
    assert ListsOk(n) by {
      hide KcbOk;
    }
    assert CloseOk(n, k) by {
      hide OthersSame, ListsOk;
    }
    hide OthersSame, ListsOk, CloseOk, KcbOk;
    Touch(t, n, k, None, None);
  }

  /** The delayed-close list reordered. */
  lemma {:induction false} ReorderKeeps(t: Tree, n: Tree)
    requires Ok(t, None) && n == t.(lru := n.lru) && Distinct(n.lru) && forall u :: u in n.lru <==> u in t.lru
    ensures Ok(n, None)
  {
    forall u | u in n.kcbs ensures KcbOk(n, u, None) {
      assert KcbOk(t, u, None);
    }
  }

  /** Off the delayed-close list, to be freed. */
  lemma {:induction false} TakeKeeps(t: Tree, k: nat, n: Tree)
    requires Ok(t, None) && k in t.lru && k in t.kcbs && t.kcbs[k].refs == 0
    requires n == t.(lru := n.lru) && Distinct(n.lru) && forall u :: u in n.lru <==> u in t.lru && u != k
    ensures Ok(n, Some(k))
  {
    hide Ok, Children;
    Facts(t, None, k);
    OkLists(t, None);
    assert OthersSame(t, n, k) by {
      hide KcbOk;
    }
    assert ListsOk(n) by {
      hide KcbOk;
    }
    hide OthersSame, ListsOk;
    Touch(t, n, k, None, Some(k));
  }

  // ----- Freeing and creating KCBs

  /** The KCB is gone; the reference it held on its parent is now the caller's. */
  function Freed(t: Tree, k: nat): Tree
    requires k in t.kcbs
    requires (t.kcbs[k].parent.Some? ==> t.kcbs[k].parent.value in t.holds && t.kcbs[k].parent.value != k)
  {
    var p := t.kcbs[k].parent;
    t.(kcbs := t.kcbs - {k}, waiting := t.waiting - {k},
       holds := (if p.Some? then t.holds[p.value := t.holds[p.value] + 1] else t.holds) - {k})
  }

  // A KCB without references has no children, no holders and no queued dereference.
  lemma {:induction false} Unreferenced(t: Tree, z: Option<nat>, k: nat)
    requires Ok(t, z) && k in t.kcbs && t.kcbs[k].refs == 0
    ensures Children(t.kcbs, k) == {} && t.holds[k] == 0 && t.waiting[k] == 0 && k !in t.queue
  {
    Facts(t, z, k);
    assert multiset(t.queue)[k] == 0;
  }

  lemma {:induction false} ChildrenWithout(kcbs: map<nat, Kcb>, k: nat, u: nat)
    requires k in kcbs
    ensures |Children(kcbs - {k}, u)| == |Children(kcbs, u)| - (if kcbs[k].parent == Some(u) then 1 else 0)
  {
    if kcbs[k].parent == Some(u) {
      assert Children(kcbs, u) == Children(kcbs - {k}, u) + {k};
    } else {
      assert Children(kcbs, u) == Children(kcbs - {k}, u);
    }
  }

  lemma {:induction false} FreeCount(t: Tree, k: nat, u: nat)
    requires k in t.kcbs && u in t.kcbs && u != k && CountOk(t, u) && t.kcbs[k].refs == 0
    requires t.kcbs[k].parent.Some? ==> t.kcbs[k].parent.value in t.holds && t.kcbs[k].parent.value != k
    ensures CountOk(Freed(t, k), u)
  {
    hide Children;
    ChildrenWithout(t.kcbs, k, u);
  }

  lemma {:induction false} FreeOther(t: Tree, k: nat, u: nat)
    requires k in t.kcbs && u in t.kcbs && u != k && KcbOk(t, u, Some(k)) && t.kcbs[k].refs == 0
    requires Children(t.kcbs, k) == {}
    requires t.kcbs[k].parent.Some? ==> t.kcbs[k].parent.value in t.holds && t.kcbs[k].parent.value != k
    ensures KcbOk(Freed(t, k), u, None)
  {
    assert u !in Children(t.kcbs, k);
    hide CountOk, Children;
    FreeCount(t, k, u);
  }

  /** Only a KCB that nothing refers to is freed, so no KCB is freed before its descendants. */
  lemma {:induction false} FreeKeeps(t: Tree, k: nat)
    requires Ok(t, Some(k)) && k in t.kcbs
    ensures var p := t.kcbs[k].parent;
            p.Some? ==>
              && p.value in t.kcbs && p.value in t.holds && p.value != k
              && t.kcbs[p.value].level < t.kcbs[k].level
    ensures Ok(Freed(t, k), None)
  {
    hide Ok, Children;
    OkLists(t, Some(k));
    Facts(t, Some(k), k);
    Unreferenced(t, Some(k), k);
    hide KcbOk;
    var n := Freed(t, k);
    assert ListsOk(n) && n.holds.Keys == n.kcbs.Keys && n.waiting.Keys == n.kcbs.Keys;
    forall u | u in n.kcbs ensures KcbOk(n, u, None) {
      Facts(t, Some(k), u);
      FreeOther(t, k, u);
    }
    OkFrom(n);
  }

  lemma {:induction false} OkFrom(n: Tree)
    requires ListsOk(n) && n.holds.Keys == n.kcbs.Keys && n.waiting.Keys == n.kcbs.Keys
    requires forall u :: u in n.kcbs ==> KcbOk(n, u, None)
    ensures Ok(n, None)
  {
    hide KcbOk, ListsOk;
  }

  /** A new KCB, held by the caller; a reference the caller held on the parent now belongs to the KCB. */
  function Linked(t: Tree, k: nat, p: Option<nat>, noDelay: bool, key: Key): Tree
    requires p.Some? ==> p.value in t.kcbs && p.value in t.holds && t.holds[p.value] > 0
  {
    var level := if p.Some? then t.kcbs[p.value].level + 1 else 1;
    t.(kcbs := t.kcbs[k := Kcb(p, level, 1, CLOSE_SIZE, false, false, noDelay, key)],
       waiting := t.waiting[k := 0],
       holds := (if p.Some? then t.holds[p.value := t.holds[p.value] - 1] else t.holds)[k := 1])
  }

  lemma {:induction false} LinkCount(t: Tree, k: nat, p: Option<nat>, noDelay: bool, key: Key, u: nat)
    requires u in t.kcbs && k !in t.kcbs && CountOk(t, u)
    requires p.Some? ==> p.value in t.kcbs && p.value in t.holds && t.holds[p.value] > 0
    ensures CountOk(Linked(t, k, p, noDelay, key), u)
  {
    var n := Linked(t, k, p, noDelay, key);
    if p == Some(u) {
      assert Children(n.kcbs, u) == Children(t.kcbs, u) + {k};
    } else {
      assert Children(n.kcbs, u) == Children(t.kcbs, u);
    }
  }

  lemma {:induction false} LinkOther(t: Tree, k: nat, p: Option<nat>, noDelay: bool, key: Key, u: nat)
    requires u in t.kcbs && k !in t.kcbs && KcbOk(t, u, None)
    requires p.Some? ==> p.value in t.kcbs && p.value in t.holds && t.holds[p.value] > 0
    ensures KcbOk(Linked(t, k, p, noDelay, key), u, None)
  {
    LinkCount(t, k, p, noDelay, key, u);
    hide CountOk, Children;
  }

  lemma {:induction false} LinkKeeps(t: Tree, k: nat, p: Option<nat>, noDelay: bool, key: Key)
    requires Ok(t, None) && k !in t.kcbs
    requires p.Some? ==>
               p.value in t.kcbs && p.value in t.holds && t.holds[p.value] > 0 && t.kcbs[p.value].level + 1 < MAX_LEVELS
    ensures Ok(Linked(t, k, p, noDelay, key), None)
  {
    hide Ok, Children;
    OkLists(t, None);
    var n := Linked(t, k, p, noDelay, key);
    assert ListsOk(n) && n.holds.Keys == n.kcbs.Keys && n.waiting.Keys == n.kcbs.Keys by {
      hide KcbOk;
    }
    NewKcb(t, k, p, noDelay, key);
    hide KcbOk, ListsOk, Linked;
    forall u | u in t.kcbs ensures KcbOk(n, u, None) {
      Facts(t, None, u);
      LinkOther(t, k, p, noDelay, key, u);
    }
    OkFrom(n);
  }

  lemma {:induction false} NewKcb(t: Tree, k: nat, p: Option<nat>, noDelay: bool, key: Key)
    requires Ok(t, None) && k !in t.kcbs
    requires p.Some? ==>
               p.value in t.kcbs && p.value in t.holds && t.holds[p.value] > 0 && t.kcbs[p.value].level + 1 < MAX_LEVELS
    ensures var n := Linked(t, k, p, noDelay, key); n.kcbs.Keys == t.kcbs.Keys + {k} && KcbOk(n, k, None)
  {
    var n := Linked(t, k, p, noDelay, key);
    forall c | c in n.kcbs && c != k ensures n.kcbs[c].parent != Some(k) {
      assert ParentOk(t, c);
    }
    assert n.kcbs[k].parent != Some(k);
    assert Children(n.kcbs, k) == {};
    assert k !in t.queue;
    assert multiset(n.queue)[k] == 0;
  }

  // ----- What the invariant means

  /** A KCB is on the delayed-close list, once, exactly when it has no reference, or was there when a thread began
      to wait for it; its close index tells which. So the list holds just the unreferenced KCBs up to those with
      index 1, and a KCB with a child, an open key or a queued dereference is referenced. */
  lemma {:induction false} UnreferencedIffDelayed(t: Tree, k: nat)
    requires Ok(t, None) && k in t.kcbs
    ensures k in t.waiting && k in t.holds && multiset(t.lru)[k] == Bit(k in t.lru)
    ensures k in t.lru <==> t.kcbs[k].refs == 0 || t.kcbs[k].closeIndex == 1
    ensures (k in t.lru <==> t.kcbs[k].refs == 0) <==> t.kcbs[k].closeIndex != 1
    ensures t.kcbs[k].closeIndex == 1 ==> t.waiting[k] > 0 && t.kcbs[k].refs > 0
    ensures t.kcbs[k].refs == 0 <==> Children(t.kcbs, k) == {} && t.holds[k] == 0 && t.waiting[k] == 0 && k !in t.queue
  {
    Facts(t, None, k);
    DistinctCount(t.lru, k);
    if k !in t.queue {
      assert multiset(t.queue)[k] == 0;
    } else {
      assert multiset(t.queue)[k] > 0;
    }
    if t.kcbs[k].refs == 0 {
      Unreferenced(t, None, k);
    }
  }

  function Bit(b: bool): nat
  {
    if b then 1 else 0
  }

  lemma {:induction false} DistinctCount(q: seq<nat>, k: nat)
    requires Distinct(q)
    ensures multiset(q)[k] == Bit(k in q)
  {
    if q != [] {
      assert q == [q[0]] + q[1..];
      DistinctCount(q[1..], k);
    }
  }

  /** The KCB and its ancestors up to the root: all of them live, as many as the level says. So no KCB is
      freed before its descendants. */
  ghost function PathToRoot(t: Tree, k: nat): (path: seq<nat>)
    requires Ok(t, None) && k in t.kcbs
    ensures |path| == t.kcbs[k].level && path[0] == k && (forall u :: u in path ==> u in t.kcbs)
    ensures t.kcbs[path[|path| - 1]].parent.None?
    decreases t.kcbs[k].level
  {
    Facts(t, None, k);
    if t.kcbs[k].parent.None? then [k] else [k] + PathToRoot(t, t.kcbs[k].parent.value)
  }

  // ----- The oldest of the delayed closes

  /** The `i` KCBs closed longest ago, at the end of the list. */
  function Oldest(l: seq<nat>, i: nat): seq<nat>
  {
    if i <= |l| then l[|l| - i..] else l
  }

  /** How many of the KCBs have no reference. */
  function CountFree(kcbs: map<nat, Kcb>, q: seq<nat>): nat
  {
    if q == [] then 0 else (if q[0] in kcbs && kcbs[q[0]].refs == 0 then 1 else 0) + CountFree(kcbs, q[1..])
  }

  function Min(a: nat, b: nat): nat
  {
    if a < b then a else b
  }

  /** All KCBs but `k` are still there, with or without references as before. */
  ghost predicate SameFree(x: map<nat, Kcb>, y: map<nat, Kcb>, k: nat)
  {
    forall u :: u in x && u != k ==> u in y && (y[u].refs == 0 <==> x[u].refs == 0)
  }

  ghost predicate AllSameFree(x: map<nat, Kcb>, y: map<nat, Kcb>, q: seq<nat>)
  {
    forall u :: u in q ==> u in x && u in y && (y[u].refs == 0 <==> x[u].refs == 0)
  }

  /** After `i` turns: the rest of the list `l` is still at the end of `lru`, with or without references as before. */
  ghost predicate Turned(x: map<nat, Kcb>, y: map<nat, Kcb>, l: seq<nat>, lru: seq<nat>, i: nat)
  {
    && i <= |l| <= |lru| + i && Distinct(l) && lru[|lru| - (|l| - i)..] == l[..|l| - i]
    && AllSameFree(x, y, l[..|l| - i])
  }

  lemma {:induction false} FreeNothing(x: map<nat, Kcb>, l: seq<nat>)
    requires Distinct(l) && forall k :: k in l ==> k in x
    ensures CountFree(x, Oldest(l, 0)) == 0 && Turned(x, x, l, l, 0)
  {
  }

  // The parent loses at most a reference that is not its last.
  lemma {:induction false} FreedSameFree(x: map<nat, Kcb>, y: map<nat, Kcb>, k: nat, p: Option<nat>)
    requires y == x - {k} || (&& p.Some? && p.value in x && p.value != k && x[p.value].refs > 1
                              && y == (x - {k})[p.value := x[p.value].(refs := x[p.value].refs - 1)])
    ensures SameFree(x, y, k)
  {
  }

  lemma {:induction false} CountFreeNext(x: map<nat, Kcb>, l: seq<nat>, i: nat)
    requires i < |l|
    ensures CountFree(x, Oldest(l, i + 1)) ==
              CountFree(x, Oldest(l, i)) + if l[|l| - i - 1] in x && x[l[|l| - i - 1]].refs == 0 then 1 else 0
  {
    assert Oldest(l, i + 1) == [l[|l| - i - 1]] + Oldest(l, i);
    assert Oldest(l, i + 1)[1..] == Oldest(l, i);
  }

  lemma {:induction false} FreeMore(x: map<nat, Kcb>, l: seq<nat>, i: nat, j: nat)
    requires i <= j
    ensures CountFree(x, Oldest(l, i)) <= CountFree(x, Oldest(l, j))
    decreases j - i
  {
    if i < j {
      FreeMore(x, l, i, j - 1);
      if j <= |l| {
        CountFreeNext(x, l, j - 1);
      } else {
        assert j - 1 == |l| ==> Oldest(l, j - 1) == l;
      }
    }
  }

  lemma {:induction false} TailIs(x: map<nat, Kcb>, y: map<nat, Kcb>, l: seq<nat>, lru: seq<nat>, i: nat)
    requires Turned(x, y, l, lru, i) && i < |l|
    ensures |lru| > 0 && lru[|lru| - 1] == l[|l| - i - 1]
  {
    assert lru[|lru| - (|l| - i)..][|l| - i - 1] == l[..|l| - i][|l| - i - 1];
  }

  // One of the oldest taken from the end of the list, and put in front of it unless it was freed.
  lemma {:induction false} NextOldest(x: map<nat, Kcb>, was: map<nat, Kcb>, now: map<nat, Kcb>, l: seq<nat>,
                                      lru: seq<nat>, lru': seq<nat>, i: nat)
    requires i < |l| && Turned(x, was, l, lru, i) && SameFree(was, now, l[|l| - i - 1])
    requires |lru| > 0 && (lru' == lru[..|lru| - 1] || lru' == [l[|l| - i - 1]] + lru[..|lru| - 1])
    ensures Turned(x, now, l, lru', i + 1)
    ensures var k := l[|l| - i - 1];
            && k in was
            && CountFree(x, Oldest(l, i + 1)) == CountFree(x, Oldest(l, i)) + if was[k].refs == 0 then 1 else 0
  {
    var n := |l| - i;
    var k := l[n - 1];
    CountFreeNext(x, l, i);
    assert k in l[..n];
    assert l[..n - 1] == l[..n][..n - 1] && lru[|lru| - n..|lru| - 1] == lru[|lru| - n..][..n - 1];
    forall u | u in l[..n - 1] ensures u in l[..n] && u != k {
    }
  }
}
