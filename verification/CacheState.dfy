/** The file cache's state: stripes ("VACBs") with their reference counts and flags, the per-file sorted
    lists, the global LRU and dirty lists, and the medium below. */
module CacheState {
  import opened Bytes
  import opened Seqs

  const G: nat := 0x40000  // VACB_MAPPING_GRANULARITY
  const PAGES: nat := 64   // VACB_MAPPING_GRANULARITY / PAGE_SIZE

  predicate Aligned(o: nat)
  {
    o % G == 0
  }

  /** The start of the stripe that `off` lies in. */
  function RoundDown(off: nat): (o: nat)
    ensures Aligned(o) && o <= off < o + G
  {
    off - off % G
  }

  /** The pages of `n` stripes. */
  function Pages(n: nat): nat
  {
    PAGES * n
  }

  datatype Vacb = Vacb(file: nat, offset: nat, data: seq<byte>, valid: bool, dirty: bool, mapped: nat, refs: nat)

  datatype File = File(section: nat, fileSize: nat, list: seq<nat>, dirtyPages: nat, temporary: bool)

  datatype Cc = Cc(
    vacbs: map<nat, Vacb>,    // stripes linked in their file's list and in the LRU list
    limbo: map<nat, Vacb>,    // stripes unlinked from all lists, waiting for their last dereference
    files: map<nat, File>,
    lru: seq<nat>,
    dirtyList: seq<nat>,
    totalDirty: nat,          // CcTotalDirtyPages
    disk: map<nat, seq<byte>>,
    nextId: nat,
    holders: map<nat, nat>)   // history: references taken and not yet given back, per stripe

  // ----- Elementary changes

  function Put(c: Cc, v: nat, x: Vacb): Cc
  {
    c.(vacbs := c.vacbs[v := x])
  }

  /** CcRosVacbIncRefCount on behalf of a caller. */
  function Hold(c: Cc, v: nat): Cc
    requires v in c.vacbs && v in c.holders
  {
    Put(c, v, c.vacbs[v].(refs := c.vacbs[v].refs + 1)).(holders := c.holders[v := c.holders[v] + 1])
  }

  /** CcRosVacbDecRefCount of a reference taken with `Hold`. */
  function Unhold(c: Cc, v: nat): Cc
    requires v in c.vacbs && v in c.holders && c.vacbs[v].refs > 0 && c.holders[v] > 0
  {
    Put(c, v, c.vacbs[v].(refs := c.vacbs[v].refs - 1)).(holders := c.holders[v := c.holders[v] - 1])
  }

  function MoveToLruTail(c: Cc, v: nat): Cc
  {
    c.(lru := Removed(c.lru, v) + [v])
  }

  function MarkDirty(c: Cc, v: nat): Cc
    requires v in c.vacbs && c.vacbs[v].file in c.files
  {
    var x := c.vacbs[v];
    MoveToLruTail(Put(c, v, x.(dirty := true, refs := x.refs + 1)), v).(
      dirtyList := c.dirtyList + [v],
      totalDirty := c.totalDirty + PAGES,
      files := c.files[x.file := c.files[x.file].(dirtyPages := c.files[x.file].dirtyPages + PAGES)])
  }

  function UnmarkDirty(c: Cc, v: nat): Cc
    requires v in c.vacbs && c.vacbs[v].file in c.files && c.vacbs[v].refs > 0
    requires c.totalDirty >= PAGES && c.files[c.vacbs[v].file].dirtyPages >= PAGES
  {
    var x := c.vacbs[v];
    Put(c, v, x.(dirty := false, refs := x.refs - 1)).(
      dirtyList := Removed(c.dirtyList, v),
      totalDirty := c.totalDirty - PAGES,
      files := c.files[x.file := c.files[x.file].(dirtyPages := c.files[x.file].dirtyPages - PAGES)])
  }

  /** Takes the stripe off its file's list and the LRU list. */
  function Unlink(c: Cc, v: nat): Cc
    requires v in c.vacbs && c.vacbs[v].file in c.files
  {
    var x := c.vacbs[v];
    c.(vacbs := c.vacbs - {v}, limbo := c.limbo[v := x], lru := Removed(c.lru, v),
       files := c.files[x.file := c.files[x.file].(list := Removed(c.files[x.file].list, v))])
  }

  /** Links a new stripe at position `k` of its file's list and at the tail of the LRU list, with one
      reference for the lists and one for the caller. */
  function Link(c: Cc, v: nat, f: nat, o: nat, data: seq<byte>, k: nat): Cc
    requires f in c.files && k <= |c.files[f].list|
  {
    var l := c.files[f].list;
    Put(c, v, Vacb(f, o, data, false, false, 0, 2)).(
      lru := c.lru + [v], nextId := v + 1, holders := c.holders[v := 1],
      files := c.files[f := c.files[f].(list := l[..k] + [v] + l[k..])])
  }

  function SetValid(c: Cc, v: nat, valid: bool): Cc
    requires v in c.vacbs
  {
    Put(c, v, c.vacbs[v].(valid := valid))
  }

  /** The first mapping holds a reference. */
  function MapOnce(c: Cc, v: nat): Cc
    requires v in c.vacbs
  {
    var x := c.vacbs[v];
    Put(c, v, x.(mapped := x.mapped + 1, refs := if x.mapped == 0 then x.refs + 1 else x.refs))
  }

  function UnmapOnce(c: Cc, v: nat): Cc
    requires v in c.vacbs && c.vacbs[v].mapped > 0 && c.vacbs[v].refs > 0
  {
    var x := c.vacbs[v];
    Put(c, v, x.(mapped := x.mapped - 1, refs := if x.mapped == 1 then x.refs - 1 else x.refs))
  }

  // ----- Reference counts, lists and page counts

  function Bit(b: bool): nat
  {
    if b then 1 else 0
  }

  /** One reference for the lists, one if dirty, one if mapped, and one per holder. */
  ghost predicate RefsOk(c: Cc, v: nat)
    requires v in c.vacbs
  {
    var x := c.vacbs[v];
    v in c.holders && x.refs == 1 + Bit(x.dirty) + Bit(x.mapped > 0) + c.holders[v]
  }

  ghost predicate ShapeOk(c: Cc, v: nat)
    requires v in c.vacbs
  {
    var x := c.vacbs[v];
    && v < c.nextId && v !in c.limbo && |x.data| == G && (x.dirty ==> x.valid)
    && x.file in c.files && Aligned(x.offset) && x.offset < c.files[x.file].section
  }

  /** What waits to be freed is unused. */
  ghost predicate LimboOk(c: Cc, v: nat)
    requires v in c.limbo
  {
    var x := c.limbo[v];
    v < c.nextId && x.refs == 1 && !x.dirty && x.mapped == 0
  }

  ghost function DirtySet(c: Cc): set<nat>
  {
    set v | v in c.vacbs && c.vacbs[v].dirty
  }

  ghost function DirtyIn(c: Cc, f: nat): set<nat>
  {
    set v | v in c.vacbs && c.vacbs[v].dirty && c.vacbs[v].file == f
  }

  ghost predicate SortedBy(vacbs: map<nat, Vacb>, l: seq<nat>)
  {
    && (forall u :: u in l ==> u in vacbs)
    && (forall i, j :: 0 <= i < j < |l| ==> vacbs[l[i]].offset < vacbs[l[j]].offset)
  }

  /** The file's list holds its stripes, strictly sorted by offset. */
  ghost predicate ListOk(c: Cc, f: nat)
    requires f in c.files
  {
    var l := c.files[f].list;
    (forall v :: v in l <==> v in c.vacbs && c.vacbs[v].file == f) && SortedBy(c.vacbs, l)
  }

  ghost predicate StripeOk(c: Cc, v: nat)
    requires v in c.vacbs
  {
    ShapeOk(c, v) && RefsOk(c, v)
  }

  ghost predicate FileOk(c: Cc, f: nat)
    requires f in c.files
  {
    ListOk(c, f) && c.files[f].dirtyPages == Pages(|DirtyIn(c, f)|)
  }

  ghost predicate QueuesOk(c: Cc)
  {
    Lists(c.lru, c.vacbs.Keys) && Lists(c.dirtyList, DirtySet(c)) && c.totalDirty == Pages(|c.dirtyList|)
  }

  ghost predicate Structure(c: Cc)
  {
    && (forall v :: v in c.vacbs ==> StripeOk(c, v))
    && (forall v :: v in c.limbo ==> LimboOk(c, v))
    && (forall f :: f in c.files ==> FileOk(c, f))
    && QueuesOk(c)
  }

  // ----- Each elementary change keeps the structure

  lemma {:induction false} PutKeepsFile(c: Cc, n: Cc, v: nat, f: nat)
    requires v in c.vacbs && f in c.files && FileOk(c, f) && n.files == c.files
    requires v in n.vacbs && n.vacbs == c.vacbs[v := n.vacbs[v]]
    requires n.vacbs[v].file == c.vacbs[v].file && n.vacbs[v].offset == c.vacbs[v].offset
    requires n.vacbs[v].dirty == c.vacbs[v].dirty
    ensures FileOk(n, f)
  {
    hide ListOk;
    assert DirtyIn(n, f) == DirtyIn(c, f);
    SameList(c, n, f);
  }

  // A stripe is untouched by a change elsewhere.
  lemma {:induction false} StripeFrame(c: Cc, n: Cc, u: nat)
    requires u in c.vacbs && StripeOk(c, u) && u in n.vacbs && n.vacbs[u] == c.vacbs[u] && n.nextId >= c.nextId
    requires (u in c.holders ==> u in n.holders && n.holders[u] == c.holders[u]) && (u !in c.limbo ==> u !in n.limbo)
    requires c.vacbs[u].file in c.files ==>
               c.vacbs[u].file in n.files && n.files[c.vacbs[u].file].section == c.files[c.vacbs[u].file].section
    ensures StripeOk(n, u)
  {
  }

  lemma {:induction false} PutKeepsQueues(c: Cc, n: Cc, v: nat)
    requires v in c.vacbs && QueuesOk(c) && v in n.vacbs && n.vacbs == c.vacbs[v := n.vacbs[v]]
    requires n.vacbs[v].dirty == c.vacbs[v].dirty && n.lru == c.lru && n.dirtyList == c.dirtyList
    requires n.totalDirty == c.totalDirty
    ensures QueuesOk(n)
  {
    assert n.vacbs.Keys == c.vacbs.Keys && DirtySet(n) == DirtySet(c);
  }

  lemma {:induction false} PutKeepsStripe(c: Cc, v: nat, x: Vacb, h: nat)
    requires v in c.vacbs && StripeOk(c, v)
    requires x.file == c.vacbs[v].file && x.offset == c.vacbs[v].offset
    requires |x.data| == G && (x.dirty ==> x.valid) && x.refs == 1 + Bit(x.dirty) + Bit(x.mapped > 0) + h
    ensures StripeOk(Put(c, v, x).(holders := c.holders[v := h]), v)
  {
  }

  /** A change of one stripe that keeps its place and its dirty flag, and accounts for its references. */
  lemma {:induction false} PutKeeps(c: Cc, v: nat, x: Vacb, h: nat)
    requires Structure(c) && v in c.vacbs
    requires x.file == c.vacbs[v].file && x.offset == c.vacbs[v].offset && x.dirty == c.vacbs[v].dirty
    requires |x.data| == G && (x.dirty ==> x.valid) && x.refs == 1 + Bit(x.dirty) + Bit(x.mapped > 0) + h
    ensures Structure(Put(c, v, x).(holders := c.holders[v := h]))
  {
    hide StripeOk, FileOk, QueuesOk, LimboOk;
    var n := Put(c, v, x).(holders := c.holders[v := h]);
    PutKeepsStripe(c, v, x, h);
    PutKeepsQueues(c, n, v);
    forall f | f in n.files ensures FileOk(n, f) {
      PutKeepsFile(c, n, v, f);
    }
    forall u | u in n.vacbs ensures StripeOk(n, u) {
      if u != v { StripeFrame(c, n, u); }
    }
    forall u | u in n.limbo ensures LimboOk(n, u) {
      LimboFrame(c, n, u);
    }
  }

  lemma {:induction false} LimboFrame(c: Cc, n: Cc, u: nat)
    requires u in c.limbo && LimboOk(c, u) && u in n.limbo && n.limbo[u] == c.limbo[u] && n.nextId >= c.nextId
    ensures LimboOk(n, u)
  {
  }

  // The order of a file's list depends only on where its stripes are.
  lemma {:induction false} SameList(c: Cc, n: Cc, f: nat)
    requires f in c.files && f in n.files && n.files[f].list == c.files[f].list && ListOk(c, f)
    requires n.vacbs.Keys == c.vacbs.Keys
    requires forall v :: v in c.vacbs ==> n.vacbs[v].file == c.vacbs[v].file && n.vacbs[v].offset == c.vacbs[v].offset
    ensures ListOk(n, f)
  {
  }

  // What does not touch a file's stripes or its record keeps it in order.
  lemma {:induction false} FileFrame(c: Cc, n: Cc, f: nat)
    requires f in c.files && FileOk(c, f) && n.vacbs == c.vacbs && n.files == c.files
    ensures FileOk(n, f)
  {
    hide ListOk;
    assert DirtyIn(n, f) == DirtyIn(c, f);
    SameList(c, n, f);
  }

  /** A change of the LRU order, the limbo or the medium only. */
  lemma {:induction false} RestKeeps(c: Cc, n: Cc)
    requires Structure(c) && QueuesOk(n) && n.vacbs == c.vacbs && n.files == c.files && n.holders == c.holders
    requires n.nextId == c.nextId
    requires forall v :: v in n.limbo ==> v in c.limbo && n.limbo[v] == c.limbo[v]
    ensures Structure(n)
  {
    hide StripeOk, FileOk, QueuesOk, LimboOk;
    forall u | u in n.vacbs ensures StripeOk(n, u) {
      StripeFrame(c, n, u);
    }
    forall u | u in n.limbo ensures LimboOk(n, u) {
      LimboFrame(c, n, u);
    }
    forall f | f in n.files ensures FileOk(n, f) {
      FileFrame(c, n, f);
    }
  }

  lemma {:induction false} LruKeeps(c: Cc, v: nat)
    requires Structure(c) && v in c.vacbs
    ensures Structure(MoveToLruTail(c, v))
  {
    hide StripeOk, FileOk, LimboOk;
    var n := MoveToLruTail(c, v);
    ListsMoved(c.lru, c.vacbs.Keys, v);
    assert DirtySet(n) == DirtySet(c);
    RestKeeps(c, n);
  }

  /** Dropping the last reference of an unlinked stripe frees it. */
  lemma {:induction false} FreeKeeps(c: Cc, v: nat)
    requires Structure(c) && v in c.limbo
    ensures c.limbo[v].refs == 1 && Structure(c.(limbo := c.limbo - {v}))
  {
    hide StripeOk, FileOk;
    var n := c.(limbo := c.limbo - {v});
    assert LimboOk(c, v) && DirtySet(n) == DirtySet(c);
    RestKeeps(c, n);
  }

  lemma {:induction false} DirtyRoom(c: Cc, v: nat)
    requires Structure(c) && v in c.vacbs && c.vacbs[v].dirty
    ensures c.vacbs[v].file in c.files && c.vacbs[v].refs >= 2
    ensures c.totalDirty >= PAGES && c.files[c.vacbs[v].file].dirtyPages >= PAGES
  {
    assert StripeOk(c, v);
    var d := DirtyIn(c, c.vacbs[v].file);
    assert FileOk(c, c.vacbs[v].file);
    assert v in d && |d - {v}| == |d| - 1;
    assert v in DirtySet(c) && v in c.dirtyList;
  }

  lemma {:induction false} MarkKeepsFile(c: Cc, v: nat, f: nat)
    requires v in c.vacbs && !c.vacbs[v].dirty && c.vacbs[v].file in c.files && f in c.files && FileOk(c, f)
    ensures FileOk(MarkDirty(c, v), f)
  {
    hide ListOk;
    var n := MarkDirty(c, v);
    assert DirtyIn(n, f) == if f == c.vacbs[v].file then DirtyIn(c, f) + {v} else DirtyIn(c, f);
    SameList(c, n, f);
  }

  lemma {:induction false} MarkKeepsQueues(c: Cc, v: nat)
    requires v in c.vacbs && !c.vacbs[v].dirty && c.vacbs[v].file in c.files && QueuesOk(c)
    ensures QueuesOk(MarkDirty(c, v))
  {
    var n := MarkDirty(c, v);
    assert n.vacbs.Keys == c.vacbs.Keys;
    ListsMoved(c.lru, c.vacbs.Keys, v);
    assert DirtySet(n) == DirtySet(c) + {v};
    ListsAdded(c.dirtyList, DirtySet(c), v);
  }

  lemma {:induction false} MarkKeeps(c: Cc, v: nat)
    requires Structure(c) && v in c.vacbs && !c.vacbs[v].dirty && c.vacbs[v].valid
    ensures c.vacbs[v].file in c.files && Structure(MarkDirty(c, v))
  {
    hide FileOk, QueuesOk;
    assert StripeOk(c, v);
    var n := MarkDirty(c, v);
    MarkKeepsQueues(c, v);
    forall f | f in n.files ensures FileOk(n, f) {
      MarkKeepsFile(c, v, f);
    }
    forall u | u in n.vacbs ensures StripeOk(n, u) {
      assert StripeOk(c, u);
      if u != v { StripeFrame(c, n, u); }
    }
    forall u | u in n.limbo ensures LimboOk(n, u) {
      LimboFrame(c, n, u);
    }
  }

  ghost predicate MayUnmark(c: Cc, v: nat)
  {
    && v in c.vacbs && c.vacbs[v].dirty && c.vacbs[v].file in c.files && c.vacbs[v].refs >= 2
    && c.totalDirty >= PAGES && c.files[c.vacbs[v].file].dirtyPages >= PAGES
  }

  lemma {:induction false} UnmarkKeepsFile(c: Cc, v: nat, f: nat)
    requires MayUnmark(c, v) && f in c.files && FileOk(c, f)
    ensures FileOk(UnmarkDirty(c, v), f)
  {
    hide ListOk;
    var n := UnmarkDirty(c, v);
    assert DirtyIn(n, f) == if f == c.vacbs[v].file then DirtyIn(c, f) - {v} else DirtyIn(c, f);
    SameList(c, n, f);
  }

  lemma {:induction false} UnmarkKeepsQueues(c: Cc, v: nat)
    requires MayUnmark(c, v) && QueuesOk(c)
    ensures QueuesOk(UnmarkDirty(c, v))
  {
    var n := UnmarkDirty(c, v);
    assert n.vacbs.Keys == c.vacbs.Keys;
    assert DirtySet(n) == DirtySet(c) - {v};
    ListsRemoved(c.dirtyList, DirtySet(c), v);
    RemovedMembers(c.dirtyList, v);
  }

  lemma {:induction false} UnmarkKeeps(c: Cc, v: nat)
    requires Structure(c) && v in c.vacbs && c.vacbs[v].dirty
    ensures MayUnmark(c, v) && Structure(UnmarkDirty(c, v))
  {
    hide FileOk, QueuesOk;
    DirtyRoom(c, v);
    var n := UnmarkDirty(c, v);
    UnmarkKeepsQueues(c, v);
    forall f | f in n.files ensures FileOk(n, f) {
      UnmarkKeepsFile(c, v, f);
    }
    forall u | u in n.vacbs ensures StripeOk(n, u) {
      assert StripeOk(c, u);
      if u != v { StripeFrame(c, n, u); }
    }
    forall u | u in n.limbo ensures LimboOk(n, u) {
      LimboFrame(c, n, u);
    }
  }

  lemma {:induction false} Facts(c: Cc, v: nat)
    requires Structure(c) && v in c.vacbs
    ensures StripeOk(c, v)
  {
  }

  lemma {:induction false} ListFacts(c: Cc, f: nat)
    requires Structure(c) && f in c.files
    ensures ListOk(c, f)
  {
    hide StripeOk, QueuesOk, LimboOk, ListOk;
    assert FileOk(c, f);
  }

  lemma {:induction false} PutOnlyKeeps(c: Cc, v: nat, x: Vacb)
    requires Structure(c) && v in c.vacbs && v in c.holders
    requires x.file == c.vacbs[v].file && x.offset == c.vacbs[v].offset && x.dirty == c.vacbs[v].dirty
    requires |x.data| == G && (x.dirty ==> x.valid) && x.refs == 1 + Bit(x.dirty) + Bit(x.mapped > 0) + c.holders[v]
    ensures Structure(Put(c, v, x))
  {
    hide Structure;
    PutKeeps(c, v, x, c.holders[v]);
    assert c.holders[v := c.holders[v]] == c.holders;
  }

  lemma {:induction false} HoldKeeps(c: Cc, v: nat)
    requires Structure(c) && v in c.vacbs
    ensures v in c.holders && Structure(Hold(c, v))
  {
    hide Structure;
    Facts(c, v);
    PutKeeps(c, v, c.vacbs[v].(refs := c.vacbs[v].refs + 1), c.holders[v] + 1);
  }

  /** Giving a held reference back never drops the lists' own reference. */
  lemma {:induction false} UnholdKeeps(c: Cc, v: nat)
    requires Structure(c) && v in c.vacbs && v in c.holders && c.holders[v] > 0
    ensures c.vacbs[v].refs > 1 && Structure(Unhold(c, v))
  {
    hide Structure;
    Facts(c, v);
    PutKeeps(c, v, c.vacbs[v].(refs := c.vacbs[v].refs - 1), c.holders[v] - 1);
  }

  lemma {:induction false} SetValidKeeps(c: Cc, v: nat, valid: bool)
    requires Structure(c) && v in c.vacbs && (c.vacbs[v].dirty ==> valid)
    ensures Structure(SetValid(c, v, valid))
  {
    hide Structure;
    Facts(c, v);
    PutOnlyKeeps(c, v, c.vacbs[v].(valid := valid));
  }

  lemma {:induction false} MapKeeps(c: Cc, v: nat)
    requires Structure(c) && v in c.vacbs
    ensures Structure(MapOnce(c, v))
  {
    hide Structure;
    Facts(c, v);
    PutOnlyKeeps(c, v, MapOnce(c, v).vacbs[v]);
  }

  lemma {:induction false} UnmapKeeps(c: Cc, v: nat)
    requires Structure(c) && v in c.vacbs && c.vacbs[v].mapped > 0
    ensures c.vacbs[v].refs > 1 && Structure(UnmapOnce(c, v))
  {
    hide Structure;
    Facts(c, v);
    PutOnlyKeeps(c, v, UnmapOnce(c, v).vacbs[v]);
  }

  // ----- Unlinking and linking a stripe

  // Taking one element out keeps the others in order.
  lemma {:induction false} RemovedSorted(vacbs: map<nat, Vacb>, l: seq<nat>, v: nat)
    requires SortedBy(vacbs, l)
    ensures SortedBy(vacbs, Removed(l, v)) && forall u :: u in Removed(l, v) <==> u in l && u != v
  {
    if l != [] {
      var t := l[1..];
      assert l == [l[0]] + t;
      RemovedSorted(vacbs, t, v);
      if l[0] != v {
        SortedCons(vacbs, l[0], Removed(t, v));
      } else {
        assert forall u :: u in t ==> u != v;
      }
    }
  }

  lemma {:induction false} SortedCons(vacbs: map<nat, Vacb>, u: nat, l: seq<nat>)
    requires SortedBy(vacbs, l) && u in vacbs && forall w :: w in l ==> vacbs[u].offset < vacbs[w].offset
    ensures SortedBy(vacbs, [u] + l)
  {
  }

  // The same offsets in another map give the same order.
  lemma {:induction false} SortedFrame(a: map<nat, Vacb>, b: map<nat, Vacb>, l: seq<nat>)
    requires SortedBy(a, l) && forall u :: u in l ==> u in b && b[u].offset == a[u].offset
    ensures SortedBy(b, l)
  {
  }

  lemma {:induction false} UnlinkKeepsList(c: Cc, v: nat, f: nat)
    requires v in c.vacbs && c.vacbs[v].file in c.files && f in c.files && ListOk(c, f)
    ensures ListOk(Unlink(c, v), f)
  {
    var n := Unlink(c, v);
    RemovedSorted(c.vacbs, c.files[f].list, v);
    SortedFrame(c.vacbs, n.vacbs, n.files[f].list);
  }

  lemma {:induction false} UnlinkKeepsFile(c: Cc, v: nat, f: nat)
    requires v in c.vacbs && !c.vacbs[v].dirty && c.vacbs[v].file in c.files && f in c.files && FileOk(c, f)
    ensures FileOk(Unlink(c, v), f)
  {
    hide ListOk;
    assert DirtyIn(Unlink(c, v), f) == DirtyIn(c, f);
    UnlinkKeepsList(c, v, f);
  }

  lemma {:induction false} UnlinkKeepsQueues(c: Cc, v: nat)
    requires v in c.vacbs && !c.vacbs[v].dirty && c.vacbs[v].file in c.files && QueuesOk(c)
    ensures QueuesOk(Unlink(c, v))
  {
    var n := Unlink(c, v);
    assert n.vacbs.Keys == c.vacbs.Keys - {v} && DirtySet(n) == DirtySet(c);
    ListsRemoved(c.lru, c.vacbs.Keys, v);
  }

  /** Only a stripe that nobody uses is taken off the lists. */
  lemma {:induction false} UnlinkKeeps(c: Cc, v: nat)
    requires Structure(c) && v in c.vacbs && c.vacbs[v].refs == 1
    ensures !c.vacbs[v].dirty && c.vacbs[v].mapped == 0 && c.holders[v] == 0 && c.vacbs[v].file in c.files
    ensures Structure(Unlink(c, v))
  {
    hide FileOk, QueuesOk;
    assert StripeOk(c, v);
    var n := Unlink(c, v);
    UnlinkKeepsQueues(c, v);
    forall f | f in n.files ensures FileOk(n, f) {
      UnlinkKeepsFile(c, v, f);
    }
    forall u | u in n.vacbs ensures StripeOk(n, u) {
      assert StripeOk(c, u);
      if u != v { StripeFrame(c, n, u); }
    }
    forall u | u in n.limbo ensures LimboOk(n, u) {
      assert u != v ==> LimboOk(c, u);
    }
  }

  /** `k` is where a stripe at offset `o` belongs in the list of file `f`. */
  ghost predicate Slot(c: Cc, f: nat, o: nat, k: nat)
    requires f in c.files
  {
    var l := c.files[f].list;
    && k <= |l|
    && (forall i :: 0 <= i < k ==> l[i] in c.vacbs && c.vacbs[l[i]].offset < o)
    && (forall i :: k <= i < |l| ==> l[i] in c.vacbs && o < c.vacbs[l[i]].offset)
  }

  lemma {:induction false} InsertedMembers(l: seq<nat>, v: nat, k: nat)
    requires k <= |l|
    ensures forall u :: u in l[..k] + [v] + l[k..] <==> u == v || u in l
  {
    assert l == l[..k] + l[k..];
  }

  lemma {:induction false} InsertedSorted(vacbs: map<nat, Vacb>, l: seq<nat>, v: nat, k: nat)
    requires SortedBy(vacbs, l) && k <= |l| && v in vacbs
    requires forall i :: 0 <= i < k ==> vacbs[l[i]].offset < vacbs[v].offset
    requires forall i :: k <= i < |l| ==> vacbs[v].offset < vacbs[l[i]].offset
    ensures SortedBy(vacbs, l[..k] + [v] + l[k..])
  {
    var m := l[..k] + [v] + l[k..];
    InsertedMembers(l, v, k);
    assert forall i :: 0 <= i < |m| && i != k ==> m[i] == l[if i < k then i else i - 1];
  }

  lemma {:induction false} LinkKeepsList(c: Cc, v: nat, g: nat, o: nat, data: seq<byte>, k: nat, f: nat)
    requires v !in c.vacbs && f in c.files && g in c.files && ListOk(c, f) && Slot(c, g, o, k)
    ensures ListOk(Link(c, v, g, o, data, k), f)
  {
    var n := Link(c, v, g, o, data, k);
    SortedFrame(c.vacbs, n.vacbs, c.files[f].list);
    if f == g {
      InsertedSorted(n.vacbs, c.files[f].list, v, k);
      InsertedMembers(c.files[f].list, v, k);
    }
  }

  lemma {:induction false} LinkKeepsFile(c: Cc, v: nat, g: nat, o: nat, data: seq<byte>, k: nat, f: nat)
    requires v !in c.vacbs && f in c.files && g in c.files && FileOk(c, f) && Slot(c, g, o, k)
    ensures FileOk(Link(c, v, g, o, data, k), f)
  {
    hide ListOk;
    assert DirtyIn(Link(c, v, g, o, data, k), f) == DirtyIn(c, f);
    LinkKeepsList(c, v, g, o, data, k, f);
  }

  lemma {:induction false} LinkKeepsQueues(c: Cc, v: nat, f: nat, o: nat, data: seq<byte>, k: nat)
    requires v !in c.vacbs && f in c.files && k <= |c.files[f].list| && QueuesOk(c)
    ensures QueuesOk(Link(c, v, f, o, data, k))
  {
    var n := Link(c, v, f, o, data, k);
    assert n.vacbs.Keys == c.vacbs.Keys + {v} && DirtySet(n) == DirtySet(c);
    ListsAdded(c.lru, c.vacbs.Keys, v);
  }

  lemma {:induction false} LinkKeeps(c: Cc, f: nat, o: nat, data: seq<byte>, k: nat)
    requires Structure(c) && f in c.files && |data| == G && Aligned(o) && o < c.files[f].section && Slot(c, f, o, k)
    ensures c.nextId !in c.vacbs && Structure(Link(c, c.nextId, f, o, data, k))
  {
    hide FileOk, QueuesOk;
    var v := c.nextId;
    assert v in c.vacbs ==> StripeOk(c, v);
    assert v in c.limbo ==> LimboOk(c, v);
    var n := Link(c, v, f, o, data, k);
    LinkKeepsQueues(c, v, f, o, data, k);
    forall g | g in n.files ensures FileOk(n, g) {
      LinkKeepsFile(c, v, f, o, data, k, g);
    }
    forall u | u in n.vacbs ensures StripeOk(n, u) {
      if u != v {
        assert StripeOk(c, u);
        StripeFrame(c, n, u);
      }
    }
    forall u | u in n.limbo ensures LimboOk(n, u) {
      LimboFrame(c, n, u);
    }
  }

  /** Page totals: the global count is the sum of the per-file counts. */
  ghost function SumDirty(c: Cc, fs: set<nat>): nat
    requires fs <= c.files.Keys
    decreases |fs|
  {
    if fs == {} then 0
    else
      var f :| f in fs;
      c.files[f].dirtyPages + SumDirty(c, fs - {f})
  }

  ghost function DirtyAmong(c: Cc, fs: set<nat>): set<nat>
  {
    set v | v in c.vacbs && c.vacbs[v].dirty && c.vacbs[v].file in fs
  }

  lemma {:induction false} SumDirtyIs(c: Cc, fs: set<nat>)
    requires Structure(c) && fs <= c.files.Keys
    ensures SumDirty(c, fs) == Pages(|DirtyAmong(c, fs)|)
    decreases |fs|
  {
    hide StripeOk, ListOk, QueuesOk, LimboOk;
    if fs == {} {
      assert DirtyAmong(c, fs) == {};
    } else {
      var f :| f in fs && SumDirty(c, fs) == c.files[f].dirtyPages + SumDirty(c, fs - {f});
      SumDirtyIs(c, fs - {f});
      assert FileOk(c, f);
      assert DirtyAmong(c, fs) == DirtyAmong(c, fs - {f}) + DirtyIn(c, f);
      assert DirtyAmong(c, fs - {f}) !! DirtyIn(c, f);
    }
  }

  lemma {:induction false} TotalIsSum(c: Cc)
    requires Structure(c)
    ensures c.totalDirty == SumDirty(c, c.files.Keys)
  {
    SumDirtyIs(c, c.files.Keys);
    assert DirtyAmong(c, c.files.Keys) == DirtySet(c) by {
      assert forall v :: v in c.vacbs ==> StripeOk(c, v);
    }
    ListsSize(c.dirtyList, DirtySet(c));
  }
}
