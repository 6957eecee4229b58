/** What the cache means: a plain byte array per file. `m` maps each file to the bytes that reads must
    return; the cached stripes and the medium together represent it. */
module CacheData {
  import opened Bytes
  import opened Seqs
  import opened CacheState

  function Splice(s: seq<byte>, a: nat, b: seq<byte>): (r: seq<byte>)
    requires a + |b| <= |s|
    ensures |r| == |s|
  {
    seq(|s|, i requires 0 <= i < |s| => if a <= i < a + |b| then b[i - a] else s[i])
  }

  /** CcReadVirtualAddress: the stripe's part of the section, zeroes beyond its end. */
  function Filled(d: seq<byte>, o: nat): (r: seq<byte>)
    ensures |r| == G
  {
    seq(G, i requires 0 <= i < G => if o + i < |d| then d[o + i] else 0)
  }

  /** CcWriteVirtualAddress: the stripe's bytes inside the section. */
  function WrittenBack(d: seq<byte>, o: nat, data: seq<byte>): (r: seq<byte>)
    requires |data| == G
    ensures |r| == |d|
  {
    seq(|d|, p requires 0 <= p < |d| => if o <= p < o + G then data[p - o] else d[p])
  }

  ghost predicate Covers(x: Vacb, f: nat, p: nat)
  {
    x.file == f && x.offset <= p < x.offset + G
  }

  ghost predicate DirtyAt(c: Cc, f: nat, p: nat)
  {
    exists v :: v in c.vacbs && c.vacbs[v].dirty && Covers(c.vacbs[v], f, p)
  }

  /** A valid stripe holds the file's bytes. */
  ghost predicate StripeHolds(x: Vacb, m: map<nat, seq<byte>>)
  {
    && x.file in m && |x.data| == G
    && (x.valid ==> forall i :: 0 <= i < G && x.offset + i < |m[x.file]| ==> x.data[i] == m[x.file][x.offset + i])
  }

  ghost predicate SizesOk(c: Cc, m: map<nat, seq<byte>>)
  {
    && m.Keys == c.files.Keys && c.disk.Keys == c.files.Keys
    && (forall f :: f in c.files ==>
          |m[f]| == c.files[f].section && |c.disk[f]| == c.files[f].section &&
              c.files[f].fileSize <= c.files[f].section)
  }

  /** Where no dirty stripe covers it, the medium holds the file's bytes. */
  ghost predicate DiskHolds(c: Cc, m: map<nat, seq<byte>>)
    requires SizesOk(c, m)
  {
    forall f, p :: f in c.files && 0 <= p < |m[f]| && !DirtyAt(c, f, p) ==> c.disk[f][p] == m[f][p]
  }

  ghost predicate Refines(c: Cc, m: map<nat, seq<byte>>)
  {
    SizesOk(c, m) && (forall v :: v in c.vacbs ==> StripeHolds(c.vacbs[v], m)) && DiskHolds(c, m)
  }

  // ----- Stripes of one file do not overlap

  lemma {:induction false} AlignedApart(a: nat, b: nat)
    requires Aligned(a) && Aligned(b) && a < b
    ensures a + G <= b
  {
  }

  lemma {:induction false} Unique(c: Cc, u: nat, v: nat, f: nat, p: nat)
    requires Structure(c) && u in c.vacbs && v in c.vacbs && Covers(c.vacbs[u], f, p) && Covers(c.vacbs[v], f, p)
    ensures u == v
  {
    hide QueuesOk, LimboOk;
    assert StripeOk(c, u) && StripeOk(c, v) && FileOk(c, f);
    var l := c.files[f].list;
    assert u in l && v in l;
    var i :| 0 <= i < |l| && l[i] == u;
    var j :| 0 <= j < |l| && l[j] == v;
    if c.vacbs[u].offset < c.vacbs[v].offset {
      AlignedApart(c.vacbs[u].offset, c.vacbs[v].offset);
    } else if c.vacbs[v].offset < c.vacbs[u].offset {
      AlignedApart(c.vacbs[v].offset, c.vacbs[u].offset);
    }
  }

  // ----- Each change of the cache keeps the meaning, or changes it as stated

  ghost predicate SameBytes(x: Vacb, y: Vacb)
  {
    x.file == y.file && x.offset == y.offset && x.data == y.data && x.valid == y.valid
  }

  ghost predicate SameSections(c: Cc, n: Cc)
  {
    && n.files.Keys == c.files.Keys
    && forall f :: f in c.files ==>
        n.files[f].section == c.files[f].section && n.files[f].fileSize == c.files[f].fileSize
  }

  /** Reference counts, list orders, clean stripes coming and going, and what happens to the medium
      below a dirty stripe: no byte of the file changes. */
  lemma {:induction false} QuietKeeps(c: Cc, n: Cc, m: map<nat, seq<byte>>)
    requires Refines(c, m) && SameSections(c, n) && n.disk.Keys == c.disk.Keys
    requires forall f :: f in c.disk ==> |n.disk[f]| == |c.disk[f]|
    requires forall f, p :: f in c.disk && 0 <= p < |c.disk[f]| && !DirtyAt(n, f, p) ==> n.disk[f][p] == c.disk[f][p]
    requires forall v :: v in n.vacbs ==>
               if v in c.vacbs then SameBytes(n.vacbs[v], c.vacbs[v])
               else !n.vacbs[v].valid && n.vacbs[v].file in m && |n.vacbs[v].data| == G
    requires forall v :: v in c.vacbs && c.vacbs[v].dirty ==> v in n.vacbs && n.vacbs[v].dirty
    ensures Refines(n, m)
  {
    forall v | v in n.vacbs ensures StripeHolds(n.vacbs[v], m) {
      if v in c.vacbs { assert StripeHolds(c.vacbs[v], m); }
    }
    forall f, p | DirtyAt(c, f, p) ensures DirtyAt(n, f, p) {
      var v :| v in c.vacbs && c.vacbs[v].dirty && Covers(c.vacbs[v], f, p);
      assert Covers(n.vacbs[v], f, p);
    }
  }

  lemma {:induction false} WriteBackByte(c: Cc, n: Cc, v: nat, m: map<nat, seq<byte>>, f: nat, p: nat)
    requires v in c.vacbs && StripeHolds(c.vacbs[v], m) && c.vacbs[v].valid && f in m && p < |m[f]|
    requires f in c.disk && |c.disk[f]| == |m[f]| && (DirtyAt(c, f, p) || c.disk[f][p] == m[f][p])
    requires forall u :: u in c.vacbs && u != v && c.vacbs[u].dirty ==>
               u in n.vacbs && n.vacbs[u].dirty && SameBytes(n.vacbs[u], c.vacbs[u])
    requires var x := c.vacbs[v];
             x.file in c.disk && n.disk == c.disk[x.file := WrittenBack(c.disk[x.file], x.offset, x.data)]
    ensures DirtyAt(n, f, p) || n.disk[f][p] == m[f][p]
  {
    var x := c.vacbs[v];
    if Covers(x, f, p) {
      assert x.data[p - x.offset] == m[f][x.offset + (p - x.offset)];
    } else if DirtyAt(c, f, p) {
      var u :| u in c.vacbs && c.vacbs[u].dirty && Covers(c.vacbs[u], f, p);
      assert Covers(n.vacbs[u], f, p);
    }
  }

  /** Writing a dirty stripe back and calling it clean. */
  lemma {:induction false} WriteBackKeeps(c: Cc, n: Cc, v: nat, m: map<nat, seq<byte>>)
    requires Refines(c, m) && v in c.vacbs && c.vacbs[v].valid && SameSections(c, n)
    requires n.vacbs.Keys == c.vacbs.Keys
    requires forall u :: u in c.vacbs ==>
               SameBytes(n.vacbs[u], c.vacbs[u]) && (u != v ==> n.vacbs[u].dirty == c.vacbs[u].dirty)
    requires var x := c.vacbs[v];
             x.file in c.disk && |x.data| == G &&
                 n.disk == c.disk[x.file := WrittenBack(c.disk[x.file], x.offset, x.data)]
    ensures Refines(n, m)
  {
    hide DirtyAt;
    forall u | u in n.vacbs ensures StripeHolds(n.vacbs[u], m) {
      assert StripeHolds(c.vacbs[u], m);
    }
    forall f, p | f in n.files && 0 <= p < |m[f]| && !DirtyAt(n, f, p) ensures n.disk[f][p] == m[f][p] {
      WriteBackByte(c, n, v, m, f, p);
    }
  }

  /** Reading an invalid stripe from the medium makes it hold the file's bytes. */
  lemma {:induction false} FillHolds(c: Cc, v: nat, m: map<nat, seq<byte>>)
    requires Structure(c) && Refines(c, m) && v in c.vacbs && !c.vacbs[v].valid
    ensures c.vacbs[v].file in c.disk
    ensures StripeHolds(c.vacbs[v].(data := Filled(c.disk[c.vacbs[v].file], c.vacbs[v].offset), valid := true), m)
  {
    hide QueuesOk, LimboOk, FileOk;
    var x := c.vacbs[v];
    assert StripeOk(c, v);
    forall i | 0 <= i < G && x.offset + i < |m[x.file]|
      ensures Filled(c.disk[x.file], x.offset)[i] == m[x.file][x.offset + i]
    {
      var p := x.offset + i;
      if DirtyAt(c, x.file, p) {
        var u :| u in c.vacbs && c.vacbs[u].dirty && Covers(c.vacbs[u], x.file, p);
        Unique(c, u, v, x.file, p);
      }
    }
  }

  lemma {:induction false} StoredHolds(x: Vacb, y: Vacb, at: nat, b: seq<byte>, m: map<nat, seq<byte>>)
    requires StripeHolds(x, m) && at + |b| <= G && x.offset + at + |b| <= |m[x.file]| && (x.valid || |b| == G)
    requires y.file == x.file && y.offset == x.offset && y.data == Splice(x.data, at, b)
    ensures StripeHolds(y, m[x.file := Splice(m[x.file], x.offset + at, b)])
  {
  }

  lemma {:induction false} SameBytesHold(x: Vacb, y: Vacb, m: map<nat, seq<byte>>)
    requires SameBytes(x, y) && StripeHolds(y, m)
    ensures StripeHolds(x, m)
  {
  }

  // Bytes stored in one stripe are outside every other stripe.
  lemma {:induction false} StoreMissesOther(c: Cc, u: nat, v: nat, at: nat, b: seq<byte>, m: map<nat, seq<byte>>)
    requires Structure(c) && v in c.vacbs && u in c.vacbs && u != v && at + |b| <= G && StripeHolds(c.vacbs[u], m)
    requires c.vacbs[v].file in m && c.vacbs[v].offset + at + |b| <= |m[c.vacbs[v].file]|
    ensures var x := c.vacbs[v]; StripeHolds(c.vacbs[u], m[x.file := Splice(m[x.file], x.offset + at, b)])
  {
    hide Structure;
    var x, y := c.vacbs[v], c.vacbs[u];
    if y.file == x.file && y.valid {
      var s := Splice(m[x.file], x.offset + at, b);
      forall i | 0 <= i < G && y.offset + i < |s| ensures y.data[i] == s[y.offset + i] {
        var p := y.offset + i;
        if x.offset <= p < x.offset + G {
          Unique(c, u, v, x.file, p);
        }
      }
    }
  }

  /** Copying bytes into a stripe, when it is valid or covered entirely, and marking it dirty, changes
      the file by just these bytes. */
  lemma {:induction false} StoreKeeps(c: Cc, n: Cc, v: nat, at: nat, b: seq<byte>, m: map<nat, seq<byte>>)
    requires Structure(c) && Refines(c, m) && v in c.vacbs && at + |b| <= G
    requires c.vacbs[v].valid || |b| == G
    requires var x := c.vacbs[v];
             && |x.data| == G && x.file in m && x.offset + at + |b| <= |m[x.file]|
             && v in n.vacbs && n.vacbs[v].file == x.file && n.vacbs[v].offset == x.offset
             && n.vacbs[v].data == Splice(x.data, at, b) && n.vacbs[v].dirty
    requires SameSections(c, n) && n.disk == c.disk && n.vacbs.Keys == c.vacbs.Keys
    requires forall u :: u in c.vacbs && u != v ==>
               SameBytes(n.vacbs[u], c.vacbs[u]) && n.vacbs[u].dirty == c.vacbs[u].dirty
    ensures var x := c.vacbs[v]; Refines(n, m[x.file := Splice(m[x.file], x.offset + at, b)])
  {
    hide Structure;
    var x := c.vacbs[v];
    var m' := m[x.file := Splice(m[x.file], x.offset + at, b)];
    StoredHolds(x, n.vacbs[v], at, b, m);
    hide StripeHolds;
    forall u | u in n.vacbs && u != v ensures StripeHolds(n.vacbs[u], m') {
      StoreMissesOther(c, u, v, at, b, m);
      SameBytesHold(n.vacbs[u], c.vacbs[u], m');
    }
    StoredOverDisk(c, n, v, at, b, m);
  }

  // Where the medium does not hold the new bytes, a dirty stripe does.
  lemma {:induction false} StoredOverDisk(c: Cc, n: Cc, v: nat, at: nat, b: seq<byte>, m: map<nat, seq<byte>>)
    requires SizesOk(c, m) && DiskHolds(c, m) && v in c.vacbs && at + |b| <= G && SameSections(c, n) && n.disk == c.disk
    requires var x := c.vacbs[v];
             && x.file in m && x.offset + at + |b| <= |m[x.file]|
             && v in n.vacbs && n.vacbs[v].file == x.file && n.vacbs[v].offset == x.offset && n.vacbs[v].dirty
    requires forall u :: u in c.vacbs && u != v ==>
               u in n.vacbs && SameBytes(n.vacbs[u], c.vacbs[u]) && n.vacbs[u].dirty == c.vacbs[u].dirty
    ensures var x := c.vacbs[v];
            var m' := m[x.file := Splice(m[x.file], x.offset + at, b)];
            SizesOk(n, m') && DiskHolds(n, m')
  {
    var x := c.vacbs[v];
    forall f, p | DirtyAt(c, f, p) ensures DirtyAt(n, f, p) {
      var u :| u in c.vacbs && c.vacbs[u].dirty && Covers(c.vacbs[u], f, p);
      assert Covers(n.vacbs[u], f, p);
    }
    forall p | Covers(x, x.file, p) ensures DirtyAt(n, x.file, p) {
      assert Covers(n.vacbs[v], x.file, p);
    }
  }

  /** A change that touches no stripe's bytes, dirty flag or place, and no byte of the medium. */
  lemma {:induction false} BookkeepingKeeps(c: Cc, n: Cc, m: map<nat, seq<byte>>)
    requires Refines(c, m) && SameSections(c, n) && n.disk == c.disk
    requires forall v :: v in n.vacbs ==>
               if v in c.vacbs then SameBytes(n.vacbs[v], c.vacbs[v])
               else !n.vacbs[v].valid && n.vacbs[v].file in m && |n.vacbs[v].data| == G
    requires forall v :: v in c.vacbs && c.vacbs[v].dirty ==> v in n.vacbs && n.vacbs[v].dirty
    ensures Refines(n, m)
  {
    hide DirtyAt, StripeHolds;
    QuietKeeps(c, n, m);
  }

  // ----- What an operation leaves alone

  ghost predicate InUse(c: Cc, u: nat)
  {
    u in c.vacbs && u in c.holders && (c.holders[u] > 0 || c.vacbs[u].mapped > 0)
  }

  /** Stripes that somebody holds or has mapped are still there, in the same place, held and mapped as before. */
  ghost predicate Kept(c: Cc, n: Cc)
  {
    && SameSections(c, n)
    && (forall u :: InUse(c, u) ==>
          && u in n.vacbs && u in n.holders && n.holders[u] == c.holders[u]
          && n.vacbs[u].file == c.vacbs[u].file && n.vacbs[u].offset == c.vacbs[u].offset
          && n.vacbs[u].mapped == c.vacbs[u].mapped)
  }

  lemma {:induction false} KeptTransitive(a: Cc, b: Cc, c: Cc)
    requires Kept(a, b) && Kept(b, c)
    ensures Kept(a, c)
  {
  }

  /** `n` is `c` with some unused clean stripes taken away; those not in `rest` that remain are in use or dirty. */
  ghost predicate Pruned(c: Cc, n: Cc, rest: seq<nat>)
  {
    && SameSections(c, n) && n.disk == c.disk && n.holders == c.holders
    && (forall v :: v in rest ==> v in n.vacbs)
    && (forall v :: v in n.vacbs ==> v in c.vacbs && n.vacbs[v] == c.vacbs[v] && (v in rest || n.vacbs[v].refs >= 2))
    && (forall v :: v in c.vacbs && v !in n.vacbs ==> !InUse(c, v) && !c.vacbs[v].dirty)
  }

  lemma {:induction false} PrunedStep(c: Cc, n: Cc, rest: seq<nat>, t: Cc)
    requires Pruned(c, n, rest) && Distinct(rest) && rest != [] && rest[0] in n.vacbs
    requires n.vacbs[rest[0]].file in n.files
    ensures Distinct(rest[1..])
    requires if n.vacbs[rest[0]].refs >= 2 then t == n
             else t == Unlink(n, rest[0]) && !InUse(n, rest[0]) && !n.vacbs[rest[0]].dirty
    ensures Pruned(c, t, rest[1..])
  {
    assert rest[0] in rest && rest == [rest[0]] + rest[1..];
  }

  lemma {:induction false} PrunedHead(c: Cc, n: Cc, rest: seq<nat>)
    requires Pruned(c, n, rest) && rest != []
    ensures rest[0] in n.vacbs
  {
  }

  lemma {:induction false} PrunedStart(c: Cc)
    requires Structure(c)
    ensures Distinct(c.lru) && Pruned(c, c, c.lru)
  {
  }

  lemma {:induction false} PrunedEnd(c: Cc, n: Cc, t: Cc)
    requires Structure(c) && Pruned(c, n, []) && t == n.(limbo := map[])
    ensures Pruned(c, t, []) && Kept(c, t)
  {
    hide FileOk, QueuesOk, LimboOk;
    forall u | u in c.vacbs ensures u in c.holders {
      assert StripeOk(c, u);
    }
  }

  /** The caller now holds `v`, which covers `off`; giving it back would leave everything as before. */
  ghost predicate Gotten(c: Cc, n: Cc, v: nat, f: nat, off: nat)
  {
    && v in n.vacbs && v in n.holders && n.holders[v] > 0 && n.vacbs[v].refs > 0
    && Covers(n.vacbs[v], f, off) && Kept(c, Unhold(n, v))
  }

  lemma {:induction false} HeldIsGotten(c: Cc, v: nat, f: nat, off: nat)
    requires Structure(c) && v in c.vacbs && v in c.holders && Covers(c.vacbs[v], f, off)
    ensures Gotten(c, Hold(c, v), v, f, off)
  {
    hide Structure;
    assert Unhold(Hold(c, v), v).vacbs == c.vacbs;
  }

  lemma {:induction false} LinkedIsGotten(c: Cc, v: nat, f: nat, o: nat, data: seq<byte>, k: nat, off: nat)
    requires v !in c.vacbs && f in c.files && k <= |c.files[f].list| && o <= off < o + G
    ensures Gotten(c, Link(c, v, f, o, data, k), v, f, off)
  {
  }

  lemma {:induction false} GottenFrom(a: Cc, b: Cc, n: Cc, v: nat, f: nat, off: nat)
    requires Kept(a, b) && Gotten(b, n, v, f, off)
    ensures Gotten(a, n, v, f, off)
  {
    KeptTransitive(a, b, Unhold(n, v));
  }

  lemma {:induction false} GottenLru(c: Cc, n: Cc, v: nat, f: nat, off: nat)
    requires Gotten(c, n, v, f, off)
    ensures Gotten(c, MoveToLruTail(n, v), v, f, off)
  {
  }

  lemma {:induction false} GottenMember(c: Cc, n: Cc, v: nat, f: nat, off: nat)
    requires Gotten(c, n, v, f, off)
    ensures v in n.vacbs && v in n.holders && n.holders[v] > 0 && Covers(n.vacbs[v], f, off)
  {
  }

  lemma {:induction false} KeptRefl(c: Cc)
    ensures Kept(c, c)
  {
  }

  lemma {:induction false} KeptFiles(c: Cc, n: Cc, f: nat)
    requires Kept(c, n) && f in c.files
    ensures f in n.files && n.files[f].section == c.files[f].section && n.files[f].fileSize == c.files[f].fileSize
  {
  }

  lemma {:induction false} SlotRange(c: Cc, f: nat, o: nat, k: nat)
    requires f in c.files && Slot(c, f, o, k)
    ensures k <= |c.files[f].list|
  {
  }

  lemma {:induction false} SectionsOf(c: Cc, m: map<nat, seq<byte>>, f: nat)
    requires Refines(c, m) && f in c.files
    ensures f in m && f in c.disk && |m[f]| == c.files[f].section == |c.disk[f]| && c.files[f].fileSize <= |m[f]|
  {
  }

  // ----- Releasing and copying

  /** `n` is `c` after CcRosReleaseVacb on `v`. */
  ghost predicate ReleasedTo(c: Cc, n: Cc, v: nat, valid: bool, dirty: bool)
  {
    && v in c.vacbs && v in c.holders && c.holders[v] > 0
    && n.vacbs.Keys == c.vacbs.Keys && (forall u :: u in c.vacbs && u != v ==> n.vacbs[u] == c.vacbs[u])
    && n.vacbs[v] == c.vacbs[v].(valid := valid, dirty := c.vacbs[v].dirty || dirty, refs := n.vacbs[v].refs)
    && n.holders == c.holders[v := c.holders[v] - 1] && n.disk == c.disk && n.limbo == c.limbo && SameSections(c, n)
  }

  lemma {:induction false} ReleaseSteps(c: Cc, v: nat, valid: bool, dirty: bool)
    requires v in c.vacbs && v in c.holders && c.holders[v] > 0 && c.vacbs[v].refs > 0 && c.vacbs[v].file in c.files
    ensures var a := SetValid(c, v, valid);
            var b := if dirty && !a.vacbs[v].dirty then MarkDirty(a, v) else a;
            b.vacbs[v].refs > 0 && ReleasedTo(c, Unhold(b, v), v, valid, dirty)
  {
  }

  /** The same, with one more mapping. */
  ghost predicate ReleasedMapped(c: Cc, n: Cc, v: nat, valid: bool, dirty: bool)
  {
    && v in c.vacbs && v in c.holders && c.holders[v] > 0
    && n.vacbs.Keys == c.vacbs.Keys && (forall u :: u in c.vacbs && u != v ==> n.vacbs[u] == c.vacbs[u])
    && n.vacbs[v] == c.vacbs[v].(valid := valid, dirty := c.vacbs[v].dirty || dirty, mapped := c.vacbs[v].mapped + 1,
                                 refs := n.vacbs[v].refs)
    && n.holders == c.holders[v := c.holders[v] - 1] && n.disk == c.disk && n.limbo == c.limbo && SameSections(c, n)
  }

  lemma {:induction false} ReleaseMappedSteps(c: Cc, v: nat, valid: bool, dirty: bool)
    requires v in c.vacbs && v in c.holders && c.holders[v] > 0 && c.vacbs[v].refs > 0 && c.vacbs[v].file in c.files
    ensures var a := SetValid(c, v, valid);
            var b := MapOnce(if dirty && !a.vacbs[v].dirty then MarkDirty(a, v) else a, v);
            b.vacbs[v].refs > 0 && ReleasedMapped(c, Unhold(b, v), v, valid, dirty)
  {
  }

  lemma {:induction false} ReleasedKept(b: Cc, c: Cc, n: Cc, v: nat, valid: bool, dirty: bool, f: nat, off: nat)
    requires Gotten(b, c, v, f, off) && ReleasedTo(c, n, v, valid, dirty)
    ensures Kept(b, n)
  {
    assert Kept(b, Unhold(c, v));
    forall u | InUse(b, u)
      ensures u in n.vacbs && u in n.holders && n.holders[u] == b.holders[u]
      ensures n.vacbs[u].file == b.vacbs[u].file && n.vacbs[u].offset == b.vacbs[u].offset
      ensures n.vacbs[u].mapped == b.vacbs[u].mapped
    {
      assert u in Unhold(c, v).vacbs;
    }
  }

  // Changing the bytes of a held stripe does not change who holds what.
  lemma {:induction false} GottenData(b: Cc, c: Cc, v: nat, f: nat, off: nat, data: seq<byte>)
    requires Gotten(b, c, v, f, off)
    ensures Gotten(b, Put(c, v, c.vacbs[v].(data := data)), v, f, off)
  {
  }

  /** Declaring a stripe valid is sound when it holds the file's bytes. */
  lemma {:induction false} ValidateKeeps(c: Cc, n: Cc, v: nat, m: map<nat, seq<byte>>)
    requires Refines(c, m) && v in c.vacbs && SameSections(c, n) && n.disk == c.disk && n.vacbs.Keys == c.vacbs.Keys
    requires forall u :: u in c.vacbs && u != v ==> n.vacbs[u] == c.vacbs[u]
    requires n.vacbs[v].file == c.vacbs[v].file && n.vacbs[v].offset == c.vacbs[v].offset
    requires (c.vacbs[v].dirty ==> n.vacbs[v].dirty) && StripeHolds(n.vacbs[v], m)
    ensures Refines(n, m)
  {
    hide StripeHolds;
    forall f, p | DirtyAt(c, f, p) ensures DirtyAt(n, f, p) {
      var u :| u in c.vacbs && c.vacbs[u].dirty && Covers(c.vacbs[u], f, p);
      assert Covers(n.vacbs[u], f, p);
    }
  }

  lemma {:induction false} SliceHolds(x: Vacb, m: map<nat, seq<byte>>, at: nat, n: nat)
    requires StripeHolds(x, m) && x.valid && at + n <= G && x.offset + at + n <= |m[x.file]|
    ensures x.data[at..at + n] == m[x.file][x.offset + at..x.offset + at + n]
  {
  }

  // A stripe that was filled from the medium, or was valid before, can be declared valid.
  lemma {:induction false} ReadyHolds(c: Cc, c1: Cc, v: nat, m: map<nat, seq<byte>>, filled: bool)
    requires Structure(c) && Refines(c, m) && v in c.vacbs
    requires if filled then !c.vacbs[v].valid && c.vacbs[v].file in c.disk
                            && c1 == Put(c, v, c.vacbs[v].(data := Filled(c.disk[c.vacbs[v].file], c.vacbs[v].offset)))
             else c1 == c && c.vacbs[v].valid
    ensures v in c1.vacbs && StripeHolds(c1.vacbs[v].(valid := true), m)
  {
    hide Structure;
    if filled {
      FillHolds(c, v, m);
    } else {
      assert c.vacbs[v].(valid := true) == c.vacbs[v];
    }
  }

  // Anything may be in the memory of an invalid stripe.
  lemma {:induction false} ScratchKeeps(c: Cc, v: nat, m: map<nat, seq<byte>>, data: seq<byte>)
    requires Structure(c) && Refines(c, m) && v in c.vacbs && !c.vacbs[v].valid && |data| == G
    ensures Structure(Put(c, v, c.vacbs[v].(data := data))) && Refines(Put(c, v, c.vacbs[v].(data := data)), m)
  {
    hide Structure;
    Facts(c, v);
    PutOnlyKeeps(c, v, c.vacbs[v].(data := data));
    assert StripeHolds(c.vacbs[v], m);
    ValidateKeeps(c, Put(c, v, c.vacbs[v].(data := data)), v, m);
  }

  /** The end of a read: releasing a stripe as valid when it holds the file's bytes. */
  lemma {:induction false} ReleaseAfterRead(c: Cc, n: Cc, v: nat, m: map<nat, seq<byte>>)
    requires Refines(c, m) && ReleasedTo(c, n, v, true, false) && StripeHolds(c.vacbs[v].(valid := true), m)
    ensures Refines(n, m)
  {
    hide Refines, StripeHolds;
    SameBytesHold(n.vacbs[v], c.vacbs[v].(valid := true), m);
    ValidateKeeps(c, n, v, m);
  }

  lemma {:induction false} ReleaseAfterFailure(c: Cc, n: Cc, v: nat, m: map<nat, seq<byte>>)
    requires Refines(c, m) && ReleasedTo(c, n, v, false, false)
    ensures Refines(n, m)
  {
    assert StripeHolds(c.vacbs[v], m);
    ValidateKeeps(c, n, v, m);
  }

  /** The end of a write: `c1` is the stripe before the copy, `c2` after it, `n` after the release. */
  lemma {:induction false} ReleaseAfterWrite(c1: Cc, c2: Cc, n: Cc, v: nat, at: nat, b: seq<byte>, m: map<nat,
                                             seq<byte>>)
    requires Structure(c1) && Refines(c1, m) && v in c1.vacbs && at + |b| <= G && |c1.vacbs[v].data| == G
    requires c1.vacbs[v].file in m && c1.vacbs[v].offset + at + |b| <= |m[c1.vacbs[v].file]|
    requires |b| == G || StripeHolds(c1.vacbs[v].(valid := true), m)
    requires c2 == Put(c1, v, c1.vacbs[v].(data := Splice(c1.vacbs[v].data, at, b)))
    requires ReleasedTo(c2, n, v, true, true)
    ensures var x := c1.vacbs[v]; Refines(n, m[x.file := Splice(m[x.file], x.offset + at, b)])
  {
    hide Structure, Refines, StripeHolds;
    var x := c1.vacbs[v];
    if |b| == G {
      StoreKeeps(c1, n, v, at, b, m);
    } else {
      var d := SetValid(c1, v, true);
      SetValidKeeps(c1, v, true);
      ValidateKeeps(c1, d, v, m);
      StoreKeeps(d, n, v, at, b, m);
    }
  }

  lemma {:induction false} SpliceTwice(s: seq<byte>, a: nat, b1: seq<byte>, b2: seq<byte>)
    requires a + |b1| + |b2| <= |s|
    ensures Splice(Splice(s, a, b1), a + |b1|, b2) == Splice(s, a, b1 + b2)
  {
  }

  lemma {:induction false} SpliceNothing(s: seq<byte>, a: nat)
    requires a <= |s|
    ensures Splice(s, a, []) == s
  {
  }

  lemma {:induction false} GottenAt(c: Cc, n: Cc, v: nat, f: nat, off: nat)
    requires Structure(n) && Gotten(c, n, v, f, RoundDown(off))
    ensures v in n.vacbs && v in n.holders && n.holders[v] > 0
    ensures n.vacbs[v].file == f && n.vacbs[v].offset == RoundDown(off) && f in n.files
  {
    hide FileOk, QueuesOk, LimboOk;
    assert StripeOk(n, v);
  }

  lemma {:induction false} NotDirty(c: Cc, v: nat)
    requires Structure(c) && v in c.vacbs && !c.vacbs[v].valid
    ensures !c.vacbs[v].dirty
  {
    hide FileOk, QueuesOk, LimboOk;
    assert StripeOk(c, v);
  }

  lemma {:induction false} ReleasedLimbo(c: Cc, n: Cc, v: nat, valid: bool, dirty: bool)
    requires ReleasedTo(c, n, v, valid, dirty)
    ensures n.limbo == c.limbo
  {
  }

  lemma {:induction false} StoreStructure(c: Cc, v: nat, data: seq<byte>)
    requires Structure(c) && v in c.vacbs && |data| == G
    ensures Structure(Put(c, v, c.vacbs[v].(data := data)))
  {
    hide Structure;
    Facts(c, v);
    PutOnlyKeeps(c, v, c.vacbs[v].(data := data));
  }

  datatype Operation = Read | Write | Zero

  /** What the operation stores: the caller's buffer, or zeroes. */
  function Incoming(op: Operation, buffer: seq<byte>, len: nat): (b: seq<byte>)
    requires op.Write? ==> |buffer| == len
    ensures |b| == len
  {
    if op.Write? then buffer else seq(len, _ => 0)
  }

  /** The file's bytes after the first `k` bytes of `b` were stored from `off` on. */
  function Stored(m: map<nat, seq<byte>>, f: nat, off: nat, b: seq<byte>, k: nat): map<nat, seq<byte>>
    requires f in m && k <= |b| && off + k <= |m[f]|
  {
    m[f := Splice(m[f], off, b[..k])]
  }

  lemma {:induction false} StoredStart(m: map<nat, seq<byte>>, f: nat, off: nat, b: seq<byte>)
    requires f in m && off <= |m[f]|
    ensures Stored(m, f, off, b, 0) == m
  {
    SpliceNothing(m[f], off);
    assert b[..0] == [] && m[f := m[f]] == m;
  }

  lemma {:induction false} StoredMore(m: map<nat, seq<byte>>, f: nat, off: nat, b: seq<byte>, k: nat, n: nat)
    requires f in m && k + n <= |b| && off + k + n <= |m[f]|
    ensures var c := Stored(m, f, off, b, k);
            && f in c && |c[f]| == |m[f]|
            && c[f := Splice(c[f], off + k, b[k..k + n])] == Stored(m, f, off, b, k + n)
  {
    SpliceTwice(m[f], off, b[..k], b[k..k + n]);
    assert b[..k] + b[k..k + n] == b[..k + n];
  }

  /** How far a copy got: `done` bytes moved between the file and the buffer; `m0` is the file before. */
  ghost predicate Progress(m: map<nat, seq<byte>>, m0: map<nat, seq<byte>>, f: nat, off: nat, op: Operation,
                           b: seq<byte>,
                           done: nat, out: seq<byte>)
  {
    && f in m0 && f in m && done <= |b| && off + done <= |m0[f]| && |m[f]| == |m0[f]|
    && m == (if op.Read? then m0 else Stored(m0, f, off, b, done))
    && (op.Read? ==> out == m0[f][off..off + done])
  }

  lemma {:induction false} ProgressStart(m: map<nat, seq<byte>>, f: nat, off: nat, op: Operation, b: seq<byte>)
    requires f in m && off <= |m[f]|
    ensures Progress(m, m, f, off, op, b, 0, [])
  {
    StoredStart(m, f, off, b);
  }

  lemma {:induction false} ReadMore(s: seq<byte>, off: nat, k: nat, n: nat)
    requires off + k + n <= |s|
    ensures s[off..off + k] + s[off + k..off + k + n] == s[off..off + k + n]
  {
  }

  // ----- Flushing

  /** `d` written to the medium where the stripe belongs. */
  function WriteBack(c: Cc, v: nat, d: seq<byte>): Cc
    requires v in c.vacbs && c.vacbs[v].file in c.disk && |d| == G
  {
    var x := c.vacbs[v];
    c.(disk := c.disk[x.file := WrittenBack(c.disk[x.file], x.offset, d)])
  }

  /** The stripe called clean, then written back. */
  function Flushed(c: Cc, v: nat): Cc
    requires MayUnmark(c, v) && c.vacbs[v].file in c.disk && |c.vacbs[v].data| == G
  {
    WriteBack(UnmarkDirty(c, v), v, c.vacbs[v].data)
  }

  /** Every stripe is where it was, held and mapped as before, with the same bytes; some are clean now. */
  ghost predicate Cleaned(c: Cc, n: Cc)
  {
    && n.vacbs.Keys == c.vacbs.Keys && n.holders == c.holders && n.limbo == c.limbo && SameSections(c, n)
    && (forall v :: v in c.vacbs ==> SameBytes(n.vacbs[v], c.vacbs[v]) && n.vacbs[v].mapped == c.vacbs[v].mapped)
    && (forall v :: v in c.vacbs && n.vacbs[v].dirty ==> c.vacbs[v].dirty)
    && (forall f :: f in c.files ==> n.files[f].temporary == c.files[f].temporary)
  }

  /** The medium is written below the stripe at most. */
  ghost predicate Touches(c: Cc, n: Cc, v: nat)
    requires v in c.vacbs
  {
    && n.disk.Keys == c.disk.Keys && (forall f :: f in c.disk ==> |n.disk[f]| == |c.disk[f]|)
    && (forall f, p :: f in c.disk && 0 <= p < |c.disk[f]| && !Covers(c.vacbs[v], f, p) ==>
          n.disk[f][p] == c.disk[f][p])
  }

  /** How the write of a stripe goes: a write-protected medium counts as written, but the stripe stays dirty. */
  datatype Outcome = Written | Protected | Failed

  lemma {:induction false} CleanedKept(c: Cc, n: Cc)
    requires Cleaned(c, n)
    ensures Kept(c, n)
  {
  }

  lemma {:induction false} CleanedRefl(c: Cc)
    ensures Cleaned(c, c)
  {
  }

  lemma {:induction false} CleanedTransitive(a: Cc, b: Cc, c: Cc)
    requires Cleaned(a, b) && Cleaned(b, c)
    ensures Cleaned(a, c)
  {
  }

  lemma {:induction false} FlushedCleaned(c: Cc, v: nat)
    requires MayUnmark(c, v) && c.vacbs[v].file in c.disk && |c.vacbs[v].data| == G
    ensures var n := Flushed(c, v);
            && Cleaned(c, n) && !n.vacbs[v].dirty && Touches(c, n, v)
            && forall u :: u in c.vacbs && u != v ==> n.vacbs[u] == c.vacbs[u]
  {
  }

  lemma {:induction false} FlushedKeeps(c: Cc, v: nat, m: map<nat, seq<byte>>)
    requires Structure(c) && Refines(c, m) && v in c.vacbs && c.vacbs[v].dirty
    ensures MayUnmark(c, v) && c.vacbs[v].file in c.disk && |c.vacbs[v].data| == G
    ensures Structure(Flushed(c, v)) && Refines(Flushed(c, v), m)
  {
    hide Structure, StripeHolds, DirtyAt;
    UnmarkKeeps(c, v);
    Facts(c, v);
    FlushedStructure(UnmarkDirty(c, v), Flushed(c, v));
    WriteBackKeeps(c, Flushed(c, v), v, m);
  }

  lemma {:induction false} FlushedStructure(c: Cc, n: Cc)
    requires Structure(c) && n == c.(disk := n.disk)
    ensures Structure(n)
  {
    hide StripeOk, FileOk, LimboOk;
    assert DirtySet(n) == DirtySet(c);
    RestKeeps(c, n);
  }

  /** A write that fails may leave anything, `d`, on the medium below the stripe, which is marked dirty again. */
  function Refused(c: Cc, v: nat, d: seq<byte>): Cc
    requires MayUnmark(c, v) && c.vacbs[v].file in c.disk && |d| == G
  {
    MarkDirty(WriteBack(UnmarkDirty(c, v), v, d), v)
  }

  lemma {:induction false} RefusedCleaned(c: Cc, v: nat, d: seq<byte>)
    requires MayUnmark(c, v) && c.vacbs[v].file in c.disk && |d| == G
    ensures Cleaned(c, Refused(c, v, d)) && Refused(c, v, d).vacbs == c.vacbs && Touches(c, Refused(c, v, d), v)
  {
    assert Refused(c, v, d).vacbs[v] == c.vacbs[v];
  }

  lemma {:induction false} RefusedRefines(c: Cc, v: nat, m: map<nat, seq<byte>>, d: seq<byte>)
    requires Refines(c, m) && MayUnmark(c, v) && c.vacbs[v].file in c.disk && |d| == G
    ensures Refines(Refused(c, v, d), m)
  {
    hide StripeHolds;
    var f, o := c.vacbs[v].file, c.vacbs[v].offset;
    var n := Refused(c, v, d);
    RefusedCleaned(c, v, d);
    forall p | o <= p < o + G ensures DirtyAt(n, f, p) {
      assert Covers(n.vacbs[v], f, p);
    }
    QuietKeeps(c, n, m);
  }

  lemma {:induction false} RefusedKeeps(c: Cc, v: nat, m: map<nat, seq<byte>>, d: seq<byte>)
    requires Structure(c) && Refines(c, m) && v in c.vacbs && c.vacbs[v].dirty && |d| == G
    ensures MayUnmark(c, v) && c.vacbs[v].file in c.disk
    ensures Structure(Refused(c, v, d)) && Refines(Refused(c, v, d), m)
  {
    hide Structure, StripeHolds, DirtyAt;
    UnmarkKeeps(c, v);
    Facts(c, v);
    FlushedStructure(UnmarkDirty(c, v), WriteBack(UnmarkDirty(c, v), v, d));
    MarkKeeps(WriteBack(UnmarkDirty(c, v), v, d), v);
    RefusedRefines(c, v, m, d);
  }

  ghost predicate Eligible(c: Cc, v: nat, lazy: bool, locked: set<nat>)
    requires v in c.vacbs && c.vacbs[v].file in c.files
  {
    c.vacbs[v].file in locked && !(lazy && c.files[c.vacbs[v].file].temporary)
  }

  /** Dirty stripes before `rest` on the dirty list are not eligible. */
  ghost predicate Passed(c: Cc, rest: seq<nat>, lazy: bool, locked: set<nat>)
  {
    && (forall v :: v in rest ==> v in c.dirtyList)
    && (forall v :: v in c.dirtyList && v !in rest ==>
          v in c.vacbs && c.vacbs[v].file in c.files && !Eligible(c, v, lazy, locked))
  }

  lemma {:induction false} PassedStart(c: Cc, lazy: bool, locked: set<nat>)
    ensures Passed(c, c.dirtyList, lazy, locked)
  {
  }

  lemma {:induction false} PassedMember(c: Cc, rest: seq<nat>, lazy: bool, locked: set<nat>)
    requires Structure(c) && Passed(c, rest, lazy, locked) && rest != []
    ensures rest[0] in c.vacbs && c.vacbs[rest[0]].dirty && c.vacbs[rest[0]].file in c.files
  {
    hide FileOk, LimboOk;
    assert rest[0] in c.dirtyList && rest[0] in DirtySet(c);
    assert StripeOk(c, rest[0]);
  }

  lemma {:induction false} PassedSkip(c: Cc, rest: seq<nat>, lazy: bool, locked: set<nat>)
    requires Passed(c, rest, lazy, locked) && rest != []
    requires rest[0] in c.vacbs && c.vacbs[rest[0]].file in c.files && !Eligible(c, rest[0], lazy, locked)
    ensures Passed(c, rest[1..], lazy, locked)
  {
    assert rest == [rest[0]] + rest[1..];
  }

  lemma {:induction false} PassedAll(c: Cc, lazy: bool, locked: set<nat>)
    requires Structure(c) && Passed(c, [], lazy, locked)
    ensures forall v :: v in c.vacbs && c.vacbs[v].dirty ==> c.vacbs[v].file in c.files && !Eligible(c, v, lazy, locked)
  {
    hide FileOk, LimboOk, StripeOk;
    assert forall v :: v in c.vacbs && c.vacbs[v].dirty ==> v in DirtySet(c) && v in c.dirtyList;
  }

  lemma {:induction false} HoldUnhold(c: Cc, v: nat)
    requires v in c.vacbs && v in c.holders
    ensures Unhold(Hold(c, v), v) == c
  {
    assert c.vacbs[v := c.vacbs[v].(refs := c.vacbs[v].refs + 1)][v := c.vacbs[v]] == c.vacbs;
    assert c.holders[v := c.holders[v] + 1][v := c.holders[v]] == c.holders;
  }

  lemma {:induction false} FlushedShortens(c: Cc, v: nat)
    requires Structure(c) && v in c.vacbs && c.vacbs[v].dirty
    ensures MayUnmark(c, v) && |UnmarkDirty(c, v).dirtyList| == |c.dirtyList| - 1
  {
    UnmarkKeeps(c, v);
    hide FileOk, LimboOk, StripeOk;
    assert v in DirtySet(c) && v in c.dirtyList;
    RemovedMembers(c.dirtyList, v);
  }

  lemma {:induction false} FlushedPlace(c: Cc, v: nat, d: seq<byte>)
    requires MayUnmark(c, v) && c.vacbs[v].file in c.disk && |d| == G
    ensures var u := UnmarkDirty(c, v);
            && v in u.vacbs && u.vacbs[v].file in u.disk
            && var w := WriteBack(u, v, d);
            && v in w.vacbs && !w.vacbs[v].dirty && w.vacbs[v].file in w.files && w.dirtyList == u.dirtyList
            && |MarkDirty(w, v).dirtyList| == |u.dirtyList| + 1
  {
  }

  // Cleaning a held stripe and giving it back.
  lemma {:induction false} CleanedHeld(c: Cc, c1: Cc, c2: Cc, v: nat)
    requires v in c.vacbs && v in c.holders && c1 == Hold(c, v) && Cleaned(c1, c2)
    ensures v in c2.vacbs && v in c2.holders && c2.holders[v] > 0
    ensures c2.vacbs[v].refs > 0 ==> Cleaned(c, Unhold(c2, v))
  {
    if c2.vacbs[v].refs > 0 {
      assert Unhold(c2, v).holders == c.holders;
    }
  }

  lemma {:induction false} PrunedKept(c: Cc, n: Cc)
    requires Structure(n) && Pruned(c, n, []) && Structure(c)
    ensures Kept(c, n)
  {
    hide FileOk, QueuesOk, LimboOk;
    forall u | u in c.vacbs ensures u in c.holders {
      assert StripeOk(c, u);
    }
  }

  lemma {:induction false} PrunedUsed(c: Cc, n: Cc)
    requires Pruned(c, n, [])
    ensures forall v :: v in n.vacbs ==> n.vacbs[v].refs >= 2
  {
  }

  lemma {:induction false} CleanedLimbo(c: Cc, n: Cc)
    requires Cleaned(c, n)
    ensures n.limbo == c.limbo
  {
  }

  lemma {:induction false} KeptLimbo(c: Cc, n: Cc, t: Cc)
    requires Kept(c, n) && t == n.(limbo := map[])
    ensures Kept(c, t)
  {
  }

  lemma {:induction false} ValidIfDirty(c: Cc, v: nat)
    requires Structure(c) && v in c.vacbs
    ensures c.vacbs[v].dirty ==> c.vacbs[v].valid
  {
    hide FileOk, QueuesOk, LimboOk;
    assert StripeOk(c, v);
  }

  lemma {:induction false} ReleasedQuiet(c: Cc, n: Cc, v: nat, valid: bool, dirty: bool, m: map<nat, seq<byte>>)
    requires Refines(c, m) && ReleasedTo(c, n, v, valid, dirty) && valid == c.vacbs[v].valid
    ensures Refines(n, m) && n.limbo == c.limbo && n.vacbs.Keys == c.vacbs.Keys
    ensures n.vacbs[v].mapped == c.vacbs[v].mapped && n.vacbs[v].dirty == (c.vacbs[v].dirty || dirty)
    ensures forall u :: u in c.vacbs ==> n.vacbs[u].file == c.vacbs[u].file && n.vacbs[u].offset == c.vacbs[u].offset
  {
    hide Refines;
    BookkeepingKeeps(c, n, m);
  }

  /** The same stripes, held and mapped as before; none became dirty. */
  ghost predicate Settled(c: Cc, n: Cc)
  {
    && n.vacbs.Keys == c.vacbs.Keys && n.holders == c.holders && SameSections(c, n)
    && (forall v :: v in c.vacbs ==>
          && n.vacbs[v].file == c.vacbs[v].file && n.vacbs[v].offset == c.vacbs[v].offset
          && n.vacbs[v].mapped == c.vacbs[v].mapped && (n.vacbs[v].dirty ==> c.vacbs[v].dirty))
  }

  lemma {:induction false} SettledKept(c: Cc, n: Cc)
    requires Settled(c, n)
    ensures Kept(c, n)
  {
  }

  lemma {:induction false} CleanedSettled(c: Cc, n: Cc)
    requires Cleaned(c, n)
    ensures Settled(c, n)
  {
  }

  lemma {:induction false} SettledRelease(b: Cc, c: Cc, n: Cc, v: nat)
    requires v in c.vacbs && ReleasedTo(c, n, v, c.vacbs[v].valid, c.vacbs[v].dirty) && c.vacbs[v].refs > 0
    requires Settled(b, Unhold(c, v))
    ensures Settled(b, n)
  {
    assert n.holders == Unhold(c, v).holders;
    forall u | u in c.vacbs && u != v ensures Unhold(c, v).vacbs[u] == n.vacbs[u] {
    }
  }

  lemma {:induction false} ReleasedIsUnhold(b: Cc, c: Cc, n: Cc, v: nat)
    requires v in c.vacbs && ReleasedTo(c, n, v, c.vacbs[v].valid, c.vacbs[v].dirty) && c.vacbs[v].refs > 0
    requires Cleaned(b, Unhold(c, v))
    ensures Settled(b, n) && n.vacbs[v].dirty == c.vacbs[v].dirty
  {
    assert ReleasedTo(c, n, v, c.vacbs[v].valid, c.vacbs[v].dirty);
    hide Settled, Cleaned;
    CleanedSettled(b, Unhold(c, v));
    SettledRelease(b, c, n, v);
  }

  /** Of the stripes of `f` from `lo` to `hi` exactly those stay dirty whose write fails, all others are as
      they were, and the medium is written nowhere else. */
  ghost predicate FlushedBetween(c: Cc, n: Cc, f: nat, lo: nat, hi: nat, failing: set<nat>)
  {
    && Settled(c, n) && n.disk.Keys == c.disk.Keys && (forall g :: g in c.disk ==> |n.disk[g]| == |c.disk[g]|)
    && (forall v :: v in c.vacbs ==>
          (n.vacbs[v].dirty <==>
             c.vacbs[v].dirty && !(c.vacbs[v].file == f && lo <= c.vacbs[v].offset < hi &&
                 c.vacbs[v].offset !in failing)))
    && (forall g, p :: g in c.disk && 0 <= p < |c.disk[g]| && !(g == f && lo <= p < hi) ==>
          n.disk[g][p] == c.disk[g][p])
  }

  lemma {:induction false} FlushedNothing(c: Cc, f: nat, lo: nat, failing: set<nat>)
    ensures FlushedBetween(c, c, f, lo, lo, failing)
  {
  }

  lemma {:induction false} FlushedNext(a: Cc, b: Cc, c: Cc, f: nat, lo: nat, mid: nat, hi: nat, failing: set<nat>)
    requires FlushedBetween(a, b, f, lo, mid, failing) && FlushedBetween(b, c, f, mid, hi, failing) && lo <= mid <= hi
    ensures FlushedBetween(a, c, f, lo, hi, failing)
  {
  }

  /** The stripe at `lo` is not cached. */
  lemma {:induction false} FlushedAbsent(c: Cc, f: nat, lo: nat, failing: set<nat>)
    requires Structure(c) && Aligned(lo) && forall v :: v in c.vacbs ==> !Covers(c.vacbs[v], f, lo)
    ensures FlushedBetween(c, c, f, lo, lo + G, failing)
  {
    hide FileOk, QueuesOk, LimboOk;
    forall v | v in c.vacbs && c.vacbs[v].file == f && lo <= c.vacbs[v].offset ensures lo + G <= c.vacbs[v].offset {
      assert StripeOk(c, v);
      AlignedApart(lo, c.vacbs[v].offset);
    }
  }

  lemma {:induction false} FlushedOne(c: Cc, n: Cc, v: nat, f: nat, lo: nat, failing: set<nat>)
    requires Structure(c) && Aligned(lo) && v in c.vacbs && Covers(c.vacbs[v], f, lo)
    requires Settled(c, n) && Touches(c, n, v) && n.vacbs[v].dirty == (c.vacbs[v].dirty && lo in failing)
    requires forall u :: u in c.vacbs && u != v ==> n.vacbs[u].dirty == c.vacbs[u].dirty
    ensures FlushedBetween(c, n, f, lo, lo + G, failing)
  {
    hide FileOk, QueuesOk, LimboOk;
    assert StripeOk(c, v);
    forall u | u in c.vacbs && u != v && c.vacbs[u].file == f && lo <= c.vacbs[u].offset
      ensures lo + G <= c.vacbs[u].offset
    {
      assert StripeOk(c, u);
      if c.vacbs[u].offset == lo {
        Unique(c, u, v, f, lo);
      } else {
        AlignedApart(lo, c.vacbs[u].offset);
      }
    }
  }

  /** Whole stripes that hold `n` bytes. */
  function RoundUp(n: nat): (r: nat)
    ensures Aligned(r) && n <= r < n + G
  {
    if n == 0 then 0 else RoundDown(n - 1) + G
  }

  lemma {:induction false} RoundUpStep(n: nat)
    requires n > 0
    ensures RoundUp(n) == RoundUp(if n < G then 0 else n - G) + G
  {
  }

  lemma {:induction false} RoundDownStep(off: nat)
    ensures RoundDown(off + G) == RoundDown(off) + G
  {
  }

  /** The stripe shares a byte with the range. */
  ghost predicate Meets(x: Vacb, f: nat, off: nat, length: nat)
  {
    x.file == f && x.offset < off + length && off < x.offset + G
  }

  /** No invalid stripe of `f` shares a byte with the range. */
  ghost predicate Available(c: Cc, f: nat, off: nat, len: nat)
  {
    forall v :: v in c.vacbs && Meets(c.vacbs[v], f, off, len) ==> c.vacbs[v].valid
  }

  /** The stripe that CcFlushCache does not come to, if `off` lies inside a stripe, though the range ends in it. */
  ghost predicate Overlooked(x: Vacb, f: nat, off: nat, length: nat)
  {
    x.file == f && x.offset == RoundDown(off) + RoundUp(length) < off + length
  }

  /** When all writes succeed, a flush leaves no stripe of its range dirty if and only if the one it does not
      come to was clean. */
  lemma {:induction false} FlushReaches(c: Cc, n: Cc, f: nat, off: nat, length: nat)
    requires Structure(c) && FlushedBetween(c, n, f, RoundDown(off), RoundDown(off) + RoundUp(length), {})
    ensures (forall v :: v in n.vacbs && Meets(n.vacbs[v], f, off, length) ==> !n.vacbs[v].dirty)
       <==> (forall v :: v in c.vacbs && Overlooked(c.vacbs[v], f, off, length) ==> !c.vacbs[v].dirty)
  {
    hide FileOk, QueuesOk, LimboOk;
    forall v | v in c.vacbs && c.vacbs[v].dirty && Meets(c.vacbs[v], f, off, length) && n.vacbs[v].dirty
      ensures Overlooked(c.vacbs[v], f, off, length)
    {
      assert StripeOk(c, v);
      MeetsWhere(c.vacbs[v].offset, off, length);
    }
    forall v | v in c.vacbs && c.vacbs[v].dirty && Overlooked(c.vacbs[v], f, off, length)
      ensures n.vacbs[v].dirty && Meets(n.vacbs[v], f, off, length)
    {
      OverlookedMeets(off, length);
    }
  }

  lemma {:induction false} OverlookedAt(o: nat)
    requires Aligned(o) && o > 0
    ensures RoundDown(o - 1) + RoundUp(2) == o
  {
  }

  lemma {:induction false} StaysDirty(c: Cc, n: Cc, f: nat, lo: nat, hi: nat, v: nat)
    requires FlushedBetween(c, n, f, lo, hi, {}) && v in c.vacbs && c.vacbs[v].dirty && c.vacbs[v].offset >= hi
    ensures v in n.vacbs && n.vacbs[v].dirty && n.vacbs[v].file == c.vacbs[v].file
    ensures n.vacbs[v].offset == c.vacbs[v].offset
  {
  }

  lemma {:induction false} MeetsWhere(o: nat, off: nat, length: nat)
    requires Aligned(o) && o < off + length && off < o + G
    ensures RoundDown(off) <= o < RoundDown(off) + RoundUp(length) || o == RoundDown(off) + RoundUp(length)
  {
  }

  lemma {:induction false} OverlookedMeets(off: nat, length: nat)
    requires RoundDown(off) + RoundUp(length) < off + length
    ensures off < RoundDown(off) + RoundUp(length) + G
  {
  }

  // ----- Purging

  function ViewEnd(c: Cc, v: nat): nat
    requires v in c.vacbs && c.vacbs[v].file in c.files
  {
    var x := c.vacbs[v];
    if x.offset + G < c.files[x.file].section then x.offset + G else c.files[x.file].section
  }

  /** The file's bytes once the stripe at `o` is thrown away: whatever the medium holds there. */
  function Discarded(m: map<nat, seq<byte>>, disk: map<nat, seq<byte>>, f: nat, o: nat): map<nat, seq<byte>>
    requires f in m && f in disk && |m[f]| == |disk[f]|
  {
    m[f := seq(|m[f]|, p requires 0 <= p < |m[f]| => if o <= p < o + G then disk[f][p] else m[f][p])]
  }

  lemma {:induction false} DiscardOther(c: Cc, u: nat, v: nat, m: map<nat, seq<byte>>)
    requires Structure(c) && u in c.vacbs && v in c.vacbs && u != v && StripeHolds(c.vacbs[u], m)
    requires var f := c.vacbs[v].file; f in m && f in c.disk && |m[f]| == |c.disk[f]|
    ensures StripeHolds(c.vacbs[u], Discarded(m, c.disk, c.vacbs[v].file, c.vacbs[v].offset))
  {
    hide Structure;
    var x, y := c.vacbs[v], c.vacbs[u];
    if y.file == x.file && y.valid {
      var d := Discarded(m, c.disk, x.file, x.offset)[x.file];
      forall i | 0 <= i < G && y.offset + i < |d| ensures y.data[i] == d[y.offset + i] {
        if x.offset <= y.offset + i < x.offset + G {
          Unique(c, u, v, x.file, y.offset + i);
        }
      }
    }
  }

  /** Unlinking a stripe, dirty or not, leaves the medium's bytes in its place. */
  lemma {:induction false} DiscardKeeps(c: Cc, n: Cc, v: nat, m: map<nat, seq<byte>>)
    requires Structure(c) && Refines(c, m) && v in c.vacbs && SameSections(c, n) && n.disk == c.disk
    requires c.vacbs[v].file in c.disk && c.vacbs[v].file in m && |m[c.vacbs[v].file]| == |c.disk[c.vacbs[v].file]|
    requires n.vacbs == c.vacbs - {v}
    ensures Refines(n, Discarded(m, c.disk, c.vacbs[v].file, c.vacbs[v].offset))
  {
    hide Structure, StripeHolds;
    var m' := Discarded(m, c.disk, c.vacbs[v].file, c.vacbs[v].offset);
    forall u | u in n.vacbs ensures StripeHolds(n.vacbs[u], m') {
      DiscardOther(c, u, v, m);
    }
    forall f, p | DirtyAt(c, f, p) && !Covers(c.vacbs[v], f, p) ensures DirtyAt(n, f, p) {
      var u :| u in c.vacbs && c.vacbs[u].dirty && Covers(c.vacbs[u], f, p);
      assert u in n.vacbs;
    }
  }

  // A clean stripe holds what the medium holds.
  lemma {:induction false} DiscardClean(c: Cc, v: nat, m: map<nat, seq<byte>>)
    requires Structure(c) && Refines(c, m) && v in c.vacbs && !c.vacbs[v].dirty && c.vacbs[v].file in c.files
    ensures Discarded(m, c.disk, c.vacbs[v].file, c.vacbs[v].offset) == m
  {
    hide Structure, StripeHolds;
    var x := c.vacbs[v];
    forall p | x.offset <= p < x.offset + G && p < |m[x.file]| ensures c.disk[x.file][p] == m[x.file][p] {
      if DirtyAt(c, x.file, p) {
        var u :| u in c.vacbs && c.vacbs[u].dirty && Covers(c.vacbs[u], x.file, p);
        Unique(c, u, v, x.file, p);
      }
    }
    var d := Discarded(m, c.disk, x.file, x.offset);
    assert d[x.file] == m[x.file];
  }

  ghost predicate MayPurge(c: Cc, v: nat)
    requires v in c.vacbs
  {
    !((c.vacbs[v].refs > 1 && !c.vacbs[v].dirty) || (c.vacbs[v].refs > 2 && c.vacbs[v].dirty))
  }

  /** The stripe taken off all lists, whether dirty or not. */
  function Purged(c: Cc, v: nat): Cc
    requires v in c.vacbs && c.vacbs[v].file in c.files && (c.vacbs[v].dirty ==> MayUnmark(c, v))
  {
    Unlink(if c.vacbs[v].dirty then UnmarkDirty(c, v) else c, v)
  }

  lemma {:induction false} PurgedShape(c: Cc, v: nat)
    requires v in c.vacbs && c.vacbs[v].file in c.files && (c.vacbs[v].dirty ==> MayUnmark(c, v))
    ensures var n := Purged(c, v);
            && n.vacbs == c.vacbs - {v} && n.disk == c.disk && SameSections(c, n) && n.holders == c.holders
            && n.limbo.Keys == c.limbo.Keys + {v}
  {
  }

  /** Purging a stripe that only the lists and the dirty list use. */
  lemma {:induction false} PurgedKeeps(c: Cc, v: nat, m: map<nat, seq<byte>>)
    requires Structure(c) && Refines(c, m) && v in c.vacbs && MayPurge(c, v)
    ensures c.vacbs[v].file in c.files && (c.vacbs[v].dirty ==> MayUnmark(c, v)) && !InUse(c, v)
    ensures c.vacbs[v].file in m && c.vacbs[v].file in c.disk && |m[c.vacbs[v].file]| == |c.disk[c.vacbs[v].file]|
    ensures Structure(Purged(c, v)) && Refines(Purged(c, v), Discarded(m, c.disk, c.vacbs[v].file, c.vacbs[v].offset))
  {
    hide Structure, StripeHolds, DirtyAt;
    Facts(c, v);
    if c.vacbs[v].dirty {
      UnmarkKeeps(c, v);
      UnlinkKeeps(UnmarkDirty(c, v), v);
    } else {
      UnlinkKeeps(c, v);
    }
    PurgedShape(c, v);
    DiscardKeeps(c, Purged(c, v), v, m);
  }

  ghost predicate InPurge(c: Cc, v: nat, f: nat, start: nat, end: nat)
    requires v in c.vacbs && c.vacbs[v].file in c.files
  {
    c.vacbs[v].file == f && start <= c.vacbs[v].offset && ViewEnd(c, v) < end
  }

  /** The stripe, as far as the section goes, lies inside the range. */
  ghost predicate InRange(c: Cc, v: nat, f: nat, start: nat, end: nat)
    requires v in c.vacbs && c.vacbs[v].file in c.files
  {
    c.vacbs[v].file == f && start <= c.vacbs[v].offset && ViewEnd(c, v) <= end
  }

  /** No stripe of `f` lies inside the range. */
  ghost predicate RangeEmpty(c: Cc, f: nat, start: nat, end: nat)
  {
    forall v :: v in c.vacbs && c.vacbs[v].file in c.files ==> !InRange(c, v, f, start, end)
  }

  /** Some stripe of the range reaches exactly to its end. */
  ghost predicate EndsAt(c: Cc, f: nat, start: nat, end: nat)
  {
    exists v :: v in c.vacbs && c.vacbs[v].file in c.files && InRange(c, v, f, start, end) && ViewEnd(c, v) == end
  }

  /** Some stripes of the range are gone, none of them in use. */
  ghost predicate PurgedStripes(c: Cc, n: Cc, f: nat, start: nat, end: nat)
  {
    && SameSections(c, n) && n.disk == c.disk && n.holders == c.holders
    && (forall v :: v in n.vacbs ==> v in c.vacbs && n.vacbs[v] == c.vacbs[v])
    && (forall v :: v in c.vacbs && v !in n.vacbs ==>
          c.vacbs[v].file in c.files && InPurge(c, v, f, start, end) && !InUse(c, v))
  }

  /** Bytes of the range may have fallen back to the medium; all others are as they were. */
  ghost predicate PurgedBytes(disk: map<nat, seq<byte>>, m0: map<nat, seq<byte>>, m: map<nat, seq<byte>>, f: nat,
                              start: nat, end: nat)
  {
    && m.Keys == m0.Keys && (forall g :: g in m0 ==> |m[g]| == |m0[g]| && (g != f ==> m[g] == m0[g]))
    && (f in m0 && f in disk && |m0[f]| == |disk[f]|)
    && (forall p :: 0 <= p < |m0[f]| ==> m[f][p] == m0[f][p] || (start <= p < end && m[f][p] == disk[f][p]))
  }

  /** `n` is `c` with some stripes of the range gone, and `m` the bytes that remain. */
  ghost predicate PurgeStep(c: Cc, m0: map<nat, seq<byte>>, n: Cc, m: map<nat, seq<byte>>, f: nat, start: nat, end: nat)
  {
    PurgedStripes(c, n, f, start, end) && PurgedBytes(c.disk, m0, m, f, start, end)
  }

  lemma {:induction false} PurgeStart(c: Cc, m: map<nat, seq<byte>>, f: nat, start: nat, end: nat)
    requires Refines(c, m) && f in c.files
    ensures PurgeStep(c, m, c, m, f, start, end)
  {
  }

  lemma {:induction false} PurgeBytes(disk: map<nat, seq<byte>>, m0: map<nat, seq<byte>>, m: map<nat, seq<byte>>,
                                      f: nat, start: nat, end: nat, o: nat)
    requires PurgedBytes(disk, m0, m, f, start, end) && start <= o && (o + G < end || |m[f]| < end)
    ensures f in m && PurgedBytes(disk, m0, Discarded(m, disk, f, o), f, start, end)
  {
  }

  lemma {:induction false} PurgeStripes(c: Cc, n: Cc, f: nat, start: nat, end: nat, v: nat)
    requires PurgedStripes(c, n, f, start, end) && v in n.vacbs && n.vacbs[v].file in n.files
    requires InPurge(n, v, f, start, end) && !InUse(n, v) && (n.vacbs[v].dirty ==> MayUnmark(n, v))
    ensures PurgedStripes(c, Purged(n, v), f, start, end)
  {
    PurgedShape(n, v);
    hide Purged;
  }

  lemma {:induction false} PurgeNext(c: Cc, m0: map<nat, seq<byte>>, n: Cc, m: map<nat, seq<byte>>, f: nat,
                                     start: nat, end: nat, v: nat)
    requires PurgeStep(c, m0, n, m, f, start, end) && v in n.vacbs && n.vacbs[v].file in n.files
    requires InPurge(n, v, f, start, end) && !InUse(n, v) && (n.vacbs[v].dirty ==> MayUnmark(n, v))
    requires f in m && |m[f]| == n.files[f].section
    ensures f in m && f in n.disk && |m[f]| == |n.disk[f]|
    ensures PurgeStep(c, m0, Purged(n, v), Discarded(m, n.disk, f, n.vacbs[v].offset), f, start, end)
  {
    PurgeStripes(c, n, f, start, end, v);
    PurgeBytes(c.disk, m0, m, f, start, end, n.vacbs[v].offset);
    hide Purged, Discarded;
  }

  /** A purge that reports success has emptied the range if and only if no stripe of the range reached
      exactly to its end. */
  lemma {:induction false} PurgeExact(c: Cc, n: Cc, f: nat, start: nat, end: nat)
    requires PurgedStripes(c, n, f, start, end)
    requires forall v :: v in n.vacbs && n.vacbs[v].file == f && f in n.files ==> !InPurge(n, v, f, start, end)
    ensures RangeEmpty(n, f, start, end) <==> !EndsAt(c, f, start, end)
  {
    if v :| v in c.vacbs && c.vacbs[v].file in c.files && InRange(c, v, f, start, end) && ViewEnd(c, v) == end {
      assert v in n.vacbs && InRange(n, v, f, start, end);
    } else {
      forall v | v in n.vacbs && n.vacbs[v].file in n.files ensures !InRange(n, v, f, start, end) {
        assert v in c.vacbs && ViewEnd(c, v) == ViewEnd(n, v);
      }
    }
  }

  lemma {:induction false} PurgeKept(c: Cc, m0: map<nat, seq<byte>>, n: Cc, m: map<nat, seq<byte>>, f: nat,
                                     start: nat, end: nat)
    requires PurgeStep(c, m0, n, m, f, start, end)
    ensures Kept(c, n)
  {
  }

  /** What the purge loop still has to look at. */
  ghost predicate PurgeRest(c: Cc, rest: seq<nat>, f: nat, start: nat, end: nat)
  {
    && SortedBy(c.vacbs, rest) && f in c.files && (forall v :: v in rest ==> c.vacbs[v].file == f)
    && (forall v :: v in c.vacbs && c.vacbs[v].file == f && v !in rest ==> !InPurge(c, v, f, start, end))
  }

  lemma {:induction false} PurgeRestStart(c: Cc, f: nat, start: nat, end: nat)
    requires Structure(c) && f in c.files
    ensures PurgeRest(c, c.files[f].list, f, start, end)
  {
    hide Structure;
    ListFacts(c, f);
  }

  lemma {:induction false} PurgeRestHead(c: Cc, rest: seq<nat>, f: nat, start: nat, end: nat)
    requires PurgeRest(c, rest, f, start, end) && rest != []
    ensures rest[0] in c.vacbs && c.vacbs[rest[0]].file == f && f in c.files
  {
  }

  lemma {:induction false} PurgeRestSkip(c: Cc, rest: seq<nat>, f: nat, start: nat, end: nat)
    requires PurgeRest(c, rest, f, start, end) && rest != [] && c.vacbs[rest[0]].offset < start
    ensures PurgeRest(c, rest[1..], f, start, end)
  {
    assert rest == [rest[0]] + rest[1..];
  }

  lemma {:induction false} PurgeRestTake(c: Cc, n: Cc, rest: seq<nat>, f: nat, start: nat, end: nat)
    requires PurgeRest(c, rest, f, start, end) && rest != [] && SameSections(c, n) && n.vacbs == c.vacbs - {rest[0]}
    ensures PurgeRest(n, rest[1..], f, start, end)
  {
    var t := rest[1..];
    assert rest == [rest[0]] + t;
    assert forall u :: u in t ==> c.vacbs[rest[0]].offset < c.vacbs[u].offset;
    SortedFrame(c.vacbs, n.vacbs, t);
  }

  // The list is sorted, so past the end of the range nothing is left to purge.
  lemma {:induction false} PurgeRestBeyond(c: Cc, rest: seq<nat>, f: nat, start: nat, end: nat)
    requires PurgeRest(c, rest, f, start, end) && (rest != [] ==> ViewEnd(c, rest[0]) >= end)
    ensures forall v :: v in c.vacbs && c.vacbs[v].file == f ==> !InPurge(c, v, f, start, end)
  {
    forall v | v in rest ensures ViewEnd(c, v) >= end {
      var i :| 0 <= i < |rest| && rest[i] == v;
    }
  }

  lemma {:induction false} PurgeUnmark(c: Cc, v: nat)
    requires Structure(c) && v in c.vacbs && MayPurge(c, v)
    ensures if c.vacbs[v].dirty then MayUnmark(c, v) && v in UnmarkDirty(c, v).vacbs &&
        UnmarkDirty(c, v).vacbs[v].refs == 1
                                     && UnmarkDirty(c, v).vacbs[v].file in UnmarkDirty(c, v).files
            else c.vacbs[v].refs == 1
    ensures v !in c.limbo
  {
    hide Structure;
    Facts(c, v);
    if c.vacbs[v].dirty {
      UnmarkKeeps(c, v);
    }
  }

  lemma {:induction false} PurgeLimbo(c: Cc, m0: map<nat, seq<byte>>, n: Cc, t: Cc, m: map<nat, seq<byte>>, f: nat,
                                      start: nat, end: nat)
    requires PurgeStep(c, m0, n, m, f, start, end) && t == n.(limbo := map[])
    ensures PurgeStep(c, m0, t, m, f, start, end)
  {
  }

  // ----- Deleting a file's cache

  /** The mapping's reference given back, however often the stripe is mapped. */
  function Unmapped(c: Cc, v: nat): Cc
    requires v in c.vacbs && c.vacbs[v].refs > 0
  {
    if c.vacbs[v].mapped != 0 then Put(c, v, c.vacbs[v].(mapped := 0, refs := c.vacbs[v].refs - 1)) else c
  }

  lemma {:induction false} UnmappedKeeps(c: Cc, v: nat, m: map<nat, seq<byte>>)
    requires Structure(c) && Refines(c, m) && v in c.vacbs && v in c.holders && c.holders[v] == 0
    ensures c.vacbs[v].refs > 0 && (c.vacbs[v].mapped != 0 ==> c.vacbs[v].refs > 1)
    ensures var n := Unmapped(c, v);
            Structure(n) && Refines(n, m) && MayPurge(n, v) && SameSections(c, n) && n.disk == c.disk &&
                n.limbo == c.limbo
            && n.vacbs - {v} == c.vacbs - {v} && n.vacbs[v].file == c.vacbs[v].file
            && n.vacbs[v].offset == c.vacbs[v].offset
            && n.vacbs[v].dirty == c.vacbs[v].dirty && n.holders == c.holders && n.files == c.files
  {
    hide Structure, Refines;
    Facts(c, v);
    var n := Unmapped(c, v);
    if c.vacbs[v].mapped != 0 {
      PutOnlyKeeps(c, v, n.vacbs[v]);
      BookkeepingKeeps(c, n, m);
    }
  }

  /** `n` is `c` with some stripes of `f` gone, and `m` the bytes that remain; nothing is lost if all those
      stripes were clean. */
  ghost predicate Dropped(c: Cc, m0: map<nat, seq<byte>>, n: Cc, m: map<nat, seq<byte>>, f: nat)
  {
    && SameSections(c, n) && n.disk == c.disk && n.holders == c.holders && m.Keys == m0.Keys
    && (forall v :: v in n.vacbs ==> v in c.vacbs && n.vacbs[v] == c.vacbs[v])
    && (forall v :: v in c.vacbs && v !in n.vacbs ==> c.vacbs[v].file == f)
    && (forall g :: g in m0 && g != f ==> m[g] == m0[g])
    && ((forall v :: v in c.vacbs && c.vacbs[v].file == f ==> !c.vacbs[v].dirty) ==> m == m0)
  }

  lemma {:induction false} DroppedStart(c: Cc, m: map<nat, seq<byte>>, f: nat)
    ensures Dropped(c, m, c, m, f)
  {
  }

  lemma {:induction false} DroppedNext(c: Cc, m0: map<nat, seq<byte>>, n: Cc, m: map<nat, seq<byte>>, t: Cc, f: nat,
                                       v: nat)
    requires Dropped(c, m0, n, m, f) && v in n.vacbs && n.vacbs[v].file == f
    requires Structure(n) && Refines(n, m) && f in n.files
    requires SameSections(n, t) && t.disk == n.disk && t.holders == n.holders && t.vacbs == n.vacbs - {v}
    requires f in m && f in n.disk && |m[f]| == |n.disk[f]|
    ensures Dropped(c, m0, t, Discarded(m, n.disk, f, n.vacbs[v].offset), f)
  {
    hide Structure, Refines;
    if !n.vacbs[v].dirty {
      DiscardClean(n, v, m);
    }
  }

  lemma {:induction false} DroppedLimbo(c: Cc, m0: map<nat, seq<byte>>, n: Cc, t: Cc, m: map<nat, seq<byte>>, f: nat)
    requires Dropped(c, m0, n, m, f) && t == n.(limbo := map[])
    ensures Dropped(c, m0, t, m, f)
  {
  }

  // With no stripe left the medium holds the file.
  lemma {:induction false} UncachedHolds(c: Cc, m: map<nat, seq<byte>>, f: nat)
    requires Structure(c) && Refines(c, m) && f in c.files && c.files[f].list == []
    ensures f in m && f in c.disk && c.disk[f] == m[f] && forall v :: v in c.vacbs ==> c.vacbs[v].file != f
  {
    hide Structure, StripeHolds;
    ListFacts(c, f);
  }

  lemma {:induction false} LastOfList(c: Cc, f: nat)
    requires Structure(c) && f in c.files && c.files[f].list != []
    ensures var l := c.files[f].list; l[|l| - 1] in c.vacbs && c.vacbs[l[|l| - 1]].file == f
  {
    hide Structure;
    ListFacts(c, f);
  }

  lemma {:induction false} PurgedShortens(c: Cc, v: nat)
    requires v in c.vacbs && c.vacbs[v].file in c.files && (c.vacbs[v].dirty ==> MayUnmark(c, v))
    requires v in c.files[c.vacbs[v].file].list
    ensures var f := c.vacbs[v].file; f in Purged(c, v).files && |Purged(c, v).files[f].list| < |c.files[f].list|
  {
    RemovedShorter(c.files[c.vacbs[v].file].list, v);
  }

  /** The medium `d` holds the stripe's bytes. */
  ghost predicate Saved(x: Vacb, d: seq<byte>)
  {
    forall i :: 0 <= i < |x.data| && x.offset + i < |d| ==> x.data[i] == d[x.offset + i]
  }

  /** Every dirty stripe that starts behind the file's size holds what the medium holds. */
  ghost predicate SavedBeyond(c: Cc, f: nat)
    requires f in c.files && f in c.disk
  {
    forall v :: v in c.vacbs && c.vacbs[v].file == f && c.vacbs[v].dirty && c.files[f].fileSize <= c.vacbs[v].offset ==>
      Saved(c.vacbs[v], c.disk[f])
  }

  lemma {:induction false} SavedByte(c: Cc, n: Cc, m: map<nat, seq<byte>>, f: nat, p: nat)
    requires Structure(c) && Refines(c, m) && Refines(n, m) && f in c.files && p < |m[f]|
    requires FlushedBetween(c, n, f, 0, RoundUp(c.files[f].fileSize), {}) && SavedBeyond(c, f)
    ensures n.disk[f][p] == m[f][p]
  {
    hide Structure, StripeHolds, FlushedBetween, RoundUp, Saved;
    if DirtyAt(n, f, p) {
      var v :| v in n.vacbs && n.vacbs[v].dirty && Covers(n.vacbs[v], f, p);
      StillDirty(c, n, f, RoundUp(c.files[f].fileSize), v);
      SavedDirtyByte(c, m, f, v, p);
      UntouchedByte(c, n, f, RoundUp(c.files[f].fileSize), p);
    }
  }

  lemma {:induction false} SavedDirtyByte(c: Cc, m: map<nat, seq<byte>>, f: nat, v: nat, p: nat)
    requires Structure(c) && v in c.vacbs && c.vacbs[v].dirty && StripeHolds(c.vacbs[v], m) && Covers(c.vacbs[v], f, p)
    requires f in c.disk && p < |m[f]| == |c.disk[f]| && Saved(c.vacbs[v], c.disk[f])
    ensures c.disk[f][p] == m[f][p]
  {
    hide Structure;
    DirtyByte(c, m, v, p - c.vacbs[v].offset);
  }

  lemma {:induction false} StillDirty(c: Cc, n: Cc, f: nat, hi: nat, v: nat)
    requires FlushedBetween(c, n, f, 0, hi, {}) && v in n.vacbs && n.vacbs[v].file == f && n.vacbs[v].dirty
    ensures v in c.vacbs && c.vacbs[v].dirty && c.vacbs[v].file == f && c.vacbs[v].offset == n.vacbs[v].offset >= hi
  {
  }

  /** A flush up to the file's size brings all of the file to the medium if and only if the dirty stripes
      behind it hold what the medium holds anyway. */
  lemma {:induction false} FlushSavesExactly(c: Cc, n: Cc, m: map<nat, seq<byte>>, f: nat)
    requires Structure(c) && Refines(c, m) && Refines(n, m) && f in c.files
    requires FlushedBetween(c, n, f, 0, RoundUp(c.files[f].fileSize), {})
    ensures f in m && f in n.disk && (n.disk[f] == m[f] <==> SavedBeyond(c, f))
  {
    if SavedBeyond(c, f) {
      hide Structure, FlushedBetween, SavedBeyond;
      forall p | 0 <= p < |m[f]| ensures n.disk[f][p] == m[f][p] {
        SavedByte(c, n, m, f, p);
      }
    } else {
      UnsavedByte(c, n, m, f);
    }
  }

  lemma {:induction false} UnsavedByte(c: Cc, n: Cc, m: map<nat, seq<byte>>, f: nat)
    requires Structure(c) && Refines(c, m) && Refines(n, m) && f in c.files
    requires FlushedBetween(c, n, f, 0, RoundUp(c.files[f].fileSize), {}) && !SavedBeyond(c, f)
    ensures n.disk[f] != m[f]
  {
    hide Structure, StripeHolds, DiskHolds, FlushedBetween;
    var v :| v in c.vacbs && c.vacbs[v].file == f && c.vacbs[v].dirty && c.files[f].fileSize <= c.vacbs[v].offset
             && !Saved(c.vacbs[v], c.disk[f]);
    var i :| 0 <= i < |c.vacbs[v].data| && c.vacbs[v].offset + i < |c.disk[f]|
             && c.vacbs[v].data[i] != c.disk[f][c.vacbs[v].offset + i];
    DirtyByte(c, m, v, i);
    AlignedBeyond(c.vacbs[v].offset, c.files[f].fileSize);
    UntouchedByte(c, n, f, RoundUp(c.files[f].fileSize), c.vacbs[v].offset + i);
  }

  /** A file of size 0 with one dirty stripe in its section. */
  function Stray(): (c: Cc)
  {
    Cc(map[0 := Vacb(0, 0, seq(G, _ => 1), true, true, 0, 2)], map[], map[0 := File(G, 0, [0], PAGES, false)],
       [0], [0], PAGES, map[0 := seq(G, _ => 0)], 1, map[0 := 0])
  }

  /** Such a stripe may hold bytes that the medium does not. */
  lemma {:induction false} BytesBeyondCanBeUnsaved()
    ensures Structure(Stray()) && Refines(Stray(), map[0 := seq(G, _ => 1)]) && !SavedBeyond(Stray(), 0)
  {
    var c := Stray();
    var m: map<nat, seq<byte>> := map[0 := seq(G, _ => 1)];
    assert DirtySet(c) == {0} && DirtyIn(c, 0) == {0};
    assert StripeOk(c, 0) && FileOk(c, 0);
    forall p | 0 <= p < G ensures DirtyAt(c, 0, p) {
      assert Covers(c.vacbs[0], 0, p);
    }
    assert c.vacbs[0].data[0] != c.disk[0][0];
    assert !Saved(c.vacbs[0], c.disk[0]);
  }

  lemma {:induction false} DirtyByte(c: Cc, m: map<nat, seq<byte>>, v: nat, i: nat)
    requires Structure(c) && v in c.vacbs && c.vacbs[v].dirty && StripeHolds(c.vacbs[v], m)
    requires i < |c.vacbs[v].data| && c.vacbs[v].offset + i < |m[c.vacbs[v].file]|
    ensures c.vacbs[v].data[i] == m[c.vacbs[v].file][c.vacbs[v].offset + i] && Aligned(c.vacbs[v].offset)
  {
    hide FileOk, QueuesOk, LimboOk;
    assert StripeOk(c, v);
  }

  lemma {:induction false} UntouchedByte(c: Cc, n: Cc, f: nat, hi: nat, p: nat)
    requires FlushedBetween(c, n, f, 0, hi, {}) && f in c.disk && hi <= p < |c.disk[f]|
    ensures f in n.disk && p < |n.disk[f]| && n.disk[f][p] == c.disk[f][p]
  {
  }

  lemma {:induction false} AlignedBeyond(o: nat, n: nat)
    requires Aligned(o) && o >= n
    ensures o >= RoundUp(n)
  {
  }

  // Nobody holds a stripe of the file, neither before the flush nor later.
  lemma {:induction false} DroppedHeld(b: Cc, c: Cc, m: map<nat, seq<byte>>, n: Cc, m': map<nat, seq<byte>>, f: nat,
                                       v: nat)
    requires forall u :: u in b.vacbs && b.vacbs[u].file == f && u in b.holders ==> b.holders[u] == 0
    requires Settled(b, c) && Dropped(c, m, n, m', f) && v in n.vacbs && n.vacbs[v].file == f && v in n.holders
    ensures n.holders[v] == 0
  {
  }

  lemma {:induction false} DroppedMeans(c: Cc, m: map<nat, seq<byte>>, n: Cc, m': map<nat, seq<byte>>, f: nat)
    requires Dropped(c, m, n, m', f)
    ensures SameSections(c, n) && forall g :: g in m && g != f ==> g in m' && m'[g] == m[g]
    ensures (forall v :: v in c.vacbs && c.vacbs[v].file == f ==> !c.vacbs[v].dirty) ==> m' == m
  {
  }

  // ----- How many stripes went

  ghost predicate Gone(c: Cc, n: Cc)
  {
    n.vacbs.Keys <= c.vacbs.Keys && n.limbo.Keys == c.vacbs.Keys - n.vacbs.Keys
  }

  ghost predicate FreedCount(c: Cc, n: Cc, freed: nat)
  {
    freed == |c.vacbs.Keys - n.vacbs.Keys|
  }

  lemma {:induction false} GoneStart(c: Cc)
    requires c.limbo == map[]
    ensures Gone(c, c)
  {
  }

  lemma {:induction false} GoneNext(c: Cc, b: Cc, v: nat)
    requires Gone(c, b) && v in b.vacbs && b.vacbs[v].file in b.files
    ensures Gone(c, Unlink(b, v))
  {
  }

  lemma {:induction false} GoneCount(c: Cc, n: Cc, list: seq<nat>)
    requires Gone(c, n) && Lists(list, n.limbo.Keys)
    ensures FreedCount(c, n.(limbo := map[]), |list|)
  {
    ListsSize(list, n.limbo.Keys);
  }

  lemma {:induction false} UnlinkLimbo(c: Cc, v: nat)
    requires v in c.vacbs && c.vacbs[v].file in c.files
    ensures Unlink(c, v).limbo.Keys == c.limbo.Keys + {v}
  {
  }

  // ----- Small facts about flushes and purges

  lemma {:induction false} FlushedFiles(c: Cc, n: Cc, f: nat, failing: set<nat>, lo: nat)
    requires f in c.files && FlushedBetween(c, n, f, lo, lo + G, failing)
    ensures f in n.files
  {
  }

  lemma {:induction false} FlushedSettled(c: Cc, n: Cc, f: nat, lo: nat, hi: nat, failing: set<nat>)
    requires FlushedBetween(c, n, f, lo, hi, failing)
    ensures Settled(c, n) && n.disk.Keys == c.disk.Keys
  {
  }

  lemma {:induction false} TouchesNothing(c: Cc, v: nat)
    requires v in c.vacbs
    ensures Touches(c, c, v)
  {
  }

  lemma {:induction false} ReleasedTouches(b: Cc, c: Cc, c1: Cc, n: Cc, v: nat)
    requires v in b.vacbs && v in b.holders && c == Hold(b, v) && Touches(c, c1, v) && v in c1.vacbs
    requires ReleasedTo(c1, n, v, c1.vacbs[v].valid, c1.vacbs[v].dirty) && c1.vacbs.Keys == c.vacbs.Keys
    requires forall u :: u in c.vacbs && u != v ==> c1.vacbs[u] == c.vacbs[u]
    ensures Touches(b, n, v)
    ensures forall u :: u in b.vacbs && u != v ==> u in n.vacbs && n.vacbs[u].dirty == b.vacbs[u].dirty
  {
  }

  // A stripe held, written back if dirty, and released with its flags.
  lemma {:induction false} FlushAtEnds(b: Cc, c: Cc, c1: Cc, n: Cc, v: nat, f: nat, lo: nat, failing: set<nat>,
                                       m: map<nat, seq<byte>>)
    requires Structure(b) && Aligned(lo) && v in b.vacbs && v in b.holders && Covers(b.vacbs[v], f, lo)
    requires c == Hold(b, v)
    requires Structure(c1) && Refines(c1, m) && Cleaned(c, c1) && Touches(c, c1, v) && v in c1.vacbs
    requires forall u :: u in c.vacbs && u != v ==> u in c1.vacbs && c1.vacbs[u] == c.vacbs[u]
    requires c1.vacbs[v].dirty == (b.vacbs[v].dirty && lo in failing)
    requires ReleasedTo(c1, n, v, c1.vacbs[v].valid, c1.vacbs[v].dirty)
    ensures Refines(n, m) && n.limbo == c1.limbo && FlushedBetween(b, n, f, lo, lo + G, failing)
  {
    assert c1.vacbs.Keys == c.vacbs.Keys;
    hide Structure, Refines, Cleaned, ReleasedTo, Touches, FlushedBetween;
    CleanedHeld(b, c, c1, v);
    Facts(c1, v);
    ReleasedQuiet(c1, n, v, c1.vacbs[v].valid, c1.vacbs[v].dirty, m);
    ReleasedIsUnhold(b, c1, n, v);
    ReleasedTouches(b, c, c1, n, v);
    FlushedOne(b, n, v, f, lo, failing);
  }

  lemma {:induction false} NotCovered(c: Cc, f: nat, off: nat)
    requires Structure(c) && forall v :: v in c.vacbs ==> !Covers(c.vacbs[v], f, off)
    ensures forall v :: v in c.vacbs ==> !Covers(c.vacbs[v], f, RoundDown(off))
  {
    hide FileOk, QueuesOk, LimboOk;
    forall v | v in c.vacbs ensures Covers(c.vacbs[v], f, RoundDown(off)) ==> Covers(c.vacbs[v], f, off) {
      assert StripeOk(c, v);
    }
  }

  lemma {:induction false} ContentIsDisk(m0: map<nat, seq<byte>>, m: map<nat, seq<byte>>, f: nat, disk: map<nat,
                                         seq<byte>>)
    requires f in m0 && f in m && f in disk && m[f] == disk[f] && m.Keys == m0.Keys
    requires forall g :: g in m0 && g != f ==> m[g] == m0[g]
    ensures m == m0 <==> disk[f] == m0[f]
  {
  }

  lemma {:induction false} PurgeEmpties(c: Cc, m0: map<nat, seq<byte>>, n: Cc, m: map<nat, seq<byte>>, f: nat,
                                        start: nat, end: nat)
    requires PurgeStep(c, m0, n, m, f, start, end)
    requires forall v :: v in n.vacbs && n.vacbs[v].file == f && f in n.files ==> !InPurge(n, v, f, start, end)
    ensures RangeEmpty(n, f, start, end) <==> !EndsAt(c, f, start, end)
  {
    PurgeExact(c, n, f, start, end);
  }

  // No stripe ends before the end of `v` and starts at `v` or later.
  lemma {:induction false} PurgeNone(c: Cc, v: nat)
    requires Structure(c) && v in c.vacbs && c.vacbs[v].file in c.files
    ensures c.vacbs[v].offset < ViewEnd(c, v)
    ensures forall u :: u in c.vacbs && c.vacbs[u].file in c.files ==>
              !InPurge(c, u, c.vacbs[v].file, c.vacbs[v].offset, ViewEnd(c, v))
  {
    hide FileOk, QueuesOk, LimboOk;
    assert StripeOk(c, v);
  }

  lemma {:induction false} PurgeNoneLeft(c: Cc, m0: map<nat, seq<byte>>, n: Cc, m: map<nat, seq<byte>>, f: nat,
                                         start: nat, end: nat)
    requires PurgeStep(c, m0, n, m, f, start, end)
    requires forall u :: u in c.vacbs && c.vacbs[u].file in c.files ==> !InPurge(c, u, f, start, end)
    ensures n.vacbs == c.vacbs
    ensures forall u :: u in n.vacbs && n.vacbs[u].file in n.files ==> !InPurge(n, u, f, start, end)
  {
    forall v | v in c.vacbs ensures v in n.vacbs && n.vacbs[v] == c.vacbs[v] {
    }
  }

  // ----- A stripe that is marked dirty before it was ever read

  /** The next fill forgets what the stripe held: whatever it was, the stripe ends up the same. */
  lemma {:induction false} FillForgets(c: Cc, v: nat, d: seq<byte>)
    requires v in c.vacbs && c.vacbs[v].file in c.disk
    ensures var x := c.vacbs[v];
            var marked := Put(c, v, x.(data := d, dirty := true));
            Put(marked, v, marked.vacbs[v].(data := Filled(c.disk[x.file], x.offset))) ==
            Put(c, v, x.(data := Filled(c.disk[x.file], x.offset), dirty := true))
  {
    var x := c.vacbs[v];
    var m := c.vacbs[v := x.(data := d, dirty := true)];
    var y := x.(data := Filled(c.disk[x.file], x.offset), dirty := true);
    assert m[v := y] == c.vacbs[v := y];
  }

  /** A flush before that writes what the stripe holds over the file: the file survives if and only if the stripe
      happens to hold what the medium holds. */
  lemma {:induction false} UnreadFlush(c: Cc, m: map<nat, seq<byte>>, v: nat)
    requires Refines(c, m) && v in c.vacbs && !c.vacbs[v].dirty && c.vacbs[v].file in c.disk && |c.vacbs[v].data| == G
    ensures WriteBack(c, v, c.vacbs[v].data).disk == c.disk <==> Saved(c.vacbs[v], c.disk[c.vacbs[v].file])
  {
    var x := c.vacbs[v];
    var d, w := c.disk[x.file], WrittenBack(c.disk[x.file], x.offset, x.data);
    if Saved(x, d) {
      forall p | 0 <= p < |d| ensures w[p] == d[p] {
        if x.offset <= p < x.offset + G {
          assert x.data[p - x.offset] == d[x.offset + (p - x.offset)];
        }
      }
      assert w == d && c.disk[x.file := w] == c.disk;
    } else {
      var i :| 0 <= i < |x.data| && x.offset + i < |d| && x.data[i] != d[x.offset + i];
      assert w[x.offset + i] != d[x.offset + i];
      assert c.disk[x.file := w][x.file] != c.disk[x.file];
    }
  }
}
