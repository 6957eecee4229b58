/** The file cache manager: stripe lookup and creation, release, flush, trim, prune, purge and copy.
    Each operation runs to its end before the next one. */
module Cache {
  import opened Options
  import opened Bytes
  import opened Seqs
  import opened CacheState
  import opened CacheData

  const MAXLONGLONG: nat := 0x7FFF_FFFF_FFFF_FFFF

  function PurgeEnd(start: nat, length: nat): nat
  {
    if length == 0 then MAXLONGLONG else start + length
  }

  function Min(a: nat, b: nat): nat
  {
    if a < b then a else b
  }

  class CacheManager {
    var cc: Cc
    var readable: bool                      // whether reads of the medium succeed
    ghost var content: map<nat, seq<byte>>  // the plain byte array each file stands for

    ghost predicate Consistent()
      reads this
    {
      Structure(cc) && Refines(cc, content)
    }

    ghost predicate Valid()
      reads this
    {
      Consistent() && cc.limbo == map[]
    }

    /** A cache over files that are not cached yet. */
    constructor (disk: map<nat, seq<byte>>, fileSizes: map<nat, nat>, temporary: set<nat>, readable: bool)
      requires forall f :: f in disk ==> f in fileSizes && fileSizes[f] <= |disk[f]|
      ensures this.readable == readable && Valid() && cc.disk == disk == content && cc.vacbs == map[]
      ensures cc.files.Keys == disk.Keys
      ensures forall f :: f in disk ==> cc.files[f].section == |disk[f]| && cc.files[f].fileSize == fileSizes[f]
    {
      var files := map f | f in disk :: File(|disk[f]|, fileSizes[f], [], 0, f in temporary);
      cc := Cc(map[], map[], files, [], [], 0, disk, 0, map[]);
      this.readable, content := readable, disk;
      new;
      assert DirtySet(cc) == {} && forall f :: DirtyIn(cc, f) == {};
    }

    /** CcRosLookupVacb's search, with its early exit: it finds a stripe exactly when there is one. */
    method FindStripe(f: nat, off: nat) returns (r: Option<nat>)
      requires Structure(cc) && f in cc.files
      ensures r.Some? ==> r.value in cc.vacbs && Covers(cc.vacbs[r.value], f, off)
      ensures r.None? ==> forall v :: v in cc.vacbs ==> !Covers(cc.vacbs[v], f, off)
    {
      hide Structure;
      ListFacts(cc, f);
      var l := cc.files[f].list;
      var i := 0;
      while i < |l|
        invariant i <= |l|
        invariant forall k :: 0 <= k < i ==> !Covers(cc.vacbs[l[k]], f, off)
      {
        var x := cc.vacbs[l[i]];
        if x.offset <= off < x.offset + G {
          return Some(l[i]);
        }
        if x.offset > off {
          break;
        }
        i := i + 1;
      }
      forall v | v in cc.vacbs && cc.vacbs[v].file == f ensures !Covers(cc.vacbs[v], f, off) {
        var k :| 0 <= k < |l| && l[k] == v;
      }
      r := None;
    }

    /** CcRosCreateVacb's search: an existing stripe, or the place for a new one. */
    method FindSlot(f: nat, off: nat) returns (r: Option<nat>, k: nat)
      requires Structure(cc) && f in cc.files
      ensures r.Some? ==> r.value in cc.vacbs && Covers(cc.vacbs[r.value], f, off)
      ensures r.None? ==> Slot(cc, f, RoundDown(off), k)
    {
      hide Structure;
      ListFacts(cc, f);
      var l := cc.files[f].list;
      k := 0;
      while k < |l|
        invariant k <= |l|
        invariant forall i :: 0 <= i < k ==> cc.vacbs[l[i]].offset < RoundDown(off)
      {
        var x := cc.vacbs[l[k]];
        Facts(cc, l[k]);
        if x.offset <= off < x.offset + G {
          return Some(l[k]), k;
        }
        if x.offset > off {
          break;
        }
        k := k + 1;
      }
      r := None;
    }

    /** Takes an unused stripe off the lists. */
    method UnlinkStripe(v: nat)
      requires Consistent() && v in cc.vacbs && cc.vacbs[v].refs == 1
      modifies this`cc
      ensures Consistent() && old(cc).vacbs[v].file in old(cc).files && cc == Unlink(old(cc), v)
      ensures !old(cc).vacbs[v].dirty && old(cc).vacbs[v].mapped == 0 && !InUse(old(cc), v)
    {
      hide Structure, Refines;
      UnlinkKeeps(cc, v);
      ghost var c := cc;
      cc := Unlink(cc, v);
      BookkeepingKeeps(c, cc, content);
    }

    /** Drops the last reference of every unlinked stripe. */
    method FreeList(list: seq<nat>) returns (freed: nat)
      requires Consistent() && Lists(list, cc.limbo.Keys)
      modifies this`cc
      ensures Valid() && cc == old(cc).(limbo := map[]) && freed == |list|
    {
      freed := 0;
      var rest := list;
      while rest != []
        invariant Consistent() && Lists(rest, cc.limbo.Keys) && cc == old(cc).(limbo := cc.limbo)
        invariant freed + |rest| == |list|
        decreases |rest|
      {
        hide Structure, Refines;
        var v := rest[0];
        assert v in rest;
        FreeKeeps(cc, v);
        assert cc.limbo[v].refs - 1 == 0;
        ghost var c := cc;
        cc := cc.(limbo := cc.limbo - {v});
        BookkeepingKeeps(c, cc, content);
        freed := freed + 1;
        ListsRemoved(rest, c.limbo.Keys, v);
        rest := rest[1..];
        assert cc.limbo.Keys == c.limbo.Keys - {v};
      }
    }

    /** CcRosFreeUnusedVacb: frees exactly the stripes that nobody holds, that are clean and not mapped. */
    method FreeUnusedVacb() returns (freed: nat)
      requires Valid()
      modifies this`cc
      ensures Valid() && Pruned(old(cc), cc, []) && Kept(old(cc), cc) && FreedCount(old(cc), cc, freed)
    {
      hide Structure, Refines, Kept, Pruned, Gone, FreedCount, Unlink;
      var rest, list := cc.lru, [];
      PrunedStart(cc);
      GoneStart(cc);
      while rest != []
        invariant Consistent() && Lists(list, cc.limbo.Keys) && Distinct(rest) && Pruned(old(cc), cc, rest)
        invariant Gone(old(cc), cc)
        decreases |rest|
      {
        ghost var c := cc;
        PrunedHead(old(cc), cc, rest);
        var v := rest[0];
        Facts(cc, v);
        if cc.vacbs[v].refs < 2 {
          UnlinkStripe(v);
          UnlinkLimbo(c, v);
          GoneNext(old(cc), c, v);
          ListsAdded(list, c.limbo.Keys, v);
          list := list + [v];
        }
        PrunedStep(old(cc), c, rest, cc);
        rest := rest[1..];
      }
      ghost var c := cc;
      GoneCount(old(cc), c, list);
      freed := FreeList(list);
      PrunedEnd(old(cc), c, cc);
    }

    /** CcRosLookupVacb: the stripe that covers `off`, held, or nothing. */
    method LookupVacb(f: nat, off: nat) returns (r: Option<nat>)
      requires Consistent() && f in cc.files
      modifies this`cc
      ensures Consistent() && cc.limbo == old(cc).limbo
      ensures r.Some? ==> r.value in old(cc).vacbs && r.value in old(cc).holders && cc == Hold(old(cc), r.value)
      ensures r.Some? ==> Covers(old(cc).vacbs[r.value], f, off)
      ensures r.Some? ==> Gotten(old(cc), cc, r.value, f, off)
      ensures r.None? ==> cc == old(cc) && forall v :: v in cc.vacbs ==> !Covers(cc.vacbs[v], f, off)
    {
      hide Structure, Refines, Gotten;
      r := FindStripe(f, off);
      if r.Some? {
        HoldKeeps(cc, r.value);
        HeldIsGotten(cc, r.value, f, off);
        ghost var c := cc;
        cc := Hold(cc, r.value);
        BookkeepingKeeps(c, cc, content);
      }
    }

    /** CcRosCreateVacb. Mapping the new stripe succeeds at once, or after unused stripes are pruned;
        `memory` is what the mapped pages hold. */
    method CreateVacb(f: nat, off: nat, pruneFirst: bool, memory: seq<byte>) returns (r: Option<nat>)
      requires Valid() && f in cc.files && |memory| == G
      modifies this`cc
      ensures Valid()
      ensures r.None? <==> off >= old(cc).files[f].section
      ensures r.Some? ==> Gotten(old(cc), cc, r.value, f, off)
      ensures r.None? ==> cc == old(cc)
    {
      hide Structure, Refines, Kept, Pruned, Gotten, FreedCount;
      if off >= cc.files[f].section {
        return None;
      }
      KeptRefl(cc);
      if pruneFirst {
        var freed := FreeUnusedVacb();
      }
      KeptFiles(old(cc), cc, f);
      ghost var c := cc;
      var k;
      r, k := FindSlot(f, off);
      if r.Some? {
        HoldKeeps(cc, r.value);
        HeldIsGotten(cc, r.value, f, off);
        cc := Hold(cc, r.value);
      } else {
        var v := cc.nextId;
        SlotRange(cc, f, RoundDown(off), k);
        SectionsOf(cc, content, f);
        LinkKeeps(cc, f, RoundDown(off), memory, k);
        LinkedIsGotten(cc, v, f, RoundDown(off), memory, k, off);
        cc := Link(cc, v, f, RoundDown(off), memory, k);
        r := Some(v);
      }
      BookkeepingKeeps(c, cc, content);
      GottenFrom(old(cc), c, cc, r.value, f, off);
    }

    /** CcRosGetVacb: look the stripe up, or create it, and make it the most recently used. */
    method GetVacb(f: nat, off: nat, pruneFirst: bool, memory: seq<byte>) returns (r: Option<nat>)
      requires Valid() && f in cc.files && |memory| == G
      modifies this`cc
      ensures Valid()
      ensures r.None? ==> off >= old(cc).files[f].section && cc == old(cc)
      ensures r.Some? ==> Gotten(old(cc), cc, r.value, f, off)
    {
      hide Structure, Refines, Kept, Pruned, Gotten;
      r := LookupVacb(f, off);
      if r.None? {
        r := CreateVacb(f, off, pruneFirst, memory);
      }
      if r.Some? {
        GottenLru(old(cc), cc, r.value, f, off);
        GottenMember(old(cc), cc, r.value, f, off);
        ghost var c := cc;
        LruKeeps(cc, r.value);
        cc := MoveToLruTail(cc, r.value);
        BookkeepingKeeps(c, cc, content);
      }
    }

    /** CcRosReleaseVacb. */
    method ReleaseVacb(v: nat, valid: bool, dirty: bool, mapped: bool)
      requires Structure(cc) && v in cc.vacbs && v in cc.holders && cc.holders[v] > 0
      requires cc.vacbs[v].dirty || dirty ==> valid
      modifies this`cc
      ensures Structure(cc)
      ensures !mapped ==> ReleasedTo(old(cc), cc, v, valid, dirty)
      ensures mapped ==> ReleasedMapped(old(cc), cc, v, valid, dirty)
    {
      hide Structure, ReleasedTo, ReleasedMapped;
      Facts(cc, v);
      ReleaseSteps(cc, v, valid, dirty);
      ReleaseMappedSteps(cc, v, valid, dirty);
      SetValidKeeps(cc, v, valid);
      cc := SetValid(cc, v, valid);
      if dirty && !cc.vacbs[v].dirty {
        MarkKeeps(cc, v);
        cc := MarkDirty(cc, v);
      }
      if mapped {
        MapKeeps(cc, v);
        cc := MapOnce(cc, v);
      }
      UnholdKeeps(cc, v);
      cc := Unhold(cc, v);
      Facts(cc, v);
      assert cc.vacbs[v].refs > 0;
    }

    /** CcReadVirtualAddress: fills a stripe from the medium; the read may fail. */
    method ReadVirtualAddress(v: nat) returns (ok: bool)
      requires Consistent() && v in cc.vacbs && !cc.vacbs[v].valid
      modifies this`cc
      ensures readable ==> ok
      ensures Consistent() && v in cc.vacbs && old(cc).vacbs[v].file in old(cc).disk
      ensures cc == Put(old(cc), v, old(cc).vacbs[v].(data := cc.vacbs[v].data))
      ensures ok ==> cc.vacbs[v].data == Filled(old(cc).disk[old(cc).vacbs[v].file], old(cc).vacbs[v].offset)
    {
      hide Structure;
      FillHolds(cc, v, content);
      hide Refines;
      ok := *;
      ok := ok || readable;
      var data := Filled(cc.disk[cc.vacbs[v].file], cc.vacbs[v].offset);
      if !ok {
        var junk: seq<byte> := *;
        if |junk| == G { data := junk; }
      }
      ScratchKeeps(cc, v, content, data);
      cc := Put(cc, v, cc.vacbs[v].(data := data));
    }

    method MapPages() returns (memory: seq<byte>)
      ensures |memory| == G
    {
      memory := seq(G, _ => 0);
    }

    /** The end of a stripe's write: copy the bytes in, release it valid and dirty. */
    method StoreAndRelease(v: nat, f: nat, off: nat, b: seq<byte>, ghost c0: Cc)
      requires Valid() && Gotten(c0, cc, v, f, RoundDown(off)) && v in cc.vacbs && cc.vacbs[v].file == f && f in content
      requires cc.vacbs[v].offset == RoundDown(off) && off - RoundDown(off) + |b| <= G && off + |b| <= |content[f]|
      requires |b| == G || StripeHolds(cc.vacbs[v].(valid := true), content)
      modifies this`cc, this`content
      ensures Valid() && Kept(c0, cc) && content == old(content)[f := Splice(old(content)[f], off, b)]
    {
      hide Structure, Refines, Kept, Gotten, StripeHolds, ReleasedTo;
      ghost var c1 := cc;
      var at := off - RoundDown(off);
      GottenMember(c0, cc, v, f, RoundDown(off));
      Facts(cc, v);
      var data := Splice(cc.vacbs[v].data, at, b);
      StoreStructure(cc, v, data);
      GottenData(c0, c1, v, f, RoundDown(off), data);
      cc := Put(cc, v, cc.vacbs[v].(data := data));
      ghost var c2 := cc;
      ReleaseVacb(v, true, true, false);
      ReleasedKept(c0, c2, cc, v, true, true, f, RoundDown(off));
      ReleasedLimbo(c2, cc, v, true, true);
      ReleaseAfterWrite(c1, c2, cc, v, at, b, content);
      content := content[f := Splice(content[f], off, b)];
    }

    /** The end of a stripe's read: copy the bytes out, release it valid. */
    method LoadAndRelease(v: nat, f: nat, off: nat, n: nat, ghost c0: Cc) returns (got: seq<byte>)
      requires Valid() && Gotten(c0, cc, v, f, RoundDown(off)) && v in cc.vacbs && cc.vacbs[v].file == f && f in content
      requires cc.vacbs[v].offset == RoundDown(off) && off - RoundDown(off) + n <= G && off + n <= |content[f]|
      requires StripeHolds(cc.vacbs[v].(valid := true), content)
      modifies this`cc
      ensures Valid() && Kept(c0, cc) && got == content[f][off..off + n]
    {
      hide Structure, Refines, Kept, Gotten, StripeHolds, ReleasedTo;
      ghost var c1 := cc;
      var at := off - RoundDown(off);
      GottenMember(c0, cc, v, f, RoundDown(off));
      Facts(cc, v);
      SliceHolds(cc.vacbs[v].(valid := true), content, at, n);
      got := cc.vacbs[v].data[at..at + n];
      ReleaseVacb(v, true, false, false);
      ReleasedKept(c0, c1, cc, v, true, false, f, RoundDown(off));
      ReleasedLimbo(c1, cc, v, true, false);
      ReleaseAfterRead(c1, cc, v, content);
    }

    /** The start of a stripe's copy: hold the stripe, and read the medium unless it is valid or about to
        be overwritten entirely (`skipRead`). If the read fails the stripe is released again. */
    method RequestStripe(f: nat, off: nat, skipRead: bool) returns (ok: bool, v: nat)
      requires Valid() && f in cc.files && RoundDown(off) < cc.files[f].section
      modifies this`cc
      ensures Valid()
      ensures ok ==> Gotten(old(cc), cc, v, f, RoundDown(off)) && v in cc.vacbs && cc.vacbs[v].file == f
      ensures ok ==>
                cc.vacbs[v].offset == RoundDown(off) && (skipRead || StripeHolds(cc.vacbs[v].(valid := true), content))
      ensures (!ok ==> Kept(old(cc), cc)) && (readable ==> ok)
    {
      hide Structure, Refines, Kept, Gotten, StripeHolds, ReleasedTo;
      var prune: bool := *;
      var memory := MapPages();
      var r := GetVacb(f, RoundDown(off), prune, memory);
      v := r.value;
      ghost var c := cc;
      ok := true;
      GottenAt(old(cc), cc, v, f, off);
      var read := !cc.vacbs[v].valid && !skipRead;
      if read {
        ok := ReadVirtualAddress(v);
        GottenData(old(cc), c, v, f, RoundDown(off), cc.vacbs[v].data);
      }
      ghost var c1 := cc;
      if !ok {
        NotDirty(cc, v);
        ReleaseVacb(v, false, false, false);
        ReleaseAfterFailure(c1, cc, v, content);
        ReleasedKept(old(cc), c1, cc, v, false, false, f, RoundDown(off));
        ReleasedLimbo(c1, cc, v, false, false);
      } else if read || c.vacbs[v].valid {
        ReadyHolds(c, c1, v, content, read);
      }
    }

    /** One stripe of CcCopyData: `n` bytes at `off`, all in one stripe. */
    method CopyStripe(f: nat, off: nat, n: nat, write: bool, b: seq<byte>) returns (ok: bool, got: seq<byte>)
      requires Valid() && f in cc.files && RoundDown(off) < cc.files[f].section
      requires off + n <= cc.files[f].section && off - RoundDown(off) + n <= G && (write ==> |b| == n)
      modifies this`cc, this`content
      ensures Valid() && Kept(old(cc), cc) && (readable ==> ok)
      ensures f in old(content) && f in content && off + n <= |old(content)[f]|
      ensures content == if ok && write then old(content)[f := Splice(old(content)[f], off, b)] else old(content)
      ensures ok && !write ==> got == content[f][off..off + n]
    {
      hide Structure, Refines, Kept, Gotten, StripeHolds;
      SectionsOf(cc, content, f);
      var v;
      ok, v := RequestStripe(f, off, write && n == G);
      got := [];
      if ok && write {
        StoreAndRelease(v, f, off, b, old(cc));
      } else if ok {
        got := LoadAndRelease(v, f, off, n, old(cc));
      }
    }

    /** The next `n` bytes of a copy, in one stripe. */
    method CopyNext(f: nat, off: nat, op: Operation, b: seq<byte>, done: nat, n: nat, out: seq<byte>,
                    ghost m0: map<nat, seq<byte>>)
      returns (ok: bool, out': seq<byte>)
      requires Valid() && f in cc.files && Progress(content, m0, f, off, op, b, done, out) && done + n <= |b|
      requires off + |b| <= cc.files[f].section && RoundDown(off + done) < cc.files[f].section
      requires off + done - RoundDown(off + done) + n <= G
      modifies this`cc, this`content
      ensures Valid() && Kept(old(cc), cc) && (readable ==> ok)
      ensures Progress(content, m0, f, off, op, b, if ok then done + n else done, out')
    {
      hide Structure, Refines, Kept, Splice;
      SectionsOf(cc, content, f);
      var got;
      ok, got := CopyStripe(f, off + done, n, !op.Read?, b[done..done + n]);
      StoredMore(m0, f, off, b, done, n);
      out' := out;
      if ok && op.Read? {
        ReadMore(content[f], off, done, n);
        out' := out + got;
      }
    }

    /** Whether a copy that must not wait may go on: no invalid stripe meets the range. */
    method DataAvailable(f: nat, off: nat, len: nat) returns (ok: bool)
      requires Structure(cc) && f in cc.files
      ensures ok <==> Available(cc, f, off, len)
    {
      hide Structure;
      ListFacts(cc, f);
      var l := cc.files[f].list;
      var i := 0;
      while i < |l|
        invariant i <= |l|
        invariant forall k :: 0 <= k < i ==> cc.vacbs[l[k]].valid || !Meets(cc.vacbs[l[k]], f, off, len)
      {
        var x := cc.vacbs[l[i]];
        if !x.valid && off < x.offset + G && x.offset < off + len {
          return false;
        }
        if x.offset >= off + len {
          break;
        }
        i := i + 1;
      }
      forall v | v in cc.vacbs && Meets(cc.vacbs[v], f, off, len) ensures cc.vacbs[v].valid {
        var k :| 0 <= k < |l| && l[k] == v;
      }
      ok := true;
    }

    /** CcCopyData: reads return the file's bytes, writes and zeroes change just the bytes they cover. A
        failed read of the medium ends the copy early, after `copied` bytes. A copy that must not wait is
        refused if an invalid stripe meets the range. */
    method CopyData(f: nat, off: nat, len: nat, op: Operation, buffer: seq<byte>, wait: bool)
      returns (ok: bool, copied: nat, out: seq<byte>)
      requires Valid() && f in cc.files && off + len <= cc.files[f].section && (op.Write? ==> |buffer| == len)
      modifies this`cc, this`content
      ensures Valid() && Kept(old(cc), cc)
      ensures Progress(content, old(content), f, off, op, Incoming(op, buffer, len), copied, out)
      ensures (ok ==> copied == len) && (readable && (wait || Available(old(cc), f, off, len)) ==> ok)
      ensures !wait && !Available(old(cc), f, off, len) ==> !ok && copied == 0 && cc == old(cc)
    {
      hide Structure, Refines, Kept, Progress, Available;
      var b := Incoming(op, buffer, len);
      SectionsOf(cc, content, f);
      KeptRefl(cc);
      ProgressStart(content, f, off, op, b);
      ok, copied, out := true, 0, [];
      if !wait {
        ok := DataAvailable(f, off, len);
        if !ok {
          return;
        }
      }
      var partial := off % G;
      if partial != 0 {
        partial := if len < G - partial then len else G - partial;
        ok, out := CopyNext(f, off, op, b, 0, partial, out, old(content));
        if !ok {
          return;
        }
        copied := partial;
      }
      while copied < len
        invariant Valid() && Kept(old(cc), cc) && Progress(content, old(content), f, off, op, b, copied, out)
        invariant ok && copied <= len && (copied < len ==> Aligned(off + copied))
        decreases len - copied
      {
        partial := if G < len - copied then G else len - copied;
        ghost var c := cc;
        KeptFiles(old(cc), cc, f);
        ok, out := CopyNext(f, off, op, b, copied, partial, out, old(content));
        KeptTransitive(old(cc), c, cc);
        if !ok {
          return;
        }
        copied := copied + partial;
      }
    }

    /** CcPerformReadAhead: brings stripes into the cache, no further than the end of the file; no byte of
        any file changes. */
    method PerformReadAhead(f: nat, off: nat, length: nat)
      requires Valid() && f in cc.files
      modifies this`cc
      ensures Valid() && Kept(old(cc), cc)
    {
      hide Structure, Refines, Kept, Gotten, StripeHolds;
      KeptRefl(cc);
      SectionsOf(cc, content, f);
      var fileSize := cc.files[f].fileSize;
      if off >= fileSize {
        return;
      }
      var end := if off + length > fileSize then fileSize else off + length;
      var current := off;
      while current < end
        invariant Valid() && Kept(old(cc), cc) && current <= end
        decreases end - current
      {
        ghost var c := cc;
        KeptFiles(old(cc), cc, f);
        var ok, v := RequestStripe(f, current, false);
        if ok {
          var got := LoadAndRelease(v, f, current, 0, c);
        }
        KeptTransitive(old(cc), c, cc);
        if !ok {
          return;
        }
        var next := RoundDown(current) + G;
        current := if next < end then next else end;
      }
    }

    /** CcRosFlushVacb: the dirty flag is cleared before the write, and set again if the write fails. */
    method FlushVacb(v: nat, writes: bool)
      requires Consistent() && v in cc.vacbs && cc.vacbs[v].dirty
      modifies this`cc
      ensures Consistent() && Cleaned(old(cc), cc) && v in cc.vacbs && cc.vacbs[v].dirty == !writes
      ensures forall u :: u in old(cc).vacbs && u != v ==> u in cc.vacbs && cc.vacbs[u] == old(cc).vacbs[u]
      ensures Touches(old(cc), cc, v) && (!writes ==> cc.vacbs == old(cc).vacbs)
      ensures |cc.dirtyList| == |old(cc).dirtyList| - (if writes then 1 else 0)
    {
      hide Structure, Refines, Cleaned, UnmarkDirty, MarkDirty, WriteBack, Touches;
      FlushedShortens(cc, v);
      if writes {
        FlushedKeeps(cc, v, content);
        FlushedCleaned(cc, v);
        var d := cc.vacbs[v].data;
        FlushedPlace(cc, v, d);
        cc := UnmarkDirty(cc, v);
        cc := WriteBack(cc, v, d);
      } else {
        var d := MapPages();
        var junk: seq<byte> := *;
        if |junk| == G { d := junk; }
        RefusedKeeps(cc, v, content, d);
        RefusedCleaned(cc, v, d);
        FlushedPlace(cc, v, d);
        cc := UnmarkDirty(cc, v);
        cc := WriteBack(cc, v, d);
        assert !cc.vacbs[v].dirty;
        cc := MarkDirty(cc, v);
      }
    }

    /** One dirty stripe of CcRosFlushDirtyPages: held during the write. */
    method FlushHeld(v: nat, writes: bool)
      requires Consistent() && v in cc.vacbs && cc.vacbs[v].dirty
      modifies this`cc
      ensures Consistent() && Cleaned(old(cc), cc) && (!writes ==> cc.vacbs == old(cc).vacbs)
      ensures |cc.dirtyList| == |old(cc).dirtyList| - (if writes then 1 else 0)
    {
      hide Structure, Refines, Cleaned, Touches;
      ghost var c := cc;
      HoldKeeps(cc, v);
      HoldUnhold(cc, v);
      cc := Hold(cc, v);
      BookkeepingKeeps(c, cc, content);
      ghost var c1 := cc;
      FlushVacb(v, writes);
      ghost var c2 := cc;
      CleanedHeld(c, c1, c2, v);
      UnholdKeeps(cc, v);
      cc := Unhold(cc, v);
      BookkeepingKeeps(c2, cc, content);
    }

    /** CcRosFlushDirtyPages, when the files that can be locked stay the same. `outcomes` tells how the first
        writes go; the later ones succeed, so this is any run of the loop that ends. It stops with the target
        met, exceeded by less than a stripe, or with no eligible dirty stripe left. */
    method FlushDirtyPages(target: nat, lazy: bool, locked: set<nat>, outcomes: seq<Outcome>) returns (count: nat)
      requires Consistent()
      modifies this`cc
      ensures Consistent() && Cleaned(old(cc), cc) && |cc.dirtyList| <= |old(cc).dirtyList|
      ensures count >= Pages(|old(cc).dirtyList| - |cc.dirtyList|)
      ensures Protected !in outcomes ==> count == Pages(|old(cc).dirtyList| - |cc.dirtyList|)
      ensures count == 0 ==> cc.vacbs == old(cc).vacbs
      ensures || target <= count < target + PAGES
              || (count < target && forall v :: v in cc.vacbs && cc.vacbs[v].dirty ==>
                    cc.vacbs[v].file in cc.files && !Eligible(cc, v, lazy, locked))
    {
      hide Structure, Refines, Cleaned, Passed;
      var left, rest, turn := target, cc.dirtyList, 0;
      count := 0;
      PassedStart(cc, lazy, locked);
      CleanedRefl(cc);
      while rest != [] && left > 0
        invariant Consistent() && Cleaned(old(cc), cc) && Passed(cc, rest, lazy, locked) && turn <= |outcomes|
        invariant |cc.dirtyList| <= |old(cc).dirtyList| && count >= Pages(|old(cc).dirtyList| - |cc.dirtyList|)
        invariant Protected !in outcomes ==> count == Pages(|old(cc).dirtyList| - |cc.dirtyList|)
        invariant count == 0 ==> cc.vacbs == old(cc).vacbs
        invariant if left > 0 then left + count == target else target <= count < target + PAGES || target == count == 0
        decreases |outcomes| - turn, |cc.dirtyList|, |rest|
      {
        PassedMember(cc, rest, lazy, locked);
        var v := rest[0];
        var x := cc.vacbs[v];
        if (lazy && cc.files[x.file].temporary) || x.file !in locked {
          Facts(cc, v);
          HoldUnhold(cc, v);
          cc := Hold(cc, v);
          cc := Unhold(cc, v);
          PassedSkip(cc, rest, lazy, locked);
          rest := rest[1..];
        } else {
          ghost var c := cc;
          var outcome := if turn < |outcomes| then outcomes[turn] else Written;
          turn := if turn < |outcomes| then turn + 1 else turn;
          FlushHeld(v, outcome.Written?);
          CleanedTransitive(old(cc), c, cc);
          if !outcome.Failed? {
            count := count + PAGES;
            left := if left < PAGES then 0 else left - PAGES;
          }
          rest := cc.dirtyList;
          PassedStart(cc, lazy, locked);
        }
      }
      if left > 0 {
        PassedAll(cc, lazy, locked);
      }
    }

    /** One pass of CcRosTrimCache over the LRU list. */
    method TrimPass(target: nat, list: seq<nat>) returns (left: nat, freed: nat, list': seq<nat>)
      requires Consistent() && Lists(list, cc.limbo.Keys)
      modifies this`cc
      ensures Consistent() && Lists(list', cc.limbo.Keys) && Pruned(old(cc), cc, [])
      ensures |list| <= |list'| && freed + left == target && freed == Min(target, Pages(|list'| - |list|))
    {
      hide Structure, Refines, Kept, Pruned;
      var rest := cc.lru;
      left, freed, list' := target, 0, list;
      PrunedStart(cc);
      while rest != []
        invariant Consistent() && Lists(list', cc.limbo.Keys) && Distinct(rest) && Pruned(old(cc), cc, rest)
        invariant |list| <= |list'| && freed + left == target && freed == Min(target, Pages(|list'| - |list|))
        decreases |rest|
      {
        ghost var c := cc;
        PrunedHead(old(cc), cc, rest);
        var v := rest[0];
        Facts(cc, v);
        HoldUnhold(cc, v);
        cc := Hold(cc, v);
        cc := Unhold(cc, v);
        if cc.vacbs[v].refs < 2 {
          UnlinkStripe(v);
          ListsAdded(list', c.limbo.Keys, v);
          list' := list' + [v];
          var pages := if PAGES < left then PAGES else left;
          left := left - pages;
          freed := freed + pages;
        }
        PrunedStep(old(cc), c, rest, cc);
        rest := rest[1..];
      }
    }

    /** CcRosTrimCache: frees unused stripes, flushing dirty ones when that is not enough. It never counts
        more pages than it was asked for, and leaves no unused stripe behind. */
    method TrimCache(target: nat, locked: set<nat>, outcomes: seq<Outcome>) returns (freed: nat)
      requires Valid()
      modifies this`cc
      ensures Valid() && Kept(old(cc), cc) && freed <= target
      ensures forall v :: v in cc.vacbs ==> cc.vacbs[v].refs >= 2
    {
      hide Structure, Refines, Kept, Pruned, Cleaned;
      var left, list := target, [];
      left, freed, list := TrimPass(left, list);
      PrunedKept(old(cc), cc);
      PrunedUsed(old(cc), cc);
      ghost var c := cc;
      if left > 0 {
        var flushed := FlushDirtyPages(left, false, locked, outcomes);
        CleanedKept(c, cc);
        KeptTransitive(old(cc), c, cc);
        CleanedLimbo(c, cc);
        if flushed < left {
          left := flushed;
        }
        if flushed != 0 {
          ghost var c1 := cc;
          var more;
          left, more, list := TrimPass(left, list);
          freed := freed + more;
          PrunedKept(c1, cc);
          PrunedUsed(c1, cc);
          KeptTransitive(old(cc), c1, cc);
        }
      }
      ghost var c2 := cc;
      var n := FreeList(list);
      KeptLimbo(old(cc), c2, cc);
    }

    /** CcRosUnmapVacb: gives one mapping back. */
    method UnmapVacb(f: nat, off: nat, nowDirty: bool) returns (ok: bool)
      requires Valid() && f in cc.files
      requires forall v :: v in cc.vacbs && Covers(cc.vacbs[v], f, off) ==>
                 cc.vacbs[v].mapped > 0 && (nowDirty ==> cc.vacbs[v].valid)
      modifies this`cc
      ensures Valid()
      ensures ok <==> exists v :: v in old(cc).vacbs && Covers(old(cc).vacbs[v], f, off)
      ensures forall v :: v in old(cc).vacbs && Covers(old(cc).vacbs[v], f, off) ==>
                v in cc.vacbs && cc.vacbs[v].mapped == old(cc).vacbs[v].mapped - 1
    {
      hide Structure, Refines, Kept, Gotten, ReleasedTo;
      var r := LookupVacb(f, off);
      ok := r.Some?;
      if ok {
        var v := r.value;
        ghost var c := cc;
        UnmapKeeps(cc, v);
        cc := UnmapOnce(cc, v);
        BookkeepingKeeps(c, cc, content);
        ghost var c1 := cc;
        ValidIfDirty(cc, v);
        ReleaseVacb(v, cc.vacbs[v].valid, nowDirty, false);
        ReleasedQuiet(c1, cc, v, c1.vacbs[v].valid, nowDirty, content);
        forall u | u in old(cc).vacbs && Covers(old(cc).vacbs[u], f, off) ensures u == v {
          Unique(old(cc), u, v, f, off);
        }
      }
    }

    /** CcFlushCache: it looks at one offset per stripe, starting at `off`. The writes of the stripes at
        `failing` fail. */
    method FlushCache(f: nat, off: nat, length: nat, failing: set<nat>)
      requires Valid() && f in cc.files
      modifies this`cc
      ensures Valid() && FlushedBetween(old(cc), cc, f, RoundDown(off), RoundDown(off) + RoundUp(length), failing)
    {
      hide Structure, Refines, FlushedBetween;
      var current: nat, remaining: nat := off, length;
      FlushedNothing(cc, f, RoundDown(off), failing);
      while remaining > 0
        invariant Valid() && f in cc.files
        invariant RoundDown(current) + RoundUp(remaining) == RoundDown(off) + RoundUp(length)
        invariant RoundDown(off) <= RoundDown(current)
        invariant FlushedBetween(old(cc), cc, f, RoundDown(off), RoundDown(current), failing)
        decreases remaining
      {
        ghost var c := cc;
        FlushAt(f, current, failing);
        RoundDownStep(current);
        RoundUpStep(remaining);
        FlushedNext(old(cc), c, cc, f, RoundDown(off), RoundDown(current), RoundDown(current) + G, failing);
        current := current + G;
        remaining := remaining - (if remaining < G then remaining else G);
        FlushedFiles(c, cc, f, failing, RoundDown(current - G));
      }
    }

    /** A flush of the last byte before a dirty stripe and of its first byte leaves the stripe dirty. */
    method FlushOverlooks(v: nat)
      requires Valid() && v in cc.vacbs && cc.vacbs[v].dirty && cc.vacbs[v].offset > 0
      modifies this`cc
      ensures Valid() && v in cc.vacbs && cc.vacbs[v].dirty
      ensures Meets(cc.vacbs[v], old(cc).vacbs[v].file, old(cc).vacbs[v].offset - 1, 2)
    {
      hide Structure, Refines, FlushedBetween;
      var x := cc.vacbs[v];
      Facts(cc, v);
      OverlookedAt(x.offset);
      FlushCache(x.file, x.offset - 1, 2, {});
      StaysDirty(old(cc), cc, x.file, RoundDown(x.offset - 1), RoundDown(x.offset - 1) + RoundUp(2), v);
    }

    /** One stripe of CcFlushCache. */
    method FlushAt(f: nat, off: nat, failing: set<nat>)
      requires Valid() && f in cc.files
      modifies this`cc
      ensures Valid() && FlushedBetween(old(cc), cc, f, RoundDown(off), RoundDown(off) + G, failing)
    {
      hide Structure, Refines, Kept, Gotten, Cleaned, ReleasedTo, FlushedBetween, Touches;
      var lo := RoundDown(off);
      var r := LookupVacb(f, off);
      if r.Some? {
        var v := r.value;
        ghost var c := cc;
        Facts(cc, v);
        CleanedRefl(cc);
        TouchesNothing(cc, v);
        if cc.vacbs[v].dirty {
          FlushVacb(v, lo !in failing);
        }
        ghost var c1 := cc;
        CleanedHeld(old(cc), c, c1, v);
        CleanedLimbo(c, c1);
        ValidIfDirty(cc, v);
        ReleaseVacb(v, cc.vacbs[v].valid, cc.vacbs[v].dirty, false);
        FlushAtEnds(old(cc), c, c1, cc, v, f, lo, failing, content);
      } else {
        NotCovered(cc, f, off);
        FlushedAbsent(cc, f, lo, failing);
      }
    }

    /** One stripe of CcPurgeCacheSection: off all lists, its bytes forgotten. */
    method PurgeStripe(v: nat)
      requires Consistent() && v in cc.vacbs && MayPurge(cc, v)
      modifies this`cc, this`content
      ensures old(cc).vacbs[v].file in old(cc).files && (old(cc).vacbs[v].dirty ==> MayUnmark(old(cc), v))
      ensures !InUse(old(cc), v)
      ensures v !in old(cc).limbo
      ensures Consistent() && cc == Purged(old(cc), v)
      ensures var f := old(cc).vacbs[v].file;
              && f in old(content) && f in old(cc).disk && |old(content)[f]| == |old(cc).disk[f]|
              && content == Discarded(old(content), old(cc).disk, f, old(cc).vacbs[v].offset)
    {
      hide Structure, Refines, Unlink, UnmarkDirty;
      PurgedKeeps(cc, v, content);
      content := Discarded(content, cc.disk, cc.vacbs[v].file, cc.vacbs[v].offset);
      PurgeUnmark(cc, v);
      if cc.vacbs[v].dirty {
        cc := UnmarkDirty(cc, v);
      }
      assert cc.vacbs[v].refs == 1;
      cc := Unlink(cc, v);
    }

    /** CcPurgeCacheSection: throws away the stripes of a file that lie inside the range, dirty or not, but
        none that is in use; where a stripe was dirty the file falls back to what the medium holds. It
        reports success exactly when no stripe of the range is left. */
    method PurgeCacheSection(f: nat, start: nat, length: nat) returns (success: bool)
      requires Valid() && f in cc.files
      modifies this`cc, this`content
      ensures Valid() && Kept(old(cc), cc)
      ensures var end := PurgeEnd(start, length);
              && PurgeStep(old(cc), old(content), cc, content, f, start, end)
              && (success <==> forall v :: v in cc.vacbs && cc.vacbs[v].file == f && f in cc.files ==>
                    !InPurge(cc, v, f, start, end))
              && (success ==> (RangeEmpty(cc, f, start, end) <==> !EndsAt(old(cc), f, start, end)))
    {
      hide Structure, Refines, Kept, PurgeStep, PurgeRest, Purged, Discarded;
      var end := PurgeEnd(start, length);
      var rest, list := cc.files[f].list, [];
      success := true;
      PurgeStart(cc, content, f, start, end);
      PurgeRestStart(cc, f, start, end);
      while rest != []
        invariant Consistent() && Lists(list, cc.limbo.Keys) && success
        invariant PurgeStep(old(cc), old(content), cc, content, f, start, end) && PurgeRest(cc, rest, f, start, end)
        decreases |rest|
      {
        PurgeRestHead(cc, rest, f, start, end);
        var v := rest[0];
        if cc.vacbs[v].offset < start {
          PurgeRestSkip(cc, rest, f, start, end);
          rest := rest[1..];
          continue;
        }
        if ViewEnd(cc, v) >= end {
          break;
        }
        if (cc.vacbs[v].refs > 1 && !cc.vacbs[v].dirty) || (cc.vacbs[v].refs > 2 && cc.vacbs[v].dirty) {
          success := false;
          break;
        }
        ghost var c, m := cc, content;
        SectionsOf(cc, content, f);
        PurgeStripe(v);
        PurgedShape(c, v);
        PurgeNext(old(cc), old(content), c, m, f, start, end, v);
        PurgeRestTake(c, cc, rest, f, start, end);
        ListsAdded(list, c.limbo.Keys, v);
        list := list + [v];
        rest := rest[1..];
      }
      if success {
        PurgeRestBeyond(cc, rest, f, start, end);
      }
      ghost var c := cc;
      var n := FreeList(list);
      PurgeKept(old(cc), old(content), c, content, f, start, end);
      KeptLimbo(old(cc), c, cc);
      PurgeLimbo(old(cc), old(content), c, cc, content, f, start, end);
      if success { PurgeEmpties(old(cc), old(content), cc, content, f, start, end); }
    }

    /** Purging exactly the bytes of one stripe reports success and purges nothing. */
    method PurgeSparesLast(v: nat) returns (success: bool)
      requires Valid() && v in cc.vacbs && cc.vacbs[v].file in cc.files
      modifies this`cc, this`content
      ensures old(cc).vacbs[v].offset < ViewEnd(old(cc), v)
      ensures success && cc.vacbs == old(cc).vacbs
    {
      hide Structure, Refines, Kept, PurgeStep, EndsAt, RangeEmpty;
      PurgeNone(cc, v);
      var f, start := cc.vacbs[v].file, cc.vacbs[v].offset;
      var end := ViewEnd(cc, v);
      success := PurgeCacheSection(f, start, end - start);
      PurgeNoneLeft(old(cc), old(content), cc, content, f, start, end);
    }

    /** One stripe of CcRosDeleteFileCache, which nobody holds. */
    method DropStripe(v: nat)
      requires Consistent() && v in cc.vacbs && v in cc.holders && cc.holders[v] == 0
      requires cc.vacbs[v].file in cc.files && v in cc.files[cc.vacbs[v].file].list
      modifies this`cc, this`content
      ensures var f := old(cc).vacbs[v].file;
              && Consistent() && SameSections(old(cc), cc) && cc.disk == old(cc).disk && cc.holders == old(cc).holders
              && cc.vacbs == old(cc).vacbs - {v} && v !in old(cc).limbo && cc.limbo.Keys == old(cc).limbo.Keys + {v}
              && f in cc.files && |cc.files[f].list| < |old(cc).files[f].list|
              && f in old(content) && f in cc.disk && |old(content)[f]| == |cc.disk[f]|
              && content == Discarded(old(content), cc.disk, f, old(cc).vacbs[v].offset)
    {
      hide Structure, Refines, Purged, Discarded;
      UnmappedKeeps(cc, v, content);
      if cc.vacbs[v].mapped != 0 {
        cc := Put(cc, v, cc.vacbs[v].(mapped := 0, refs := cc.vacbs[v].refs - 1));
      }
      ghost var c := cc;
      PurgeStripe(v);
      PurgedShape(c, v);
      PurgedShortens(c, v);
    }

    /** CcRosDeleteFileCache, on the last close: every stripe of the file is freed, those up to the file's
        size after they are written back. The medium then holds the file; when the writes succeed no byte is
        lost if and only if every dirty stripe behind the file's size holds what the medium holds anyway. */
    method DeleteFileCache(f: nat, failing: set<nat>)
      requires Valid() && f in cc.files && f in cc.disk
      requires forall v :: v in cc.vacbs && cc.vacbs[v].file == f && v in cc.holders ==> cc.holders[v] == 0
      modifies this`cc, this`content
      ensures Valid() && SameSections(old(cc), cc) && forall v :: v in cc.vacbs ==> cc.vacbs[v].file != f
      ensures f in content && f in cc.disk && cc.disk[f] == content[f]
      ensures forall g :: g in old(content) && g != f ==> g in content && content[g] == old(content)[g]
      ensures failing == {} ==> (content == old(content) <==> SavedBeyond(old(cc), f))
    {
      hide Structure, Refines, Dropped, FlushedBetween, Discarded, SavedBeyond;
      FlushCache(f, 0, cc.files[f].fileSize, failing);
      FlushedSettled(old(cc), cc, f, 0, RoundUp(old(cc).files[f].fileSize), failing);
      if failing == {} { FlushSavesExactly(old(cc), cc, content, f); }
      ghost var c, m := cc, content;
      var list := [];
      DroppedStart(cc, content, f);
      while cc.files[f].list != []
        invariant Consistent() && Lists(list, cc.limbo.Keys) && f in cc.files && Dropped(c, m, cc, content, f)
        decreases |cc.files[f].list|
      {
        var l := cc.files[f].list;
        var v := l[|l| - 1];
        ghost var c1, m1 := cc, content;
        LastOfList(cc, f);
        Facts(cc, v);
        DroppedHeld(old(cc), c, m, cc, content, f, v);
        DropStripe(v);
        DroppedNext(c, m, c1, m1, cc, f, v);
        ListsAdded(list, c1.limbo.Keys, v);
        list := list + [v];
      }
      ghost var c2 := cc;
      UncachedHolds(cc, content, f);
      var n := FreeList(list);
      DroppedLimbo(c, m, c2, cc, content, f);
      DroppedMeans(c, m, cc, content, f);
      ContentIsDisk(old(content), content, f, c.disk);
    }
  }
}
