/** The registry's allocator for key control blocks and delay items: pages of equal entries, a list of the
    free ones, and a count of free entries on every page. */
module Slab {
  import opened Options
  import opened Seqs

  /** An entry of a page, or a block of its own from the pool. */
  datatype Entry = Slot(page: nat, index: nat) | Pool(block: nat)

  ghost predicate OnPage(e: Entry, p: nat, k: nat)
  {
    e.Slot? && e.page == p && e.index < k
  }

  ghost function Indices(k: nat): (s: set<nat>)
    ensures forall i: nat :: i in s <==> i < k
    ensures |s| == k
  {
    if k == 0 then {} else Indices(k - 1) + {k - 1}
  }

  /** The free entries of a page, by index. */
  ghost function FreeOn(free: seq<Entry>, p: nat, k: nat): (s: set<nat>)
  {
    set i | i in Indices(k) && Slot(p, i) in free
  }

  /** The state: free counts of the pages, the free list, and what is handed out. */
  datatype State = State(counts: map<nat, nat>, free: seq<Entry>, out: set<Entry>)

  ghost predicate PageOk(s: State, p: nat, k: nat)
    requires p in s.counts
  {
    && s.counts[p] == |FreeOn(s.free, p, k)|
    && forall i: nat :: i < k ==> (Slot(p, i) in s.free <==> Slot(p, i) !in s.out)
  }

  /** Every entry of a page is free once or handed out once; the counts are right. */
  ghost predicate Ok(s: State, k: nat)
  {
    && Distinct(s.free) && (forall p :: p in s.counts ==> PageOk(s, p, k))
    && (forall e :: e in s.free ==> e.Slot? && e.page in s.counts && e.index < k && e !in s.out)
    && (forall e :: e in s.out && e.Slot? ==> e.page in s.counts && e.index < k)
  }

  /** No page is wholly free. */
  ghost predicate NoIdlePage(s: State, k: nat)
  {
    forall p :: p in s.counts ==> s.counts[p] < k
  }

  lemma {:induction false} FreeOnOther(a: seq<Entry>, b: seq<Entry>, p: nat, k: nat)
    requires forall i: nat :: i < k ==> (Slot(p, i) in a <==> Slot(p, i) in b)
    ensures FreeOn(a, p, k) == FreeOn(b, p, k)
  {
  }

  // One entry more or less on the list.
  lemma {:induction false} FreeOnPlus(a: seq<Entry>, b: seq<Entry>, e: Entry, k: nat)
    requires e.Slot? && e.index < k && e !in a && forall x :: x in b <==> x in a || x == e
    ensures |FreeOn(b, e.page, k)| == |FreeOn(a, e.page, k)| + 1
    ensures forall p :: p != e.page ==> FreeOn(b, p, k) == FreeOn(a, p, k)
  {
    assert FreeOn(b, e.page, k) == FreeOn(a, e.page, k) + {e.index};
  }

  function Taken(s: State): State
    requires s.free != [] && s.free[0].Slot? && s.free[0].page in s.counts && s.counts[s.free[0].page] > 0
  {
    var e := s.free[0];
    State(s.counts[e.page := s.counts[e.page] - 1], s.free[1..], s.out + {e})
  }

  lemma {:induction false} TakeKeeps(s: State, k: nat)
    requires Ok(s, k) && s.free != []
    ensures var e := s.free[0]; e.Slot? && e.page in s.counts && e !in s.out && 0 < s.counts[e.page] <= k
    ensures Ok(Taken(s), k)
  {
    var e := s.free[0];
    assert e in s.free && s.free == [e] + s.free[1..];
    FreeOnPlus(s.free[1..], s.free, e, k);
    SubsetSize(FreeOn(s.free, e.page, k), Indices(k));
    var n := Taken(s);
    forall p | p in n.counts ensures PageOk(n, p, k) {
      assert PageOk(s, p, k);
    }
  }

  function Given(s: State, e: Entry): State
    requires e.Slot? && e.page in s.counts
  {
    State(s.counts[e.page := s.counts[e.page] + 1], s.free + [e], s.out - {e})
  }

  lemma {:induction false} GiveKeeps(s: State, e: Entry, k: nat)
    requires Ok(s, k) && e in s.out && e.Slot?
    ensures e.page in s.counts && e.index < k && s.counts[e.page] < k && Ok(Given(s, e), k)
  {
    assert PageOk(s, e.page, k);
    assert FreeOn(s.free, e.page, k) <= Indices(k) - {e.index};
    SubsetSize(FreeOn(s.free, e.page, k), Indices(k) - {e.index});
    FreeOnPlus(s.free, s.free + [e], e, k);
    var n := Given(s, e);
    forall p | p in n.counts ensures PageOk(n, p, k) {
      assert PageOk(s, p, k);
    }
  }

  /** The list without the first `i` entries of page `p`. */
  ghost predicate Stripped(was: seq<Entry>, now: seq<Entry>, p: nat, i: nat)
  {
    Distinct(now) && forall e :: e in now <==> e in was && !OnPage(e, p, i)
  }

  /** The entry went to the end of the list; or, being the last one in use, took its page with it, so that
      exactly the page's entries left the list. */
  ghost predicate Returned(s: State, n: State, e: Entry, k: nat)
    requires e.Slot? && e.page in s.counts
  {
    if s.counts[e.page] + 1 == k then n.counts == s.counts - {e.page} && Stripped(s.free + [e], n.free, e.page, k)
    else n.counts == s.counts[e.page := s.counts[e.page] + 1] && n.free == s.free + [e]
  }

  // A page all of whose entries are free goes, with just these.
  lemma {:induction false} DropKeeps(s: State, n: State, p: nat, k: nat)
    requires Ok(s, k) && p in s.counts && s.counts[p] == k && n == State(s.counts - {p}, n.free, s.out)
    requires Stripped(s.free, n.free, p, k)
    ensures Ok(n, k)
  {
    AllFree(s, p, k);
    forall q | q in n.counts ensures PageOk(n, q, k) {
      assert PageOk(s, q, k);
      FreeOnOther(s.free, n.free, q, k);
    }
  }

  lemma {:induction false} AllFree(s: State, p: nat, k: nat)
    requires Ok(s, k) && p in s.counts && s.counts[p] == k
    ensures forall e :: OnPage(e, p, k) ==> e in s.free && e !in s.out
  {
    assert PageOk(s, p, k);
    FullSet(FreeOn(s.free, p, k), Indices(k));
    forall e | OnPage(e, p, k) ensures e in s.free && e !in s.out {
      assert e == Slot(p, e.index) && e.index in FreeOn(s.free, p, k);
    }
  }

  lemma {:induction false} CountBound(s: State, p: nat, k: nat)
    requires Ok(s, k) && p in s.counts
    ensures s.counts[p] <= k
  {
    assert PageOk(s, p, k);
    SubsetSize(FreeOn(s.free, p, k), Indices(k));
  }

  // The page of the entry taken was the only one that could be wholly free.
  lemma {:induction false} NoIdleAfterTake(s: State, k: nat)
    requires Ok(s, k) && s.free != [] && s.free[0].Slot? && s.free[0].page in s.counts
    requires 0 < s.counts[s.free[0].page] <= k
    requires forall p :: p in s.counts && s.counts[p] == k ==> p == s.free[0].page
    ensures NoIdlePage(Taken(s), k)
  {
    forall p | p in s.counts ensures s.counts[p] <= k {
      CountBound(s, p, k);
    }
  }

  lemma {:induction false} FullSet(a: set<nat>, b: set<nat>)
    requires a <= b && |a| == |b|
    ensures a == b
  {
    if a != b {
      SmallerSet(a, b);
    }
  }

  // A new page, all of whose entries are free.
  lemma {:induction false} PageKeeps(s: State, n: State, p: nat, k: nat)
    requires Ok(s, k) && p !in s.counts && n == State(s.counts[p := k], n.free, s.out) && Distinct(n.free)
    requires forall e :: e in n.free <==> e in s.free || OnPage(e, p, k)
    ensures Ok(n, k)
  {
    assert FreeOn(n.free, p, k) == Indices(k);
    forall q | q in n.counts ensures PageOk(n, q, k) {
      if q != p {
        assert PageOk(s, q, k);
        FreeOnOther(s.free, n.free, q, k);
      }
    }
  }

  class Allocator {
    const perPage: nat   // CM_KCBS_PER_PAGE, CM_DELAYS_PER_PAGE
    const pooled: bool   // key control blocks fall back to the pool, delay items do not
    var counts: map<nat, nat>
    var free: seq<Entry>
    var nextPage: nat
    var nextBlock: nat
    var memory: bool     // whether the pool has memory left
    ghost var out: set<Entry>

    ghost function S(): State
      reads this
    {
      State(counts, free, out)
    }

    ghost predicate Sound()
      reads this
    {
      && Ok(S(), perPage) && perPage > 0 && (forall p :: p in counts ==> p < nextPage)
      && (forall e :: e in out && e.Pool? ==> e.block < nextBlock)
    }

    ghost predicate Valid()
      reads this
    {
      Sound() && NoIdlePage(S(), perPage)
    }

    constructor (perPage: nat, pooled: bool, memory: bool)
      requires perPage > 0
      ensures Valid() && out == {} && this.perPage == perPage && this.pooled == pooled && this.memory == memory
    {
      this.perPage, this.pooled, this.memory := perPage, pooled, memory;
      counts, free, nextPage, nextBlock, out := map[], [], 0, 0, {};
    }

    /** A new page, its entries at the end of the free list; there may be none. */
    method AddPage() returns (ok: bool)
      requires Sound()
      modifies this`counts, this`free, this`nextPage
      ensures Sound() && (!ok ==> S() == old(S())) && (memory ==> ok)
      ensures ok ==> |free| > 0 && nextPage == old(nextPage) + 1 && counts == old(counts)[old(nextPage) := perPage]
      ensures ok ==> forall e :: e in free <==> e in old(free) || OnPage(e, old(nextPage), perPage)
    {
      ok := *;
      ok := ok || memory;
      if !ok {
        return;
      }
      var p := nextPage;
      var i := 0;
      while i < perPage
        invariant i <= perPage && Distinct(free) && (forall e :: e in free <==> e in old(free) || OnPage(e, p, i))
        invariant counts == old(counts) && nextPage == p
      {
        free := free + [Slot(p, i)];
        i := i + 1;
      }
      assert OnPage(Slot(p, 0), p, perPage);
      counts := counts[p := perPage];
      nextPage := p + 1;
      PageKeeps(old(S()), S(), p, perPage);
    }

    /** CmpAllocateKeyControlBlock, CmpAllocateDelayItem: an entry that nobody has. */
    method Allocate() returns (r: Option<Entry>)
      requires Valid()
      modifies this`counts, this`free, this`nextPage, this`nextBlock, this`out
      ensures Valid() && (memory ==> r.Some?)
      ensures r.None? ==> out == old(out) && counts == old(counts) && free == old(free) == []
      ensures old(free) != [] ==> r == Some(old(free)[0]) && free == old(free)[1..]
      ensures r.Some? ==> r.value !in old(out) && out == old(out) + {r.value} && (r.value.Pool? ==> pooled)
    {
      var ok := free != [];
      if !ok {
        ok := AddPage();
      }
      if ok {
        r := Take();
        return;
      }
      var granted: bool := *;
      if pooled && granted {
        r := Some(Pool(nextBlock));
        out := out + {Pool(nextBlock)};
        nextBlock := nextBlock + 1;
        PoolKeeps(old(S()), S(), perPage);
      } else {
        r := None;
      }
    }

    /** Takes the first free entry. */
    method Take() returns (r: Option<Entry>)
      requires Sound() && free != [] && forall p :: p in counts && counts[p] == perPage ==> p == free[0].page
      modifies this`counts, this`free, this`out
      ensures Valid() && r == Some(old(free)[0]) && free == old(free)[1..] && r.value.Slot? && r.value !in old(out)
      ensures out == old(out) + {r.value}
    {
      hide Ok, NoIdlePage;
      TakeKeeps(S(), perPage);
      NoIdleAfterTake(S(), perPage);
      var e := free[0];
      free := free[1..];
      counts := counts[e.page := counts[e.page] - 1];
      out := out + {e};
      r := Some(e);
    }

    /** CmpFreeKeyControlBlock, CmpFreeDelayItem: the entry is free again; if it was the last one in use on
        its page, exactly that page's entries leave the list and the page goes. */
    method Free(e: Entry)
      requires Valid() && e in out && (e.Slot? || pooled)
      modifies this`counts, this`free, this`out
      ensures Valid() && out == old(out) - {e}
      ensures e.Pool? ==> counts == old(counts) && free == old(free)
      ensures e.Slot? ==> e.page in old(counts) && Returned(old(S()), S(), e, perPage)
    {
      hide Ok, NoIdlePage, Stripped;
      if e.Pool? {
        out := out - {e};
        PoolFreed(old(S()), S(), e, perPage);
        return;
      }
      GiveKeeps(S(), e, perPage);
      free := free + [e];
      out := out - {e};
      var p := e.page;
      counts := counts[p := counts[p] + 1];
      if counts[p] == perPage {
        DropPage(p);
      }
      NoIdleAfterFree(old(S()), S(), e, perPage);
    }

    /** Takes a wholly free page's entries off the list, and frees the page. */
    method DropPage(p: nat)
      requires Sound() && p in counts && counts[p] == perPage
      modifies this`counts, this`free
      ensures Sound() && counts == old(counts) - {p} && Stripped(old(free), free, p, perPage)
    {
      hide Ok;
      ghost var s := S();
      var i := 0;
      NothingStripped(s, p, perPage);
      while i < perPage
        invariant i <= perPage && Stripped(s.free, free, p, i) && counts == s.counts
      {
        hide Stripped;
        StripNext(s.free, free, p, i);
        free := Removed(free, Slot(p, i));
        i := i + 1;
      }
      counts := counts - {p};
      hide Stripped;
      DropKeeps(s, S(), p, perPage);
    }
  }

  lemma {:induction false} NothingStripped(s: State, p: nat, k: nat)
    requires Ok(s, k)
    ensures Stripped(s.free, s.free, p, 0)
  {
  }

  lemma {:induction false} StripNext(was: seq<Entry>, now: seq<Entry>, p: nat, i: nat)
    requires Stripped(was, now, p, i)
    ensures Stripped(was, Removed(now, Slot(p, i)), p, i + 1)
  {
    RemovedMembers(now, Slot(p, i));
    forall e: Entry ensures OnPage(e, p, i + 1) <==> OnPage(e, p, i) || e == Slot(p, i) {
    }
  }

  lemma {:induction false} NoIdleAfterFree(s: State, n: State, e: Entry, k: nat)
    requires NoIdlePage(s, k) && e.Slot? && e.page in s.counts && Returned(s, n, e, k)
    ensures NoIdlePage(n, k)
  {
  }

  lemma {:induction false} PoolKeeps(s: State, n: State, k: nat)
    requires Ok(s, k) && n == s.(out := n.out) && forall e: Entry :: e.Slot? ==> (e in n.out <==> e in s.out)
    ensures Ok(n, k)
  {
    forall p | p in n.counts ensures PageOk(n, p, k) {
      assert PageOk(s, p, k);
    }
  }

  lemma {:induction false} PoolFreed(s: State, n: State, e: Entry, k: nat)
    requires Ok(s, k) && NoIdlePage(s, k) && e.Pool? && n == s.(out := s.out - {e})
    ensures Ok(n, k) && NoIdlePage(n, k)
  {
    PoolKeeps(s, n, k);
  }
}
