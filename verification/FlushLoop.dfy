/** The loop of CcRosFlushDirtyPages when writes may fail: exactly when it ends. What becomes of each dirty
    stripe is fixed: it is not eligible, or its write succeeds (also when it meets the end of the file), or
    fails because the medium is write-protected, which counts as written, or fails otherwise. A stripe whose
    write failed goes to the end of the dirty list, and the loop starts again at the head. */
module FlushLoop {
  import CacheState

  datatype Stripe = Skipped | Good | Protected | Bad

  datatype State = State(list: seq<Stripe>, target: nat)

  /** The first eligible stripe. */
  function First(list: seq<Stripe>): (i: nat)
    ensures i <= |list| && (i < |list| ==> !list[i].Skipped?) && forall k :: 0 <= k < i ==> list[k].Skipped?
  {
    if list == [] || !list[0].Skipped? then 0 else 1 + First(list[1..])
  }

  predicate Halted(s: State)
  {
    s.target == 0 || First(s.list) == |s.list|
  }

  function Counted(target: nat): nat
  {
    if target < CacheState.PAGES then 0 else target - CacheState.PAGES
  }

  /** One turn: the first eligible stripe is written. */
  function Next(s: State): State
    requires !Halted(s)
  {
    var i := First(s.list);
    var x, rest := s.list[i], s.list[..i] + s.list[i + 1..];
    State(if x.Good? then rest else rest + [x], if x.Bad? then s.target else Counted(s.target))
  }

  function After(s: State, n: nat): State
    decreases n
  {
    if n == 0 || Halted(s) then s else After(Next(s), n - 1)
  }

  function Goods(list: seq<Stripe>): nat
  {
    if list == [] then 0 else (if list[0].Good? then 1 else 0) + Goods(list[1..])
  }

  /** Nothing to do, or nothing that fails for good, or something to count forever, or enough to count. */
  ghost predicate Ends(s: State)
  {
    || s.target == 0
    || (forall i :: 0 <= i < |s.list| ==> !s.list[i].Bad?)
    || (exists i :: 0 <= i < |s.list| && s.list[i].Protected?)
    || CacheState.PAGES * Goods(s.list) >= s.target
  }

  lemma {:induction false} GoodsConcat(a: seq<Stripe>, b: seq<Stripe>)
    ensures Goods(a + b) == Goods(a) + Goods(b)
  {
    if a == [] {
      assert a + b == b;
    } else {
      assert (a + b)[1..] == a[1..] + b;
      GoodsConcat(a[1..], b);
    }
  }

  lemma {:induction false} SomeGood(list: seq<Stripe>)
    requires Goods(list) > 0
    ensures exists i :: 0 <= i < |list| && list[i].Good?
  {
    if !list[0].Good? {
      SomeGood(list[1..]);
      var i :| 0 <= i < |list[1..]| && list[1..][i].Good?;
      assert list[i + 1].Good?;
    }
  }

  lemma {:induction false} GoodsNext(s: State)
    requires !Halted(s)
    ensures Goods(Next(s).list) == Goods(s.list) - (if s.list[First(s.list)].Good? then 1 else 0)
  {
    var i := First(s.list);
    var a, x, b := s.list[..i], s.list[i], s.list[i + 1..];
    assert s.list == a + ([x] + b);
    GoodsConcat(a, [x] + b);
    GoodsConcat([x], b);
    GoodsConcat(a, b);
    GoodsConcat(a + b, [x]);
    assert [x][1..] == [];
  }

  // A turn rearranges the list, and loses at most a good stripe.
  lemma {:induction false} NextMembers(s: State)
    requires !Halted(s)
    ensures forall x: Stripe :: !x.Good? ==> (x in Next(s).list <==> x in s.list)
  {
    var i := First(s.list);
    assert s.list == s.list[..i] + [s.list[i]] + s.list[i + 1..];
  }

  lemma {:induction false} EndsKept(s: State)
    requires Ends(s) && !Halted(s)
    ensures Ends(Next(s))
  {
    GoodsNext(s);
    NextMembers(s);
    var n := Next(s);
    if Bad !in s.list {
      assert Bad !in n.list;
    } else if Protected in s.list {
      assert Protected in n.list;
    }
  }

  lemma {:induction false} StuckKept(s: State)
    requires !Ends(s)
    ensures !Halted(s) && !Ends(Next(s))
  {
    assert Bad in s.list;
    GoodsNext(s);
    NextMembers(s);
    var n := Next(s);
    assert Bad in n.list && Protected !in n.list;
  }

  /** Position of the first stripe whose write counts. */
  function FirstCounted(list: seq<Stripe>): (i: nat)
    ensures i <= |list| && (i < |list| ==> list[i].Good? || list[i].Protected?)
    ensures forall k :: 0 <= k < i ==> list[k].Skipped? || list[k].Bad?
  {
    if list == [] || list[0].Good? || list[0].Protected? then 0 else 1 + FirstCounted(list[1..])
  }

  lemma {:induction false} CountedThere(s: State)
    requires Ends(s) && !Halted(s)
    ensures FirstCounted(s.list) < |s.list|
  {
    var i := First(s.list);
    assert s.list[i] in s.list;
    if CacheState.PAGES * Goods(s.list) >= s.target {
      SomeGood(s.list);
    }
  }

  // A failing stripe that comes before the first one that counts makes room for it.
  lemma {:induction false} Closer(s: State)
    requires !Halted(s) && s.list[First(s.list)].Bad? && FirstCounted(s.list) < |s.list|
    ensures FirstCounted(Next(s).list) < FirstCounted(s.list)
  {
    var i, j, n := First(s.list), FirstCounted(s.list), Next(s);
    assert i < j;
    assert n.list[j - 1] == s.list[j];
  }

  lemma {:induction false} TargetNext(s: State)
    requires !Halted(s)
    ensures if s.list[First(s.list)].Bad? then Next(s).target == s.target else Next(s).target < s.target
  {
  }

  lemma {:induction false} AfterNothing(s: State)
    ensures After(s, 0) == s
  {
  }

  lemma {:induction false} AfterNext(s: State, n: nat)
    requires !Halted(s)
    ensures After(s, n + 1) == After(Next(s), n)
  {
  }

  lemma {:induction false} Reaches(s: State) returns (n: nat)
    requires Ends(s)
    ensures Halted(After(s, n))
    decreases s.target, FirstCounted(s.list)
  {
    hide Ends, Next, FirstCounted, After, Goods;
    n := 0;
    AfterNothing(s);
    if !Halted(s) {
      EndsKept(s);
      CountedThere(s);
      TargetNext(s);
      if s.list[First(s.list)].Bad? {
        Closer(s);
      }
      var m := Reaches(Next(s));
      AfterNext(s, m);
      n := m + 1;
    }
  }

  lemma {:induction false} NeverReaches(s: State, n: nat)
    requires !Ends(s)
    ensures !Halted(After(s, n))
    decreases n
  {
    hide Ends, Next;
    StuckKept(s);
    if n > 0 {
      NeverReaches(Next(s), n - 1);
      AfterNext(s, n - 1);
    }
  }

  /** The loop ends if and only if the target is zero, or no eligible stripe fails for good, or some eligible
      stripe is write-protected, or the stripes that can be written meet the target. */
  lemma {:induction false} EndsExactly(s: State)
    ensures (exists n: nat :: Halted(After(s, n))) <==> Ends(s)
  {
    hide Ends, Halted, After;
    if Ends(s) {
      var n := Reaches(s);
      assert Halted(After(s, n));
    } else {
      forall n: nat ensures !Halted(After(s, n)) {
        NeverReaches(s, n);
      }
    }
  }

  /** A single stripe whose write keeps failing is enough to go on forever. */
  lemma {:induction false} CanGoOnForever(n: nat)
    ensures !Halted(After(State([Bad], 1), n))
  {
    assert Goods([Bad]) == 0 by {
      assert [Bad][1..] == [];
    }
    NeverReaches(State([Bad], 1), n);
  }
}
