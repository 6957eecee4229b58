/** Inversions and descents of a sequence of tags: the measure behind the group sort of
    the boot driver list, which inserts one place too early and repairs itself by rescanning. */
module Inversions {
  import opened Seqs

  function Less(s: seq<nat>, x: nat): nat
  {
    if s == [] then 0 else (if s[0] < x then 1 else 0) + Less(s[1..], x)
  }

  function Greater(s: seq<nat>, x: nat): nat
  {
    if s == [] then 0 else (if s[0] > x then 1 else 0) + Greater(s[1..], x)
  }

  function Count(s: seq<nat>): nat
  {
    if s == [] then 0 else Less(s[1..], s[0]) + Count(s[1..])
  }

  /** Index of the first element at or after `c` that is larger than its successor,
      or the last index when there is none. */
  function FirstDescent(s: seq<nat>, c: nat): (d: nat)
    requires c < |s|
    ensures c <= d < |s|
    ensures d + 1 < |s| ==> s[d] > s[d + 1]
    decreases |s| - c
  {
    if c + 1 == |s| || s[c] > s[c + 1] then c else FirstDescent(s, c + 1)
  }

  function InsertAt<T>(s: seq<T>, k: nat, x: T): seq<T>
    requires k <= |s|
  {
    s[..k] + [x] + s[k..]
  }

  /** The element at `c + 1` taken out and put back in front of the element at `p`. */
  function MoveEarlier<T>(s: seq<T>, c: nat, p: nat): (t: seq<T>)
    requires p <= c && c + 1 < |s|
    ensures |t| == |s|
  {
    seq(|s|, i requires 0 <= i < |s| => if i < p || i > c + 1 then s[i] else if i == p then s[c + 1] else s[i - 1])
  }

  lemma {:induction false} LessConcat(a: seq<nat>, b: seq<nat>, x: nat)
    ensures Less(a + b, x) == Less(a, x) + Less(b, x)
  {
    if a == [] {
      assert a + b == b;
    } else {
      assert (a + b)[1..] == a[1..] + b;
      LessConcat(a[1..], b, x);
    }
  }

  // Taking x past b: what was counted as "larger than x before it" becomes "smaller than x after it".
  lemma {:induction false} CountPastBlock(b: seq<nat>, x: nat, c: seq<nat>)
    ensures Count(b + ([x] + c)) + Less(b, x) == Count([x] + (b + c)) + Greater(b, x)
  {
    assert ([x] + (b + c))[1..] == b + c;
    LessConcat(b, c, x);
    if b == [] {
      assert b + ([x] + c) == [x] + c && b + c == c;
    } else {
      var y, r := b[0], b[1..];
      CountPastBlock(r, x, c);
      assert (b + ([x] + c))[1..] == r + ([x] + c);
      assert (b + c)[1..] == r + c;
      assert ([x] + (r + c))[1..] == r + c;
      assert ([x] + c)[1..] == c;
      LessConcat(r, [x] + c, y);
      LessConcat(r, c, y);
      LessConcat(r, c, x);
    }
  }

  // A common prefix does not matter to the difference.
  lemma {:induction false} CountPrefix(a: seq<nat>, b: seq<nat>, x: nat, c: seq<nat>)
    ensures Count(a + (b + ([x] + c))) + Less(b, x) == Count(a + ([x] + (b + c))) + Greater(b, x)
  {
    var u, v := b + ([x] + c), [x] + (b + c);
    if a == [] {
      assert a + u == u && a + v == v;
      CountPastBlock(b, x, c);
    } else {
      assert (a + u)[1..] == a[1..] + u && (a + v)[1..] == a[1..] + v;
      CountPrefix(a[1..], b, x, c);
      LessConcat(a[1..], u, a[0]);
      LessConcat(a[1..], v, a[0]);
      LessConcat(b, [x] + c, a[0]);
      LessConcat([x], c, a[0]);
      LessConcat([x], b + c, a[0]);
      LessConcat(b, c, a[0]);
    }
  }

  lemma {:induction false} AllGreater(s: seq<nat>, x: nat)
    requires forall k :: 0 <= k < |s| ==> s[k] > x
    ensures Greater(s, x) == |s| && Less(s, x) == 0
  {
    if s != [] {
      AllGreater(s[1..], x);
    }
  }

  ghost predicate SortedBetween(s: seq<nat>, lo: nat, c: nat)
  {
    lo <= c < |s| && forall i, j :: lo <= i < j <= c ==> s[i] <= s[j]
  }

  /** The element after `c` is too small for its place, and `p` is where the scan back to `lo` stops. */
  ghost predicate Insertable(s: seq<nat>, lo: nat, c: nat, p: nat)
  {
    && lo <= p <= c && c + 1 < |s| && SortedBetween(s, lo, c) && s[c] > s[c + 1]
    && (forall k :: p < k <= c ==> s[k] > s[c + 1])
    && (p == lo || s[p] <= s[c + 1])
  }

  lemma {:induction false} MoveByRemoveInsert<T>(s: seq<T>, c: nat, p: nat)
    requires p <= c && c + 1 < |s|
    ensures |Without(s, c + 1)| == |s| - 1
    ensures InsertAt(Without(s, c + 1), p, s[c + 1]) == MoveEarlier(s, c, p)
  {
    var r, t := Without(s, c + 1), MoveEarlier(s, c, p);
    assert r[..p] == s[..p] == t[..p];
    assert forall i :: p <= i < |r| ==> r[i] == t[i + 1];
    assert r[p..] == t[p + 1..];
  }

  lemma {:induction false} MoveSplit<T>(s: seq<T>, c: nat, p: nat)
    requires p <= c && c + 1 < |s|
    ensures s == s[..p] + (s[p..c + 1] + ([s[c + 1]] + s[c + 2..]))
    ensures MoveEarlier(s, c, p) == s[..p] + ([s[c + 1]] + (s[p..c + 1] + s[c + 2..]))
  {
  }

  lemma {:induction false} MoveKeepsElements<T>(s: seq<T>, c: nat, p: nat)
    requires p <= c && c + 1 < |s|
    ensures multiset(MoveEarlier(s, c, p)) == multiset(s)
  {
    MoveSplit(s, c, p);
  }

  lemma {:induction false} MoveCount(s: seq<nat>, lo: nat, c: nat, p: nat)
    requires Insertable(s, lo, c, p)
    ensures Count(s) + (if s[p] < s[c + 1] then 1 else 0)
         == Count(MoveEarlier(s, c, p)) + (c - p) + (if s[p] > s[c + 1] then 1 else 0)
  {
    MoveSplit(s, c, p);
    BlockCount(s[p..c + 1], s[c + 1]);
    CountPrefix(s[..p], s[p..c + 1], s[c + 1], s[c + 2..]);
  }

  lemma {:induction false} BlockCount(b: seq<nat>, x: nat)
    requires b != [] && forall k :: 1 <= k < |b| ==> b[k] > x
    ensures Greater(b, x) == |b| - 1 + (if b[0] > x then 1 else 0)
    ensures Less(b, x) == if b[0] < x then 1 else 0
  {
    AllGreater(b[1..], x);
  }

  /** One insertion of the group sort: the part up to the moved element is sorted, and either an
      inversion disappears or the first descent moves toward the front. */
  lemma {:induction false} MoveStep(s: seq<nat>, lo: nat, c: nat, p: nat)
    requires Insertable(s, lo, c, p)
    ensures var t := MoveEarlier(s, c, p);
            && SortedBetween(t, lo, p) && Count(t) <= Count(s)
            && (Count(t) == Count(s) ==> FirstDescent(t, p) < FirstDescent(s, c))
  {
    MoveCount(s, lo, c, p);
  }
}
