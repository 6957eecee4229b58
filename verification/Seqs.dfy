/** Lists without repetition, as the linked lists of the kernel are. */
module Seqs {

  ghost predicate Distinct<T>(q: seq<T>)
  {
    forall i, j :: 0 <= i < j < |q| ==> q[i] != q[j]
  }

  /** `q` lists the members of `s`, each once. */
  ghost predicate Lists<T(!new)>(q: seq<T>, s: set<T>)
  {
    Distinct(q) && forall x :: x in q <==> x in s
  }

  function Removed<T(==)>(q: seq<T>, x: T): (r: seq<T>)
    ensures x !in q ==> r == q
  {
    if q == [] then [] else if q[0] == x then q[1..] else [q[0]] + Removed(q[1..], x)
  }

  /** The sequence without its element at `k`. */
  function Without<T>(q: seq<T>, k: nat): (r: seq<T>)
    requires k < |q|
    ensures |r| == |q| - 1
  {
    q[..k] + q[k + 1..]
  }

  lemma {:induction false} RemovedMembers<T(!new)>(q: seq<T>, x: T)
    requires Distinct(q)
    ensures Distinct(Removed(q, x))
    ensures forall y :: y in Removed(q, x) <==> y in q && y != x
    ensures |Removed(q, x)| == if x in q then |q| - 1 else |q|
  {
    if q != [] {
      var t := q[1..];
      assert q == [q[0]] + t;
      RemovedMembers(t, x);
      if q[0] != x {
        assert q[0] !in t;
        DistinctCons(q[0], Removed(t, x));
      }
    }
  }

  lemma {:induction false} DistinctCons<T(!new)>(y: T, r: seq<T>)
    requires Distinct(r) && y !in r
    ensures Distinct([y] + r)
  {
  }

  lemma {:induction false} ListsRemoved<T(!new)>(q: seq<T>, s: set<T>, x: T)
    requires Lists(q, s)
    ensures Lists(Removed(q, x), s - {x})
  {
    RemovedMembers(q, x);
  }

  lemma {:induction false} ListsAdded<T(!new)>(q: seq<T>, s: set<T>, x: T)
    requires Lists(q, s) && x !in s
    ensures Lists(q + [x], s + {x})
  {
  }

  lemma {:induction false} ListsMoved<T(!new)>(q: seq<T>, s: set<T>, x: T)
    requires Lists(q, s) && x in s
    ensures Lists(Removed(q, x) + [x], s)
  {
    ListsRemoved(q, s, x);
    ListsAdded(Removed(q, x), s - {x}, x);
    assert s - {x} + {x} == s;
  }

  lemma {:induction false} ListsSize<T(!new)>(q: seq<T>, s: set<T>)
    requires Lists(q, s)
    ensures |q| == |s|
  {
    if q != [] {
      assert forall y :: y in q <==> y == q[0] || y in q[1..];
      ListsSize(q[1..], s - {q[0]});
    }
  }

  lemma {:induction false} RemovedShorter<T(!new)>(s: seq<T>, x: T)
    ensures |Removed(s, x)| <= |s| && (x in s ==> |Removed(s, x)| < |s|)
  {
    if s != [] {
      RemovedShorter(s[1..], x);
      assert s == [s[0]] + s[1..];
    }
  }

  lemma {:induction false} RemovedIs<T(!new)>(q: seq<T>, i: nat, x: T)
    requires i < |q| && q[i] == x && x !in q[..i]
    ensures Removed(q, x) == q[..i] + q[i + 1..]
  {
    if i > 0 {
      assert q[0] in q[..i] && q[1..][..i - 1] == q[..i][1..];
      RemovedIs(q[1..], i - 1, x);
      assert q[..i] == [q[0]] + q[1..][..i - 1] && q[1..][i - 1 + 1..] == q[i + 1..];
    }
  }

  lemma {:induction false} SmallerSet<T>(a: set<T>, b: set<T>)
    requires a < b
    ensures |a| < |b|
  {
    var x :| x in b && x !in a;
    assert a <= b - {x};
    SubsetSize(a, b - {x});
  }

  lemma {:induction false} SubsetSize<T>(a: set<T>, b: set<T>)
    requires a <= b
    ensures |a| <= |b|
    decreases a
  {
    if a != {} {
      var x :| x in a;
      SubsetSize(a - {x}, b - {x});
    }
  }
}
